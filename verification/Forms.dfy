/** What a browser form sends: the files the user picked and the multipart entries built from the form state. */
module Forms {

  /** A file the user dropped or picked; only its name is observable to the model. */
  datatype LocalFile = LocalFile(name: string)

  /** One `formData.append(name, value)` call. */
  datatype FormEntry =
    | FileField(name: string, file: LocalFile)
    | TextField(name: string, value: string)
      /** A field whose value is `JSON.stringify` of a list of strings (the encoding itself is not modelled). */
    | JsonListField(name: string, items: seq<string>)
}
