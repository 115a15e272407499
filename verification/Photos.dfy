/**
 * The photo listing routes over the photos directory: the image-name filter and
 * the entry each kept name becomes, and the not-found branch of serving a file.
 */
module Photos {
  import opened Common
  import opened Text

  /** An entry of the listing. */
  datatype PhotoEntry = PhotoEntry(id: string, url: string, name: string)

  /** The listing's pattern `\.(jpg|jpeg|png|gif)$` with the `i` flag: the name ends in one of the four extensions, in any case. */
  predicate IsImageName(f: string)
  {
    var lower := ToLower(f);
    EndsWith(lower, ".jpg") || EndsWith(lower, ".jpeg") || EndsWith(lower, ".png") || EndsWith(lower, ".gif")
  }

  /** The entry for a kept name. */
  function EntryFor(f: string): PhotoEntry
  {
    PhotoEntry(f, "/api/photos/" + f, f)
  }

  /** The names an entry list was made from. */
  function Names(entries: seq<PhotoEntry>): (r: seq<string>)
    ensures |r| == |entries|
    ensures forall i :: 0 <= i < |entries| ==> r[i] == entries[i].name
    decreases |entries|
  {
    if entries == [] then [] else [entries[0].name] + Names(entries[1..])
  }

  /** `files.filter(isImage).map(toEntry)`: one entry per image name, in directory order. */
  function ListPhotos(files: seq<string>): (r: seq<PhotoEntry>)
    ensures forall e :: e in r ==> e == EntryFor(e.name)
    ensures forall f :: EntryFor(f) in r <==> f in files && IsImageName(f)
    ensures Names(r) == Filter(files, IsImageName)
    ensures |r| <= |files|
    decreases |files|
  {
    if files == [] then []
    else
      var rest := ListPhotos(files[1..]);
      if IsImageName(files[0]) then
        var r := [EntryFor(files[0])] + rest;
        assert Names(r) == [files[0]] + Names(rest) by {
          assert Names(r)[1..] == Names(rest);
        }
        r
      else rest
  }

  /** Listing a directory split in two lists each part in turn: the listing keeps directory order. */
  lemma {:induction false} ListPhotosConcat(a: seq<string>, b: seq<string>)
    ensures ListPhotos(a + b) == ListPhotos(a) + ListPhotos(b)
    decreases |a|
  {
    if a == [] {
      assert a + b == b;
    } else {
      assert (a + b)[0] == a[0];
      assert (a + b)[1..] == a[1..] + b;
      ListPhotosConcat(a[1..], b);
    }
  }

  /** The pattern ignores case: a name and its lower-case form are kept or dropped together. */
  lemma ImageNameIgnoresCase(f: string)
    ensures IsImageName(f) <==> IsImageName(ToLower(f))
  {
    LowerIsFixed(ToLower(f));
  }

  /** An entry's identity: its id and name are the file name and its URL is the file name under `/api/photos/`. */
  lemma EntryShape(files: seq<string>, e: PhotoEntry)
    requires e in ListPhotos(files)
    ensures e.id == e.name && e.url == "/api/photos/" + e.name && e.name in files && IsImageName(e.name)
  {
  }

  /** A JSON response of the listing route. */
  datatype ListResponse = Listing(photos: seq<PhotoEntry>) | ListError(status: nat, error: string)

  /** `GET /`: `dir` is the result of reading the directory, `None` when reading fails. */
  function HandleList(dir: Option<seq<string>>): (r: ListResponse)
    ensures dir.None? <==> r == ListError(500, "Failed to read photos")
    ensures dir.Some? ==> r == Listing(ListPhotos(dir.value))
  {
    match dir
    case None => ListError(500, "Failed to read photos")
    case Some(files) => Listing(ListPhotos(files))
  }

  /** What `GET /:filename` does: send the file, or answer not found. */
  datatype ServeResponse = SendFile(filename: string) | ServeError(status: nat, error: string)

  /** `GET /:filename`: `accessible` is whether the joined path can be accessed. */
  function HandleServe(filename: string, accessible: bool): (r: ServeResponse)
    ensures r.SendFile? <==> accessible
    ensures r.SendFile? ==> r.filename == filename
    ensures !accessible ==> r == ServeError(404, "Photo not found")
  {
    if accessible then SendFile(filename) else ServeError(404, "Photo not found")
  }
}
