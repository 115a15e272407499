/** The records the web client receives from the server. */
module Types {
  import opened Common

  datatype User = User(id: int, email: string, name: Option<string>)

  datatype Tag = Tag(id: int, name: string)

  /** A photo as listed by the server; `gcsUrl` is set only when it lives in cloud storage. */
  datatype Photo = Photo(
    id: int,
    filename: string,
    originalName: string,
    description: Option<string>,
    gcsUrl: Option<string>,
    createdAt: string,
    updatedAt: string,
    tags: seq<Tag>,
    user: User)
}
