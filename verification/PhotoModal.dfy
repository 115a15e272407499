/**
 * The photo detail dialog: which image it shows, who may delete the photo,
 * the delete request it sends, and the state of its confirmation step.
 */
module PhotoModal {
  import opened Common
  import opened Text
  import opened Types
  import PhotoGrid
  import AuthMiddleware

  /** The segment the server serves local files under. */
  const FileSegment := "/file/"

  /** `imageUrl`: the cloud-storage URL when there is a non-empty one, else the server's file route for the stored name. */
  function ImageUrl(photosBase: string, photo: Photo): (r: string)
    ensures Truthy(photo.gcsUrl) ==> r == photo.gcsUrl.value
    ensures !Truthy(photo.gcsUrl) ==> StartsWith(r, photosBase + FileSegment) && r[|photosBase + FileSegment|..] == photo.filename
  {
    if Truthy(photo.gcsUrl) then photo.gcsUrl.value
    else
      var prefix := photosBase + FileSegment;
      assert (prefix + photo.filename)[..|prefix|] == prefix;
      prefix + photo.filename
  }

  /** Two photos without a cloud URL get different local URLs exactly when their stored names differ. */
  lemma LocalUrlsFollowFilenames(photosBase: string, p: Photo, q: Photo)
    requires !Truthy(p.gcsUrl) && !Truthy(q.gcsUrl)
    ensures ImageUrl(photosBase, p) == ImageUrl(photosBase, q) <==> p.filename == q.filename
  {
  }

  /** `isOwner`: the signed-in user's id is the uploader's id. */
  predicate IsOwner(currentUserId: Option<int>, photo: Photo)
  {
    currentUserId == Some(photo.user.id)
  }

  /** Nobody signed in owns nothing, and the uploader always owns their photo. */
  lemma OwnerCases(photo: Photo)
    ensures !IsOwner(None, photo)
    ensures IsOwner(Some(photo.user.id), photo)
    ensures forall id :: IsOwner(Some(id), photo) <==> id == photo.user.id
  {
  }

  /** The target of the DELETE request: the photos endpoint followed by `/` and the id. */
  function DeleteUrl(photosBase: string, id: int): (r: string)
    ensures StartsWith(r, photosBase + "/")
    ensures r[|photosBase| + 1..] == IntToString(id) && '/' !in r[|photosBase| + 1..]
  {
    var s := IntToString(id);
    var r := photosBase + "/" + s;
    assert r[..|photosBase| + 1] == photosBase + "/";
    assert r[|photosBase| + 1..] == s;
    assert forall i :: 0 <= i < |s| ==> s[i] == '-' || IsDigit(s[i]);
    r
  }

  /** Different photos are deleted through different URLs. */
  lemma DeleteUrlInjective(photosBase: string, a: int, b: int)
    requires a != b
    ensures DeleteUrl(photosBase, a) != DeleteUrl(photosBase, b)
  {
    PhotoGrid.ParseIntToString(a);
    PhotoGrid.ParseIntToString(b);
  }

  /** `Bearer ${localStorage.getItem('token')}`: a missing token is written as the text `null`. */
  function BearerHeader(token: Option<string>): (r: string)
    ensures StartsWith(r, "Bearer ")
    ensures r[7..] == if token.Some? then token.value else "null"
  {
    var t := if token.Some? then token.value else "null";
    assert ("Bearer " + t)[7..] == t;
    "Bearer " + t
  }

  /**
   * What the server reads back from that header: the stored token when it is a
   * single non-empty word, and the word `null` when nothing was stored.
   */
  lemma HeaderCarriesToken(token: Option<string>)
    requires token.Some? ==> token.value != "" && ' ' !in token.value
    ensures token.Some? ==> AuthMiddleware.ExtractToken(Some(BearerHeader(token))) == token
    ensures token.None? ==> AuthMiddleware.ExtractToken(Some(BearerHeader(token))) == Some("null")
  {
    var t := if token.Some? then token.value else "null";
    assert BearerHeader(token) == "Bearer" + " " + t + "";
    AuthMiddleware.TokenAfterAnyScheme("Bearer", t, "");
  }

  /** The request `handleDeleteConfirm` sends. */
  datatype DeleteRequest = DeleteRequest(url: string, authorization: string)

  /** A callback the dialog invokes. */
  datatype Callback = OnDelete | OnClose

  /** A toast shown to the user. */
  datatype Toast = Toast(title: string, success: bool)

  /** The delete button and its confirmation dialog. */
  class DeleteDialog {
    var isDeleteModalOpen: bool
    var isDeleting: bool

    constructor ()
      ensures !isDeleteModalOpen && !isDeleting
    {
      isDeleteModalOpen := false;
      isDeleting := false;
    }

    /** The delete button is rendered only for the owner, so only the owner can open the confirmation. */
    method DeleteClick(currentUserId: Option<int>, photo: Photo)
      modifies this
      ensures isDeleteModalOpen == (old(isDeleteModalOpen) || IsOwner(currentUserId, photo))
      ensures isDeleting == old(isDeleting)
    {
      if IsOwner(currentUserId, photo) {
        isDeleteModalOpen := true;
      }
    }

    /** Dismissing the confirmation closes it. */
    method Cancel()
      modifies this
      ensures !isDeleteModalOpen && isDeleting == old(isDeleting)
    {
      isDeleteModalOpen := false;
    }

    /**
     * `handleDeleteConfirm`: send the DELETE; when `responseOk`, report success and
     * call `onDelete` (if given) and then `onClose`; otherwise report the error and
     * call neither. Either way the dialog ends closed and not deleting.
     */
    method DeleteConfirm(photosBase: string, photo: Photo, storedToken: Option<string>,
                         responseOk: bool, hasOnDelete: bool)
      returns (request: DeleteRequest, calls: seq<Callback>, toast: Toast)
      modifies this
      ensures request == DeleteRequest(DeleteUrl(photosBase, photo.id), BearerHeader(storedToken))
      ensures responseOk ==> calls == (if hasOnDelete then [OnDelete, OnClose] else [OnClose])
      ensures responseOk ==> toast == Toast("Photo deleted", true)
      ensures !responseOk ==> calls == [] && toast == Toast("Error deleting photo", false)
      ensures !isDeleting && !isDeleteModalOpen
    {
      isDeleting := true;
      request := DeleteRequest(DeleteUrl(photosBase, photo.id), BearerHeader(storedToken));
      if responseOk {
        toast := Toast("Photo deleted", true);
        calls := if hasOnDelete then [OnDelete] else [];
        calls := calls + [OnClose];
      } else {
        toast := Toast("Error deleting photo", false);
        calls := [];
      }
      isDeleting := false;
      isDeleteModalOpen := false;
    }
  }
}
