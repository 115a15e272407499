/**
 * The multi-photo upload dialog: tag editing with suggestions drawn from the
 * server's tag list, the multipart entries of an upload, and its resets.
 */
module PhotoUploadModal {
  import opened Common
  import opened Text
  import opened Forms
  import opened TagList

  /** One `photos` entry per file, in order. */
  function FileEntries(files: seq<LocalFile>): (r: seq<FormEntry>)
    ensures |r| == |files|
    ensures forall i :: 0 <= i < |files| ==> r[i] == FileField("photos", files[i])
    decreases |files|
  {
    if files == [] then [] else [FileField("photos", files[0])] + FileEntries(files[1..])
  }

  /** One `tags` entry per tag, in order. */
  function TagEntries(tags: seq<string>): (r: seq<FormEntry>)
    ensures |r| == |tags|
    ensures forall i :: 0 <= i < |tags| ==> r[i] == TextField("tags", tags[i])
    decreases |tags|
  {
    if tags == [] then [] else [TextField("tags", tags[0])] + TagEntries(tags[1..])
  }

  /** The files carried by the entries named `photos`, in order. */
  function FilesSent(entries: seq<FormEntry>): seq<LocalFile>
    decreases |entries|
  {
    if entries == [] then []
    else if entries[0].FileField? && entries[0].name == "photos" then [entries[0].file] + FilesSent(entries[1..])
    else FilesSent(entries[1..])
  }

  /** The values of the text entries named `tags`, in order. */
  function TagsSent(entries: seq<FormEntry>): seq<string>
    decreases |entries|
  {
    if entries == [] then []
    else if entries[0].TextField? && entries[0].name == "tags" then [entries[0].value] + TagsSent(entries[1..])
    else TagsSent(entries[1..])
  }

  lemma {:induction false} FilesSentConcat(a: seq<FormEntry>, b: seq<FormEntry>)
    ensures FilesSent(a + b) == FilesSent(a) + FilesSent(b)
    decreases |a|
  {
    if a == [] {
      assert a + b == b;
    } else {
      assert (a + b)[0] == a[0];
      assert (a + b)[1..] == a[1..] + b;
      FilesSentConcat(a[1..], b);
    }
  }

  lemma {:induction false} TagsSentConcat(a: seq<FormEntry>, b: seq<FormEntry>)
    ensures TagsSent(a + b) == TagsSent(a) + TagsSent(b)
    decreases |a|
  {
    if a == [] {
      assert a + b == b;
    } else {
      assert (a + b)[0] == a[0];
      assert (a + b)[1..] == a[1..] + b;
      TagsSentConcat(a[1..], b);
    }
  }

  lemma {:induction false} FilesOfFileEntries(files: seq<LocalFile>)
    ensures FilesSent(FileEntries(files)) == files
    decreases |files|
  {
    if files != [] {
      FilesOfFileEntries(files[1..]);
      assert FileEntries(files)[1..] == FileEntries(files[1..]);
    }
  }

  lemma {:induction false} TagsOfTagEntries(tags: seq<string>)
    ensures TagsSent(TagEntries(tags)) == tags
    decreases |tags|
  {
    if tags != [] {
      TagsOfTagEntries(tags[1..]);
      assert TagEntries(tags)[1..] == TagEntries(tags[1..]);
    }
  }

  lemma {:induction false} NoFilesInTagEntries(tags: seq<string>)
    ensures FilesSent(TagEntries(tags)) == []
    decreases |tags|
  {
    if tags != [] {
      NoFilesInTagEntries(tags[1..]);
      assert TagEntries(tags)[1..] == TagEntries(tags[1..]);
    }
  }

  lemma {:induction false} NoTagsInFileEntries(files: seq<LocalFile>)
    ensures TagsSent(FileEntries(files)) == []
    decreases |files|
  {
    if files != [] {
      NoTagsInFileEntries(files[1..]);
      assert FileEntries(files)[1..] == FileEntries(files[1..]);
    }
  }

  /** The multipart body of an upload: the files, then the description, then the tags. */
  function UploadEntries(files: seq<LocalFile>, description: string, tags: seq<string>): (r: seq<FormEntry>)
    ensures |r| == |files| + 1 + |tags|
    ensures forall i :: 0 <= i < |files| ==> r[i] == FileField("photos", files[i])
    ensures r[|files|] == TextField("description", description)
    ensures forall i :: 0 <= i < |tags| ==> r[|files| + 1 + i] == TextField("tags", tags[i])
  {
    var r := FileEntries(files) + [TextField("description", description)] + TagEntries(tags);
    assert forall i :: 0 <= i < |tags| ==> r[|files| + 1 + i] == TagEntries(tags)[i];
    r
  }

  /** The body carries exactly the chosen files and exactly the chosen tags, each in order. */
  lemma UploadEntriesRoundTrip(files: seq<LocalFile>, description: string, tags: seq<string>)
    ensures FilesSent(UploadEntries(files, description, tags)) == files
    ensures TagsSent(UploadEntries(files, description, tags)) == tags
  {
    var a := FileEntries(files);
    var d := [TextField("description", description)];
    var b := TagEntries(tags);
    assert UploadEntries(files, description, tags) == a + d + b;
    FilesSentConcat(a + d, b);
    FilesSentConcat(a, d);
    TagsSentConcat(a + d, b);
    TagsSentConcat(a, d);
    FilesOfFileEntries(files);
    TagsOfTagEntries(tags);
    NoFilesInTagEntries(tags);
    NoTagsInFileEntries(files);
  }

  /** The dialog's state. */
  class PhotoUploadForm {
    var files: seq<LocalFile>
    var description: string
    var tags: seq<string>
    var newTag: string
    var isUploading: bool
    var availableTags: seq<string>
    var showSuggestions: bool

    /** The chosen tags are distinct, non-empty and lower-case. */
    ghost predicate Valid()
      reads this
    {
      WellFormed(tags)
    }

    constructor ()
      ensures Valid()
      ensures files == [] && description == "" && tags == [] && newTag == ""
      ensures !isUploading && availableTags == [] && !showSuggestions
    {
      files := [];
      description := "";
      tags := [];
      newTag := "";
      isUploading := false;
      availableTags := [];
      showSuggestions := false;
    }

    /** `handleAddTag`: add the normalised tag unless empty or present; the input is cleared either way; an added tag hides the suggestions. */
    method AddTag(tagToAdd: string)
      requires Valid()
      modifies this
      ensures Valid()
      ensures tags == WithTag(old(tags), tagToAdd)
      ensures newTag == ""
      ensures showSuggestions == if Accepts(old(tags), tagToAdd) then false else old(showSuggestions)
      ensures files == old(files) && description == old(description) && isUploading == old(isUploading)
      ensures availableTags == old(availableTags)
    {
      var accepted := Accepts(tags, tagToAdd);
      tags := WithTag(tags, tagToAdd);
      newTag := "";
      showSuggestions := if accepted then false else showSuggestions;
    }

    /** `handleRemoveTag`. */
    method RemoveTag(tag: string)
      requires Valid()
      modifies this
      ensures Valid()
      ensures tags == WithoutTag(old(tags), tag)
      ensures files == old(files) && description == old(description) && newTag == old(newTag)
      ensures isUploading == old(isUploading) && availableTags == old(availableTags)
      ensures showSuggestions == old(showSuggestions)
    {
      tags := WithoutTag(tags, tag);
    }

    /** `handleKeyDown`: Enter adds the typed tag, Escape hides the suggestions, other keys do nothing. */
    method KeyDown(key: string)
      requires Valid()
      modifies this
      ensures Valid()
      ensures key == "Enter" ==> tags == WithTag(old(tags), old(newTag)) && newTag == ""
      ensures key == "Enter" ==> showSuggestions == if Accepts(old(tags), old(newTag)) then false else old(showSuggestions)
      ensures key == "Escape" ==> !showSuggestions && tags == old(tags) && newTag == old(newTag)
      ensures key != "Enter" && key != "Escape" ==>
        tags == old(tags) && newTag == old(newTag) && showSuggestions == old(showSuggestions)
      ensures files == old(files) && description == old(description) && isUploading == old(isUploading)
      ensures availableTags == old(availableTags)
    {
      if key == "Enter" {
        AddTag(newTag);
      } else if key == "Escape" {
        showSuggestions := false;
      }
    }

    /** Typing in the tag box: store the text and show the suggestions. */
    method InputChange(value: string)
      modifies this
      ensures newTag == value && showSuggestions
      ensures files == old(files) && description == old(description) && tags == old(tags)
      ensures isUploading == old(isUploading) && availableTags == old(availableTags)
    {
      newTag := value;
      showSuggestions := true;
    }

    /** Focusing the tag box shows the suggestions. */
    method Focus()
      modifies this
      ensures showSuggestions
      ensures files == old(files) && description == old(description) && tags == old(tags)
      ensures newTag == old(newTag) && isUploading == old(isUploading) && availableTags == old(availableTags)
    {
      showSuggestions := true;
    }

    /** The tag list arrived from the server (`None` when the request failed and the list stays as it was). */
    method TagsFetched(result: Option<seq<string>>)
      modifies this
      ensures availableTags == if result.Some? then result.value else old(availableTags)
      ensures files == old(files) && description == old(description) && tags == old(tags)
      ensures newTag == old(newTag) && isUploading == old(isUploading) && showSuggestions == old(showSuggestions)
    {
      if result.Some? {
        availableTags := result.value;
      }
    }

    /** Dropped files replace the chosen ones. */
    method Drop(accepted: seq<LocalFile>)
      modifies this
      ensures files == accepted
      ensures description == old(description) && tags == old(tags) && newTag == old(newTag)
      ensures isUploading == old(isUploading) && availableTags == old(availableTags)
      ensures showSuggestions == old(showSuggestions)
    {
      files := accepted;
    }

    /** `filteredSuggestions`: server tags containing the typed text (ignoring case) that are not chosen yet. */
    function FilteredSuggestions(): (r: seq<string>)
      reads this
      ensures forall t :: t in r <==> t in availableTags && Contains(ToLower(t), ToLower(newTag)) && t !in tags
      ensures IsSubsequence(r, availableTags)
    {
      Suggestions(availableTags, newTag, tags)
    }

    /**
     * `handleUpload`: with no files nothing is sent; otherwise the form is sent,
     * and when `responseOk` the form is cleared and the completion callbacks run.
     */
    method Upload(responseOk: bool) returns (request: Option<seq<FormEntry>>, succeeded: bool)
      requires Valid()
      modifies this
      ensures Valid()
      ensures old(files) == [] ==> request.None? && !succeeded
      ensures old(files) == [] ==> files == old(files) && tags == old(tags) && isUploading == old(isUploading)
      ensures old(files) != [] ==> request == Some(UploadEntries(old(files), old(description), old(tags))) && !isUploading
      ensures succeeded <==> old(files) != [] && responseOk
      ensures succeeded ==> files == [] && description == "" && tags == [] && newTag == ""
      ensures !succeeded ==> files == old(files) && description == old(description) && tags == old(tags) && newTag == old(newTag)
      ensures availableTags == old(availableTags) && showSuggestions == old(showSuggestions)
    {
      if files == [] {
        return None, false;
      }
      isUploading := true;
      request := Some(UploadEntries(files, description, tags));
      succeeded := responseOk;
      if responseOk {
        files := [];
        description := "";
        tags := [];
        newTag := "";
      }
      isUploading := false;
    }

    /** The reset when the dialog closes. */
    method Close()
      modifies this
      ensures Valid()
      ensures files == [] && description == "" && tags == [] && newTag == "" && !showSuggestions
      ensures isUploading == old(isUploading) && availableTags == old(availableTags)
    {
      files := [];
      description := "";
      tags := [];
      newTag := "";
      showSuggestions := false;
    }
  }
}
