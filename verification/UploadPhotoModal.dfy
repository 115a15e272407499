/**
 * The single-photo upload dialog: its tag editing, the location tag it adds
 * from a dropped photo's GPS position, the reset on close and the request it
 * submits.
 */
module UploadPhotoModal {
  import opened Common
  import opened Text
  import opened Forms
  import opened TagList
  import PhotoModal
  import AuthMiddleware

  /** The fixed list the dialog suggests tags from. */
  const SuggestionTags: seq<string> := ["family", "wildlife", "other"]

  const LocationPrefix := "location:"
  const NotAvailableNote := "Location: Not available"
  const ReadErrorNote := "Location: Error reading data"

  /** What reading the dropped photo's metadata gave: a failure, no usable position, or a position with its printed form. */
  datatype ExifOutcome =
    | ExifError
    | Position(latitude: real, longitude: real, latitudeText: string, longitudeText: string)

  /** The tag that records where a photo was taken: `location:` and the lower-cased place name. */
  function LocationTag(city: string): (r: string)
    ensures StartsWith(r, LocationPrefix) && IsLower(r)
    ensures r[|LocationPrefix|..] == ToLower(city)
  {
    var r := LocationPrefix + ToLower(city);
    assert forall i :: 0 <= i < |LocationPrefix| ==> r[i] == LocationPrefix[i];
    r
  }

  /** The list after a location tag for `city` is added: appended only when not present yet. */
  function WithLocationTag(tags: seq<string>, city: string): (r: seq<string>)
    ensures LocationTag(city) in r
    ensures forall t :: t in r <==> t in tags || t == LocationTag(city)
    ensures tags <= r && |r| <= |tags| + 1
    ensures WellFormed(tags) ==> WellFormed(r)
  {
    var tag := LocationTag(city);
    if tag in tags then tags
    else
      var r := tags + [tag];
      assert tags <= r;
      assert NoDup(tags) ==> NoDup(r) by {
        assert forall i :: 0 <= i < |tags| ==> r[i] == tags[i] && r[i] != tag;
      }
      r
  }

  /** Adding the location tag of the same place twice adds it once. */
  lemma WithLocationTagIdempotent(tags: seq<string>, city: string)
    ensures WithLocationTag(WithLocationTag(tags, city), city) == WithLocationTag(tags, city)
  {
  }

  /** The note shown when a place name was found: the name and both coordinates. */
  function CityNote(city: string, e: ExifOutcome): string
    requires e.Position?
  {
    "Location: " + city + " (" + e.latitudeText + ", " + e.longitudeText + ")"
  }

  /** The note shown when the position has no place name: both coordinates. */
  function CoordinatesNote(e: ExifOutcome): string
    requires e.Position?
  {
    "Location: " + e.latitudeText + ", " + e.longitudeText
  }

  /** A position counts only when both numbers are truthy, that is non-zero. */
  predicate HasPosition(e: ExifOutcome)
  {
    e.Position? && e.latitude != 0.0 && e.longitude != 0.0
  }

  /** The location note is sent with the form only when set and not one of the two "no location" notes. */
  predicate SendsLocation(locationData: Option<string>)
  {
    Truthy(locationData) && locationData.value != NotAvailableNote && locationData.value != ReadErrorNote
  }

  /** The multipart entries of a submission with a file: photo, description, the tags as JSON, and the location note when it is sent. */
  function SubmissionEntries(file: LocalFile, description: string, tags: seq<string>, locationData: Option<string>): (r: seq<FormEntry>)
    ensures |r| == 3 || |r| == 4
    ensures r[..3] == [FileField("photo", file), TextField("description", description), JsonListField("tags", tags)]
    ensures |r| == 4 <==> SendsLocation(locationData)
    ensures |r| == 4 ==> r[3] == TextField("location", locationData.value)
  {
    var base := [FileField("photo", file), TextField("description", description), JsonListField("tags", tags)];
    if SendsLocation(locationData) then base + [TextField("location", locationData.value)] else base
  }

  /** The upload request: the `Authorization` header and the multipart body. */
  datatype PhotoPost = PhotoPost(authorization: string, entries: seq<FormEntry>)

  /** The server's auth middleware reads back the stored token from the upload request's header. */
  lemma SubmitCarriesToken(form: UploadPhotoForm, storedToken: Option<string>)
    requires form.file.Some?
    requires storedToken.Some? ==> storedToken.value != "" && ' ' !in storedToken.value
    ensures var r := form.SubmitRequest(storedToken);
      r.Some? && AuthMiddleware.ExtractToken(Some(r.value.authorization)) == (if storedToken.Some? then storedToken else Some("null"))
  {
    PhotoModal.HeaderCarriesToken(storedToken);
  }

  /** The dialog's state. */
  class UploadPhotoForm {
    var description: string
    var selectedTags: seq<string>
    var file: Option<LocalFile>
    var locationData: Option<string>
    var tagInputValue: string
    var isUploading: bool

    /** The selected tags are distinct, non-empty and lower-case. */
    ghost predicate Valid()
      reads this
    {
      WellFormed(selectedTags)
    }

    /** The initial state: everything empty. */
    constructor ()
      ensures Valid()
      ensures description == "" && selectedTags == [] && file == None && locationData == None
      ensures tagInputValue == "" && !isUploading
    {
      description := "";
      selectedTags := [];
      file := None;
      locationData := None;
      tagInputValue := "";
      isUploading := false;
    }

    /** `handleAddTag`: add the normalised input unless empty or present; the input box is cleared only when it is added. */
    method AddTag(tag: string)
      requires Valid()
      modifies this
      ensures Valid()
      ensures selectedTags == WithTag(old(selectedTags), tag)
      ensures tagInputValue == if Accepts(old(selectedTags), tag) then "" else old(tagInputValue)
      ensures description == old(description) && file == old(file) && locationData == old(locationData)
      ensures isUploading == old(isUploading)
    {
      var accepted := Accepts(selectedTags, tag);
      selectedTags := WithTag(selectedTags, tag);
      tagInputValue := if accepted then "" else tagInputValue;
    }

    /** `handleRemoveTag`: drop the tag, keeping the rest in order. */
    method RemoveTag(tag: string)
      requires Valid()
      modifies this
      ensures Valid()
      ensures selectedTags == WithoutTag(old(selectedTags), tag)
      ensures description == old(description) && file == old(file) && locationData == old(locationData)
      ensures tagInputValue == old(tagInputValue) && isUploading == old(isUploading)
    {
      selectedTags := WithoutTag(selectedTags, tag);
    }

    /** `handleTagInputChange`. */
    method InputChange(value: string)
      modifies this
      ensures tagInputValue == value
      ensures description == old(description) && selectedTags == old(selectedTags) && file == old(file)
      ensures locationData == old(locationData) && isUploading == old(isUploading)
    {
      tagInputValue := value;
    }

    /** `handleTagInputKeyDown`: Enter adds the typed tag unless the input is only whitespace; other keys do nothing. */
    method KeyDown(key: string)
      requires Valid()
      modifies this
      ensures Valid()
      ensures key == "Enter" && Trim(old(tagInputValue)) != "" ==>
        selectedTags == WithTag(old(selectedTags), old(tagInputValue))
      ensures key == "Enter" && Trim(old(tagInputValue)) != "" ==>
        tagInputValue == if Accepts(old(selectedTags), old(tagInputValue)) then "" else old(tagInputValue)
      ensures !(key == "Enter" && Trim(old(tagInputValue)) != "") ==>
        selectedTags == old(selectedTags) && tagInputValue == old(tagInputValue)
      ensures description == old(description) && file == old(file) && locationData == old(locationData)
      ensures isUploading == old(isUploading)
    {
      if key == "Enter" && Trim(tagInputValue) != "" {
        AddTag(tagInputValue);
      }
    }

    /** `suggestedTags`: the fixed suggestions that contain the typed text and are not selected. */
    function SuggestedTags(): (r: seq<string>)
      reads this
      ensures forall t :: t in r <==> t in SuggestionTags && Contains(ToLower(t), ToLower(tagInputValue)) && t !in selectedTags
    {
      Suggestions(SuggestionTags, tagInputValue, selectedTags)
    }

    /**
     * `onDrop`: keep the first dropped file, clear the previous note, then record
     * where the photo was taken. `city` stands for the reverse lookup's answer.
     */
    method Drop(files: seq<LocalFile>, exif: ExifOutcome, city: Option<string>)
      requires Valid()
      modifies this
      ensures Valid()
      ensures files == [] ==> file == old(file) && locationData == old(locationData) && selectedTags == old(selectedTags)
      ensures files != [] ==> file == Some(files[0])
      ensures files != [] && exif.ExifError? ==> locationData == Some(ReadErrorNote) && selectedTags == old(selectedTags)
      ensures files != [] && exif.Position? && !HasPosition(exif) ==>
        locationData == Some(NotAvailableNote) && selectedTags == old(selectedTags)
      ensures files != [] && HasPosition(exif) && Truthy(city) ==>
        locationData == Some(CityNote(city.value, exif)) && selectedTags == WithLocationTag(old(selectedTags), city.value)
      ensures files != [] && HasPosition(exif) && !Truthy(city) ==>
        locationData == Some(CoordinatesNote(exif)) && selectedTags == old(selectedTags)
      ensures description == old(description) && tagInputValue == old(tagInputValue) && isUploading == old(isUploading)
    {
      if files != [] {
        file := Some(files[0]);
        locationData := None;
        match exif
        case ExifError =>
          locationData := Some(ReadErrorNote);
        case Position(_, _, _, _) =>
          if HasPosition(exif) {
            if Truthy(city) {
              selectedTags := WithLocationTag(selectedTags, city.value);
              locationData := Some(CityNote(city.value, exif));
            } else {
              locationData := Some(CoordinatesNote(exif));
            }
          } else {
            locationData := Some(NotAvailableNote);
          }
      }
    }

    /** The reset when the dialog closes. */
    method Close()
      modifies this
      ensures Valid()
      ensures description == "" && selectedTags == [] && file == None && locationData == None
      ensures tagInputValue == "" && !isUploading
    {
      description := "";
      selectedTags := [];
      file := None;
      locationData := None;
      tagInputValue := "";
      isUploading := false;
    }

    /** The request `handleSubmit` sends, given the stored token: none without a file. */
    function SubmitRequest(storedToken: Option<string>): (r: Option<PhotoPost>)
      reads this
      ensures r.None? <==> file.None?
      ensures r.Some? ==> r.value.entries == SubmissionEntries(file.value, description, selectedTags, locationData)
      ensures r.Some? ==> r.value.authorization == PhotoModal.BearerHeader(storedToken)
    {
      if file.None? then None
      else Some(PhotoPost(PhotoModal.BearerHeader(storedToken), SubmissionEntries(file.value, description, selectedTags, locationData)))
    }

    /**
     * `handleSubmit`: `storedToken` is what `localStorage` holds under `token` and
     * `responseOk` stands for the server's answer. Returns the request sent and
     * whether the success callbacks (close, refresh) run.
     */
    method Submit(storedToken: Option<string>, responseOk: bool) returns (request: Option<PhotoPost>, succeeded: bool)
      requires Valid()
      modifies this
      ensures Valid()
      ensures request == old(SubmitRequest(storedToken))
      ensures succeeded <==> request.Some? && responseOk
      ensures request.Some? ==> !isUploading
      ensures description == old(description) && selectedTags == old(selectedTags) && file == old(file)
      ensures locationData == old(locationData) && tagInputValue == old(tagInputValue)
      ensures request.None? ==> isUploading == old(isUploading)
    {
      request := SubmitRequest(storedToken);
      succeeded := false;
      if request.Some? {
        isUploading := true;
        succeeded := responseOk;
        isUploading := false;
      }
    }
  }
}
