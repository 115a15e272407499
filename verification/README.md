# familyfoto: a Dafny model of the photo-sharing core

familyfoto is a family photo-sharing application. Its Express server takes
photo uploads, lists photos, serves them, and guards requests with a bearer
token. Its React client edits tags before an upload, filters the photo grid by
uploader, lets the owner delete a photo, and keeps the signed-in session in
browser storage. This project models that core in Dafny and proves properties
of it.

- Server side:
  - the upload route: the file filter, the size limit, the stored file name
    with the original extension, the connect-or-create clauses for tags, and
    each branch of the handler against an abstract database;
  - the listing and file routes;
  - the bearer-token middleware;
  - the CORS origin list and origin decision;
  - the EXIF GPS conversion and reverse-geocoding step;
  - the seed script.
- Client side:
  - both upload dialogs;
  - the photo grid's uploader list and filter;
  - the photo dialog's image URL, owner check and delete flow;
  - the authentication context.

Each source file is one module. Three shared modules sit beside them:

- `Text` holds the string operations the code relies on: `trim`,
  `toLowerCase`, `includes`, `split`, `indexOf`, `lastIndexOf`, and number
  printing and parsing.
- `Common` holds optional values, JavaScript truthiness and order-preserving
  filtering.
- `TagList` holds the tag-list edits that both upload dialogs share.

What the client keeps in mutable state is modelled as classes:

- `UploadPhotoModal.UploadPhotoForm`;
- `PhotoUploadModal.PhotoUploadForm`;
- `PhotoModal.DeleteDialog`;
- `AuthContext.AuthProvider`;
- `AuthMiddleware.Request`;
- the database, `Database.Store`.

Each method of these classes is proved against a pure function or a stated
new state. The properties are proved about those functions.

Things outside the program are parameters:

- the clock and the random number in a stored name;
- `JSON.parse` and `JSON.stringify`;
- `jwt.verify` and the user lookup;
- whether a file can be read;
- whether a database write or an HTTP response succeeds;
- what the reverse geocoder answers.

Where the specification and the code disagree, the model follows the code:

- The upload route passes tag strings to the database unchanged. It does not
  trim or lower-case them, although the tag entity is described as unique
  under a trimmed, case-insensitive name. `Upload.ClauseNamesOfTags` states
  this: no tag is normalised, dropped or merged.
- The multi-photo dialog sends its files as repeated `photos` fields and its
  tags as repeated `tags` text fields
  (`PhotoUploadModal.UploadEntriesRoundTrip`). The upload route reads a single
  `photo` field and a JSON-encoded `tags` field. Only the single-photo dialog
  (`UploadPhotoModal.SubmissionEntries`) matches it.

## Model

| member | source | states |
|---|---|---|
| Text.ToLower | apps/web/src/components/UploadPhotoModal.tsx:157 | lower-casing keeps the length, changes each character on its own, and leaves no upper-case letter |
| Text.ToLowerConcat | apps/web/src/components/UploadPhotoModal.tsx:184 | lower-casing distributes over concatenation |
| Text.LowerIsFixed | apps/web/src/components/UploadPhotoModal.tsx:157 | an already lower-case string is left unchanged |
| Text.Trim | apps/web/src/components/UploadPhotoModal.tsx:176 | the result has no whitespace at either end, is never longer than the input, and is empty exactly when the input is all whitespace |
| Text.TrimStartRemovesSpace | apps/web/src/components/UploadPhotoModal.tsx:176 | what `TrimStart` drops from the front is all whitespace |
| Text.TrimEndRemovesSpace | apps/web/src/components/UploadPhotoModal.tsx:176 | what `TrimEnd` drops from the back is all whitespace |
| Text.TrimStripsSpace | apps/web/src/components/UploadPhotoModal.tsx:176 | the trimmed text occurs in the input with only whitespace before and after it, so nothing inside is changed |
| Text.TrimIgnoresSurroundingSpace | apps/web/src/components/UploadPhotoModal.tsx:176 | whitespace added around a string does not change what `trim` gives |
| Text.TrimIsTheCore | apps/web/src/components/UploadPhotoModal.tsx:176 | any piece of the input with no whitespace at its ends and only whitespace around it is `Trim` of the input; with `TrimStripsSpace` this pins down what `trim` returns |
| Text.TrimFixed | apps/web/src/components/UploadPhotoModal.tsx:157 | a trimmed string is left unchanged |
| Text.Normalize | apps/server/prisma/seed.ts:17 | the normal form is lower-case with no surrounding whitespace; it is empty exactly when the input is blank |
| Text.NormalizeIsTrimOfLower | apps/server/prisma/seed.ts:17 | trimming then lower-casing equals lower-casing then trimming, so the normal form is the lower-cased input with only its surrounding whitespace removed |
| Text.NormalizeIgnoresCase | apps/server/prisma/seed.ts:17 | names that differ only in letter case have the same normal form |
| Text.NormalizeIgnoresSurroundingSpace | apps/server/prisma/seed.ts:17 | whitespace added around a name does not change its normal form |
| Text.NormalizeIdempotent | apps/server/prisma/seed.ts:17 | normalising twice is the same as normalising once |
| Text.NormalizeTrimmed | apps/web/src/components/PhotoUploadModal.tsx:72 | on a trimmed string, normalising is only lower-casing |
| Text.ContainsAt | apps/web/src/components/UploadPhotoModal.tsx:184 | `includes` holds exactly when the substring occurs at some position |
| Text.IndexOf | apps/server/src/middleware/auth.ts:10 | `None` exactly when the character is absent; otherwise the position of its first occurrence |
| Text.LastIndexOf | apps/server/src/routes/upload.ts:23 | `None` exactly when the character is absent; otherwise the position of its last occurrence |
| Text.Split | apps/server/src/middleware/auth.ts:10 | splitting on a separator gives at least one piece, and no piece contains the separator |
| Text.JoinSplit | apps/server/src/middleware/auth.ts:10 | joining the pieces with the separator gives back the original string |
| Text.NatToString | apps/server/src/routes/upload.ts:22 | the decimal text is non-empty digits with no leading zero |
| Text.IntToString | apps/web/src/components/PhotoModal.tsx:54 | the decimal text of an integer is digits, with a leading minus exactly for negatives |
| Text.ParseNatToString | apps/web/src/contexts/AuthContext.tsx:93 | reading back the decimal text of a number gives the number |
| Common.IndexIn | apps/server/src/index.ts:30 | `indexOf` is -1 exactly when absent; otherwise it is the first position |
| Common.Filter | apps/web/src/components/PhotoGrid.tsx:35 | the kept elements are exactly those that pass, in their original order |
| Common.FilterConcat | apps/server/src/routes/photos.ts:15 | filtering distributes over concatenation |
| Common.FilterAll | apps/web/src/components/UploadPhotoModal.tsx:168 | when every element passes, the filter changes nothing |
| Common.FilterNone | apps/web/src/components/PhotoGrid.tsx:35 | when no element passes, the filter leaves nothing |
| Common.FilterNoDup | apps/web/src/components/UploadPhotoModal.tsx:168 | filtering keeps a list free of duplicates |
| Common.SubsequenceLength | apps/web/src/components/PhotoGrid.tsx:35 | a subsequence is never longer than its source |
| TagList.WithTag | apps/web/src/components/UploadPhotoModal.tsx:156-159 | adding a tag appends its trimmed, lower-cased form exactly when that form is non-empty and not selected; the list stays free of duplicates, empty tags and upper-case letters |
| TagList.WithoutTag | apps/web/src/components/UploadPhotoModal.tsx:167-169 | removing drops every occurrence of the tag, keeps the others in order, and keeps the list well formed |
| TagList.WithTagIdempotent | apps/web/src/components/PhotoUploadModal.tsx:71-80 | adding the same input twice is adding it once |
| TagList.RemoveUndoesAdd | apps/web/src/components/PhotoUploadModal.tsx:77-84 | removing a tag just added restores the list exactly |
| TagList.RemoveAbsent | apps/web/src/components/PhotoUploadModal.tsx:82-84 | removing an absent tag changes nothing |
| TagList.BlankInputAddsNothing | apps/web/src/components/UploadPhotoModal.tsx:176 | whitespace-only input is never accepted and adds nothing |
| TagList.Suggestions | apps/web/src/components/UploadPhotoModal.tsx:182-186 | suggestions are exactly the candidates whose lower-case form contains the lower-cased input and that are not selected, in candidate order |
| UploadPhotoModal.LocationTag | apps/web/src/components/UploadPhotoModal.tsx:127 | the location tag is `location:` followed by the lower-cased place name |
| UploadPhotoModal.WithLocationTag | apps/web/src/components/UploadPhotoModal.tsx:129-131 | the location tag ends up in the list, is appended only if absent, and the list stays well formed |
| UploadPhotoModal.WithLocationTagIdempotent | apps/web/src/components/UploadPhotoModal.tsx:129-131 | adding the same place twice adds it once |
| UploadPhotoModal.SubmissionEntries | apps/web/src/components/UploadPhotoModal.tsx:208-214 | the form sends the photo, the description and the tags as JSON; the location note is added exactly when it is set and is neither "no location" note |
| UploadPhotoModal.UploadPhotoForm.constructor | apps/web/src/components/UploadPhotoModal.tsx:35-41 | the dialog starts empty and not uploading |
| UploadPhotoModal.UploadPhotoForm.AddTag | apps/web/src/components/UploadPhotoModal.tsx:156-165 | the list becomes `WithTag`; the input is cleared only when the tag is added; nothing else changes |
| UploadPhotoModal.UploadPhotoForm.RemoveTag | apps/web/src/components/UploadPhotoModal.tsx:167-169 | the list becomes `WithoutTag`; nothing else changes |
| UploadPhotoModal.UploadPhotoForm.InputChange | apps/web/src/components/UploadPhotoModal.tsx:171-173 | only the input text changes |
| UploadPhotoModal.UploadPhotoForm.KeyDown | apps/web/src/components/UploadPhotoModal.tsx:175-180 | Enter with non-blank input adds the tag and clears the input exactly when the tag is accepted; any other key, or blank input, changes nothing |
| UploadPhotoModal.UploadPhotoForm.SuggestedTags | apps/web/src/components/UploadPhotoModal.tsx:182-186 | the fixed suggestions that contain the typed text and are not selected |
| UploadPhotoModal.UploadPhotoForm.Drop | apps/web/src/components/UploadPhotoModal.tsx:95-146 | the first dropped file is kept; the note records a read error, no position, the place with its coordinates, or the coordinates alone; the location tag is added only when a place is found |
| UploadPhotoModal.UploadPhotoForm.Close | apps/web/src/components/UploadPhotoModal.tsx:188-202 | closing clears description, tags, file, note and input, and ends any upload |
| UploadPhotoModal.UploadPhotoForm.SubmitRequest | apps/web/src/components/UploadPhotoModal.tsx:204-224 | no request is sent without a file; otherwise the body is `SubmissionEntries` of the state and the `Authorization` header is `Bearer ` and the stored token |
| UploadPhotoModal.SubmitCarriesToken | apps/web/src/components/UploadPhotoModal.tsx:217-221 | the server's token extraction reads the stored token (or `null`) back from the upload's header |
| UploadPhotoModal.UploadPhotoForm.Submit | apps/web/src/components/UploadPhotoModal.tsx:204-251 | sends `SubmitRequest` with the stored token; succeeds exactly when sent and answered OK; the upload flag is false afterwards; the form itself is not changed |
| PhotoUploadModal.FileEntries | apps/web/src/components/PhotoUploadModal.tsx:112-114 | one `photos` entry per file, in order |
| PhotoUploadModal.TagEntries | apps/web/src/components/PhotoUploadModal.tsx:116-118 | one `tags` entry per tag, in order |
| PhotoUploadModal.UploadEntries | apps/web/src/components/PhotoUploadModal.tsx:111-118 | the body is the files, then the description, then the tags |
| PhotoUploadModal.FilesSentConcat | apps/web/src/components/PhotoUploadModal.tsx:112-118 | reading the files back distributes over concatenation |
| PhotoUploadModal.TagsSentConcat | apps/web/src/components/PhotoUploadModal.tsx:112-118 | reading the tags back distributes over concatenation |
| PhotoUploadModal.FilesOfFileEntries | apps/web/src/components/PhotoUploadModal.tsx:112-114 | the `photos` entries carry exactly the files |
| PhotoUploadModal.TagsOfTagEntries | apps/web/src/components/PhotoUploadModal.tsx:116-118 | the `tags` entries carry exactly the tags |
| PhotoUploadModal.NoFilesInTagEntries | apps/web/src/components/PhotoUploadModal.tsx:116-118 | tag entries carry no file |
| PhotoUploadModal.NoTagsInFileEntries | apps/web/src/components/PhotoUploadModal.tsx:112-114 | file entries carry no tag |
| PhotoUploadModal.UploadEntriesRoundTrip | apps/web/src/components/PhotoUploadModal.tsx:111-118 | the body carries exactly the chosen files and exactly the chosen tags, each in order |
| PhotoUploadModal.PhotoUploadForm.constructor | apps/web/src/components/PhotoUploadModal.tsx:35-41 | the dialog starts empty |
| PhotoUploadModal.PhotoUploadForm.AddTag | apps/web/src/components/PhotoUploadModal.tsx:71-80 | the list becomes `WithTag`; the input is always cleared; the suggestions close only when the tag is added |
| PhotoUploadModal.PhotoUploadForm.RemoveTag | apps/web/src/components/PhotoUploadModal.tsx:82-84 | the list becomes `WithoutTag`; nothing else changes |
| PhotoUploadModal.PhotoUploadForm.KeyDown | apps/web/src/components/PhotoUploadModal.tsx:86-93 | Enter adds the typed tag, clears the input, and hides the suggestions exactly when the tag is accepted; Escape hides the suggestions; other keys change nothing |
| PhotoUploadModal.PhotoUploadForm.InputChange | apps/web/src/components/PhotoUploadModal.tsx:228-231 | typing stores the text and shows the suggestions |
| PhotoUploadModal.PhotoUploadForm.Focus | apps/web/src/components/PhotoUploadModal.tsx:233 | focusing shows the suggestions |
| PhotoUploadModal.PhotoUploadForm.TagsFetched | apps/web/src/components/PhotoUploadModal.tsx:45-59 | the server's tag list replaces the candidates; a failed fetch keeps them |
| PhotoUploadModal.PhotoUploadForm.Drop | apps/web/src/components/PhotoUploadModal.tsx:62-64 | the dropped files replace the chosen ones |
| PhotoUploadModal.PhotoUploadForm.FilteredSuggestions | apps/web/src/components/PhotoUploadModal.tsx:95-97 | the server tags containing the typed text, ignoring case, and not chosen yet, in order |
| PhotoUploadModal.PhotoUploadForm.Upload | apps/web/src/components/PhotoUploadModal.tsx:99-155 | with no files nothing is sent; otherwise `UploadEntries` is sent; on success files, description, tags and input are cleared; the upload flag ends false |
| PhotoUploadModal.PhotoUploadForm.Close | apps/web/src/components/PhotoUploadModal.tsx:157-165 | closing clears files, description, tags and input, and hides the suggestions |
| PhotoGrid.UploaderIds | apps/web/src/components/PhotoGrid.tsx:20 | the uploader id of each photo, in order |
| PhotoGrid.Distinct | apps/web/src/components/PhotoGrid.tsx:19-21 | each id once, exactly the ids that occur, as a subsequence of the input |
| PhotoGrid.DistinctFirstAppearance | apps/web/src/components/PhotoGrid.tsx:19-21 | the distinct ids come in the order of their first appearance |
| PhotoGrid.FindByUser | apps/web/src/components/PhotoGrid.tsx:22 | `find` is `None` exactly when no photo has the id; otherwise it is the first such photo |
| PhotoGrid.Label | apps/web/src/components/PhotoGrid.tsx:25 | the name if non-empty, else the e-mail if non-empty, else `User <id>`; never empty |
| PhotoGrid.OptionsFor | apps/web/src/components/PhotoGrid.tsx:21-26 | one option per id, labelled from that uploader's first photo |
| PhotoGrid.Users | apps/web/src/components/PhotoGrid.tsx:17-29 | one option per distinct uploader id, in first-appearance order |
| PhotoGrid.UsersDistinct | apps/web/src/components/PhotoGrid.tsx:19-21 | no uploader is listed twice |
| PhotoGrid.UsersCoverUploaders | apps/web/src/components/PhotoGrid.tsx:19-21 | every photo's uploader has an option |
| PhotoGrid.UsersNamedAfterFirstPhoto | apps/web/src/components/PhotoGrid.tsx:22-26 | every option is an uploader, named after that uploader's first photo |
| PhotoGrid.UsersInFirstAppearanceOrder | apps/web/src/components/PhotoGrid.tsx:19-21 | options come in the order in which each uploader's first photo appears |
| PhotoGrid.DigitPrefix | apps/web/src/components/PhotoGrid.tsx:48 | the longest run of digits at the start |
| PhotoGrid.SignDropped | apps/web/src/components/PhotoGrid.tsx:48 | the text after a leading sign |
| PhotoGrid.ParseInt | apps/web/src/components/PhotoGrid.tsx:48 | `parseInt` gives `NaN` exactly when no digits follow the sign; otherwise the value of those digits, negative only after `-` |
| PhotoGrid.ParseIntIgnoresTrailing | apps/web/src/components/PhotoGrid.tsx:48 | a printed integer followed by a non-digit parses as that integer |
| PhotoGrid.ParseIntToString | apps/web/src/components/PhotoGrid.tsx:48-53 | parsing the printed id gives the id back |
| PhotoGrid.ParseSelect | apps/web/src/components/PhotoGrid.tsx:48 | an empty select value means no filter; any other value is parsed |
| PhotoGrid.SelectValue | apps/web/src/components/PhotoGrid.tsx:47 | the shown value is empty for no selection, for `NaN` and for id 0; otherwise it is the printed id |
| PhotoGrid.SelectRoundTrip | apps/web/src/components/PhotoGrid.tsx:47-53 | choosing a non-zero user's option selects that user, and the box then shows that option |
| PhotoGrid.AllUsersOptionClears | apps/web/src/components/PhotoGrid.tsx:48-51 | the "All users" option clears the filter |
| PhotoGrid.FilteredPhotos | apps/web/src/components/PhotoGrid.tsx:31-37 | no selection shows every photo; a user shows exactly that user's photos, in order; `NaN` shows nothing |
| PhotoGrid.FilterByUploader | apps/web/src/components/PhotoGrid.tsx:34-35 | every photo is shown under its uploader, and an id with no photos shows nothing |
| PhotoGrid.FilterAppend | apps/web/src/components/PhotoGrid.tsx:35 | filtering a concatenation is filtering each part |
| PhotoModal.ImageUrl | apps/web/src/components/PhotoModal.tsx:35 | the cloud URL when non-empty, else the photos endpoint with `/file/` and the stored name |
| PhotoModal.LocalUrlsFollowFilenames | apps/web/src/components/PhotoModal.tsx:35 | two local URLs are equal exactly when the stored names are |
| PhotoModal.OwnerCases | apps/web/src/components/PhotoModal.tsx:36 | nobody signed in owns nothing; a user owns exactly the photos they uploaded |
| PhotoModal.DeleteUrl | apps/web/src/components/PhotoModal.tsx:54 | the delete target is the photos endpoint, `/` and the printed id as one path segment |
| PhotoModal.DeleteUrlInjective | apps/web/src/components/PhotoModal.tsx:54 | different photos are deleted through different URLs |
| PhotoModal.BearerHeader | apps/web/src/components/PhotoModal.tsx:57 | `Bearer ` followed by the stored token, or by `null` when none is stored |
| PhotoModal.HeaderCarriesToken | apps/server/src/middleware/auth.ts:10 | the server reads back the stored token from this header, or the word `null` when none was stored |
| PhotoModal.DeleteDialog.constructor | apps/web/src/components/PhotoModal.tsx:32-33 | the dialog starts closed and not deleting |
| PhotoModal.DeleteDialog.DeleteClick | apps/web/src/components/PhotoModal.tsx:93-101 | only the owner can open the confirmation |
| PhotoModal.DeleteDialog.Cancel | apps/web/src/components/PhotoModal.tsx:143 | dismissing closes the confirmation |
| PhotoModal.DeleteDialog.DeleteConfirm | apps/web/src/components/PhotoModal.tsx:51-84 | sends the DELETE to `DeleteUrl` with `BearerHeader`; on OK calls `onDelete` if given and then `onClose`; on failure calls neither; always ends closed and not deleting |
| AuthContext.Get | apps/web/src/contexts/AuthContext.tsx:25 | `getItem` is `None` exactly when the key is absent |
| AuthContext.Cleared | apps/web/src/contexts/AuthContext.tsx:30-33 | exactly the four session keys are removed; every other key keeps its value |
| AuthContext.SignedOut | apps/web/src/contexts/AuthContext.tsx:52-53 | no user and not authenticated, storage as given |
| AuthContext.Initial | apps/web/src/contexts/AuthContext.tsx:23-44 | no stored user, or JSON null, starts with no user; an unparsable user clears the four keys; the flag is true exactly when `isLoggedIn` is `"true"` in the storage left |
| AuthContext.MalformedUserStartsSignedOut | apps/web/src/contexts/AuthContext.tsx:27-39 | unreadable user data starts signed out, whatever the stored flag said |
| AuthContext.AfterLogin | apps/web/src/contexts/AuthContext.tsx:87-96 | login writes the token, the serialised user, `isLoggedIn="true"` and the printed id, keeps every other key, and signs the user in |
| AuthContext.AfterLogout | apps/web/src/contexts/AuthContext.tsx:103-110 | logout removes exactly the four keys, keeps every other key, and signs out |
| AuthContext.LogoutUndoesLogin | apps/web/src/contexts/AuthContext.tsx:87-110 | logging out after logging in leaves the storage that logging out alone would |
| AuthContext.LoginSurvivesReload | apps/web/src/contexts/AuthContext.tsx:23-44 | a stored login is restored on restart when the user parses back |
| AuthContext.AfterCheck | apps/web/src/contexts/AuthContext.tsx:48-82 | no token signs out and keeps the storage; an accepted token signs in the returned user and stores its id; a refused one is a logout; a failed request signs out and keeps the storage |
| AuthContext.CheckRequest | apps/web/src/contexts/AuthContext.tsx:50-61 | the `/me` request is sent exactly when a token is stored, with that token as bearer |
| AuthContext.CheckAfterLogin | apps/web/src/contexts/AuthContext.tsx:48-67 | right after login the check sends the new token, and the confirmed user leaves the state unchanged |
| AuthContext.Context | apps/web/src/contexts/AuthContext.tsx:113-119 | `userId` is the user's id, absent exactly when no user |
| AuthContext.UseAuth | apps/web/src/contexts/AuthContext.tsx:14-20 | outside a provider it throws the fixed message; inside it gives the provider's value |
| AuthContext.AuthProvider.constructor | apps/web/src/contexts/AuthContext.tsx:23-44 | the provider starts in `Initial` of the stored data |
| AuthContext.AuthProvider.Login | apps/web/src/contexts/AuthContext.tsx:87-101 | the state becomes `AfterLogin` |
| AuthContext.AuthProvider.Logout | apps/web/src/contexts/AuthContext.tsx:103-110 | the state becomes `AfterLogout` |
| AuthContext.AuthProvider.CheckAuth | apps/web/src/contexts/AuthContext.tsx:48-85 | the request is `CheckRequest` and the state becomes `AfterCheck` |
| AuthContext.AuthProvider.Value | apps/web/src/contexts/AuthContext.tsx:113-119 | the provided value is `Context` of the state |
| Upload.FileFilter | apps/server/src/routes/upload.ts:29-36 | accepts exactly the types starting with `image/`; otherwise rejects with "Only image files are allowed" |
| Upload.StripTrailingSlashes | apps/server/src/routes/upload.ts:23 | a prefix without a trailing `/`; only slashes are removed |
| Upload.LastSegment | apps/server/src/routes/upload.ts:23 | the last segment has no `/` and ends the path |
| Upload.ExtName | apps/server/src/routes/upload.ts:23 | the extension is empty or a dot followed by no dot or slash; it ends the last segment and is shorter than it |
| Upload.ExtNameNoDot | apps/server/src/routes/upload.ts:23 | a name without a dot has no extension |
| Upload.ExtNameHidden | apps/server/src/routes/upload.ts:23 | a dot-file such as `.env` has no extension |
| Upload.ExtNameAfterPrefix | apps/server/src/routes/upload.ts:22-23 | a dot-free prefix before an extension keeps that extension |
| Upload.UniqueSuffix | apps/server/src/routes/upload.ts:22 | `<ms>-<random>` is non-empty with no dot or slash |
| Upload.StoredFilename | apps/server/src/routes/upload.ts:20-24 | the stored name starts with the unique suffix and has the original's extension |
| Upload.TagClauses | apps/server/src/routes/upload.ts:55-58 | one connect-or-create clause per tag, with the tag unchanged on both sides |
| Upload.ClauseNames | apps/server/src/routes/upload.ts:56 | the looked-up names, one per clause |
| Upload.ClauseNamesOfTags | apps/server/src/routes/upload.ts:55-58 | the clauses look up exactly the given tags, in order |
| Upload.ParsedTags | apps/server/src/routes/upload.ts:72 | an absent or empty field is no tags; otherwise it is the JSON parse |
| Upload.HandleUpload | apps/server/src/routes/upload.ts:27-90 | 400 without a file; rejected non-images; too large over 20 MiB; created with 201 exactly when the file passes, the tags parse and the write succeeds; otherwise 500; the database changes only on success, by the upserted tags and one appended photo |
| Database.UpsertAll | apps/server/src/routes/upload.ts:55-58 | upserting adds exactly the missing names, keeps existing ids, and keeps ids unique and below the counter |
| Database.UpsertAllPresent | apps/server/prisma/seed.ts:18-22 | upserting names that all exist changes nothing |
| Database.UpsertAllIdempotent | apps/server/prisma/seed.ts:18-22 | a second upsert of the same names changes nothing |
| Database.UpsertAllSnoc | apps/server/prisma/seed.ts:16-23 | upserting a list is upserting its prefix and then its last name |
| Database.UpsertAllConcat | apps/server/prisma/seed.ts:16-23 | upserting two lists in a row is upserting their concatenation |
| Database.UpsertAllRerun | apps/server/prisma/seed.ts:16-23 | upserting a whole list after a run that stopped after a prefix gives the table of one full run |
| Database.Store.UpsertTag | apps/server/prisma/seed.ts:18-22 | one upsert: the tag exists afterwards and its id is returned; photos are untouched |
| Database.Store.CreatePhoto | apps/server/src/routes/upload.ts:43-62 | upserts the tags, appends one row with the given fields and the tags' ids |
| Seed.NormalizeAll | apps/server/prisma/seed.ts:17 | each default name is trimmed and lower-cased, in order |
| Seed.NormalizeAllSnoc | apps/server/prisma/seed.ts:16-17 | normalising one more name appends its normal form |
| Seed.SeedStep | apps/server/prisma/seed.ts:16-23 | one more turn of the loop upserts one more normalised default |
| Seed.Written | apps/server/prisma/seed.ts:16-32 | fewer than all default tags are written exactly when an upsert throws before the end |
| Seed.UpsertDefaults | apps/server/prisma/seed.ts:16-23 | the loop upserts the normal forms of the first `n` defaults in order; photos are untouched |
| Seed.SeedDefaults | apps/server/prisma/seed.ts:12-32 | the script completes exactly when no upsert throws; the tag table holds the defaults before the throwing one (all of them, `Seeded`, on success); photos are untouched |
| Seed.SeedRerunCompletes | apps/server/prisma/seed.ts:12-32 | running the seed again after it stopped part-way gives the table of one complete run |
| Seed.SeededContainsDefaults | apps/server/prisma/seed.ts:5-23 | every default tag exists after seeding under its normalised name |
| Seed.SeededKeepsExisting | apps/server/prisma/seed.ts:20 | seeding leaves existing tags and their ids unchanged |
| Seed.UpsertNormalizedKeys | apps/server/prisma/seed.ts:16-23 | upserting normal forms adds exactly those normal forms |
| Seed.SeededAddsOnlyDefaults | apps/server/prisma/seed.ts:5-23 | seeding adds exactly the normalised defaults and removes nothing |
| Seed.SeedIdempotent | apps/server/prisma/seed.ts:16-23 | running the seed twice is the same as running it once |
| Photos.Names | apps/server/src/routes/photos.ts:16-20 | the names behind the entries, in order |
| Photos.ListPhotos | apps/server/src/routes/photos.ts:14-20 | exactly the image names, in directory order, each as `{id, url, name}` |
| Photos.ListPhotosConcat | apps/server/src/routes/photos.ts:14-20 | the listing keeps directory order across any split |
| Photos.ImageNameIgnoresCase | apps/server/src/routes/photos.ts:15 | the pattern ignores case |
| Photos.EntryShape | apps/server/src/routes/photos.ts:16-20 | an entry's id and name are the file name, and its URL is that name under `/api/photos/` |
| Photos.HandleList | apps/server/src/routes/photos.ts:11-27 | a failed directory read gives 500 "Failed to read photos"; otherwise the listing |
| Photos.HandleServe | apps/server/src/routes/photos.ts:29-42 | the file is sent exactly when it can be accessed; otherwise 404 "Photo not found" |
| AuthMiddleware.ExtractToken | apps/server/src/middleware/auth.ts:9-10 | a token is found only in a non-empty header; it is non-empty and has no space |
| AuthMiddleware.SplitAfterScheme | apps/server/src/middleware/auth.ts:10 | splitting `scheme rest` gives the scheme and then the pieces of the rest |
| AuthMiddleware.FirstFieldOf | apps/server/src/middleware/auth.ts:10 | the first field of a token followed by a space or nothing is the token |
| AuthMiddleware.TokenAfterAnyScheme | apps/server/src/middleware/auth.ts:10 | the token is the second field, whatever the first word is |
| AuthMiddleware.NoSpaceNoToken | apps/server/src/middleware/auth.ts:10-14 | a header without a space carries no token |
| AuthMiddleware.EmptySecondField | apps/server/src/middleware/auth.ts:10-14 | `Bearer ` with nothing, or with a second space, carries no token |
| AuthMiddleware.JwtSecret | apps/server/src/middleware/auth.ts:16 | the secret is the environment value when non-empty, else `your-secret-key` |
| AuthMiddleware.ToRequestUser | apps/server/src/middleware/auth.ts:32-36 | id and e-mail are copied; a null or empty name becomes absent |
| AuthMiddleware.Authenticate | apps/server/src/middleware/auth.ts:7-43 | no token is 401 "No token provided"; `next` runs exactly when the token verifies and the user is found; a missing user is 401 "User not found" |
| AuthMiddleware.InvalidTokenCases | apps/server/src/middleware/auth.ts:16-42 | "Invalid token" exactly when verification or the lookup throws |
| AuthMiddleware.Request.constructor | apps/server/src/middleware/auth.ts:9 | a request with the header and no user |
| AuthMiddleware.Request.AuthenticateToken | apps/server/src/middleware/auth.ts:7-43 | the outcome is `Authenticate`, and `req.user` is set exactly when `next` runs |
| ServerConfig.Compact | apps/server/src/index.ts:23 | `filter(Boolean)` keeps exactly the present, non-empty values |
| ServerConfig.AllowedOrigins | apps/server/src/index.ts:19-23 | the two local origins, then `FRONTEND_URL` when it is non-empty |
| ServerConfig.OriginDecision | apps/server/src/index.ts:26-35 | a missing origin passes; otherwise the origin passes exactly when it is listed; a refusal carries the CORS message |
| ServerConfig.CorsAllowsExactly | apps/server/src/index.ts:19-35 | an origin passes exactly when it is a local origin or `FRONTEND_URL` |
| Geocoding.ConvertDmsToDd | apps/server/src/utils/geocoding.ts:12-18 | degrees + minutes/60 + seconds/3600, negated exactly for `S` and `W` |
| Geocoding.ConvertSign | apps/server/src/utils/geocoding.ts:12-18 | south and west are at most zero, every other reference at least zero |
| Geocoding.ConvertMirror | apps/server/src/utils/geocoding.ts:12-18 | `S` mirrors `N`, and `W` mirrors `E` |
| Geocoding.GetCoordinatesFromExif | apps/server/src/utils/geocoding.ts:20-51 | coordinates exactly when the GPS block and both coordinate fields are present and both references are non-empty; each axis is converted with its own reference |
| Geocoding.CoordinatesIndependent | apps/server/src/utils/geocoding.ts:32-44 | latitude is read only from the latitude fields |
| Geocoding.GetLocationFromExif | apps/server/src/utils/geocoding.ts:53-75 | the lookup queries the extracted coordinates only; the place is the answer when non-empty, else none |
| Geocoding.NoGpsNoLookup | apps/server/src/utils/geocoding.ts:54-58 | without GPS there is no request and no place |

## Left out

- I/O is not modelled. This covers the file system, `fetch`, Prisma, the JWT library, `localStorage` exceptions, toasts and the clock. Each outcome is a parameter instead. The HTTP response bodies are values.
- The web dialog's reverse geocoding (`getCityFromCoordinates`, with its one-second delay) is a parameter, `city`.
- The printed latitude and longitude text in the location notes are parameters. JavaScript number formatting is not modelled.
- Geocoding: GPS values are exact reals, not floating point. A DMS array shorter than three entries (which gives `NaN`) is not modelled.
- `JSON.parse` and `JSON.stringify` are parameters, or `JsonListField` values. Their encoding is not modelled.
- Text: `trim` and `toLowerCase` are modelled on ASCII only. Unicode whitespace and case mappings are not covered.
- Upload: multer's error for a field other than `photo` is not modelled. Nor are the creation of the upload directory, Windows path rules in `path.extname`, or `Math.round(Math.random() * 1E9)`; the random number is a parameter.
- Photos.HandleServe: `path.join` normalisation, and the path traversal it permits, are not modelled. Only whether the joined path is accessible is.
- Seed.SeededContainsDefaults: it is stated for any default name through `Normalize`. The concrete results (`wildlife`, `family`, `bird`, `sealife`) are not evaluated.
- React is not modelled: rendering, effects, state batching, preview URLs and dropzone MIME filtering. Each handler is a sequential method on the dialog's state. The stale read of `selectedTags` in `onDrop` is modelled as a read of the current list.
- The `console` logging is not modelled. This includes `hasGcsConfig` and the start-up banner it selects, which says whether cloud storage is configured (`apps/server/src/index.ts:14-16`). Nothing else reads it, so it only chooses a log line.
- PhotoGrid.ParseInt: models `parseInt` on decimal text only. JavaScript reads a `0x` prefix as hexadecimal (`"0x1A"` is 26), but the model gives 0. The select's values are printed ids, so the dialog never passes such text. Precision loss above 2^53 is also not modelled.

