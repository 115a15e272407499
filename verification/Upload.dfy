/**
 * The photo upload route: the multipart filter and size limit, the name the
 * stored file gets, the connect-or-create clauses for the tags, and the
 * branches of the POST handler.
 */
module Upload {
  import opened Common
  import opened Text
  import opened Database

  /** The part named `photo` of a multipart request, as the upload middleware sees it. */
  datatype UploadedFile = UploadedFile(originalName: string, mimetype: string, size: nat)

  /** The body fields of the request that the handler reads. */
  datatype UploadRequest = UploadRequest(file: Option<UploadedFile>, description: Option<string>, tags: Option<string>)

  /** What the file filter tells the upload middleware. */
  datatype FilterDecision = Accept | Reject(message: string)

  /** The file filter: only files whose declared type starts with `image/` are taken. */
  function FileFilter(mimetype: string): (r: FilterDecision)
    ensures r.Accept? <==> StartsWith(mimetype, "image/")
    ensures r.Reject? ==> r.message == "Only image files are allowed"
  {
    if StartsWith(mimetype, "image/") then Accept else Reject("Only image files are allowed")
  }

  /** Upload size limit in bytes: 20 MiB. */
  const FileSizeLimit: nat := 20 * 1024 * 1024

  /** The middleware stores a file only when its size does not pass the limit. */
  predicate WithinSizeLimit(size: nat)
  {
    size <= FileSizeLimit
  }

  /** The path with any trailing `/` removed. */
  function StripTrailingSlashes(p: string): (r: string)
    ensures r <= p
    ensures r == [] || r[|r| - 1] != '/'
    ensures forall i :: |r| <= i < |p| ==> p[i] == '/'
    decreases |p|
  {
    if p != [] && p[|p| - 1] == '/' then StripTrailingSlashes(p[..|p| - 1]) else p
  }

  /** The last segment of a path: what follows the last `/` once trailing slashes are gone. */
  function LastSegment(p: string): (r: string)
    ensures '/' !in r
    ensures EndsWith(StripTrailingSlashes(p), r)
  {
    var q := StripTrailingSlashes(p);
    match LastIndexOf(q, '/')
    case None => q
    case Some(i) => q[i + 1..]
  }

  /**
   * `path.extname` (POSIX): the last segment from its last `.` to the end; empty
   * when the segment has no `.`, when its only `.` leads it (a hidden file), or
   * when the segment is `..`.
   */
  function ExtName(p: string): (r: string)
    ensures r == [] || (r[0] == '.' && '.' !in r[1..] && '/' !in r)
    ensures EndsWith(LastSegment(p), r)
    ensures r != [] ==> |r| < |LastSegment(p)|
  {
    var b := LastSegment(p);
    match LastIndexOf(b, '.')
    case None => ""
    case Some(k) =>
      if k == 0 || b == ".." then ""
      else
        ExtensionFacts(b, k);
        b[k..]
  }

  /** The suffix of a `/`-free segment from its last dot, when that dot is not the first character. */
  lemma ExtensionFacts(b: string, k: nat)
    requires 0 < k < |b| && b[k] == '.' && '.' !in b[k + 1..] && '/' !in b
    ensures var r := b[k..]; r[0] == '.' && '.' !in r[1..] && '/' !in r && EndsWith(b, r) && |r| < |b|
  {
    assert b[k..][1..] == b[k + 1..];
  }

  /** A name without any `.` has no extension. */
  lemma ExtNameNoDot(p: string)
    requires '.' !in p
    ensures ExtName(p) == ""
  {
    var q := StripTrailingSlashes(p);
    var b := LastSegment(p);
    assert '.' !in q by {
      forall i | 0 <= i < |q| ensures q[i] != '.' {
        assert q[i] == p[i];
      }
    }
    assert '.' !in b by {
      forall i | 0 <= i < |b| ensures b[i] != '.' {
        assert b[i] == q[|q| - |b| + i];
      }
    }
  }

  /** A hidden file such as `.env` has no extension: a leading dot does not count. */
  lemma ExtNameHidden(name: string)
    requires '.' !in name && '/' !in name
    ensures ExtName("." + name) == ""
  {
    var p := "." + name;
    assert '/' !in p by {
      forall i | 0 <= i < |p| ensures p[i] != '/' {
        if i > 0 { assert p[i] == name[i - 1]; }
      }
    }
    assert StripTrailingSlashes(p) == p;
    assert LastSegment(p) == p;
    assert LastIndexOf(p, '.') == Some(0);
  }

  /**
   * Putting a prefix without `.` or `/` in front of a name's extension keeps that
   * extension: the extension's dot is the last dot and not the first character.
   */
  lemma ExtNameAfterPrefix(prefix: string, name: string)
    requires prefix != [] && '.' !in prefix && '/' !in prefix
    ensures ExtName(prefix + ExtName(name)) == ExtName(name)
  {
    var e := ExtName(name);
    var s := prefix + e;
    assert '/' !in s by {
      forall i | 0 <= i < |s| ensures s[i] != '/' {
        if i < |prefix| { assert s[i] == prefix[i]; } else { assert s[i] == e[i - |prefix|]; }
      }
    }
    assert StripTrailingSlashes(s) == s;
    assert LastIndexOf(s, '/') == None;
    assert LastSegment(s) == s;
    if e == [] {
      assert s == prefix;
    } else {
      var k := LastIndexOf(s, '.');
      assert s[|prefix|] == '.';
      assert k.Some?;
      assert k.value == |prefix|;
      assert s != ".." by {
        assert s[0] == prefix[0];
      }
      assert s[|prefix|..] == e;
    }
  }

  /** The time-and-random part of a stored name: `<milliseconds>-<random integer>`. */
  function UniqueSuffix(now: nat, rand: nat): (r: string)
    ensures r != [] && '.' !in r && '/' !in r
  {
    var a := NatToString(now);
    var b := NatToString(rand);
    assert forall i :: 0 <= i < |a| ==> IsDigit(a[i]);
    assert forall i :: 0 <= i < |b| ==> IsDigit(b[i]);
    var r := a + "-" + b;
    assert forall i :: 0 <= i < |r| ==> r[i] == '-' || IsDigit(r[i]);
    r
  }

  /** The name the disk storage gives an upload: the unique suffix followed by the original extension. */
  function StoredFilename(now: nat, rand: nat, originalName: string): (r: string)
    ensures StartsWith(r, UniqueSuffix(now, rand))
    ensures ExtName(r) == ExtName(originalName)
  {
    var suffix := UniqueSuffix(now, rand);
    ExtNameAfterPrefix(suffix, originalName);
    suffix + ExtName(originalName)
  }

  /** A nested `connectOrCreate` clause: find the tag by `whereName`, or create it with `createName`. */
  datatype ConnectOrCreate = ConnectOrCreate(whereName: string, createName: string)

  /** The clauses the metadata writer builds: one per tag, in order, with the tag string unchanged on both sides. */
  function TagClauses(tags: seq<string>): (r: seq<ConnectOrCreate>)
    ensures |r| == |tags|
    ensures forall i :: 0 <= i < |tags| ==> r[i].whereName == tags[i] && r[i].createName == tags[i]
    decreases |tags|
  {
    if tags == [] then [] else [ConnectOrCreate(tags[0], tags[0])] + TagClauses(tags[1..])
  }

  /** The names the clauses look up, in order. */
  function ClauseNames(clauses: seq<ConnectOrCreate>): (r: seq<string>)
    ensures |r| == |clauses|
    decreases |clauses|
  {
    if clauses == [] then [] else [clauses[0].whereName] + ClauseNames(clauses[1..])
  }

  /** The clauses look up exactly the tags they were built from, in order: no tag is normalised, dropped or merged. */
  lemma {:induction false} ClauseNamesOfTags(tags: seq<string>)
    ensures ClauseNames(TagClauses(tags)) == tags
    decreases |tags|
  {
    if tags != [] {
      ClauseNamesOfTags(tags[1..]);
      assert TagClauses(tags)[1..] == TagClauses(tags[1..]);
    }
  }

  /** The tag list of the request: an absent or empty field is no tags; otherwise `parse` (`JSON.parse`), which fails with `None`. */
  function ParsedTags(field: Option<string>, parse: string -> Option<seq<string>>): (r: Option<seq<string>>)
    ensures field.None? || field.value == "" ==> r == Some([])
    ensures field.Some? && field.value != "" ==> r == parse(field.value)
  {
    if field.Some? && field.value != "" then parse(field.value) else Some([])
  }

  /** What the route produces: a JSON response, or an error the middleware hands on to the error handler. */
  datatype Outcome =
    | ErrorResponse(status: nat, error: string)
    | CreatedResponse(status: nat, message: string, photo: PhotoRow)
    | Rejected(message: string)
    | TooLarge

  /**
   * `POST /`: the upload middleware, then the handler. `now` and `rand` stand for
   * the clock and the random number of the name, `parse` for `JSON.parse`, and
   * `dbOk` for whether the database write succeeds.
   */
  method HandleUpload(db: Store, req: UploadRequest, now: nat, rand: nat,
                      parse: string -> Option<seq<string>>, dbOk: bool) returns (out: Outcome)
    requires db.Valid()
    modifies db
    ensures db.Valid()
    ensures req.file.None? ==> out == ErrorResponse(400, "No file uploaded")
    ensures req.file.Some? && FileFilter(req.file.value.mimetype).Reject? ==> out == Rejected("Only image files are allowed")
    ensures req.file.Some? && FileFilter(req.file.value.mimetype).Accept? && !WithinSizeLimit(req.file.value.size) ==> out == TooLarge
    ensures !out.CreatedResponse? ==> unchanged(db)
    ensures out.CreatedResponse? <==>
      req.file.Some? && FileFilter(req.file.value.mimetype).Accept? && WithinSizeLimit(req.file.value.size)
      && ParsedTags(req.tags, parse).Some? && dbOk
    ensures out.ErrorResponse? && req.file.Some? ==> out == ErrorResponse(500, "Failed to upload photo")
    ensures out.CreatedResponse? ==>
      var f := req.file.value;
      var tags := ParsedTags(req.tags, parse).value;
      && out.status == 201 && out.message == "Photo uploaded successfully"
      && out.photo.filename == StoredFilename(now, rand, f.originalName)
      && out.photo.originalName == f.originalName
      && out.photo.description == req.description
      && (db.tagIds, db.nextTagId) == UpsertAll(old(db.tagIds), old(db.nextTagId), tags)
      && out.photo.tagIds == (set n | n in tags :: db.tagIds[n])
      && db.photos == old(db.photos) + [out.photo]
  {
    if req.file.None? {
      return ErrorResponse(400, "No file uploaded");
    }
    var f := req.file.value;
    var decision := FileFilter(f.mimetype);
    if decision.Reject? {
      return Rejected(decision.message);
    }
    if !WithinSizeLimit(f.size) {
      return TooLarge;
    }
    var filename := StoredFilename(now, rand, f.originalName);
    var parsedTags := ParsedTags(req.tags, parse);
    if parsedTags.None? || !dbOk {
      return ErrorResponse(500, "Failed to upload photo");
    }
    var clauses := TagClauses(parsedTags.value);
    ClauseNamesOfTags(parsedTags.value);
    var photo := db.CreatePhoto(filename, f.originalName, req.description, ClauseNames(clauses));
    out := CreatedResponse(201, "Photo uploaded successfully", photo);
  }
}
