/**
 * The photo grid: the list of distinct uploaders offered in the user filter,
 * the value of the filter's select box, and the photos it lets through.
 */
module PhotoGrid {
  import opened Common
  import opened Text
  import opened Types

  /** The uploader id of every photo, in order. */
  function UploaderIds(photos: seq<Photo>): (r: seq<int>)
    ensures |r| == |photos|
    ensures forall i :: 0 <= i < |photos| ==> r[i] == photos[i].user.id
    decreases |photos|
  {
    if photos == [] then [] else [photos[0].user.id] + UploaderIds(photos[1..])
  }

  /** `Array.from(new Set(ids))`: each id once, at the place where it first appears. */
  function Distinct(ids: seq<int>): (r: seq<int>)
    ensures NoDup(r)
    ensures forall x :: x in r <==> x in ids
    ensures IsSubsequence(r, ids)
    decreases |ids|
  {
    if ids == [] then []
    else
      var init := ids[..|ids| - 1];
      var x := ids[|ids| - 1];
      var d := Distinct(init);
      assert ids == init + [x];
      SubsequenceSnoc(d, init, x);
      if x in d then d
      else
        SubsequenceExtend(d, init, x);
        d + [x]
  }

  /** A subsequence of `s` is a subsequence of `s` with one more element at the end. */
  lemma {:induction false} SubsequenceSnoc<T>(a: seq<T>, s: seq<T>, x: T)
    requires IsSubsequence(a, s)
    ensures IsSubsequence(a, s + [x])
    decreases |s|
  {
    if a != [] {
      assert (s + [x])[0] == s[0];
      assert (s + [x])[1..] == s[1..] + [x];
      if a[0] == s[0] {
        SubsequenceSnoc(a[1..], s[1..], x);
      } else {
        SubsequenceSnoc(a, s[1..], x);
      }
    }
  }

  /** Both sides may grow by the same last element. */
  lemma {:induction false} SubsequenceExtend<T>(a: seq<T>, s: seq<T>, x: T)
    requires IsSubsequence(a, s)
    ensures IsSubsequence(a + [x], s + [x])
    decreases |s|
  {
    if a == [] {
      assert a + [x] == [x];
      EndSubsequence(s, x);
    } else {
      assert (s + [x])[0] == s[0];
      assert (s + [x])[1..] == s[1..] + [x];
      assert (a + [x])[0] == a[0];
      assert (a + [x])[1..] == a[1..] + [x];
      if a[0] == s[0] {
        SubsequenceExtend(a[1..], s[1..], x);
      } else {
        SubsequenceExtend(a, s[1..], x);
      }
    }
  }

  lemma {:induction false} EndSubsequence<T>(s: seq<T>, x: T)
    ensures IsSubsequence([x], s + [x])
    decreases |s|
  {
    if s != [] {
      assert (s + [x])[1..] == s[1..] + [x];
      EndSubsequence(s[1..], x);
    }
  }

  /** An element already present keeps its first position when something is appended. */
  lemma {:induction false} IndexInSnoc(s: seq<int>, x: int, y: int)
    requires y in s
    ensures IndexIn(s + [x], y) == IndexIn(s, y)
    decreases |s|
  {
    assert (s + [x])[0] == s[0];
    if s[0] != y {
      assert (s + [x])[1..] == s[1..] + [x];
      IndexInSnoc(s[1..], x, y);
    }
  }

  /** The distinct ids come in the order of their first appearance in `ids`. */
  lemma {:induction false} DistinctFirstAppearance(ids: seq<int>)
    ensures forall i, j :: 0 <= i < j < |Distinct(ids)| ==>
      IndexIn(ids, Distinct(ids)[i]) < IndexIn(ids, Distinct(ids)[j])
    decreases |ids|
  {
    if ids != [] {
      var init := ids[..|ids| - 1];
      var x := ids[|ids| - 1];
      var d := Distinct(init);
      assert ids == init + [x];
      DistinctFirstAppearance(init);
      forall y | y in d ensures IndexIn(ids, y) == IndexIn(init, y) && IndexIn(ids, y) < |init| {
        IndexInSnoc(init, x, y);
      }
      if x !in d {
        assert IndexIn(ids, x) == |init|;
        assert Distinct(ids) == d + [x];
      }
    }
  }

  /** `photos.find(p => p.user.id === id)`: the first photo by that uploader. */
  function FindByUser(photos: seq<Photo>, id: int): (r: Option<Photo>)
    ensures r.None? <==> id !in UploaderIds(photos)
    ensures r.Some? ==> r.value in photos && r.value.user.id == id
    ensures r.Some? ==> r.value == photos[IndexIn(UploaderIds(photos), id)]
    decreases |photos|
  {
    if photos == [] then None
    else if photos[0].user.id == id then Some(photos[0])
    else
      UploaderIdsTail(photos);
      FindByUser(photos[1..], id)
  }

  /** The uploader ids of a non-empty list: the first photo's, then the rest's. */
  lemma UploaderIdsTail(photos: seq<Photo>)
    requires photos != []
    ensures UploaderIds(photos) == [photos[0].user.id] + UploaderIds(photos[1..])
  {
  }

  /** The name shown for an uploader: the name if non-empty, else the e-mail if non-empty, else `User <id>`. */
  function Label(photo: Option<Photo>, id: int): (r: string)
    ensures r != []
    ensures photo.Some? && Truthy(photo.value.user.name) ==> r == photo.value.user.name.value
    ensures photo.Some? && !Truthy(photo.value.user.name) && photo.value.user.email != [] ==> r == photo.value.user.email
    ensures (photo.None? || (!Truthy(photo.value.user.name) && photo.value.user.email == [])) ==> r == "User " + IntToString(id)
  {
    if photo.Some? && Truthy(photo.value.user.name) then photo.value.user.name.value
    else if photo.Some? && photo.value.user.email != [] then photo.value.user.email
    else "User " + IntToString(id)
  }

  /** An option of the user filter. */
  datatype UserOption = UserOption(id: int, name: string)

  function OptionsFor(photos: seq<Photo>, ids: seq<int>): (r: seq<UserOption>)
    ensures |r| == |ids|
    ensures forall i :: 0 <= i < |ids| ==> r[i] == UserOption(ids[i], Label(FindByUser(photos, ids[i]), ids[i]))
    decreases |ids|
  {
    if ids == [] then [] else [UserOption(ids[0], Label(FindByUser(photos, ids[0]), ids[0]))] + OptionsFor(photos, ids[1..])
  }

  /** The `users` list: one option per distinct uploader, in first-appearance order. */
  function Users(photos: seq<Photo>): (r: seq<UserOption>)
    ensures |r| == |Distinct(UploaderIds(photos))|
    ensures forall i :: 0 <= i < |r| ==> r[i].id == Distinct(UploaderIds(photos))[i]
  {
    OptionsFor(photos, Distinct(UploaderIds(photos)))
  }

  /** The options list each uploader exactly once. */
  lemma UsersDistinct(photos: seq<Photo>)
    ensures forall i, j :: 0 <= i < j < |Users(photos)| ==> Users(photos)[i].id != Users(photos)[j].id
  {
  }

  /** Every photo's uploader has an option. */
  lemma UsersCoverUploaders(photos: seq<Photo>, p: Photo)
    requires p in photos
    ensures exists i :: 0 <= i < |Users(photos)| && Users(photos)[i].id == p.user.id
  {
    var ids := UploaderIds(photos);
    var d := Distinct(ids);
    var k :| 0 <= k < |photos| && photos[k] == p;
    assert ids[k] == p.user.id;
    assert p.user.id in d;
    var i :| 0 <= i < |d| && d[i] == p.user.id;
    assert Users(photos)[i].id == p.user.id;
  }

  /** Every option belongs to an uploader and is named after that uploader's first photo. */
  lemma UsersNamedAfterFirstPhoto(photos: seq<Photo>, i: nat)
    requires i < |Users(photos)|
    ensures var id := Users(photos)[i].id;
      && id in UploaderIds(photos)
      && var first := photos[IndexIn(UploaderIds(photos), id)];
      && first.user.id == id
      && Users(photos)[i].name == Label(Some(first), id)
  {
    var d := Distinct(UploaderIds(photos));
    assert Users(photos)[i] == OptionsFor(photos, d)[i];
    assert d[i] in d;
  }

  /** Uploaders are listed in the order in which their first photo appears. */
  lemma UsersInFirstAppearanceOrder(photos: seq<Photo>)
    ensures forall i, j :: 0 <= i < j < |Users(photos)| ==>
      IndexIn(UploaderIds(photos), Users(photos)[i].id) < IndexIn(UploaderIds(photos), Users(photos)[j].id)
  {
    DistinctFirstAppearance(UploaderIds(photos));
  }

  /** The state of the filter: no user chosen (`null`), a user id, or `NaN` from an unparsable value. */
  datatype Selection = AllUsers | SelectedId(id: int) | NotANumber

  /** The longest run of decimal digits at the start of `s`. */
  function DigitPrefix(s: string): (r: string)
    ensures StartsWith(s, r) && AllDigits(r)
    ensures r == s || !IsDigit(s[|r|])
    decreases |s|
  {
    if s != [] && IsDigit(s[0]) then [s[0]] + DigitPrefix(s[1..]) else []
  }

  /** `parseInt(s)`: skip leading whitespace, read an optional sign and the digits after it; no digits is `NaN`. */
  function ParseInt(s: string): (r: Selection)
    ensures r.SelectedId? || r.NotANumber?
    ensures r.NotANumber? <==> DigitPrefix(SignDropped(TrimStart(s))) == []
    ensures r.SelectedId? ==>
      var t := TrimStart(s);
      var magnitude: int := ParseDecimal(DigitPrefix(SignDropped(t)));
      && (r.id == magnitude || r.id == -magnitude)
      && (r.id < 0 ==> t[0] == '-')
      && (r.id > 0 ==> t[0] != '-')
  {
    var t := TrimStart(s);
    var negative := t != [] && t[0] == '-';
    var digits := DigitPrefix(SignDropped(t));
    var magnitude: int := if digits == [] then 0 else ParseDecimal(digits);
    if digits == [] then NotANumber
    else if negative then SelectedId(0 - magnitude)
    else SelectedId(magnitude)
  }

  /** Digits followed by a non-digit: the digit prefix is exactly those digits. */
  lemma {:induction false} DigitPrefixStops(d: string, rest: string)
    requires AllDigits(d) && (rest == [] || !IsDigit(rest[0]))
    ensures DigitPrefix(d + rest) == d
    decreases |d|
  {
    if d == [] {
      assert d + rest == rest;
    } else {
      assert (d + rest)[1..] == d[1..] + rest;
      DigitPrefixStops(d[1..], rest);
    }
  }

  /** `parseInt` reads the number and ignores whatever follows it that is not a digit (`"12px"` is 12). */
  lemma ParseIntIgnoresTrailing(n: int, rest: string)
    requires rest == [] || !IsDigit(rest[0])
    ensures ParseInt(IntToString(n) + rest) == SelectedId(n)
  {
    if n < 0 {
      NegativeIgnoresTrailing(n, rest);
    } else {
      NaturalIgnoresTrailing(n, rest);
    }
  }

  /** The non-negative case: the digits are read and what follows is ignored. */
  lemma NaturalIgnoresTrailing(n: nat, rest: string)
    requires rest == [] || !IsDigit(rest[0])
    ensures ParseInt(IntToString(n) + rest) == SelectedId(n)
  {
    var d := NatToString(n);
    var w := d + rest;
    assert w[0] == d[0];
    DigitPrefixStops(d, rest);
    ParseIntUnsigned(w, n);
  }

  /** The negative case: the minus sign, then the digits; what follows is ignored. */
  lemma NegativeIgnoresTrailing(n: int, rest: string)
    requires n < 0 && (rest == [] || !IsDigit(rest[0]))
    ensures ParseInt(IntToString(n) + rest) == SelectedId(n)
  {
    var m: nat := -n;
    var d := NatToString(m);
    var w := IntToString(n) + rest;
    NegativeText(n, rest);
    DigitPrefixStops(d, rest);
    ParseIntNegative(w, m);
  }

  /** The text of a negative number, followed by `rest`: a minus sign, then the digits and `rest`. */
  lemma NegativeText(n: int, rest: string)
    requires n < 0
    ensures var w := IntToString(n) + rest; w[0] == '-' && w[1..] == NatToString(-n) + rest
  {
    var d := NatToString(-n);
    assert IntToString(n) + rest == ['-'] + (d + rest);
  }

  /** Text starting with the digits of `m` reads as `m`. */
  lemma ParseIntUnsigned(w: string, m: nat)
    requires w != [] && IsDigit(w[0]) && DigitPrefix(w) == NatToString(m)
    ensures ParseInt(w) == SelectedId(m)
  {
    TrimStartKeeps(w);
    ParseNatToString(m);
  }

  /** Text starting with `-` and the digits of `m` reads as minus `m`. */
  lemma ParseIntNegative(w: string, m: nat)
    requires w != [] && w[0] == '-' && DigitPrefix(w[1..]) == NatToString(m)
    ensures ParseInt(w) == SelectedId(-(m as int))
  {
    TrimStartKeeps(w);
    ParseNatToString(m);
  }

  /** The text after a leading `+` or `-`, if there is one. */
  function SignDropped(t: string): (r: string)
    ensures r == t || (t != [] && (t[0] == '-' || t[0] == '+') && r == t[1..])
  {
    if t != [] && (t[0] == '-' || t[0] == '+') then t[1..] else t
  }

  /** Reading back the text of an integer gives the integer. */
  lemma ParseIntToString(n: int)
    ensures ParseInt(IntToString(n)) == SelectedId(n)
  {
    ParseIntIgnoresTrailing(n, []);
    assert IntToString(n) + [] == IntToString(n);
  }

  /** `onChange`: an empty value clears the filter, any other value is parsed. */
  function ParseSelect(value: string): (r: Selection)
    ensures value == [] <==> r.AllUsers?
  {
    if value == [] then AllUsers else ParseInt(value)
  }

  /** `value={selectedUser || ''}`: no selection, id 0 and `NaN` all show as the empty value. */
  function SelectValue(s: Selection): (r: string)
    ensures r == [] <==> !s.SelectedId? || s.id == 0
    ensures s.SelectedId? && s.id != 0 ==> r == IntToString(s.id)
  {
    if s.SelectedId? && s.id != 0 then IntToString(s.id) else ""
  }

  /** Choosing the option of a non-zero user id selects that user, and the select box then shows that option. */
  lemma SelectRoundTrip(id: int)
    requires id != 0
    ensures ParseSelect(IntToString(id)) == SelectedId(id)
    ensures SelectValue(ParseSelect(IntToString(id))) == IntToString(id)
  {
    ParseIntToString(id);
  }

  /** The "All users" option has the empty value, so it clears the filter. */
  lemma AllUsersOptionClears()
    ensures ParseSelect("") == AllUsers && SelectValue(AllUsers) == ""
  {
  }

  predicate ByUser(id: int, p: Photo)
  {
    p.user.id == id
  }

  /** The photos the grid shows for a selection. */
  function FilteredPhotos(photos: seq<Photo>, s: Selection): (r: seq<Photo>)
    ensures s.AllUsers? ==> r == photos
    ensures s.SelectedId? ==> forall p :: p in r <==> p in photos && p.user.id == s.id
    ensures s.NotANumber? ==> r == []
    ensures IsSubsequence(r, photos)
  {
    match s
    case AllUsers =>
      SubsequenceRefl(photos);
      photos
    case SelectedId(id) => Filter(photos, p => ByUser(id, p))
    case NotANumber => []
  }

  /** Every photo is shown when its uploader is selected, and a selected id that uploaded nothing shows nothing. */
  lemma FilterByUploader(photos: seq<Photo>, id: int)
    ensures forall p :: p in photos && p.user.id == id ==> p in FilteredPhotos(photos, SelectedId(id))
    ensures id !in UploaderIds(photos) ==> FilteredPhotos(photos, SelectedId(id)) == []
  {
    if id !in UploaderIds(photos) {
      forall i | 0 <= i < |photos| ensures !ByUser(id, photos[i]) {
        assert UploaderIds(photos)[i] == photos[i].user.id;
      }
      FilterNone(photos, p => ByUser(id, p));
    }
  }

  /** The photos of two uploads shown under one user are the photos of each, in order. */
  lemma FilterAppend(a: seq<Photo>, b: seq<Photo>, id: int)
    ensures FilteredPhotos(a + b, SelectedId(id)) == FilteredPhotos(a, SelectedId(id)) + FilteredPhotos(b, SelectedId(id))
  {
    FilterConcat(a, b, p => ByUser(id, p));
  }
}
