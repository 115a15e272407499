/**
 * The string operations the application relies on (`trim`, `toLowerCase`,
 * `startsWith`, `endsWith`, `includes`, `indexOf`, `split`, number-to-string
 * and back), given an explicit model over the ASCII subset.
 */
module Text {
  import opened Common

  /** Whitespace that `String.prototype.trim` strips, restricted to ASCII: space, tab, LF, VT, FF, CR. */
  predicate IsSpace(c: char)
  {
    c == ' ' || c == '\t' || c == '\n' || c == '\r' || c == 11 as char || c == 12 as char
  }

  predicate IsUpper(c: char)
  {
    'A' <= c <= 'Z'
  }

  /** Every character is whitespace (this includes the empty string). */
  predicate AllSpace(s: string)
  {
    forall i :: 0 <= i < |s| ==> IsSpace(s[i])
  }

  /** No upper-case ASCII letter occurs. */
  predicate IsLower(s: string)
  {
    forall i :: 0 <= i < |s| ==> !IsUpper(s[i])
  }

  /** Neither end is whitespace. */
  predicate IsTrimmed(s: string)
  {
    s == [] || (!IsSpace(s[0]) && !IsSpace(s[|s| - 1]))
  }

  function LowerChar(c: char): char
  {
    if IsUpper(c) then (c as int + 32) as char else c
  }

  /** `toLowerCase` on ASCII: upper-case letters become lower-case, every other character is kept. */
  function ToLower(s: string): (r: string)
    ensures |r| == |s| && IsLower(r)
    ensures forall i :: 0 <= i < |s| ==> r[i] == LowerChar(s[i])
    decreases |s|
  {
    if s == [] then [] else [LowerChar(s[0])] + ToLower(s[1..])
  }

  /** A string that is already lower-case is left alone by `toLowerCase`. */
  lemma LowerIsFixed(s: string)
    requires IsLower(s)
    ensures ToLower(s) == s
  {
    assert forall i :: 0 <= i < |s| ==> ToLower(s)[i] == s[i];
  }

  /** Lower-casing works character by character, so it distributes over concatenation. */
  lemma {:induction false} ToLowerConcat(a: string, b: string)
    ensures ToLower(a + b) == ToLower(a) + ToLower(b)
    decreases |a|
  {
    if a == [] {
      assert a + b == b;
    } else {
      assert (a + b)[0] == a[0];
      assert (a + b)[1..] == a[1..] + b;
      ToLowerConcat(a[1..], b);
    }
  }

  /** `r` is `s` with only whitespace removed around it: `r` occurs at `i` and everything outside it is whitespace. */
  predicate StripsSpace(s: string, r: string, i: int)
  {
    0 <= i && i + |r| <= |s| && s[i..i + |r|] == r && AllSpace(s[..i]) && AllSpace(s[i + |r|..])
  }

  /** How many whitespace characters `s` starts with. */
  function LeadingSpace(s: string): nat
  {
    |s| - |TrimStart(s)|
  }

  /** Strip leading whitespace. */
  function TrimStart(s: string): (r: string)
    ensures |r| <= |s| && r == s[|s| - |r|..]
    ensures r == [] || !IsSpace(r[0])
    ensures r == [] <==> AllSpace(s)
    decreases |s|
  {
    if s != [] && IsSpace(s[0]) then
      assert AllSpace(s) <==> AllSpace(s[1..]) by {
        assert forall i :: 0 < i < |s| ==> s[i] == s[1..][i - 1];
      }
      TrimStart(s[1..])
    else s
  }

  /** A string that does not start with whitespace is left alone by `TrimStart`. */
  lemma TrimStartKeeps(s: string)
    requires s != [] && !IsSpace(s[0])
    ensures TrimStart(s) == s
  {
  }

  /** Strip trailing whitespace. */
  function TrimEnd(s: string): (r: string)
    ensures |r| <= |s| && r == s[..|r|]
    ensures r == [] || !IsSpace(r[|r| - 1])
    ensures r == [] <==> AllSpace(s)
    decreases |s|
  {
    if s != [] && IsSpace(s[|s| - 1]) then
      assert AllSpace(s) <==> AllSpace(s[..|s| - 1]) by {
        assert forall i :: 0 <= i < |s| - 1 ==> s[i] == s[..|s| - 1][i];
      }
      TrimEnd(s[..|s| - 1])
    else s
  }

  /** `TrimStart` removes only whitespace. */
  lemma {:induction false} TrimStartRemovesSpace(s: string)
    ensures AllSpace(s[..|s| - |TrimStart(s)|])
    decreases |s|
  {
    if s != [] && IsSpace(s[0]) {
      var r := TrimStart(s[1..]);
      TrimStartRemovesSpace(s[1..]);
      var front, rest := s[..|s| - |r|], s[1..][..|s| - 1 - |r|];
      forall m | 0 < m < |front| ensures IsSpace(front[m]) {
        assert front[m] == rest[m - 1];
      }
    }
  }

  /** `TrimEnd` removes only whitespace. */
  lemma {:induction false} TrimEndRemovesSpace(s: string)
    ensures AllSpace(s[|TrimEnd(s)|..])
    decreases |s|
  {
    if s != [] && IsSpace(s[|s| - 1]) {
      var r := TrimEnd(s[..|s| - 1]);
      TrimEndRemovesSpace(s[..|s| - 1]);
      var back, rest := s[|r|..], s[..|s| - 1][|r|..];
      forall m | 0 <= m < |back| ensures IsSpace(back[m]) {
        if m < |rest| { assert back[m] == rest[m]; }
      }
    }
  }

  /** `String.prototype.trim`: the part of `s` between its leading and trailing whitespace. */
  function Trim(s: string): (r: string)
    ensures IsTrimmed(r)
    ensures r == [] <==> AllSpace(s)
    ensures |r| <= |s|
  {
    var t := TrimStart(s);
    var r := TrimEnd(t);
    assert r != [] ==> !IsSpace(r[0]) by {
      if r != [] {
        assert r[0] == t[0];
      }
    }
    r
  }

  /**
   * `Trim` removes whitespace only: its result sits in `s` with nothing but
   * whitespace before and after it. With `IsTrimmed`, `TrimIsTheCore` shows that
   * this leaves no other choice.
   */
  lemma TrimStripsSpace(s: string)
    ensures StripsSpace(s, Trim(s), LeadingSpace(s))
  {
    var t := TrimStart(s);
    TrimStartRemovesSpace(s);
    TrimEndRemovesSpace(t);
    StartEndCore(s, t, TrimEnd(t));
  }

  /** What is left after stripping whitespace from the front and then from the back sits between whitespace. */
  lemma StartEndCore(s: string, t: string, r: string)
    requires |t| <= |s| && t == s[|s| - |t|..] && AllSpace(s[..|s| - |t|])
    requires |r| <= |t| && r == t[..|r|] && AllSpace(t[|r|..])
    ensures StripsSpace(s, r, |s| - |t|)
  {
    var i := |s| - |t|;
    assert s[i..i + |r|] == t[..|r|];
    assert s[i + |r|..] == t[|r|..];
  }

  /** Inside a stripped core, and outside it, position by position. */
  lemma StripsSpaceAt(s: string, r: string, i: int, m: int)
    requires StripsSpace(s, r, i) && 0 <= m < |s|
    ensures m < i ==> IsSpace(s[m])
    ensures i <= m < i + |r| ==> s[m] == r[m - i]
    ensures i + |r| <= m ==> IsSpace(s[m])
  {
    if m < i {
      assert s[..i][m] == s[m];
    } else if m < i + |r| {
      assert s[i..i + |r|][m - i] == s[m];
    } else {
      assert s[i + |r|..][m - i - |r|] == s[m];
    }
  }

  /** A trimmed string with only whitespace around it in `s` is `Trim(s)`: these two facts determine what trimming gives. */
  lemma TrimIsTheCore(s: string, r: string, i: int)
    requires IsTrimmed(r) && StripsSpace(s, r, i)
    ensures r == Trim(s)
  {
    var t := Trim(s);
    TrimStripsSpace(s);
    var k := LeadingSpace(s);
    if r == [] {
      forall m | 0 <= m < |s| ensures IsSpace(s[m]) {
        StripsSpaceAt(s, r, i, m);
      }
    } else if t == [] {
      StripsSpaceAt(s, r, i, i);
      StripsSpaceAt(s, t, k, i);
      assert false;
    } else {
      StripsSpaceAt(s, r, i, i);
      StripsSpaceAt(s, t, k, k);
      StripsSpaceAt(s, r, i, k);
      StripsSpaceAt(s, t, k, i);
      assert i == k;
      var j, l := i + |r| - 1, k + |t| - 1;
      StripsSpaceAt(s, r, i, j);
      StripsSpaceAt(s, t, k, l);
      StripsSpaceAt(s, r, i, l);
      StripsSpaceAt(s, t, k, j);
      assert j == l;
    }
  }

  /** A trimmed string is left alone by `trim`. */
  lemma {:induction false} TrimFixed(s: string)
    requires IsTrimmed(s)
    ensures Trim(s) == s
  {
  }

  /** Lower-casing never turns whitespace into something else or back. */
  lemma LowerCharSpace(c: char)
    ensures IsSpace(LowerChar(c)) == IsSpace(c)
  {
  }

  /** The normalisation every tag passes through: `trim()` then `toLowerCase()`. */
  function Normalize(s: string): (r: string)
    ensures IsLower(r) && IsTrimmed(r)
    ensures r == [] <==> AllSpace(s)
  {
    var t := Trim(s);
    var r := ToLower(t);
    assert t != [] ==> IsSpace(r[0]) == IsSpace(t[0]) && IsSpace(r[|r| - 1]) == IsSpace(t[|t| - 1]) by {
      if t != [] {
        LowerCharSpace(t[0]);
        LowerCharSpace(t[|t| - 1]);
      }
    }
    r
  }

  /**
   * Normalising is trimming the lower-cased text: the two steps commute. So the
   * normal form is the lower-cased input with only its surrounding whitespace removed.
   */
  lemma NormalizeIsTrimOfLower(s: string)
    ensures Normalize(s) == Trim(ToLower(s))
  {
    var t := Trim(s);
    TrimStripsSpace(s);
    var i := LeadingSpace(s);
    var a, b := s[..i], s[i + |t|..];
    StripsSpaceSplits(s, t, i);
    LowerAround(a, t, b);
    TrimIgnoresSurroundingSpace(ToLower(a), ToLower(t), ToLower(b));
    TrimFixed(Normalize(s));
  }

  /** A stripped core splits its string into the whitespace before it, itself and the whitespace after it. */
  lemma StripsSpaceSplits(s: string, r: string, i: int)
    requires StripsSpace(s, r, i)
    ensures s == s[..i] + r + s[i + |r|..]
  {
    assert s == s[..i] + s[i..i + |r|] + s[i + |r|..];
  }

  /** Strings that differ only in letter case normalise to the same name (`"FAMILY"` and `"family"`). */
  lemma NormalizeIgnoresCase(s: string, t: string)
    requires ToLower(s) == ToLower(t)
    ensures Normalize(s) == Normalize(t)
  {
    NormalizeIsTrimOfLower(s);
    NormalizeIsTrimOfLower(t);
  }

  /** Lower-casing whitespace gives whitespace. */
  lemma LowerAllSpace(a: string)
    requires AllSpace(a)
    ensures AllSpace(ToLower(a))
  {
    forall m | 0 <= m < |a| ensures IsSpace(ToLower(a)[m]) {
      LowerCharSpace(a[m]);
    }
  }

  /** Lower-casing text with whitespace around it lower-cases the middle and keeps the whitespace. */
  lemma LowerAround(a: string, s: string, b: string)
    requires AllSpace(a) && AllSpace(b)
    ensures ToLower(a + s + b) == ToLower(a) + ToLower(s) + ToLower(b)
    ensures AllSpace(ToLower(a)) && AllSpace(ToLower(b)) && |ToLower(a)| == |a|
  {
    ToLowerConcat(a + s, b);
    ToLowerConcat(a, s);
    LowerAllSpace(a);
    LowerAllSpace(b);
  }

  /** Leading whitespace in front of `y` is stripped along with `y`'s own. */
  lemma {:induction false} TrimStartSpacePrefix(a: string, y: string)
    requires AllSpace(a)
    ensures TrimStart(a + y) == TrimStart(y)
    decreases |a|
  {
    if a != [] {
      assert (a + y)[0] == a[0];
      assert (a + y)[1..] == a[1..] + y;
      assert AllSpace(a[1..]) by {
        forall m | 0 <= m < |a| - 1 ensures IsSpace(a[1..][m]) { assert a[1..][m] == a[m + 1]; }
      }
      TrimStartSpacePrefix(a[1..], y);
    } else {
      assert a + y == y;
    }
  }

  /** Once a non-space character is reached, what follows is kept: text after `x` survives `TrimStart`. */
  lemma {:induction false} TrimStartAppend(x: string, b: string)
    requires !AllSpace(x)
    ensures TrimStart(x + b) == TrimStart(x) + b
    decreases |x|
  {
    assert (x + b)[0] == x[0];
    if IsSpace(x[0]) {
      assert (x + b)[1..] == x[1..] + b;
      assert !AllSpace(x[1..]) by {
        var m :| 0 <= m < |x| && !IsSpace(x[m]);
        assert x[1..][m - 1] == x[m];
      }
      TrimStartAppend(x[1..], b);
    }
  }

  /** Trailing whitespace after `y` is stripped along with `y`'s own. */
  lemma {:induction false} TrimEndSpaceSuffix(y: string, b: string)
    requires AllSpace(b)
    ensures TrimEnd(y + b) == TrimEnd(y)
    decreases |b|
  {
    if b != [] {
      var w := y + b;
      assert w[|w| - 1] == b[|b| - 1];
      assert w[..|w| - 1] == y + b[..|b| - 1];
      assert AllSpace(b[..|b| - 1]) by {
        var front := b[..|b| - 1];
        forall m | 0 <= m < |front| ensures IsSpace(front[m]) { assert front[m] == b[m]; }
      }
      TrimEndSpaceSuffix(y, b[..|b| - 1]);
    } else {
      assert y + b == y;
    }
  }

  /** Whitespace added around a string does not change what `trim` gives. */
  lemma TrimIgnoresSurroundingSpace(a: string, x: string, b: string)
    requires AllSpace(a) && AllSpace(b)
    ensures Trim(a + x + b) == Trim(x)
  {
    assert a + x + b == a + (x + b);
    TrimStartSpacePrefix(a, x + b);
    if AllSpace(x) {
      var xb := x + b;
      assert AllSpace(xb) by {
        forall m | 0 <= m < |xb| ensures IsSpace(xb[m]) {
          if m < |x| { assert xb[m] == x[m]; } else { assert xb[m] == b[m - |x|]; }
        }
      }
    } else {
      TrimStartAppend(x, b);
      TrimEndSpaceSuffix(TrimStart(x), b);
    }
  }

  /** Whitespace around a string does not change its normal form (`" family "` and `"family"`). */
  lemma NormalizeIgnoresSurroundingSpace(a: string, s: string, b: string)
    requires AllSpace(a) && AllSpace(b)
    ensures Normalize(a + s + b) == Normalize(s)
  {
    NormalizeIsTrimOfLower(s);
    NormalizeIsTrimOfLower(a + s + b);
    LowerAround(a, s, b);
    TrimIgnoresSurroundingSpace(ToLower(a), ToLower(s), ToLower(b));
  }

  /** On a string without surrounding whitespace, normalising is just lower-casing. */
  lemma NormalizeTrimmed(s: string)
    requires IsTrimmed(s)
    ensures Normalize(s) == ToLower(s)
  {
    TrimFixed(s);
  }

  /** Normalising twice is normalising once: a normal form is its own normal form. */
  lemma NormalizeIdempotent(s: string)
    ensures Normalize(Normalize(s)) == Normalize(s)
  {
    var n := Normalize(s);
    TrimFixed(n);
    LowerIsFixed(n);
  }

  /** `s.startsWith(p)`. */
  predicate StartsWith(s: string, p: string)
  {
    |p| <= |s| && s[..|p|] == p
  }

  /** `s.endsWith(p)`. */
  predicate EndsWith(s: string, p: string)
  {
    |p| <= |s| && s[|s| - |p|..] == p
  }

  /** `s.includes(sub)`: `sub` occurs in `s` at some position (the empty string occurs everywhere). */
  predicate Contains(s: string, sub: string)
    decreases |s|
  {
    StartsWith(s, sub) || (s != [] && Contains(s[1..], sub))
  }

  /** `sub` occurs in `s` starting at position `i`. */
  predicate OccursAt(s: string, sub: string, i: int)
  {
    0 <= i <= |s| - |sub| && s[i..i + |sub|] == sub
  }

  /** `Contains` holds exactly when there is a position where `sub` occurs. */
  lemma {:induction false} ContainsAt(s: string, sub: string)
    ensures Contains(s, sub) <==> exists i :: OccursAt(s, sub, i)
    decreases |s|
  {
    if StartsWith(s, sub) {
      assert OccursAt(s, sub, 0);
    }
    if s != [] {
      ContainsAt(s[1..], sub);
      if exists i :: OccursAt(s, sub, i) {
        var i :| OccursAt(s, sub, i);
        if i > 0 {
          assert OccursAt(s[1..], sub, i - 1) by {
            assert s[1..][i - 1..i - 1 + |sub|] == s[i..i + |sub|];
          }
        }
      }
      if Contains(s[1..], sub) {
        var i :| OccursAt(s[1..], sub, i);
        assert OccursAt(s, sub, i + 1) by {
          assert s[1..][i..i + |sub|] == s[i + 1..i + 1 + |sub|];
        }
      }
    } else {
      if exists i :: OccursAt(s, sub, i) {
        var i :| OccursAt(s, sub, i);
        assert StartsWith(s, sub);
      }
    }
  }

  /** `s.indexOf(c)`: the first position of `c`, or `None` for JavaScript's `-1`. */
  function IndexOf(s: string, c: char): (r: Option<nat>)
    ensures r.None? <==> c !in s
    ensures r.Some? ==> r.value < |s| && s[r.value] == c && c !in s[..r.value]
    decreases |s|
  {
    if s == [] then None
    else if s[0] == c then Some(0)
    else match IndexOf(s[1..], c)
      case None => None
      case Some(i) => Some(i + 1)
  }

  /** `s.lastIndexOf(c)`: the last position of `c`, or `None` for JavaScript's `-1`. */
  function LastIndexOf(s: string, c: char): (r: Option<nat>)
    ensures r.None? <==> c !in s
    ensures r.Some? ==> r.value < |s| && s[r.value] == c && c !in s[r.value + 1..]
    decreases |s|
  {
    if s == [] then None
    else if s[|s| - 1] == c then Some(|s| - 1)
    else LastIndexOf(s[..|s| - 1], c)
  }

  /** `s.split(sep)` for a one-character separator: the pieces between separators, always at least one. */
  function Split(s: string, sep: char): (r: seq<string>)
    ensures |r| >= 1
    ensures forall k :: 0 <= k < |r| ==> sep !in r[k]
    decreases |s|
  {
    match IndexOf(s, sep)
    case None => [s]
    case Some(i) => [s[..i]] + Split(s[i + 1..], sep)
  }

  /** `pieces.join(sep)`. */
  function Join(pieces: seq<string>, sep: char): string
    requires |pieces| >= 1
    decreases |pieces|
  {
    if |pieces| == 1 then pieces[0] else pieces[0] + [sep] + Join(pieces[1..], sep)
  }

  /** Splitting loses nothing: joining the pieces back with the separator gives the original string. */
  lemma {:induction false} JoinSplit(s: string, sep: char)
    ensures Join(Split(s, sep), sep) == s
    decreases |s|
  {
    match IndexOf(s, sep)
    case None =>
    case Some(i) =>
      var head, tail := s[..i], s[i + 1..];
      var rest := Split(tail, sep);
      JoinSplit(tail, sep);
      assert Split(s, sep) == [head] + rest;
      JoinCons(head, rest, sep);
      assert s == head + [sep] + tail;
  }

  /** Joining a list with a first piece: that piece, the separator, then the rest joined. */
  lemma JoinCons(head: string, rest: seq<string>, sep: char)
    requires |rest| >= 1
    ensures Join([head] + rest, sep) == head + [sep] + Join(rest, sep)
  {
    assert ([head] + rest)[1..] == rest;
  }

  predicate IsDigit(c: char)
  {
    '0' <= c <= '9'
  }

  predicate AllDigits(s: string)
  {
    forall i :: 0 <= i < |s| ==> IsDigit(s[i])
  }

  /** `n.toString()` for a non-negative integer: its decimal digits, most significant first. */
  function NatToString(n: nat): (r: string)
    ensures |r| >= 1 && AllDigits(r)
    ensures r[0] == '0' ==> n == 0
    decreases n
  {
    if n < 10 then [(n + 48) as char] else NatToString(n / 10) + [(n % 10 + 48) as char]
  }

  /** `n.toString()` for an integer, with a leading minus sign when negative. */
  function IntToString(n: int): (r: string)
    ensures |r| >= 1
    ensures n >= 0 ==> AllDigits(r)
    ensures n < 0 ==> r[0] == '-' && AllDigits(r[1..])
  {
    if n < 0 then "-" + NatToString(-n) else NatToString(n)
  }

  /** The value of a string of decimal digits (`parseInt` restricted to such strings). */
  function ParseDecimal(s: string): nat
    requires AllDigits(s)
    decreases |s|
  {
    if s == [] then 0 else ParseDecimal(s[..|s| - 1]) * 10 + (s[|s| - 1] as int - 48)
  }

  /** Reading back the decimal text of a number gives the number. */
  lemma {:induction false} ParseNatToString(n: nat)
    ensures ParseDecimal(NatToString(n)) == n
    decreases n
  {
    if n >= 10 {
      var r := NatToString(n);
      ParseNatToString(n / 10);
      assert r[..|r| - 1] == NatToString(n / 10);
    }
  }
}
