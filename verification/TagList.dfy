/**
 * The tag-list edits both upload forms perform on their list of selected tags:
 * add a typed or suggested tag after normalising it, and remove a tag.
 */
module TagList {
  import opened Common
  import opened Text

  /** What every tag in a form's list looks like: non-empty and lower-case. */
  predicate WellFormed(tags: seq<string>)
  {
    NoDup(tags) && forall t :: t in tags ==> t != "" && IsLower(t)
  }

  /** An add is accepted when the normalised input is non-empty and not yet selected. */
  predicate Accepts(tags: seq<string>, input: string)
  {
    Normalize(input) != "" && Normalize(input) !in tags
  }

  /** `handleAddTag`'s update of the list: append `trim().toLowerCase()` of the input unless it is empty or already present. */
  function WithTag(tags: seq<string>, input: string): (r: seq<string>)
    ensures forall t :: t in r <==> t in tags || (t == Normalize(input) && t != "")
    ensures tags <= r && |r| <= |tags| + 1
    ensures Accepts(tags, input) <==> |r| == |tags| + 1
    ensures !Accepts(tags, input) ==> r == tags
    ensures WellFormed(tags) ==> WellFormed(r)
  {
    var n := Normalize(input);
    if n != "" && n !in tags then
      AppendFresh(tags, n);
      tags + [n]
    else tags
  }

  /** Appending a new non-empty lower-case tag extends the list by that tag alone and keeps it well formed. */
  lemma AppendFresh(tags: seq<string>, n: string)
    requires n != "" && IsLower(n) && n !in tags
    ensures tags <= tags + [n]
    ensures forall t :: t in tags + [n] <==> t in tags || t == n
    ensures WellFormed(tags) ==> WellFormed(tags + [n])
  {
    var r := tags + [n];
    assert forall i :: 0 <= i < |tags| ==> r[i] == tags[i];
    assert r[|tags|] == n;
  }

  /** `handleRemoveTag`'s update: drop every occurrence of `tag`, keeping the others in order. */
  function WithoutTag(tags: seq<string>, tag: string): (r: seq<string>)
    ensures forall t :: t in r <==> t in tags && t != tag
    ensures IsSubsequence(r, tags)
    ensures WellFormed(tags) ==> WellFormed(r)
  {
    var r := Filter(tags, t => t != tag);
    assert WellFormed(tags) ==> NoDup(r) by {
      if NoDup(tags) {
        FilterNoDup(tags, t => t != tag);
      }
    }
    r
  }

  /** Input made only of whitespace (Enter on a blank box) adds nothing. */
  lemma BlankInputAddsNothing(tags: seq<string>, input: string)
    requires AllSpace(input)
    ensures !Accepts(tags, input) && WithTag(tags, input) == tags
  {
  }

  /** Adding the same input twice is adding it once. */
  lemma WithTagIdempotent(tags: seq<string>, input: string)
    ensures WithTag(WithTag(tags, input), input) == WithTag(tags, input)
  {
  }

  /** Removing a tag that was just added restores the list exactly. */
  lemma RemoveUndoesAdd(tags: seq<string>, input: string)
    requires Accepts(tags, input)
    ensures WithoutTag(WithTag(tags, input), Normalize(input)) == tags
  {
    var n := Normalize(input);
    assert WithTag(tags, input) == tags + [n];
    FilterConcat(tags, [n], t => t != n);
    FilterAll(tags, t => t != n);
    assert Filter([n], t => t != n) == [];
  }

  /** Removing an absent tag changes nothing. */
  lemma RemoveAbsent(tags: seq<string>, tag: string)
    requires tag !in tags
    ensures WithoutTag(tags, tag) == tags
  {
    FilterAll(tags, t => t != tag);
  }

  /** The suggestion filter of both forms: candidates whose lower-case form contains the lower-cased input and that are not selected, in order. */
  function Suggestions(candidates: seq<string>, input: string, selected: seq<string>): (r: seq<string>)
    ensures forall t :: t in r <==> t in candidates && Contains(ToLower(t), ToLower(input)) && t !in selected
    ensures IsSubsequence(r, candidates)
  {
    Filter(candidates, t => Contains(ToLower(t), ToLower(input)) && t !in selected)
  }
}
