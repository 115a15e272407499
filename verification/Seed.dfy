/** The seed script: make sure the default tags exist, by normalised name. */
module Seed {
  import opened Common
  import opened Text
  import opened Database

  const DefaultTags: seq<string> := ["Wildlife", "Family", "Bird", "Sealife"]

  /** Each name trimmed and lower-cased, in order. */
  function NormalizeAll(names: seq<string>): (r: seq<string>)
    ensures |r| == |names| && forall i :: 0 <= i < |names| ==> r[i] == Normalize(names[i])
    decreases |names|
  {
    if names == [] then [] else [Normalize(names[0])] + NormalizeAll(names[1..])
  }

  /** Normalising a list one more name long appends that name's normal form. */
  lemma {:induction false} NormalizeAllSnoc(names: seq<string>, name: string)
    ensures NormalizeAll(names + [name]) == NormalizeAll(names) + [Normalize(name)]
    decreases |names|
  {
    if names == [] {
      assert names + [name] == [name];
    } else {
      assert (names + [name])[0] == names[0];
      assert (names + [name])[1..] == names[1..] + [name];
      NormalizeAllSnoc(names[1..], name);
    }
  }

  /** Normalising works name by name, so it distributes over concatenation. */
  lemma {:induction false} NormalizeAllConcat(a: seq<string>, b: seq<string>)
    ensures NormalizeAll(a + b) == NormalizeAll(a) + NormalizeAll(b)
    decreases |a|
  {
    if a == [] {
      assert a + b == b;
    } else {
      assert (a + b)[0] == a[0];
      assert (a + b)[1..] == a[1..] + b;
      NormalizeAllConcat(a[1..], b);
    }
  }

  /** The names the script writes: the default tags, normalised. */
  function SeedNames(): seq<string>
  {
    NormalizeAll(DefaultTags)
  }

  /** The tag table after seeding, as a function of the table before. */
  function Seeded(ids: map<string, nat>, next: nat): (map<string, nat>, nat)
  {
    UpsertAll(ids, next, SeedNames())
  }

  /** The tag table once the first `n` default tags have been upserted. */
  function SeededUpTo(ids: map<string, nat>, next: nat, n: nat): (map<string, nat>, nat)
    requires n <= |DefaultTags|
  {
    UpsertAll(ids, next, NormalizeAll(DefaultTags[..n]))
  }

  /** How many default tags are written when the upsert at index `failAt` (if any) throws. */
  function Written(failAt: Option<nat>): (r: nat)
    ensures r <= |DefaultTags|
    ensures r < |DefaultTags| <==> failAt.Some? && failAt.value < |DefaultTags|
  {
    if failAt.Some? && failAt.value < |DefaultTags| then failAt.value else |DefaultTags|
  }

  /** One more turn of the seed loop upserts one more normalised default tag. */
  lemma SeedStep(ids: map<string, nat>, next: nat, i: nat)
    requires i < |DefaultTags|
    ensures UpsertAll(ids, next, NormalizeAll(DefaultTags[..i + 1]))
         == var (m, k) := UpsertAll(ids, next, NormalizeAll(DefaultTags[..i])); UpsertAll(m, k, [Normalize(DefaultTags[i])])
  {
    assert DefaultTags[..i + 1] == DefaultTags[..i] + [DefaultTags[i]];
    NormalizeAllSnoc(DefaultTags[..i], DefaultTags[i]);
    UpsertAllSnoc(ids, next, NormalizeAll(DefaultTags[..i]), Normalize(DefaultTags[i]));
  }

  /** The loop of `main`: upsert the normal forms of the first `n` default tags, in order. */
  method UpsertDefaults(db: Store, n: nat)
    requires db.Valid() && n <= |DefaultTags|
    modifies db
    ensures db.Valid()
    ensures (db.tagIds, db.nextTagId) == SeededUpTo(old(db.tagIds), old(db.nextTagId), n)
    ensures db.photos == old(db.photos)
  {
    for i := 0 to n
      invariant db.Valid()
      invariant (db.tagIds, db.nextTagId) == SeededUpTo(old(db.tagIds), old(db.nextTagId), i)
      invariant db.photos == old(db.photos)
    {
      var normalizedTagName := Normalize(DefaultTags[i]);
      SeedStep(old(db.tagIds), old(db.nextTagId), i);
      var _ := db.UpsertTag(normalizedTagName);
    }
  }

  /**
   * `main`: upsert each normalised default tag in turn. `failAt` is the index of
   * the first upsert that throws, if any: the rejection reaches `main().catch`,
   * which exits with status 1, so the tags before it stay written and none after.
   * Returns whether the script completes.
   */
  method SeedDefaults(db: Store, failAt: Option<nat>) returns (ok: bool)
    requires db.Valid()
    modifies db
    ensures db.Valid()
    ensures ok <==> Written(failAt) == |DefaultTags|
    ensures (db.tagIds, db.nextTagId) == SeededUpTo(old(db.tagIds), old(db.nextTagId), Written(failAt))
    ensures ok ==> (db.tagIds, db.nextTagId) == Seeded(old(db.tagIds), old(db.nextTagId))
    ensures db.photos == old(db.photos)
  {
    var written := Written(failAt);
    UpsertDefaults(db, written);
    ok := written == |DefaultTags|;
    SeededUpToEnd(old(db.tagIds), old(db.nextTagId));
  }

  /** After seeding, every default tag exists under its normalised name. */
  lemma SeededContainsDefaults(ids: map<string, nat>, next: nat, tag: string)
    requires tag in DefaultTags
    ensures Normalize(tag) in Seeded(ids, next).0
  {
    var i :| 0 <= i < |DefaultTags| && DefaultTags[i] == tag;
    assert SeedNames()[i] == Normalize(tag);
  }

  /** Seeding leaves every tag that already existed exactly as it was. */
  lemma SeededKeepsExisting(ids: map<string, nat>, next: nat, name: string)
    requires name in ids
    ensures name in Seeded(ids, next).0 && Seeded(ids, next).0[name] == ids[name]
  {
  }

  /** Upserting the normal forms of `names` adds exactly those normal forms to the table. */
  lemma UpsertNormalizedKeys(ids: map<string, nat>, next: nat, names: seq<string>)
    ensures UpsertAll(ids, next, NormalizeAll(names)).0.Keys == ids.Keys + set t | t in names :: Normalize(t)
  {
    var normal := NormalizeAll(names);
    forall x | x in normal ensures x in set t | t in names :: Normalize(t) {
      var i :| 0 <= i < |normal| && normal[i] == x;
      assert names[i] in names;
    }
    forall t | t in names ensures Normalize(t) in normal {
      var i :| 0 <= i < |names| && names[i] == t;
      assert normal[i] == Normalize(t);
    }
  }

  /** Seeding adds no name other than the normalised defaults and removes none. */
  lemma SeededAddsOnlyDefaults(ids: map<string, nat>, next: nat)
    ensures Seeded(ids, next).0.Keys == ids.Keys + set t | t in DefaultTags :: Normalize(t)
  {
    UpsertNormalizedKeys(ids, next, DefaultTags);
  }

  /** Seeding twice gives the same table as seeding once. */
  lemma SeedIdempotent(ids: map<string, nat>, next: nat)
    ensures var (m, k) := Seeded(ids, next); Seeded(m, k) == (m, k)
  {
    UpsertAllIdempotent(ids, next, SeedNames());
  }

  /** Upserting every default tag is seeding. */
  lemma SeededUpToEnd(ids: map<string, nat>, next: nat)
    ensures SeededUpTo(ids, next, |DefaultTags|) == Seeded(ids, next)
  {
    PrefixWhole(DefaultTags);
  }

  lemma PrefixWhole(names: seq<string>)
    ensures names[..|names|] == names
  {
  }

  /** Normalising and upserting a list again after a run that stopped after `n` names gives the table of one full run. */
  lemma RerunNames(ids: map<string, nat>, next: nat, names: seq<string>, n: nat)
    requires n <= |names|
    ensures var (m, k) := UpsertAll(ids, next, NormalizeAll(names[..n]));
      UpsertAll(m, k, NormalizeAll(names)) == UpsertAll(ids, next, NormalizeAll(names))
  {
    assert names[..n] + names[n..] == names;
    NormalizeAllConcat(names[..n], names[n..]);
    UpsertAllRerun(ids, next, NormalizeAll(names[..n]), NormalizeAll(names[n..]));
  }

  /** Running the script again after it stopped part-way gives the same table as one run that completes. */
  lemma SeedRerunCompletes(ids: map<string, nat>, next: nat, n: nat)
    requires n <= |DefaultTags|
    ensures var (m, k) := SeededUpTo(ids, next, n); Seeded(m, k) == Seeded(ids, next)
  {
    RerunNames(ids, next, DefaultTags, n);
  }
}
