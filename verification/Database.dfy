/**
 * The relational store behind the server, reduced to what the upload route
 * and the seed script do with it: tags looked up or created by name, and
 * photo rows linked to tags.
 */
module Database {
  import opened Common

  /** A stored photo row and the ids of the tags connected to it. */
  datatype PhotoRow = PhotoRow(id: nat, filename: string, originalName: string, description: Option<string>, tagIds: set<nat>)

  /** Every id in the tag table is below the next id to hand out. */
  ghost predicate IdsBelow(ids: map<string, nat>, next: nat)
  {
    forall k :: k in ids ==> ids[k] < next
  }

  /** No two tag names share an id. */
  ghost predicate Injective(ids: map<string, nat>)
  {
    forall a, b :: a in ids && b in ids && a != b ==> ids[a] != ids[b]
  }

  /**
   * Upserting `names` one after another, keyed by name: a name already present
   * keeps its row (the update is empty); a new name gets the next id. Returns
   * the new table and the next id.
   */
  function UpsertAll(ids: map<string, nat>, next: nat, names: seq<string>): (r: (map<string, nat>, nat))
    ensures r.0.Keys == ids.Keys + set n | n in names
    ensures forall k :: k in ids ==> r.0[k] == ids[k]
    ensures r.1 >= next
    ensures IdsBelow(ids, next) ==> IdsBelow(r.0, r.1)
    ensures IdsBelow(ids, next) && Injective(ids) ==> Injective(r.0)
    decreases |names|
  {
    if names == [] then (ids, next)
    else if names[0] in ids then UpsertAll(ids, next, names[1..])
    else UpsertAll(ids[names[0] := next], next + 1, names[1..])
  }

  /** Upserting names that are all present already changes nothing. */
  lemma {:induction false} UpsertAllPresent(ids: map<string, nat>, next: nat, names: seq<string>)
    requires forall n :: n in names ==> n in ids
    ensures UpsertAll(ids, next, names) == (ids, next)
    decreases |names|
  {
    if names != [] {
      UpsertAllPresent(ids, next, names[1..]);
    }
  }

  /** Upserting is idempotent: a second pass over the same names finds every one and changes nothing. */
  lemma UpsertAllIdempotent(ids: map<string, nat>, next: nat, names: seq<string>)
    ensures var (m, k) := UpsertAll(ids, next, names); UpsertAll(m, k, names) == (m, k)
  {
    var (m, k) := UpsertAll(ids, next, names);
    UpsertAllPresent(m, k, names);
  }

  /** Upserting a list is upserting its prefix and then the last name: the step a loop takes. */
  lemma {:induction false} UpsertAllSnoc(ids: map<string, nat>, next: nat, names: seq<string>, n: string)
    ensures UpsertAll(ids, next, names + [n]) == var (m, k) := UpsertAll(ids, next, names); UpsertAll(m, k, [n])
    decreases |names|
  {
    if names == [] {
      assert names + [n] == [n];
    } else {
      assert (names + [n])[0] == names[0];
      assert (names + [n])[1..] == names[1..] + [n];
      if names[0] in ids {
        UpsertAllSnoc(ids, next, names[1..], n);
      } else {
        UpsertAllSnoc(ids[names[0] := next], next + 1, names[1..], n);
      }
    }
  }

  /** Upserting two lists in a row is upserting their concatenation. */
  lemma {:induction false} UpsertAllConcat(ids: map<string, nat>, next: nat, p: seq<string>, q: seq<string>)
    ensures UpsertAll(ids, next, p + q) == var (m, k) := UpsertAll(ids, next, p); UpsertAll(m, k, q)
    decreases |p|
  {
    if p == [] {
      assert p + q == q;
    } else {
      assert (p + q)[0] == p[0];
      assert (p + q)[1..] == p[1..] + q;
      if p[0] in ids {
        UpsertAllConcat(ids, next, p[1..], q);
      } else {
        UpsertAllConcat(ids[p[0] := next], next + 1, p[1..], q);
      }
    }
  }

  /** Upserting a whole list after a run that stopped after its prefix `p` gives the same table as one full run. */
  lemma UpsertAllRerun(ids: map<string, nat>, next: nat, p: seq<string>, q: seq<string>)
    ensures var (m, k) := UpsertAll(ids, next, p); UpsertAll(m, k, p + q) == UpsertAll(ids, next, p + q)
  {
    var (m, k) := UpsertAll(ids, next, p);
    UpsertAllConcat(ids, next, p, q);
    UpsertAllConcat(m, k, p, q);
    UpsertAllPresent(m, k, p);
  }

  /** The database: the tag table (name to id) and the photo table. */
  class Store {
    var tagIds: map<string, nat>
    var nextTagId: nat
    var photos: seq<PhotoRow>
    var nextPhotoId: nat

    ghost predicate Valid()
      reads this
    {
      && IdsBelow(tagIds, nextTagId)
      && Injective(tagIds)
      && forall i :: 0 <= i < |photos| ==> photos[i].id < nextPhotoId
    }

    /** A store holding the given tags and no photos. */
    constructor (tags: map<string, nat>, next: nat)
      requires IdsBelow(tags, next) && Injective(tags)
      ensures Valid()
      ensures tagIds == tags && nextTagId == next && photos == []
    {
      tagIds := tags;
      nextTagId := next;
      photos := [];
      nextPhotoId := 1;
    }

    /** `tag.upsert({ where: { name }, update: {}, create: { name } })`. */
    method UpsertTag(name: string) returns (id: nat)
      requires Valid()
      modifies this
      ensures Valid()
      ensures (tagIds, nextTagId) == UpsertAll(old(tagIds), old(nextTagId), [name])
      ensures name in tagIds && id == tagIds[name]
      ensures photos == old(photos) && nextPhotoId == old(nextPhotoId)
    {
      if name !in tagIds {
        tagIds := tagIds[name := nextTagId];
        nextTagId := nextTagId + 1;
      }
      id := tagIds[name];
    }

    /**
     * `photo.create` with one connect-or-create clause per name: each name is
     * looked up, created when missing, and connected to the new row.
     */
    method CreatePhoto(filename: string, originalName: string, description: Option<string>, tagNames: seq<string>)
      returns (row: PhotoRow)
      requires Valid()
      modifies this
      ensures Valid()
      ensures (tagIds, nextTagId) == UpsertAll(old(tagIds), old(nextTagId), tagNames)
      ensures row.filename == filename && row.originalName == originalName && row.description == description
      ensures row.tagIds == set n | n in tagNames :: tagIds[n]
      ensures row.id == old(nextPhotoId) && photos == old(photos) + [row]
    {
      var (m, k) := UpsertAll(tagIds, nextTagId, tagNames);
      tagIds, nextTagId := m, k;
      row := PhotoRow(nextPhotoId, filename, originalName, description, set n | n in tagNames :: m[n]);
      photos := photos + [row];
      nextPhotoId := nextPhotoId + 1;
    }
  }
}
