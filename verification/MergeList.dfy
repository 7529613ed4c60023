/**
 The index-backed list that overlay merging grows: one entry for each identity in the order first
 seen, whose provenance is the sorted union of everything merged into it.
 */
module MergeList {
  import opened Bytes
  import opened Sorting

  /**
   An entry: what it states, and the provenance lists attached to it. A clause or a fact has one
   list; a disjunction has its own and then one for each disjunct.
   */
  datatype Entry<K> = Entry(key: K, tracks: seq<seq<nat>>)

  // ---------- One entry into the list ----------

  function Normal<K>(e: Entry<K>): Entry<K> {
    Entry(e.key, seq(|e.tracks|, t requires 0 <= t < |e.tracks| => Union([], e.tracks[t])))
  }

  function Absorb<K>(retained: Entry<K>, e: Entry<K>): Entry<K>
    requires |retained.tracks| == |e.tracks|
  {
    Entry(retained.key, seq(|e.tracks|, t requires 0 <= t < |e.tracks| => Union(retained.tracks[t], e.tracks[t])))
  }

  /** Position of an identity, or the length of the list. */
  function Find<K(==)>(list: seq<Entry<K>>, key: K): (i: nat)
    ensures i <= |list|
    ensures i < |list| ==> list[i].key == key
    ensures forall j :: 0 <= j < i ==> list[j].key != key
  {
    if list == [] then 0 else if list[0].key == key then 0 else 1 + Find(list[1..], key)
  }

  /** Entries of one identity have as many provenance lists: equal disjunctions have equally many disjuncts. */
  ghost predicate Shaped<K(!new)>(shape: K -> nat, entries: seq<Entry<K>>) {
    forall i :: 0 <= i < |entries| ==> |entries[i].tracks| == shape(entries[i].key)
  }

  function MergeOne<K(!new,==)>(list: seq<Entry<K>>, e: Entry<K>, ghost shape: K -> nat): (merged: seq<Entry<K>>)
    requires Shaped(shape, list) && |e.tracks| == shape(e.key)
    ensures Shaped(shape, merged)
  {
    var i := Find(list, e.key);
    if i < |list| then list[i := Absorb(list[i], e)] else list + [Normal(e)]
  }

  /** The list after merging all entries in order. */
  ghost function MergeAll<K(!new)>(entries: seq<Entry<K>>, shape: K -> nat): (merged: seq<Entry<K>>)
    requires Shaped(shape, entries)
    ensures Shaped(shape, merged)
  {
    if entries == [] then [] else MergeOne(MergeAll(entries[..|entries| - 1], shape), entries[|entries| - 1], shape)
  }

  // ---------- What the list is ----------

  ghost predicate Distinct<K>(list: seq<Entry<K>>) {
    forall i, j :: 0 <= i < j < |list| ==> list[i].key != list[j].key
  }

  ghost predicate HasKey<K>(entries: seq<Entry<K>>, key: K) {
    exists i :: 0 <= i < |entries| && entries[i].key == key
  }

  /** `v` is recorded in list `t` of some entry of this identity. */
  ghost predicate Recorded<K>(entries: seq<Entry<K>>, key: K, t: nat, v: nat) {
    exists i :: 0 <= i < |entries| && entries[i].key == key && t < |entries[i].tracks| && v in entries[i].tracks[t]
  }

  /** The provenance of one listed entry: sorted, and exactly what was recorded for its identity. */
  ghost predicate Collects<K>(e: Entry<K>, entries: seq<Entry<K>>) {
    forall t :: 0 <= t < |e.tracks| ==> Rising(e.tracks[t]) && forall v :: v in e.tracks[t] <==>
      Recorded(entries, e.key, t, v)
  }

  /** The list has each identity once, in the order first seen, with the sorted union of its provenance. */
  ghost predicate IsMerge<K(!new)>(list: seq<Entry<K>>, entries: seq<Entry<K>>) {
    && Distinct(list)
    && (forall key :: HasKey(list, key) <==> HasKey(entries, key))
    && (forall i, j :: 0 <= i < j < |list| ==> Find(entries, list[i].key) < Find(entries, list[j].key))
    && (forall i :: 0 <= i < |list| ==> Collects(list[i], entries))
  }

  lemma FindHas<K>(entries: seq<Entry<K>>, key: K)
    ensures HasKey(entries, key) <==> Find(entries, key) < |entries|
  {
    if Find(entries, key) < |entries| { assert entries[Find(entries, key)].key == key; }
  }

  /** The first position in a longer list. */
  lemma {:induction false} FindAppend<K>(entries: seq<Entry<K>>, e: Entry<K>, key: K)
    ensures Find(entries + [e], key) == if HasKey(entries, key) then Find(entries, key) else if e.key == key
      then |entries| else |entries| + 1
  {
    FindHas(entries, key);
    FindHas(entries + [e], key);
    var i, j := Find(entries, key), Find(entries + [e], key);
    assert forall k :: 0 <= k < |entries| ==> (entries + [e])[k] == entries[k];
    assert (entries + [e])[|entries|] == e;
  }

  lemma HasKeyAppend<K>(entries: seq<Entry<K>>, e: Entry<K>, key: K)
    ensures HasKey(entries + [e], key) <==> HasKey(entries, key) || e.key == key
  {
    if HasKey(entries, key) {
      var i :| 0 <= i < |entries| && entries[i].key == key;
      assert (entries + [e])[i].key == key;
    }
    if e.key == key { assert (entries + [e])[|entries|].key == key; }
  }

  lemma RecordedAppend<K>(entries: seq<Entry<K>>, e: Entry<K>, key: K, t: nat, v: nat)
    ensures Recorded(entries + [e], key, t, v) <==>
      Recorded(entries, key, t, v) || (e.key == key && t < |e.tracks| && v in e.tracks[t])
  {
    var longer := entries + [e];
    if Recorded(entries, key, t, v) {
      var i :| 0 <= i < |entries| && entries[i].key == key && t < |entries[i].tracks| && v in entries[i].tracks[t];
      assert longer[i] == entries[i];
    }
    if e.key == key && t < |e.tracks| && v in e.tracks[t] { assert longer[|entries|] == e; }
  }

  lemma CollectsAppend<K(!new)>(kept: Entry<K>, entries: seq<Entry<K>>, e: Entry<K>)
    requires Collects(kept, entries)
    ensures e.key != kept.key ==> Collects(kept, entries + [e])
    ensures e.key == kept.key && |kept.tracks| == |e.tracks| ==> Collects(Absorb(kept, e), entries + [e])
  {
    if e.key != kept.key {
      forall t, v | 0 <= t < |kept.tracks| ensures v in kept.tracks[t] <==> Recorded(entries + [e], kept.key, t, v) {
        RecordedAppend(entries, e, kept.key, t, v);
      }
    } else if |kept.tracks| == |e.tracks| {
      var merged := Absorb(kept, e);
      forall t | 0 <= t < |merged.tracks|
        ensures Rising(merged.tracks[t]) && forall v :: v in merged.tracks[t] <==> Recorded(entries + [e], e.key, t, v)
      {
        UnionKeeps(kept.tracks[t], e.tracks[t]);
        forall v ensures v in merged.tracks[t] <==> Recorded(entries + [e], e.key, t, v) {
          RecordedAppend(entries, e, e.key, t, v);
        }
      }
    }
  }

  lemma CollectsFresh<K(!new)>(entries: seq<Entry<K>>, e: Entry<K>)
    requires !HasKey(entries, e.key)
    ensures Collects(Normal(e), entries + [e])
  {
    var n := Normal(e);
    forall t | 0 <= t < |n.tracks|
      ensures Rising(n.tracks[t]) && forall v :: v in n.tracks[t] <==> Recorded(entries + [e], e.key, t, v)
    {
      UnionKeeps([], e.tracks[t]);
      forall v ensures v in n.tracks[t] <==> Recorded(entries + [e], e.key, t, v) {
        RecordedAppend(entries, e, e.key, t, v);
      }
    }
  }

  lemma {:induction false} MergeOneIsMerge<K(!new)>(
    list: seq<Entry<K>>, entries: seq<Entry<K>>, e: Entry<K>, shape: K -> nat)
    requires Shaped(shape, list) && |e.tracks| == shape(e.key) && IsMerge(list, entries)
    ensures IsMerge(MergeOne(list, e, shape), entries + [e])
  {
    var i, merged := Find(list, e.key), MergeOne(list, e, shape);
    FindHas(list, e.key);
    forall key ensures HasKey(merged, key) <==> HasKey(entries + [e], key) {
      HasKeyAppend(entries, e, key);
      if i < |list| { HasKeyUpdate(list, i, merged[i], key); } else { HasKeyAppend(list, Normal(e), key); }
    }
    forall a, b | 0 <= a < b < |merged|
      ensures Find(entries + [e], merged[a].key) < Find(entries + [e], merged[b].key)
    {
      FindAppend(entries, e, merged[a].key);
      FindAppend(entries, e, merged[b].key);
      FindHas(entries, merged[a].key);
      FindHas(entries, merged[b].key);
      KeyListed(list, a);
      if b < |list| { KeyListed(list, b); }
    }
    forall a | 0 <= a < |merged| ensures Collects(merged[a], entries + [e]) {
      if a < |list| {
        CollectsAppend(list[a], entries, e);
      } else {
        CollectsFresh(entries, e);
      }
    }
  }

  lemma KeyListed<K>(list: seq<Entry<K>>, a: nat)
    requires a < |list|
    ensures HasKey(list, list[a].key)
  {
  }

  lemma HasKeyUpdate<K>(list: seq<Entry<K>>, i: nat, e: Entry<K>, key: K)
    requires i < |list| && e.key == list[i].key
    ensures HasKey(list[i := e], key) <==> HasKey(list, key)
  {
    if HasKey(list, key) {
      var j :| 0 <= j < |list| && list[j].key == key;
      assert list[i := e][j].key == key;
    }
    if HasKey(list[i := e], key) {
      var j :| 0 <= j < |list| && list[i := e][j].key == key;
      assert list[j].key == key;
    }
  }

  /** What merging entries one by one yields, for every sequence of entries. */
  lemma {:induction false} MergeAllIsMerge<K(!new)>(entries: seq<Entry<K>>, shape: K -> nat)
    requires Shaped(shape, entries)
    ensures IsMerge(MergeAll(entries, shape), entries)
  {
    if entries != [] {
      var rest, e := entries[..|entries| - 1], entries[|entries| - 1];
      MergeAllIsMerge(rest, shape);
      MergeOneIsMerge(MergeAll(rest, shape), rest, e, shape);
      assert entries == rest + [e];
    }
  }

  // ---------- Merging a second time ----------

  ghost predicate Settled<K>(e: Entry<K>) {
    forall t :: 0 <= t < |e.tracks| ==> Rising(e.tracks[t])
  }

  /** Everything `e` records is in the list already. */
  ghost predicate Absorbed<K(!new)>(list: seq<Entry<K>>, e: Entry<K>) {
    exists i :: 0 <= i < |list| && Covers(list[i], e)
  }

  ghost predicate Covers<K>(kept: Entry<K>, e: Entry<K>) {
    && kept.key == e.key && |kept.tracks| == |e.tracks|
    && forall t, v :: 0 <= t < |e.tracks| && v in e.tracks[t] ==> v in kept.tracks[t]
  }

  lemma NormalOfSettled<K>(e: Entry<K>)
    requires Settled(e)
    ensures Normal(e) == e
  {
    forall t | 0 <= t < |e.tracks| ensures Union([], e.tracks[t]) == e.tracks[t] {
      UnionKeeps([], e.tracks[t]);
      RisingUnique(Union([], e.tracks[t]), e.tracks[t]);
    }
    assert Normal(e).tracks == e.tracks;
  }

  lemma AbsorbOfCovered<K>(kept: Entry<K>, e: Entry<K>)
    requires Settled(kept) && Covers(kept, e)
    ensures Absorb(kept, e) == kept
  {
    forall t | 0 <= t < |e.tracks| ensures Union(kept.tracks[t], e.tracks[t]) == kept.tracks[t] {
      UnionAbsorbs(kept.tracks[t], e.tracks[t]);
    }
    assert Absorb(kept, e).tracks == kept.tracks;
  }

  lemma MergeLast<K(!new)>(entries: seq<Entry<K>>, e: Entry<K>, shape: K -> nat)
    requires Shaped(shape, entries) && |e.tracks| == shape(e.key)
    ensures Shaped(shape, entries + [e])
    ensures MergeAll(entries + [e], shape) == MergeOne(MergeAll(entries, shape), e, shape)
  {
    assert (entries + [e])[..|entries|] == entries;
  }

  /** A list already merged is rebuilt as it is. */
  lemma {:induction false} MergeSettled<K(!new)>(list: seq<Entry<K>>, shape: K -> nat)
    requires Shaped(shape, list) && Distinct(list) && forall i :: 0 <= i < |list| ==> Settled(list[i])
    ensures MergeAll(list, shape) == list
  {
    if list != [] {
      var rest, e := list[..|list| - 1], list[|list| - 1];
      MergeSettled(rest, shape);
      NormalOfSettled(e);
      assert list == rest + [e];
    }
  }

  /** Merging entries that add nothing leaves the list as it is. */
  lemma {:induction false} MergeAbsorbed<K(!new)>(list: seq<Entry<K>>, more: seq<Entry<K>>, shape: K -> nat)
    requires Shaped(shape, list) && Shaped(shape, more)
    requires Distinct(list) && forall i :: 0 <= i < |list| ==> Settled(list[i])
    requires forall i :: 0 <= i < |more| ==> Absorbed(list, more[i])
    ensures MergeAll(list + more, shape) == list
    decreases |more|
  {
    if more == [] {
      MergeSettled(list, shape);
      assert list + more == list;
    } else {
      var rest, e := more[..|more| - 1], more[|more| - 1];
      MergeAbsorbed(list, rest, shape);
      assert list + more == (list + rest) + [e];
      MergeLast(list + rest, e, shape);
      var i :| 0 <= i < |list| && Covers(list[i], e);
      assert Find(list, e.key) == i;
      AbsorbOfCovered(list[i], e);
    }
  }

  /** Merging the same entries a second time changes nothing. */
  lemma MergeTwice<K(!new)>(first: seq<Entry<K>>, second: seq<Entry<K>>, shape: K -> nat)
    requires Shaped(shape, first) && Shaped(shape, second)
    ensures MergeAll(MergeAll(first + second, shape) + second, shape) == MergeAll(first + second, shape)
  {
    var entries := first + second;
    var list := MergeAll(entries, shape);
    MergeAllIsMerge(entries, shape);
    forall j | 0 <= j < |second| ensures Absorbed(list, second[j]) {
      var e := second[j];
      assert entries[|first| + j] == e;
      assert HasKey(list, e.key);
      var i :| 0 <= i < |list| && list[i].key == e.key;
      forall t, v | 0 <= t < |e.tracks| && v in e.tracks[t] ensures v in list[i].tracks[t] {
        assert Recorded(entries, e.key, t, v);
        assert Collects(list[i], entries);
      }
      assert Covers(list[i], e);
    }
    forall i | 0 <= i < |list| ensures Settled(list[i]) {
      assert Collects(list[i], entries);
    }
    MergeAbsorbed(list, second, shape);
  }

  // ---------- Growing the list in place ----------

  /** The vector and the index map that the merge functions update, for one kind of entry. */
  class Merger<K(!new,==)> {
    var combined: seq<Entry<K>>
    var indexes: map<K, nat>
    /** Whether positions become `u32` identifiers. */
    const numbered: bool
    ghost const shape: K -> nat

    ghost predicate Valid()
      reads this
    {
      && Shaped(shape, combined) && Distinct(combined)
      && (forall key :: key in indexes <==> HasKey(combined, key))
      && (forall key :: key in indexes ==> indexes[key] < |combined| && combined[indexes[key]].key == key)
    }

    constructor (numbered: bool, ghost shape: K -> nat)
      ensures Valid() && combined == [] && this.numbered == numbered && this.shape == shape
    {
      this.combined, this.indexes, this.numbered, this.shape := [], map[], numbered, shape;
    }

    method Add(e: Entry<K>) returns (ok: bool)
      requires Valid() && |e.tracks| == shape(e.key)
      modifies this
      ensures Valid()
      ensures ok <==> numbered ==> |MergeOne(old(combined), e, shape)| <= U32_LIMIT || HasKey(old(combined), e.key)
      ensures combined == if ok then MergeOne(old(combined), e, shape) else old(combined)
    {
      FindHas(combined, e.key);
      if e.key in indexes {
        var i := indexes[e.key];
        assert i == Find(combined, e.key);
        ghost var before := combined;
        combined := combined[i := Absorb(combined[i], e)];
        forall key ensures HasKey(combined, key) <==> HasKey(before, key) {
          HasKeyUpdate(before, i, combined[i], key);
        }
        return true;
      }
      if numbered && |combined| >= U32_LIMIT {
        return false;
      }
      forall key ensures HasKey(combined + [Normal(e)], key) <==> HasKey(combined, key) || key == e.key {
        HasKeyAppend(combined, Normal(e), key);
      }
      indexes := indexes[e.key := |combined|];
      combined := combined + [Normal(e)];
      return true;
    }
  }
}
