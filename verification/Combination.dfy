/** The ontology a query is answered against: the permanent program with the overlay merged in. */
module Combination {
  import opened Bytes
  import opened Programs
  import opened Sorting
  import opened MergeList
  import opened Merge

  // ---------- Overlay provenance renumbered ----------

  ghost predicate IdsResolve(ids: seq<nat>, mapping: map<nat, nat>) {
    forall k :: 0 <= k < |ids| ==> ids[k] in mapping
  }

  function RemapIds(ids: seq<nat>, mapping: map<nat, nat>): (r: Wire<seq<nat>>)
    ensures r.Ok? <==> IdsResolve(ids, mapping)
    ensures r.Ok? ==> |r.value| == |ids| && forall k :: 0 <= k < |ids| ==> r.value[k] == mapping[ids[k]]
  {
    if ids == [] then Ok([])
    else if ids[0] !in mapping then WireError
    else
      var rest :- RemapIds(ids[1..], mapping);
      Ok([mapping[ids[0]]] + rest)
  }

  function RemapTracks(tracks: seq<seq<nat>>, mapping: map<nat, nat>): (r: Wire<seq<seq<nat>>>)
    ensures r.Ok? <==> forall t :: 0 <= t < |tracks| ==> IdsResolve(tracks[t], mapping)
    ensures r.Ok? ==> |r.value| == |tracks| && forall t :: 0 <= t < |tracks| ==>
      Ok(r.value[t]) == RemapIds(tracks[t], mapping)
  {
    if tracks == [] then Ok([])
    else
      var first :- RemapIds(tracks[0], mapping);
      var rest :- RemapTracks(tracks[1..], mapping);
      Ok([first] + rest)
  }

  function Remap<K>(e: Entry<K>, mapping: map<nat, nat>): (r: Wire<Entry<K>>)
    ensures r.Ok? ==> r.value.key == e.key && |r.value.tracks| == |e.tracks|
  {
    var tracks :- RemapTracks(e.tracks, mapping);
    Ok(Entry(e.key, tracks))
  }

  ghost predicate Resolve<K>(overlay: seq<Entry<K>>, mapping: map<nat, nat>) {
    forall k :: 0 <= k < |overlay| ==> Remap(overlay[k], mapping).Ok?
  }

  ghost function Moved<K>(overlay: seq<Entry<K>>, mapping: map<nat, nat>): (moved: seq<Entry<K>>)
    requires Resolve(overlay, mapping)
    ensures |moved| == |overlay|
    ensures forall k :: 0 <= k < |overlay| ==> moved[k] == Remap(overlay[k], mapping).value
  {
    seq(|overlay|, k requires 0 <= k < |overlay| => Remap(overlay[k], mapping).value)
  }

  function RemapAll<K>(overlay: seq<Entry<K>>, mapping: map<nat, nat>): (r: Wire<seq<Entry<K>>>)
    ensures r.Ok? <==> forall k :: 0 <= k < |overlay| ==> Remap(overlay[k], mapping).Ok?
    ensures r.Ok? ==> |r.value| == |overlay| && forall k :: 0 <= k < |overlay| ==>
      r.value[k] == Remap(overlay[k], mapping).value
  {
    if overlay == [] then Ok([])
    else
      var first :- Remap(overlay[0], mapping);
      var rest :- RemapAll(overlay[1..], mapping);
      Ok([first] + rest)
  }

  // ---------- One list ----------

  ghost function Together<K(!new)>(
    permanent: seq<Entry<K>>, overlay: seq<Entry<K>>, mapping: map<nat, nat>, shape: K -> nat): (list: seq<Entry<K>>)
    requires Shaped(shape, permanent) && Shaped(shape, overlay) && Resolve(overlay, mapping)
    ensures Shaped(shape, list)
  {
    MergeAll(permanent + Moved(overlay, mapping), shape)
  }

  ghost predicate Mergeable<K(!new)>(
    numbered: bool, permanent: seq<Entry<K>>, overlay: seq<Entry<K>>, mapping: map<nat, nat>, shape: K -> nat)
    requires Shaped(shape, permanent) && Shaped(shape, overlay)
  {
    Resolve(overlay, mapping) && (numbered ==> |Together(permanent, overlay, mapping, shape)| <= U32_LIMIT)
  }

  lemma {:induction false} MergeGrows<K(!new)>(entries: seq<Entry<K>>, n: nat, shape: K -> nat)
    requires Shaped(shape, entries) && n <= |entries|
    ensures Shaped(shape, entries[..n]) && |MergeAll(entries[..n], shape)| <= |MergeAll(entries, shape)|
  {
    if n == |entries| {
      assert entries[..n] == entries;
    } else {
      MergeGrows(entries[..|entries| - 1], n, shape);
      assert entries[..|entries| - 1][..n] == entries[..n];
    }
  }

  lemma MergeGrowsBy<K(!new)>(entries: seq<Entry<K>>, more: seq<Entry<K>>, shape: K -> nat)
    requires Shaped(shape, entries) && Shaped(shape, more)
    ensures |MergeAll(entries, shape)| <= |MergeAll(entries + more, shape)|
  {
    assert (entries + more)[..|entries|] == entries;
    MergeGrows(entries + more, |entries|, shape);
  }

  /** Adds the entries one by one; it fails only when a new identity finds no free number. */
  method AddAll<K(!new,==)>(merger: Merger<K>, entries: seq<Entry<K>>, ghost before: seq<Entry<K>>) returns (ok: bool)
    requires merger.Valid() && Shaped(merger.shape, before) && Shaped(merger.shape, entries)
    requires merger.combined == MergeAll(before, merger.shape)
    requires merger.numbered ==> |merger.combined| <= U32_LIMIT
    modifies merger
    ensures merger.Valid()
    ensures ok <==> (merger.numbered ==> |MergeAll(before + entries, merger.shape)| <= U32_LIMIT)
    ensures ok ==> merger.combined == MergeAll(before + entries, merger.shape)
  {
    hide MergeAll, Shaped, Distinct, HasKey;
    assert before + entries[..0] == before;
    for n := 0 to |entries|
      invariant merger.Valid() && Shaped(merger.shape, before + entries[..n])
      invariant merger.combined == MergeAll(before + entries[..n], merger.shape)
      invariant merger.numbered ==> |merger.combined| <= U32_LIMIT
    {
      MergeNext(before, entries, n, merger.shape);
      ghost var list := merger.combined;
      var added := merger.Add(entries[n]);
      KnownKeepsLength(list, entries[n], merger.shape);
      if !added {
        return false;
      }
    }
    assert entries[..|entries|] == entries;
    return true;
  }

  /** Merging entry `n`, which leaves the list no longer than merging them all. */
  lemma MergeNext<K(!new)>(before: seq<Entry<K>>, entries: seq<Entry<K>>, n: nat, shape: K -> nat)
    requires Shaped(shape, before) && Shaped(shape, entries) && n < |entries|
    ensures |entries[n].tracks| == shape(entries[n].key)
    ensures Shaped(shape, before + entries[..n]) && Shaped(shape, before + entries[..n + 1]) &&
      Shaped(shape, before + entries)
    ensures MergeAll(before + entries[..n + 1], shape) == MergeOne(MergeAll(before + entries[..n], shape), entries[n],
      shape)
    ensures |MergeAll(before + entries[..n + 1], shape)| <= |MergeAll(before + entries, shape)|
  {
    assert before + entries[..n + 1] == (before + entries[..n]) + [entries[n]];
    assert (before + entries)[..|before| + n + 1] == before + entries[..n + 1];
    MergeLast(before + entries[..n], entries[n], shape);
    MergeGrows(before + entries, |before| + n + 1, shape);
  }

  lemma KnownKeepsLength<K(!new)>(list: seq<Entry<K>>, e: Entry<K>, shape: K -> nat)
    requires Shaped(shape, list) && |e.tracks| == shape(e.key)
    ensures HasKey(list, e.key) ==> |MergeOne(list, e, shape)| == |list|
  {
    FindHas(list, e.key);
  }

  /** One list of the combined program. */
  method MergeEntries<K(!new,==)>(
    numbered: bool, permanent: seq<Entry<K>>, overlay: seq<Entry<K>>, mapping: map<nat, nat>, ghost shape: K -> nat)
    returns (r: Wire<seq<Entry<K>>>)
    requires Shaped(shape, permanent) && Shaped(shape, overlay)
    ensures r.Ok? <==> Mergeable(numbered, permanent, overlay, mapping, shape)
    ensures r.Ok? ==> r.value == Together(permanent, overlay, mapping, shape)
  {
    var merger := new Merger(numbered, shape);
    var ok := AddAll(merger, permanent, []);
    assert [] + permanent == permanent;
    if !ok {
      if Resolve(overlay, mapping) {
        MergeGrowsBy(permanent, Moved(overlay, mapping), shape);
      }
      return WireError;
    }
    var moved :- RemapAll(overlay, mapping);
    assert moved == Moved(overlay, mapping);
    ok := AddAll(merger, moved, permanent);
    return if ok then Ok(merger.combined) else WireError;
  }

  /** Whatever is true of the identities of both inputs is true of the merged list, and conversely. */
  lemma KeysTogether<K(!new)>(
    permanent: seq<Entry<K>>, overlay: seq<Entry<K>>, mapping: map<nat, nat>, shape: K -> nat, truth: K -> bool)
    requires Shaped(shape, permanent) && Shaped(shape, overlay) && Resolve(overlay, mapping)
    ensures AllKeys(Together(permanent, overlay, mapping, shape), truth) <==>
      AllKeys(permanent, truth) && AllKeys(overlay, truth)
  {
    var moved := Moved(overlay, mapping);
    var entries := permanent + moved;
    var list := Together(permanent, overlay, mapping, shape);
    MergeAllIsMerge(entries, shape);
    if AllKeys(permanent, truth) && AllKeys(overlay, truth) {
      forall k | 0 <= k < |list| ensures truth(list[k].key) {
        KeyListed(list, k);
        var j :| 0 <= j < |entries| && entries[j].key == list[k].key;
        assert entries[j] == if j < |permanent| then permanent[j] else moved[j - |permanent|];
      }
    }
    if AllKeys(list, truth) {
      forall j | 0 <= j < |entries| ensures truth(entries[j].key) {
        KeyListed(entries, j);
        var k :| 0 <= k < |list| && list[k].key == entries[j].key;
      }
      forall k | 0 <= k < |permanent| ensures truth(permanent[k].key) {
        assert entries[k] == permanent[k];
      }
      forall k | 0 <= k < |overlay| ensures truth(overlay[k].key) {
        assert entries[|permanent| + k] == moved[k];
      }
    }
  }

  ghost predicate AllKeys<K>(list: seq<Entry<K>>, truth: K -> bool) {
    forall k :: 0 <= k < |list| ==> truth(list[k].key)
  }

  // ---------- Clauses, facts and disjunctions as entries ----------

  /** A clause is identified by its body, its head and its join order. */
  type ClauseKey = (seq<Atom>, seq<Atom>, seq<nat>)

  function OneTrack<K>(key: K): nat { 1 }

  function DisjunctTracks(atoms: seq<Atom>): nat { 1 + |atoms| }

  function ClauseEntries(clauses: seq<Clause>): (entries: seq<Entry<ClauseKey>>)
    ensures Shaped(OneTrack<ClauseKey>, entries) && |entries| == |clauses|
  {
    seq(|clauses|, k requires 0 <= k < |clauses| => var c := clauses[k];
      Entry((c.body, c.head, c.joinOrder), [c.provenance]))
  }

  function EntryClauses(entries: seq<Entry<ClauseKey>>): (clauses: seq<Clause>)
    requires Shaped(OneTrack<ClauseKey>, entries)
    ensures |clauses| == |entries|
  {
    seq(|entries|, k requires 0 <= k < |entries| => var e := entries[k];
      Clause(k, e.key.0, e.key.1, e.tracks[0], e.key.2))
  }

  function FactEntries(facts: seq<Fact>): (entries: seq<Entry<Atom>>)
    ensures Shaped(OneTrack<Atom>, entries) && |entries| == |facts|
  {
    seq(|facts|, k requires 0 <= k < |facts| => Entry(facts[k].atom, [facts[k].provenance]))
  }

  function EntryFacts(entries: seq<Entry<Atom>>): (facts: seq<Fact>)
    requires Shaped(OneTrack<Atom>, entries)
    ensures |facts| == |entries|
  {
    seq(|entries|, k requires 0 <= k < |entries| => Fact(entries[k].key, entries[k].tracks[0]))
  }

  function DisjunctionEntry(d: Disjunction): (e: Entry<seq<Atom>>)
    ensures |e.tracks| == DisjunctTracks(e.key)
  {
    Entry(Atoms(d.disjuncts), [d.provenance] + seq(|d.disjuncts|, t requires 0 <= t < |d.disjuncts| =>
      d.disjuncts[t].provenance))
  }

  function EntryDisjunction(id: nat, e: Entry<seq<Atom>>): (d: Disjunction)
    requires |e.tracks| == DisjunctTracks(e.key)
    ensures Atoms(d.disjuncts) == e.key
  {
    Disjunction(id, seq(|e.key|, t requires 0 <= t < |e.key| => Fact(e.key[t], e.tracks[t + 1])), e.tracks[0])
  }

  function DisjunctionEntries(ds: seq<Disjunction>): (entries: seq<Entry<seq<Atom>>>)
    ensures Shaped(DisjunctTracks, entries) && |entries| == |ds|
  {
    seq(|ds|, k requires 0 <= k < |ds| => DisjunctionEntry(ds[k]))
  }

  function EntryDisjunctions(entries: seq<Entry<seq<Atom>>>): (ds: seq<Disjunction>)
    requires Shaped(DisjunctTracks, entries)
    ensures |ds| == |entries|
  {
    seq(|entries|, k requires 0 <= k < |entries| => EntryDisjunction(k, entries[k]))
  }

  /** Reading a merged list back as entries loses nothing. */
  lemma EntriesRoundTrip(clauses: seq<Entry<ClauseKey>>, facts: seq<Entry<Atom>>, ds: seq<Entry<seq<Atom>>>)
    requires Shaped(OneTrack<ClauseKey>, clauses) && Shaped(OneTrack<Atom>, facts) && Shaped(DisjunctTracks, ds)
    ensures ClauseEntries(EntryClauses(clauses)) == clauses
    ensures FactEntries(EntryFacts(facts)) == facts
    ensures DisjunctionEntries(EntryDisjunctions(ds)) == ds
  {
    forall k | 0 <= k < |clauses| ensures ClauseEntries(EntryClauses(clauses))[k] == clauses[k] {
      assert clauses[k].tracks == [clauses[k].tracks[0]];
    }
    forall k | 0 <= k < |facts| ensures FactEntries(EntryFacts(facts))[k] == facts[k] {
      assert facts[k].tracks == [facts[k].tracks[0]];
    }
    forall k | 0 <= k < |ds| ensures DisjunctionEntry(EntryDisjunction(k, ds[k])) == ds[k] {
      assert DisjunctionEntry(EntryDisjunction(k, ds[k])).tracks == ds[k].tracks;
    }
    assert DisjunctionEntries(EntryDisjunctions(ds)) == ds;
  }

  // ---------- Named individuals ----------

  function NamedIn(predicates: seq<Predicate>, facts: seq<Fact>): (named: seq<nat>)
    ensures forall v :: v in named <==> exists k :: 0 <= k < |facts| && Names(predicates, facts[k], v)
  {
    if facts == [] then []
    else
      var f, rest := facts[|facts| - 1], NamedIn(predicates, facts[..|facts| - 1]);
      assert facts == facts[..|facts| - 1] + [f];
      if NamesAny(predicates, f) then rest + [f.atom.arguments[0].individual] else rest
  }

  /** The fact's predicate, found by its identifier, names individuals, and the first argument is one. */
  predicate NamesAny(predicates: seq<Predicate>, f: Fact) {
    && (exists k ::
       0 <= k < |predicates| && predicates[k].kind == NamedIndividual && predicates[k].id == f.atom.relation)
    && f.atom.arguments != [] && f.atom.arguments[0].Individual?
  }

  predicate Names(predicates: seq<Predicate>, f: Fact, v: nat) {
    NamesAny(predicates, f) && f.atom.arguments[0].individual == v
  }

  method CollectNamed(named: seq<nat>, predicates: seq<Predicate>, facts: seq<Fact>) returns (all: seq<nat>)
    ensures all == Union([], named + NamedIn(predicates, facts))
    ensures Rising(all)
    ensures forall v :: v in all <==> v in named || exists k :: 0 <= k < |facts| && Names(predicates, facts[k], v)
  {
    all := named;
    for n := 0 to |facts|
      invariant all == named + NamedIn(predicates, facts[..n])
    {
      assert facts[..n + 1][..n] == facts[..n];
      if NamesAny(predicates, facts[n]) {
        all := all + [facts[n].atom.arguments[0].individual];
      }
    }
    assert facts[..|facts|] == facts;
    UnionKeeps([], all);
    all := Union([], all);
  }

  // ---------- The combined ontology ----------

  ghost predicate Combinable(o: Ontology, query: Option<Program>) {
    && query.Some? && query.value.roles == o.program.roles
    && var p, q := o.program, query.value;
    && TableMerges(p.provenance, q.provenance)
    && var mapping := MappingFor(p, q);
    && Mergeable(true, ClauseEntries(p.clauses), ClauseEntries(q.clauses), mapping, OneTrack)
    && Mergeable(false, FactEntries(p.positive), FactEntries(q.positive), mapping, OneTrack)
    && Mergeable(false, FactEntries(p.negative), FactEntries(q.negative), mapping, OneTrack)
    && Mergeable(true, DisjunctionEntries(p.disjunctions), DisjunctionEntries(q.disjunctions), mapping, DisjunctTracks)
  }

  ghost function MappingFor(p: Program, q: Program): map<nat, nat>
    requires TableMerges(p.provenance, q.provenance)
  {
    ExtendedTable(p.provenance, q.provenance);
    Mapping(Extended(p.provenance, q.provenance), q.provenance)
  }

  ghost function Combined(o: Ontology, query: Option<Program>): Ontology
    requires Combinable(o, query)
  {
    var p, q := o.program, query.value;
    var mapping := MappingFor(p, q);
    var positive := EntryFacts(Together(FactEntries(p.positive), FactEntries(q.positive), mapping, OneTrack));
    Ontology(
      Program(
        q.domains, q.predicates,
        EntryClauses(Together(ClauseEntries(p.clauses), ClauseEntries(q.clauses), mapping, OneTrack)),
        positive,
        EntryFacts(Together(FactEntries(p.negative), FactEntries(q.negative), mapping, OneTrack)),
        EntryDisjunctions(Together(DisjunctionEntries(p.disjunctions), DisjunctionEntries(q.disjunctions), mapping,
          DisjunctTracks)),
        q.roles, Extended(p.provenance, q.provenance)),
      Union([], o.named + NamedIn(q.predicates, positive)))
  }

  /** Merges the overlay into the ontology, or refuses. */
  method CombineQueryOntology(o: Ontology, query: Option<Program>) returns (r: Wire<Ontology>)
    ensures r.Ok? <==> Combinable(o, query)
    ensures r.Ok? ==> r.value == Combined(o, query)
  {
    if query.None? || query.value.roles != o.program.roles {
      return WireError;
    }
    var p, q := o.program, query.value;
    var table :- MergeProvenance(p.provenance, q.provenance);
    var clauses :- MergeEntries(true, ClauseEntries(p.clauses), ClauseEntries(q.clauses), table.1, OneTrack);
    var positive :- MergeEntries(false, FactEntries(p.positive), FactEntries(q.positive), table.1, OneTrack);
    var negative :- MergeEntries(false, FactEntries(p.negative), FactEntries(q.negative), table.1, OneTrack);
    var disjunctions :- MergeEntries(true, DisjunctionEntries(p.disjunctions), DisjunctionEntries(q.disjunctions),
      table.1, DisjunctTracks);
    var program := Program(
      q.domains, q.predicates, EntryClauses(clauses), EntryFacts(positive), EntryFacts(negative),
      EntryDisjunctions(disjunctions), q.roles, table.0);
    var named := CollectNamed(o.named, q.predicates, program.positive);
    return Ok(Ontology(program, named));
  }

  /** Each list of the combined program, read as entries, is the merge of both inputs' lists; numbers are positions. */
  lemma CombinedLists(o: Ontology, query: Option<Program>)
    requires Combinable(o, query)
    ensures
      var p, q, c, mapping := o.program, query.value, Combined(o, query).program, MappingFor(o.program, query.value);
      && IsMerge(ClauseEntries(c.clauses), ClauseEntries(p.clauses) + Moved(ClauseEntries(q.clauses), mapping))
      && IsMerge(FactEntries(c.positive), FactEntries(p.positive) + Moved(FactEntries(q.positive), mapping))
      && IsMerge(FactEntries(c.negative), FactEntries(p.negative) + Moved(FactEntries(q.negative), mapping))
      && IsMerge(DisjunctionEntries(c.disjunctions), DisjunctionEntries(p.disjunctions) +
         Moved(DisjunctionEntries(q.disjunctions), mapping))
      && (forall k :: 0 <= k < |c.clauses| ==> c.clauses[k].id == k)
      && (forall k :: 0 <= k < |c.disjunctions| ==> c.disjunctions[k].id == k)
  {
    hide IsMerge, MergeAll, Mapping;
    var p, q, mapping := o.program, query.value, MappingFor(o.program, query.value);
    MergeAllIsMerge(ClauseEntries(p.clauses) + Moved(ClauseEntries(q.clauses), mapping), OneTrack);
    MergeAllIsMerge(FactEntries(p.positive) + Moved(FactEntries(q.positive), mapping), OneTrack);
    MergeAllIsMerge(FactEntries(p.negative) + Moved(FactEntries(q.negative), mapping), OneTrack);
    MergeAllIsMerge(DisjunctionEntries(p.disjunctions) + Moved(DisjunctionEntries(q.disjunctions), mapping),
      DisjunctTracks);
    EntriesRoundTrip(
      Together(ClauseEntries(p.clauses), ClauseEntries(q.clauses), mapping, OneTrack),
      Together(FactEntries(p.positive), FactEntries(q.positive), mapping, OneTrack),
      Together(DisjunctionEntries(p.disjunctions), DisjunctionEntries(q.disjunctions), mapping, DisjunctTracks));
    EntriesRoundTrip([], Together(FactEntries(p.negative), FactEntries(q.negative), mapping, OneTrack), []);
  }

  // ---------- It means what both inputs mean ----------

  lemma ClausesMean<D(!new), V(!new)>(
    i: Interp<D, V>, table: seq<Predicate>, p: seq<Clause>, q: seq<Clause>, mapping: map<nat, nat>)
    requires Resolve(ClauseEntries(q), mapping)
    ensures
      var merged := EntryClauses(Together(ClauseEntries(p), ClauseEntries(q), mapping, OneTrack));
      ClausesTrue(i, table, merged) <==> ClausesTrue(i, table, p) && ClausesTrue(i, table, q)
  {
    var truth := (key: ClauseKey) => ClauseTrue(i, table, key.0, key.1);
    var list := Together(ClauseEntries(p), ClauseEntries(q), mapping, OneTrack);
    KeysTogether(ClauseEntries(p), ClauseEntries(q), mapping, OneTrack, truth);
    ClauseKeys(i, table, p, truth);
    ClauseKeys(i, table, q, truth);
    ClauseKeys(i, table, EntryClauses(list), truth);
    EntriesRoundTrip(list, [], []);
  }

  lemma ClauseKeys<D(!new), V(!new)>(
    i: Interp<D, V>, table: seq<Predicate>, clauses: seq<Clause>, truth: ClauseKey -> bool)
    requires forall key :: truth(key) == ClauseTrue(i, table, key.0, key.1)
    ensures AllKeys(ClauseEntries(clauses), truth) <==> ClausesTrue(i, table, clauses)
  {
    var entries := ClauseEntries(clauses);
    forall k | 0 <= k < |clauses|
      ensures truth(entries[k].key) == ClauseTrue(i, table, clauses[k].body, clauses[k].head)
    {
    }
  }

  lemma FactsMean<D(!new), V(!new)>(
    i: Interp<D, V>, table: seq<Predicate>, p: seq<Fact>, q: seq<Fact>, mapping: map<nat, nat>)
    requires Resolve(FactEntries(q), mapping)
    ensures
      var merged := EntryFacts(Together(FactEntries(p), FactEntries(q), mapping, OneTrack));
      FactsTrue(i, table, merged) <==> FactsTrue(i, table, p) && FactsTrue(i, table, q)
  {
    var truth := (key: Atom) => FactTrue(i, table, key);
    var list := Together(FactEntries(p), FactEntries(q), mapping, OneTrack);
    KeysTogether(FactEntries(p), FactEntries(q), mapping, OneTrack, truth);
    FactKeys(i, table, p, truth);
    FactKeys(i, table, q, truth);
    FactKeys(i, table, EntryFacts(list), truth);
    EntriesRoundTrip([], list, []);
  }

  lemma FactKeys<D(!new), V(!new)>(i: Interp<D, V>, table: seq<Predicate>, facts: seq<Fact>, truth: Atom -> bool)
    requires forall key :: truth(key) == FactTrue(i, table, key)
    ensures AllKeys(FactEntries(facts), truth) <==> FactsTrue(i, table, facts)
  {
    var entries := FactEntries(facts);
    forall k | 0 <= k < |facts| ensures truth(entries[k].key) == FactTrue(i, table, facts[k].atom) {
    }
  }

  lemma DisjunctionsMean<D(!new), V(!new)>(
    i: Interp<D, V>, table: seq<Predicate>, p: seq<Disjunction>, q: seq<Disjunction>, mapping: map<nat, nat>)
    requires Resolve(DisjunctionEntries(q), mapping)
    ensures
      var merged := EntryDisjunctions(Together(DisjunctionEntries(p), DisjunctionEntries(q), mapping, DisjunctTracks));
      DisjunctionsTrue(i, table, merged) <==> DisjunctionsTrue(i, table, p) && DisjunctionsTrue(i, table, q)
  {
    var truth := (key: seq<Atom>) => DisjunctionTrue(i, table, key);
    var list := Together(DisjunctionEntries(p), DisjunctionEntries(q), mapping, DisjunctTracks);
    KeysTogether(DisjunctionEntries(p), DisjunctionEntries(q), mapping, DisjunctTracks, truth);
    DisjunctionKeys(i, table, p, truth);
    DisjunctionKeys(i, table, q, truth);
    DisjunctionKeys(i, table, EntryDisjunctions(list), truth);
    EntriesRoundTrip([], [], list);
  }

  lemma DisjunctionKeys<D(!new), V(!new)>(
    i: Interp<D, V>, table: seq<Predicate>, ds: seq<Disjunction>, truth: seq<Atom> -> bool)
    requires forall key :: truth(key) == DisjunctionTrue(i, table, key)
    ensures AllKeys(DisjunctionEntries(ds), truth) <==> DisjunctionsTrue(i, table, ds)
  {
    var entries := DisjunctionEntries(ds);
    forall k | 0 <= k < |ds| ensures truth(entries[k].key) == DisjunctionTrue(i, table, Atoms(ds[k].disjuncts)) {
    }
  }

  /** The combined program has exactly the models that both the permanent program and the overlay have. */
  lemma CombinedModels<D(!new), V(!new)>(o: Ontology, query: Option<Program>, i: Interp<D, V>)
    requires Combinable(o, query)
    ensures
      var table := query.value.predicates;
      Satisfies(i, table, Combined(o, query).program) <==>
        Satisfies(i, table, o.program) && Satisfies(i, table, query.value)
  {
    var p, q, table := o.program, query.value, query.value.predicates;
    var mapping := MappingFor(p, q);
    ClausesMean(i, table, p.clauses, q.clauses, mapping);
    FactsMean(i, table, p.positive, q.positive, mapping);
    FactsMean(i, table, p.negative, q.negative, mapping);
    DisjunctionsMean(i, table, p.disjunctions, q.disjunctions, mapping);
  }

  /**
   When the overlay's predicate table extends the permanent one and the permanent atoms stay within
   theirs, the permanent program may be read with its own table.
   */
  lemma CombinedModelsOwnTables<D(!new), V(!new)>(
    o: Ontology, query: Option<Program>, individuals: nat, i: Interp<D, V>)
    requires Combinable(o, query)
    requires o.program.predicates <= query.value.predicates &&
      ProgramWithin(o.program, |o.program.predicates|, individuals)
    ensures
      var combined := Combined(o, query).program;
      Satisfies(i, combined.predicates, combined)
      <==> Satisfies(i, o.program.predicates, o.program) && Satisfies(i, query.value.predicates, query.value)
  {
    CombinedModels(o, query, i);
    ProgramAgrees(i, i, individuals, o.program.predicates, query.value.predicates, o.program);
  }

  // ---------- A second merge changes nothing ----------

  lemma NamedTwice(named: seq<nat>, extra: seq<nat>)
    ensures Union([], Union([], named + extra) + extra) == Union([], named + extra)
  {
    var once := Union([], named + extra);
    UnionKeeps([], named + extra);
    UnionKeeps([], once + extra);
    RisingUnique(Union([], once + extra), once);
  }

  lemma TogetherTwice<K(!new)>(
    permanent: seq<Entry<K>>, overlay: seq<Entry<K>>, mapping: map<nat, nat>, shape: K -> nat)
    requires Shaped(shape, permanent) && Shaped(shape, overlay) && Resolve(overlay, mapping)
    ensures Together(Together(permanent, overlay, mapping, shape), overlay, mapping, shape) ==
      Together(permanent, overlay, mapping, shape)
  {
    MergeTwice(permanent, Moved(overlay, mapping), shape);
  }

  lemma TableTwice(p: seq<Provenance>, q: seq<Provenance>)
    requires TableMerges(p, q)
    ensures TableMerges(Extended(p, q), q) && Extended(Extended(p, q), q) == Extended(p, q)
  {
    ExtendedTable(p, q);
    ExtendedTwice(Extended(p, q), q);
  }

  /** Merging the same overlay a second time is accepted and changes nothing at all. */
  lemma CombinedTwice(o: Ontology, query: Option<Program>)
    requires Combinable(o, query)
    ensures Combinable(Combined(o, query), query)
    ensures Combined(Combined(o, query), query) == Combined(o, query)
  {
    hide NamedIn, Union, Together, Extended, Mapping;
    var p, q := o.program, query.value;
    var mapping := MappingFor(p, q);
    var once := Combined(o, query);
    TableTwice(p.provenance, q.provenance);
    assert MappingFor(once.program, q) == mapping;
    var clauses := Together(ClauseEntries(p.clauses), ClauseEntries(q.clauses), mapping, OneTrack);
    var positive := Together(FactEntries(p.positive), FactEntries(q.positive), mapping, OneTrack);
    var negative := Together(FactEntries(p.negative), FactEntries(q.negative), mapping, OneTrack);
    var ds := Together(DisjunctionEntries(p.disjunctions), DisjunctionEntries(q.disjunctions), mapping, DisjunctTracks);
    EntriesRoundTrip(clauses, positive, ds);
    EntriesRoundTrip([], negative, []);
    TogetherTwice(ClauseEntries(p.clauses), ClauseEntries(q.clauses), mapping, OneTrack);
    TogetherTwice(FactEntries(p.positive), FactEntries(q.positive), mapping, OneTrack);
    TogetherTwice(FactEntries(p.negative), FactEntries(q.negative), mapping, OneTrack);
    TogetherTwice(DisjunctionEntries(p.disjunctions), DisjunctionEntries(q.disjunctions), mapping, DisjunctTracks);
    NamedTwice(o.named, NamedIn(q.predicates, EntryFacts(positive)));
  }
}
