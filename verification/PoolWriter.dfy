/** The pools as the producer writes them: what it writes is what the decoder reads back. */
module PoolWriter {
  import opened Bytes
  import opened Programs
  import opened Pools
  import Formation

  // ---------- Clauses ----------

  /** The record of a clause whose atoms start at `first`. */
  function RecordOf(c: Clause, first: nat): ClauseRecord {
    ClauseRecord(c.id, first, |c.body|, first + |c.body|, |c.head|, c.provenance, c.joinOrder)
  }

  /** The records of these clauses, whose atoms start at `first`. */
  ghost function Records(clauses: seq<Clause>, first: nat): (records: seq<ClauseRecord>)
    ensures |records| == |clauses|
  {
    if clauses == [] then []
    else [RecordOf(clauses[0], first)] + Records(clauses[1..], first + |clauses[0].body| + |clauses[0].head|)
  }

  lemma {:induction false} RecordsAppend(clauses: seq<Clause>, c: Clause, first: nat)
    ensures Records(clauses + [c], first) ==
      Records(clauses, first) + [RecordOf(c, first + |ClauseAtoms(clauses)|)]
  {
    hide RecordOf;
    if clauses == [] {
      assert [] + [c] == [c] && [c][1..] == [];
    } else {
      var rest, next := clauses[1..], first + |clauses[0].body| + |clauses[0].head|;
      RecordsAppend(rest, c, next);
      assert (clauses + [c])[0] == clauses[0] && (clauses + [c])[1..] == rest + [c];
      assert next + |ClauseAtoms(rest)| == first + |ClauseAtoms(clauses)|;
      AppendAssociative([RecordOf(clauses[0], first)], Records(rest, next), [RecordOf(c, next + |ClauseAtoms(rest)|)]);
    }
  }

  /** Every clause appends its body, then its head, to the atoms, and its record to the records. */
  method WriteClauses(clauses: seq<Clause>) returns (records: seq<ClauseRecord>, atoms: seq<Atom>)
    ensures records == Records(clauses, 0) && atoms == ClauseAtoms(clauses)
  {
    records, atoms := [], [];
    for n := 0 to |clauses|
      invariant records == Records(clauses[..n], 0) && atoms == ClauseAtoms(clauses[..n])
    {
      var c := clauses[n];
      RecordsAppend(clauses[..n], c, 0);
      ClauseAtomsAppend(clauses[..n], c);
      assert clauses[..n + 1] == clauses[..n] + [c];
      AppendAssociative(atoms, c.body, c.head);
      var bodyFirst := |atoms|;
      atoms := atoms + c.body;
      var headFirst := |atoms|;
      atoms := atoms + c.head;
      records := records + [
        ClauseRecord(c.id, bodyFirst, |c.body|, headFirst, |c.head|, c.provenance, c.joinOrder)];
    }
    assert clauses[..|clauses|] == clauses;
  }

  /** A clause the decoder takes at place `k`. */
  ghost predicate Writable(c: Clause, k: nat, sources: nat) {
    && c.id == k && (c.body != [] || c.head != []) && Formation.Cited(c.provenance, sources)
    && Formation.IsOrder(c.joinOrder, |c.body|)
  }

  ghost predicate AllWritable(clauses: seq<Clause>, n: nat, sources: nat) {
    forall k :: 0 <= k < |clauses| ==> Writable(clauses[k], n + k, sources)
  }

  lemma WritableIff(c: Clause, k: nat, sources: nat)
    ensures Writable(c, k, sources) <==> c.id == k && ClauseOk(c, sources)
  {
    if |c.joinOrder| == |c.body| {
      PermutesIffDistinct(c.joinOrder, |c.body|);
    } else {
      assert |multiset(c.joinOrder)| != |multiset(Counting(|c.body|))|;
    }
  }

  lemma {:induction false} RecordsLayOut(clauses: seq<Clause>, n: nat, first: nat, sources: nat)
    ensures LaysOut(Records(clauses, first), clauses, n, first, sources) <==> AllWritable(clauses, n, sources)
  {
    if clauses != [] {
      hide Writable, ClauseOk;
      var rest := clauses[1..];
      WritableIff(clauses[0], n, sources);
      RecordsLayOut(rest, n + 1, first + |clauses[0].body| + |clauses[0].head|, sources);
      assert forall k :: 0 <= k < |rest| ==> rest[k] == clauses[k + 1];
      assert Records(clauses, first)[1..] ==
        Records(rest, first + |clauses[0].body| + |clauses[0].head|);
      if AllWritable(rest, n + 1, sources) {
        forall k | 1 <= k < |clauses| ensures Writable(clauses[k], n + k, sources) {
          assert Writable(rest[k - 1], n + 1 + (k - 1), sources);
        }
      }
      if AllWritable(clauses, n, sources) {
        forall k | 0 <= k < |rest| ensures Writable(rest[k], n + 1 + k, sources) {
          assert Writable(clauses[k + 1], n + (k + 1), sources);
        }
        assert Writable(clauses[0], n + 0, sources);
      }
    }
  }

  /** Whatever the records lay out over the same pool is the same clauses. */
  lemma {:induction false} SameLayout(
    records: seq<ClauseRecord>, a: seq<Clause>, b: seq<Clause>, n: nat, first: nat, sources: nat)
    requires LaysOut(records, a, n, first, sources) && records == Records(b, first) && ClauseAtoms(a) == ClauseAtoms(b)
    ensures a == b
    decreases |a|
  {
    if a != [] {
      var x, y := a[0], b[0];
      assert x.body == ClauseAtoms(a)[..|x.body|] && y.body == ClauseAtoms(b)[..|y.body|];
      assert x.head == ClauseAtoms(a)[|x.body|..|x.body| + |x.head|];
      assert y.head == ClauseAtoms(b)[|y.body|..|y.body| + |y.head|];
      assert ClauseAtoms(a[1..]) == ClauseAtoms(a)[|x.body| + |x.head|..];
      assert ClauseAtoms(b[1..]) == ClauseAtoms(b)[|y.body| + |y.head|..];
      assert records[1..] == Records(b[1..], first + |y.body| + |y.head|);
      SameLayout(records[1..], a[1..], b[1..], n + 1, first + |x.body| + |x.head|, sources);
      assert a == [x] + a[1..] && b == [y] + b[1..];
    }
  }

  /** What the decoder reads from the written pools: these clauses, exactly when it takes every one of them. */
  lemma ClausesRead(clauses: seq<Clause>, sources: nat, read: seq<Clause>)
    ensures Decodes(Records(clauses, 0), ClauseAtoms(clauses), sources, read) <==>
      read == clauses && AllWritable(clauses, 0, sources)
  {
    hide AllWritable, LaysOut, Records, ClauseAtoms;
    RecordsLayOut(clauses, 0, 0, sources);
    if Decodes(Records(clauses, 0), ClauseAtoms(clauses), sources, read) {
      SameLayout(Records(clauses, 0), read, clauses, 0, 0, sources);
    }
  }

  // ---------- Facts and disjunctions ----------

  ghost function DisjunctionRecords(ds: seq<Disjunction>, first: nat): (records: seq<DisjunctionRecord>)
    ensures |records| == |ds|
  {
    if ds == [] then []
    else
      [DisjunctionRecord(ds[0].id, first, |ds[0].disjuncts|, ds[0].provenance)]
      + DisjunctionRecords(ds[1..], first + |ds[0].disjuncts|)
  }

  lemma {:induction false} DisjunctFactsFirst(ds: seq<Disjunction>)
    requires ds != []
    ensures DisjunctFacts(ds) == ds[0].disjuncts + DisjunctFacts(ds[1..])
  {
    if |ds| > 1 {
      var front, last := ds[..|ds| - 1], ds[|ds| - 1].disjuncts;
      DisjunctFactsFirst(front);
      assert front[1..] == ds[1..][..|ds| - 2];
      AppendAssociative(ds[0].disjuncts, DisjunctFacts(front[1..]), last);
    } else {
      assert ds[1..] == [] && ds[..0] == [];
    }
  }

  lemma {:induction false} DisjunctionRecordsAppend(ds: seq<Disjunction>, d: Disjunction, first: nat)
    ensures DisjunctionRecords(ds + [d], first) == DisjunctionRecords(ds, first) +
      [DisjunctionRecord(d.id, first + |DisjunctFacts(ds)|, |d.disjuncts|, d.provenance)]
  {
    if ds == [] {
      assert [] + [d] == [d] && [d][1..] == [];
    } else {
      DisjunctFactsFirst(ds);
      DisjunctionRecordsAppend(ds[1..], d, first + |ds[0].disjuncts|);
      assert (ds + [d])[1..] == ds[1..] + [d];
    }
  }

  lemma DisjunctionsNext(ds: seq<Disjunction>, n: nat, first: nat)
    requires n < |ds|
    ensures DisjunctFacts(ds[..n + 1]) == DisjunctFacts(ds[..n]) + ds[n].disjuncts
    ensures DisjunctionRecords(ds[..n + 1], first) == DisjunctionRecords(ds[..n], first) +
      [DisjunctionRecord(ds[n].id, first + |DisjunctFacts(ds[..n])|, |ds[n].disjuncts|, ds[n].provenance)]
  {
    assert ds[..n + 1] == ds[..n] + [ds[n]] && ds[..n + 1][..n] == ds[..n];
    DisjunctionRecordsAppend(ds[..n], ds[n], first);
  }

  lemma NoDisjunctions(before: seq<Fact>)
    ensures before + DisjunctFacts([]) == before && forall first :: DisjunctionRecords([], first) == []
  {
  }

  /** The positive facts, the negative ones, then the disjuncts of every disjunction. */
  method WriteFacts(positive: seq<Fact>, negative: seq<Fact>, ds: seq<Disjunction>)
    returns (ground: seq<Fact>, records: seq<DisjunctionRecord>)
    ensures ground == positive + negative + DisjunctFacts(ds)
    ensures records == DisjunctionRecords(ds, |positive| + |negative|)
  {
    hide DisjunctFacts, DisjunctionRecords;
    ground, records := positive + negative, [];
    NoDisjunctions(positive + negative);
    assert ds[..0] == [];
    for n := 0 to |ds|
      invariant ground == positive + negative + DisjunctFacts(ds[..n])
      invariant records == DisjunctionRecords(ds[..n], |positive| + |negative|)
    {
      var d := ds[n];
      DisjunctionsNext(ds, n, |positive| + |negative|);
      AppendAssociative(positive + negative, DisjunctFacts(ds[..n]), d.disjuncts);
      records := records + [DisjunctionRecord(d.id, |ground|, |d.disjuncts|, d.provenance)];
      ground := ground + d.disjuncts;
    }
    assert ds[..|ds|] == ds;
  }

  ghost predicate AllOk(ds: seq<Disjunction>, n: nat, sources: nat) {
    forall k :: 0 <= k < |ds| ==> DisjunctionOk(ds[k], n + k, sources)
  }

  /** The first record is for the next facts, and the others follow. */
  ghost predicate FirstFits(r: DisjunctionRecord, ground: seq<Fact>, n: nat, first: nat, sources: nat) {
    && r.id == n && r.first == first && r.count >= 2 && first + r.count <= |ground|
    && ProvenanceOk(r.provenance, sources)
    && forall k :: first <= k < first + r.count ==> ground[k].provenance == r.provenance
  }

  lemma FitFirst(
    r: DisjunctionRecord, rest: seq<DisjunctionRecord>, ground: seq<Fact>, n: nat, first: nat, sources: nat)
    ensures DisjunctionsFit([r] + rest, ground, n, first, sources) <==>
      FirstFits(r, ground, n, first, sources) && DisjunctionsFit(rest, ground, n + 1, first + r.count, sources)
  {
    assert ([r] + rest)[0] == r && ([r] + rest)[1..] == rest;
  }

  lemma FirstOk(d: Disjunction, before: seq<Fact>, after: seq<Fact>, n: nat, sources: nat)
    ensures
      var ground := before + (d.disjuncts + after);
      FirstFits(DisjunctionRecord(d.id, |before|, |d.disjuncts|, d.provenance), ground, n, |before|, sources) <==>
        DisjunctionOk(d, n, sources)
  {
    MiddleProvenance(before, d.disjuncts, after, d.provenance);
  }

  /** The records of disjunctions fit the pool exactly when the decoder takes every one of them. */
  lemma {:induction false} DisjunctionsRead(ds: seq<Disjunction>, before: seq<Fact>, n: nat, sources: nat)
    ensures DisjunctionsFit(DisjunctionRecords(ds, |before|), before + DisjunctFacts(ds), n, |before|, sources) <==>
      AllOk(ds, n, sources)
    decreases |ds|
  {
    hide AllOk, DisjunctFacts, FirstFits, DisjunctionOk;
    if ds == [] {
      NoDisjunctions(before);
      assert AllOk(ds, n, sources) by { NoneToTake(ds, n, sources); }
    } else {
      hide DisjunctionsFit;
      var d, rest, after := ds[0], ds[1..], before + ds[0].disjuncts;
      DisjunctFactsFirst(ds);
      AppendAssociative(before, d.disjuncts, DisjunctFacts(rest));
      DisjunctionsRead(rest, after, n + 1, sources);
      FirstOk(d, before, DisjunctFacts(rest), n, sources);
      FitFirst(DisjunctionRecord(d.id, |before|, |d.disjuncts|, d.provenance), DisjunctionRecords(rest, |after|),
        before + DisjunctFacts(ds), n, |before|, sources);
      ShiftedOk(ds, n, sources);
    }
  }

  lemma NoneToTake(ds: seq<Disjunction>, n: nat, sources: nat)
    requires ds == []
    ensures AllOk(ds, n, sources)
  {
  }

  lemma MiddleProvenance(before: seq<Fact>, middle: seq<Fact>, after: seq<Fact>, ids: seq<nat>)
    ensures
      var ground := before + (middle + after);
      (forall k :: |before| <= k < |before| + |middle| ==> ground[k].provenance == ids) <==>
        forall k :: 0 <= k < |middle| ==> middle[k].provenance == ids
  {
    var ground := before + (middle + after);
    assert forall k :: 0 <= k < |middle| ==> ground[|before| + k] == middle[k];
    if forall k :: |before| <= k < |before| + |middle| ==> ground[k].provenance == ids {
      forall k | 0 <= k < |middle| ensures middle[k].provenance == ids {
        assert ground[|before| + k].provenance == ids;
      }
    }
  }

  lemma ShiftedOk(ds: seq<Disjunction>, n: nat, sources: nat)
    requires ds != []
    ensures AllOk(ds, n, sources) <==> DisjunctionOk(ds[0], n, sources) && AllOk(ds[1..], n + 1, sources)
  {
    hide DisjunctionOk;
    var rest := ds[1..];
    if AllOk(ds, n, sources) {
      forall k | 0 <= k < |rest| ensures DisjunctionOk(rest[k], n + 1 + k, sources) {
        assert DisjunctionOk(ds[k + 1], n + (k + 1), sources);
      }
      assert DisjunctionOk(ds[0], n + 0, sources);
    }
    if DisjunctionOk(ds[0], n, sources) && AllOk(rest, n + 1, sources) {
      forall k | 0 <= k < |ds| ensures DisjunctionOk(ds[k], n + k, sources) {
        if k > 0 { assert DisjunctionOk(rest[k - 1], n + 1 + (k - 1), sources); }
      }
    }
  }

  /** Disjunctions of the same sizes over the same facts are the same. */
  lemma {:induction false} SameDisjunctions(a: seq<Disjunction>, b: seq<Disjunction>, sources: nat)
    requires |a| == |b| && DisjunctFacts(a) == DisjunctFacts(b)
    requires forall k :: 0 <= k < |a| ==> DisjunctionOk(a[k], k, sources) && DisjunctionOk(b[k], k, sources)
    requires forall k :: 0 <= k < |a| ==> |a[k].disjuncts| == |b[k].disjuncts|
    ensures a == b
  {
    if a != [] {
      var m := |a| - 1;
      var x, y, facts := a[m], b[m], DisjunctFacts(a);
      assert x.disjuncts == facts[|facts| - |x.disjuncts|..] && y.disjuncts == facts[|facts| - |y.disjuncts|..];
      assert DisjunctFacts(a[..m]) == facts[..|facts| - |x.disjuncts|];
      assert DisjunctFacts(b[..m]) == facts[..|facts| - |y.disjuncts|];
      SameDisjunctions(a[..m], b[..m], sources);
      assert x.disjuncts[0].provenance == x.provenance && y.disjuncts[0].provenance == y.provenance;
      assert a == a[..m] + [x] && b == b[..m] + [y];
    }
  }

  lemma {:induction false} RecordCounts(ds: seq<Disjunction>, first: nat, k: nat)
    requires k < |ds|
    ensures DisjunctionRecords(ds, first)[k].count == |ds[k].disjuncts|
  {
    if k > 0 { RecordCounts(ds[1..], first + |ds[0].disjuncts|, k - 1); }
  }

  lemma OkFromZero(ds: seq<Disjunction>, sources: nat)
    ensures AllOk(ds, 0, sources) <==> forall k :: 0 <= k < |ds| ==> DisjunctionOk(ds[k], k, sources)
  {
    hide DisjunctionOk;
    assert forall k :: 0 <= k < |ds| ==> (DisjunctionOk(ds[k], 0 + k, sources) <==> DisjunctionOk(ds[k], k, sources));
  }

  lemma PoolParts(positive: seq<Fact>, negative: seq<Fact>, rest: seq<Fact>)
    ensures
      var ground, start := positive + negative + rest, |positive| + |negative|;
      ground[..|positive|] == positive && ground[|positive|..start] == negative && ground[start..] == rest
  {
  }

  lemma FactsReadBack(
    positive: seq<Fact>, negative: seq<Fact>, ds: seq<Disjunction>, sources: nat,
    read: (seq<Fact>, seq<Fact>, seq<Disjunction>))
    requires AllOk(ds, 0, sources)
    requires
      var ground, start := positive + negative + DisjunctFacts(ds), |positive| + |negative|;
      FactsDecode(ground, 0, |positive|, |positive|, |negative|, DisjunctionRecords(ds, start), sources, read)
    ensures read == (positive, negative, ds)
  {
    hide DisjunctionOk, DisjunctionsFit, DisjunctFacts, DisjunctionRecords, AllOk;
    var start := |positive| + |negative|;
    OkFromZero(ds, sources);
    PoolParts(positive, negative, DisjunctFacts(ds));
    PoolParts(read.0, read.1, DisjunctFacts(read.2));
    forall k | 0 <= k < |ds| ensures DisjunctionRecords(ds, start)[k].count == |ds[k].disjuncts| {
      RecordCounts(ds, start, k);
    }
    SameDisjunctions(read.2, ds, sources);
  }

  /** What was written is read back, exactly when the decoder takes every disjunction. */
  lemma FactsRead(
    positive: seq<Fact>, negative: seq<Fact>, ds: seq<Disjunction>, sources: nat,
    read: (seq<Fact>, seq<Fact>, seq<Disjunction>))
    ensures
      var ground, start := positive + negative + DisjunctFacts(ds), |positive| + |negative|;
      FactsDecode(ground, 0, |positive|, |positive|, |negative|, DisjunctionRecords(ds, start), sources, read) <==>
        read == (positive, negative, ds) && AllOk(ds, 0, sources)
  {
    hide DisjunctionOk, DisjunctionsFit, DisjunctFacts, DisjunctionRecords, AllOk;
    var ground, start := positive + negative + DisjunctFacts(ds), |positive| + |negative|;
    DisjunctionsRead(ds, positive + negative, 0, sources);
    if FactsDecode(ground, 0, |positive|, |positive|, |negative|, DisjunctionRecords(ds, start), sources, read) {
      FactsReadBack(positive, negative, ds, sources, read);
    }
    if read == (positive, negative, ds) && AllOk(ds, 0, sources) {
      OkFromZero(ds, sources);
      forall k | 0 <= k < |ds| ensures DisjunctionRecords(ds, start)[k].count == |ds[k].disjuncts| {
        RecordCounts(ds, start, k);
      }
    }
  }
}
