/** Clauses, facts and disjunctions as contiguous ranges of shared pools, and the join-order checks. */
module Pools {
  import opened Bytes
  import opened Programs
  import opened Sorting

  // ---------- Join orders ----------

  function Counting(n: nat): (s: seq<nat>)
    ensures |s| == n && forall k :: 0 <= k < n ==> s[k] == k
  {
    seq(n, k => k)
  }

  /** The order lists every position of the body exactly once. */
  ghost predicate Permutes(order: seq<nat>, n: nat) {
    multiset(order) == multiset(Counting(n))
  }

  predicate AtMost(a: nat, b: nat) { a <= b }

  lemma AtMostIsTotalOrder()
    ensures TotalOrder(AtMost)
  {
  }

  lemma {:induction false} SortedUnique(a: seq<nat>, b: seq<nat>)
    requires Sorted(AtMost, a) && Sorted(AtMost, b) && multiset(a) == multiset(b)
    ensures a == b
    decreases |a|
  {
    assert |a| == |multiset(a)| == |multiset(b)| == |b|;
    if a != [] {
      SameHead(a, b);
      TailMembers(a);
      TailMembers(b);
      SortedUnique(a[1..], b[1..]);
      assert a == [a[0]] + a[1..] && b == [b[0]] + b[1..];
    }
  }

  lemma TailMembers(a: seq<nat>)
    requires a != []
    ensures multiset(a[1..]) == multiset(a) - multiset{a[0]}
    ensures Sorted(AtMost, a) ==> Sorted(AtMost, a[1..])
  {
    assert a == [a[0]] + a[1..];
  }

  lemma SameHead(a: seq<nat>, b: seq<nat>)
    requires a != [] && b != [] && Sorted(AtMost, a) && Sorted(AtMost, b) && multiset(a) == multiset(b)
    ensures a[0] == b[0]
  {
    SameMembers(a, b, a[0]);
    SameMembers(a, b, b[0]);
    HeadLeast(a, b[0]);
    HeadLeast(b, a[0]);
  }

  lemma HeadLeast(a: seq<nat>, v: nat)
    requires Sorted(AtMost, a) && v in a
    ensures AtMost(a[0], v)
  {
    var k :| 0 <= k < |a| && a[k] == v;
  }

  /** Sorts a copy of the order and compares it with 0, 1, 2 and so on. */
  method SortedJoinCheck(order: seq<nat>, n: nat) returns (ok: bool)
    ensures ok <==> Permutes(order, n)
  {
    if |order| != n {
      assert |multiset(order)| != |multiset(Counting(n))|;
      return false;
    }
    var sorted := InOrder(AtMost, order);
    AtMostIsTotalOrder();
    SortSorts(AtMost, order);
    assert Sorted(AtMost, Counting(n));
    if Permutes(order, n) { SortedUnique(sorted, Counting(n)); }
    for k := 0 to n
      invariant forall j :: 0 <= j < k ==> sorted[j] == j
    {
      if sorted[k] != k {
        return false;
      }
    }
    assert sorted == Counting(n);
    return true;
  }

  /** Every entry is a position, and none repeats an earlier one. */
  ghost predicate DistinctPositions(order: seq<nat>, n: nat) {
    && (forall k :: 0 <= k < |order| ==> order[k] < n)
    && (forall j, k :: 0 <= j < k < |order| ==> order[j] != order[k])
  }

  /** Distinct entries occur once each. */
  lemma {:induction false} DistinctOnce(order: seq<nat>, v: nat)
    requires forall j, k :: 0 <= j < k < |order| ==> order[j] != order[k]
    ensures multiset(order)[v] == if v in order then 1 else 0
  {
    if order != [] {
      var rest := order[1..];
      assert order == [order[0]] + rest;
      DistinctOnce(rest, v);
    }
  }

  ghost function Members(order: seq<nat>): set<nat> { set v | v in order }

  lemma {:induction false} DistinctCard(order: seq<nat>)
    requires forall j, k :: 0 <= j < k < |order| ==> order[j] != order[k]
    ensures |Members(order)| == |order|
  {
    if order != [] {
      var rest := order[1..];
      DistinctCard(rest);
      assert order == [order[0]] + rest;
      assert order[0] !in rest;
      assert Members(order) == Members(rest) + {order[0]};
    }
  }

  /** Pigeonhole: `n` distinct numbers below `n` are all of them. */
  lemma AllPositions(order: seq<nat>, n: nat)
    requires |order| == n && DistinctPositions(order, n)
    ensures forall v: nat :: v < n ==> v in order
  {
    var all := Counting(n);
    DistinctCard(order);
    DistinctCard(all);
    assert Members(order) <= Members(all) by {
      forall v | v in order ensures v in all {
        assert all[v] == v;
      }
    }
    assert |Members(all) - Members(order)| == 0;
    forall v: nat | v < n ensures v in order {
      assert all[v] == v && v in Members(all);
      assert v !in Members(all) - Members(order);
    }
  }

  lemma PermutesIffDistinct(order: seq<nat>, n: nat)
    requires |order| == n
    ensures DistinctPositions(order, n) <==> Permutes(order, n)
  {
    var all := Counting(n);
    if DistinctPositions(order, n) {
      AllPositions(order, n);
      forall v: nat ensures multiset(order)[v] == multiset(all)[v] {
        DistinctOnce(order, v);
        DistinctOnce(all, v);
        assert v < n ==> all[v] == v;
      }
    }
    if Permutes(order, n) {
      forall k | 0 <= k < n ensures order[k] < n {
        SameMembers(order, all, order[k]);
      }
      forall j, k | 0 <= j < k < n ensures order[j] != order[k] {
        DistinctOnce(all, order[j]);
        CountsTwice(order, j, k);
      }
    }
  }

  lemma CountsTwice(order: seq<nat>, j: nat, k: nat)
    requires j < k < |order|
    ensures order[j] == order[k] ==> multiset(order)[order[j]] >= 2
  {
    assert order == order[..k] + order[k..];
    assert order[..k][j] in order[..k] && order[k..][0] in order[k..];
  }

  /** Checks each entry against the length and against the entries before it. */
  method PairwiseJoinCheck(order: seq<nat>, n: nat) returns (ok: bool)
    ensures ok <==> Permutes(order, n)
  {
    if |order| != n {
      assert |multiset(order)| != |multiset(Counting(n))|;
      return false;
    }
    PermutesIffDistinct(order, n);
    for k := 0 to n
      invariant forall i :: 0 <= i < k ==> order[i] < n
      invariant forall i, j :: 0 <= i < j < k ==> order[i] != order[j]
    {
      if order[k] >= n || order[k] in order[..k] {
        return false;
      }
      assert forall i :: 0 <= i < k ==> order[..k][i] == order[i];
    }
    return true;
  }

  // ---------- Pooled ranges ----------

  /**
   A clause record: its own number, its body and head as ranges of the atom pool, its provenance and its join
   order.
   */
  datatype ClauseRecord = ClauseRecord(
    id: nat, bodyFirst: nat, bodyCount: nat, headFirst: nat, headCount: nat, provenance: seq<nat>, joinOrder: seq<nat>)

  predicate ProvenanceOk(ids: seq<nat>, count: nat) {
    ids != [] && Rising(ids) && forall k :: 0 <= k < |ids| ==> ids[k] < count
  }

  /** Body and head of all clauses, one clause after another. */
  ghost function ClauseAtoms(clauses: seq<Clause>): seq<Atom> {
    if clauses == [] then [] else clauses[0].body + clauses[0].head + ClauseAtoms(clauses[1..])
  }

  /** The record that describes a clause whose atoms start at `first` in the pool. */
  ghost predicate Describes(r: ClauseRecord, c: Clause, n: nat, first: nat) {
    && r.id == n && c.id == n
    && r.bodyFirst == first && r.bodyCount == |c.body| && r.headFirst == first + |c.body| && r.headCount == |c.head|
    && r.provenance == c.provenance && r.joinOrder == c.joinOrder
  }

  ghost predicate ClauseOk(c: Clause, provenanceCount: nat) {
    (c.body != [] || c.head != []) && ProvenanceOk(c.provenance, provenanceCount) && Permutes(c.joinOrder, |c.body|)
  }

  /** The records from number `n` on describe these clauses, laid out from `first` on. */
  ghost predicate LaysOut(records: seq<ClauseRecord>, clauses: seq<Clause>, n: nat, first: nat, provenanceCount: nat) {
    && |records| == |clauses|
    && (records != [] ==>
      && Describes(records[0], clauses[0], n, first) && ClauseOk(clauses[0], provenanceCount)
      && LaysOut(records[1..], clauses[1..], n + 1, first + |clauses[0].body| + |clauses[0].head|, provenanceCount))
  }

  ghost predicate Decodes(records: seq<ClauseRecord>, atoms: seq<Atom>, provenanceCount: nat, clauses: seq<Clause>) {
    LaysOut(records, clauses, 0, 0, provenanceCount) && ClauseAtoms(clauses) == atoms
  }

  lemma {:induction false} ClauseAtomsAppend(a: seq<Clause>, c: Clause)
    ensures ClauseAtoms(a + [c]) == ClauseAtoms(a) + (c.body + c.head)
  {
    if a == [] {
      assert [c][1..] == [] && (c.body + c.head) + [] == c.body + c.head;
      assert a + [c] == [c];
    } else {
      ClauseAtomsAppend(a[1..], c);
      assert (a + [c])[1..] == a[1..] + [c];
      AppendAssociative(a[0].body + a[0].head, ClauseAtoms(a[1..]), c.body + c.head);
    }
  }

  lemma {:induction false} LaysOutAppend(
    records: seq<ClauseRecord>, clauses: seq<Clause>, n: nat, first: nat, provenanceCount: nat, r: ClauseRecord,
      c: Clause)
    requires LaysOut(records, clauses, n, first, provenanceCount)
    requires Describes(r, c, n + |records|, first + |ClauseAtoms(clauses)|) && ClauseOk(c, provenanceCount)
    ensures LaysOut(records + [r], clauses + [c], n, first, provenanceCount)
    decreases |records|
  {
    var rs, cs := records + [r], clauses + [c];
    if records == [] {
      assert rs[1..] == [] && cs[1..] == [];
    } else {
      LaysOutAppend(records[1..], clauses[1..], n + 1, first + |clauses[0].body| + |clauses[0].head|, provenanceCount,
        r, c);
      assert rs[1..] == records[1..] + [r] && cs[1..] == clauses[1..] + [c];
    }
  }

  /** At most one list of clauses has these records and this pool, and its atoms are a prefix of it. */
  lemma {:induction false} LayoutUnique(
    records: seq<ClauseRecord>, a: seq<Clause>, b: seq<Clause>, n: nat, first: nat, provenanceCount: nat)
    requires LaysOut(records, a, n, first, provenanceCount) && LaysOut(records, b, n, first, provenanceCount)
    requires ClauseAtoms(a) == ClauseAtoms(b)
    ensures a == b
    decreases |records|
  {
    if records != [] {
      var atoms, body, size := ClauseAtoms(a), |a[0].body|, |a[0].body| + |a[0].head|;
      assert atoms[..body] == a[0].body && atoms[..body] == b[0].body;
      assert atoms[body..size] == a[0].head && atoms[body..size] == b[0].head;
      assert atoms[size..] == ClauseAtoms(a[1..]) && atoms[size..] == ClauseAtoms(b[1..]);
      LayoutUnique(records[1..], a[1..], b[1..], n + 1, first + size, provenanceCount);
      assert a == [a[0]] + a[1..] && b == [b[0]] + b[1..];
    }
  }

  /** What the decoder checks of the records from number `n` on, when the next unclaimed atom is `first`. */
  ghost predicate Fits(records: seq<ClauseRecord>, atoms: nat, n: nat, first: nat, provenanceCount: nat) {
    if records == [] then first == atoms
    else
      var r := records[0];
      && r.id == n && r.bodyFirst == first && r.headFirst == first + r.bodyCount &&
         (r.bodyCount != 0 || r.headCount != 0)
      && r.headFirst + r.headCount <= atoms
      && ProvenanceOk(r.provenance, provenanceCount) && Permutes(r.joinOrder, r.bodyCount)
      && Fits(records[1..], atoms, n + 1, r.headFirst + r.headCount, provenanceCount)
  }

  /** A layout passes the checks. */
  lemma {:induction false} LayoutFits(
    records: seq<ClauseRecord>, clauses: seq<Clause>, atoms: nat, n: nat, first: nat, provenanceCount: nat)
    requires LaysOut(records, clauses, n, first, provenanceCount) && first + |ClauseAtoms(clauses)| == atoms
    ensures Fits(records, atoms, n, first, provenanceCount)
    decreases |records|
  {
    hide Permutes, ProvenanceOk;
    if records != [] {
      LayoutFits(records[1..], clauses[1..], atoms, n + 1, first + |clauses[0].body| + |clauses[0].head|,
        provenanceCount);
    }
  }

  /**
   Decodes the clauses. It accepts exactly the records that lay some clauses out over the whole atom
   pool, and returns those clauses: their bodies and heads together are the pool again.
   */
  method DecodeClauses(
    records: seq<ClauseRecord>, atoms: seq<Atom>, provenanceCount: nat)
    returns (r: Wire<seq<Clause>>)
    requires |atoms| < U32_LIMIT
    ensures r.Ok? ==> Decodes(records, atoms, provenanceCount, r.value)
    ensures r.WireError? ==> forall clauses :: !Decodes(records, atoms, provenanceCount, clauses)
  {
    hide LaysOut, Permutes, ProvenanceOk, ClauseAtoms;
    var fits, clauses := DecodeFitting(records, atoms, provenanceCount);
    if fits {
      assert atoms[..|atoms|] == atoms;
      return Ok(clauses);
    }
    forall cs ensures !Decodes(records, atoms, provenanceCount, cs) {
      if Decodes(records, atoms, provenanceCount, cs) { LayoutFits(records, cs, |atoms|, 0, 0, provenanceCount); }
    }
    return WireError;
  }

  method DecodeFitting(
    records: seq<ClauseRecord>, atoms: seq<Atom>, provenanceCount: nat)
    returns (fits: bool, clauses: seq<Clause>)
    requires |atoms| < U32_LIMIT
    ensures fits <==> Fits(records, |atoms|, 0, 0, provenanceCount)
    ensures fits ==> Decodes(records, atoms, provenanceCount, clauses)
  {
    hide LaysOut, Permutes, ProvenanceOk, ClauseAtoms, Rising;
    clauses := [];
    var expected: nat := 0;
    NothingLaidOut(provenanceCount);
    assert records[0..] == records && records[..0] == [] && atoms[..0] == [];
    for n := 0 to |records|
      invariant expected <= |atoms| && ClauseAtoms(clauses) == atoms[..expected]
      invariant Fits(records, |atoms|, 0, 0, provenanceCount) <==>
        Fits(records[n..], |atoms|, n, expected, provenanceCount)
      invariant LaysOut(records[..n], clauses, 0, 0, provenanceCount)
    {
      var r := records[n];
      assert records[n..][0] == r && records[n..][1..] == records[n + 1..];
      var permutes := SortedJoinCheck(r.joinOrder, r.bodyCount);
      if r.id != n || r.bodyFirst != expected || r.headFirst != r.bodyFirst + r.bodyCount ||
        (r.bodyCount == 0 && r.headCount == 0)
         || r.headFirst + r.headCount > |atoms| || !ProvenanceOk(r.provenance, provenanceCount) || !permutes {
        return false, [];
      }
      var end := r.headFirst + r.headCount;
      var c := Clause(n, atoms[expected..r.headFirst], atoms[r.headFirst..end], r.provenance, r.joinOrder);
      ClauseAtomsAppend(clauses, c);
      PoolGrows(atoms, expected, r.headFirst, end);
      LaysOutAppend(records[..n], clauses, 0, 0, provenanceCount, r, c);
      assert records[..n + 1] == records[..n] + [r];
      clauses, expected := clauses + [c], end;
    }
    assert records[|records|..] == [] && records[..|records|] == records;
    fits := expected == |atoms|;
    if fits { assert atoms[..expected] == atoms; }
  }

  lemma NothingLaidOut(provenanceCount: nat)
    ensures LaysOut([], [], 0, 0, provenanceCount) && ClauseAtoms([]) == []
  {
  }

  lemma PoolGrows<T>(pool: seq<T>, a: nat, b: nat, c: nat)
    requires a <= b <= c <= |pool|
    ensures pool[..a] + (pool[a..b] + pool[b..c]) == pool[..c]
  {
  }

  // ---------- Facts and disjunctions ----------

  datatype DisjunctionRecord = DisjunctionRecord(id: nat, first: nat, count: nat, provenance: seq<nat>)

  ghost function DisjunctFacts(ds: seq<Disjunction>): seq<Fact> {
    if ds == [] then [] else DisjunctFacts(ds[..|ds| - 1]) + ds[|ds| - 1].disjuncts
  }

  ghost predicate DisjunctionOk(d: Disjunction, n: nat, provenanceCount: nat) {
    && d.id == n && |d.disjuncts| >= 2 && ProvenanceOk(d.provenance, provenanceCount)
    && forall k :: 0 <= k < |d.disjuncts| ==> d.disjuncts[k].provenance == d.provenance
  }

  /** Records for the disjunctions that follow `first` ground atoms of the pool. */
  ghost predicate DisjunctionsFit(
    records: seq<DisjunctionRecord>, ground: seq<Fact>, n: nat, first: nat, provenanceCount: nat)
  {
    if records == [] then first == |ground|
    else
      var r := records[0];
      && r.id == n && r.first == first && r.count >= 2 && first + r.count <= |ground|
      && ProvenanceOk(r.provenance, provenanceCount)
      && (forall k :: first <= k < first + r.count ==> ground[k].provenance == r.provenance)
      && DisjunctionsFit(records[1..], ground, n + 1, first + r.count, provenanceCount)
  }

  /**
   Disjunctions from the ground atoms that follow the first `start`; together their disjuncts are those atoms
   again.
   */
  method DecodeDisjunctions(ground: seq<Fact>, records: seq<DisjunctionRecord>, start: nat, provenanceCount: nat)
    returns (r: Wire<seq<Disjunction>>)
    requires start <= |ground| < U32_LIMIT
    ensures r.Ok? <==> DisjunctionsFit(records, ground, 0, start, provenanceCount)
    ensures r.Ok? ==> |r.value| == |records| && DisjunctFacts(r.value) == ground[start..]
    ensures r.Ok? ==> forall n :: 0 <= n < |records| ==>
      DisjunctionOk(r.value[n], n, provenanceCount) && |r.value[n].disjuncts| == records[n].count
  {
    hide ProvenanceOk;
    var ds: seq<Disjunction> := [];
    var expected: nat := start;
    assert records[0..] == records;
    for n := 0 to |records|
      invariant |ds| == n && start <= expected <= |ground| && DisjunctFacts(ds) == ground[start..expected]
      invariant DisjunctionsFit(records, ground, 0, start, provenanceCount) <==>
        DisjunctionsFit(records[n..], ground, n, expected, provenanceCount)
      invariant forall k :: 0 <= k < n ==>
        DisjunctionOk(ds[k], k, provenanceCount) && |ds[k].disjuncts| == records[k].count
    {
      var d := records[n];
      assert records[n..][0] == d && records[n..][1..] == records[n + 1..];
      if d.id != n || d.first != expected || d.count < 2 || expected + d.count > |ground| ||
          !ProvenanceOk(d.provenance, provenanceCount) {
        return WireError;
      }
      var end := expected + d.count;
      if exists k :: expected <= k < end && ground[k].provenance != d.provenance {
        return WireError;
      }
      var disjunction := Disjunction(n, ground[expected..end], d.provenance);
      assert (ds + [disjunction])[..|ds|] == ds;
      assert ground[start..expected] + ground[expected..end] == ground[start..end];
      ds, expected := ds + [disjunction], end;
    }
    assert records[|records|..] == [];
    return if expected == |ground| then Ok(ds) else WireError;
  }

  /** The facts and disjunctions that the pool and the records say, which together are the pool again. */
  ghost predicate FactsDecode(
    ground: seq<Fact>, positiveFirst: nat, positiveCount: nat, negativeFirst: nat, negativeCount: nat,
    records: seq<DisjunctionRecord>, provenanceCount: nat, value: (seq<Fact>, seq<Fact>, seq<Disjunction>))
  {
    && positiveFirst == 0 && negativeFirst == positiveCount && positiveCount + negativeCount <= |ground|
    && DisjunctionsFit(records, ground, 0, positiveCount + negativeCount, provenanceCount)
    && |value.0| == positiveCount && |value.1| == negativeCount && |value.2| == |records|
    && value.0 + value.1 + DisjunctFacts(value.2) == ground
    && forall n :: 0 <= n < |records| ==>
      DisjunctionOk(value.2[n], n, provenanceCount) && |value.2[n].disjuncts| == records[n].count
  }

  /**
   Splits the ground atoms into positive facts, negative facts and disjunctions, which together are the pool
   again.
   */
  method DecodeFacts(
    ground: seq<Fact>, positiveFirst: nat, positiveCount: nat, negativeFirst: nat, negativeCount: nat,
      records: seq<DisjunctionRecord>,
    provenanceCount: nat)
    returns (r: Wire<(seq<Fact>, seq<Fact>, seq<Disjunction>)>)
    requires |ground| < U32_LIMIT
    ensures r.Ok? <==>
      && positiveFirst == 0 && negativeFirst == positiveCount && positiveCount + negativeCount <= |ground|
      && DisjunctionsFit(records, ground, 0, positiveCount + negativeCount, provenanceCount)
    ensures r.Ok? ==> FactsDecode(ground, positiveFirst, positiveCount, negativeFirst, negativeCount, records,
      provenanceCount, r.value)
  {
    hide DisjunctionsFit, DisjunctionOk, DisjunctFacts;
    if positiveFirst != 0 || negativeFirst != positiveCount || positiveCount + negativeCount > |ground| {
      return WireError;
    }
    var start := positiveCount + negativeCount;
    var positive, negative := ground[..positiveCount], ground[positiveCount..start];
    var ds :- DecodeDisjunctions(ground, records, start, provenanceCount);
    assert positive + negative + ground[start..] == ground;
    return Ok((positive, negative, ds));
  }
}
