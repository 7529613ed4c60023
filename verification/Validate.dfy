/** The whole validator: layout passes, graph search and canonical order. */
module Validate {
  import opened Bytes
  import Utf8
  import opened Structure
  import opened Rows
  import opened Outcome
  import Traversal
  import Comparator

  // ---------- Offsets ----------

  method ValidateOffsets(rows: Rows, ledger: Ledger, startWork: nat, maxWork: nat) returns (r: Outcome<nat>)
    requires |rows.offsets| == |rows.tags| + 1
    ensures r.Ok? ==> OffsetsOk(rows, ledger) && r.value == startWork + |rows.tags|
    ensures r.Err? ==>
      (r.error == ResourceLimit && Over(startWork + |rows.tags|, maxWork)) ||
      (r.error == Malformed && !OffsetsOk(rows, ledger))
  {
    if rows.offsets[0] != 0 {
      return Err(Malformed);
    }
    var work: nat, n: nat := startWork, 0;
    while n < |rows.tags|
      invariant 0 <= n <= |rows.tags| && work == startWork + n
      invariant rows.offsets[n] <= |rows.fields|
      invariant forall m :: 0 <= m < n ==> OffsetOk(rows, ledger, m)
    {
      work :- ClaimWork(work, 1, maxWork);
      var start, end := rows.offsets[n], rows.offsets[n + 1];
      if end < start || end > |rows.fields| || rows.tags[n] !in ledger || end - start != |ledger[rows.tags[n]]| {
        assert !OffsetOk(rows, ledger, n);
        return Err(Malformed);
      }
      n := n + 1;
    }
    if rows.offsets[n] != |rows.fields| {
      return Err(Malformed);
    }
    return Ok(work);
  }

  // ---------- Components ----------

  /** Bytes a component's content check scans. */
  function ScannedBytes(f: Component): nat {
    if f.kind == TEXT || f.kind == ENUM then f.length else 0
  }

  datatype Leaf = Leaf(scalarCursor: nat, work: nat)

  method IsAscii(content: seq<byte>) returns (ok: bool)
    ensures ok <==> forall i :: 0 <= i < |content| ==> content[i] < 128
  {
    var i := 0;
    while i < |content|
      invariant 0 <= i <= |content| && forall j :: 0 <= j < i ==> content[j] < 128
    {
      if content[i] >= 128 { return false; }
      i := i + 1;
    }
    return true;
  }

  /** The content rule of a scalar kind. */
  method ValidateContent(scalars: seq<byte>, kind: byte, start: nat, end: nat) returns (ok: bool)
    requires start <= end <= |scalars| && IsScalar(kind)
    ensures ok <==> ContentOk(kind, scalars[start..end])
  {
    if kind == TEXT {
      ok := Utf8.ValidateUtf8(scalars, start, end);
    } else if kind == INTEGER {
      ok := !(start == end || (end - start > 1 && scalars[end - 1] == 0));
    } else if kind == ENUM {
      if start == end { return false; }
      ok := IsAscii(scalars[start..end]);
    } else {
      ok := true;
    }
  }

  method ValidateLeaf(
    rows: Rows, f: Component, scalarCursor: nat, startWork: nat, maxWork: nat)
    returns (r: Outcome<Leaf>)
    ensures r.Ok? ==>
      LeafOk(rows, f, scalarCursor) && r.value.scalarCursor == scalarCursor + ScalarCount(f) &&
      r.value.work == startWork + ScannedBytes(f)
    ensures r.Err? ==> r.error == ResourceLimit || (r.error == Malformed && !LeafOk(rows, f, scalarCursor))
    ensures r == Err(ResourceLimit) && LeafOk(rows, f, scalarCursor) ==>
      Over(startWork + ScannedBytes(f), maxWork) || Huge(rows)
  {
    if f.kind == NONE {
      if f.value != 0 || f.length != 0 { return Err(Malformed); }
      return Ok(Leaf(scalarCursor, startWork));
    } else if f.kind == NODE {
      if f.length != 0 || f.value >= U32_LIMIT || f.value == 0 || f.value > |rows.tags| { return Err(Malformed); }
      return Ok(Leaf(scalarCursor, startWork));
    } else if IsScalar(f.kind) {
      if f.value != scalarCursor { return Err(Malformed); }
      var end := f.value + f.length;
      if end >= U64_LIMIT { return Err(ResourceLimit); }
      if end > |rows.scalars| { return Err(Malformed); }
      var work :- ClaimWork(startWork, ScannedBytes(f), maxWork);
      var ok := ValidateContent(rows.scalars, f.kind, f.value, end);
      if !ok { return Err(Malformed); }
      return Ok(Leaf(end, work));
    } else {
      return Err(Malformed);
    }
  }

  /** Items of a collection: node components of the right role, strictly ascending in a set. */
  method ValidateItems(
    rows: Rows, role: NodeRole, kind: byte, first: nat, end: nat, startWork: nat, maxWork: nat)
    returns (r: Outcome<nat>)
    requires |rows.tags| < |rows.offsets| && first <= end <= |rows.items|
    ensures r.Ok? ==> ItemsOk(rows, role, kind, first, end) && r.value == startWork + (end - first)
    ensures r.Err? ==> r.error == ResourceLimit || (r.error == Malformed && !ItemsOk(rows, role, kind, first, end))
    ensures r == Err(ResourceLimit) && ItemsOk(rows, role, kind, first, end) ==>
      Over(startWork + (end - first), maxWork)
  {
    hide NodeRoleAccepts;
    var work: nat, i: nat := startWork, first;
    while i < end
      invariant first <= i <= end && work == startWork + (i - first)
      invariant ItemsOk(rows, role, kind, first, i)
    {
      work :- ClaimWork(work, 1, maxWork);
      var item := rows.items[i];
      var verdict := ItemRoleVerdict(rows, role, item);
      if verdict == Exhausted {
        assert !ItemOk(rows, role, i);
        return Err(ResourceLimit);
      }
      if verdict == Refuse || (kind == SET && i > first && rows.items[i - 1].value >= item.value) || item.length != 0 {
        assert !ItemOk(rows, role, i) || !(kind == SET ==> rows.items[i - 1].value < rows.items[i].value);
        return Err(Malformed);
      }
      i := i + 1;
    }
    return Ok(work);
  }

  ghost predicate ItemsOk(rows: Rows, role: NodeRole, kind: byte, first: nat, end: nat)
    requires |rows.tags| < |rows.offsets| && first <= end <= |rows.items|
  {
    && (forall i :: first <= i < end ==> ItemOk(rows, role, i))
    && (kind == SET ==> forall i, j :: first <= i < j < end ==> rows.items[i].value < rows.items[j].value)
  }

  datatype Placement = Placement(itemCursor: nat, scalarCursor: nat, work: nat)

  method ValidateCollection(
    rows: Rows, role: NodeRole, kind: byte, k: nat, itemCursor: nat, startWork: nat, maxWork: nat)
    returns (r: Outcome<nat>)
    requires |rows.tags| < |rows.offsets| && k < |rows.fields| && itemCursor == ItemStart(rows.fields, k)
    ensures r.Ok? ==> CollectionOk(rows, role, kind, k) && r.value == startWork + rows.fields[k].length
    ensures r.Err? ==> r.error == ResourceLimit || (r.error == Malformed && !CollectionOk(rows, role, kind, k))
    ensures r == Err(ResourceLimit) && CollectionOk(rows, role, kind, k) ==>
      Over(startWork + rows.fields[k].length, maxWork) || Huge(rows)
  {
    hide ItemOk;
    var f := rows.fields[k];
    if f.kind != kind || f.value != itemCursor { return Err(Malformed); }
    var end := f.value + f.length;
    if end >= U64_LIMIT { return Err(ResourceLimit); }
    if end > |rows.items| { return Err(Malformed); }
    r := ValidateItems(rows, role, kind, f.value, end, startWork, maxWork);
  }

  /** One field against its role. */
  method ValidateField(
    rows: Rows, role: FieldRole, k: nat, itemCursor: nat, scalarCursor: nat, startWork: nat, maxWork: nat)
    returns (r: Outcome<Placement>)
    requires |rows.tags| < |rows.offsets| && k < |rows.fields|
    requires itemCursor == ItemStart(rows.fields, k) && scalarCursor == ScalarStart(rows.fields, k)
    ensures r.Ok? ==>
      && FieldOk(rows, role, k)
      && r.value.itemCursor == ItemStart(rows.fields, k + 1) && r.value.scalarCursor == ScalarStart(rows.fields, k + 1)
      && r.value.work == startWork + 1 + ItemCount(rows.fields[k]) + ScannedBytes(rows.fields[k])
    ensures r.Err? ==> r.error == ResourceLimit || (r.error == Malformed && !FieldOk(rows, role, k))
    ensures r == Err(ResourceLimit) && FieldOk(rows, role, k) ==>
      Over(startWork + 1 + ItemCount(rows.fields[k]) + ScannedBytes(rows.fields[k]), maxWork) || Huge(rows)
  {
    hide CollectionOk, NodeRoleAccepts, EntityKindScalar, ContentOk;
    var work :- ClaimWork(startWork, 1, maxWork);
    var f := rows.fields[k];
    if role.SetRole? || role.SequenceRole? {
      var kind := if role.SetRole? then SET else SEQUENCE;
      if CollectionOk(rows, role.role, kind, k) { CollectionKind(rows, role.role, kind, k); }
      work :- ValidateCollection(rows, role.role, kind, k, itemCursor, work, maxWork);
      return Ok(Placement(itemCursor + f.length, scalarCursor, work));
    }
    var verdict := FieldRoleVerdict(rows, role, f);
    if verdict == Exhausted { return Err(ResourceLimit); }
    if verdict == Refuse { return Err(Malformed); }
    var leaf :- ValidateLeaf(rows, f, scalarCursor, work, maxWork);
    return Ok(Placement(itemCursor, leaf.scalarCursor, leaf.work));
  }

  lemma CollectionKind(rows: Rows, role: NodeRole, kind: byte, k: nat)
    requires |rows.tags| < |rows.offsets| && k < |rows.fields| && CollectionOk(rows, role, kind, k)
    ensures rows.fields[k].kind == kind
  {
  }

  // ---------- The layout passes ----------

  /** Bytes scanned in the first `k` fields. */
  ghost function Scanned(fields: seq<Component>, k: nat): nat
    requires k <= |fields|
  {
    if k == 0 then 0 else Scanned(fields, k - 1) + ScannedBytes(fields[k - 1])
  }

  /** Cursors and work after the first `k` fields. */
  ghost predicate At(rows: Rows, k: nat, p: Placement, base: nat) {
    && k <= |rows.fields|
    && p.itemCursor == ItemStart(rows.fields, k)
    && p.scalarCursor == ScalarStart(rows.fields, k)
    && p.work == base + k + ItemStart(rows.fields, k) + Scanned(rows.fields, k)
  }

  lemma AtNext(rows: Rows, k: nat, p: Placement, q: Placement, base: nat)
    requires k < |rows.fields| && At(rows, k, p, base)
    requires q.itemCursor == ItemStart(rows.fields, k + 1) && q.scalarCursor == ScalarStart(rows.fields, k + 1)
    requires q.work == p.work + 1 + ItemCount(rows.fields[k]) + ScannedBytes(rows.fields[k])
    ensures At(rows, k + 1, q, base)
  {
  }

  /** The fields of one node, role by role. */
  method ValidateNodeFields(
    rows: Rows, ledger: Ledger, n: nat, p0: Placement, maxWork: nat, ghost base: nat)
    returns (r: Outcome<Placement>)
    requires OffsetsOk(rows, ledger) && n < |rows.tags| && At(rows, rows.offsets[n], p0, base)
    ensures r.Ok? ==> NodeFieldsOk(rows, ledger, n) && At(rows, rows.offsets[n + 1], r.value, base)
    ensures r.Err? ==> r.error == ResourceLimit || (r.error == Malformed && !NodeFieldsOk(rows, ledger, n))
    ensures r == Err(ResourceLimit) && NodeFieldsOk(rows, ledger, n) ==>
      Over(base + FieldWork(rows), maxWork) || Huge(rows)
  {
    hide FieldOk, ItemStart, ScalarStart, Scanned, At, FieldWork, Huge, ItemCount, ScannedBytes;
    assert OffsetOk(rows, ledger, n);
    var roles, start := ledger[rows.tags[n]], rows.offsets[n];
    var p, position := p0, 0;
    while position < |roles|
      invariant 0 <= position <= |roles| && At(rows, start + position, p, base)
      invariant forall k :: 0 <= k < position ==> FieldOk(rows, roles[k], start + k)
    {
      AtCursors(rows, start + position, p, base);
      FieldWorkCovers(rows, start + position, p, base);
      var q :- ValidateField(rows, roles[position], start + position, p.itemCursor, p.scalarCursor, p.work, maxWork);
      AtNext(rows, start + position, p, q, base);
      p, position := q, position + 1;
    }
    return Ok(p);
  }

  /** Fields, their items and the bytes scanned: the work of the field pass. */
  ghost function FieldWork(rows: Rows): nat {
    |rows.fields| + ItemStart(rows.fields, |rows.fields|) + Scanned(rows.fields, |rows.fields|)
  }

  lemma {:induction false} WorkRises(fields: seq<Component>, a: nat, b: nat)
    requires a <= b <= |fields|
    ensures ItemStart(fields, a) <= ItemStart(fields, b) && Scanned(fields, a) <= Scanned(fields, b)
    decreases b
  {
    if a < b { WorkRises(fields, a, b - 1); }
  }

  lemma FieldWorkCovers(rows: Rows, k: nat, p: Placement, base: nat)
    requires At(rows, k, p, base) && k < |rows.fields|
    ensures p.work + 1 + ItemCount(rows.fields[k]) + ScannedBytes(rows.fields[k]) <= base + FieldWork(rows)
  {
    WorkRises(rows.fields, k + 1, |rows.fields|);
  }

  lemma AtCursors(rows: Rows, k: nat, p: Placement, base: nat)
    requires At(rows, k, p, base)
    ensures k <= |rows.fields| && p.itemCursor == ItemStart(rows.fields, k) &&
      p.scalarCursor == ScalarStart(rows.fields, k)
  {
  }

  /** Every field of every node, covering the item and scalar arenas exactly. */
  method ValidateFields(rows: Rows, ledger: Ledger, startWork: nat, maxWork: nat) returns (r: Outcome<nat>)
    requires OffsetsOk(rows, ledger)
    ensures r.Ok? ==>
      FieldsOk(rows, ledger) && r.value == startWork + |rows.fields| + |rows.items| +
      Scanned(rows.fields, |rows.fields|)
    ensures r.Err? ==> r.error == ResourceLimit || (r.error == Malformed && !FieldsOk(rows, ledger))
    ensures r == Err(ResourceLimit) && FieldsOk(rows, ledger) ==>
      Over(startWork + |rows.fields| + |rows.items| + Scanned(rows.fields, |rows.fields|), maxWork) || Huge(rows)
  {
    hide NodeFieldsOk, OffsetOk;
    var p, n := Placement(0, 0, startWork), 0;
    while n < |rows.tags|
      invariant 0 <= n <= |rows.tags| && At(rows, rows.offsets[n], p, startWork)
      invariant forall m :: 0 <= m < n ==> NodeFieldsOk(rows, ledger, m)
    {
      p :- ValidateNodeFields(rows, ledger, n, p, maxWork, startWork);
      n := n + 1;
    }
    if p.itemCursor != |rows.items| || p.scalarCursor != |rows.scalars| {
      return Err(Malformed);
    }
    return Ok(p.work);
  }

  /** Roots: known nodes of a fitting constructor, strictly ascending by kind and ID. */
  method ValidateRoots(rows: Rows, startWork: nat, maxWork: nat) returns (r: Outcome<nat>)
    requires |rows.rootIds| == |rows.rootKinds|
    ensures r.Ok? ==> RootsOk(rows) && r.value == startWork + |rows.rootIds|
    ensures r.Err? ==>
      (r.error == ResourceLimit && Over(startWork + |rows.rootIds|, maxWork)) ||
      (r.error == Malformed && !RootsOk(rows))
  {
    hide RootAccepts;
    var work: nat, root: nat := startWork, 0;
    while root < |rows.rootIds|
      invariant 0 <= root <= |rows.rootIds| && work == startWork + root
      invariant forall i :: 0 <= i < root ==> RootOk(rows, i)
      invariant forall i, j :: 0 <= i < j < root ==> RootBefore(rows, i, j)
    {
      work :- ClaimWork(work, 1, maxWork);
      var kind, identifier := rows.rootKinds[root], rows.rootIds[root];
      if identifier == 0 || identifier > |rows.tags| || !RootAccepts(kind, rows.tags[identifier - 1]) {
        assert !RootOk(rows, root);
        return Err(Malformed);
      }
      if root > 0 && !(rows.rootKinds[root - 1] < kind || (rows.rootKinds[root - 1] == kind &&
          rows.rootIds[root - 1] < identifier)) {
        assert !RootBefore(rows, root - 1, root);
        return Err(Malformed);
      }
      forall i | 0 <= i < root ensures RootBefore(rows, i, root) {
        if i < root - 1 { assert RootBefore(rows, i, root - 1); }
      }
      root := root + 1;
    }
    return Ok(work);
  }

  // ---------- The whole validator ----------

  datatype Limits = Limits(maxRoots: nat, maxNodes: nat, maxFields: nat, maxItems: nat, maxScalarBytes: nat,
    maxWork: nat)

  datatype Validated = Validated(rootCount: nat, nodeCount: nat, fieldCount: nat, itemCount: nat, scalarBytes: nat,
    work: nat)

  /** The graph conditions on conforming rows: acyclic, reachable, and ranked by canonical bytes. */
  ghost predicate Canonical(rows: Rows)
    requires Laid(rows)
  {
    var g := View(rows);
    && Acyclic(g)
    && (forall n :: 0 <= n < |g| ==> Reachable(g, RootNodes(rows), n))
    && Ascending(Ser(g))
  }

  /** What acceptance means. */
  ghost predicate Acceptable(c: Columns, ledger: Ledger) {
    && Shaped(c)
    && Conforms(Read(c), ledger)
    && (ConformsLaid(Read(c), ledger); Canonical(Read(c)))
  }

  /** Work charged before the ordering pass. */
  ghost function LinearWork(rows: Rows): nat {
    1 + 3 * |rows.tags| + 3 * |rows.fields| + 3 * |rows.items| + |rows.rootIds| + Scanned(rows.fields, |rows.fields|)
  }

  lemma ConformingArity(rows: Rows, ledger: Ledger)
    requires Conforms(rows, ledger)
    ensures |rows.offsets| == |rows.tags| + 1 && Comparator.ArityByTag(rows)
  {
    forall m, n | 0 <= m < |rows.tags| && 0 <= n < |rows.tags| && rows.tags[m] == rows.tags[n]
      ensures Comparator.Arity(rows, m) == Comparator.Arity(rows, n)
    {
      assert OffsetOk(rows, ledger, m) && OffsetOk(rows, ledger, n);
    }
  }

  /** Everything before the ordering pass; the work it charges is exactly linear. */
  method ValidateStructure(rows: Rows, ledger: Ledger, maxWork: nat) returns (r: Outcome<Traversal.Searched>)
    requires |rows.offsets| == |rows.tags| + 1 && |rows.rootIds| == |rows.rootKinds|
    ensures r.Ok? ==> Conforms(rows, ledger) && Laid(rows) && Acyclic(View(rows)) && Measures(View(rows), r.value.lens)
    ensures r.Ok? ==> forall n :: 0 <= n < |rows.tags| ==> Reachable(View(rows), RootNodes(rows), n)
    ensures r.Ok? ==> r.value.work == LinearWork(rows)
    ensures r.Err? && r.error != ResourceLimit && Conforms(rows, ledger) ==> Laid(rows) && !Canonical(rows)
    ensures r == Err(ResourceLimit) && Conforms(rows, ledger) ==>
      Laid(rows) && Traversal.OutOfReach(rows, LinearWork(rows), maxWork)
    ensures r.Err? ==> r.error != NotCanonical
  {
    hide OffsetsOk, FieldsOk, RootsOk, Laid, View, Huge, Traversal.TooLong;
    if Conforms(rows, ledger) { ConformsLaid(rows, ledger); }
    var work :- ClaimWork(0, 1, maxWork);
    work :- ValidateOffsets(rows, ledger, work, maxWork);
    work :- ValidateFields(rows, ledger, work, maxWork);
    work :- ValidateRoots(rows, work, maxWork);
    ConformsLaid(rows, ledger);
    r := Traversal.ValidateGraphAndLengths(rows, work, maxWork);
    if r == Err(CyclicGraph) {
      ViewIsValid(rows);
      CyclicNotAcyclic(View(rows));
    }
  }

  lemma ViewIsValid(rows: Rows)
    requires Laid(rows)
    ensures Valid(View(rows)) && |View(rows)| == |rows.tags|
  {
  }

  /** Every length stored for the ordering pass is the length of the canonical bytes. */
  lemma ReadyToCompare(rows: Rows, ledger: Ledger, lens: seq<nat>)
    requires Conforms(rows, ledger) && Laid(rows) && Acyclic(View(rows)) && Measures(View(rows), lens)
    ensures |Ser(View(rows))| == |lens| == |rows.tags| && Comparator.Comparable(rows, Ser(View(rows)), lens)
  {
    ConformingArity(rows, ledger);
    LengthsAreExact(View(rows), lens);
  }

  /**
   Limits that suffice for canonical rows: every count is within its limit, canonical lengths fit 64
   bits, and the work limit covers the linear passes and, for the ordering pass, the canonical bytes
   of every neighbouring pair of rows.
   */
  ghost predicate Affordable(rows: Rows, limits: Limits)
    requires Laid(rows) && Canonical(rows)
  {
    && WithinLimits(rows, limits) && !Huge(rows) && (forall n :: 0 <= n < |rows.tags| ==>
       |Ser(View(rows))[n]| < U64_LIMIT)
    && !Over(LinearWork(rows) + Comparator.OrderCost(Ser(View(rows)), |rows.tags|), limits.maxWork)
  }

  /** Acceptable columns that the limits can pay for. */
  ghost predicate AcceptableWithin(c: Columns, ledger: Ledger, limits: Limits) {
    && Acceptable(c, ledger)
    && (ConformsLaid(Read(c), ledger); Affordable(Read(c), limits))
  }

  lemma AffordableReach(rows: Rows, limits: Limits)
    requires Laid(rows) && Canonical(rows) && Affordable(rows, limits)
    ensures !Traversal.OutOfReach(rows, LinearWork(rows), limits.maxWork)
  {
    var sers := Ser(View(rows));
    var lens := seq(|sers|, n requires 0 <= n < |sers| => |sers[n]|);
    BytesMeasure(View(rows), sers, lens);
    assert !Traversal.TooLong(View(rows));
  }

  predicate WithinLimits(rows: Rows, limits: Limits) {
    && |rows.rootIds| <= limits.maxRoots && |rows.tags| <= limits.maxNodes && |rows.fields| <= limits.maxFields
    && |rows.items| <= limits.maxItems && |rows.scalars| <= limits.maxScalarBytes
  }

  lemma AcceptableIs(c: Columns, ledger: Ledger)
    requires Shaped(c)
    ensures Acceptable(c, ledger) <==> Conforms(Read(c), ledger) && Laid(Read(c)) && Canonical(Read(c))
  {
    if Conforms(Read(c), ledger) { ConformsLaid(Read(c), ledger); }
  }

  lemma WithinIs(c: Columns, ledger: Ledger, limits: Limits)
    requires AcceptableWithin(c, ledger, limits)
    ensures
      var rows := Read(c);
      && Conforms(rows, ledger) && Laid(rows) && Canonical(rows) && WithinLimits(rows, limits) && !Huge(rows)
      && !Traversal.OutOfReach(rows, LinearWork(rows), limits.maxWork)
      && !Over(LinearWork(rows) + Comparator.OrderCost(Ser(View(rows)), |rows.tags|), limits.maxWork)
  {
    hide View, Read, Shaped, Conforms, Laid, Huge, LinearWork, Traversal.OutOfReach, Comparator.OrderCost, Reachable,
      Ascending;
    ConformsLaid(Read(c), ledger);
    AffordableReach(Read(c), limits);
  }

  /**
   Accepts only acceptable columns; refuses acceptable ones only for want of resources, and never when
   the limits suffice.
   */
  method ValidateColumns(c: Columns, ledger: Ledger, limits: Limits) returns (r: Outcome<Validated>)
    ensures r.Ok? ==> Acceptable(c, ledger)
    ensures r.Ok? ==>
      && var rows := Read(c);
      && r.value.rootCount == |rows.rootIds| && r.value.nodeCount == |rows.tags| && r.value.fieldCount == |rows.fields|
      && r.value.itemCount == |rows.items| && r.value.scalarBytes == |rows.scalars|
      && LinearWork(rows) <= r.value.work
    ensures r.Err? && r.error != ResourceLimit ==> !Acceptable(c, ledger)
    ensures AcceptableWithin(c, ledger, limits) ==> r.Ok?
  {
    hide Conforms, Laid, View, Canonical, LinearWork, Acceptable, AcceptableWithin, Traversal.OutOfReach, Huge,
      Comparator.OrderCost, Read, Shaped;
    if !Shaped(c) {
      AcceptableShaped(c, ledger, limits);
      return Err(Malformed);
    }
    var rows := Read(c);
    AcceptableIs(c, ledger);
    if AcceptableWithin(c, ledger, limits) { WithinIs(c, ledger, limits); }
    if !WithinLimits(rows, limits) {
      return Err(ResourceLimit);
    }
    RowsAligned(c);
    var searched :- ValidateStructure(rows, ledger, limits.maxWork);
    ReadyToCompare(rows, ledger, searched.lens);
    var work := Comparator.ValidateDenseNodeOrder(rows, searched.lens, searched.work, limits.maxWork, Ser(View(rows)));
    CanonicalIs(rows);
    if work.Err? {
      return Err(work.error);
    }
    return Ok(Validated(|rows.rootIds|, |rows.tags|, |rows.fields|, |rows.items|, |rows.scalars|, work.value));
  }

  lemma AcceptableShaped(c: Columns, ledger: Ledger, limits: Limits)
    ensures Acceptable(c, ledger) || AcceptableWithin(c, ledger, limits) ==> Shaped(c)
  {
  }

  lemma RowsAligned(c: Columns)
    requires Shaped(c)
    ensures |Read(c).offsets| == |Read(c).tags| + 1 && |Read(c).rootIds| == |Read(c).rootKinds|
  {
  }

  lemma CanonicalIs(rows: Rows)
    requires Laid(rows)
    ensures |View(rows)| == |rows.tags|
    ensures Canonical(rows) <==>
      Acyclic(View(rows)) && (forall n :: 0 <= n < |rows.tags| ==> Reachable(View(rows), RootNodes(rows), n)) &&
        Ascending(Ser(View(rows)))
  {
  }
}
