/** Canonical lengths of nodes, computed from the rows and the lengths of the children. */
module Lengths {
  import opened Bytes
  import opened Varint
  import opened Structure
  import opened Rows
  import opened Outcome

  lemma FieldsLengthFrom(fields: seq<Field>, i: nat, lens: seq<nat>)
    requires Bounded(fields, |lens|) && i < |fields|
    ensures FieldsLength(fields[i..], lens) == FieldLength(fields[i], lens) + FieldsLength(fields[i + 1..], lens)
  {
    assert fields[i..][1..] == fields[i + 1..];
  }

  lemma ItemsLengthFrom(items: seq<nat>, i: nat, marker: nat, lens: seq<nat>)
    requires Within(items, |lens|) && i < |items|
    ensures ItemsLength(items[i..], marker, lens) == marker + FrameLength(lens[items[i]]) +
      ItemsLength(items[i + 1..], marker, lens)
  {
    assert items[i..][1..] == items[i + 1..];
  }

  /** Every child of this field has its length already. */
  ghost predicate Measurable(f: Field, lens: seq<nat>) {
    Within(Refs(f), |lens|) && forall i :: 0 <= i < |Refs(f)| ==> lens[Refs(f)[i]] >= 1
  }

  ghost predicate Known(fields: seq<Field>, lens: seq<nat>) {
    forall k :: 0 <= k < |fields| ==> Measurable(fields[k], lens)
  }

  /** Fields and items of a row: the work one measurement of it costs. */
  ghost function NodeCost(rows: Rows, n: nat): int
    requires n < |rows.tags| < |rows.offsets| && Owns(rows, n)
  {
    (rows.offsets[n + 1] - rows.offsets[n]) +
      (ItemStart(rows.fields, rows.offsets[n + 1]) - ItemStart(rows.fields, rows.offsets[n]))
  }

  /** Size of a framed payload with its marker. */
  function MarkedFrame(payload: nat): (r: Outcome<nat>)
    ensures r.Ok? ==> r.value == 1 + FrameLength(payload)
    ensures r.Err? ==> r.error == ResourceLimit && 1 + FrameLength(payload) >= U64_LIMIT
  {
    var framed :- AddLength(1, VarintWidth(payload));
    AddLength(framed, payload)
  }

  /** Size of a node component. A length of zero would mean the child was not measured yet. */
  function NodeComponentLength(lens: seq<nat>, node: nat): (r: Outcome<nat>)
    requires node < |lens| && lens[node] != 0
    ensures r.Ok? ==> r.value == 1 + FrameLength(lens[node])
    ensures r.Err? ==> r.error == ResourceLimit && 1 + FrameLength(lens[node]) >= U64_LIMIT
  {
    MarkedFrame(lens[node])
  }

  /** Size of an integer component. */
  method IntegerLength(payload: seq<byte>) returns (r: Outcome<nat>)
    requires Minimal(payload)
    ensures r.Ok? ==> r.value == 1 + |Leb(LittleEndian(payload))| == 1 + VarintWidth(LittleEndian(payload))
    ensures r.Err? ==>
      r.error == ResourceLimit && (8 * |payload| >= U64_LIMIT || 1 + VarintWidth(LittleEndian(payload)) >= U64_LIMIT)
  {
    BitLengthBound(payload[|payload| - 1], 8);
    if IntegerBits(payload) >= U64_LIMIT {
      return Err(ResourceLimit);
    }
    IntegerWidthIsLength(payload);
    VarintWidthIsLength(LittleEndian(payload));
    return AddLength(1, IntegerWidth(payload));
  }

  /** Size of a component that is not a collection. */
  method LeafLength(rows: Rows, k: nat, lens: seq<nat>) returns (r: Outcome<nat>)
    requires k < |rows.fields| && Placed(rows, k) && !IsCollection(rows.fields[k].kind)
    requires |lens| == |rows.tags|
    requires rows.fields[k].kind == NODE ==> lens[rows.fields[k].value - 1] >= 1
    ensures r.Ok? ==> r.value == FieldLength(FieldView(rows, k), lens)
    ensures r.Err? ==> r.error == ResourceLimit && (FieldLength(FieldView(rows, k), lens) >= U64_LIMIT || Huge(rows))
  {
    hide LittleEndian, Leb, ItemStart, ScalarStart;
    var f := rows.fields[k];
    if f.kind == NONE {
      return Ok(1);
    } else if f.kind == NODE {
      return NodeComponentLength(lens, f.value - 1);
    } else if f.kind == INTEGER {
      r := IntegerLength(rows.scalars[f.value..f.value + f.length]);
    } else {
      return MarkedFrame(f.length);
    }
  }

  datatype Measured = Measured(length: nat, work: nat)

  /** Adds framed items to a running total; `items` names the rows the item rows refer to. */
  method ItemsInto(
    rows: Rows, kind: byte, first: nat, count: nat, ghost items: seq<nat>, lens: seq<nat>, start: nat, startWork: nat,
    maxWork: nat)
    returns (r: Outcome<Measured>)
    requires first + count <= |rows.items| && |items| == count
    requires forall i :: 0 <= i < count ==> rows.items[first + i].value == items[i] + 1
    requires Within(items, |lens|) && forall i :: 0 <= i < count ==> lens[items[i]] >= 1
    requires start >= 1
    ensures r.Ok? ==> r.value.length == start + ItemsLength(items, if kind == SET then 0 else 1, lens)
    ensures r.Ok? ==> r.value.work == startWork + count
    ensures r.Ok? && startWork <= maxWork ==> r.value.work <= maxWork
    ensures r.Err? ==> r.error == ResourceLimit
    ensures r.Err? ==>
      Over(startWork + count, maxWork) || start + ItemsLength(items, if kind == SET then 0 else 1, lens) >= U64_LIMIT
  {
    ghost var marker := if kind == SET then 0 else 1;
    var total: nat, work: nat := start, startWork;
    var i := 0;
    assert items[0..] == items;
    while i < count
      invariant 0 <= i <= count && total >= 1
      invariant total + ItemsLength(items[i..], marker, lens) == start + ItemsLength(items, marker, lens)
      invariant work == startWork + i
      invariant startWork <= maxWork ==> work <= maxWork
    {
      work :- ClaimWork(work, 1, maxWork);
      assert rows.items[first + i].value == items[i] + 1 && items[i] < |lens|;
      ItemsLengthFrom(items, i, marker, lens);
      var size :- NodeComponentLength(lens, rows.items[first + i].value - 1);
      total :- AddLength(total, if kind == SET then size - 1 else size);
      i := i + 1;
    }
    return Ok(Measured(total, work));
  }

  /** Field row `k` describes `f`, whose children are all measured. */
  ghost predicate Describes(rows: Rows, k: nat, f: Field, lens: seq<nat>) {
    && |lens| == |rows.tags|
    && k < |rows.fields| && Placed(rows, k)
    && f == FieldView(rows, k) && Measurable(f, lens)
  }

  /** Adds field `k` to a running total. */
  method FieldInto(
    rows: Rows, k: nat, ghost view: Field, lens: seq<nat>, start: nat, startWork: nat, maxWork: nat)
    returns (r: Outcome<Measured>)
    requires Describes(rows, k, view, lens)
    ensures r.Ok? ==> r.value.length == start + FieldLength(view, lens)
    ensures r.Ok? ==> r.value.work == startWork + 1 + ItemCount(rows.fields[k])
    ensures r.Ok? ==> r.value.work <= maxWork
    ensures r.Err? ==> r.error == ResourceLimit
    ensures r.Err? ==>
      Over(startWork + 1 + ItemCount(rows.fields[k]), maxWork) || start + FieldLength(view, lens) >= U64_LIMIT ||
      Huge(rows)
  {
    var work :- ClaimWork(startWork, 1, maxWork);
    var f := rows.fields[k];
    if IsCollection(f.kind) {
      var total :- AddLength(start, 1);
      total :- AddLength(total, VarintWidth(f.length));
      r := ItemsInto(rows, f.kind, f.value, f.length, Refs(view), lens, total, work, maxWork);
    } else {
      assert f.kind == NODE ==> Refs(view)[0] == f.value - 1;
      var size :- LeafLength(rows, k, lens);
      var total :- AddLength(start, size);
      return Ok(Measured(total, work));
    }
  }

  /** The rows from `start` on describe these fields, and all their children are measured. */
  ghost predicate Described(rows: Rows, start: nat, fields: seq<Field>, lens: seq<nat>) {
    forall i :: 0 <= i < |fields| ==> Describes(rows, start + i, fields[i], lens)
  }

  method FieldsInto(
    rows: Rows, start: nat, end: nat, ghost fields: seq<Field>, lens: seq<nat>, startTotal: nat, startWork: nat,
    maxWork: nat)
    returns (r: Outcome<Measured>)
    requires start <= end <= |rows.fields| && |fields| == end - start
    requires Bounded(fields, |lens|) && Described(rows, start, fields, lens)
    ensures r.Ok? ==> r.value.length == startTotal + FieldsLength(fields, lens)
    ensures r.Ok? ==>
      r.value.work == startWork + (end - start) + (ItemStart(rows.fields, end) - ItemStart(rows.fields, start))
    ensures r.Ok? && startWork <= maxWork ==> r.value.work <= maxWork
    ensures r.Err? ==> r.error == ResourceLimit
    ensures r.Err? ==>
      || Over(startWork + (end - start) + (ItemStart(rows.fields, end) - ItemStart(rows.fields, start)), maxWork)
      || startTotal + FieldsLength(fields, lens) >= U64_LIMIT || Huge(rows)
  {
    hide Describes, Placed, FieldView, Measurable, FieldLength, ItemCount;
    var total: nat, work: nat := startTotal, startWork;
    var k := start;
    assert fields[0..] == fields;
    while k < end
      invariant start <= k <= end
      invariant total + FieldsLength(fields[k - start..], lens) == startTotal + FieldsLength(fields, lens)
      invariant startWork <= maxWork ==> work <= maxWork
      invariant work == startWork + (k - start) + (ItemStart(rows.fields, k) - ItemStart(rows.fields, start))
    {
      ghost var i := k - start;
      assert Describes(rows, start + i, fields[i], lens);
      FieldsLengthFrom(fields, i, lens);
      ItemStartRises(rows.fields, k + 1, end);
      var measured :- FieldInto(rows, k, fields[i], lens, total, work, maxWork);
      total, work, k := measured.length, measured.work, k + 1;
    }
    return Ok(Measured(total, work));
  }

  lemma {:induction false} ItemStartRises(fields: seq<Component>, a: nat, b: nat)
    requires a <= b <= |fields|
    ensures ItemStart(fields, a) <= ItemStart(fields, b)
    decreases b
  {
    if a < b { ItemStartRises(fields, a, b - 1); }
  }

  /** Length of one node, charging one unit for each of its fields and items. */
  method CanonicalNodeLength(
    rows: Rows, n: nat, lens: seq<nat>, startWork: nat, maxWork: nat)
    returns (r: Outcome<Measured>)
    requires Laid(rows) && n < |rows.tags| && |lens| == |rows.tags|
    requires Known(View(rows)[n].fields, lens)
    ensures Owns(rows, n)
    ensures r.Ok? ==> r.value.length == NodeLength(View(rows)[n], lens)
    ensures r.Ok? ==> r.value.work == startWork + NodeCost(rows, n)
    ensures r.Ok? && startWork <= maxWork ==> r.value.work <= maxWork
    ensures r.Err? ==> r.error == ResourceLimit
    ensures r.Err? ==>
      Over(startWork + NodeCost(rows, n), maxWork) || NodeLength(View(rows)[n], lens) >= U64_LIMIT || Huge(rows)
  {
    assert Owns(rows, n);
    assert View(rows)[n] == NodeView(rows, n);
    r := FieldsInto(rows, rows.offsets[n], rows.offsets[n + 1], NodeView(rows, n).fields, lens,
      VarintWidth(rows.tags[n]), startWork, maxWork);
  }
}
