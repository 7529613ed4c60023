/**
 Comparison of two nodes by a stack of pending comparisons. The canonical bytes of the nodes are
 never built; what is pending on the stack always denotes the tails that remain to be compared.
 */
module Comparator {
  import opened Bytes
  import opened Varint
  import opened Structure
  import opened Rows
  import opened Outcome
  import Utf8

  datatype Task =
    | NodeTask(left: nat, right: nat)
    | FieldsTask(left: nat, right: nat, remaining: nat)
    | CollectionTask(kind: byte, left: nat, right: nat, remaining: nat)

  /** Canonical bytes of a component. */
  ghost function ComponentBytes(rows: Rows, sers: seq<seq<byte>>, c: Component): seq<byte>
    requires |sers| == |rows.tags| && ComponentOk(rows, c)
  {
    FieldBytes(ComponentView(rows, c), sers)
  }

  /** Canonical bytes of `count` field rows from row `k` on. */
  ghost function FieldRowsBytes(rows: Rows, sers: seq<seq<byte>>, k: nat, count: nat): seq<byte>
    requires |sers| == |rows.tags| && FieldRowsOk(rows, k, count)
    decreases count
  {
    if count == 0 then [] else
    assert ComponentOk(rows, rows.fields[k]);
    ComponentBytes(rows, sers, rows.fields[k]) + FieldRowsBytes(rows, sers, k + 1, count - 1)
  }

  ghost predicate FieldRowsOk(rows: Rows, k: nat, count: nat) {
    k + count <= |rows.fields| && forall i :: k <= i < k + count ==> ComponentOk(rows, rows.fields[i])
  }

  ghost predicate ItemRowsOk(rows: Rows, i: nat, count: nat) {
    i + count <= |rows.items| && forall j :: i <= j < i + count ==>
      rows.items[j].kind == NODE && 1 <= rows.items[j].value <= |rows.tags|
  }

  /** One collection item: a bare frame in a set, a whole node component in a sequence. */
  ghost function ItemBytes(rows: Rows, sers: seq<seq<byte>>, kind: byte, i: nat): seq<byte>
    requires |sers| == |rows.tags| && i < |rows.items| && 1 <= rows.items[i].value <= |rows.tags|
  {
    (if kind == SET then [] else [NODE]) + Frame(sers[rows.items[i].value - 1])
  }

  ghost function ItemRowsBytes(rows: Rows, sers: seq<seq<byte>>, kind: byte, i: nat, count: nat): seq<byte>
    requires |sers| == |rows.tags| && ItemRowsOk(rows, i, count)
    decreases count
  {
    if count == 0 then [] else ItemBytes(rows, sers, kind, i) + ItemRowsBytes(rows, sers, kind, i + 1, count - 1)
  }

  ghost predicate TaskOk(rows: Rows, t: Task) {
    match t
    case NodeTask(left, right) => left < |rows.tags| && right < |rows.tags|
    case FieldsTask(left, right, remaining) => FieldRowsOk(rows, left, remaining) && FieldRowsOk(rows, right, remaining)
    case CollectionTask(kind, left, right, remaining) =>
      ItemRowsOk(rows, left, remaining) && ItemRowsOk(rows, right, remaining)
  }

  ghost function LeftBytes(rows: Rows, sers: seq<seq<byte>>, t: Task): seq<byte>
    requires |sers| == |rows.tags| && TaskOk(rows, t)
  {
    match t
    case NodeTask(left, _) => sers[left]
    case FieldsTask(left, _, remaining) => FieldRowsBytes(rows, sers, left, remaining)
    case CollectionTask(kind, left, _, remaining) => ItemRowsBytes(rows, sers, kind, left, remaining)
  }

  ghost function RightBytes(rows: Rows, sers: seq<seq<byte>>, t: Task): seq<byte>
    requires |sers| == |rows.tags| && TaskOk(rows, t)
  {
    match t
    case NodeTask(_, right) => sers[right]
    case FieldsTask(_, right, remaining) => FieldRowsBytes(rows, sers, right, remaining)
    case CollectionTask(kind, _, right, remaining) => ItemRowsBytes(rows, sers, kind, right, remaining)
  }

  ghost predicate TasksOk(rows: Rows, tasks: seq<Task>) {
    forall i :: 0 <= i < |tasks| ==> TaskOk(rows, tasks[i])
  }

  /** What remains of the left string; the last task is on top. */
  ghost function LeftTail(rows: Rows, sers: seq<seq<byte>>, tasks: seq<Task>): seq<byte>
    requires |sers| == |rows.tags| && TasksOk(rows, tasks)
  {
    if tasks == [] then [] else
    LeftBytes(rows, sers, tasks[|tasks| - 1]) + LeftTail(rows, sers, tasks[..|tasks| - 1])
  }

  ghost function RightTail(rows: Rows, sers: seq<seq<byte>>, tasks: seq<Task>): seq<byte>
    requires |sers| == |rows.tags| && TasksOk(rows, tasks)
  {
    if tasks == [] then [] else
    RightBytes(rows, sers, tasks[|tasks| - 1]) + RightTail(rows, sers, tasks[..|tasks| - 1])
  }

  lemma PushTask(rows: Rows, sers: seq<seq<byte>>, tasks: seq<Task>, t: Task)
    requires |sers| == |rows.tags| && TasksOk(rows, tasks) && TaskOk(rows, t)
    ensures TasksOk(rows, tasks + [t])
    ensures LeftTail(rows, sers, tasks + [t]) == LeftBytes(rows, sers, t) + LeftTail(rows, sers, tasks)
    ensures RightTail(rows, sers, tasks + [t]) == RightBytes(rows, sers, t) + RightTail(rows, sers, tasks)
  {
    assert (tasks + [t])[..|tasks|] == tasks;
  }

  // ---------- Scalar ranges ----------

  datatype Compared = Compared(ordering: Ordering, work: nat)

  /** Byte-wise comparison of two scalar ranges of one length. */
  method CompareScalarRanges(
    scalars: seq<byte>, left: nat, right: nat, length: nat, startWork: nat, maxWork: nat)
    returns (r: Outcome<Compared>)
    requires left + length <= |scalars| && right + length <= |scalars|
    ensures r.Ok? ==> r.value.ordering == Lex(scalars[left..left + length], scalars[right..right + length])
    ensures r.Ok? ==> startWork <= r.value.work <= startWork + length
    ensures r.Err? ==> r.error == ResourceLimit && Over(startWork + length, maxWork)
  {
    ghost var a, b := scalars[left..left + length], scalars[right..right + length];
    if left == right {
      LexEqual(a, b);
      return Ok(Compared(Equal, startWork));
    }
    var work :- ClaimWork(startWork, length, maxWork);
    var offset := 0;
    while offset < length
      invariant 0 <= offset <= length
      invariant forall i :: 0 <= i < offset ==> a[i] == b[i]
    {
      var leftByte, rightByte := scalars[left + offset], scalars[right + offset];
      if leftByte != rightByte {
        LexDiffersAt(a, b, offset);
        return Ok(Compared(Compare(leftByte, rightByte), work));
      }
      offset := offset + 1;
    }
    assert a == b;
    LexEqual(a, b);
    return Ok(Compared(Equal, work));
  }

  /** Comparison of two integer payloads, charging the longer code width. */
  method CompareIntegerComponents(
    scalars: seq<byte>, a: Component, b: Component, startWork: nat, maxWork: nat)
    returns (r: Outcome<Compared>)
    requires a.value + a.length <= |scalars| && Minimal(scalars[a.value..a.value + a.length])
    requires b.value + b.length <= |scalars| && Minimal(scalars[b.value..b.value + b.length])
    ensures r.Ok? ==>
      r.value.ordering == Lex(Leb(LittleEndian(scalars[a.value..a.value + a.length])),
      Leb(LittleEndian(scalars[b.value..b.value + b.length])))
    ensures
      var p, q := Leb(LittleEndian(scalars[a.value..a.value + a.length])),
        Leb(LittleEndian(scalars[b.value..b.value + b.length]));
      && (r.Ok? ==> startWork <= r.value.work && (r.value.work <= startWork + |p| || r.value.work <= startWork + |q|))
      && (r.Err? ==> r.error == ResourceLimit && (Over(startWork + |p| + |q|, maxWork) || 8 * |scalars| >= U64_LIMIT))
  {
    hide Leb, LittleEndian;
    var left, right := scalars[a.value..a.value + a.length], scalars[b.value..b.value + b.length];
    IntegerWidthIsLength(left);
    IntegerWidthIsLength(right);
    BitLengthBound(left[|left| - 1], 8);
    BitLengthBound(right[|right| - 1], 8);
    if IntegerBits(left) >= U64_LIMIT || IntegerBits(right) >= U64_LIMIT {
      return Err(ResourceLimit);
    }
    var leftWidth, rightWidth := IntegerWidth(left), IntegerWidth(right);
    var work :- ClaimWork(startWork, if leftWidth < rightWidth then rightWidth else leftWidth, maxWork);
    var ordering := CompareIntegers(left, right);
    return Ok(Compared(ordering, work));
  }

  // ---------- Cutting equal heads off ----------

  lemma FrameHeads(p: seq<byte>, q: seq<byte>, x: seq<byte>, y: seq<byte>)
    ensures |p| != |q| ==> Lex(Leb(|p|), Leb(|q|)) != Equal
    ensures Lex(Frame(p) + x, Frame(q) + y) == if |p| != |q| then Lex(Leb(|p|), Leb(|q|)) else Lex(p + x, q + y)
  {
    LebHeads(|p|, |q|, p + x, q + y);
    assert Frame(p) + x == Leb(|p|) + (p + x);
    assert Frame(q) + y == Leb(|q|) + (q + y);
  }

  lemma TaggedHeads(m: nat, n: nat, p: seq<byte>, q: seq<byte>, x: seq<byte>, y: seq<byte>)
    ensures m != n ==> Lex(Leb(m), Leb(n)) != Equal
    ensures Lex(Leb(m) + p + x, Leb(n) + q + y) == if m != n then Lex(Leb(m), Leb(n)) else Lex(p + x, q + y)
  {
    LebHeads(m, n, p + x, q + y);
    assert Leb(m) + p + x == Leb(m) + (p + x);
    assert Leb(n) + q + y == Leb(n) + (q + y);
  }

  lemma ContentHeads(p: seq<byte>, q: seq<byte>, x: seq<byte>, y: seq<byte>)
    requires |p| == |q|
    ensures Lex(p + x, q + y) == if Lex(p, q) == Equal then Lex(x, y) else Lex(p, q)
  {
    LexEqual(p, q);
    if p == q { LexSamePrefix(p, x, y); } else { LexHeads(p, q, x, y); }
  }

  /** The bytes of a component after its kind marker. */
  ghost function Body(rows: Rows, sers: seq<seq<byte>>, c: Component): seq<byte>
    requires |sers| == |rows.tags| && ComponentOk(rows, c)
  {
    if c.kind == NONE then []
    else if c.kind == NODE then Frame(sers[c.value - 1])
    else if c.kind == INTEGER then Leb(LittleEndian(rows.scalars[c.value..c.value + c.length]))
    else if IsCollection(c.kind) then Leb(c.length) + ItemRowsBytes(rows, sers, c.kind, c.value, c.length)
    else Frame(rows.scalars[c.value..c.value + c.length])
  }

  lemma {:induction false} ItemRowsAre(rows: Rows, sers: seq<seq<byte>>, first: nat, count: nat)
    requires |sers| == |rows.tags| && ItemRowsOk(rows, first, count)
    ensures SetBytes(ItemNodes(rows, first, count), sers) == ItemRowsBytes(rows, sers, SET, first, count)
    ensures SequenceBytes(ItemNodes(rows, first, count), sers) == ItemRowsBytes(rows, sers, SEQUENCE, first, count)
    decreases count
  {
    hide Frame;
    if count > 0 {
      ItemRowsAre(rows, sers, first + 1, count - 1);
      var items, rest := ItemNodes(rows, first, count), ItemNodes(rows, first + 1, count - 1);
      assert items[1..] == rest;
      var frame := Frame(sers[items[0]]);
      assert ItemBytes(rows, sers, SET, first) == [] + frame == frame;
    }
  }

  lemma MarkerAndBody(rows: Rows, sers: seq<seq<byte>>, c: Component)
    requires |sers| == |rows.tags| && ComponentOk(rows, c)
    ensures ComponentBytes(rows, sers, c) == [c.kind] + Body(rows, sers, c)
  {
    hide ContentOk, Frame;
    if IsCollection(c.kind) {
      ItemRowsAre(rows, sers, c.value, c.length);
    }
  }

  lemma MarkerHeads(k: byte, l: byte, p: seq<byte>, q: seq<byte>, x: seq<byte>, y: seq<byte>)
    ensures Lex([k] + p + x, [l] + q + y) == if k != l then Compare(k, l) else Lex(p + x, q + y)
  {
    hide Lex;
    AppendAssociative([k], p, x);
    AppendAssociative([l], q, y);
    FirstByteDecides(k, l, p + x, q + y);
  }

  lemma FirstByteDecides(k: byte, l: byte, u: seq<byte>, v: seq<byte>)
    ensures Lex([k] + u, [l] + v) == if k != l then Compare(k, l) else Lex(u, v)
  {
    var a, b := [k] + u, [l] + v;
    assert a[0] == k && b[0] == l && a[1..] == u && b[1..] == v;
  }

  lemma KindHeads(rows: Rows, sers: seq<seq<byte>>, a: Component, b: Component, x: seq<byte>, y: seq<byte>)
    requires |sers| == |rows.tags| && ComponentOk(rows, a) && ComponentOk(rows, b)
    ensures Lex(ComponentBytes(rows, sers, a) + x, ComponentBytes(rows, sers, b) + y)
         == if a.kind != b.kind then Compare(a.kind, b.kind) else Lex(Body(rows, sers, a) + x, Body(rows, sers, b) + y)
    ensures |ComponentBytes(rows, sers, a)| == 1 + |Body(rows, sers, a)|
  {
    hide ComponentOk, Body, ComponentBytes;
    MarkerAndBody(rows, sers, a);
    MarkerAndBody(rows, sers, b);
    MarkerHeads(a.kind, b.kind, Body(rows, sers, a), Body(rows, sers, b), x, y);
  }

  /** `lens` holds the lengths of the canonical bytes. */
  ghost predicate LengthsOf(rows: Rows, sers: seq<seq<byte>>, lens: seq<nat>) {
    |sers| == |lens| == |rows.tags| && forall n :: 0 <= n < |lens| ==> lens[n] == |sers[n]|
  }

  datatype Scheduled = Decided(ordering: Ordering, work: nat) | Pending(tasks: seq<Task>, work: nat)

  /** The comparison of two strings is decided, or what is pending followed by `x` and `y` still decides it. */
  ghost predicate Resolves(
    rows: Rows, sers: seq<seq<byte>>, s: Scheduled, left: seq<byte>, right: seq<byte>, x: seq<byte>, y: seq<byte>)
    requires |sers| == |rows.tags|
  {
    match s
    case Decided(ordering, _) => ordering != Equal && ordering == Lex(left + x, right + y)
    case Pending(tasks, _) =>
      && |tasks| <= 1 && TasksOk(rows, tasks)
      && Lex(left + x, right + y) == Lex(LeftTail(rows, sers, tasks) + x, RightTail(rows, sers, tasks) + y)
      && |LeftTail(rows, sers, tasks)| <= |left|
  }

  /** The bytes that are settled pay for the work done since `start`, and for what stays pending. */
  ghost predicate Pays(rows: Rows, sers: seq<seq<byte>>, s: Scheduled, left: nat, right: nat, start: nat)
    requires |sers| == |rows.tags|
  {
    match s
    case Decided(_, work) => work <= start + left + right
    case Pending(tasks, work) =>
      && TasksOk(rows, tasks)
      && work + |LeftTail(rows, sers, tasks)| + |RightTail(rows, sers, tasks)| + |tasks| + 1 <= start + left + right
  }

  lemma OneTask(rows: Rows, sers: seq<seq<byte>>, t: Task)
    requires |sers| == |rows.tags| && TaskOk(rows, t)
    ensures TasksOk(rows, [t])
    ensures LeftTail(rows, sers, [t]) == LeftBytes(rows, sers, t) &&
      RightTail(rows, sers, [t]) == RightBytes(rows, sers, t)
  {
    hide TaskOk, LeftBytes, RightBytes;
    assert [t][..0] == [];
  }

  /** Nothing stays pending once the heads are known to be equal. */
  lemma NothingPending(
    rows: Rows, sers: seq<seq<byte>>, left: seq<byte>, right: seq<byte>, x: seq<byte>, y: seq<byte>, work: nat)
    requires |sers| == |rows.tags| && Lex(left + x, right + y) == Lex(x, y)
    ensures Resolves(rows, sers, Pending([], work), left, right, x, y)
  {
    assert [] + x == x && [] + y == y;
  }

  /** Framed nodes: compare the lengths, leave the nodes themselves pending. */
  method ScheduleNodes(
    rows: Rows, lens: seq<nat>, left: nat, right: nat, work: nat, ghost sers: seq<seq<byte>>, ghost x: seq<byte>,
    ghost y: seq<byte>)
    returns (s: Scheduled)
    requires LengthsOf(rows, sers, lens) && left < |rows.tags| && right < |rows.tags|
    ensures Resolves(rows, sers, s, Frame(sers[left]), Frame(sers[right]), x, y) && s.work == work
    ensures s.Pending? ==> |LeftTail(rows, sers, s.tasks)| < |Frame(sers[left])|
    ensures Pays(rows, sers, s, |Frame(sers[left])|, |Frame(sers[right])|, work)
  {
    FrameHeads(sers[left], sers[right], x, y);
    LebHeads(lens[left], lens[right], [], []);
    var ordering := CompareVarints(lens[left], lens[right]);
    if ordering != Equal {
      return Decided(ordering, work);
    }
    OneTask(rows, sers, NodeTask(left, right));
    return Pending([NodeTask(left, right)], work);
  }

  /** Counted collections: compare the counts, leave the items pending. */
  method ScheduleCollections(
    rows: Rows, a: Component, b: Component, work: nat, ghost sers: seq<seq<byte>>, ghost x: seq<byte>,
    ghost y: seq<byte>)
    returns (s: Scheduled)
    requires |sers| == |rows.tags| && ComponentOk(rows, a) && ComponentOk(rows, b) && a.kind == b.kind &&
      IsCollection(a.kind)
    ensures Resolves(rows, sers, s, Body(rows, sers, a), Body(rows, sers, b), x, y) && s.work == work
    ensures Pays(rows, sers, s, |Body(rows, sers, a)|, |Body(rows, sers, b)|, work)
  {
    hide ContentOk;
    ghost var p, q := ItemRowsBytes(rows, sers, a.kind, a.value, a.length),
      ItemRowsBytes(rows, sers, b.kind, b.value, b.length);
    TaggedHeads(a.length, b.length, p, q, x, y);
    LebHeads(a.length, b.length, [], []);
    var ordering := CompareVarints(a.length, b.length);
    if ordering != Equal {
      return Decided(ordering, work);
    }
    OneTask(rows, sers, CollectionTask(a.kind, a.value, b.value, a.length));
    return Pending([CollectionTask(a.kind, a.value, b.value, a.length)], work);
  }

  /** Framed scalars: compare the lengths, then the contents. */
  method ScheduleContents(
    rows: Rows, a: Component, b: Component, startWork: nat, maxWork: nat, ghost sers: seq<seq<byte>>,
    ghost x: seq<byte>, ghost y: seq<byte>)
    returns (r: Outcome<Scheduled>)
    requires |sers| == |rows.tags| && a.value + a.length <= |rows.scalars| && b.value + b.length <= |rows.scalars|
    ensures var p, q := rows.scalars[a.value..a.value + a.length], rows.scalars[b.value..b.value + b.length];
            && (r.Ok? ==> r.value.work >= startWork && Resolves(rows, sers, r.value, Frame(p), Frame(q), x, y))
            && (r.Ok? ==> Pays(rows, sers, r.value, |Frame(p)|, |Frame(q)|, startWork))
            && (r.Err? ==> r.error == ResourceLimit && Over(startWork + |Frame(p)| + |Frame(q)|, maxWork))
  {
    ghost var p, q := rows.scalars[a.value..a.value + a.length], rows.scalars[b.value..b.value + b.length];
    FrameHeads(p, q, x, y);
    LebHeads(a.length, b.length, [], []);
    var ordering := CompareVarints(a.length, b.length);
    if ordering != Equal {
      return Ok(Decided(ordering, startWork));
    }
    ContentHeads(p, q, x, y);
    var compared :- CompareScalarRanges(rows.scalars, a.value, b.value, a.length, startWork, maxWork);
    if compared.ordering != Equal {
      return Ok(Decided(compared.ordering, compared.work));
    }
    NothingPending(rows, sers, Frame(p), Frame(q), x, y, compared.work);
    return Ok(Pending([], compared.work));
  }

  /** Integers: their codes are self-delimiting. */
  method ScheduleIntegers(
    rows: Rows, a: Component, b: Component, startWork: nat, maxWork: nat, ghost sers: seq<seq<byte>>,
    ghost x: seq<byte>, ghost y: seq<byte>)
    returns (r: Outcome<Scheduled>)
    requires |sers| == |rows.tags| && a.value + a.length <= |rows.scalars| && b.value + b.length <= |rows.scalars|
    requires Minimal(rows.scalars[a.value..a.value + a.length]) && Minimal(rows.scalars[b.value..b.value + b.length])
    ensures var m, n := LittleEndian(rows.scalars[a.value..a.value + a.length]),
      LittleEndian(rows.scalars[b.value..b.value + b.length]);
            && (r.Ok? ==> r.value.work >= startWork && Resolves(rows, sers, r.value, Leb(m), Leb(n), x, y))
            && (r.Ok? ==> Pays(rows, sers, r.value, |Leb(m)|, |Leb(n)|, startWork))
            && (r.Err? ==> r.error == ResourceLimit && (Over(startWork + |Leb(m)| + |Leb(n)|, maxWork) || Huge(rows)))
  {
    ghost var m, n := LittleEndian(rows.scalars[a.value..a.value + a.length]),
      LittleEndian(rows.scalars[b.value..b.value + b.length]);
    LebHeads(m, n, x, y);
    var compared :- CompareIntegerComponents(rows.scalars, a, b, startWork, maxWork);
    if compared.ordering != Equal {
      return Ok(Decided(compared.ordering, compared.work));
    }
    NothingPending(rows, sers, Leb(m), Leb(n), x, y, compared.work);
    return Ok(Pending([], compared.work));
  }

  /** Two components of one kind, after their markers. */
  method ScheduleBodies(
    rows: Rows, lens: seq<nat>, a: Component, b: Component, work: nat, maxWork: nat, ghost sers: seq<seq<byte>>,
    ghost x: seq<byte>, ghost y: seq<byte>)
    returns (r: Outcome<Scheduled>)
    requires LengthsOf(rows, sers, lens) && ComponentOk(rows, a) && ComponentOk(rows, b) && a.kind == b.kind
    ensures r.Ok? ==>
      r.value.work >= work && Resolves(rows, sers, r.value, Body(rows, sers, a), Body(rows, sers, b), x, y)
    ensures r.Ok? ==> Pays(rows, sers, r.value, 1 + |Body(rows, sers, a)|, 1 + |Body(rows, sers, b)|, work)
    ensures r.Err? ==>
      r.error == ResourceLimit && (Over(work + |Body(rows, sers, a)| + |Body(rows, sers, b)|, maxWork) || Huge(rows))
  {
    hide Resolves, Utf8.WellFormed, ItemRowsBytes, Frame, Leb, LittleEndian;
    if a.kind == NONE {
      assert [] + x == x && [] + y == y;
      NothingPending(rows, sers, [], [], x, y, work);
      return Ok(Pending([], work));
    } else if a.kind == NODE {
      var s := ScheduleNodes(rows, lens, a.value - 1, b.value - 1, work, sers, x, y);
      return Ok(s);
    } else if a.kind == INTEGER {
      r := ScheduleIntegers(rows, a, b, work, maxWork, sers, x, y);
    } else if IsCollection(a.kind) {
      var s := ScheduleCollections(rows, a, b, work, sers, x, y);
      return Ok(s);
    } else {
      r := ScheduleContents(rows, a, b, work, maxWork, sers, x, y);
    }
  }

  /** Compares two components up to what must stay pending. */
  method ScheduleComponents(
    rows: Rows, lens: seq<nat>, a: Component, b: Component, work: nat, maxWork: nat, ghost sers: seq<seq<byte>>,
    ghost x: seq<byte>, ghost y: seq<byte>)
    returns (r: Outcome<Scheduled>)
    requires LengthsOf(rows, sers, lens) && ComponentOk(rows, a) && ComponentOk(rows, b)
    ensures r.Ok? ==>
      r.value.work >= work &&
      Resolves(rows, sers, r.value, ComponentBytes(rows, sers, a), ComponentBytes(rows, sers, b), x, y)
    ensures r.Ok? && r.value.Pending? ==> |LeftTail(rows, sers, r.value.tasks)| < |ComponentBytes(rows, sers, a)|
    ensures r.Ok? ==> Pays(rows, sers, r.value, |ComponentBytes(rows, sers, a)|, |ComponentBytes(rows, sers, b)|, work)
    ensures r.Err? ==>
      r.error == ResourceLimit &&
        (Over(work + |ComponentBytes(rows, sers, a)| + |ComponentBytes(rows, sers, b)|, maxWork) || Huge(rows))
  {
    hide ComponentOk, Body, ComponentBytes, TasksOk;
    KindHeads(rows, sers, a, b, x, y);
    KindHeads(rows, sers, b, a, y, x);
    if a.kind != b.kind {
      return Ok(Decided(Compare(a.kind, b.kind), work));
    }
    r := ScheduleBodies(rows, lens, a, b, work, maxWork, sers, x, y);
  }

  // ---------- The comparison loop ----------

  /** Number of fields of a row. */
  function Arity(rows: Rows, n: nat): nat
    requires n + 1 < |rows.offsets|
  {
    if rows.offsets[n] <= rows.offsets[n + 1] then rows.offsets[n + 1] - rows.offsets[n] else 0
  }

  /** Equal tags have equal arities, as the constructor ledger guarantees. */
  ghost predicate ArityByTag(rows: Rows)
    requires |rows.offsets| == |rows.tags| + 1
  {
    forall m, n :: 0 <= m < |rows.tags| && 0 <= n < |rows.tags| && rows.tags[m] == rows.tags[n] ==>
      Arity(rows, m) == Arity(rows, n)
  }

  lemma {:induction false} FieldRowsAre(rows: Rows, sers: seq<seq<byte>>, k: nat, fields: seq<Field>)
    requires |sers| == |rows.tags| && FieldRowsOk(rows, k, |fields|)
    requires forall i :: 0 <= i < |fields| ==> fields[i] == ComponentView(rows, rows.fields[k + i])
    ensures Bounded(fields, |sers|) && FieldsBytes(fields, sers) == FieldRowsBytes(rows, sers, k, |fields|)
    decreases |fields|
  {
    hide ComponentOk, ComponentView, FieldBytes;
    if fields != [] {
      assert fields[0] == ComponentView(rows, rows.fields[k + 0]);
      forall i | 0 <= i < |fields[1..]| ensures fields[1..][i] == ComponentView(rows, rows.fields[k + 1 + i]) {
        assert fields[1..][i] == fields[i + 1] == ComponentView(rows, rows.fields[k + (i + 1)]);
      }
      FieldRowsAre(rows, sers, k + 1, fields[1..]);
      assert Bounded(fields, |sers|) by {
        forall i | 0 <= i < |fields| ensures Within(Refs(fields[i]), |sers|) {
          if i > 0 { assert fields[i] == fields[1..][i - 1]; }
        }
      }
    }
  }

  /** A node is its tag followed by its field rows. */
  lemma NodeRows(rows: Rows, sers: seq<seq<byte>>, n: nat)
    requires Laid(rows) && Serializes(View(rows), sers) && n < |rows.tags|
    ensures |sers| == |rows.tags| < |rows.offsets| && Owns(rows, n) &&
      FieldRowsOk(rows, rows.offsets[n], Arity(rows, n))
    ensures sers[n] == Leb(rows.tags[n]) + FieldRowsBytes(rows, sers, rows.offsets[n], Arity(rows, n))
  {
    ViewArity(rows, n);
    hide Laid, View, ComponentView, ComponentOk, Placed, FieldView;
    var start, fields := rows.offsets[n], View(rows)[n].fields;
    forall i | start <= i < start + |fields| ensures ComponentOk(rows, rows.fields[i]) {
      LaidComponent(rows, i);
    }
    forall i | 0 <= i < |fields| ensures fields[i] == ComponentView(rows, rows.fields[start + i]) {
      ViewRefs(rows, n, i);
      LaidComponent(rows, start + i);
    }
    FieldRowsAre(rows, sers, start, fields);
  }

  /** Nodes of different tags are decided by the tags. */
  lemma TagsDecide(rows: Rows, sers: seq<seq<byte>>, left: nat, right: nat, x: seq<byte>, y: seq<byte>)
    requires Laid(rows) && Serializes(View(rows), sers) && left < |rows.tags| && right < |rows.tags|
    requires rows.tags[left] != rows.tags[right]
    ensures |sers| == |rows.tags| && Lex(Leb(rows.tags[left]), Leb(rows.tags[right])) != Equal
    ensures Lex(sers[left] + x, sers[right] + y) == Lex(Leb(rows.tags[left]), Leb(rows.tags[right]))
  {
    NodeRows(rows, sers, left);
    NodeRows(rows, sers, right);
    hide Laid, View, Serializes, FieldRowsOk, Arity;
    var p := FieldRowsBytes(rows, sers, rows.offsets[left], Arity(rows, left));
    var q := FieldRowsBytes(rows, sers, rows.offsets[right], Arity(rows, right));
    TaggedHeads(rows.tags[left], rows.tags[right], p, q, x, y);
  }

  /** The field rows of two nodes, as one task. */
  function FieldsOfNodes(rows: Rows, left: nat, right: nat): Task
    requires left < |rows.tags| && right < |rows.tags| && |rows.offsets| == |rows.tags| + 1
  {
    FieldsTask(rows.offsets[left], rows.offsets[right], Arity(rows, left))
  }

  /** Nodes of one tag are compared by their fields. */
  lemma FieldsDecide(rows: Rows, sers: seq<seq<byte>>, left: nat, right: nat, x: seq<byte>, y: seq<byte>)
    requires Laid(rows) && Serializes(View(rows), sers) && left < |rows.tags| && right < |rows.tags|
    requires rows.tags[left] == rows.tags[right] && Arity(rows, left) == Arity(rows, right)
    ensures |sers| == |rows.tags|
    ensures TaskOk(rows, FieldsOfNodes(rows, left, right))
    ensures Lex(sers[left] + x, sers[right] + y)
         == Lex(LeftBytes(rows, sers, FieldsOfNodes(rows, left, right)) + x,
           RightBytes(rows, sers, FieldsOfNodes(rows, left, right)) + y)
    ensures |LeftBytes(rows, sers, FieldsOfNodes(rows, left, right))| < |sers[left]|
    ensures |RightBytes(rows, sers, FieldsOfNodes(rows, left, right))| < |sers[right]|
  {
    NodeRows(rows, sers, left);
    NodeRows(rows, sers, right);
    hide Laid, View, Serializes, FieldRowsOk, Arity;
    var p := FieldRowsBytes(rows, sers, rows.offsets[left], Arity(rows, left));
    var q := FieldRowsBytes(rows, sers, rows.offsets[right], Arity(rows, right));
    TaggedHeads(rows.tags[left], rows.tags[right], p, q, x, y);
  }

  lemma SameNode(rows: Rows, sers: seq<seq<byte>>, n: nat, x: seq<byte>, y: seq<byte>)
    requires Laid(rows) && Serializes(View(rows), sers) && n < |rows.tags|
    ensures Lex(sers[n] + x, sers[n] + y) == Lex(x, y) && |sers[n]| > 0
  {
    LexSamePrefix(sers[n], x, y);
    NodeRows(rows, sers, n);
  }

  /** Two nodes against each other: decided by the tags, or their fields stay pending. */
  method StepNodes(
    rows: Rows, left: nat, right: nat, work: nat, ghost sers: seq<seq<byte>>, ghost x: seq<byte>, ghost y: seq<byte>)
    returns (s: Scheduled)
    requires Laid(rows) && ArityByTag(rows) && Serializes(View(rows), sers) && left < |rows.tags| && right < |rows.tags|
    ensures Resolves(rows, sers, s, sers[left], sers[right], x, y) && s.work == work
    ensures s.Pending? ==> |LeftTail(rows, sers, s.tasks)| < |sers[left]|
    ensures Pays(rows, sers, s, |sers[left]|, |sers[right]|, work)
  {
    if left == right {
      SameNode(rows, sers, left, x, y);
      assert [] + x == x && [] + y == y;
      return Pending([], work);
    }
    var ordering := CompareVarints(rows.tags[left], rows.tags[right]);
    LexEqual(Leb(rows.tags[left]), Leb(rows.tags[right]));
    LebPrefixFree(rows.tags[left], rows.tags[right]);
    if ordering != Equal {
      TagsDecide(rows, sers, left, right, x, y);
      return Decided(ordering, work);
    }
    FieldsDecide(rows, sers, left, right, x, y);
    hide View, Placed, TaskOk, LeftBytes, RightBytes;
    var task := FieldsOfNodes(rows, left, right);
    OneTask(rows, sers, task);
    return Pending([task], work);
  }

  /** Pending tasks go on top of the rest of the stack. */
  lemma PendingOnTop(rows: Rows, sers: seq<seq<byte>>, rest: seq<Task>, pending: seq<Task>)
    requires |sers| == |rows.tags| && TasksOk(rows, rest) && TasksOk(rows, pending) && |pending| <= 1
    ensures TasksOk(rows, rest + pending)
    ensures LeftTail(rows, sers, rest + pending) == LeftTail(rows, sers, pending) + LeftTail(rows, sers, rest)
    ensures RightTail(rows, sers, rest + pending) == RightTail(rows, sers, pending) + RightTail(rows, sers, rest)
  {
    hide TaskOk, LeftBytes, RightBytes;
    if pending == [] {
      assert rest + pending == rest;
      assert [] + LeftTail(rows, sers, rest) == LeftTail(rows, sers, rest);
      assert [] + RightTail(rows, sers, rest) == RightTail(rows, sers, rest);
    } else {
      assert pending == [pending[0]];
      OneTask(rows, sers, pending[0]);
      PushTask(rows, sers, rest, pending[0]);
    }
  }

  /** One pop: the comparison of the stacked tails is decided, or a smaller stack still decides it. */
  ghost predicate Stepped(rows: Rows, sers: seq<seq<byte>>, before: seq<Task>, s: Scheduled)
    requires |sers| == |rows.tags| && TasksOk(rows, before)
  {
    match s
    case Decided(ordering, _) => ordering == Lex(LeftTail(rows, sers, before), RightTail(rows, sers, before))
    case Pending(after, _) =>
      && TasksOk(rows, after)
      && Lex(LeftTail(rows, sers, before), RightTail(rows, sers, before)) ==
         Lex(LeftTail(rows, sers, after), RightTail(rows, sers, after))
      && (|LeftTail(rows, sers, after)| < |LeftTail(rows, sers, before)| ||
          (|LeftTail(rows, sers, after)| == |LeftTail(rows, sers, before)| && |after| < |before|))
  }

  /** What the stack can still cost: its bytes on both sides, and one for each task. */
  ghost function Potential(rows: Rows, sers: seq<seq<byte>>, tasks: seq<Task>): nat
    requires |sers| == |rows.tags| && TasksOk(rows, tasks)
  {
    |LeftTail(rows, sers, tasks)| + |RightTail(rows, sers, tasks)| + |tasks|
  }

  /** One pop charges no more than it takes off the potential. */
  ghost predicate Paid(rows: Rows, sers: seq<seq<byte>>, before: seq<Task>, s: Scheduled, start: nat)
    requires |sers| == |rows.tags| && TasksOk(rows, before)
  {
    match s
    case Decided(_, work) => work <= start + Potential(rows, sers, before)
    case Pending(after, work) =>
      TasksOk(rows, after) && work + Potential(rows, sers, after) <= start + Potential(rows, sers, before)
  }

  /** From the top task's own bytes to the whole stack. */
  lemma Restack(
    rows: Rows, sers: seq<seq<byte>>, before: seq<Task>, rest: seq<Task>, left: seq<byte>, right: seq<byte>,
    s: Scheduled)
    requires |sers| == |rows.tags| && TasksOk(rows, before) && TasksOk(rows, rest)
    requires LeftTail(rows, sers, before) == left + LeftTail(rows, sers, rest)
    requires RightTail(rows, sers, before) == right + RightTail(rows, sers, rest)
    requires Resolves(rows, sers, s, left, right, LeftTail(rows, sers, rest), RightTail(rows, sers, rest))
    requires s.Pending? ==> |LeftTail(rows, sers, s.tasks)| < |left|
    ensures Stepped(rows, sers, before, if s.Decided? then s else Pending(rest + s.tasks, s.work))
  {
    hide TasksOk;
    if s.Pending? {
      PendingOnTop(rows, sers, rest, s.tasks);
    }
  }

  lemma Repay(
    rows: Rows, sers: seq<seq<byte>>, before: seq<Task>, rest: seq<Task>, left: seq<byte>, right: seq<byte>,
    s: Scheduled, start: nat)
    requires |sers| == |rows.tags| && TasksOk(rows, before) && TasksOk(rows, rest) && before != [] && |rest| <= |before|
    requires LeftTail(rows, sers, before) == left + LeftTail(rows, sers, rest)
    requires RightTail(rows, sers, before) == right + RightTail(rows, sers, rest)
    requires Pays(rows, sers, s, |left|, |right|, start + 1) && (s.Pending? ==> |s.tasks| <= 1)
    ensures Paid(rows, sers, before, if s.Decided? then s else Pending(rest + s.tasks, s.work), start)
  {
    hide TasksOk, LeftTail, RightTail;
    if s.Pending? {
      PendingOnTop(rows, sers, rest, s.tasks);
    }
  }

  lemma ResolvesOne(
    rows: Rows, sers: seq<seq<byte>>, s: Scheduled, left: seq<byte>, right: seq<byte>, x: seq<byte>, y: seq<byte>)
    requires |sers| == |rows.tags| && Resolves(rows, sers, s, left, right, x, y)
    ensures s.Pending? ==> |s.tasks| <= 1
  {
  }

  /** A task without remaining rows contributes nothing. */
  lemma Finished(rows: Rows, sers: seq<seq<byte>>, tasks: seq<Task>)
    requires |sers| == |rows.tags| && TasksOk(rows, tasks) && tasks != []
    requires var t := tasks[|tasks| - 1]; !t.NodeTask? && t.remaining == 0
    ensures TasksOk(rows, tasks[..|tasks| - 1])
    ensures LeftTail(rows, sers, tasks) == LeftTail(rows, sers, tasks[..|tasks| - 1])
    ensures RightTail(rows, sers, tasks) == RightTail(rows, sers, tasks[..|tasks| - 1])
  {
    var rest := tasks[..|tasks| - 1];
    assert [] + LeftTail(rows, sers, rest) == LeftTail(rows, sers, rest);
    assert [] + RightTail(rows, sers, rest) == RightTail(rows, sers, rest);
  }

  function NextTask(t: Task): Task
    requires !t.NodeTask? && t.remaining > 0
  {
    if t.FieldsTask? then FieldsTask(t.left + 1, t.right + 1, t.remaining - 1)
    else CollectionTask(t.kind, t.left + 1, t.right + 1, t.remaining - 1)
  }

  ghost function LeftRow(rows: Rows, sers: seq<seq<byte>>, t: Task): seq<byte>
    requires |sers| == |rows.tags| && TaskOk(rows, t) && !t.NodeTask? && t.remaining > 0
  {
    if t.FieldsTask? then ComponentBytes(rows, sers, rows.fields[t.left]) else ItemBytes(rows, sers, t.kind, t.left)
  }

  ghost function RightRow(rows: Rows, sers: seq<seq<byte>>, t: Task): seq<byte>
    requires |sers| == |rows.tags| && TaskOk(rows, t) && !t.NodeTask? && t.remaining > 0
  {
    if t.FieldsTask? then ComponentBytes(rows, sers, rows.fields[t.right]) else ItemBytes(rows, sers, t.kind, t.right)
  }

  /** Taking one row off the top task: the remaining rows go back on the stack. */
  lemma TakeRow(rows: Rows, sers: seq<seq<byte>>, tasks: seq<Task>)
    requires |sers| == |rows.tags| && TasksOk(rows, tasks) && tasks != []
    requires var t := tasks[|tasks| - 1]; TaskOk(rows, t) && !t.NodeTask? && t.remaining > 0
    ensures var t, rest := tasks[|tasks| - 1], tasks[..|tasks| - 1] + [NextTask(tasks[|tasks| - 1])];
            && TasksOk(rows, rest)
            && LeftTail(rows, sers, tasks) == LeftRow(rows, sers, t) + LeftTail(rows, sers, rest)
            && RightTail(rows, sers, tasks) == RightRow(rows, sers, t) + RightTail(rows, sers, rest)
  {
    var t, below := tasks[|tasks| - 1], tasks[..|tasks| - 1];
    NextTaskBytes(rows, sers, t);
    hide TaskOk, LeftBytes, RightBytes, LeftRow, RightRow;
    PushTask(rows, sers, below, NextTask(t));
    AppendAssociative(LeftRow(rows, sers, t), LeftBytes(rows, sers, NextTask(t)), LeftTail(rows, sers, below));
    AppendAssociative(RightRow(rows, sers, t), RightBytes(rows, sers, NextTask(t)), RightTail(rows, sers, below));
  }

  lemma NextTaskBytes(rows: Rows, sers: seq<seq<byte>>, t: Task)
    requires |sers| == |rows.tags| && TaskOk(rows, t) && !t.NodeTask? && t.remaining > 0
    ensures TaskOk(rows, NextTask(t))
    ensures LeftBytes(rows, sers, t) == LeftRow(rows, sers, t) + LeftBytes(rows, sers, NextTask(t))
    ensures RightBytes(rows, sers, t) == RightRow(rows, sers, t) + RightBytes(rows, sers, NextTask(t))
  {
    hide ComponentOk, ComponentBytes, ItemBytes;
  }

  /** What the comparator relies on. */
  ghost predicate Comparable(rows: Rows, sers: seq<seq<byte>>, lens: seq<nat>) {
    Laid(rows) && ArityByTag(rows) && Serializes(View(rows), sers) && LengthsOf(rows, sers, lens)
  }

  lemma ItemAsComponent(rows: Rows, sers: seq<seq<byte>>, i: nat)
    requires |sers| == |rows.tags| && i < |rows.items| && rows.items[i].kind == NODE &&
      1 <= rows.items[i].value <= |rows.tags|
    ensures ComponentOk(rows, rows.items[i]) && ComponentBytes(rows, sers, rows.items[i]) ==
      ItemBytes(rows, sers, SEQUENCE, i)
  {
  }

  /** One field pair or item pair. */
  method StepRows(
    rows: Rows, lens: seq<nat>, t: Task, work: nat, maxWork: nat, ghost sers: seq<seq<byte>>, ghost x: seq<byte>,
    ghost y: seq<byte>)
    returns (r: Outcome<Scheduled>)
    requires LengthsOf(rows, sers, lens) && TaskOk(rows, t) && !t.NodeTask? && t.remaining > 0
    ensures r.Ok? ==>
      r.value.work >= work && Resolves(rows, sers, r.value, LeftRow(rows, sers, t), RightRow(rows, sers, t), x, y)
    ensures r.Ok? && r.value.Pending? ==> |LeftTail(rows, sers, r.value.tasks)| < |LeftRow(rows, sers, t)|
    ensures r.Ok? ==> Pays(rows, sers, r.value, |LeftRow(rows, sers, t)|, |RightRow(rows, sers, t)|, work)
    ensures r.Err? ==>
      r.error == ResourceLimit && (Over(work + |LeftRow(rows, sers, t)| + |RightRow(rows, sers, t)|, maxWork) ||
      Huge(rows))
  {
    hide ContentOk, ComponentBytes;
    if t.FieldsTask? {
      r := ScheduleComponents(rows, lens, rows.fields[t.left], rows.fields[t.right], work, maxWork, sers, x, y);
    } else if t.kind == SET {
      var left, right := rows.items[t.left].value - 1, rows.items[t.right].value - 1;
      assert [] + Frame(sers[left]) == Frame(sers[left]) && [] + Frame(sers[right]) == Frame(sers[right]);
      var s := ScheduleNodes(rows, lens, left, right, work, sers, x, y);
      r := Ok(s);
    } else {
      ItemAsComponent(rows, sers, t.left);
      ItemAsComponent(rows, sers, t.right);
      r := ScheduleComponents(rows, lens, rows.items[t.left], rows.items[t.right], work, maxWork, sers, x, y);
    }
  }

  /** Pops one task. */
  method Pop(
    rows: Rows, lens: seq<nat>, tasks: seq<Task>, startWork: nat, maxWork: nat, ghost sers: seq<seq<byte>>)
    returns (r: Outcome<Scheduled>)
    requires |sers| == |rows.tags| && Comparable(rows, sers, lens) && TasksOk(rows, tasks) && tasks != []
    ensures r.Ok? ==>
      r.value.work > startWork && Stepped(rows, sers, tasks, r.value) && Paid(rows, sers, tasks, r.value, startWork)
    ensures r.Err? ==>
      r.error == ResourceLimit && (Over(startWork + Potential(rows, sers, tasks), maxWork) || Huge(rows))
  {
    hide Laid, View, Serializes, TaskOk, Resolves, LeftRow, RightRow, Pays, Huge, Stepped, Paid, LeftTail, RightTail,
      Potential;
    PotentialPositive(rows, sers, tasks);
    var work :- ClaimWork(startWork, 1, maxWork);
    var top := |tasks| - 1;
    var t, below := tasks[top], tasks[..top];
    if t.NodeTask? {
      NodeTaskOnTop(rows, sers, tasks);
      var s := StepNodes(rows, t.left, t.right, work, sers, LeftTail(rows, sers, below), RightTail(rows, sers, below));
      Restack(rows, sers, tasks, below, sers[t.left], sers[t.right], s);
      ResolvesOne(rows, sers, s, sers[t.left], sers[t.right], LeftTail(rows, sers, below),
        RightTail(rows, sers, below));
      Repay(rows, sers, tasks, below, sers[t.left], sers[t.right], s, startWork);
      return Ok(if s.Decided? then s else Pending(below + s.tasks, s.work));
    }
    if t.remaining == 0 {
      PopFinished(rows, sers, tasks, startWork);
      return Ok(Pending(below, work));
    }
    var rest := below + [NextTask(t)];
    TakeRow(rows, sers, tasks);
    RowFits(rows, sers, tasks);
    var s :- StepRows(rows, lens, t, work, maxWork, sers, LeftTail(rows, sers, rest), RightTail(rows, sers, rest));
    Restack(rows, sers, tasks, rest, LeftRow(rows, sers, t), RightRow(rows, sers, t), s);
    ResolvesOne(rows, sers, s, LeftRow(rows, sers, t), RightRow(rows, sers, t), LeftTail(rows, sers, rest),
      RightTail(rows, sers, rest));
    Repay(rows, sers, tasks, rest, LeftRow(rows, sers, t), RightRow(rows, sers, t), s, startWork);
    return Ok(if s.Decided? then s else Pending(rest + s.tasks, s.work));
  }

  lemma PotentialPositive(rows: Rows, sers: seq<seq<byte>>, tasks: seq<Task>)
    requires |sers| == |rows.tags| && TasksOk(rows, tasks) && tasks != []
    ensures Potential(rows, sers, tasks) >= 1
    ensures TaskOk(rows, tasks[|tasks| - 1])
  {
  }

  lemma PopFinished(rows: Rows, sers: seq<seq<byte>>, tasks: seq<Task>, startWork: nat)
    requires |sers| == |rows.tags| && TasksOk(rows, tasks) && tasks != []
    requires var t := tasks[|tasks| - 1]; !t.NodeTask? && t.remaining == 0
    ensures var s := Pending(tasks[..|tasks| - 1], startWork + 1);
      Stepped(rows, sers, tasks, s) && Paid(rows, sers, tasks, s, startWork)
  {
    Finished(rows, sers, tasks);
  }

  /** The row on top is part of what the stack can still cost. */
  lemma RowFits(rows: Rows, sers: seq<seq<byte>>, tasks: seq<Task>)
    requires |sers| == |rows.tags| && TasksOk(rows, tasks) && tasks != []
    requires var t := tasks[|tasks| - 1]; TaskOk(rows, t) && !t.NodeTask? && t.remaining > 0
    ensures var t := tasks[|tasks| - 1];
      |LeftRow(rows, sers, t)| + |RightRow(rows, sers, t)| + 1 <= Potential(rows, sers, tasks)
  {
    hide LeftRow, RightRow, TaskOk;
    TakeRow(rows, sers, tasks);
  }

  lemma NodeTaskOnTop(rows: Rows, sers: seq<seq<byte>>, tasks: seq<Task>)
    requires |sers| == |rows.tags| && TasksOk(rows, tasks) && tasks != [] && tasks[|tasks| - 1].NodeTask?
    ensures var t, below := tasks[|tasks| - 1], tasks[..|tasks| - 1];
            && t.left < |rows.tags| && t.right < |rows.tags| && TasksOk(rows, below)
            && LeftTail(rows, sers, tasks) == sers[t.left] + LeftTail(rows, sers, below)
            && RightTail(rows, sers, tasks) == sers[t.right] + RightTail(rows, sers, below)
  {
    assert TaskOk(rows, tasks[|tasks| - 1]);
  }

  /** Whatever ordering is returned is the lexicographic ordering of the two nodes' canonical bytes. */
  method CompareCanonicalNodes(
    rows: Rows, lens: seq<nat>, left: nat, right: nat, startWork: nat, maxWork: nat, ghost sers: seq<seq<byte>>)
    returns (r: Outcome<Compared>)
    requires |sers| == |rows.tags| && Comparable(rows, sers, lens) && left < |rows.tags| && right < |rows.tags|
    ensures r.Ok? ==> r.value.ordering == Lex(sers[left], sers[right])
    ensures r.Ok? ==> startWork < r.value.work <= startWork + |sers[left]| + |sers[right]| + 1
    ensures r.Err? ==>
      r.error == ResourceLimit && (Over(startWork + |sers[left]| + |sers[right]| + 1, maxWork) || Huge(rows))
  {
    hide Comparable, TasksOk, Huge;
    var tasks, work := [NodeTask(left, right)], startWork;
    OneTask(rows, sers, tasks[0]);
    while tasks != []
      invariant TasksOk(rows, tasks)
      invariant Lex(sers[left], sers[right]) == Lex(LeftTail(rows, sers, tasks), RightTail(rows, sers, tasks))
      invariant work >= startWork && (tasks == [] ==> work > startWork)
      invariant work + Potential(rows, sers, tasks) <= startWork + |sers[left]| + |sers[right]| + 1
      decreases |LeftTail(rows, sers, tasks)|, |tasks|
    {
      var s :- Pop(rows, lens, tasks, work, maxWork, sers);
      if s.Decided? {
        return Ok(Compared(s.ordering, s.work));
      }
      tasks, work := s.tasks, s.work;
    }
    return Ok(Compared(Equal, work));
  }

  /** The bytes of every neighbouring pair among the first `k` rows, and one for each pair. */
  ghost function OrderCost(sers: seq<seq<byte>>, k: nat): nat
    requires k <= |sers|
  {
    if k <= 1 then 0 else OrderCost(sers, k - 1) + |sers[k - 2]| + |sers[k - 1]| + 1
  }

  lemma {:induction false} OrderCostRises(sers: seq<seq<byte>>, j: nat, k: nat)
    requires j <= k <= |sers|
    ensures OrderCost(sers, j) <= OrderCost(sers, k)
    decreases k
  {
    if j < k { OrderCostRises(sers, j, k - 1); }
  }

  /** Accepts exactly when each row's canonical bytes are below the next row's. */
  method ValidateDenseNodeOrder(
    rows: Rows, lens: seq<nat>, startWork: nat, maxWork: nat, ghost sers: seq<seq<byte>>)
    returns (r: Outcome<nat>)
    requires |sers| == |lens| == |rows.tags| && Comparable(rows, sers, lens)
    ensures r.Ok? ==> Ascending(sers) && startWork <= r.value <= startWork + OrderCost(sers, |sers|)
    ensures r.Err? ==>
      || (r.error == ResourceLimit && (Over(startWork + OrderCost(sers, |sers|), maxWork) || Huge(rows)))
      || (r.error == NotCanonical && !Ascending(sers))
  {
    hide Comparable, Ascending, Huge;
    var work: nat, right: nat := startWork, 1;
    while right < |lens|
      invariant 1 <= right && (|sers| >= 1 ==> right <= |sers|)
      invariant startWork <= work &&
        (if |sers| >= 1 then work <= startWork + OrderCost(sers, right) else work == startWork)
      invariant forall k :: 1 <= k < right && k < |sers| ==> Rises(sers, k)
    {
      OrderCostRises(sers, right + 1, |sers|);
      var compared :- CompareCanonicalNodes(rows, lens, right - 1, right, work, maxWork, sers);
      if compared.ordering != Less {
        if Ascending(sers) { AscentRises(sers, right); }
        return Err(NotCanonical);
      }
      work, right := compared.work, right + 1;
    }
    NeighboursAscend(sers);
    return Ok(work);
  }
}
