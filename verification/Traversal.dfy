/**
 The explicit-stack depth-first search that proves the node graph acyclic and reachable from its
 roots and measures every node exactly once.
 */
module Traversal {
  import opened Bytes
  import opened Structure
  import opened Rows
  import opened Outcome
  import opened Lengths

  /** A suspended node: the next field to look at, and the item range of the collection being scanned. */
  datatype Frame = Frame(node: nat, fieldCursor: nat, fieldEnd: nat, itemCursor: nat, itemEnd: nat)

  const UNSEEN: nat := 0
  const ACTIVE: nat := 1
  const FINISHED: nat := 2

  // ---------- One frame ----------

  ghost predicate FrameOk(rows: Rows, f: Frame)
    requires Laid(rows)
  {
    && f.node < |rows.tags|
    && rows.offsets[f.node] <= f.fieldCursor <= f.fieldEnd == rows.offsets[f.node + 1] <= |rows.fields|
    && f.itemCursor <= f.itemEnd
    && (f.itemCursor < f.itemEnd ==>
          && rows.offsets[f.node] < f.fieldCursor
          && var c := rows.fields[f.fieldCursor - 1];
          && IsCollection(c.kind) && c.value <= f.itemCursor && f.itemEnd == c.value + c.length)
  }

  /** Fields the frame has taken up so far. */
  ghost function Taken(rows: Rows, f: Frame): nat
    requires Laid(rows) && FrameOk(rows, f)
  {
    f.fieldCursor - rows.offsets[f.node]
  }

  /** Has the frame already followed reference `i` of its field `k`? */
  ghost predicate Followed(g: Graph, n: nat, taken: nat, pending: nat, k: nat, i: nat)
    requires n < |g| && k < |g[n].fields|
  {
    i < |Refs(g[n].fields[k])| && (k + 1 < taken || (k + 1 == taken && i + pending < |Refs(g[n].fields[k])|))
  }

  /** Iterations spent on a frame. */
  ghost function Progress(rows: Rows, f: Frame): int
    requires Laid(rows) && FrameOk(rows, f)
  {
    (f.fieldCursor - rows.offsets[f.node]) +
      (ItemStart(rows.fields, f.fieldCursor) - ItemStart(rows.fields,
      rows.offsets[f.node])) - (f.itemEnd - f.itemCursor)
  }

  datatype Step = Advance(frame: Frame) | Descend(frame: Frame, child: nat) | Complete

  /** What one iteration does with the top frame. */
  function StepFrame(rows: Rows, f: Frame): Step
    requires f.itemCursor < f.itemEnd ==> f.itemCursor < |rows.items| && rows.items[f.itemCursor].value >= 1
    requires f.itemCursor >= f.itemEnd && f.fieldCursor < f.fieldEnd ==> f.fieldCursor < |rows.fields|
    requires f.itemCursor >= f.itemEnd && f.fieldCursor < f.fieldEnd && rows.fields[f.fieldCursor].kind == NODE ==>
      rows.fields[f.fieldCursor].value >= 1
  {
    if f.itemCursor < f.itemEnd then
      var item := rows.items[f.itemCursor];
      var next := f.(itemCursor := f.itemCursor + 1);
      if item.kind == NODE then Descend(next, item.value - 1) else Advance(next)
    else if f.fieldCursor < f.fieldEnd then
      var c := rows.fields[f.fieldCursor];
      var next := f.(fieldCursor := f.fieldCursor + 1);
      if c.kind == NODE then Descend(next, c.value - 1)
      else if IsCollection(c.kind) then Advance(next.(itemCursor := c.value, itemEnd := c.value + c.length))
      else Advance(next)
    else Complete
  }

  lemma StepReads(rows: Rows, f: Frame)
    requires Laid(rows) && FrameOk(rows, f)
    ensures f.itemCursor < f.itemEnd ==>
      f.itemCursor < |rows.items| && rows.items[f.itemCursor].kind == NODE &&
      1 <= rows.items[f.itemCursor].value <= |rows.tags|
    ensures f.itemCursor >= f.itemEnd && f.fieldCursor < f.fieldEnd ==>
      f.fieldCursor < |rows.fields| && Placed(rows, f.fieldCursor)
  {
    if f.itemCursor < f.itemEnd {
      assert Placed(rows, f.fieldCursor - 1);
    }
  }

  /** The step relation between a frame, its successor and the child it descends to, if any. */
  ghost predicate Follows(rows: Rows, f: Frame, next: Frame)
    requires Laid(rows) && FrameOk(rows, f)
  {
    FrameOk(rows, next) && next.node == f.node && Progress(rows, next) == Progress(rows, f) + 1
  }

  ghost predicate FollowedBy(rows: Rows, f: Frame, k: nat, i: nat)
    requires Laid(rows) && FrameOk(rows, f) && k < |View(rows)[f.node].fields|
  {
    Followed(View(rows), f.node, Taken(rows, f), f.itemEnd - f.itemCursor, k, i)
  }

  lemma StepItem(rows: Rows, f: Frame)
    requires Laid(rows) && FrameOk(rows, f) && f.itemCursor < f.itemEnd
    ensures f.itemCursor < |rows.items| && 1 <= rows.items[f.itemCursor].value <= |rows.tags|
    ensures var next, child := f.(itemCursor := f.itemCursor + 1), rows.items[f.itemCursor].value - 1;
            && Follows(rows, f, next)
            && Edge(View(rows), f.node, child)
            && forall k, i :: 0 <= k < |View(rows)[f.node].fields| && 0 <= i && FollowedBy(rows, next, k, i) ==>
                 FollowedBy(rows, f, k, i) || Refs(View(rows)[f.node].fields[k])[i] == child
  {
    hide View, NodeView, FieldView, Placed;
    StepReads(rows, f);
    ViewArity(rows, f.node);
    var k := f.fieldCursor - 1 - rows.offsets[f.node];
    ViewRefs(rows, f.node, k);
    var c, refs := rows.fields[f.fieldCursor - 1], Refs(View(rows)[f.node].fields[k]);
    assert refs[f.itemCursor - c.value] == rows.items[f.itemCursor].value - 1;
  }

  lemma StepField(rows: Rows, f: Frame)
    requires Laid(rows) && FrameOk(rows, f) && f.itemCursor >= f.itemEnd && f.fieldCursor < f.fieldEnd
    ensures Placed(rows, f.fieldCursor)
    ensures var c, next := rows.fields[f.fieldCursor], f.(fieldCursor := f.fieldCursor + 1);
            !IsCollection(c.kind) ==>
              && Follows(rows, f, next)
              && (c.kind == NODE ==> Edge(View(rows), f.node, c.value - 1))
              && forall k, i :: 0 <= k < |View(rows)[f.node].fields| && 0 <= i && FollowedBy(rows, next, k, i) ==>
                   FollowedBy(rows, f, k, i) || (c.kind == NODE && Refs(View(rows)[f.node].fields[k])[i] == c.value - 1)
  {
    hide View, NodeView, FieldView;
    StepReads(rows, f);
    ViewArity(rows, f.node);
    ViewRefs(rows, f.node, f.fieldCursor - rows.offsets[f.node]);
    var c, refs := rows.fields[f.fieldCursor], Refs(View(rows)[f.node].fields[f.fieldCursor - rows.offsets[f.node]]);
    assert c.kind == NODE ==> refs[0] == c.value - 1;
  }

  lemma StepCollection(rows: Rows, f: Frame)
    requires Laid(rows) && FrameOk(rows, f) && f.itemCursor >= f.itemEnd && f.fieldCursor < f.fieldEnd
    requires IsCollection(rows.fields[f.fieldCursor].kind)
    ensures var c := rows.fields[f.fieldCursor];
            var next := f.(fieldCursor := f.fieldCursor + 1, itemCursor := c.value, itemEnd := c.value + c.length);
            && Follows(rows, f, next)
            && forall k, i :: 0 <= k < |View(rows)[f.node].fields| && 0 <= i && FollowedBy(rows, next, k, i) ==>
               FollowedBy(rows, f, k, i)
  {
    ViewArity(rows, f.node);
    ViewRefs(rows, f.node, f.fieldCursor - rows.offsets[f.node]);
  }

  lemma StepComplete(rows: Rows, f: Frame)
    requires Laid(rows) && FrameOk(rows, f) && f.itemCursor >= f.itemEnd && f.fieldCursor >= f.fieldEnd
    ensures Owns(rows, f.node) && Progress(rows, f) == NodeCost(rows, f.node)
    ensures forall k, i :: 0 <= k < |View(rows)[f.node].fields| && 0 <= i < |Refs(View(rows)[f.node].fields[k])| ==>
      FollowedBy(rows, f, k, i)
  {
    ViewArity(rows, f.node);
  }

  // ---------- The search state ----------

  /** The search's variables, with the finishing order and the work spent on each node kept beside them. */
  datatype Search = Search(states: seq<nat>, lens: seq<nat>, stack: seq<Frame>, rank: seq<nat>, clock: nat,
    spent: seq<nat>)

  ghost predicate RefAt(rows: Rows, n: nat, k: nat, i: nat)
    requires Laid(rows)
  {
    n < |rows.tags| && k < |View(rows)[n].fields| && i < |Refs(View(rows)[n].fields[k])|
  }

  ghost function Ref(rows: Rows, n: nat, k: nat, i: nat): (child: nat)
    requires Laid(rows) && RefAt(rows, n, k, i)
    ensures child < |rows.tags| && Edge(View(rows), n, child)
  {
    var g := View(rows);
    assert Bounded(g[n].fields, |g|);
    Refs(g[n].fields[k])[i]
  }

  ghost predicate Sized(rows: Rows, s: Search) {
    |s.states| == |s.lens| == |s.rank| == |s.spent| == |rows.tags|
  }

  /** A finished node has only finished children, all finished before it, and its length is measured. */
  ghost predicate FinishedOk(rows: Rows, s: Search, n: nat)
    requires Laid(rows) && Sized(rows, s) && n < |rows.tags|
  {
    && s.rank[n] < s.clock
    && (forall k: nat, i: nat :: RefAt(rows, n, k, i) ==>
       s.states[Ref(rows, n, k, i)] == FINISHED && s.rank[Ref(rows, n, k, i)] < s.rank[n])
    && s.lens[n] == NodeLength(View(rows)[n], s.lens)
    && Owns(rows, n) && s.spent[n] == 1 + 2 * NodeCost(rows, n)
  }

  /** A suspended node: what it has followed is finished, or is the node above it on the stack. */
  ghost predicate FrameInv(rows: Rows, s: Search, t: nat)
    requires Laid(rows) && Sized(rows, s) && t < |s.stack|
  {
    var f := s.stack[t];
    && FrameOk(rows, f)
    && s.states[f.node] == ACTIVE
    && s.spent[f.node] == Progress(rows, f)
    && (t + 1 < |s.stack| ==> Edge(View(rows), f.node, s.stack[t + 1].node))
    && (forall k: nat, i: nat :: RefAt(rows, f.node, k, i) && FollowedBy(rows, f, k, i) ==>
          s.states[Ref(rows, f.node, k, i)] == FINISHED || (t + 1 < |s.stack| &&
            Ref(rows, f.node, k, i) == s.stack[t + 1].node))
  }

  ghost predicate NodeInv(rows: Rows, s: Search, n: nat)
    requires Laid(rows) && Sized(rows, s) && n < |rows.tags|
  {
    && s.states[n] <= FINISHED
    && (s.states[n] == FINISHED ==> FinishedOk(rows, s, n))
    && (s.states[n] == ACTIVE ==> exists t :: 0 <= t < |s.stack| && s.stack[t].node == n)
    && (s.states[n] == UNSEEN ==> s.spent[n] == 0)
    && (s.states[n] != UNSEEN ==> Reachable(View(rows), RootNodes(rows), n))
  }

  ghost predicate Inv(rows: Rows, s: Search)
    requires Laid(rows)
  {
    && Sized(rows, s)
    && (forall n :: 0 <= n < |rows.tags| ==> NodeInv(rows, s, n))
    && (forall t :: 0 <= t < |s.stack| ==> FrameInv(rows, s, t))
    && (forall t, u :: 0 <= t < u < |s.stack| ==> s.stack[t].node != s.stack[u].node)
  }

  ghost function Advanced(s: Search, next: Frame): Search
    requires s.stack != [] && next.node < |s.spent|
  {
    s.(stack := s.stack[|s.stack| - 1 := next], spent := s.spent[next.node := s.spent[next.node] + 1])
  }

  /** Moving the top frame on, when what it newly follows is finished already. */
  lemma InvAdvance(rows: Rows, s: Search, next: Frame)
    requires Laid(rows) && Inv(rows, s) && s.stack != []
    requires var f := s.stack[|s.stack| - 1];
             FrameOk(rows, f) && Follows(rows, f, next)
             && forall k: nat, i: nat :: RefAt(rows, f.node, k, i) && FollowedBy(rows, next, k, i) ==>
                  FollowedBy(rows, f, k, i) || s.states[Ref(rows, f.node, k, i)] == FINISHED
    ensures Inv(rows, Advanced(s, next))
  {
    hide View, Reachable, FinishedOk, NodeInv;
    var top := |s.stack| - 1;
    var s' := Advanced(s, next);
    assert FrameInv(rows, s, top);
    forall t | 0 <= t < |s'.stack| ensures FrameInv(rows, s', t) {
      assert FrameInv(rows, s, t);
    }
    forall n | 0 <= n < |rows.tags| ensures NodeInv(rows, s', n) {
      AdvancedNode(rows, s, next, n);
    }
  }

  lemma AdvancedNode(rows: Rows, s: Search, next: Frame, n: nat)
    requires Laid(rows) && Sized(rows, s) && s.stack != [] && n < |rows.tags| && NodeInv(rows, s, n)
    requires next.node == s.stack[|s.stack| - 1].node < |rows.tags| && s.states[next.node] == ACTIVE
    ensures NodeInv(rows, Advanced(s, next), n)
  {
    hide View, Reachable;
    var s' := Advanced(s, next);
    if s.states[n] == FINISHED {
      assert FinishedOk(rows, s', n);
    }
    if s.states[n] == ACTIVE {
      var t :| 0 <= t < |s.stack| && s.stack[t].node == n;
      assert s'.stack[t].node == n;
    }
  }

  function NewFrame(rows: Rows, n: nat): Frame
    requires n + 1 < |rows.offsets|
  {
    Frame(n, rows.offsets[n], rows.offsets[n + 1], 0, 0)
  }

  lemma NewFrameOk(rows: Rows, n: nat)
    requires Laid(rows) && n < |rows.tags|
    ensures FrameOk(rows, NewFrame(rows, n)) && Progress(rows, NewFrame(rows, n)) == 0
    ensures forall k: nat, i: nat :: RefAt(rows, n, k, i) ==> !FollowedBy(rows, NewFrame(rows, n), k, i)
  {
    assert Owns(rows, n);
  }

  ghost function Entered(rows: Rows, s: Search, child: nat): Search
    requires child < |s.states| && child + 1 < |rows.offsets|
  {
    s.(states := s.states[child := ACTIVE], stack := s.stack + [NewFrame(rows, child)])
  }

  /** Nodes other than the one entered keep their part of the invariant. */
  lemma EnterKeepsNodes(rows: Rows, s: Search, child: nat, n: nat)
    requires Laid(rows) && Sized(rows, s) && child < |rows.tags| && n < |rows.tags| && n != child
    requires s.states[child] == UNSEEN && NodeInv(rows, s, n)
    ensures NodeInv(rows, Entered(rows, s, child), n)
  {
    var s' := Entered(rows, s, child);
    if s.states[n] == FINISHED {
      assert FinishedOk(rows, s', n);
    }
    if s.states[n] == ACTIVE {
      var t :| 0 <= t < |s.stack| && s.stack[t].node == n;
      assert s'.stack[t].node == n;
    }
  }

  /** Entering a root from an empty stack. */
  lemma InvEnterRoot(rows: Rows, s: Search, root: nat)
    requires Laid(rows) && Inv(rows, s) && s.stack == [] && root in RootNodes(rows) && root < |rows.tags|
    requires s.states[root] == UNSEEN
    ensures Inv(rows, Entered(rows, s, root))
  {
    var s' := Entered(rows, s, root);
    NewFrameOk(rows, root);
    ReachRoot(View(rows), RootNodes(rows), root);
    assert NodeInv(rows, s, root);
    assert s'.stack[0].node == root;
    assert FrameInv(rows, s', 0);
    forall n | 0 <= n < |rows.tags| ensures NodeInv(rows, s', n) {
      if n != root { assert NodeInv(rows, s, n); EnterKeepsNodes(rows, s, root, n); }
    }
  }

  /** The top frame may move on to `next`, which follows nothing new but `child`. */
  ghost predicate Passes(rows: Rows, s: Search, next: Frame, child: nat)
    requires Laid(rows) && s.stack != []
  {
    var f := s.stack[|s.stack| - 1];
    FrameOk(rows, f) && Follows(rows, f, next) && Edge(View(rows), f.node, child)
    && forall k: nat, i: nat :: RefAt(rows, f.node, k, i) && FollowedBy(rows, next, k, i) ==>
         FollowedBy(rows, f, k, i) || Ref(rows, f.node, k, i) == child
  }

  lemma EnterChildFrames(rows: Rows, s: Search, next: Frame, child: nat, t: nat)
    requires Laid(rows) && Inv(rows, s) && s.stack != [] && child < |rows.tags|
    requires Passes(rows, s, next, child)
    requires s.states[child] == UNSEEN
    requires t < |s.stack| + 1
    ensures FrameInv(rows, Entered(rows, Advanced(s, next), child), t)
  {
    hide View, Edge, Reachable, RefAt, Ref, FollowedBy, NodeLength, Cyclic;
    var top := |s.stack| - 1;
    var s' := Entered(rows, Advanced(s, next), child);
    assert FrameInv(rows, s, top) && NodeInv(rows, s, child);
    NewFrameOk(rows, child);
    assert s'.stack[top + 1] == NewFrame(rows, child);
    if t <= top { assert FrameInv(rows, s, t); }
  }

  lemma EnterChildNodes(rows: Rows, s: Search, next: Frame, child: nat, n: nat)
    requires Laid(rows) && Inv(rows, s) && s.stack != [] && child < |rows.tags|
    requires Passes(rows, s, next, child)
    requires s.states[child] == UNSEEN
    requires n < |rows.tags|
    ensures NodeInv(rows, Entered(rows, Advanced(s, next), child), n)
  {
    hide View, Edge, Reachable, RefAt, Ref, FollowedBy, NodeLength, Cyclic;
    var top := |s.stack| - 1;
    var s' := Entered(rows, Advanced(s, next), child);
    assert FrameInv(rows, s, top) && NodeInv(rows, s, s.stack[top].node) && NodeInv(rows, s, n);
    if n == child {
      ReachStep(View(rows), RootNodes(rows), s.stack[top].node, child);
      assert s'.stack[top + 1].node == child;
    } else {
      if s.states[n] == FINISHED { assert FinishedOk(rows, s', n); }
      if s.states[n] == ACTIVE {
        var t :| 0 <= t < |s.stack| && s.stack[t].node == n;
        assert s'.stack[t].node == n;
      }
    }
  }

  /** Entering an unseen child of the top frame, which has moved on past it. */
  lemma InvEnterChild(rows: Rows, s: Search, next: Frame, child: nat)
    requires Laid(rows) && Inv(rows, s) && s.stack != [] && child < |rows.tags|
    requires Passes(rows, s, next, child)
    requires s.states[child] == UNSEEN
    ensures Inv(rows, Entered(rows, Advanced(s, next), child))
  {
    var s' := Entered(rows, Advanced(s, next), child);
    forall t | 0 <= t < |s'.stack| ensures FrameInv(rows, s', t) { EnterChildFrames(rows, s, next, child, t); }
    forall n | 0 <= n < |rows.tags| ensures NodeInv(rows, s', n) { EnterChildNodes(rows, s, next, child, n); }
    forall t, u | 0 <= t < u < |s'.stack| ensures s'.stack[t].node != s'.stack[u].node {
      assert FrameInv(rows, s, t);
    }
  }

  ghost function Left(rows: Rows, s: Search, length: nat): Search
    requires s.stack != [] && Sized(rows, s) && s.stack[|s.stack| - 1].node < |rows.tags| < |rows.offsets|
    requires Owns(rows, s.stack[|s.stack| - 1].node)
    requires NodeCost(rows, s.stack[|s.stack| - 1].node) >= 0
  {
    var n := s.stack[|s.stack| - 1].node;
    Search(s.states[n := FINISHED], s.lens[n := length], s.stack[..|s.stack| - 1], s.rank[n := s.clock], s.clock + 1,
           s.spent[n := 1 + 2 * NodeCost(rows, n)])
  }

  /** A finished node stays finished when another one is: it does not refer to a node finishing later. */
  lemma LeaveKeepsFinished(rows: Rows, s: Search, length: nat, m: nat)
    requires Laid(rows) && Inv(rows, s) && s.stack != []
    requires var n := s.stack[|s.stack| - 1].node;
      n < |rows.tags| && Owns(rows, n) && NodeCost(rows, n) >= 0 && s.states[n] == ACTIVE
    requires m < |rows.tags| && s.states[m] == FINISHED
    ensures FinishedOk(rows, Left(rows, s, length), m)
  {
    var s' := Left(rows, s, length);
    assert NodeInv(rows, s, m) && FinishedOk(rows, s, m);
    NodeLengthLocal(rows, m, s.lens, s'.lens);
  }

  lemma NodeLengthLocal(rows: Rows, m: nat, a: seq<nat>, b: seq<nat>)
    requires Laid(rows) && m < |rows.tags| && |a| == |b| == |rows.tags|
    requires forall k: nat, i: nat :: RefAt(rows, m, k, i) ==> a[Ref(rows, m, k, i)] == b[Ref(rows, m, k, i)]
    ensures Bounded(View(rows)[m].fields, |rows.tags|)
    ensures NodeLength(View(rows)[m], a) == NodeLength(View(rows)[m], b)
  {
    var fields := View(rows)[m].fields;
    assert Bounded(fields, |rows.tags|);
    forall k | 0 <= k < |fields| ensures Same(Refs(fields[k]), a, b) {
      forall i | 0 <= i < |Refs(fields[k])| ensures a[Refs(fields[k])[i]] == b[Refs(fields[k])[i]] {
        assert RefAt(rows, m, k, i) && Ref(rows, m, k, i) == Refs(fields[k])[i];
      }
    }
    FieldsLengthLocal(fields, a, b);
  }

  /** Finishing the top node once all its references are followed. */
  lemma InvLeave(rows: Rows, s: Search, length: nat)
    requires Laid(rows) && Inv(rows, s) && s.stack != []
    requires var f := s.stack[|s.stack| - 1];
             FrameOk(rows, f) && f.itemCursor >= f.itemEnd && f.fieldCursor >= f.fieldEnd
             && length == NodeLength(View(rows)[f.node], s.lens)
             && Owns(rows, f.node) && NodeCost(rows, f.node) >= 0
    ensures Inv(rows, Left(rows, s, length))
  {
    hide View, Edge, Reachable, Ref, FollowedBy, NodeLength, Cyclic;
    var top := |s.stack| - 1;
    var f := s.stack[top];
    var s' := Left(rows, s, length);
    StepComplete(rows, f);
    assert FrameInv(rows, s, top) && NodeInv(rows, s, f.node);
    forall k: nat, i: nat | RefAt(rows, f.node, k, i)
      ensures s.states[Ref(rows, f.node, k, i)] == FINISHED && s.rank[Ref(rows, f.node, k, i)] < s.clock
    {
      assert FollowedBy(rows, f, k, i);
      assert NodeInv(rows, s, Ref(rows, f.node, k, i));
    }
    NodeLengthLocal(rows, f.node, s.lens, s'.lens);
    assert FinishedOk(rows, s', f.node);
    forall t | 0 <= t < |s'.stack| ensures FrameInv(rows, s', t) {
      assert FrameInv(rows, s, t);
    }
    forall n | 0 <= n < |rows.tags| ensures NodeInv(rows, s', n) {
      assert NodeInv(rows, s, n);
      if s.states[n] == FINISHED {
        LeaveKeepsFinished(rows, s, length, n);
      }
      if s.states[n] == ACTIVE && n != f.node {
        var t :| 0 <= t < |s.stack| && s.stack[t].node == n;
        assert s'.stack[t].node == n;
      }
    }
  }

  // ---------- What the search proves ----------

  /** An edge back to an active node closes a cycle through the stack. */
  lemma BackEdgeCloses(rows: Rows, s: Search, child: nat)
    requires Laid(rows) && Inv(rows, s) && s.stack != [] && child < |rows.tags|
    requires Edge(View(rows), s.stack[|s.stack| - 1].node, child) && s.states[child] == ACTIVE
    ensures Cyclic(View(rows))
  {
    hide View, Edge, Cyclic, Laid, Inv;
    var t := ActiveOnStack(rows, s, child);
    var nodes := NodesFrom(s.stack, t);
    forall i | 0 <= i < |nodes| - 1 ensures Edge(View(rows), nodes[i], nodes[i + 1]) {
      StackEdge(rows, s, t + i);
    }
    BackEdgeCycle(View(rows), nodes, child);
  }

  ghost function NodesFrom(stack: seq<Frame>, t: nat): (nodes: seq<nat>)
    requires t <= |stack|
    ensures |nodes| == |stack| - t && forall i :: 0 <= i < |nodes| ==> nodes[i] == stack[t + i].node
    decreases |stack| - t
  {
    if t == |stack| then [] else [stack[t].node] + NodesFrom(stack, t + 1)
  }

  lemma ActiveOnStack(rows: Rows, s: Search, n: nat) returns (t: nat)
    requires Laid(rows) && Inv(rows, s) && n < |rows.tags| && s.states[n] == ACTIVE
    ensures t < |s.stack| && s.stack[t].node == n
  {
    hide Laid, FrameInv, FinishedOk, Reachable;
    assert NodeInv(rows, s, n);
    t :| 0 <= t < |s.stack| && s.stack[t].node == n;
  }

  lemma StackEdge(rows: Rows, s: Search, t: nat)
    requires Laid(rows) && Inv(rows, s) && t + 1 < |s.stack|
    ensures Edge(View(rows), s.stack[t].node, s.stack[t + 1].node)
  {
    assert FrameInv(rows, s, t);
  }

  /** When every node is finished the finishing order is a topological rank and the lengths solve their equations. */
  lemma AllFinished(rows: Rows, s: Search)
    requires Laid(rows) && Inv(rows, s)
    requires forall n :: 0 <= n < |rows.tags| ==> s.states[n] == FINISHED
    ensures Ranked(View(rows), s.rank) && Measures(View(rows), s.lens)
    ensures forall n :: 0 <= n < |rows.tags| ==> Reachable(View(rows), RootNodes(rows), n)
  {
    var g := View(rows);
    forall a: nat, b: nat | Edge(g, a, b) && b < |g| ensures s.rank[b] < s.rank[a] {
      assert NodeInv(rows, s, a) && FinishedOk(rows, s, a);
      var k :| 0 <= k < |g[a].fields| && b in Refs(g[a].fields[k]);
      var i :| 0 <= i < |Refs(g[a].fields[k])| && Refs(g[a].fields[k])[i] == b;
      assert RefAt(rows, a, k, i) && Ref(rows, a, k, i) == b;
    }
    forall n | 0 <= n < |g| ensures s.lens[n] == NodeLength(g[n], s.lens) && Reachable(g, RootNodes(rows), n) {
      assert NodeInv(rows, s, n) && FinishedOk(rows, s, n);
    }
  }

  /** A node left over when the roots are finished is one no root reaches. */
  lemma LeftOver(rows: Rows, s: Search, n: nat)
    requires Laid(rows) && Inv(rows, s) && n < |rows.tags| && s.states[n] != FINISHED
    requires forall r :: 0 <= r < |rows.rootIds| ==> s.states[RootNodes(rows)[r]] == FINISHED
    ensures !Reachable(View(rows), RootNodes(rows), n)
  {
    var g := View(rows);
    var inside := set m: nat | m < |g| && s.states[m] == FINISHED;
    forall a, b | a in inside && Edge(g, a, b) ensures b in inside {
      assert NodeInv(rows, s, a) && FinishedOk(rows, s, a);
      var k :| 0 <= k < |g[a].fields| && b in Refs(g[a].fields[k]);
      var i :| 0 <= i < |Refs(g[a].fields[k])| && Refs(g[a].fields[k])[i] == b;
      assert RefAt(rows, a, k, i) && Ref(rows, a, k, i) == b;
    }
    if Reachable(g, RootNodes(rows), n) {
      ClosedHoldsReachable(g, RootNodes(rows), inside, n);
    }
  }

  // ---------- Work ----------

  lemma {:induction false} SumUpdate(xs: seq<nat>, i: nat, v: nat)
    requires i < |xs|
    ensures Sum(xs[i := v]) == Sum(xs) - xs[i] + v
  {
    if i == 0 {
      assert xs[0 := v][1..] == xs[1..];
    } else {
      assert xs[i := v][1..] == xs[1..][i - 1 := v];
      SumUpdate(xs[1..], i - 1, v);
    }
  }

  lemma {:induction false} SumZero(xs: seq<nat>)
    requires forall i :: 0 <= i < |xs| ==> xs[i] == 0
    ensures Sum(xs) == 0
  {
    if xs != [] { SumZero(xs[1..]); }
  }

  /** One visit and one measurement of every node: linear in nodes, fields and items. */
  lemma {:induction false} SumOfCosts(rows: Rows, spent: seq<nat>, n: nat)
    requires Laid(rows) && n <= |spent| == |rows.tags|
    requires forall m :: 0 <= m < |spent| ==> Owns(rows, m) && spent[m] == 1 + 2 * NodeCost(rows, m)
    ensures rows.offsets[n] <= |rows.fields|
    ensures Sum(spent[n..]) == (|rows.tags| - n) + 2 * (|rows.fields| - rows.offsets[n]) +
      2 * (|rows.items| - ItemStart(rows.fields, rows.offsets[n]))
    decreases |rows.tags| - n
  {
    if n < |rows.tags| {
      assert Owns(rows, n);
      SumOfCosts(rows, spent, n + 1);
      assert spent[n..][1..] == spent[n + 1..];
    } else {
      assert spent[n..] == [];
    }
  }

  /** Nodes, fields and items: what a search can spend at most. */
  ghost function SearchCost(rows: Rows): nat {
    |rows.tags| + 2 * |rows.fields| + 2 * |rows.items|
  }

  lemma {:induction false} SumAtMost(xs: seq<nat>, ys: seq<nat>)
    requires |xs| == |ys| && forall i :: 0 <= i < |xs| ==> xs[i] <= ys[i]
    ensures Sum(xs) <= Sum(ys)
  {
    if xs != [] { SumAtMost(xs[1..], ys[1..]); }
  }

  lemma CostIsNat(rows: Rows, n: nat)
    requires Laid(rows) && n < |rows.tags|
    ensures Owns(rows, n) && NodeCost(rows, n) >= 0
  {
    assert Owns(rows, n);
    ItemStartRises(rows.fields, rows.offsets[n], rows.offsets[n + 1]);
  }

  /** A frame never spends more than its node costs. */
  lemma ProgressBound(rows: Rows, f: Frame)
    requires Laid(rows) && FrameOk(rows, f)
    ensures Owns(rows, f.node) && Progress(rows, f) <= NodeCost(rows, f.node)
  {
    assert Owns(rows, f.node);
    ItemStartRises(rows.fields, f.fieldCursor, f.fieldEnd);
  }

  lemma SpentBound(rows: Rows, s: Search, n: nat)
    requires Laid(rows) && Inv(rows, s) && n < |rows.tags|
    ensures Owns(rows, n) && s.spent[n] <= 1 + 2 * NodeCost(rows, n)
    ensures s.states[n] == ACTIVE ==> s.spent[n] <= NodeCost(rows, n)
  {
    hide View, Edge, Reachable, RefAt, Ref, FollowedBy, NodeLength, Progress, NodeCost;
    CostIsNat(rows, n);
    assert NodeInv(rows, s, n);
    if s.states[n] == ACTIVE {
      var t :| 0 <= t < |s.stack| && s.stack[t].node == n;
      assert FrameInv(rows, s, t);
      ProgressBound(rows, s.stack[t]);
    }
  }

  /** What is still to be charged to the node on top fits into the cost of the whole search. */
  lemma RoomOnTop(rows: Rows, s: Search, extra: nat)
    requires Laid(rows) && Inv(rows, s) && s.stack != [] && Top(s).node < |rows.tags| && Owns(rows, Top(s).node)
    requires s.spent[Top(s).node] + extra <= 1 + 2 * NodeCost(rows, Top(s).node)
    ensures Sum(s.spent) + extra <= SearchCost(rows)
  {
    hide Inv, NodeCost;
    var n := Top(s).node;
    SizedSearch(rows, s);
    forall m | 0 <= m < |rows.tags|
      ensures Owns(rows, m) && NodeCost(rows, m) >= 0 && s.spent[m] <= 1 + 2 * NodeCost(rows, m)
    {
      CostIsNat(rows, m);
      SpentBound(rows, s, m);
    }
    var caps: seq<nat> := seq(|rows.tags|, m requires 0 <= m < |rows.tags| => 1 + 2 * NodeCost(rows, m));
    SumUpdate(s.spent, n, s.spent[n] + extra);
    SumAtMost(s.spent[n := s.spent[n] + extra], caps);
    SumOfCosts(rows, caps, 0);
    assert caps[0..] == caps;
    FirstOffset(rows);
  }

  lemma SizedSearch(rows: Rows, s: Search)
    requires Laid(rows) && Inv(rows, s)
    ensures Sized(rows, s)
  {
  }

  lemma FirstOffset(rows: Rows)
    requires Laid(rows)
    ensures rows.offsets[0] == 0 && ItemStart(rows.fields, 0) == 0
  {
  }

  // ---------- Lengths beyond 64 bits ----------

  /** Some node's canonical bytes are too long for a 64-bit length. */
  ghost predicate TooLong(g: Graph) {
    forall exact :: Measures(g, exact) ==> exists n :: 0 <= n < |g| && exact[n] >= U64_LIMIT
  }

  /** What the search has measured agrees with any complete measurement. */
  lemma {:induction false} FinishedExact(rows: Rows, s: Search, exact: seq<nat>, n: nat)
    requires Laid(rows) && Inv(rows, s) && Measures(View(rows), exact) && n < |rows.tags| && s.states[n] == FINISHED
    ensures s.lens[n] == exact[n]
    decreases s.rank[n]
  {
    hide View, Edge, Reachable;
    assert NodeInv(rows, s, n) && FinishedOk(rows, s, n);
    forall k: nat, i: nat | RefAt(rows, n, k, i) ensures s.lens[Ref(rows, n, k, i)] == exact[Ref(rows, n, k, i)] {
      FinishedExact(rows, s, exact, Ref(rows, n, k, i));
    }
    NodeLengthLocal(rows, n, s.lens, exact);
  }

  lemma OverlongNode(rows: Rows, s: Search)
    requires Laid(rows) && Inv(rows, s) && s.stack != [] && Readable(rows, Top(s))
    requires StepFrame(rows, Top(s)) == Complete && Sized(rows, s) &&
      NodeLength(View(rows)[Top(s).node], s.lens) >= U64_LIMIT
    ensures TooLong(View(rows))
  {
    hide View, Edge, Reachable;
    var n := Top(s).node;
    assert FrameInv(rows, s, |s.stack| - 1);
    StepComplete(rows, Top(s));
    forall exact | Measures(View(rows), exact) ensures exact[n] >= U64_LIMIT {
      forall k: nat, i: nat | RefAt(rows, n, k, i) ensures s.lens[Ref(rows, n, k, i)] == exact[Ref(rows, n, k, i)] {
        assert FollowedBy(rows, Top(s), k, i);
        FinishedExact(rows, s, exact, Ref(rows, n, k, i));
      }
      NodeLengthLocal(rows, n, s.lens, exact);
    }
  }

  /** Why a search may run out of resources. */
  ghost predicate OutOfReach(rows: Rows, work: int, maxWork: int)
    requires Laid(rows)
  {
    Over(work, maxWork) || TooLong(View(rows)) || Huge(rows)
  }

  // ---------- The search itself ----------

  /** What the reads of one iteration need. */
  ghost predicate Readable(rows: Rows, f: Frame) {
    && f.node < |rows.tags| && |rows.offsets| == |rows.tags| + 1
    && (f.itemCursor < f.itemEnd ==> f.itemCursor < |rows.items| && rows.items[f.itemCursor].value >= 1)
    && (f.itemCursor >= f.itemEnd && f.fieldCursor < f.fieldEnd ==> f.fieldCursor < |rows.fields|)
    && (f.itemCursor >= f.itemEnd && f.fieldCursor < f.fieldEnd && rows.fields[f.fieldCursor].kind == NODE ==>
       rows.fields[f.fieldCursor].value >= 1)
  }

  ghost function Top(s: Search): Frame
    requires s.stack != []
  {
    s.stack[|s.stack| - 1]
  }

  lemma TopReadable(rows: Rows, s: Search)
    requires Laid(rows) && Inv(rows, s) && s.stack != []
    ensures Readable(rows, Top(s)) && Sized(rows, s)
  {
    assert FrameInv(rows, s, |s.stack| - 1);
    StepReads(rows, Top(s));
  }

  lemma OnAdvance(rows: Rows, s: Search, next: Frame)
    requires Laid(rows) && Inv(rows, s) && s.stack != [] && Readable(rows, Top(s))
    requires StepFrame(rows, Top(s)) == Advance(next)
    ensures next.node == Top(s).node && Sized(rows, s) && Inv(rows, Advanced(s, next))
  {
    assert FrameInv(rows, s, |s.stack| - 1);
    StepReads(rows, Top(s));
    if IsCollection(rows.fields[Top(s).fieldCursor].kind) {
      StepCollection(rows, Top(s));
    } else {
      StepField(rows, Top(s));
    }
    InvAdvance(rows, s, next);
  }

  lemma DescendPasses(rows: Rows, s: Search, next: Frame, child: nat)
    requires Laid(rows) && Inv(rows, s) && s.stack != [] && Readable(rows, Top(s))
    requires StepFrame(rows, Top(s)) == Descend(next, child)
    ensures child < |rows.tags| && next.node == Top(s).node && Sized(rows, s) && Passes(rows, s, next, child)
  {
    hide View, NodeView, FieldView, Placed, FinishedOk, NodeInv;
    assert FrameInv(rows, s, |s.stack| - 1);
    StepReads(rows, Top(s));
    if Top(s).itemCursor < Top(s).itemEnd {
      StepItem(rows, Top(s));
    } else {
      StepField(rows, Top(s));
    }
  }

  lemma OnDescend(rows: Rows, s: Search, next: Frame, child: nat)
    requires Laid(rows) && Inv(rows, s) && s.stack != [] && Readable(rows, Top(s))
    requires StepFrame(rows, Top(s)) == Descend(next, child)
    ensures child < |rows.tags| && next.node == Top(s).node && Sized(rows, s)
    ensures s.states[child] == FINISHED ==> Inv(rows, Advanced(s, next))
    ensures s.states[child] == UNSEEN ==> Inv(rows, Entered(rows, Advanced(s, next), child))
    ensures s.states[child] == ACTIVE ==> Cyclic(View(rows))
    ensures s.states[child] <= FINISHED
  {
    hide View, NodeView, FieldView, Placed, FinishedOk, StepFrame;
    DescendPasses(rows, s, next, child);
    assert NodeInv(rows, s, child);
    if s.states[child] == FINISHED {
      InvAdvance(rows, s, next);
    } else if s.states[child] == UNSEEN {
      InvEnterChild(rows, s, next, child);
    } else {
      BackEdgeCloses(rows, s, child);
    }
  }

  lemma OnComplete(rows: Rows, s: Search)
    requires Laid(rows) && Inv(rows, s) && s.stack != [] && Readable(rows, Top(s))
    requires StepFrame(rows, Top(s)) == Complete
    ensures Sized(rows, s) && Known(View(rows)[Top(s).node].fields, s.lens)
    ensures Owns(rows, Top(s).node) && s.spent[Top(s).node] == NodeCost(rows, Top(s).node)
    ensures s.states[Top(s).node] == ACTIVE
    ensures Inv(rows, Left(rows, s, NodeLength(View(rows)[Top(s).node], s.lens)))
  {
    assert FrameInv(rows, s, |s.stack| - 1);
    StepComplete(rows, Top(s));
    var n := Top(s).node;
    var fields := View(rows)[n].fields;
    forall k | 0 <= k < |fields| ensures Measurable(fields[k], s.lens) {
      forall i | 0 <= i < |Refs(fields[k])| ensures s.lens[Refs(fields[k])[i]] >= 1 {
        assert RefAt(rows, n, k, i) && FollowedBy(rows, Top(s), k, i);
        var child := Ref(rows, n, k, i);
        assert NodeInv(rows, s, child) && FinishedOk(rows, s, child);
      }
    }
    InvLeave(rows, s, NodeLength(View(rows)[n], s.lens));
  }

  datatype Visited = Visited(states: seq<nat>, lens: seq<nat>, work: nat)

  /** Search state `s` is the one the variables hold, and the work charged since `base` is what it spent. */
  ghost predicate Tracks(s: Search, states: seq<nat>, lens: seq<nat>, stack: seq<Frame>, work: int, base: int) {
    s.states == states && s.lens == lens && s.stack == stack && work - base == Sum(s.spent)
  }

  /** Every node that was finished stays finished, and nothing entered becomes unseen again. */
  ghost predicate Grows(before: seq<nat>, after: seq<nat>) {
    |before| == |after| && forall n :: 0 <= n < |before| ==>
      (before[n] == FINISHED ==> after[n] == FINISHED) && (before[n] != UNSEEN ==> after[n] != UNSEEN)
  }

  /** One iteration of the inner loop. */
  method Iterate(
    rows: Rows, states: seq<nat>, lens: seq<nat>, stack: seq<Frame>, work: nat, maxWork: nat, ghost s: Search,
    ghost base: int)
    returns (r: Outcome<Visited>, next: seq<Frame>, ghost s': Search)
    requires Laid(rows) && Inv(rows, s) && Tracks(s, states, lens, stack, work, base) && stack != []
    ensures r.Ok? ==> Inv(rows, s') && Tracks(s', r.value.states, r.value.lens, next, r.value.work, base)
    ensures r.Ok? ==> Grows(states, r.value.states) && work < r.value.work <= maxWork
    ensures r.Err? ==>
      (r.error == ResourceLimit && OutOfReach(rows, base + SearchCost(rows), maxWork)) ||
        (r.error == CyclicGraph && Cyclic(View(rows)))
  {
    hide Inv, Laid, View, FrameInv, NodeInv, TooLong, Huge, SearchCost, NodeLength;
    next, s' := stack, s;
    TopReadable(rows, s);
    RoomForOne(rows, s);
    var claimed := ClaimWork(work, 1, maxWork);
    if claimed.Err? { return Err(claimed.error), next, s'; }
    var top := |stack| - 1;
    match StepFrame(rows, stack[top]) {
      case Advance(frame) =>
        OnAdvance(rows, s, frame);
        SumUpdate(s.spent, frame.node, s.spent[frame.node] + 1);
        next, s' := stack[top := frame], Advanced(s, frame);
        r := Ok(Visited(states, lens, claimed.value));
      case Descend(frame, child) =>
        OnDescend(rows, s, frame, child);
        SumUpdate(s.spent, frame.node, s.spent[frame.node] + 1);
        if states[child] == UNSEEN {
          next, s' := stack[top := frame] + [NewFrame(rows, child)], Entered(rows, Advanced(s, frame), child);
          r := Ok(Visited(states[child := ACTIVE], lens, claimed.value));
        } else if states[child] == ACTIVE {
          r := Err(CyclicGraph);
        } else {
          next, s' := stack[top := frame], Advanced(s, frame);
          r := Ok(Visited(states, lens, claimed.value));
        }
      case Complete =>
        OnComplete(rows, s);
        var completed := stack[top].node;
        var measured := CanonicalNodeLength(rows, completed, lens, claimed.value, maxWork);
        if measured.Err? {
          RoomToMeasure(rows, s);
          if NodeLength(View(rows)[completed], lens) >= U64_LIMIT { OverlongNode(rows, s); }
          r := Err(measured.error);
        } else {
          SumUpdate(s.spent, completed, 1 + 2 * NodeCost(rows, completed));
          next, s' := stack[..top], Left(rows, s, measured.value.length);
          r := Ok(Visited(states[completed := FINISHED], lens[completed := measured.value.length],
            measured.value.work));
        }
    }
  }

  lemma RoomForOne(rows: Rows, s: Search)
    requires Laid(rows) && Inv(rows, s) && s.stack != []
    ensures Sum(s.spent) + 1 <= SearchCost(rows)
  {
    hide View, SearchCost;
    assert FrameInv(rows, s, |s.stack| - 1);
    SpentBound(rows, s, Top(s).node);
    CostIsNat(rows, Top(s).node);
    RoomOnTop(rows, s, 1);
  }

  lemma RoomToMeasure(rows: Rows, s: Search)
    requires Laid(rows) && Inv(rows, s) && s.stack != [] && Top(s).node < |rows.tags| && Owns(rows, Top(s).node)
    requires Sized(rows, s) && s.spent[Top(s).node] == NodeCost(rows, Top(s).node)
    ensures Sum(s.spent) + 1 + NodeCost(rows, Top(s).node) <= SearchCost(rows)
  {
    hide Inv, View, SearchCost;
    CostIsNat(rows, Top(s).node);
    RoomOnTop(rows, s, 1 + NodeCost(rows, Top(s).node));
  }

  lemma Exhausted(rows: Rows, s: Search, n: nat)
    requires Laid(rows) && Inv(rows, s) && s.stack == [] && n < |rows.tags|
    ensures Sized(rows, s) && s.states[n] != ACTIVE && s.states[n] <= FINISHED
  {
    assert NodeInv(rows, s, n);
  }

  /** Everything reachable from one unseen root. */
  method Visit(
    rows: Rows, root: nat, states0: seq<nat>, lens0: seq<nat>, work0: nat, maxWork: nat, ghost s0: Search,
    ghost base: int)
    returns (r: Outcome<Visited>, ghost s: Search)
    requires Laid(rows) && Inv(rows, s0) && Tracks(s0, states0, lens0, [], work0, base)
    requires root in RootNodes(rows) && root < |rows.tags| == |states0| && states0[root] == UNSEEN
    ensures r.Ok? ==> Inv(rows, s) && Tracks(s, r.value.states, r.value.lens, [], r.value.work, base)
    ensures r.Ok? ==> Grows(states0, r.value.states) && r.value.states[root] == FINISHED
    ensures r.Err? ==>
      (r.error == ResourceLimit && OutOfReach(rows, base + SearchCost(rows), maxWork)) ||
        (r.error == CyclicGraph && Cyclic(View(rows)))
  {
    hide Inv, FrameInv, NodeInv, View, OutOfReach, SearchCost;
    InvEnterRoot(rows, s0, root);
    s := Entered(rows, s0, root);
    var states, lens, stack, work := states0[root := ACTIVE], lens0, [NewFrame(rows, root)], work0;
    while stack != []
      invariant Inv(rows, s) && Tracks(s, states, lens, stack, work, base)
      invariant Grows(states0[root := ACTIVE], states)
      decreases maxWork - work
    {
      var step;
      step, stack, s := Iterate(rows, states, lens, stack, work, maxWork, s, base);
      if step.Err? {
        return Err(step.error), s;
      }
      states, lens, work := step.value.states, step.value.lens, step.value.work;
    }
    Exhausted(rows, s, root);
    return Ok(Visited(states, lens, work)), s;
  }

  datatype Searched = Searched(lens: seq<nat>, work: nat)

  ghost function Unvisited(count: nat): Search {
    Search(seq(count, i => 0), seq(count, i => 0), [], seq(count, i => 0), 0, seq(count, i => 0))
  }

  lemma InvInitially(rows: Rows)
    requires Laid(rows)
    ensures Inv(rows, Unvisited(|rows.tags|)) && Sum(Unvisited(|rows.tags|).spent) == 0
  {
    SumZero(Unvisited(|rows.tags|).spent);
  }

  lemma RootInRange(rows: Rows, r: nat)
    requires Laid(rows) && r < |rows.rootIds|
    ensures rows.rootIds[r] >= 1 && rows.rootIds[r] - 1 < |rows.tags|
    ensures rows.rootIds[r] - 1 == RootNodes(rows)[r] && rows.rootIds[r] - 1 in RootNodes(rows)
  {
    assert RootNodes(rows)[r] in RootNodes(rows);
  }

  /** The work of a finished search: one visit and one measurement of every node, field and item. */
  lemma SearchWork(rows: Rows, s: Search)
    requires Laid(rows) && Inv(rows, s)
    requires forall n :: 0 <= n < |rows.tags| ==> s.states[n] == FINISHED
    ensures Sum(s.spent) == |rows.tags| + 2 * |rows.fields| + 2 * |rows.items|
  {
    forall n | 0 <= n < |rows.tags| ensures Owns(rows, n) && s.spent[n] == 1 + 2 * NodeCost(rows, n) {
      assert NodeInv(rows, s, n) && FinishedOk(rows, s, n);
    }
    SumOfCosts(rows, s.spent, 0);
    assert s.spent[0..] == s.spent;
  }

  /** Proves acyclicity and reachability and measures every node, or names a real defect. */
  method ValidateGraphAndLengths(rows: Rows, startWork: nat, maxWork: nat) returns (r: Outcome<Searched>)
    requires Laid(rows)
    ensures r.Ok? ==> Acyclic(View(rows)) && Measures(View(rows), r.value.lens)
    ensures r.Ok? ==> forall n :: 0 <= n < |rows.tags| ==> Reachable(View(rows), RootNodes(rows), n)
    ensures r.Ok? ==> r.value.work == startWork + |rows.tags| + SearchCost(rows)
    ensures r == Err(CyclicGraph) ==> Cyclic(View(rows))
    ensures r == Err(UnreachableNode) ==> exists n :: 0 <= n < |rows.tags| && !Reachable(View(rows), RootNodes(rows), n)
    ensures r == Err(ResourceLimit) ==> OutOfReach(rows, startWork + |rows.tags| + SearchCost(rows), maxWork)
    ensures r.Err? ==> r.error == ResourceLimit || r.error == CyclicGraph || r.error == UnreachableNode
  {
    hide Inv, FrameInv, NodeInv, View, TooLong, Huge;
    var work :- ClaimWork(startWork, |rows.tags|, maxWork);
    var states: seq<nat>, lens: seq<nat> := seq(|rows.tags|, i => 0), seq(|rows.tags|, i => 0);
    ghost var s, base := Unvisited(|rows.tags|), work;
    InvInitially(rows);
    var root := 0;
    while root < |rows.rootIds|
      invariant 0 <= root <= |rows.rootIds|
      invariant Inv(rows, s) && Tracks(s, states, lens, [], work, base)
      invariant |states| == |rows.tags|
      invariant forall i :: 0 <= i < root ==> states[RootNodes(rows)[i]] == FINISHED
    {
      RootInRange(rows, root);
      var node := rows.rootIds[root] - 1;
      Exhausted(rows, s, node);
      if states[node] != FINISHED {
        var visit;
        visit, s := Visit(rows, node, states, lens, work, maxWork, s, base);
        if visit.Err? {
          return Err(visit.error);
        }
        states, lens, work := visit.value.states, visit.value.lens, visit.value.work;
      }
      root := root + 1;
    }
    if n :| 0 <= n < |states| && states[n] != FINISHED {
      LeftOver(rows, s, n);
      return Err(UnreachableNode);
    }
    AllFinished(rows, s);
    SearchWork(rows, s);
    return Ok(Searched(lens, work));
  }
}
