/** Sorting by a total order, for the places where the source sorts before it checks. */
module Sorting {

  ghost predicate TotalOrder<T(!new)>(le: (T, T) -> bool) {
    && (forall a, b :: le(a, b) || le(b, a))
    && (forall a, b, c :: le(a, b) && le(b, c) ==> le(a, c))
  }

  ghost predicate Sorted<T>(le: (T, T) -> bool, xs: seq<T>) {
    forall i, j :: 0 <= i < j < |xs| ==> le(xs[i], xs[j])
  }

  function Insert<T>(le: (T, T) -> bool, x: T, xs: seq<T>): (r: seq<T>)
    ensures multiset(r) == multiset(xs) + multiset{x} && |r| == |xs| + 1
  {
    if xs == [] || le(x, xs[0]) then [x] + xs
    else
      assert xs == [xs[0]] + xs[1..];
      [xs[0]] + Insert(le, x, xs[1..])
  }

  function InOrder<T>(le: (T, T) -> bool, xs: seq<T>): (r: seq<T>)
    ensures multiset(r) == multiset(xs) && |r| == |xs|
  {
    if xs == [] then []
    else
      assert xs == [xs[0]] + xs[1..];
      Insert(le, xs[0], InOrder(le, xs[1..]))
  }

  lemma {:induction false} InsertSorts<T(!new)>(le: (T, T) -> bool, x: T, xs: seq<T>)
    requires TotalOrder(le) && Sorted(le, xs)
    ensures Sorted(le, Insert(le, x, xs))
  {
    if xs != [] && !le(x, xs[0]) {
      var rest := Insert(le, x, xs[1..]);
      InsertSorts(le, x, xs[1..]);
      forall j | 0 <= j < |rest| ensures le(xs[0], rest[j]) {
        assert rest[j] in multiset(rest);
        assert rest[j] == x || rest[j] in xs[1..];
      }
    }
  }

  lemma {:induction false} SortSorts<T(!new)>(le: (T, T) -> bool, xs: seq<T>)
    requires TotalOrder(le)
    ensures Sorted(le, InOrder(le, xs))
  {
    if xs != [] {
      SortSorts(le, xs[1..]);
      InsertSorts(le, xs[0], InOrder(le, xs[1..]));
    }
  }

  lemma SameMembers<T>(xs: seq<T>, ys: seq<T>, x: T)
    requires multiset(xs) == multiset(ys)
    ensures x in xs <==> x in ys
  {
    assert x in xs <==> x in multiset(xs);
    assert x in ys <==> x in multiset(ys);
  }

  // ---------- Strict orders ----------

  ghost predicate Asymmetric<T(!new)>(lt: (T, T) -> bool) {
    forall a, b :: lt(a, b) ==> !lt(b, a)
  }

  lemma HeadFirst<T>(lt: (T, T) -> bool, xs: seq<T>, x: T)
    requires Sorted(lt, xs) && x in xs
    ensures x == xs[0] || lt(xs[0], x)
  {
    var i :| 0 <= i < |xs| && xs[i] == x;
    assert 0 < i ==> lt(xs[0], xs[i]);
  }

  lemma TailMember<T(!new)>(lt: (T, T) -> bool, xs: seq<T>, x: T)
    requires Asymmetric(lt) && Sorted(lt, xs) && xs != []
    ensures x in xs[1..] <==> x in xs && x != xs[0]
  {
    if x in xs[1..] {
      var k :| 0 <= k < |xs[1..]| && xs[1..][k] == x;
      assert lt(xs[0], xs[k + 1]);
    }
    if x in xs && x != xs[0] {
      var k :| 0 <= k < |xs| && xs[k] == x;
      assert xs[1..][k - 1] == x;
    }
  }

  /** A list in strict order is determined by its members. */
  lemma {:induction false} OrderedUnique<T(!new)>(lt: (T, T) -> bool, a: seq<T>, b: seq<T>)
    requires Asymmetric(lt) && Sorted(lt, a) && Sorted(lt, b) && forall x :: x in a <==> x in b
    ensures a == b
    decreases |a|
  {
    if a == [] {
      assert forall i :: 0 <= i < |b| ==> b[i] in b;
    } else {
      assert a[0] in b && b[0] in a;
      HeadFirst(lt, b, a[0]);
      HeadFirst(lt, a, b[0]);
      forall x ensures x in a[1..] <==> x in b[1..] {
        TailMember(lt, a, x);
        TailMember(lt, b, x);
      }
      OrderedUnique(lt, a[1..], b[1..]);
      assert a == [a[0]] + a[1..] && b == [b[0]] + b[1..];
    }
  }

  // ---------- Numbers sorted without repetition ----------

  predicate Rising(xs: seq<nat>) {
    forall i, j :: 0 <= i < j < |xs| ==> xs[i] < xs[j]
  }

  predicate Smaller(a: nat, b: nat) {
    a < b
  }

  /** Puts `x` at its place in a rising list, unless it is there. */
  function InsertOnce(xs: seq<nat>, x: nat): seq<nat> {
    if xs == [] || x < xs[0] then [x] + xs
    else if x == xs[0] then xs
    else [xs[0]] + InsertOnce(xs[1..], x)
  }

  lemma {:induction false} InsertOnceKeeps(xs: seq<nat>, x: nat)
    requires Rising(xs)
    ensures Rising(InsertOnce(xs, x))
    ensures forall v :: v in InsertOnce(xs, x) <==> v in xs || v == x
  {
    if xs != [] && xs[0] < x {
      InsertOnceKeeps(xs[1..], x);
      var rest := InsertOnce(xs[1..], x);
      assert xs == [xs[0]] + xs[1..];
      forall j | 0 <= j < |rest| ensures xs[0] < rest[j] {
        assert rest[j] in rest;
      }
    } else if xs != [] && x == xs[0] {
      assert xs[0] in xs;
    }
  }

  /** Sorted, without duplicates: `extend`, `sort_unstable`, `dedup`. */
  function Union(target: seq<nat>, incoming: seq<nat>): seq<nat>
    decreases |incoming|
  {
    if incoming == [] then target else Union(InsertOnce(target, incoming[0]), incoming[1..])
  }

  lemma {:induction false} UnionKeeps(target: seq<nat>, incoming: seq<nat>)
    requires Rising(target)
    ensures Rising(Union(target, incoming))
    ensures forall v :: v in Union(target, incoming) <==> v in target || v in incoming
    decreases |incoming|
  {
    if incoming != [] {
      InsertOnceKeeps(target, incoming[0]);
      UnionKeeps(InsertOnce(target, incoming[0]), incoming[1..]);
      assert incoming == [incoming[0]] + incoming[1..];
    }
  }

  lemma RisingUnique(a: seq<nat>, b: seq<nat>)
    requires Rising(a) && Rising(b) && forall v :: v in a <==> v in b
    ensures a == b
  {
    OrderedUnique(Smaller, a, b);
  }

  /** Merging what is already there changes nothing. */
  lemma UnionAbsorbs(target: seq<nat>, incoming: seq<nat>)
    requires Rising(target) && forall v :: v in incoming ==> v in target
    ensures Union(target, incoming) == target
  {
    UnionKeeps(target, incoming);
    RisingUnique(Union(target, incoming), target);
  }

  // ---------- Sets in order ----------

  ghost predicate StrictTotal<T(!new)>(lt: (T, T) -> bool) {
    && Asymmetric(lt)
    && (forall a, b, c :: lt(a, b) && lt(b, c) ==> lt(a, c))
    && (forall a, b :: a != b ==> lt(a, b) || lt(b, a))
  }

  ghost predicate Lists<T(!new)>(lt: (T, T) -> bool, q: seq<T>, s: set<T>) {
    Sorted(lt, q) && forall x :: x in q <==> x in s
  }

  lemma {:induction false} InsertNew<T(!new)>(lt: (T, T) -> bool, x: T, xs: seq<T>)
    requires StrictTotal(lt) && Sorted(lt, xs) && x !in xs
    ensures Sorted(lt, Insert(lt, x, xs))
  {
    if xs != [] && !lt(x, xs[0]) {
      var rest := Insert(lt, x, xs[1..]);
      InsertNew(lt, x, xs[1..]);
      forall j | 0 <= j < |rest| ensures lt(xs[0], rest[j]) {
        assert rest[j] in multiset(rest);
        assert rest[j] == x || rest[j] in xs[1..];
      }
    }
  }

  lemma {:induction false} SetSorts<T(!new)>(lt: (T, T) -> bool, s: set<T>)
    requires StrictTotal(lt)
    ensures exists q :: Lists(lt, q, s)
    decreases |s|
  {
    if x :| x in s {
      SetSorts(lt, s - {x});
      var q :| Lists(lt, q, s - {x});
      InsertNew(lt, x, q);
      forall y ensures y in Insert(lt, x, q) <==> y in s {
        SameMembers(Insert(lt, x, q), q + [x], y);
      }
      assert Lists(lt, Insert(lt, x, q), s);
    } else {
      assert Lists(lt, [], s);
    }
  }

  /** The members of a set in order. */
  ghost function SetInOrder<T(!new)>(lt: (T, T) -> bool, s: set<T>): (q: seq<T>)
    requires StrictTotal(lt)
    ensures Lists(lt, q, s)
  {
    SetSorts(lt, s);
    var q :| Lists(lt, q, s);
    q
  }
}
