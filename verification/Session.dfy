/**
 The session's lifecycle flags and owned state, shared by any number of threads that call operations
 and close. Each atomic access, each acquisition or release of the mutex and each use of the slot it
 guards is one step, and steps of different threads interleave in every order.
 */
module Session {
  import opened Programs

  /** Where a thread stands: what its next step does. */
  datatype Point =
    | Idle
    // An operation
    | RunLoadClosed | RunCheckProcess | RunLoadPoisoned | RunClaimBusy | RunLock | RunInspect | RunBody
    | RunUnlock(panicked: bool) | RunStorePoisoned | RunReleaseBusy
    // A close: it releases the busy flag before the mutex
    | CloseLoadClosed | CloseCheckProcess | CloseClaimBusy | CloseLock | CloseTake | CloseStoreClosed
    | CloseReleaseBusy | CloseUnlock

  /** What the threads share. `present` says that the slot still holds the owned state; `lock` is the mutex's owner. */
  datatype Shared = Shared(closed: bool, busy: bool, poisoned: bool, lock: Option<nat>, present: bool)

  datatype State = State(shared: Shared, points: seq<Point>)

  /** The thread has set the busy flag and has not yet cleared it. */
  predicate Guards(p: Point) {
    || p.RunLock? || p.RunInspect? || p.RunBody? || p.RunUnlock? || p.RunStorePoisoned? || p.RunReleaseBusy?
    || p.CloseLock? || p.CloseTake? || p.CloseStoreClosed? || p.CloseReleaseBusy?
  }

  predicate Locks(p: Point) {
    p.RunInspect? || p.RunBody? || p.RunUnlock? || p.CloseTake? || p.CloseStoreClosed? || p.CloseReleaseBusy? ||
      p.CloseUnlock?
  }

  ghost predicate Init(s: State) {
    s.shared == Shared(false, false, false, None, true) && forall t :: 0 <= t < |s.points| ==> s.points[t] == Idle
  }

  /** One step of thread `t` from point `p`. */
  ghost predicate Act(f: Shared, p: Point, t: nat, f': Shared, p': Point) {
    match p
    case Idle => f' == f && (p' == RunLoadClosed || p' == CloseLoadClosed)
    case RunLoadClosed => f' == f && p' == if f.closed then Idle else RunCheckProcess
    case RunCheckProcess => f' == f && (p' == RunLoadPoisoned || p' == Idle)
    case RunLoadPoisoned => f' == f && p' == if f.poisoned then Idle else RunClaimBusy
    case RunClaimBusy => f' == f.(busy := true) && p' == if f.busy then Idle else RunLock
    case RunLock => f.lock == None && f' == f.(lock := Some(t)) && p' == RunInspect
    case RunInspect => f' == f && p' == if f.present then RunBody else RunUnlock(false)
    case RunBody => f' == f && p'.RunUnlock?
    case RunUnlock(panicked) => f' == f.(lock := None) && p' == if panicked then RunStorePoisoned else RunReleaseBusy
    case RunStorePoisoned => f' == f.(poisoned := true) && p' == RunReleaseBusy
    case RunReleaseBusy => f' == f.(busy := false) && p' == Idle
    case CloseLoadClosed => f' == f && p' == if f.closed then Idle else CloseCheckProcess
    case CloseCheckProcess => f' == f && (p' == CloseClaimBusy || p' == Idle)
    case CloseClaimBusy => f' == f.(busy := true) && p' == if f.busy then Idle else CloseLock
    case CloseLock => f.lock == None && f' == f.(lock := Some(t)) && p' == CloseTake
    case CloseTake => f' == f.(present := false) && p' == CloseStoreClosed
    case CloseStoreClosed => f' == f.(closed := true) && p' == CloseReleaseBusy
    case CloseReleaseBusy => f' == f.(busy := false) && p' == CloseUnlock
    case CloseUnlock => f' == f.(lock := None) && p' == Idle
  }

  ghost predicate Next(s: State, s': State, t: nat) {
    && t < |s.points| && |s'.points| == |s.points|
    && (forall u :: 0 <= u < |s.points| && u != t ==> s'.points[u] == s.points[u])
    && Act(s.shared, s.points[t], t, s'.shared, s'.points[t])
  }

  // ---------- The invariant ----------

  ghost predicate GuardedBy(s: State, t: nat) {
    t < |s.points| && Guards(s.points[t])
  }

  /** The busy flag is set exactly while some thread holds the guard, and at most one does. */
  ghost predicate OneGuard(s: State) {
    && (forall t, u :: GuardedBy(s, t) && GuardedBy(s, u) ==> t == u)
    && (s.shared.busy <==> exists t :: GuardedBy(s, t))
  }

  ghost predicate LockOwned(s: State) {
    && (forall t :: 0 <= t < |s.points| && Locks(s.points[t]) ==> s.shared.lock == Some(t))
    && (s.shared.lock.Some? ==> s.shared.lock.value < |s.points| && Locks(s.points[s.shared.lock.value]))
  }

  /**
   A body runs only on the owned state, and the state is gone only once closed or while a close is about to say
   so.
   */
  ghost predicate StateAccounted(s: State) {
    && (forall t :: 0 <= t < |s.points| && s.points[t] == RunBody ==> s.shared.present)
    && (forall t :: 0 <= t < |s.points| && s.points[t] == CloseStoreClosed ==> !s.shared.present)
    && (s.shared.closed ==> !s.shared.present)
    && (!s.shared.present ==> s.shared.closed || exists t :: 0 <= t < |s.points| && s.points[t] == CloseStoreClosed)
  }

  ghost predicate Inv(s: State) {
    OneGuard(s) && LockOwned(s) && StateAccounted(s)
  }

  lemma InitInv(s: State)
    requires Init(s)
    ensures Inv(s)
  {
  }

  // What one step does to the flag, to the mutex and to the slot

  ghost predicate BusyEffect(f: Shared, f': Shared, before: bool, after: bool) {
    if before == after then f'.busy == f.busy else f'.busy == after && (after ==> !f.busy)
  }

  ghost predicate LockEffect(f: Shared, f': Shared, t: nat, before: bool, after: bool) {
    if before == after then f'.lock == f.lock else if after then f.lock == None &&
      f'.lock == Some(t) else f'.lock == None
  }

  ghost predicate SlotEffect(f: Shared, f': Shared, p: Point, p': Point) {
    && (p' == RunBody ==> f.present)
    && (p' == CloseStoreClosed <==> p == CloseTake)
    && f'.present == (f.present && p != CloseTake)
    && f'.closed == (f.closed || p == CloseStoreClosed)
  }

  lemma ActEffect(f: Shared, p: Point, t: nat, f': Shared, p': Point)
    requires Act(f, p, t, f', p')
    ensures BusyEffect(f, f', Guards(p), Guards(p'))
    ensures LockEffect(f, f', t, Locks(p), Locks(p'))
    ensures SlotEffect(f, f', p, p')
  {
  }

  lemma NextGuard(s: State, s': State, t: nat)
    requires Inv(s) && Next(s, s', t)
    ensures OneGuard(s')
  {
    hide Act, Guards, Locks, SlotEffect, LockEffect;
    ActEffect(s.shared, s.points[t], t, s'.shared, s'.points[t]);
    forall u | u != t ensures GuardedBy(s', u) <==> GuardedBy(s, u) {
    }
    assert s.shared.busy ==> exists u :: GuardedBy(s, u);
    if s'.shared.busy && !GuardedBy(s', t) {
      var u :| GuardedBy(s, u);
      assert GuardedBy(s', u);
    }
    assert GuardedBy(s, t) ==> s.shared.busy;
    assert GuardedBy(s', t) ==> s'.shared.busy;
  }

  lemma NextLock(s: State, s': State, t: nat)
    requires Inv(s) && Next(s, s', t)
    ensures LockOwned(s')
  {
    hide Act, Guards, Locks, SlotEffect, BusyEffect;
    ActEffect(s.shared, s.points[t], t, s'.shared, s'.points[t]);
  }

  lemma NextState(s: State, s': State, t: nat)
    requires Inv(s) && Next(s, s', t)
    ensures StateAccounted(s')
  {
    hide Act, Locks, BusyEffect, LockEffect;
    ActEffect(s.shared, s.points[t], t, s'.shared, s'.points[t]);
    if s.points[t] == CloseTake {
      forall u | 0 <= u < |s.points| && u != t ensures s.points[u] != RunBody {
        assert GuardedBy(s, t) && !GuardedBy(s, u);
      }
    } else if !s'.shared.present && !s'.shared.closed {
      var u :| 0 <= u < |s.points| && s.points[u] == CloseStoreClosed;
      assert u != t && s'.points[u] == CloseStoreClosed;
    }
  }

  /** Every step of every thread keeps the invariant. */
  lemma NextInv(s: State, s': State, t: nat)
    requires Inv(s) && Next(s, s', t)
    ensures Inv(s')
  {
    NextGuard(s, s', t);
    NextLock(s, s', t);
    NextState(s, s', t);
  }

  // ---------- Whole histories ----------

  ghost predicate Moves(s: State, s': State) {
    exists t: nat :: Next(s, s', t)
  }

  /** A finite history from the initial state. */
  ghost predicate History(h: seq<State>) {
    h != [] && Init(h[0]) && forall k :: 0 <= k < |h| - 1 ==> Moves(h[k], h[k + 1])
  }

  lemma {:induction false} HistoryInv(h: seq<State>, k: nat)
    requires History(h) && k < |h|
    ensures Inv(h[k])
  {
    if k == 0 {
      InitInv(h[0]);
    } else {
      HistoryInv(h, k - 1);
      assert Moves(h[k - 1], h[k - 1 + 1]);
      var t: nat :| Next(h[k - 1], h[k], t);
      NextInv(h[k - 1], h[k], t);
    }
  }

  /** At most one thread holds the busy guard, so at most one body runs; and no body runs without the state. */
  lemma Exclusive(h: seq<State>, k: nat, t: nat, u: nat)
    requires History(h) && k < |h| && GuardedBy(h[k], t) && GuardedBy(h[k], u)
    ensures t == u && h[k].shared.busy
    ensures h[k].points[t] == RunBody ==> h[k].shared.present && !h[k].shared.closed && h[k].shared.lock == Some(t)
  {
    HistoryInv(h, k);
  }

  /** The state is absent only when the session is closed or the one guard is held by a close that will say so next. */
  lemma AbsentOnlyWhenClosed(h: seq<State>, k: nat)
    requires History(h) && k < |h| && !h[k].shared.present
    ensures h[k].shared.closed || exists t: nat :: GuardedBy(h[k], t) && h[k].points[t] == CloseStoreClosed
  {
    HistoryInv(h, k);
    if !h[k].shared.closed {
      var t :| 0 <= t < |h[k].points| && h[k].points[t] == CloseStoreClosed;
      assert GuardedBy(h[k], t);
    }
  }

  lemma {:induction false} TakenForever(h: seq<State>, j: nat, k: nat)
    requires History(h) && j <= k < |h|
    ensures !h[j].shared.present ==> !h[k].shared.present
    ensures h[j].shared.closed ==> h[k].shared.closed
  {
    hide Act, Guards, Locks, BusyEffect, LockEffect;
    if j < k {
      TakenForever(h, j, k - 1);
      assert Moves(h[k - 1], h[k - 1 + 1]);
      var t: nat :| Next(h[k - 1], h[k], t);
      ActEffect(h[k - 1].shared, h[k - 1].points[t], t, h[k].shared, h[k].points[t]);
    }
  }

  /** After a close has taken the owned state, no operation body ever runs again. */
  lemma NoBodyAfterTake(h: seq<State>, j: nat, k: nat, t: nat)
    requires History(h) && j <= k < |h| && !h[j].shared.present && t < |h[k].points|
    ensures h[k].points[t] != RunBody
  {
    TakenForever(h, j, k);
    HistoryInv(h, k);
  }

  // ---------- Poisoning ----------

  /** The thread is not inside an operation, or has not yet looked at the poison flag. */
  predicate BeforePoisonCheck(p: Point) {
    || p.Idle? || p.RunLoadClosed? || p.RunCheckProcess? || p.RunLoadPoisoned?
    || p.CloseLoadClosed? || p.CloseCheckProcess? || p.CloseClaimBusy? || p.CloseLock? || p.CloseTake?
    || p.CloseStoreClosed? || p.CloseReleaseBusy? || p.CloseUnlock?
  }

  /** The flag is set by one step only and cleared by none. */
  lemma PoisonEffect(f: Shared, p: Point, t: nat, f': Shared, p': Point)
    requires Act(f, p, t, f', p')
    ensures f'.poisoned == (f.poisoned || p == RunStorePoisoned)
    ensures f.poisoned && BeforePoisonCheck(p) ==> BeforePoisonCheck(p')
  {
  }

  /** Once poisoned, always poisoned, and no thread gets past the check. */
  lemma {:induction false} PoisonedForever(h: seq<State>, j: nat, k: nat, t: nat)
    requires History(h) && j <= k < |h| && h[j].shared.poisoned
    ensures h[k].shared.poisoned && |h[k].points| == |h[j].points|
    ensures t < |h[j].points| && BeforePoisonCheck(h[j].points[t]) ==> BeforePoisonCheck(h[k].points[t])
  {
    hide Act, BeforePoisonCheck;
    if j < k {
      PoisonedForever(h, j, k - 1, t);
      assert Moves(h[k - 1], h[k - 1 + 1]);
      var u: nat :| Next(h[k - 1], h[k], u);
      PoisonEffect(h[k - 1].shared, h[k - 1].points[u], u, h[k].shared, h[k].points[u]);
    }
  }

  /** After a panicking operation has stored the poison flag, no call that starts later runs a body. */
  lemma NoBodyAfterPoison(h: seq<State>, j: nat, u: nat, i: nat, t: nat, k: nat)
    requires History(h) && j + 1 <= i <= k < |h|
    requires Next(h[j], h[j + 1], u) && h[j].points[u] == RunStorePoisoned
    requires t < |h[i].points| && h[i].points[t] == Idle
    ensures |h[k].points| == |h[i].points| && h[k].points[t] != RunBody
  {
    PoisonEffect(h[j].shared, h[j].points[u], u, h[j + 1].shared, h[j + 1].points[u]);
    PoisonedForever(h, j + 1, i, t);
    PoisonedForever(h, i, k, t);
  }

  /** The flag is only ever set by an operation that panicked while it held the guard. */
  lemma {:induction false} PoisonedByPanic(h: seq<State>, k: nat)
    requires History(h) && k < |h| && h[k].shared.poisoned
    ensures exists j: nat, t: nat ::
      j < k && GuardedBy(h[j], t) && h[j].points[t] == RunStorePoisoned && Next(h[j], h[j + 1], t)
  {
    hide Act, Guards;
    if k > 0 {
      assert Moves(h[k - 1], h[k - 1 + 1]);
      var u: nat :| Next(h[k - 1], h[k], u);
      PoisonEffect(h[k - 1].shared, h[k - 1].points[u], u, h[k].shared, h[k].points[u]);
      if h[k - 1].shared.poisoned {
        PoisonedByPanic(h, k - 1);
      } else {
        assert GuardedBy(h[k - 1], u) by { StorerGuards(h[k - 1].points[u]); }
        assert k - 1 < k && Next(h[k - 1], h[k - 1 + 1], u);
      }
    }
  }

  lemma StorerGuards(p: Point)
    requires p == RunStorePoisoned
    ensures Guards(p)
  {
  }

  // ---------- Closing ----------

  /** The thread is in no call, or has not yet looked at the closed flag. */
  predicate BeforeClosedCheck(p: Point) {
    p.Idle? || p.RunLoadClosed? || p.CloseLoadClosed?
  }

  lemma ClosedEffect(f: Shared, p: Point, t: nat, f': Shared, p': Point)
    requires Act(f, p, t, f', p') && f.closed && BeforeClosedCheck(p)
    ensures BeforeClosedCheck(p')
  {
  }

  /** Once closed, a call that starts later, an operation or another close, returns without taking the guard. */
  lemma {:induction false} RefusedAfterClose(h: seq<State>, j: nat, k: nat, t: nat)
    requires History(h) && j <= k < |h| && h[j].shared.closed && t < |h[j].points| && h[j].points[t] == Idle
    ensures |h[k].points| == |h[j].points| && BeforeClosedCheck(h[k].points[t]) && !GuardedBy(h[k], t)
  {
    hide Act;
    if j < k {
      RefusedAfterClose(h, j, k - 1, t);
      TakenForever(h, j, k - 1);
      assert Moves(h[k - 1], h[k - 1 + 1]);
      var u: nat :| Next(h[k - 1], h[k], u);
      if u == t {
        ClosedEffect(h[k - 1].shared, h[k - 1].points[t], t, h[k].shared, h[k].points[t]);
      }
    }
  }

  /** Whenever some thread is inside a call, some thread inside a call can take a step: there is no deadlock. */
  lemma Progress(h: seq<State>, k: nat, t: nat)
    requires History(h) && k < |h| && t < |h[k].points| && h[k].points[t] != Idle
    ensures exists u: nat, s' :: u < |h[k].points| && h[k].points[u] != Idle && Next(h[k], s', u)
  {
    HistoryInv(h, k);
    var s, lock := h[k], h[k].shared.lock;
    var u := if (s.points[t] == RunLock || s.points[t] == CloseLock) && lock.Some? then lock.value else t;
    var f', p' := CanAct(s.shared, s.points[u], u);
    assert Next(s, State(f', s.points[u := p']), u);
  }

  /** Only waiting for the mutex can hold a thread up. */
  lemma CanAct(f: Shared, p: Point, t: nat) returns (f': Shared, p': Point)
    requires (p == RunLock || p == CloseLock) ==> f.lock == None
    ensures Act(f, p, t, f', p')
  {
    match p
    case Idle => f', p' := f, RunLoadClosed;
    case RunLoadClosed => f', p' := f, if f.closed then Idle else RunCheckProcess;
    case RunCheckProcess => f', p' := f, RunLoadPoisoned;
    case RunLoadPoisoned => f', p' := f, if f.poisoned then Idle else RunClaimBusy;
    case RunClaimBusy => f', p' := f.(busy := true), if f.busy then Idle else RunLock;
    case RunLock => f', p' := f.(lock := Some(t)), RunInspect;
    case RunInspect => f', p' := f, if f.present then RunBody else RunUnlock(false);
    case RunBody => f', p' := f, RunUnlock(false);
    case RunUnlock(panicked) => f', p' := f.(lock := None), if panicked then RunStorePoisoned else RunReleaseBusy;
    case RunStorePoisoned => f', p' := f.(poisoned := true), RunReleaseBusy;
    case RunReleaseBusy => f', p' := f.(busy := false), Idle;
    case CloseLoadClosed => f', p' := f, if f.closed then Idle else CloseCheckProcess;
    case CloseCheckProcess => f', p' := f, CloseClaimBusy;
    case CloseClaimBusy => f', p' := f.(busy := true), if f.busy then Idle else CloseLock;
    case CloseLock => f', p' := f.(lock := Some(t)), CloseTake;
    case CloseTake => f', p' := f.(present := false), CloseStoreClosed;
    case CloseStoreClosed => f', p' := f.(closed := true), CloseReleaseBusy;
    case CloseReleaseBusy => f', p' := f.(busy := false), CloseUnlock;
    case CloseUnlock => f', p' := f.(lock := None), Idle;
  }
}
