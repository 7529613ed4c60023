/**
 One reasoning operation on the tableau as a transaction: checkpoint, optional query, search, and a
 finish that restores or promotes the permanent state. Polls, limits, loading and the search itself
 are given from outside as replies and states; what is modelled is which state survives them.
 */
module Transaction {
  import opened Bytes
  import opened Programs

  /** Kinds of failure. Invariant and Poison failures poison the session; a refusal does not. */
  datatype Failure = Invariant | Poison | Refusal

  datatype Reply = Fine | Fails(failure: Failure)

  datatype Answer<+T> = Got(value: T) | Lost(failure: Failure)

  /**
   A rule state: the mutable engine and, as one value, the kernel with its nominals, blocking and datatype
   signature.
   */
  datatype Loaded<+K, +E> = Loaded(kernel: K, engine: E)

  /** A kernel snapshot and the number under which the engine keeps its own. */
  datatype Token<+K> = Token(kernel: K, sequence: nat)

  /** What happens around one transaction. */
  datatype Script<!K, !E> = Script(
    entry: Reply,          // polls and memory before the checkpoint
    before: Reply,         // the poll that opens the checkpoint
    capture: Reply,        // the engine's own polls and byte limit
    after: Reply,          // the poll that closes the checkpoint
    install: Reply,        // validation, merge and load of the query
    loaded: Loaded<K, E>,  // the query's own state
    drive: Reply,          // the search
    driven: Loaded<K, E>,  // the active state the search leaves, whether it fails or not
    closing: Reply,        // the poll and the invariant check after the search
    restorable: bool,      // the snapshot passes its checks
    branching: bool,       // choice points survive in the permanent state
    begin: Reply,          // the new operation root
    rooted: K,             // the kernel with that root
    settled: Reply)        // the invariant check after the finish

  datatype State<!K, !E> = State(permanent: Loaded<K, E>, registry: map<nat, E>, next: nat, query: Option<Loaded<K, E>>)

  /** A query is rolled back; only a run without one may be promoted. */
  datatype Disposition = RollbackQuery | CommitPermanent

  predicate Poisons(failure: Failure) {
    failure != Refusal
  }

  /** The snapshots older than a number. */
  function Below<E>(registry: map<nat, E>, sequence: nat): map<nat, E> {
    map k | k in registry && k < sequence :: registry[k]
  }

  // ---------- What one transaction does ----------

  /** Snapshots are numbered below the next number. */
  ghost predicate Issued<K, E>(s: State<K, E>) {
    forall k :: k in s.registry ==> k < s.next
  }

  /** The engine registers its snapshot. */
  ghost predicate Captures<K, E>(s: State<K, E>, capacity: nat, c: Script<K, E>) {
    c.entry.Fine? && c.before.Fine? && |s.registry| < capacity && c.capture.Fine? && s.next + 1 < U64_LIMIT
  }

  /** The checkpoint is lost after the engine registered it, and nobody holds its number. */
  ghost predicate Leaks<K, E>(s: State<K, E>, capacity: nat, c: Script<K, E>) {
    Captures(s, capacity, c) && c.after.Fails?
  }

  /** The search completes. */
  ghost predicate Completes<K, E>(s: State<K, E>, capacity: nat, queried: bool, c: Script<K, E>) {
    && Captures(s, capacity, c) && c.after.Fine? && (queried ==> c.install.Fine?)
    && c.drive.Fine? && c.closing.Fine?
  }

  /** The permanent state is replaced by the searched one. */
  ghost predicate Promotes<K, E>(s: State<K, E>, capacity: nat, queried: bool, c: Script<K, E>) {
    Completes(s, capacity, queried, c) && !queried && !c.branching && c.begin.Fine?
  }

  /** What a transaction meets on its way to the checkpoint, in order. */
  ghost function Entry<K, E>(s: State<K, E>, capacity: nat, c: Script<K, E>): seq<Reply> {
    [c.entry, c.before, Unless(|s.registry| < capacity, Refusal), c.capture, Unless(s.next + 1 < U64_LIMIT, Invariant),
     c.after]
  }

  /** What it meets between checkpoint and finish. */
  ghost function Search<K, E>(queried: bool, c: Script<K, E>): seq<Reply> {
    (if queried then [c.install] else []) + [c.drive, c.closing]
  }

  function Unless(holds: bool, failure: Failure): Reply {
    if holds then Fine else Fails(failure)
  }

  /** The first reply that fails decides. */
  ghost function FirstFailure(replies: seq<Reply>): Reply {
    if replies == [] then Fine else if replies[0].Fails? then replies[0] else FirstFailure(replies[1..])
  }

  /** The finish after a search that ended with `reply`: a completed run without a query is promoted if it may be. */
  ghost predicate Finishes<K, E>(queried: bool, c: Script<K, E>, reply: Reply) {
    if reply.Fine? && !queried && !c.branching then c.begin.Fine? else c.restorable
  }

  /** The transaction reaches its finish, and the finish fails. */
  ghost predicate Breaks<K, E>(s: State<K, E>, capacity: nat, queried: bool, c: Script<K, E>) {
    FirstFailure(Entry(s, capacity, c)).Fine? && !Finishes(queried, c, FirstFailure(Search(queried, c)))
  }

  /**
   When a transaction poisons the session: on a poisoning failure, wherever it comes, and once there is a
   checkpoint also when the finish or the check after it fails.
   */
  ghost predicate Poisoned<K, E>(s: State<K, E>, capacity: nat, queried: bool, c: Script<K, E>) {
    var reply := FirstFailure(Entry(s, capacity, c) + Search(queried, c));
    || reply == Fails(Invariant) || reply == Fails(Poison)
    || (FirstFailure(Entry(s, capacity, c)).Fine? && (Breaks(s, capacity, queried, c) || c.settled.Fails?))
  }

  /**
   The new state when the finish does not fail: the query is gone, the permanent state is the old one
   unless promoted, and the registry is the old one unless a checkpoint was lost.
   */
  ghost predicate Step<K(!new), E(!new)>(
    s: State<K, E>, capacity: nat, queried: bool, c: Script<K, E>, s': State<K, E>)
  {
    && s'.query == None
    && s'.next == (if Captures(s, capacity, c) then s.next + 1 else s.next)
    && s'.permanent == (if Promotes(s, capacity, queried, c) then Loaded(c.rooted, c.driven.engine) else s.permanent)
    && s'.registry == (if Leaks(s, capacity, c) then s.registry[s.next := s.permanent.engine] else s.registry)
  }

  /**
   The new state when the finish fails: the query is gone all the same, and the permanent state is what
   the search made of it. A snapshot that cannot be restored stays registered; a released one does not.
   */
  ghost predicate Stranded<K(!new), E(!new)>(
    s: State<K, E>, capacity: nat, queried: bool, c: Script<K, E>, s': State<K, E>)
  {
    && s'.query == None && s'.next == s.next + 1
    && s'.permanent == (if queried then s.permanent else c.driven)
    && s'.registry == (if Completes(s, capacity, queried, c) && !queried && !c.branching then s.registry
                       else s.registry[s.next := s.permanent.engine])
  }

  class Tableau<K(!new), E(!new)> {
    const capacity: nat
    var permanent: Loaded<K, E>
    var registry: map<nat, E>
    var next: nat
    var query: Option<Loaded<K, E>>

    ghost function Value(): State<K, E>
      reads this
    {
      State(permanent, registry, next, query)
    }

    constructor (initial: Loaded<K, E>, capacity: nat)
      ensures Value() == State(initial, map[], 0, None) && this.capacity == capacity
    {
      this.capacity := capacity;
      permanent, registry, next, query := initial, map[], 0, None;
    }

    /** Takes both snapshots. A failure of the closing poll leaves the engine's snapshot registered. */
    method Checkpoint(c: Script<K, E>) returns (r: Answer<Token<K>>)
      requires Issued(Value()) && c.entry.Fine?
      modifies this`registry, this`next
      ensures Issued(Value())
      ensures r.Got? <==> old(query) == None && Captures(old(Value()), capacity, c) && c.after.Fine?
      ensures r.Got? ==> r.value == Token(permanent.kernel, old(next)) && next == old(next) + 1
      ensures r.Got? ==> registry == old(registry)[old(next) := permanent.engine]
      ensures r.Lost? && old(query) == None ==> Fails(r.failure) == FirstFailure(Entry(old(Value()), capacity, c))
      ensures r.Lost? && old(query) == None ==>
        Step(old(Value()), capacity, true, c, Value()) && Step(old(Value()), capacity, false, c, Value())
      ensures old(query).Some? ==> r == Lost(Invariant) && Value() == old(Value())
    {
      EntryDecides(Value(), capacity, c);
      if query.Some? {
        return Lost(Invariant);
      }
      if c.before.Fails? {
        return Lost(c.before.failure);
      }
      if |registry| + 1 > capacity {
        return Lost(Refusal);
      }
      if c.capture.Fails? {
        return Lost(c.capture.failure);
      }
      if next + 1 >= U64_LIMIT {
        return Lost(Invariant);
      }
      var token := Token(permanent.kernel, next);
      registry, next := registry[next := permanent.engine], next + 1;
      if c.after.Fails? {
        return Lost(c.after.failure);
      }
      return Got(token);
    }

    /** Puts a freshly loaded state in front of the permanent one. */
    method Install(c: Script<K, E>) returns (reply: Reply)
      modifies this`query
      ensures reply == c.install
      ensures query == if reply.Fine? then Some(c.loaded) else old(query)
    {
      if c.install.Fine? {
        query := Some(c.loaded);
      }
      return c.install;
    }

    /** The search works on the query if there is one, else on the permanent state. */
    method Drive(c: Script<K, E>) returns (reply: Reply)
      modifies this`query, this`permanent
      ensures reply == c.drive
      ensures old(query).Some? ==> query == Some(c.driven) && permanent == old(permanent)
      ensures old(query).None? ==> query == None && permanent == c.driven
    {
      if query.Some? {
        query := Some(c.driven);
      } else {
        permanent := c.driven;
      }
      return c.drive;
    }

    method Restore(token: Token<K>, restorable: bool) returns (ok: bool)
      modifies this`permanent, this`registry
      ensures ok <==> token.sequence in old(registry) && restorable
      ensures ok ==> permanent == Loaded(token.kernel, old(registry)[token.sequence])
      ensures ok ==> registry == Below(old(registry), token.sequence)
      ensures !ok ==> permanent == old(permanent) && registry == old(registry)
    {
      if token.sequence !in registry || !restorable {
        return false;
      }
      permanent := Loaded(token.kernel, registry[token.sequence]);
      registry := Below(registry, token.sequence);
      return true;
    }

    /**
     Ends the operation; the query is gone whatever happens. A query offered for promotion is refused
     before anything is restored: the permanent state stays as it is and the snapshot stays registered.
     */
    method Finish(token: Token<K>, disposition: Disposition, c: Script<K, E>) returns (ok: bool)
      modifies this`permanent, this`registry, this`query
      ensures query == None && registry.Keys <= old(registry.Keys)
      ensures old(query).Some? && disposition == CommitPermanent ==>
        !ok && permanent == old(permanent) && registry == old(registry)
      ensures old(query).None? && disposition == CommitPermanent && !c.branching ==>
        && (ok <==> token.sequence in old(registry) && c.begin.Fine?)
        && permanent == (if ok then Loaded(c.rooted, old(permanent).engine) else old(permanent))
        && registry == old(registry) - {token.sequence}
      ensures disposition == RollbackQuery || (old(query).None? && c.branching) ==>
        && (ok <==> token.sequence in old(registry) && c.restorable)
        && permanent == (if ok then Loaded(token.kernel, old(registry)[token.sequence]) else old(permanent))
        && registry == (if ok then Below(old(registry), token.sequence) else old(registry))
    {
      var hadQuery := query.Some?;
      query := None;
      if hadQuery && disposition == CommitPermanent {
        return false;
      }
      if disposition == RollbackQuery || c.branching {
        ok := Restore(token, c.restorable);
        return;
      }
      if token.sequence !in registry {
        return false;
      }
      registry := registry - {token.sequence};
      if c.begin.Fails? {
        return false;
      }
      permanent := permanent.(kernel := c.rooted);
      return true;
    }

    /** Rolls back after a failure; the failure itself may poison. */
    method Recover(token: Token<K>, failure: Failure, c: Script<K, E>) returns (poisoned: bool)
      requires token.sequence in registry
      modifies this`permanent, this`registry, this`query
      ensures query == None
      ensures poisoned <==> !c.restorable || c.settled.Fails? || Poisons(failure)
      ensures permanent ==
        if c.restorable then Loaded(token.kernel, old(registry)[token.sequence]) else old(permanent)
      ensures registry == if c.restorable then Below(old(registry), token.sequence) else old(registry)
    {
      var ok := Finish(token, RollbackQuery, c);
      return !ok || c.settled.Fails? || Poisons(failure);
    }

    /** From checkpoint to finish: installs the query if there is one, searches, and rolls back or promotes. */
    method Conclude(token: Token<K>, queried: bool, c: Script<K, E>, ghost before: State<K, E>)
      returns (ok: bool, poisoned: bool)
      requires Issued(before) && query == None && permanent == before.permanent && next == before.next + 1
      requires registry == before.registry[before.next := before.permanent.engine]
      requires token == Token(before.permanent.kernel, before.next)
      requires Captures(before, capacity, c) && c.after.Fine?
      modifies this`permanent, this`registry, this`query
      ensures
        var reply := FirstFailure(Search(queried, c));
        && (poisoned <==> (reply.Fails? && Poisons(reply.failure)) || !Finishes(queried, c, reply) || c.settled.Fails?)
        && (ok <==> reply.Fine? && !poisoned)
        && if Finishes(queried, c, reply) then Step(before, capacity, queried, c, Value())
           else Stranded(before, capacity, queried, c, Value())
    {
      hide FirstFailure, Search, Below;
      SearchDecides(before, capacity, queried, c);
      Earlier(before.registry, before.next, before.permanent.engine);
      var reply := Fine;
      if queried {
        reply := Install(c);
        if reply.Fails? {
          poisoned := Recover(token, reply.failure, c);
          return false, poisoned;
        }
      }
      reply := Drive(c);
      if reply.Fails? {
        poisoned := Recover(token, reply.failure, c);
        return false, poisoned;
      }
      if c.closing.Fails? {
        poisoned := Recover(token, c.closing.failure, c);
        return false, poisoned;
      }
      ok := Finish(token, if queried then RollbackQuery else CommitPermanent, c);
      if !ok || c.settled.Fails? {
        return false, true;
      }
      return true, false;
    }

    /**
     A whole transaction as the session runs it: queries are rolled back, runs without a query promoted.
     It succeeds, or poisons, exactly as the replies and the old state decide.
     */
    method Transact(queried: bool, c: Script<K, E>) returns (ok: bool, poisoned: bool)
      requires Issued(Value()) && query == None
      modifies this
      ensures Issued(Value())
      ensures poisoned <==> Poisoned(old(Value()), capacity, queried, c)
      ensures ok <==> !poisoned && Completes(old(Value()), capacity, queried, c)
      ensures if Breaks(old(Value()), capacity, queried, c)
        then Stranded(old(Value()), capacity, queried, c, Value())
        else Step(old(Value()), capacity, queried, c, Value())
    {
      hide FirstFailure, Entry, Search;
      ghost var before := Value();
      EntryDecides(before, capacity, c);
      SearchDecides(before, capacity, queried, c);
      FirstOfBoth(Entry(before, capacity, c), Search(queried, c));
      if c.entry.Fails? {
        return false, Poisons(c.entry.failure);
      }
      var r := Checkpoint(c);
      if r.Lost? {
        return false, Poisons(r.failure);
      }
      ok, poisoned := Conclude(r.value, queried, c, before);
    }
  }

  lemma {:induction false} FirstOfBoth(a: seq<Reply>, b: seq<Reply>)
    ensures FirstFailure(a + b) == if FirstFailure(a).Fails? then FirstFailure(a) else FirstFailure(b)
    decreases |a|
  {
    if a == [] {
      assert a + b == b;
    } else {
      assert (a + b)[1..] == a[1..] + b;
      FirstOfBoth(a[1..], b);
    }
  }

  /** Six replies in order, the first failure deciding. */
  lemma EntryDecides<K, E>(s: State<K, E>, capacity: nat, c: Script<K, E>)
    ensures FirstFailure(Entry(s, capacity, c)) ==
      if c.entry.Fails? then c.entry
      else if c.before.Fails? then c.before
      else if |s.registry| >= capacity then Fails(Refusal)
      else if c.capture.Fails? then c.capture
      else if s.next + 1 >= U64_LIMIT then Fails(Invariant)
      else c.after
    ensures FirstFailure(Entry(s, capacity, c)).Fine? <==> Captures(s, capacity, c) && c.after.Fine?
  {
    var r := Entry(s, capacity, c);
    assert r[1..] == [r[1], r[2], r[3], r[4], r[5]] && r[2..] == [r[2], r[3], r[4], r[5]];
    assert FirstFailure([c.after]) == c.after by { assert [c.after][1..] == []; }
    Unrolled(r, 0); Unrolled(r, 1); Unrolled(r, 2); Unrolled(r, 3); Unrolled(r, 4); Unrolled(r, 5);
    assert r[0..] == r && r[6..] == [];
  }

  lemma Unrolled(replies: seq<Reply>, k: nat)
    requires k < |replies|
    ensures FirstFailure(replies[k..]) == if replies[k].Fails? then replies[k] else FirstFailure(replies[k + 1..])
  {
    assert replies[k..][1..] == replies[k + 1..];
  }

  lemma SearchDecides<K, E>(s: State<K, E>, capacity: nat, queried: bool, c: Script<K, E>)
    ensures FirstFailure(Search(queried, c)) ==
      if queried && c.install.Fails? then c.install else if c.drive.Fails? then c.drive else c.closing
    ensures Completes(s, capacity, queried, c) <==>
      Captures(s, capacity, c) && c.after.Fine? && FirstFailure(Search(queried, c)).Fine?
  {
    var r := Search(queried, c);
    Unrolled(r, 0);
    Unrolled(r, 1);
    assert r[0..] == r;
    if queried {
      Unrolled(r, 2);
      assert r[3..] == [];
    } else {
      assert r[2..] == [];
    }
  }

  /** A refusal never poisons while the snapshot can be restored and the restored state is sound. */
  lemma RefusalsDoNotPoison<K, E>(s: State<K, E>, capacity: nat, queried: bool, c: Script<K, E>)
    requires FirstFailure(Entry(s, capacity, c) + Search(queried, c)) == Fails(Refusal)
    requires c.restorable && c.settled.Fine?
    ensures !Poisoned(s, capacity, queried, c)
  {
    FirstOfBoth(Entry(s, capacity, c), Search(queried, c));
  }

  /** An operation that nothing hinders, and whose finish is not hindered either, succeeds. */
  lemma UnhinderedSucceeds<K, E>(s: State<K, E>, capacity: nat, queried: bool, c: Script<K, E>)
    requires Unhindered(queried, c) && |s.registry| < capacity && s.next + 1 < U64_LIMIT
    requires c.restorable && c.begin.Fine? && c.settled.Fine?
    ensures Completes(s, capacity, queried, c) && !Poisoned(s, capacity, queried, c)
  {
    EntryDecides(s, capacity, c);
    SearchDecides(s, capacity, queried, c);
    FirstOfBoth(Entry(s, capacity, c), Search(queried, c));
  }

  /** The snapshots below a new one, and those other than it, are those there were. */
  lemma Earlier<E>(registry: map<nat, E>, next: nat, e: E)
    requires forall k :: k in registry ==> k < next
    ensures Below(registry[next := e], next) == registry
    ensures registry[next := e] - {next} == registry
  {
  }

  /** The registry is as before exactly when no checkpoint was lost after it was registered. */
  lemma CheckpointAtomicIff<K(!new), E(!new)>(
    s: State<K, E>, capacity: nat, queried: bool, c: Script<K, E>, s': State<K, E>)
    requires Issued(s) && Step(s, capacity, queried, c, s')
    ensures s'.registry == s.registry <==> !Leaks(s, capacity, c)
  {
    if Leaks(s, capacity, c) {
      assert s.next in s'.registry && s.next !in s.registry;
    }
  }

  /** Which happens: a tableau as constructed loses a checkpoint when only the closing poll fails. */
  lemma CheckpointsAreLost<K(!new), E(!new)>(initial: Loaded<K, E>, capacity: nat) returns (c: Script<K, E>)
    requires capacity > 0
    ensures Leaks(State(initial, map[], 0, None), capacity, c)
  {
    c := Script(
      Fine, Fine, Fine, Fails(Refusal), Fine, initial, Fine, initial, Fine, true, false, Fine, initial.kernel, Fine);
  }

  // ---------- What a session's operations do ----------

  datatype Event<!K, !E> = Event(queried: bool, script: Script<K, E>)

  ghost predicate StepAt<K(!new), E(!new)>(capacity: nat, states: seq<State<K, E>>, events: seq<Event<K, E>>, i: nat)
    requires i < |events| < |states|
  {
    && !Poisoned(states[i], capacity, events[i].queried, events[i].script)
    && Step(states[i], capacity, events[i].queried, events[i].script, states[i + 1])
  }

  /** Operations one after another, none of which poisons, on a tableau as constructed. */
  ghost predicate Run<K(!new), E(!new)>(capacity: nat, states: seq<State<K, E>>, events: seq<Event<K, E>>) {
    && |states| == |events| + 1
    && states[0].registry == map[] && states[0].query == None
    && forall i :: 0 <= i < |events| ==> StepAt(capacity, states, events, i)
  }

  /** How many of the first `n` operations lost a registered snapshot. */
  ghost function LostCount<K(!new), E(!new)>(
    capacity: nat, states: seq<State<K, E>>, events: seq<Event<K, E>>, n: nat): nat
    requires n <= |events| < |states|
  {
    if n == 0 then 0
    else LostCount(capacity, states, events, n - 1) + if Leaks(states[n - 1], capacity, events[n - 1].script) then 1
      else 0
  }

  /** The state promoted last among the first `n` operations, or the initial one. */
  ghost function Standing<K(!new), E(!new)>(
    capacity: nat, states: seq<State<K, E>>, events: seq<Event<K, E>>, n: nat): Loaded<K, E>
    requires n <= |events| < |states|
  {
    if n == 0 then states[0].permanent
    else if Promotes(states[n - 1], capacity, events[n - 1].queried, events[n - 1].script)
    then Loaded(events[n - 1].script.rooted, events[n - 1].script.driven.engine)
    else Standing(capacity, states, events, n - 1)
  }

  /**
   Between operations there is no query, the permanent state is the one promoted last, and the engine
   holds one snapshot for every checkpoint lost by its closing poll.
   */
  lemma {:induction false} BetweenOperations<K(!new), E(!new)>(
    capacity: nat, states: seq<State<K, E>>, events: seq<Event<K, E>>, n: nat)
    requires Run(capacity, states, events) && n <= |events|
    ensures states[n].query == None && Issued(states[n])
    ensures states[n].permanent == Standing(capacity, states, events, n)
    ensures |states[n].registry| == LostCount(capacity, states, events, n)
  {
    if n > 0 {
      BetweenOperations(capacity, states, events, n - 1);
      assert StepAt(capacity, states, events, n - 1);
    }
  }

  /** Queries leave no trace: after operations that are all queries the permanent state is the initial one. */
  lemma {:induction false} QueriesLeaveNoTrace<K(!new), E(!new)>(
    capacity: nat, states: seq<State<K, E>>, events: seq<Event<K, E>>, n: nat)
    requires Run(capacity, states, events) && n <= |events|
    requires forall i :: 0 <= i < n ==> events[i].queried
    ensures states[n].permanent == states[0].permanent
  {
    if n > 0 {
      QueriesLeaveNoTrace(capacity, states, events, n - 1);
      assert StepAt(capacity, states, events, n - 1);
    }
  }

  /** Nothing outside the tableau stands in the way. */
  predicate Unhindered<K, E>(queried: bool, c: Script<K, E>) {
    && c.entry.Fine? && c.before.Fine? && c.capture.Fine? && c.after.Fine? && (queried ==> c.install.Fine?)
    && c.drive.Fine? && c.closing.Fine?
  }

  /**
   Checkpoint creation is not atomic on error, and this is what it costs: an unhindered operation
   completes exactly when fewer checkpoints were lost than the engine may hold (and numbers remain).
   */
  lemma CompletesIff<K(!new), E(!new)>(
    capacity: nat, states: seq<State<K, E>>, events: seq<Event<K, E>>, n: nat, queried: bool, c: Script<K, E>)
    requires Run(capacity, states, events) && n <= |events| && Unhindered(queried, c)
    ensures Completes(states[n], capacity, queried, c)
      <==> LostCount(capacity, states, events, n) < capacity && states[n].next + 1 < U64_LIMIT
  {
    BetweenOperations(capacity, states, events, n);
  }

  /** Once that many are lost, no operation completes any more and nothing changes. */
  lemma {:induction false} Exhausted<K(!new), E(!new)>(
    capacity: nat, states: seq<State<K, E>>, events: seq<Event<K, E>>, m: nat, n: nat)
    requires Run(capacity, states, events) && m <= n <= |events| && LostCount(capacity, states, events, m) >= capacity
    ensures LostCount(capacity, states, events, n) == LostCount(capacity, states, events, m)
    ensures states[n].permanent == states[m].permanent && states[n].registry == states[m].registry
    ensures n < |events| ==> !Completes(states[n], capacity, events[n].queried, events[n].script)
    decreases n
  {
    BetweenOperations(capacity, states, events, n);
    if n > m {
      Exhausted(capacity, states, events, m, n - 1);
      BetweenOperations(capacity, states, events, n - 1);
      assert StepAt(capacity, states, events, n - 1);
    }
  }
}
