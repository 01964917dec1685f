/** The blockchain work queue: any number of processor instances share one Redis stream,
    one 60-second lease lock and one dead-letter stream.

    A system state is Redis plus the point each instance has reached in its loop.  Every
    Redis command is one atomic step, so a run is any interleaving of the instances with
    the passing of time, crashes, cancellations and failing commands. */
module BlockchainQueue {
  import opened Wrappers

  const LEASE := 60
  const STREAM_MAXLEN := 10000
  const DEAD_LETTER_MAXLEN := 1000

  /** Operations are named by their stream ids, which Redis hands out in increasing order. */
  type OpId = nat
  type Instance = nat

  datatype Lock = Lock(token: OpId, until: int)

  /** Where an instance stands in its processing loop; `since` is when it took the lock. */
  datatype Phase =
    | Idle                                // about to read the head of the stream
    | HasRead(op: OpId)                   // about to ask for the lock
    | Working(op: OpId, since: int)       // inside process_fn
    | Finished(op: OpId, since: int)      // process_fn returned; about to delete the entry
    | Raised(op: OpId, since: int)        // process_fn raised; about to dead-letter the entry
    | DeadLettered(op: OpId, since: int)  // about to delete the entry
    | Releasing(op: OpId, since: int)     // about to delete the lock and loop
    | Leaving(op: OpId, since: int)       // cancelled; about to delete the lock and end
    | Stopped
    | Crashed

  datatype Execution = Execution(who: Instance, op: OpId)

  /** The last four fields only record what happened: the calls of process_fn in order, the
      operations removed after success, and those each stream's length limit dropped. */
  datatype System = System(
    now: int,
    stream: seq<OpId>,
    nextId: OpId,
    lock: Option<Lock>,
    deadLetter: seq<OpId>,
    instances: map<Instance, Phase>,
    started: seq<Execution>,
    completed: set<OpId>,
    trimmed: set<OpId>,
    deadTrimmed: set<OpId>)

  const INITIAL := System(0, [], 0, None, [], map[], [], {}, {}, {})

  /** `drop` is how many of the oldest entries the approximate length limit removes.
      A `Fault` is a command that raises, after or before taking effect. */
  datatype Action =
    | Tick(elapsed: nat)
    | Enqueue(drop: nat)
    | Join(who: Instance)
    | Read(who: Instance)
    | Acquire(who: Instance)
    | Return(who: Instance)
    | Raise(who: Instance)
    | AddDead(who: Instance, drop: nat)
    | Delete(who: Instance)
    | Release(who: Instance)
    | Quit(who: Instance)
    | Cancel(who: Instance)
    | Crash(who: Instance)
    | Fault(who: Instance, applied: bool)

  // ------------------------------------------------------- Redis commands

  /** The lock key exists: it was set and its time to live has not run out. */
  predicate Held(s: System) {
    s.lock.Some? && s.now < s.lock.value.until
  }

  /** XADD with an approximate maximum length never leaves fewer than that many entries. */
  predicate TrimAllowed(length: nat, drop: nat, maxlen: nat) {
    drop == 0 || maxlen <= length - drop
  }

  function ToSet<T>(xs: seq<T>): set<T> {
    set x | x in xs
  }

  /** XDEL of one entry. */
  function Without(stream: seq<OpId>, op: OpId): (r: seq<OpId>)
    ensures forall x :: x in r <==> x in stream && x != op
  {
    if stream == [] then []
    else if stream[0] == op then Without(stream[1..], op)
    else [stream[0]] + Without(stream[1..], op)
  }

  function SetLock(s: System, op: OpId): System {
    s.(lock := Some(Lock(op, s.now + LEASE)))
  }

  function MoveTo(s: System, w: Instance, p: Phase): System {
    s.(instances := s.instances[w := p])
  }

  function DeleteEntry(s: System, op: OpId): System {
    s.(stream := Without(s.stream, op))
  }

  function AddDeadLetter(s: System, op: OpId, drop: nat): System
    requires drop <= |s.deadLetter| + 1
  {
    var longer := s.deadLetter + [op];
    s.(deadLetter := longer[drop..], deadTrimmed := s.deadTrimmed + ToSet(longer[..drop]))
  }

  // ----------------------------------------------------------------- steps

  predicate Holding(p: Phase) {
    p.Working? || p.Finished? || p.Raised? || p.DeadLettered? || p.Releasing? || p.Leaving?
  }

  predicate Enabled(s: System, a: Action) {
    match a
    case Tick(_) => true
    case Enqueue(drop) => drop <= |s.stream| + 1 && TrimAllowed(|s.stream| + 1, drop, STREAM_MAXLEN)
    case Join(w) => w !in s.instances
    case Read(w) => w in s.instances && s.instances[w].Idle?
    case Acquire(w) => w in s.instances && s.instances[w].HasRead?
    case Return(w) => w in s.instances && s.instances[w].Working?
    case Raise(w) => w in s.instances && s.instances[w].Working?
    case AddDead(w, drop) =>
      && w in s.instances && s.instances[w].Raised?
      && drop <= |s.deadLetter| + 1 && TrimAllowed(|s.deadLetter| + 1, drop, DEAD_LETTER_MAXLEN)
    case Delete(w) => w in s.instances && (s.instances[w].Finished? || s.instances[w].DeadLettered?)
    case Release(w) => w in s.instances && (s.instances[w].Releasing? || s.instances[w].Leaving?)
    case Quit(w) => w in s.instances && s.instances[w].Idle?
    case Cancel(w) => w in s.instances && !s.instances[w].Stopped? && !s.instances[w].Crashed?
    case Crash(w) => w in s.instances && !s.instances[w].Stopped?
    case Fault(w, _) =>
      && w in s.instances && !s.instances[w].Stopped? && !s.instances[w].Crashed?
      && !s.instances[w].Working?
  }

  function Step(s: System, a: Action): System
    requires Enabled(s, a)
  {
    match a
    case Tick(d) => s.(now := s.now + d)
    case Enqueue(drop) =>
      var longer := s.stream + [s.nextId];
      s.(stream := longer[drop..], nextId := s.nextId + 1, trimmed := s.trimmed + ToSet(longer[..drop]))
    case Join(w) => MoveTo(s, w, Idle)
    case Read(w) => if s.stream == [] then s else MoveTo(s, w, HasRead(s.stream[0]))
    case Acquire(w) =>
      var op := s.instances[w].op;
      if Held(s) then MoveTo(s, w, Idle)
      else MoveTo(SetLock(s, op).(started := s.started + [Execution(w, op)]), w, Working(op, s.now))
    case Return(w) => MoveTo(s, w, Finished(s.instances[w].op, s.instances[w].since))
    case Raise(w) => MoveTo(s, w, Raised(s.instances[w].op, s.instances[w].since))
    case AddDead(w, drop) =>
      var p := s.instances[w];
      MoveTo(AddDeadLetter(s, p.op, drop), w, DeadLettered(p.op, p.since))
    case Delete(w) =>
      var p := s.instances[w];
      var s' := MoveTo(DeleteEntry(s, p.op), w, Releasing(p.op, p.since));
      if p.Finished? then s'.(completed := s.completed + {p.op}) else s'
    case Release(w) =>
      MoveTo(s.(lock := None), w, if s.instances[w].Releasing? then Idle else Stopped)
    case Quit(w) => MoveTo(s, w, Stopped)
    case Cancel(w) =>
      var p := s.instances[w];
      MoveTo(s, w, if Holding(p) then Leaving(p.op, p.since) else Stopped)
    case Crash(w) => MoveTo(s, w, Crashed)
    case Fault(w, applied) => FaultyStep(s, w, applied)
  }

  /** The command instance `w` is about to issue raises: the branch the source takes. */
  function FaultyStep(s: System, w: Instance, applied: bool): System
    requires Enabled(s, Fault(w, applied))
  {
    var p := s.instances[w];
    match p
    case Idle => s
    case HasRead(op) =>
      MoveTo(if applied && !Held(s) then SetLock(s, op) else s, w, Idle)
    case Finished(op, since) =>
      MoveTo(if applied then DeleteEntry(s, op) else s, w, Raised(op, since))
    case Raised(op, since) =>
      MoveTo(if applied then AddDeadLetter(s, op, 0) else s, w, Releasing(op, since))
    case DeadLettered(op, since) =>
      MoveTo(if applied then DeleteEntry(s, op) else s, w, Releasing(op, since))
    case Releasing(op, since) => MoveTo(if applied then s.(lock := None) else s, w, Idle)
    case Leaving(op, since) => MoveTo(if applied then s.(lock := None) else s, w, Stopped)
    case _ => s
  }

  predicate Legal(s: System, run: seq<Action>)
    decreases |run|
  {
    run == [] || (Enabled(s, run[0]) && Legal(Step(s, run[0]), run[1..]))
  }

  function Final(s: System, run: seq<Action>): System
    requires Legal(s, run)
    decreases |run|
  {
    if run == [] then s else Final(Step(s, run[0]), run[1..])
  }

  // ------------------------------------------- one pass of the loop body

  lemma {:induction false} OneMoreStep(s: System, run: seq<Action>, a: Action)
    requires Legal(s, run) && Enabled(Final(s, run), a)
    ensures Legal(s, run + [a]) && Final(s, run + [a]) == Step(Final(s, run), a)
    decreases |run|
  {
    if run == [] {
      assert [a][1..] == [];
    } else {
      assert (run + [a])[1..] == run[1..] + [a];
      OneMoreStep(Step(s, run[0]), run[1..], a);
    }
  }

  /** Extends a run by a step whose outcome is already known. */
  lemma Extend(s: System, run: seq<Action>, a: Action, next: System) returns (longer: seq<Action>)
    requires Legal(s, run) && Enabled(Final(s, run), a) && Step(Final(s, run), a) == next
    ensures Legal(s, longer) && Final(s, longer) == next
  {
    OneMoreStep(s, run, a);
    longer := run + [a];
  }

  lemma BlockedPass(s: System, w: Instance) returns (run: seq<Action>)
    requires s.instances == map[w := Idle] && (s.stream == [] || Held(s))
    ensures Legal(s, run) && Final(s, run) == s
  {
    if s.stream == [] {
      run := Extend(s, [], Read(w), s);
    } else {
      run := Extend(s, [], Read(w), s.(instances := map[w := HasRead(s.stream[0])]));
      run := Extend(s, run, Acquire(w), s);
    }
  }

  lemma EnteringPass(s: System, w: Instance, took: nat) returns (run: seq<Action>)
    requires s.instances == map[w := Idle] && s.stream != [] && !Held(s)
    ensures Legal(s, run)
    ensures var op := s.stream[0];
            Final(s, run) == s.(now := s.now + took, lock := Some(Lock(op, s.now + LEASE)),
                                started := s.started + [Execution(w, op)],
                                instances := map[w := Working(op, s.now)])
  {
    var op := s.stream[0];
    var inside := s.(lock := Some(Lock(op, s.now + LEASE)), started := s.started + [Execution(w, op)],
                     instances := map[w := Working(op, s.now)]);
    run := Extend(s, [], Read(w), s.(instances := map[w := HasRead(op)]));
    run := Extend(s, run, Acquire(w), inside);
    run := Extend(s, run, Tick(took), inside.(now := s.now + took));
  }

  lemma SuccessfulPass(s: System, w: Instance, took: nat) returns (run: seq<Action>)
    requires s.instances == map[w := Idle] && s.stream != [] && !Held(s)
    ensures Legal(s, run)
    ensures var op := s.stream[0];
            Final(s, run) == s.(now := s.now + took, lock := None, stream := Without(s.stream, op),
                                started := s.started + [Execution(w, op)], completed := s.completed + {op})
  {
    run := EnteringPass(s, w, took);
    var op, inside := s.stream[0], Final(s, run);
    var removed := inside.(stream := Without(s.stream, op), completed := s.completed + {op});
    run := Extend(s, run, Return(w), inside.(instances := map[w := Finished(op, s.now)]));
    run := Extend(s, run, Delete(w), removed.(instances := map[w := Releasing(op, s.now)]));
    run := Extend(s, run, Release(w), removed.(lock := None, instances := map[w := Idle]));
  }

  lemma FailingPass(s: System, w: Instance, took: nat, drop: nat) returns (run: seq<Action>)
    requires s.instances == map[w := Idle] && s.stream != [] && !Held(s)
    requires drop <= |s.deadLetter| + 1 && TrimAllowed(|s.deadLetter| + 1, drop, DEAD_LETTER_MAXLEN)
    ensures Legal(s, run)
    ensures var op := s.stream[0];
            Final(s, run) == AddDeadLetter(s, op, drop).(
              now := s.now + took, lock := None, stream := Without(s.stream, op),
              started := s.started + [Execution(w, op)])
  {
    run := BuryingPass(s, w, took, drop);
    var op, buried := s.stream[0], Final(s, run).(stream := Without(s.stream, s.stream[0]));
    run := Extend(s, run, Delete(w), buried.(instances := map[w := Releasing(op, s.now)]));
    run := Extend(s, run, Release(w), buried.(lock := None, instances := map[w := Idle]));
  }

  /** The failing pass up to its dead-letter entry. */
  lemma BuryingPass(s: System, w: Instance, took: nat, drop: nat) returns (run: seq<Action>)
    requires s.instances == map[w := Idle] && s.stream != [] && !Held(s)
    requires drop <= |s.deadLetter| + 1 && TrimAllowed(|s.deadLetter| + 1, drop, DEAD_LETTER_MAXLEN)
    ensures Legal(s, run)
    ensures var op := s.stream[0];
            Final(s, run) == AddDeadLetter(s, op, drop).(
              now := s.now + took, lock := Some(Lock(op, s.now + LEASE)),
              started := s.started + [Execution(w, op)], instances := map[w := DeadLettered(op, s.now)])
  {
    run := EnteringPass(s, w, took);
    var op, inside := s.stream[0], Final(s, run);
    run := Extend(s, run, Raise(w), inside.(instances := map[w := Raised(op, s.now)]));
    var buried := AddDeadLetter(inside, op, drop).(instances := map[w := DeadLettered(op, s.now)]);
    run := Extend(s, run, AddDead(w, drop), buried);
  }

  /** Redis as the queue sees it, with the enqueueing call and one pass of the processing
      loop that no other instance interrupts. */
  class Queue {
    var now: int
    var stream: seq<OpId>
    var nextId: OpId
    var lock: Option<Lock>
    var deadLetter: seq<OpId>

    constructor ()
      ensures now == 0 && stream == [] && nextId == 0 && lock == None && deadLetter == []
    {
      now, stream, nextId, lock, deadLetter := 0, [], 0, None, [];
    }

    /** The system with the one instance `w`, about to read. */
    ghost function Alone(w: Instance): System
      reads this
    {
      System(now, stream, nextId, lock, deadLetter, map[w := Idle], [], {}, {}, {})
    }

    ghost predicate Shows(s: System)
      reads this
    {
      s.now == now && s.stream == stream && s.nextId == nextId && s.lock == lock && s.deadLetter == deadLetter
    }

    method EnqueueOperation(drop: nat) returns (op: OpId)
      requires drop <= |stream| + 1 && TrimAllowed(|stream| + 1, drop, STREAM_MAXLEN)
      modifies this`stream, this`nextId
      ensures op == old(nextId) && nextId == op + 1
      ensures Shows(Step(old(Alone(0)), Enqueue(drop)))
    {
      op := nextId;
      stream := (stream + [op])[drop..];
      nextId := nextId + 1;
    }

    /** One pass: `succeeds` says whether process_fn returns or raises, `took` for how long it ran.
        The pass is a run of the step machine in which only instance `w` moves. */
    method ProcessOnce(w: Instance, succeeds: bool, took: nat, drop: nat) returns (ghost run: seq<Action>)
      requires drop <= |deadLetter| + 1 && TrimAllowed(|deadLetter| + 1, drop, DEAD_LETTER_MAXLEN)
      modifies this`now, this`stream, this`lock, this`deadLetter
      ensures Legal(old(Alone(w)), run) && Shows(Final(old(Alone(w)), run))
      ensures old(stream == [] || Held(Alone(w))) ==> Final(old(Alone(w)), run) == old(Alone(w))
      ensures old(stream != [] && !Held(Alone(w))) ==>
                && lock == None && now == old(now) + took && stream == Without(old(stream), old(stream)[0])
                && deadLetter == (if succeeds then old(deadLetter) else (old(deadLetter) + [old(stream)[0]])[drop..])
                && Final(old(Alone(w)), run).started == [Execution(w, old(stream)[0])]
    {
      if stream == [] {
        run := BlockedPass(Alone(w), w);
        return;
      }
      var op := stream[0];
      if lock.Some? && now < lock.value.until {
        run := BlockedPass(Alone(w), w);
        return;
      }
      if succeeds {
        run := SuccessfulPass(Alone(w), w, took);
      } else {
        run := FailingPass(Alone(w), w, took, drop);
      }
      lock := Some(Lock(op, now + LEASE));
      now := now + took;
      if !succeeds {
        deadLetter := (deadLetter + [op])[drop..];
      }
      stream := Without(stream, op);
      lock := None;
    }
  }

  // ------------------------------------------------------ mutual exclusion

  /** Every holder of the lock is within its 60 seconds. */
  ghost predicate Timely(s: System) {
    forall w :: w in s.instances && Holding(s.instances[w]) ==> s.now < s.instances[w].since + LEASE
  }

  ghost predicate AlwaysTimely(s: System, run: seq<Action>)
    requires Legal(s, run)
    decreases |run|
  {
    Timely(s) && (run == [] || AlwaysTimely(Step(s, run[0]), run[1..]))
  }

  ghost predicate AtMostOneHolder(s: System) {
    forall v, w | v in s.instances && w in s.instances ::
      Holding(s.instances[v]) && Holding(s.instances[w]) ==> v == w
  }

  /** A holder is the only one, and the lock key is the one it set. */
  ghost predicate HolderOwnsLock(s: System) {
    && AtMostOneHolder(s)
    && forall w :: w in s.instances && Holding(s.instances[w]) ==>
         s.lock == Some(Lock(s.instances[w].op, s.instances[w].since + LEASE))
  }

  lemma StepKeepsOwnership(s: System, a: Action)
    requires Enabled(s, a) && HolderOwnsLock(s) && Timely(s)
    ensures HolderOwnsLock(Step(s, a))
  {
    if !a.Acquire? && !a.Tick? && !a.Enqueue? {
      HoldersOnlyLeave(s, a);
    }
  }

  /** Only taking the lock makes a holder, and a holder keeps what it holds. */
  lemma HoldersOnlyLeave(s: System, a: Action)
    requires Enabled(s, a) && !a.Acquire?
    ensures forall w :: w in Step(s, a).instances && Holding(Step(s, a).instances[w]) ==>
              && w in s.instances && Holding(s.instances[w])
              && Step(s, a).instances[w].op == s.instances[w].op
              && Step(s, a).instances[w].since == s.instances[w].since
  {
  }

  lemma {:induction false} RunKeepsOwnership(s: System, run: seq<Action>)
    requires Legal(s, run) && HolderOwnsLock(s) && AlwaysTimely(s, run)
    ensures HolderOwnsLock(Final(s, run))
    decreases |run|
  {
    if run != [] {
      StepKeepsOwnership(s, run[0]);
      RunKeepsOwnership(Step(s, run[0]), run[1..]);
    }
  }

  /** Mutual exclusion over every interleaving, with crashes, stale reads and faults: while holders
      release within 60 seconds, no two instances are between taking and deleting the lock,
      in particular not both inside process_fn. */
  lemma AtMostOneInsideProcess(run: seq<Action>)
    requires Legal(INITIAL, run) && AlwaysTimely(INITIAL, run)
    ensures AtMostOneHolder(Final(INITIAL, run))
    ensures var s := Final(INITIAL, run);
            forall v, w | v in s.instances && w in s.instances ::
              s.instances[v].Working? && s.instances[w].Working? ==> v == w
  {
    RunKeepsOwnership(INITIAL, run);
  }

  /** The bound is exact: the next instance to ask gets in beside the holder
      if and only if the holder's 60 seconds are over. */
  lemma SecondHolderExactlyWhenOverdue(s: System, holder: Instance, asker: Instance)
    requires HolderOwnsLock(s)
    requires holder in s.instances && Holding(s.instances[holder])
    requires asker in s.instances && s.instances[asker].HasRead?
    ensures !AtMostOneHolder(Step(s, Acquire(asker))) <==> s.now >= s.instances[holder].since + LEASE
  {
    var s' := Step(s, Acquire(asker));
    if s.now >= s.instances[holder].since + LEASE {
      assert s'.instances[asker].Working? && s'.instances[holder] == s.instances[holder];
    }
  }

  /** A holder that dies without deleting the lock blocks the others for at most 60 seconds. */
  lemma {:induction false} LockNeverOutlivesLease(s: System, run: seq<Action>)
    requires Legal(s, run)
    requires s.lock.Some? ==> s.lock.value.until <= s.now + LEASE
    ensures var s' := Final(s, run); s'.lock.Some? ==> s'.lock.value.until <= s'.now + LEASE
    decreases |run|
  {
    if run != [] {
      LockNeverOutlivesLease(Step(s, run[0]), run[1..]);
    }
  }

  // --------------------------------------------------------- conservation

  ghost predicate Accounted(s: System, op: OpId) {
    op in s.stream || op in s.completed || op in s.deadLetter || op in s.trimmed || op in s.deadTrimmed
  }

  lemma SplitMembers<T>(xs: seq<T>, k: nat)
    requires k <= |xs|
    ensures forall x :: x in xs <==> x in xs[k..] || x in ToSet(xs[..k])
  {
    assert xs == xs[..k] + xs[k..];
  }

  /** Both streams stay below their length limits throughout. */
  predicate BelowTrim(s: System, run: seq<Action>)
    requires Legal(s, run)
    decreases |run|
  {
    && |s.stream| < STREAM_MAXLEN && |s.deadLetter| < DEAD_LETTER_MAXLEN
    && (run == [] || BelowTrim(Step(s, run[0]), run[1..]))
  }

  lemma {:induction false} BelowTrimDropsNothing(s: System, run: seq<Action>)
    requires Legal(s, run) && BelowTrim(s, run) && s.trimmed == {} && s.deadTrimmed == {}
    ensures Final(s, run).trimmed == {} && Final(s, run).deadTrimmed == {}
    decreases |run|
  {
    if run != [] {
      BelowTrimDropsNothing(Step(s, run[0]), run[1..]);
    }
  }

  // ------------------------------------------------------- order, at most once

  predicate Reliable(run: seq<Action>) {
    forall a :: a in run ==> !a.Fault?
  }

  ghost predicate Increasing(xs: seq<OpId>) {
    forall i, j :: 0 <= i < j < |xs| ==> xs[i] < xs[j]
  }

  /** What instance `w` has executed lies before whatever it can still read. */
  ghost predicate Ahead(s: System, w: Instance, p: Phase) {
    match p
    case Idle => forall e, x :: e in s.started && e.who == w && x in s.stream ==> e.op < x
    case HasRead(op) =>
      && op < s.nextId && (forall x :: x in s.stream ==> op <= x)
      && (forall e :: e in s.started && e.who == w ==> e.op < op)
    case Releasing(op, _) =>
      && op < s.nextId && (forall x :: x in s.stream ==> op < x)
      && (forall e :: e in s.started && e.who == w ==> e.op <= op)
    case Leaving(_, _) => true
    case Stopped => true
    case Crashed => true
    case _ =>
      && p.op < s.nextId && (forall x :: x in s.stream ==> p.op <= x)
      && (forall e :: e in s.started && e.who == w ==> e.op <= p.op)
  }

  /** Each instance's calls of process_fn are in strictly increasing order of operation. */
  ghost predicate InOrderPerInstance(started: seq<Execution>) {
    forall i, j :: 0 <= i < j < |started| && started[i].who == started[j].who ==>
      started[i].op < started[j].op
  }

  ghost predicate OrderInv(s: System) {
    && Increasing(s.stream)
    && (forall x :: x in s.stream ==> x < s.nextId)
    && InOrderPerInstance(s.started)
    && (forall e :: e in s.started ==> e.who in s.instances && e.op < s.nextId)
    && (forall w :: w in s.instances ==> Ahead(s, w, s.instances[w]))
  }

  lemma {:induction false} WithoutIncreasing(stream: seq<OpId>, op: OpId)
    requires Increasing(stream)
    ensures Increasing(Without(stream, op))
  {
    if stream != [] {
      WithoutIncreasing(stream[1..], op);
      ConsIncreasing(stream[0], Without(stream[1..], op));
    }
  }

  lemma ConsIncreasing(first: OpId, rest: seq<OpId>)
    requires Increasing(rest) && forall x :: x in rest ==> first < x
    ensures Increasing([first] + rest)
  {
    forall i, j | 0 <= i < j < |[first] + rest|
      ensures ([first] + rest)[i] < ([first] + rest)[j]
    {
      assert rest[j - 1] in rest;
    }
  }

  lemma SuffixOfExtended(stream: seq<OpId>, next: OpId, drop: nat)
    requires Increasing(stream) && drop <= |stream| + 1 && forall x :: x in stream ==> x < next
    ensures Increasing((stream + [next])[drop..])
    ensures forall x :: x in (stream + [next])[drop..] ==> x in stream || x == next
  {
    var longer := stream + [next];
    forall i, j | 0 <= i < j < |longer|
      ensures longer[i] < longer[j]
    {
      if j == |stream| {
        assert stream[i] in stream;
      }
    }
    SplitMembers(longer, drop);
  }

  lemma ReadKeepsOrder(s: System, w: Instance)
    requires Enabled(s, Read(w)) && OrderInv(s)
    ensures OrderInv(Step(s, Read(w)))
  {
    HeadIsLeast(s.stream);
  }

  lemma AcquireKeepsOrder(s: System, w: Instance)
    requires Enabled(s, Acquire(w)) && OrderInv(s)
    ensures OrderInv(Step(s, Acquire(w)))
  {
    var op := s.instances[w].op;
    assert Ahead(s, w, HasRead(op));
    if !Held(s) {
      var s' := Step(s, Acquire(w));
      AppendInOrder(s.started, Execution(w, op));
      forall v | v in s'.instances
        ensures Ahead(s', v, s'.instances[v])
      {
        assert Ahead(s, v, s.instances[v]);
      }
    }
  }

  lemma AppendInOrder(started: seq<Execution>, e: Execution)
    requires InOrderPerInstance(started)
    requires forall d :: d in started && d.who == e.who ==> d.op < e.op
    ensures InOrderPerInstance(started + [e])
    ensures forall d :: d in started + [e] <==> d in started || d == e
  {
    forall i, j | 0 <= i < j < |started| + 1 && (started + [e])[i].who == (started + [e])[j].who
      ensures (started + [e])[i].op < (started + [e])[j].op
    {
      assert started[i] in started;
    }
  }

  lemma DeleteKeepsOrder(s: System, w: Instance)
    requires Enabled(s, Delete(w)) && OrderInv(s)
    ensures OrderInv(Step(s, Delete(w)))
  {
    WithoutIncreasing(s.stream, s.instances[w].op);
  }

  lemma EnqueueKeepsOrder(s: System, drop: nat)
    requires Enabled(s, Enqueue(drop)) && OrderInv(s)
    ensures OrderInv(Step(s, Enqueue(drop)))
  {
    SuffixOfExtended(s.stream, s.nextId, drop);
  }

  /** The invariant is about the stream, the ids, the executions and the instances only. */
  lemma MoveKeepsOrder(s: System, w: Instance, p: Phase, s': System)
    requires OrderInv(s) && Ahead(s, w, p)
    requires s'.stream == s.stream && s'.nextId == s.nextId && s'.started == s.started
    requires s'.instances == s.instances[w := p]
    ensures OrderInv(s')
  {
    forall v | v in s'.instances
      ensures Ahead(s', v, s'.instances[v])
    {
      assert v != w ==> Ahead(s, v, s.instances[v]);
    }
  }

  lemma FreshInstanceIsAhead(s: System, w: Instance)
    requires OrderInv(s) && w !in s.instances
    ensures Ahead(s, w, Idle)
  {
  }

  lemma StepKeepsOrder(s: System, a: Action)
    requires Enabled(s, a) && OrderInv(s) && !a.Fault?
    ensures OrderInv(Step(s, a))
  {
    if a.Tick? {
      OrderIgnoresTime(s, Step(s, a));
    } else if a.Enqueue? {
      EnqueueKeepsOrder(s, a.drop);
    } else if a.Read? {
      ReadKeepsOrder(s, a.who);
    } else if a.Acquire? {
      AcquireKeepsOrder(s, a.who);
    } else if a.Delete? {
      DeleteKeepsOrder(s, a.who);
    } else if a.Join? {
      FreshInstanceIsAhead(s, a.who);
      MoveKeepsOrder(s, a.who, Idle, Step(s, a));
    } else {
      assert Ahead(s, a.who, s.instances[a.who]);
      MoveKeepsOrder(s, a.who, Step(s, a).instances[a.who], Step(s, a));
    }
  }

  lemma OrderIgnoresTime(s: System, s': System)
    requires OrderInv(s) && s' == s.(now := s'.now)
    ensures OrderInv(s')
  {
    forall v | v in s'.instances
      ensures Ahead(s', v, s'.instances[v])
    {
      assert Ahead(s, v, s.instances[v]);
    }
  }

  lemma HeadIsLeast(stream: seq<OpId>)
    requires Increasing(stream)
    ensures stream != [] ==> stream[0] in stream && forall x :: x in stream ==> stream[0] <= x
  {
  }

  lemma {:induction false} RunKeepsOrder(s: System, run: seq<Action>)
    requires Legal(s, run) && Reliable(run) && OrderInv(s)
    ensures OrderInv(Final(s, run))
    decreases |run|
  {
    if run != [] {
      StepKeepsOrder(s, run[0]);
      RunKeepsOrder(Step(s, run[0]), run[1..]);
    }
  }

  /** With reliable commands each instance executes operations in enqueue order and none of them
      twice, whatever the other instances do and however stale its reads are.
      So two executions of one operation are by different instances. */
  lemma EachInstanceInOrderAtMostOnce(run: seq<Action>)
    requires Legal(INITIAL, run) && Reliable(run)
    ensures InOrderPerInstance(Final(INITIAL, run).started)
    ensures var started := Final(INITIAL, run).started;
            forall i, j :: 0 <= i < j < |started| && started[i].op == started[j].op ==>
              started[i].who != started[j].who
  {
    RunKeepsOrder(INITIAL, run);
  }

  /** An instance working alone executes operations in enqueue order, each at most once. */
  lemma SingleInstanceInEnqueueOrder(run: seq<Action>, only: Instance)
    requires Legal(INITIAL, run) && Reliable(run)
    requires Final(INITIAL, run).instances.Keys <= {only}
    ensures var started := Final(INITIAL, run).started;
            forall i, j :: 0 <= i < j < |started| ==> started[i].op < started[j].op
  {
    RunKeepsOrder(INITIAL, run);
    var s := Final(INITIAL, run);
    forall i | 0 <= i < |s.started|
      ensures s.started[i].who == only
    {
      assert s.started[i] in s.started;
    }
  }

  ghost predicate GoodRun(s: System, run: seq<Action>) {
    Legal(s, run) && Reliable(run) && AlwaysTimely(s, run)
  }

  /** Across instances an operation can be executed twice even though every holder is timely: an
      instance that read it before the first one deleted it may take the lock afterwards. */
  lemma StaleReadExecutesTwice() returns (run: seq<Action>)
    ensures Legal(INITIAL, run) && Reliable(run) && AlwaysTimely(INITIAL, run)
    ensures Final(INITIAL, run).started == [Execution(1, 0), Execution(2, 0)]
  {
    run := SecondExecution();
    run := FirstExecution(run);
    run := BothRead(run);
  }

  /** The run's states: both instances have read operation 0, and the first one has taken,
      used and released the lock. */
  const BOTH_READ := INITIAL.(stream := [0], nextId := 1, instances := map[1 := HasRead(0), 2 := HasRead(0)])
  const FIRST_DONE := BOTH_READ.(stream := [], instances := map[1 := Idle, 2 := HasRead(0)],
                                 started := [Execution(1, 0)], completed := {0})

  lemma BothRead(rest: seq<Action>) returns (run: seq<Action>)
    requires GoodRun(BOTH_READ, rest)
    ensures GoodRun(INITIAL, run) && Final(INITIAL, run) == Final(BOTH_READ, rest)
  {
    var s1 := INITIAL.(stream := [0], nextId := 1);
    var s2 := s1.(instances := map[1 := Idle]);
    var s3 := s1.(instances := map[1 := Idle, 2 := Idle]);
    var s4 := s1.(instances := map[1 := HasRead(0), 2 := Idle]);
    run := Before(s4, Read(2), BOTH_READ, rest);
    run := Before(s3, Read(1), s4, run);
    run := Before(s2, Join(2), s3, run);
    run := Before(s1, Join(1), s2, run);
    assert ToSet<OpId>([]) == {};
    run := Before(INITIAL, Enqueue(0), s1, run);
  }

  const FIRST_WORKING := BOTH_READ.(lock := Some(Lock(0, LEASE)), started := [Execution(1, 0)],
                                    instances := map[1 := Working(0, 0), 2 := HasRead(0)])
  const FIRST_FINISHED := FIRST_WORKING.(instances := map[1 := Finished(0, 0), 2 := HasRead(0)])

  lemma FirstExecution(rest: seq<Action>) returns (run: seq<Action>)
    requires GoodRun(FIRST_DONE, rest)
    ensures GoodRun(BOTH_READ, run) && Final(BOTH_READ, run) == Final(FIRST_DONE, rest)
  {
    run := FirstCleanup(rest);
    run := Before(FIRST_WORKING, Return(1), FIRST_FINISHED, run);
    run := Before(BOTH_READ, Acquire(1), FIRST_WORKING, run);
  }

  lemma FirstCleanup(rest: seq<Action>) returns (run: seq<Action>)
    requires GoodRun(FIRST_DONE, rest)
    ensures GoodRun(FIRST_FINISHED, run) && Final(FIRST_FINISHED, run) == Final(FIRST_DONE, rest)
  {
    var s3 := FIRST_DONE.(lock := Some(Lock(0, LEASE)), instances := map[1 := Releasing(0, 0), 2 := HasRead(0)]);
    assert Without([0], 0) == [];
    run := Before(s3, Release(1), FIRST_DONE, rest);
    run := Before(FIRST_FINISHED, Delete(1), s3, run);
  }

  lemma SecondExecution() returns (run: seq<Action>)
    ensures GoodRun(FIRST_DONE, run)
    ensures Final(FIRST_DONE, run).started == [Execution(1, 0), Execution(2, 0)]
  {
    var s := Step(FIRST_DONE, Acquire(2));
    run := Before(FIRST_DONE, Acquire(2), s, []);
  }

  /** Puts one step in front of a run. */
  lemma Before(s: System, a: Action, next: System, rest: seq<Action>) returns (run: seq<Action>)
    requires Enabled(s, a) && !a.Fault? && Timely(s)
    requires Step(s, a) == next && GoodRun(next, rest)
    ensures GoodRun(s, run) && Final(s, run) == Final(next, rest)
  {
    run := [a] + rest;
    assert run[1..] == rest;
    assert forall b :: b in run <==> b == a || b in rest;
  }
}
