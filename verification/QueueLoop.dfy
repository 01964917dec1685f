/** The order in which every instance goes through the processing loop, and the operation its commands are
    for, told by the positions of a run. */
module QueueLoop {
  import opened Wrappers
  import opened BlockchainQueue

  predicate Of(a: Action, w: Instance) {
    !a.Tick? && !a.Enqueue? && a.who == w
  }

  /** The latest position of an action of the instance, or -1. */
  function LatestOwn(run: seq<Action>, w: Instance): (i: int)
    ensures -1 <= i < |run|
    ensures i >= 0 ==> Of(run[i], w)
    ensures forall m :: i < m < |run| ==> !Of(run[m], w)
    decreases |run|
  {
    if run == [] then -1
    else if Of(run[|run| - 1], w) then |run| - 1
    else LatestOwn(run[..|run| - 1], w)
  }

  /** The latest position at which the instance read the stream, asked for the lock, or had a command fail,
      or -1. */
  function LatestTry(run: seq<Action>, w: Instance): (i: int)
    ensures -1 <= i < |run|
    decreases |run|
  {
    if run == [] then -1
    else
      var a := run[|run| - 1];
      if Of(a, w) && (a.Read? || a.Acquire? || a.Fault?) then |run| - 1 else LatestTry(run[..|run| - 1], w)
  }

  /** The latest position at which the instance read the stream, or -1. */
  function LatestRead(run: seq<Action>, w: Instance): (i: int)
    ensures -1 <= i < |run|
    decreases |run|
  {
    if run == [] then -1
    else if run[|run| - 1] == Read(w) then |run| - 1
    else LatestRead(run[..|run| - 1], w)
  }

  // ------------------------------------------------------------- positions

  lemma {:induction false} PrefixLegal(s: System, run: seq<Action>, k: nat)
    requires Legal(s, run) && k <= |run|
    ensures Legal(s, run[..k])
    ensures k < |run| ==>
              && Enabled(Final(s, run[..k]), run[k]) && Legal(s, run[..k + 1])
              && Final(s, run[..k + 1]) == Step(Final(s, run[..k]), run[k])
    decreases k
  {
    if k == 0 {
      assert run[..0] == [];
      if run != [] {
        assert run[..1] == [run[0]] && run[..1][1..] == [];
      }
    } else {
      PrefixLegal(Step(s, run[0]), run[1..], k - 1);
      assert run[..k][1..] == run[1..][..k - 1];
      if k < |run| {
        assert run[..k + 1][1..] == run[1..][..k];
      }
    }
  }

  function At(run: seq<Action>, k: nat): System
    requires Legal(INITIAL, run) && k <= |run|
  {
    PrefixLegal(INITIAL, run, k);
    Final(INITIAL, run[..k])
  }

  lemma AtNext(run: seq<Action>, k: nat)
    requires Legal(INITIAL, run) && k < |run|
    ensures Enabled(At(run, k), run[k]) && At(run, k + 1) == Step(At(run, k), run[k])
  {
    PrefixLegal(INITIAL, run, k);
  }

  // --------------------------------------------- which operation is in hand

  predicate InHand(p: Phase, op: OpId) {
    !p.Idle? && !p.Stopped? && !p.Crashed? && p.op == op
  }

  /** The instance read the operation at the head of the stream when it last read; and it is about to ask for
      the lock only if nothing of the kind came since. */
  ghost predicate ReadIt(run: seq<Action>, k: nat, w: Instance, op: OpId)
    requires Legal(INITIAL, run) && k <= |run|
  {
    var i := LatestRead(run[..k], w);
    i >= 0 && At(run, i).stream != [] && At(run, i).stream[0] == op
  }

  /** What instance w has in hand after k steps. */
  lemma {:induction false} HandIsHeadLastRead(run: seq<Action>, k: nat, w: Instance, op: OpId)
    requires Legal(INITIAL, run) && k <= |run|
    requires w in At(run, k).instances && InHand(At(run, k).instances[w], op)
    ensures ReadIt(run, k, w, op)
    ensures At(run, k).instances[w].HasRead? ==> LatestTry(run[..k], w) == LatestRead(run[..k], w)
    decreases k
  {
    var s := At(run, k);
    if k > 0 {
      AtNext(run, k - 1);
      var before, a := At(run, k - 1), run[k - 1];
      assert run[..k][..k - 1] == run[..k - 1] && run[..k][k - 1] == a;
      if a == Read(w) && before.stream != [] {
        assert LatestRead(run[..k], w) == k - 1;
      } else {
        HandUnchanged(before, a, w, op);
        HandIsHeadLastRead(run, k - 1, w, op);
      }
    }
  }

  /** Only reading takes up an operation, and asking for the lock or failing to ends the reading. */
  lemma HandUnchanged(s: System, a: Action, w: Instance, op: OpId)
    requires Enabled(s, a) && !(a == Read(w) && s.stream != [])
    requires w in Step(s, a).instances && InHand(Step(s, a).instances[w], op)
    ensures w in s.instances && InHand(s.instances[w], op) && a != Read(w)
    ensures Step(s, a).instances[w].HasRead? ==>
              s.instances[w].HasRead? && !(Of(a, w) && (a.Read? || a.Acquire? || a.Fault?))
  {
  }

  /** Whenever the lock is granted to an instance, the latest of its reads, requests for the lock and failing
      commands was a read, and the operation it starts is the one that was at the head of the stream then: a
      refused instance reads again. */
  lemma GrantIsForTheHeadJustRead(run: seq<Action>, k: nat, w: Instance) returns (i: nat)
    requires Legal(INITIAL, run) && k < |run| && run[k] == Acquire(w) && !Held(At(run, k))
    ensures i < k && i == LatestTry(run[..k], w) && run[i] == Read(w)
    ensures At(run, i).stream != []
    ensures At(run, k + 1).started == At(run, k).started + [Execution(w, At(run, i).stream[0])]
  {
    AtNext(run, k);
    var op := At(run, k).instances[w].op;
    HandIsHeadLastRead(run, k, w, op);
    i := LatestRead(run[..k], w);
    ReadsAreReads(run[..k], w);
    assert run[..k][i] == run[i];
  }

  lemma {:induction false} ReadsAreReads(run: seq<Action>, w: Instance)
    ensures var i := LatestRead(run, w); i >= 0 ==> run[i] == Read(w)
    decreases |run|
  {
    if run != [] && run[|run| - 1] != Read(w) {
      ReadsAreReads(run[..|run| - 1], w);
    }
  }

  /** What the cleanup commands do is for the operation at the head of the stream when the instance last read:
      it alone is deleted or dead-lettered. */
  lemma CleanupIsForTheHeadLastRead(run: seq<Action>, k: nat, w: Instance) returns (i: nat)
    requires Legal(INITIAL, run) && k < |run| && (run[k] == Delete(w) || (run[k].AddDead? && run[k].who == w))
    ensures i < k && run[i] == Read(w) && (forall m :: i < m < k ==> run[m] != Read(w)) && At(run, i).stream != []
    ensures var op, s, s' := At(run, i).stream[0], At(run, k), At(run, k + 1);
            if run[k].Delete? then
              && (forall x :: x in s'.stream <==> x in s.stream && x != op)
              && s'.deadLetter == s.deadLetter
            else
              && run[k].drop <= |s.deadLetter| + 1 && s'.stream == s.stream
              && s'.deadLetter == (s.deadLetter + [op])[run[k].drop..]
  {
    AtNext(run, k);
    var op := At(run, k).instances[w].op;
    HandIsHeadLastRead(run, k, w, op);
    i := LatestRead(run[..k], w);
    ReadsAreReads(run[..k], w);
    LatestReadIsLatest(run[..k], w);
    forall m | i < m < k
      ensures run[m] != Read(w)
    {
      assert run[..k][m] == run[m];
    }
    assert run[..k][i] == run[i];
  }

  lemma {:induction false} LatestReadIsLatest(run: seq<Action>, w: Instance)
    ensures forall m :: LatestRead(run, w) < m < |run| ==> run[m] != Read(w)
    decreases |run|
  {
    if run != [] && run[|run| - 1] != Read(w) {
      var before := run[..|run| - 1];
      LatestReadIsLatest(before, w);
      forall m | LatestRead(run, w) < m < |run|
        ensures run[m] != Read(w)
      {
        assert m < |before| ==> run[m] == before[m];
      }
    }
  }

  // ---------------------------------------------------------- the loop's order

  /** Whether action `b` may be an instance's next one after `a`, which it did in the state `s`, as the
      processing loop orders them.  Anything may be a cancellation, a crash or a failing command. */
  predicate LoopAllows(s: System, a: Action, b: Action) {
    match a
    case Join(_) => b.Read? || b.Quit?
    case Read(_) => if s.stream == [] then b.Read? || b.Quit? else b.Acquire?
    case Acquire(_) => if Held(s) then b.Read? || b.Quit? else b.Return? || b.Raise?
    case Return(_) => b.Delete?
    case Raise(_) => b.AddDead?
    case AddDead(_, _) => b.Delete?
    case Delete(_) => b.Release?
    case Release(_) => b.Read? || b.Quit?
    case Cancel(_) => b.Release?
    case Fault(w, _) => FaultAllows(s, w, b)
    case _ => false
  }

  /** After a failing command: a failing deletion after success leads to the dead-letter entry, a failing
      dead-letter entry or deletion after it to the release, and everything else to the next read. */
  predicate FaultAllows(s: System, w: Instance, b: Action) {
    w in s.instances &&
    if Enabled(s, Delete(w)) && s.instances[w].Finished? then b.AddDead?
    else if Enabled(s, Delete(w)) || Enabled(s, AddDead(w, 0)) then b.Release?
    else b.Read? || b.Quit?
  }

  lemma {:induction false} PhaseKept(run: seq<Action>, i: nat, k: nat, w: Instance)
    requires Legal(INITIAL, run) && i <= k <= |run|
    requires forall m :: i <= m < k ==> !Of(run[m], w)
    requires w in At(run, i).instances
    ensures w in At(run, k).instances && At(run, k).instances[w] == At(run, i).instances[w]
    decreases k
  {
    if i < k {
      PhaseKept(run, i, k - 1, w);
      AtNext(run, k - 1);
    }
  }

  lemma NextInLoop(s: System, a: Action, later: System, b: Action, w: Instance)
    requires Enabled(s, a) && Of(a, w) && Enabled(later, b) && Of(b, w) && !b.Join?
    requires w in later.instances && later.instances[w] == Step(s, a).instances[w]
    ensures b.Cancel? || b.Crash? || b.Fault? || LoopAllows(s, a, b)
  {
    if a.Fault? {
      assert Step(s, a) == FaultyStep(s, w, a.applied);
    }
  }

  /** Every instance goes through the loop in the source's order: whatever the others do, each of its actions
      is one that the loop allows after its latest earlier one. */
  lemma EveryInstanceFollowsTheLoop(run: seq<Action>, k: nat, w: Instance)
    requires Legal(INITIAL, run) && k < |run| && Of(run[k], w) && !run[k].Join?
    ensures var i := LatestOwn(run[..k], w);
            && 0 <= i < k
            && (run[k].Cancel? || run[k].Crash? || run[k].Fault? || LoopAllows(At(run, i), run[i], run[k]))
  {
    AtNext(run, k);
    var i := LatestOwn(run[..k], w);
    forall m | i < m < k
      ensures !Of(run[m], w)
    {
      assert run[..k][m] == run[m];
    }
    if i < 0 {
      NeverJoined(run, k, w);
    } else {
      assert run[..k][i] == run[i];
      AtNext(run, i);
      PhaseKept(run, i + 1, k, w);
      NextInLoop(At(run, i), run[i], At(run, k), run[k], w);
    }
  }

  lemma {:induction false} NeverJoined(run: seq<Action>, k: nat, w: Instance)
    requires Legal(INITIAL, run) && k <= |run| && forall m :: 0 <= m < k ==> !Of(run[m], w)
    ensures w !in At(run, k).instances
    decreases k
  {
    if k == 0 {
      assert run[..0] == [];
    } else {
      AtNext(run, k - 1);
      NeverJoined(run, k - 1, w);
    }
  }

  // ------------------------------------------------------------- the lock key

  /** What the commands do to the lock key: a granted request sets it for 60 seconds, whatever stood there; a
      release deletes it, whoever set it; failing commands aside nothing else touches it. */
  lemma WhatTouchesTheLock(s: System, a: Action)
    requires Enabled(s, a) && !a.Fault?
    ensures a.Release? ==> Step(s, a).lock == None
    ensures a.Acquire? ==>
              Step(s, a).lock == if s.lock.Some? && s.now < s.lock.value.until then s.lock
                                 else Some(Lock(s.instances[a.who].op, s.now + 60))
    ensures !a.Release? && !a.Acquire? ==> Step(s, a).lock == s.lock
  {
  }

  /** So a late holder frees the lock of the one that came in beside it, and a third may enter. */
  lemma LateReleaseLetsAThirdIn(s: System, late: Instance, third: Instance)
    requires late in s.instances && (s.instances[late].Releasing? || s.instances[late].Leaving?)
    requires third in s.instances && s.instances[third].HasRead?
    ensures Step(Step(s, Release(late)), Acquire(third)).instances[third].Working?
  {
  }

  // ------------------------------------------------------- the length limits

  /** The streams only lose oldest entries to their limits, and keep 10000 and 1000 entries when they do: an
      enqueued operation is last in the stream, a dead letter last among the dead letters. */
  lemma LimitsKeepTheLatest(s: System, a: Action)
    requires a.Enqueue? || a.AddDead?
    requires Enabled(s, a)
    ensures a.Enqueue? ==>
              && a.drop <= |s.stream| + 1 && (a.drop > 0 ==> |Step(s, a).stream| >= 10000)
              && Step(s, a).stream == (s.stream + [s.nextId])[a.drop..]
    ensures a.AddDead? ==>
              && a.drop <= |s.deadLetter| + 1 && (a.drop > 0 ==> |Step(s, a).deadLetter| >= 1000)
              && Step(s, a).deadLetter == (s.deadLetter + [s.instances[a.who].op])[a.drop..]
  {
  }
}
