/** When the work queue executes an operation again, over every interleaving of its instances. */
module QueueRepetition {
  import opened BlockchainQueue

  /** Between starting process_fn and removing the entry from the stream. */
  predicate Executing(p: Phase) {
    p.Working? || p.Finished? || p.Raised? || p.DeadLettered?
  }

  ghost predicate InProgress(s: System, op: OpId) {
    exists w :: w in s.instances && Executing(s.instances[w]) && s.instances[w].op == op
  }

  ghost predicate WasStarted(started: seq<Execution>, op: OpId) {
    exists i :: 0 <= i < |started| && started[i].op == op
  }

  ghost predicate NoRepetition(started: seq<Execution>) {
    forall i, j :: 0 <= i < j < |started| ==> started[i].op != started[j].op
  }

  /** The operation whose execution a crash, a cancellation or a failing command breaks off before the
      entry was removed by its instance. */
  function BrokenOff(s: System, a: Action): set<OpId>
    requires Enabled(s, a)
  {
    if (a.Crash? || a.Cancel? || a.Fault?) && Executing(s.instances[a.who])
       && !Executing(Step(s, a).instances[a.who])
    then {s.instances[a.who].op}
    else {}
  }

  predicate Grants(s: System, a: Action) {
    Enabled(s, a) && a.Acquire? && !Held(s)
  }

  // ------------------------------------------------------------ what is kept

  /** A started operation that is still in the stream is in progress or was broken off; one that left the
      stream was started or trimmed. */
  ghost predicate Accounts(s: System, broken: set<OpId>) {
    && (forall i :: 0 <= i < |s.started| ==> StartedFits(s, broken, s.started[i].op))
    && (forall op :: 0 <= op < s.nextId && op !in s.stream && op !in s.trimmed ==> WasStarted(s.started, op))
    && (forall op :: op in broken ==> WasStarted(s.started, op))
    && (forall op :: op in s.stream ==> op < s.nextId)
    && (forall w :: w in s.instances ==> PhaseFits(s, s.instances[w]))
  }

  ghost predicate StartedFits(s: System, broken: set<OpId>, op: OpId) {
    op < s.nextId && (op in s.stream ==> op in broken || InProgress(s, op))
  }

  ghost predicate PhaseFits(s: System, p: Phase) {
    && (p.HasRead? ==> p.op < s.nextId)
    && (Executing(p) ==> WasStarted(s.started, p.op))
  }

  lemma StillInProgress(s: System, a: Action, op: OpId)
    requires Enabled(s, a) && InProgress(s, op)
    ensures InProgress(Step(s, a), op) || op in BrokenOff(s, a) || op !in Step(s, a).stream
  {
    var w :| w in s.instances && Executing(s.instances[w]) && s.instances[w].op == op;
    var p, s' := s.instances[w], Step(s, a);
    assert w in s'.instances;
    if Executing(s'.instances[w]) {
      assert s'.instances[w].op == op;
    } else {
      assert (a.Delete? || a.Crash? || a.Cancel? || a.Fault?) && a.who == w;
    }
  }

  lemma StartedGrows(s: System, a: Action, op: OpId)
    requires Enabled(s, a)
    ensures s.started <= Step(s, a).started && s.trimmed <= Step(s, a).trimmed
    ensures WasStarted(s.started, op) ==> WasStarted(Step(s, a).started, op)
    ensures Grants(s, a) && op == s.instances[a.who].op ==> WasStarted(Step(s, a).started, op)
  {
    var s' := Step(s, a);
    if i :| 0 <= i < |s.started| && s.started[i].op == op {
      assert s'.started[i].op == op;
    }
    if Grants(s, a) && op == s.instances[a.who].op {
      assert s'.started[|s.started|].op == op;
    }
  }

  lemma StepKeepsStarted(s: System, a: Action, broken: set<OpId>)
    requires Enabled(s, a) && Accounts(s, broken)
    ensures var s' := Step(s, a);
            forall i :: 0 <= i < |s'.started| ==> StartedFits(s', broken + BrokenOff(s, a), s'.started[i].op)
  {
    var s', broken' := Step(s, a), broken + BrokenOff(s, a);
    forall i | 0 <= i < |s'.started|
      ensures StartedFits(s', broken', s'.started[i].op)
    {
      var op := s'.started[i].op;
      if i < |s.started| {
        assert s'.started[i] == s.started[i] && StartedFits(s, broken, op);
        if op in s'.stream {
          StreamOnlyGainsNew(s, a, op);
          if op !in broken {
            StillInProgress(s, a, op);
          }
        }
      } else {
        assert s'.instances[a.who].Working? && s'.instances[a.who].op == op;
      }
    }
  }

  lemma StreamOnlyGainsNew(s: System, a: Action, op: OpId)
    requires Enabled(s, a)
    ensures op in Step(s, a).stream ==> op in s.stream || (a.Enqueue? && op == s.nextId)
    ensures Step(s, a).nextId >= s.nextId
  {
    if a.Enqueue? {
      SplitMembers(s.stream + [s.nextId], a.drop);
    }
  }

  /** What a step takes from the stream it trimmed, or its instance had started it. */
  lemma StreamLosesOnlyStarted(s: System, a: Action, op: OpId)
    requires Enabled(s, a) && (op in s.stream || (a.Enqueue? && op == s.nextId))
    ensures op in Step(s, a).stream || op in Step(s, a).trimmed
            || (!a.Tick? && !a.Enqueue? && a.who in s.instances
                && Executing(s.instances[a.who]) && s.instances[a.who].op == op)
  {
    if a.Enqueue? {
      SplitMembers(s.stream + [s.nextId], a.drop);
    }
  }

  lemma StepKeepsGone(s: System, a: Action, broken: set<OpId>, op: OpId)
    requires Enabled(s, a) && Accounts(s, broken)
    requires op < Step(s, a).nextId && op !in Step(s, a).stream && op !in Step(s, a).trimmed
    ensures WasStarted(Step(s, a).started, op)
  {
    StartedGrows(s, a, op);
    if op in s.stream || op >= s.nextId {
      StreamLosesOnlyStarted(s, a, op);
      assert PhaseFits(s, s.instances[a.who]);
    }
  }

  lemma StepKeepsPhases(s: System, a: Action, broken: set<OpId>, w: Instance)
    requires Enabled(s, a) && Accounts(s, broken) && w in Step(s, a).instances
    ensures PhaseFits(Step(s, a), Step(s, a).instances[w])
  {
    var p' := Step(s, a).instances[w];
    StreamOnlyGainsNew(s, a, 0);
    if Executing(p') {
      StartedGrows(s, a, p'.op);
    }
    if w in s.instances {
      assert PhaseFits(s, s.instances[w]);
    }
    if p'.HasRead? && a == Read(w) {
      assert s.stream != [] ==> s.stream[0] in s.stream;
    }
  }

  lemma StepKeepsAccounts(s: System, a: Action, broken: set<OpId>)
    requires Enabled(s, a) && Accounts(s, broken)
    ensures Accounts(Step(s, a), broken + BrokenOff(s, a))
  {
    var s', broken' := Step(s, a), broken + BrokenOff(s, a);
    StepKeepsStarted(s, a, broken);
    forall op | 0 <= op < s'.nextId && op !in s'.stream && op !in s'.trimmed
      ensures WasStarted(s'.started, op)
    {
      StepKeepsGone(s, a, broken, op);
    }
    forall op | op in broken'
      ensures WasStarted(s'.started, op)
    {
      StartedGrows(s, a, op);
      if op !in broken {
        assert PhaseFits(s, s.instances[a.who]);
      }
    }
    forall op | op in s'.stream
      ensures op < s'.nextId
    {
      StreamOnlyGainsNew(s, a, op);
    }
    forall w | w in s'.instances
      ensures PhaseFits(s', s'.instances[w])
    {
      StepKeepsPhases(s, a, broken, w);
    }
  }

  // ------------------------------------------------- exactly when it repeats

  /** The lock is granted for an operation that nobody executed: its entry is in the stream, and no
      execution of it is in progress or was broken off. */
  ghost predicate FreshGrant(s: System, op: OpId, broken: set<OpId>) {
    op in s.stream && op !in broken && !InProgress(s, op)
  }

  /** Granting the lock executes an operation again if and only if its entry has left the stream (the
      instance acts on a stale read), or an execution of it was broken off, or one is still in progress
      beyond its 60 seconds.  Only operations that the length limit dropped can be stale without having
      been executed. */
  lemma RepeatsExactlyWhenNotFresh(s: System, w: Instance, broken: set<OpId>)
    requires Grants(s, Acquire(w)) && Accounts(s, broken) && s.instances[w].op !in s.trimmed
    ensures WasStarted(s.started, s.instances[w].op) <==> !FreshGrant(s, s.instances[w].op, broken)
  {
    var op := s.instances[w].op;
    assert PhaseFits(s, s.instances[w]);
    if i :| 0 <= i < |s.started| && s.started[i].op == op {
      assert StartedFits(s, broken, s.started[i].op);
    }
    if v :| v in s.instances && Executing(s.instances[v]) && s.instances[v].op == op {
      assert PhaseFits(s, s.instances[v]);
    }
  }

  ghost predicate AllGrantsFresh(s: System, run: seq<Action>, broken: set<OpId>)
    requires Legal(s, run)
    decreases |run|
  {
    run == []
    || ((Grants(s, run[0]) ==> FreshGrant(s, s.instances[run[0].who].op, broken))
        && AllGrantsFresh(Step(s, run[0]), run[1..], broken + BrokenOff(s, run[0])))
  }

  lemma {:induction false} HistoryGrows(s: System, run: seq<Action>)
    requires Legal(s, run)
    ensures s.started <= Final(s, run).started && s.trimmed <= Final(s, run).trimmed
    decreases |run|
  {
    if run != [] {
      StartedGrows(s, run[0], 0);
      HistoryGrows(Step(s, run[0]), run[1..]);
    }
  }

  lemma GrantRepeatsOrNot(s: System, a: Action, broken: set<OpId>)
    requires Enabled(s, a) && Accounts(s, broken) && s.trimmed == {} && NoRepetition(s.started)
    ensures NoRepetition(Step(s, a).started)
            <==> (Grants(s, a) ==> FreshGrant(s, s.instances[a.who].op, broken))
  {
    if Grants(s, a) {
      var op, s' := s.instances[a.who].op, Step(s, a);
      RepeatsExactlyWhenNotFresh(s, a.who, broken);
      assert s'.started == s.started + [Execution(a.who, op)];
      if i :| 0 <= i < |s.started| && s.started[i].op == op {
        assert s'.started[i].op == s'.started[|s.started|].op;
      }
    } else {
      assert Step(s, a).started == s.started;
    }
  }

  lemma {:induction false} NoRepetitionExactlyFrom(s: System, run: seq<Action>, broken: set<OpId>)
    requires Legal(s, run) && Accounts(s, broken) && Final(s, run).trimmed == {} && NoRepetition(s.started)
    ensures NoRepetition(Final(s, run).started) <==> AllGrantsFresh(s, run, broken)
    decreases |run|
  {
    HistoryGrows(s, run);
    if run != [] {
      var a, s' := run[0], Step(s, run[0]);
      HistoryGrows(s', run[1..]);
      GrantRepeatsOrNot(s, a, broken);
      StepKeepsAccounts(s, a, broken);
      if NoRepetition(s'.started) {
        NoRepetitionExactlyFrom(s', run[1..], broken + BrokenOff(s, a));
      } else {
        PrefixRepeats(s'.started, Final(s, run).started);
      }
    }
  }

  lemma PrefixRepeats(prefix: seq<Execution>, started: seq<Execution>)
    requires prefix <= started && !NoRepetition(prefix)
    ensures !NoRepetition(started)
  {
    var i, j :| 0 <= i < j < |prefix| && prefix[i].op == prefix[j].op;
    assert started[i].op == started[j].op;
  }

  /** Over every run of any number of instances, with crashes, cancellations, failing commands and overdue
      holders, and the length limit dropping nothing: no operation is executed twice if and only if every
      granted lock was for an entry still in the stream, not in progress and never broken off. */
  lemma NoRepetitionExactlyWhenGrantsFresh(run: seq<Action>)
    requires Legal(INITIAL, run) && Final(INITIAL, run).trimmed == {}
    ensures NoRepetition(Final(INITIAL, run).started) <==> AllGrantsFresh(INITIAL, run, {})
  {
    NoRepetitionExactlyFrom(INITIAL, run, {});
  }

  /** The operations of which the run broke off an execution. */
  function AllBrokenOff(s: System, run: seq<Action>): set<OpId>
    requires Legal(s, run)
    decreases |run|
  {
    if run == [] then {} else BrokenOff(s, run[0]) + AllBrokenOff(Step(s, run[0]), run[1..])
  }

  lemma {:induction false} RunKeepsAccounts(s: System, run: seq<Action>, broken: set<OpId>)
    requires Legal(s, run) && Accounts(s, broken)
    ensures Accounts(Final(s, run), broken + AllBrokenOff(s, run))
    decreases |run|
  {
    if run == [] {
      assert broken + {} == broken;
    } else {
      var a := run[0];
      StepKeepsAccounts(s, a, broken);
      RunKeepsAccounts(Step(s, a), run[1..], broken + BrokenOff(s, a));
      assert broken + BrokenOff(s, a) + AllBrokenOff(Step(s, a), run[1..]) == broken + AllBrokenOff(s, run);
    }
  }

  /** In every reachable state, a granted lock repeats an operation that the length limit did not drop if and
      only if its entry has left the stream, an execution of it is in progress, or the run broke one off. */
  lemma GrantRepeatsExactly(run: seq<Action>, w: Instance)
    requires Legal(INITIAL, run) && Grants(Final(INITIAL, run), Acquire(w))
    requires Final(INITIAL, run).instances[w].op !in Final(INITIAL, run).trimmed
    ensures var s := Final(INITIAL, run);
            var op := s.instances[w].op;
            WasStarted(s.started, op)
            <==> op !in s.stream || InProgress(s, op) || op in AllBrokenOff(INITIAL, run)
  {
    RunKeepsAccounts(INITIAL, run, {});
    RepeatsExactlyWhenNotFresh(Final(INITIAL, run), w, {} + AllBrokenOff(INITIAL, run));
  }

  // --------------------------------------- timely holders, nobody interrupted

  predicate Uninterrupted(run: seq<Action>) {
    forall a :: a in run ==> !a.Crash? && !a.Cancel? && !a.Fault?
  }

  /** Every granted lock is for an entry that is still in the stream: no read is stale when it is used. */
  ghost predicate NoStaleGrant(s: System, run: seq<Action>)
    requires Legal(s, run)
    decreases |run|
  {
    run == []
    || ((Grants(s, run[0]) ==> s.instances[run[0].who].op in s.stream) && NoStaleGrant(Step(s, run[0]), run[1..]))
  }

  lemma {:induction false} FreshExactlyWhenNotStale(s: System, run: seq<Action>)
    requires Legal(s, run) && AlwaysTimely(s, run) && Uninterrupted(run) && HolderOwnsLock(s)
    ensures AllGrantsFresh(s, run, {}) <==> NoStaleGrant(s, run)
    decreases |run|
  {
    if run != [] {
      var a := run[0];
      assert a in run && BrokenOff(s, a) == {};
      assert {} + BrokenOff(s, a) == {};
      StepKeepsOwnership(s, a);
      FreshExactlyWhenNotStale(Step(s, a), run[1..]);
      if Grants(s, a) {
        assert !InProgress(s, s.instances[a.who].op) by {
          assert forall w :: w in s.instances ==> !Holding(s.instances[w]);
        }
      }
    }
  }

  /** While holders are timely and nobody is interrupted, stale reads are the only cause: no operation is
      executed twice if and only if no lock was granted for an entry that had left the stream. */
  lemma NoRepetitionExactlyWithoutStaleGrants(run: seq<Action>)
    requires Legal(INITIAL, run) && AlwaysTimely(INITIAL, run) && Uninterrupted(run)
    requires Final(INITIAL, run).trimmed == {}
    ensures NoRepetition(Final(INITIAL, run).started) <==> NoStaleGrant(INITIAL, run)
  {
    NoRepetitionExactlyWhenGrantsFresh(run);
    FreshExactlyWhenNotStale(INITIAL, run);
  }
}
