/** When the work queue loses an operation, over every interleaving of its instances with crashes,
    cancellations and commands that fail before or after taking effect. */
module QueueLoss {
  import opened BlockchainQueue

  /** The operation whose entry a command removes and then raises, after process_fn had returned. */
  function RemovedSilently(s: System, a: Action): set<OpId>
    requires Enabled(s, a)
  {
    if a.Fault? && a.applied && s.instances[a.who].Finished? then {s.instances[a.who].op} else {}
  }

  function SilentRemovals(s: System, run: seq<Action>): set<OpId>
    requires Legal(s, run)
    decreases |run|
  {
    if run == [] then {} else RemovedSilently(s, run[0]) + SilentRemovals(Step(s, run[0]), run[1..])
  }

  // ------------------------------------------------------------ what is kept

  /** Operations are accounted for unless their entry was removed silently; such an entry is gone. */
  ghost predicate Books(s: System, silent: set<OpId>) {
    && (forall op :: 0 <= op < s.nextId ==> Accounted(s, op) || op in silent)
    && (forall op :: op in silent ==> op !in s.stream && op < s.nextId)
    && (forall op :: op in s.stream ==> op < s.nextId)
    && (forall w :: w in s.instances ==> PhaseFits(s, s.instances[w]))
  }

  ghost predicate PhaseFits(s: System, p: Phase) {
    && (p.HasRead? || p.Working? || p.Finished? || p.Raised? ==> p.op < s.nextId)
    && (p.DeadLettered? ==> p.op in s.deadLetter || p.op in s.deadTrimmed)
  }

  lemma EnqueueKeepsAccounted(s: System, drop: nat, op: OpId)
    requires Enabled(s, Enqueue(drop)) && (Accounted(s, op) || op == s.nextId)
    ensures Accounted(Step(s, Enqueue(drop)), op)
  {
    SplitMembers(s.stream + [s.nextId], drop);
  }

  lemma AddDeadKeepsAccounted(s: System, p: OpId, drop: nat, op: OpId)
    requires drop <= |s.deadLetter| + 1 && (Accounted(s, op) || op == p)
    ensures Accounted(AddDeadLetter(s, p, drop), op)
    ensures op in s.deadLetter || op in s.deadTrimmed || op == p ==>
              op in AddDeadLetter(s, p, drop).deadLetter || op in AddDeadLetter(s, p, drop).deadTrimmed
  {
    SplitMembers(s.deadLetter + [p], drop);
  }

  lemma StepKeepsAccounted(s: System, a: Action, op: OpId)
    requires Enabled(s, a) && Accounted(s, op)
    requires forall w :: w in s.instances ==> PhaseFits(s, s.instances[w])
    ensures Accounted(Step(s, a), op) || op in RemovedSilently(s, a)
  {
    if a.Enqueue? {
      EnqueueKeepsAccounted(s, a.drop, op);
    } else if a.AddDead? {
      AddDeadKeepsAccounted(s, s.instances[a.who].op, a.drop, op);
    } else if a.Fault? && s.instances[a.who].Raised? {
      AddDeadKeepsAccounted(s, s.instances[a.who].op, 0, op);
    } else if a.Delete? || a.Fault? {
      assert PhaseFits(s, s.instances[a.who]);
    }
  }

  lemma StepKeepsPhases(s: System, a: Action, w: Instance)
    requires Enabled(s, a) && w in Step(s, a).instances
    requires forall v :: v in s.instances ==> PhaseFits(s, s.instances[v])
    requires forall op :: op in s.stream ==> op < s.nextId
    ensures PhaseFits(Step(s, a), Step(s, a).instances[w])
  {
    var p' := Step(s, a).instances[w];
    if w in s.instances {
      assert PhaseFits(s, s.instances[w]);
    }
    if p'.DeadLettered? && (a.AddDead? || (a.Fault? && s.instances[a.who].Raised?)) {
      AddDeadKeepsAccounted(s, s.instances[a.who].op, if a.AddDead? then a.drop else 0, p'.op);
    }
    if a == Read(w) && s.stream != [] {
      assert s.stream[0] in s.stream;
    }
  }

  lemma StepOnlyShrinksStream(s: System, a: Action, op: OpId)
    requires Enabled(s, a)
    ensures op in Step(s, a).stream ==> op in s.stream || (a.Enqueue? && op == s.nextId)
    ensures Step(s, a).nextId == if a.Enqueue? then s.nextId + 1 else s.nextId
    ensures op in RemovedSilently(s, a) ==> op !in Step(s, a).stream
  {
    if a.Enqueue? {
      SplitMembers(s.stream + [s.nextId], a.drop);
    }
  }

  lemma StepKeepsBooks(s: System, a: Action, silent: set<OpId>)
    requires Enabled(s, a) && Books(s, silent)
    ensures Books(Step(s, a), silent + RemovedSilently(s, a))
  {
    var s', silent' := Step(s, a), silent + RemovedSilently(s, a);
    forall op | 0 <= op < s'.nextId
      ensures Accounted(s', op) || op in silent'
    {
      StepOnlyShrinksStream(s, a, op);
      if op == s.nextId {
        EnqueueKeepsAccounted(s, a.drop, op);
      } else if op !in silent {
        StepKeepsAccounted(s, a, op);
      }
    }
    forall op: OpId
      ensures op in silent' ==> op !in s'.stream && op < s'.nextId
      ensures op in s'.stream ==> op < s'.nextId
    {
      StepOnlyShrinksStream(s, a, op);
      if op in RemovedSilently(s, a) {
        assert PhaseFits(s, s.instances[a.who]);
      }
    }
    forall w | w in s'.instances
      ensures PhaseFits(s', s'.instances[w])
    {
      StepKeepsPhases(s, a, w);
    }
  }

  lemma {:induction false} RunKeepsBooks(s: System, run: seq<Action>, silent: set<OpId>)
    requires Legal(s, run) && Books(s, silent)
    ensures Books(Final(s, run), silent + SilentRemovals(s, run))
    decreases |run|
  {
    if run == [] {
      assert silent + {} == silent;
    } else {
      var a := run[0];
      StepKeepsBooks(s, a, silent);
      RunKeepsBooks(Step(s, a), run[1..], silent + RemovedSilently(s, a));
      assert silent + RemovedSilently(s, a) + SilentRemovals(Step(s, a), run[1..]) == silent + SilentRemovals(s, run);
    }
  }

  // ------------------------------------------------------ exactly when it loses

  /** Neither waiting, nor done, nor dead-lettered. */
  predicate Missing(s: System, op: OpId) {
    op !in s.stream && op !in s.completed && op !in s.deadLetter
  }

  /** In every run below the length limits, with crashes, cancellations and commands that fail before or after
      taking effect: an operation is missing if and only if its entry was removed by a command that raised
      after a successful process_fn, and nobody completed or dead-lettered it. */
  lemma MissingExactlyWhenRemovedSilently(run: seq<Action>, op: OpId)
    requires Legal(INITIAL, run) && BelowTrim(INITIAL, run) && op < Final(INITIAL, run).nextId
    ensures var s := Final(INITIAL, run);
            Missing(s, op) <==> op in SilentRemovals(INITIAL, run) && op !in s.completed && op !in s.deadLetter
  {
    RunKeepsBooks(INITIAL, run, {});
    BelowTrimDropsNothing(INITIAL, run);
    assert {} + SilentRemovals(INITIAL, run) == SilentRemovals(INITIAL, run);
    assert Accounted(Final(INITIAL, run), op) || op in SilentRemovals(INITIAL, run);
  }

  /** In particular nothing is missing in runs without such a removal. */
  lemma NothingLost(run: seq<Action>, op: OpId)
    requires Legal(INITIAL, run) && BelowTrim(INITIAL, run) && SilentRemovals(INITIAL, run) == {}
    requires op < Final(INITIAL, run).nextId
    ensures !Missing(Final(INITIAL, run), op)
  {
    MissingExactlyWhenRemovedSilently(run, op);
  }

  // --------------------------------------------------------- lost for good

  /** An instance that can still complete or dead-letter the operation. */
  predicate CanStillAccount(p: Phase, op: OpId) {
    (p.HasRead? || p.Working? || p.Finished? || p.Raised?) && p.op == op
  }

  ghost predicate Hopeless(s: System, op: OpId) {
    && op < s.nextId && !Accounted(s, op)
    && (forall w :: w in s.instances ==> !CanStillAccount(s.instances[w], op))
    && (forall w :: w in s.instances ==> PhaseFits(s, s.instances[w]))
    && (forall x :: x in s.stream ==> x < s.nextId)
  }

  lemma StepKeepsHopeless(s: System, a: Action, op: OpId)
    requires Enabled(s, a) && Hopeless(s, op)
    ensures Hopeless(Step(s, a), op)
  {
    var s' := Step(s, a);
    HopelessStaysUnaccounted(s, a, op);
    forall w | w in s'.instances
      ensures !CanStillAccount(s'.instances[w], op) && PhaseFits(s', s'.instances[w])
    {
      StepKeepsPhases(s, a, w);
      if w in s.instances {
        assert !CanStillAccount(s.instances[w], op);
      }
      if a == Read(w) && s.stream != [] {
        assert s.stream[0] in s.stream;
      }
    }
    forall x | x in s'.stream
      ensures x < s'.nextId
    {
      StepOnlyShrinksStream(s, a, x);
    }
  }

  lemma HopelessStaysUnaccounted(s: System, a: Action, op: OpId)
    requires Enabled(s, a) && Hopeless(s, op)
    ensures !Accounted(Step(s, a), op) && op < Step(s, a).nextId
  {
    StepOnlyShrinksStream(s, a, op);
    if a.Enqueue? {
      SplitMembers(s.stream + [s.nextId], a.drop);
    } else if !a.Tick? && a.who in s.instances {
      var p := s.instances[a.who];
      assert !CanStillAccount(p, op) && PhaseFits(s, p);
      if p.Raised? {
        SplitMembers(s.deadLetter + [p.op], if a.AddDead? then a.drop else 0);
      }
    }
  }

  lemma {:induction false} HopelessForEver(s: System, run: seq<Action>, op: OpId)
    requires Legal(s, run) && Hopeless(s, op)
    ensures !Accounted(Final(s, run), op)
    decreases |run|
  {
    if run != [] {
      StepKeepsHopeless(s, run[0], op);
      HopelessForEver(Step(s, run[0]), run[1..], op);
    }
  }

  lemma First(s: System, a: Action, rest: seq<Action>) returns (run: seq<Action>)
    requires Enabled(s, a) && Legal(Step(s, a), rest)
    ensures Legal(s, run) && Final(s, run) == Final(Step(s, a), rest)
  {
    run := [a] + rest;
    assert run[1..] == rest;
  }

  /** An instance that holds the operation can go on to account for it. */
  lemma HolderAccounts(s: System, w: Instance, op: OpId) returns (run: seq<Action>)
    requires w in s.instances && CanStillAccount(s.instances[w], op)
    ensures Legal(s, run) && Accounted(Final(s, run), op)
    decreases if s.instances[w].HasRead? then 2 else if s.instances[w].Working? then 1 else 0
  {
    if s.instances[w].Raised? {
      AddDeadKeepsAccounted(s, op, 0, op);
      run := First(s, AddDead(w, 0), []);
    } else if s.instances[w].Finished? {
      run := First(s, Delete(w), []);
    } else if s.instances[w].Working? {
      run := HolderAccounts(Step(s, Return(w)), w, op);
      run := First(s, Return(w), run);
    } else {
      var wait := Tick(if Held(s) then s.lock.value.until - s.now else 0);
      var free := Step(s, wait);
      run := HolderAccounts(Step(free, Acquire(w)), w, op);
      run := First(free, Acquire(w), run);
      run := First(s, wait, run);
    }
  }

  ghost predicate NeverAccounted(s: System, op: OpId) {
    forall run | Legal(s, run) :: !Accounted(Final(s, run), op)
  }

  /** In every reachable state, an operation is unaccounted for in all continuations if and only if it is
      unaccounted for now and no instance has it in hand between reading it and dead-lettering it. */
  lemma LostForGoodExactly(past: seq<Action>, op: OpId)
    requires Legal(INITIAL, past) && op < Final(INITIAL, past).nextId
    ensures var s := Final(INITIAL, past);
            NeverAccounted(s, op)
            <==> !Accounted(s, op) && forall w :: w in s.instances ==> !CanStillAccount(s.instances[w], op)
  {
    var s := Final(INITIAL, past);
    RunKeepsBooks(INITIAL, past, {});
    if !Accounted(s, op) && forall w :: w in s.instances ==> !CanStillAccount(s.instances[w], op) {
      forall run | Legal(s, run)
        ensures !Accounted(Final(s, run), op)
      {
        HopelessForEver(s, run, op);
      }
    } else if Accounted(s, op) {
      var run: seq<Action> := [];
      assert Legal(s, run) && Final(s, run) == s;
    } else {
      var w :| w in s.instances && CanStillAccount(s.instances[w], op);
      var run := HolderAccounts(s, w, op);
    }
  }
}
