/** The circuit breaker.  No lock body suspends, so a call has two atomic parts: being admitted
    (or refused) and recording its outcome.  Any number of calls may be in flight between the two. */
module CircuitBreaker {
  datatype CircuitState = Closed | Open | HalfOpen

  /** Times in seconds; the constructor takes any integers. */
  datatype Config = Config(failureThreshold: int, recoveryTimeout: int, successThreshold: int)

  datatype Stats = Stats(
    totalCalls: nat,
    successfulCalls: nat,
    failedCalls: nat,
    consecutiveFailures: nat,
    stateChangedAt: int)

  datatype Breaker = Breaker(state: CircuitState, stats: Stats, halfOpenSuccesses: nat)

  function FreshStats(now: int): Stats {
    Stats(0, 0, 0, 0, now)
  }

  // ------------------------------------------------ what each part of a call does

  function TransitionTo(b: Breaker, target: CircuitState, now: int): Breaker {
    Breaker(
      target,
      b.stats.(stateChangedAt := now,
               consecutiveFailures := if target == Closed then 0 else b.stats.consecutiveFailures),
      if target == Open then b.halfOpenSuccesses else 0)
  }

  predicate Refuses(b: Breaker, config: Config, now: int) {
    b.state == Open && now - b.stats.stateChangedAt < config.recoveryTimeout
  }

  /** An admission; it is the first test request when the recovery timeout is over. */
  function Admit(b: Breaker, now: int): Breaker {
    var b' := if b.state == Open then TransitionTo(b, HalfOpen, now) else b;
    b'.(stats := b'.stats.(totalCalls := b'.stats.totalCalls + 1))
  }

  function RecordSuccess(b: Breaker, config: Config, now: int): Breaker {
    var counted := b.(stats := b.stats.(successfulCalls := b.stats.successfulCalls + 1, consecutiveFailures := 0));
    if b.state != HalfOpen then counted
    else
      var tested := counted.(halfOpenSuccesses := b.halfOpenSuccesses + 1);
      if tested.halfOpenSuccesses >= config.successThreshold then TransitionTo(tested, Closed, now) else tested
  }

  function RecordFailure(b: Breaker, config: Config, now: int): Breaker {
    var run := b.stats.consecutiveFailures + 1;
    var counted := b.(stats := b.stats.(failedCalls := b.stats.failedCalls + 1, consecutiveFailures := run));
    if b.state == HalfOpen || (b.state == Closed && run >= config.failureThreshold)
    then TransitionTo(counted, Open, now)
    else counted
  }

  // ------------------------------------------------------------ the class

  class CircuitBreaker {
    const config: Config
    var state: CircuitState
    var stats: Stats
    var halfOpenSuccesses: nat

    constructor (config: Config, now: int)
      ensures this.config == config && View() == Breaker(Closed, FreshStats(now), 0)
    {
      this.config := config;
      state, stats, halfOpenSuccesses := Closed, FreshStats(now), 0;
    }

    ghost function View(): Breaker
      reads this
    {
      Breaker(state, stats, halfOpenSuccesses)
    }

    method Transition(target: CircuitState, now: int)
      modifies this
      ensures View() == TransitionTo(old(View()), target, now)
    {
      state := target;
      stats := stats.(stateChangedAt := now);
      if target == Closed {
        halfOpenSuccesses := 0;
        stats := stats.(consecutiveFailures := 0);
      } else if target == HalfOpen {
        halfOpenSuccesses := 0;
      }
    }

    method CheckStateTransition(now: int)
      modifies this
      ensures View() == if old(state) == Open && now >= old(stats).stateChangedAt + config.recoveryTimeout
                        then TransitionTo(old(View()), HalfOpen, now) else old(View())
    {
      if state == Open {
        var timeSinceOpen := now - stats.stateChangedAt;
        if timeSinceOpen >= config.recoveryTimeout {
          Transition(HalfOpen, now);
        }
      }
    }

    /** The part of a call before the wrapped function runs. */
    method Begin(now: int) returns (admitted: bool)
      modifies this
      ensures admitted <==> old(state) != Open || now >= old(stats).stateChangedAt + config.recoveryTimeout
      ensures admitted <==> !Refuses(old(View()), config, now)
      ensures View() == if admitted then Admit(old(View()), now) else old(View())
    {
      CheckStateTransition(now);
      if state == Open {
        return false;
      }
      stats := stats.(totalCalls := stats.totalCalls + 1);
      admitted := true;
    }

    method Succeed(now: int)
      modifies this
      ensures View() == RecordSuccess(old(View()), config, now)
    {
      stats := stats.(successfulCalls := stats.successfulCalls + 1);
      stats := stats.(consecutiveFailures := 0);
      if state == HalfOpen {
        halfOpenSuccesses := halfOpenSuccesses + 1;
        if halfOpenSuccesses >= config.successThreshold {
          Transition(Closed, now);
        }
      }
    }

    method Fail(now: int)
      modifies this
      ensures View() == RecordFailure(old(View()), config, now)
    {
      stats := stats.(failedCalls := stats.failedCalls + 1);
      stats := stats.(consecutiveFailures := stats.consecutiveFailures + 1);
      if state == HalfOpen {
        Transition(Open, now);
      } else if state == Closed {
        if stats.consecutiveFailures >= config.failureThreshold {
          Transition(Open, now);
        }
      }
    }

    method Reset(now: int)
      modifies this
      ensures View() == Breaker(Closed, FreshStats(now), 0)
    {
      Transition(Closed, now);
      stats := FreshStats(now);
    }
  }

  // ------------------------------------------------------------------ runs

  /** A cancelled call records nothing. */
  datatype Event =
    | Begin(now: int)
    | Succeed(now: int)
    | Fail(now: int)
    | Cancel(now: int)
    | Reset(now: int)

  /** The breaker with the calls in flight, and what happened since the last reset: how many calls were
      in flight at it and how many were cancelled. */
  datatype System = System(breaker: Breaker, inFlight: nat, carried: nat, cancelled: nat)

  function Start(now: int): System {
    System(Breaker(Closed, FreshStats(now), 0), 0, 0, 0)
  }

  predicate Enabled(s: System, e: Event) {
    e.Begin? || e.Reset? || s.inFlight > 0
  }

  predicate Admitted(s: System, e: Event, config: Config) {
    e.Begin? && !Refuses(s.breaker, config, e.now)
  }

  function Step(s: System, e: Event, config: Config): System
    requires Enabled(s, e)
  {
    match e
    case Begin(now) =>
      if Refuses(s.breaker, config, now) then s
      else s.(breaker := Admit(s.breaker, now), inFlight := s.inFlight + 1)
    case Succeed(now) => s.(breaker := RecordSuccess(s.breaker, config, now), inFlight := s.inFlight - 1)
    case Fail(now) => s.(breaker := RecordFailure(s.breaker, config, now), inFlight := s.inFlight - 1)
    case Cancel(_) => s.(inFlight := s.inFlight - 1, cancelled := s.cancelled + 1)
    case Reset(now) => System(Breaker(Closed, FreshStats(now), 0), s.inFlight, s.inFlight, 0)
  }

  /** Runs are extended at the end: a breaker made at `start` can go through `run`. */
  predicate Legal(start: int, run: seq<Event>, config: Config)
    decreases |run|, 0
  {
    run == [] ||
    var before := run[..|run| - 1];
    Legal(start, before, config) && Enabled(Final(start, before, config), run[|run| - 1])
  }

  function Final(start: int, run: seq<Event>, config: Config): System
    requires Legal(start, run, config)
    decreases |run|, 1
  {
    if run == [] then Start(start)
    else Step(Final(start, run[..|run| - 1], config), run[|run| - 1], config)
  }

  predicate Monotone(start: int, run: seq<Event>) {
    && (forall i :: 0 <= i < |run| ==> start <= run[i].now)
    && (forall i, j :: 0 <= i < j < |run| ==> run[i].now <= run[j].now)
  }

  // ------------------------------------------ counters as folds of the history

  /** The failures recorded since the last success or reset. */
  function TrailingFailures(run: seq<Event>): nat
    decreases |run|
  {
    if run == [] then 0
    else
      var e, before := run[|run| - 1], TrailingFailures(run[..|run| - 1]);
      match e
      case Fail(_) => before + 1
      case Succeed(_) => 0
      case Reset(_) => 0
      case _ => before
  }

  /** The successes and the failures recorded since the last reset. */
  function SuccessesSinceReset(run: seq<Event>): nat
    decreases |run|
  {
    if run == [] || run[|run| - 1].Reset? then 0
    else SuccessesSinceReset(run[..|run| - 1]) + (if run[|run| - 1].Succeed? then 1 else 0)
  }

  function FailuresSinceReset(run: seq<Event>): nat
    decreases |run|
  {
    if run == [] || run[|run| - 1].Reset? then 0
    else FailuresSinceReset(run[..|run| - 1]) + (if run[|run| - 1].Fail? then 1 else 0)
  }

  /** The calls admitted since the last reset. */
  function AdmissionsSinceReset(start: int, run: seq<Event>, config: Config): nat
    requires Legal(start, run, config)
    decreases |run|
  {
    if run == [] || run[|run| - 1].Reset? then 0
    else
      var before := run[..|run| - 1];
      AdmissionsSinceReset(start, before, config)
      + (if Admitted(Final(start, before, config), run[|run| - 1], config) then 1 else 0)
  }

  /** The successes since the circuit last became half-open. */
  function TestSuccesses(start: int, run: seq<Event>, config: Config): nat
    requires Legal(start, run, config)
    decreases |run|
  {
    if run == [] then 0
    else
      var before := run[..|run| - 1];
      if Final(start, before, config).breaker.state != HalfOpen && Final(start, run, config).breaker.state == HalfOpen
      then 0
      else TestSuccesses(start, before, config) + (if run[|run| - 1].Succeed? then 1 else 0)
  }

  lemma {:induction false} FailureRunIsFold(start: int, run: seq<Event>, config: Config)
    requires Legal(start, run, config)
    ensures Final(start, run, config).breaker.stats.consecutiveFailures == TrailingFailures(run)
    decreases |run|
  {
    if run != [] {
      FailureRunIsFold(start, run[..|run| - 1], config);
    }
  }

  lemma {:induction false} OutcomesAreFolds(start: int, run: seq<Event>, config: Config)
    requires Legal(start, run, config)
    ensures var stats := Final(start, run, config).breaker.stats;
            stats.successfulCalls == SuccessesSinceReset(run) && stats.failedCalls == FailuresSinceReset(run)
    decreases |run|
  {
    if run != [] {
      OutcomesAreFolds(start, run[..|run| - 1], config);
    }
  }

  lemma {:induction false} AdmissionsAreFold(start: int, run: seq<Event>, config: Config)
    requires Legal(start, run, config)
    ensures Final(start, run, config).breaker.stats.totalCalls == AdmissionsSinceReset(start, run, config)
    decreases |run|
  {
    if run != [] {
      AdmissionsAreFold(start, run[..|run| - 1], config);
    }
  }

  lemma {:induction false} TestSuccessesAreFold(start: int, run: seq<Event>, config: Config)
    requires Legal(start, run, config)
    ensures var b := Final(start, run, config).breaker;
            b.state == HalfOpen ==> b.halfOpenSuccesses == TestSuccesses(start, run, config)
    decreases |run|
  {
    if run != [] {
      TestSuccessesAreFold(start, run[..|run| - 1], config);
    }
  }

  /** In every reachable state, with any number of calls in flight, the counters are folds of the history. */
  lemma {:induction false} CountersAreFolds(start: int, run: seq<Event>, config: Config)
    requires Legal(start, run, config)
    ensures var b := Final(start, run, config).breaker;
            && b.stats.consecutiveFailures == TrailingFailures(run)
            && b.stats.successfulCalls == SuccessesSinceReset(run)
            && b.stats.failedCalls == FailuresSinceReset(run)
            && b.stats.totalCalls == AdmissionsSinceReset(start, run, config)
            && (b.state == HalfOpen ==> b.halfOpenSuccesses == TestSuccesses(start, run, config))
  {
    FailureRunIsFold(start, run, config);
    OutcomesAreFolds(start, run, config);
    AdmissionsAreFold(start, run, config);
    TestSuccessesAreFold(start, run, config);
  }

  /** A threshold below one acts as one: the first failure or test success reaches it. */
  function Effective(threshold: int): int {
    if threshold < 1 then 1 else threshold
  }

  lemma {:induction false} HalfOpenBelowEffective(start: int, run: seq<Event>, config: Config)
    requires Legal(start, run, config)
    ensures Final(start, run, config).breaker.state == HalfOpen ==>
              TestSuccesses(start, run, config) < Effective(config.successThreshold)
    decreases |run|
  {
    if run != [] {
      HalfOpenBelowEffective(start, run[..|run| - 1], config);
      TestSuccessesAreFold(start, run[..|run| - 1], config);
      TestSuccessesAreFold(start, run, config);
    }
  }

  /** A closed circuit has fewer trailing failures than the failure threshold in every reachable state
      if and only if that threshold is at least one: a threshold of zero is already violated at the start. */
  lemma ClosedBelowThresholdExactlyWhenPositive(config: Config, start: int)
    ensures (forall run | Legal(start, run, config) :: Final(start, run, config).breaker.state == Closed ==>
               TrailingFailures(run) < config.failureThreshold)
            <==> config.failureThreshold >= 1
  {
    if config.failureThreshold >= 1 {
      forall run | Legal(start, run, config)
        ensures Final(start, run, config).breaker.state == Closed ==> TrailingFailures(run) < config.failureThreshold
      {
        ClosedBelowThreshold(start, run, config);
        FailureRunIsFold(start, run, config);
      }
    } else {
      assert Legal(start, [], config) && TrailingFailures([]) == 0;
    }
  }

  lemma {:induction false} ClosedBelowThreshold(start: int, run: seq<Event>, config: Config)
    requires Legal(start, run, config)
    ensures var b := Final(start, run, config).breaker;
            b.state == Closed ==> b.stats.consecutiveFailures < Effective(config.failureThreshold)
    decreases |run|
  {
    if run != [] {
      ClosedBelowThreshold(start, run[..|run| - 1], config);
    }
  }

  lemma Extend(start: int, run: seq<Event>, e: Event, config: Config)
    requires Legal(start, run, config) && Enabled(Final(start, run, config), e)
    ensures Legal(start, run + [e], config)
    ensures Final(start, run + [e], config) == Step(Final(start, run, config), e, config)
  {
    assert (run + [e])[..|run|] == run;
  }

  /** Calls failing one after the other keep the circuit closed below the threshold. */
  lemma {:induction false} FailuresInARow(start: int, config: Config, n: nat) returns (run: seq<Event>)
    requires n < Effective(config.failureThreshold)
    ensures Legal(start, run, config)
    ensures var s := Final(start, run, config);
            && s.breaker.state == Closed && s.inFlight == 0
            && s.breaker.stats.consecutiveFailures == n
    decreases n
  {
    if n == 0 {
      run := [];
    } else {
      run := FailuresInARow(start, config, n - 1);
      run := FailOnce(start, run, config);
    }
  }

  lemma FailOnce(start: int, run: seq<Event>, config: Config) returns (longer: seq<Event>)
    requires Legal(start, run, config) && Final(start, run, config).breaker.state == Closed
    ensures Legal(start, longer, config)
    ensures var s, s' := Final(start, run, config), Final(start, longer, config);
            && s'.inFlight == s.inFlight
            && (s'.breaker.state == Closed <==> s.breaker.stats.consecutiveFailures + 1 < config.failureThreshold)
            && (s'.breaker.state == Closed || (s'.breaker.state == Open && s'.breaker.stats.stateChangedAt == start))
            && s'.breaker.stats.consecutiveFailures == s.breaker.stats.consecutiveFailures + 1
  {
    Extend(start, run, Begin(start), config);
    longer := run + [Begin(start)];
    Extend(start, longer, Fail(start), config);
    longer := longer + [Fail(start)];
  }

  /** Every breaker can get half-open: enough failures, then a call after the recovery timeout. */
  lemma SomeRunGetsHalfOpen(start: int, config: Config) returns (run: seq<Event>)
    ensures Legal(start, run, config)
    ensures Final(start, run, config).breaker.state == HalfOpen && TestSuccesses(start, run, config) == 0
  {
    run := FailuresInARow(start, config, Effective(config.failureThreshold) - 1);
    run := FailOnce(start, run, config);
    var test := Begin(start + config.recoveryTimeout);
    Extend(start, run, test, config);
    assert (run + [test])[..|run|] == run;
    run := run + [test];
  }

  /** A half-open circuit has fewer test successes than the success threshold in every reachable state if and
      only if that threshold is at least one. */
  lemma HalfOpenBelowThresholdExactlyWhenPositive(config: Config, start: int)
    ensures (forall run | Legal(start, run, config) :: Final(start, run, config).breaker.state == HalfOpen ==>
               TestSuccesses(start, run, config) < config.successThreshold)
            <==> config.successThreshold >= 1
  {
    if config.successThreshold >= 1 {
      forall run | Legal(start, run, config)
        ensures Final(start, run, config).breaker.state == HalfOpen ==>
                  TestSuccesses(start, run, config) < config.successThreshold
      {
        HalfOpenBelowEffective(start, run, config);
      }
    } else {
      var run := SomeRunGetsHalfOpen(start, config);
    }
  }

  /** Which event changes the circuit's state, in terms of the history alone. */
  lemma TransitionsExactly(start: int, run: seq<Event>, e: Event, config: Config)
    requires Legal(start, run, config) && Enabled(Final(start, run, config), e)
    ensures Legal(start, run + [e], config)
    ensures var before, after := Final(start, run, config).breaker.state, Final(start, run + [e], config).breaker.state;
            && (before == Closed ==>
                  && after != HalfOpen
                  && (after == Open <==>
                        e.Fail? && TrailingFailures(run + [e]) == Effective(config.failureThreshold)))
            && (before == HalfOpen ==>
                  && (after == Open <==> e.Fail?)
                  && (after == Closed <==>
                        (e.Reset? || (e.Succeed? && TestSuccesses(start, run, config) + 1
                                                    == Effective(config.successThreshold)))))
            && (before == Open ==>
                  && (after == HalfOpen <==> Admitted(Final(start, run, config), e, config))
                  && (after == Closed <==> e.Reset?))
  {
    assert (run + [e])[..|run|] == run;
    CountersAreFolds(start, run, config);
    CountersAreFolds(start, run + [e], config);
    ClosedBelowThreshold(start, run, config);
    HalfOpenBelowEffective(start, run, config);
  }

  // ---------------------------------------------------------- conservation

  /** Every admitted call is accounted for; the calls a reset found in flight finish on the new books. */
  lemma {:induction false} CallsBalance(start: int, run: seq<Event>, config: Config)
    requires Legal(start, run, config)
    ensures var s := Final(start, run, config);
            s.breaker.stats.totalCalls + s.carried ==
            s.breaker.stats.successfulCalls + s.breaker.stats.failedCalls + s.inFlight + s.cancelled
    decreases |run|
  {
    if run != [] {
      CallsBalance(start, run[..|run| - 1], config);
    }
  }

  /** So total equals successes plus failures plus in-flight plus cancelled if and only if the last reset
      found no call in flight, in particular before any reset. */
  lemma {:induction false} TotalsAgreeExactlyWithoutCarriedCalls(start: int, run: seq<Event>, config: Config)
    requires Legal(start, run, config)
    ensures var s := Final(start, run, config);
            s.breaker.stats.totalCalls ==
              s.breaker.stats.successfulCalls + s.breaker.stats.failedCalls + s.inFlight + s.cancelled
            <==> s.carried == 0
    ensures (forall e :: e in run ==> !e.Reset?) ==> Final(start, run, config).carried == 0
  {
    CallsBalance(start, run, config);
    NoResetNothingCarried(start, run, config);
  }

  lemma {:induction false} NoResetNothingCarried(start: int, run: seq<Event>, config: Config)
    requires Legal(start, run, config)
    ensures (forall e :: e in run ==> !e.Reset?) ==> Final(start, run, config).carried == 0
    decreases |run|
  {
    if run != [] && forall e :: e in run ==> !e.Reset? {
      assert run[|run| - 1] in run;
      NoResetNothingCarried(start, run[..|run| - 1], config);
    }
  }

  // ------------------------------------------------------ no early admission

  lemma {:induction false} PrefixLegal(start: int, run: seq<Event>, config: Config, k: nat)
    requires Legal(start, run, config) && k <= |run|
    ensures Legal(start, run[..k], config)
    ensures k < |run| ==>
              && Enabled(Final(start, run[..k], config), run[k])
              && Legal(start, run[..k + 1], config)
              && Final(start, run[..k + 1], config) == Step(Final(start, run[..k], config), run[k], config)
    decreases |run| - k
  {
    if k == |run| {
      assert run[..k] == run;
    } else {
      PrefixLegal(start, run, config, k + 1);
      assert run[..k + 1][..k] == run[..k];
    }
  }

  /** Event number k opens the circuit. */
  ghost predicate OpensAt(start: int, run: seq<Event>, config: Config, k: nat)
    requires Legal(start, run, config) && k < |run|
  {
    PrefixLegal(start, run, config, k);
    && Final(start, run[..k], config).breaker.state != Open
    && Final(start, run[..k + 1], config).breaker.state == Open
  }

  lemma OpeningStampsTime(start: int, run: seq<Event>, config: Config, i: nat)
    requires Legal(start, run, config) && i < |run| && OpensAt(start, run, config, i)
    ensures Legal(start, run[..i + 1], config)
    ensures var b := Final(start, run[..i + 1], config).breaker;
            b.state == Open && b.stats.stateChangedAt == run[i].now
  {
    PrefixLegal(start, run, config, i);
  }

  /** The circuit is open since `openedAt` or later. */
  predicate OpenSince(s: System, openedAt: int) {
    s.breaker.state == Open && s.breaker.stats.stateChangedAt >= openedAt
  }

  lemma OpenUntilTimeout(s: System, e: Event, config: Config, openedAt: int)
    requires Enabled(s, e) && !e.Reset? && OpenSince(s, openedAt)
    ensures OpenSince(Step(s, e, config), openedAt) || e.now >= openedAt + config.recoveryTimeout
  {
  }

  /** A circuit that is open before event i stays so until a reset, or the recovery timeout passes. */
  lemma {:induction false} StaysOpenThroughTimeout(start: int, run: seq<Event>, config: Config,
                                                   openedAt: int, i: nat, k: nat)
    requires Legal(start, run, config) && Monotone(start, run) && i <= k <= |run|
    requires Legal(start, run[..i], config) && OpenSince(Final(start, run[..i], config), openedAt)
    requires forall m :: i <= m < k ==> !run[m].Reset?
    ensures Legal(start, run[..k], config)
    ensures OpenSince(Final(start, run[..k], config), openedAt)
            || (k > 0 && run[k - 1].now >= openedAt + config.recoveryTimeout)
    decreases k
  {
    if i < k {
      StaysOpenThroughTimeout(start, run, config, openedAt, i, k - 1);
      PrefixLegal(start, run, config, k - 1);
      var s := Final(start, run[..k - 1], config);
      if OpenSince(s, openedAt) {
        OpenUntilTimeout(s, run[k - 1], config, openedAt);
      } else {
        assert run[k - 2].now <= run[k - 1].now;
      }
    }
  }

  /** With a clock that does not go back, no call is admitted within the recovery timeout after any opening,
      unless the breaker was reset in between. */
  lemma NoEarlyAdmission(start: int, run: seq<Event>, config: Config, i: nat, j: nat)
    requires Legal(start, run, config) && Monotone(start, run)
    requires i < j < |run| && OpensAt(start, run, config, i)
    requires forall m :: i < m < j ==> !run[m].Reset?
    ensures Legal(start, run[..j], config)
    ensures Admitted(Final(start, run[..j], config), run[j], config) ==>
              run[j].now >= run[i].now + config.recoveryTimeout
  {
    OpeningStampsTime(start, run, config, i);
    StaysOpenThroughTimeout(start, run, config, run[i].now, i + 1, j);
  }

  // ------------------------------------------------- exactly when it admits

  function At(start: int, run: seq<Event>, config: Config, k: nat): System
    requires Legal(start, run, config) && k <= |run|
  {
    PrefixLegal(start, run, config, k);
    Final(start, run[..k], config)
  }

  /** A circuit that is open was opened by some event; there is a latest one. */
  lemma {:induction false} LatestOpening(start: int, run: seq<Event>, config: Config, k: nat) returns (i: nat)
    requires Legal(start, run, config) && k <= |run| && At(start, run, config, k).breaker.state == Open
    ensures i < k && OpensAt(start, run, config, i)
    ensures forall m: nat :: i < m < k ==> !OpensAt(start, run, config, m)
    decreases k
  {
    if OpensAt(start, run, config, k - 1) {
      i := k - 1;
    } else {
      PrefixLegal(start, run, config, k - 1);
      i := LatestOpening(start, run, config, k - 1);
    }
  }

  /** Since then the circuit has been open and kept the time stamp. */
  lemma {:induction false} OpenSinceLatestOpening(start: int, run: seq<Event>, config: Config, i: nat, k: nat)
    requires Legal(start, run, config) && i < k <= |run| && OpensAt(start, run, config, i)
    requires forall m: nat :: i < m < k ==> !OpensAt(start, run, config, m)
    requires At(start, run, config, k).breaker.state == Open
    ensures At(start, run, config, k).breaker.stats.stateChangedAt == run[i].now
    decreases k
  {
    if k == i + 1 {
      OpeningStampsTime(start, run, config, i);
    } else {
      PrefixLegal(start, run, config, k - 1);
      assert !OpensAt(start, run, config, k - 1);
      OpenSinceLatestOpening(start, run, config, i, k - 1);
    }
  }

  /** A call that finds the circuit open is admitted, as a test request of a half-open circuit, if and only if
      the recovery timeout has passed since the latest event that opened it; otherwise it changes nothing. */
  lemma OpenAdmitsExactlyAfterTimeout(start: int, run: seq<Event>, config: Config, i: nat, j: nat)
    requires Legal(start, run, config) && i < j < |run| && run[j].Begin?
    requires At(start, run, config, j).breaker.state == Open && OpensAt(start, run, config, i)
    requires forall m: nat :: i < m < j ==> !OpensAt(start, run, config, m)
    ensures var s, s' := At(start, run, config, j), At(start, run, config, j + 1);
            if run[j].now - run[i].now >= config.recoveryTimeout then
              && s'.breaker.state == HalfOpen && s'.breaker.halfOpenSuccesses == 0
              && s'.breaker.stats.stateChangedAt == run[j].now
              && s'.breaker.stats.totalCalls == s.breaker.stats.totalCalls + 1
              && s'.inFlight == s.inFlight + 1
            else s' == s
  {
    PrefixLegal(start, run, config, j);
    OpenSinceLatestOpening(start, run, config, i, j);
  }

  /** A call that finds the circuit closed or half-open is always admitted. */
  lemma OthersAlwaysAdmit(start: int, run: seq<Event>, config: Config, j: nat)
    requires Legal(start, run, config) && j < |run| && run[j].Begin?
    requires At(start, run, config, j).breaker.state != Open
    ensures var s, s' := At(start, run, config, j), At(start, run, config, j + 1);
            && s'.breaker == s.breaker.(stats := s.breaker.stats.(totalCalls := s.breaker.stats.totalCalls + 1))
            && s'.inFlight == s.inFlight + 1
  {
    PrefixLegal(start, run, config, j);
  }
}
