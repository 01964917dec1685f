/** Graceful shutdown: draining the active requests, then running the cleanup handlers.

    No lock body suspends, so entering and leaving a request context are atomic, and the shutdown
    coroutine moves from one suspension point to the next in one step.  Everything else may
    happen between two steps. */
module GracefulShutdown {

  type RequestId = nat

  datatype Phase = Running | Draining | Cleanup | Complete

  /** Where the shutdown coroutine is suspended.  The phase SHUTDOWN_REQUESTED is left before the first
      suspension point, so nobody sees it. */
  datatype Suspension = NotStarted | AtDrain | InHandler(index: nat) | Ended

  /** `errors` holds the names of the handlers that raised or timed out; `called` only records the
      handlers started, in order. */
  datatype System = System(
    phase: Phase,
    at: Suspension,
    active: set<RequestId>,
    requestCounter: nat,
    completedRequests: nat,
    drainComplete: bool,
    handlers: seq<string>,
    handlersRun: nat,
    errors: seq<string>,
    called: seq<string>)

  const INITIAL := System(Running, NotStarted, {}, 0, 0, false, [], 0, [], [])

  datatype Event =
    | Enter
    | Exit(id: RequestId)
    | Register(name: string)
    | Initiate
    | DrainDone
    | DrainTimeout
    | HandlerEnds(ok: bool)

  // ----------------------------------------------------- what each step does

  predicate Enabled(s: System, e: Event) {
    match e
    case Exit(id) => id in s.active
    case DrainDone => s.at.AtDrain? && s.drainComplete
    case DrainTimeout => s.at.AtDrain?
    case HandlerEnds(_) => s.at.InHandler? && s.at.index < |s.handlers|
    case _ => true
  }

  function CallHandler(s: System, k: nat): System {
    if k < |s.handlers|
    then s.(phase := Cleanup, at := InHandler(k), called := s.called + [s.handlers[k]])
    else s.(phase := Complete, at := Ended)
  }

  function Leave(s: System, id: RequestId): System {
    var active := s.active - {id};
    s.(active := active, completedRequests := s.completedRequests + 1,
       drainComplete := s.drainComplete || (s.phase != Running && active == {}))
  }

  function Step(s: System, e: Event): System
    requires Enabled(s, e)
  {
    match e
    case Enter =>
      if s.phase != Running then s
      else s.(requestCounter := s.requestCounter + 1, active := s.active + {s.requestCounter + 1})
    case Exit(id) => Leave(s, id)
    case Register(name) => s.(handlers := s.handlers + [name])
    case Initiate =>
      if s.phase != Running then s
      else if s.active == {} then CallHandler(s, 0)
      else s.(phase := Draining, at := AtDrain)
    case DrainDone => CallHandler(s, 0)
    case DrainTimeout => CallHandler(s, 0)
    case HandlerEnds(ok) =>
      var k := s.at.index;
      var s' := if ok then s.(handlersRun := s.handlersRun + 1) else s.(errors := s.errors + [s.handlers[k]]);
      CallHandler(s', k + 1)
  }

  // ------------------------------------------------------------ the class

  class GracefulShutdown {
    var phase: Phase
    var at: Suspension
    var active: set<RequestId>
    var requestCounter: nat
    var completedRequests: nat
    var drainComplete: bool
    var handlers: seq<string>
    var handlersRun: nat
    var errors: seq<string>
    ghost var called: seq<string>

    constructor ()
      ensures View() == INITIAL
    {
      phase, at, active, requestCounter, completedRequests := Running, NotStarted, {}, 0, 0;
      drainComplete, handlers, handlersRun, errors, called := false, [], 0, [], [];
    }

    ghost function View(): System
      reads this
    {
      System(phase, at, active, requestCounter, completedRequests, drainComplete,
             handlers, handlersRun, errors, called)
    }

    method RegisterHandler(name: string)
      modifies this
      ensures View() == Step(old(View()), Register(name))
    {
      handlers := handlers + [name];
    }

    /** Entering a request context; refused by an exception once shutdown has begun. */
    method EnterRequest() returns (admitted: bool, id: RequestId)
      modifies this
      ensures View() == Step(old(View()), Enter)
      ensures admitted <==> old(phase) == Running
      ensures admitted ==> id == requestCounter && active == old(active) + {id}
    {
      if phase != Running {
        return false, 0;
      }
      requestCounter := requestCounter + 1;
      id := requestCounter;
      active := active + {id};
      admitted := true;
    }

    method ExitRequest(id: RequestId)
      requires id in active
      modifies this
      ensures View() == Step(old(View()), Exit(id))
    {
      active := active - {id};
      completedRequests := completedRequests + 1;
      if phase != Running && active == {} {
        drainComplete := true;
      }
    }

    /** Up to the first suspension point. */
    method InitiateShutdown()
      modifies this
      ensures View() == Step(old(View()), Initiate)
    {
      if phase != Running {
        return;
      }
      phase := Draining;
      if active == {} {
        RunHandlersFrom(0);
        return;
      }
      at := AtDrain;
    }

    /** The wait for the drain ends, by the event or by the timeout. */
    method ResumeDrain(timedOut: bool)
      requires at == AtDrain && (!timedOut ==> drainComplete)
      modifies this
      ensures View() == Step(old(View()), if timedOut then DrainTimeout else DrainDone)
    {
      RunHandlersFrom(0);
    }

    /** The handler being waited for returns, or it raises or times out. */
    method HandlerEnded(ok: bool)
      requires at.InHandler? && at.index < |handlers|
      modifies this
      ensures View() == Step(old(View()), HandlerEnds(ok))
    {
      if ok {
        handlersRun := handlersRun + 1;
      } else {
        errors := errors + [handlers[at.index]];
      }
      RunHandlersFrom(at.index + 1);
    }

    /** The cleanup loop up to its next suspension point. */
    method RunHandlersFrom(k: nat)
      modifies this
      ensures View() == CallHandler(old(View()), k)
    {
      phase := Cleanup;
      if k < |handlers| {
        called := called + [handlers[k]];
        at := InHandler(k);
      } else {
        phase := Complete;
        at := Ended;
      }
    }
  }

  // ------------------------------------------------------------------ runs

  predicate Legal(s: System, run: seq<Event>)
    decreases |run|
  {
    run == [] || (Enabled(s, run[0]) && Legal(Step(s, run[0]), run[1..]))
  }

  function Final(s: System, run: seq<Event>): System
    requires Legal(s, run)
    decreases |run|
  {
    if run == [] then s else Final(Step(s, run[0]), run[1..])
  }

  // ------------------------------------------------------------- invariant

  ghost predicate PhaseFits(s: System) {
    match s.at
    case NotStarted =>
      s.phase == Running && !s.drainComplete && s.called == [] && s.handlersRun == 0 && s.errors == []
    case AtDrain =>
      s.phase == Draining && s.called == [] && s.handlersRun == 0 && s.errors == []
    case InHandler(k) =>
      s.phase == Cleanup && k < |s.handlers| && s.handlersRun + |s.errors| == k && s.called == s.handlers[..k + 1]
    case Ended =>
      s.phase == Complete && |s.called| <= |s.handlers|
      && s.handlersRun + |s.errors| == |s.called| && s.called == s.handlers[..|s.called|]
  }

  ghost predicate RequestsFit(s: System) {
    && |s.active| + s.completedRequests == s.requestCounter
    && (forall id :: id in s.active ==> 1 <= id <= s.requestCounter)
  }

  /** The event is set exactly when there is something to wake: never early, never lost. */
  ghost predicate DrainFits(s: System) {
    && (s.drainComplete ==> s.phase != Running && s.active == {})
    && (s.at == AtDrain && s.active == {} ==> s.drainComplete)
  }

  ghost predicate Invariant(s: System) {
    PhaseFits(s) && RequestsFit(s) && DrainFits(s)
  }

  lemma CallKeepsPhase(s: System, k: nat)
    requires k <= |s.handlers| && s.handlersRun + |s.errors| == k && s.called == s.handlers[..k]
    ensures PhaseFits(CallHandler(s, k))
  {
  }

  lemma HandlerEndKeepsPhase(s: System, ok: bool)
    requires PhaseFits(s) && Enabled(s, HandlerEnds(ok))
    ensures PhaseFits(Step(s, HandlerEnds(ok)))
  {
    var s' := if ok then s.(handlersRun := s.handlersRun + 1)
              else s.(errors := s.errors + [s.handlers[s.at.index]]);
    CallKeepsPhase(s', s.at.index + 1);
  }

  lemma RegisterKeepsPhase(s: System, name: string)
    requires PhaseFits(s)
    ensures PhaseFits(Step(s, Register(name)))
  {
    assert forall k | 0 <= k <= |s.handlers| :: (s.handlers + [name])[..k] == s.handlers[..k];
  }

  lemma StepKeepsPhase(s: System, e: Event)
    requires PhaseFits(s) && Enabled(s, e)
    ensures PhaseFits(Step(s, e))
  {
    if e.HandlerEnds? {
      HandlerEndKeepsPhase(s, e.ok);
    } else if e.Register? {
      RegisterKeepsPhase(s, e.name);
    }
  }

  lemma EnterKeepsRequests(s: System)
    requires RequestsFit(s)
    ensures RequestsFit(Step(s, Enter))
  {
    assert s.requestCounter + 1 !in s.active;
  }

  lemma ExitKeepsRequests(s: System, id: RequestId)
    requires RequestsFit(s) && id in s.active
    ensures RequestsFit(Step(s, Exit(id)))
  {
    assert |s.active - {id}| == |s.active| - 1;
  }

  lemma StepKeepsRequests(s: System, e: Event)
    requires RequestsFit(s) && Enabled(s, e)
    ensures RequestsFit(Step(s, e))
  {
    if e.Enter? {
      EnterKeepsRequests(s);
    } else if e.Exit? {
      ExitKeepsRequests(s, e.id);
    } else {
      var s' := Step(s, e);
      assert s'.active == s.active && s'.requestCounter == s.requestCounter;
    }
  }

  lemma StepKeepsDrain(s: System, e: Event)
    requires DrainFits(s) && Enabled(s, e) && (s.at == AtDrain ==> s.phase != Running)
    ensures DrainFits(Step(s, e))
  {
  }

  lemma StepKeepsInvariant(s: System, e: Event)
    requires Invariant(s) && Enabled(s, e)
    ensures Invariant(Step(s, e))
  {
    StepKeepsPhase(s, e);
    StepKeepsRequests(s, e);
    StepKeepsDrain(s, e);
  }

  lemma {:induction false} RunKeepsInvariant(s: System, run: seq<Event>)
    requires Invariant(s) && Legal(s, run)
    ensures Invariant(Final(s, run))
    decreases |run|
  {
    if run != [] {
      StepKeepsInvariant(s, run[0]);
      RunKeepsInvariant(Step(s, run[0]), run[1..]);
    }
  }

  // ----------------------------------------------------------- main results

  /** No lost wake-up: in every interleaving, a shutdown that waits while no request is active finds the
      event set, so the drain can always end without its timeout. */
  lemma NoLostWakeUp(run: seq<Event>)
    requires Legal(INITIAL, run)
    ensures var s := Final(INITIAL, run);
            s.at == AtDrain ==> (s.active == {} <==> Enabled(s, DrainDone))
  {
    RunKeepsInvariant(INITIAL, run);
  }

  /** Every admitted request is active or completed. */
  lemma RequestsBalance(run: seq<Event>)
    requires Legal(INITIAL, run)
    ensures var s := Final(INITIAL, run);
            |s.active| + s.completedRequests == s.requestCounter
  {
    RunKeepsInvariant(INITIAL, run);
  }

  /** Nothing is admitted after initiation: the active set only shrinks. */
  lemma {:induction false} NothingAdmittedAfterInitiation(s: System, run: seq<Event>)
    requires Legal(s, run) && s.phase != Running
    ensures var s' := Final(s, run);
            s'.phase != Running && s'.requestCounter == s.requestCounter && s'.active <= s.active
    decreases |run|
  {
    if run != [] {
      NothingAdmittedAfterInitiation(Step(s, run[0]), run[1..]);
    }
  }

  predicate PastDrain(s: System) {
    s.at.InHandler? || s.at.Ended?
  }

  lemma {:induction false} DrainedOrTimedOutFrom(s: System, run: seq<Event>)
    requires Invariant(s) && Legal(s, run) && (PastDrain(s) ==> s.active == {})
    requires forall e :: e in run ==> !e.DrainTimeout?
    ensures PastDrain(Final(s, run)) ==> Final(s, run).active == {}
    decreases |run|
  {
    if run != [] {
      StepKeepsInvariant(s, run[0]);
      assert run[0] in run;
      DrainedOrTimedOutFrom(Step(s, run[0]), run[1..]);
    }
  }

  /** A shutdown whose drain does not time out runs its cleanup with no request active. */
  lemma CleanupFindsNoActiveRequest(run: seq<Event>)
    requires Legal(INITIAL, run) && forall e :: e in run ==> !e.DrainTimeout?
    ensures PastDrain(Final(INITIAL, run)) ==> Final(INITIAL, run).active == {}
  {
    DrainedOrTimedOutFrom(INITIAL, run);
  }

  /** Handlers are called once each, in the order of registration, those registered during the cleanup
      included; when the shutdown completes all of them have been, and each one counts either as run
      or as an error. */
  lemma HandlersRunOnceInOrder(run: seq<Event>, e: Event)
    requires Legal(INITIAL, run) && Enabled(Final(INITIAL, run), e)
    ensures var s := Final(INITIAL, run);
            && s.called <= s.handlers
            && (s.at.Ended? ==> s.handlersRun + |s.errors| == |s.called|)
            && (!s.at.Ended? && Step(s, e).at.Ended? ==>
                  && Step(s, e).called == Step(s, e).handlers
                  && Step(s, e).handlersRun + |Step(s, e).errors| == |Step(s, e).handlers|)
  {
    RunKeepsInvariant(INITIAL, run);
    StepKeepsInvariant(Final(INITIAL, run), e);
  }

  /** After completion nothing more is called, so runs plus errors equal the handlers exactly as long as no
      handler is registered late. */
  lemma {:induction false} CompleteIsFinal(s: System, run: seq<Event>)
    requires Legal(s, run) && s.at.Ended? && s.phase == Complete
    ensures var s' := Final(s, run);
            && s'.at.Ended? && s'.phase == Complete
            && s'.called == s.called && s'.handlersRun == s.handlersRun && s'.errors == s.errors
            && (|s'.handlers| == |s.handlers| <==> forall e :: e in run ==> !e.Register?)
            && |s'.handlers| >= |s.handlers|
    decreases |run|
  {
    if run != [] {
      CompleteIsFinal(Step(s, run[0]), run[1..]);
      assert forall e :: e in run <==> e == run[0] || e in run[1..];
    }
  }

  /** How many handler calls of a run ended well, and how many badly. */
  function Endings(run: seq<Event>, ok: bool): nat {
    if run == [] then 0
    else (if run[0] == HandlerEnds(ok) then 1 else 0) + Endings(run[1..], ok)
  }

  lemma {:induction false} CountsMatchEndings(s: System, run: seq<Event>)
    requires Legal(s, run)
    ensures Final(s, run).handlersRun == s.handlersRun + Endings(run, true)
    ensures |Final(s, run).errors| == |s.errors| + Endings(run, false)
    decreases |run|
  {
    if run != [] {
      CountsMatchEndings(Step(s, run[0]), run[1..]);
    }
  }

  /** The handlers, in order, whose calls ended badly: the first call that ends is the first handler's. */
  function BadlyEnded(run: seq<Event>, handlers: seq<string>): seq<string> {
    if run == [] then []
    else
      var before, last := run[..|run| - 1], run[|run| - 1];
      BadlyEnded(before, handlers)
      + if last == HandlerEnds(false) && EndedCalls(before) < |handlers| then [handlers[EndedCalls(before)]] else []
  }

  /** Those registered by the run. */
  function Registered(run: seq<Event>): seq<string> {
    if run == [] then []
    else
      var last := run[|run| - 1];
      Registered(run[..|run| - 1]) + if last.Register? then [last.name] else []
  }

  lemma {:induction false} FinalLast(s: System, run: seq<Event>)
    requires Legal(s, run) && run != []
    ensures var before, last := run[..|run| - 1], run[|run| - 1];
            Legal(s, before) && Enabled(Final(s, before), last) && Final(s, run) == Step(Final(s, before), last)
    decreases |run|
  {
    if |run| > 1 {
      FinalLast(Step(s, run[0]), run[1..]);
      assert run[1..][..|run| - 2] == run[..|run| - 1][1..];
    }
  }

  lemma {:induction false} LaterHandlersDoNotMatter(run: seq<Event>, handlers: seq<string>, more: seq<string>)
    requires EndedCalls(run) <= |handlers|
    ensures BadlyEnded(run, handlers + more) == BadlyEnded(run, handlers)
    decreases |run|
  {
    if run != [] {
      EndingsOfLast(run, true);
      EndingsOfLast(run, false);
      LaterHandlersDoNotMatter(run[..|run| - 1], handlers, more);
    }
  }

  lemma {:induction false} EndingsOfLast(run: seq<Event>, ok: bool)
    requires run != []
    ensures Endings(run, ok) == Endings(run[..|run| - 1], ok) + if run[|run| - 1] == HandlerEnds(ok) then 1 else 0
    decreases |run|
  {
    if |run| > 1 {
      EndingsOfLast(run[1..], ok);
      assert run[1..][..|run| - 2] == run[..|run| - 1][1..];
    }
  }

  ghost predicate ErrorsFit(s: System, run: seq<Event>) {
    && s.handlersRun == Endings(run, true) && |s.errors| == Endings(run, false)
    && s.handlers == Registered(run) && s.errors == BadlyEnded(run, s.handlers)
  }

  function EndedCalls(run: seq<Event>): nat {
    Endings(run, true) + Endings(run, false)
  }

  lemma FoldsOfOneMore(run: seq<Event>, e: Event, handlers: seq<string>)
    ensures Endings(run + [e], true) == Endings(run, true) + if e == HandlerEnds(true) then 1 else 0
    ensures Endings(run + [e], false) == Endings(run, false) + if e == HandlerEnds(false) then 1 else 0
    ensures Registered(run + [e]) == Registered(run) + if e.Register? then [e.name] else []
    ensures BadlyEnded(run + [e], handlers) == BadlyEnded(run, handlers)
              + if e == HandlerEnds(false) && EndedCalls(run) < |handlers| then [handlers[EndedCalls(run)]] else []
  {
    assert (run + [e])[..|run|] == run;
    EndingsOfLast(run + [e], true);
    EndingsOfLast(run + [e], false);
  }

  lemma HandlerEndKeepsErrors(s: System, run: seq<Event>, ok: bool)
    requires PhaseFits(s) && Enabled(s, HandlerEnds(ok)) && ErrorsFit(s, run)
    ensures ErrorsFit(Step(s, HandlerEnds(ok)), run + [HandlerEnds(ok)])
  {
    FoldsOfOneMore(run, HandlerEnds(ok), s.handlers);
    assert s.at.index == EndedCalls(run);
    assert Registered(run + [HandlerEnds(ok)]) == s.handlers;
  }

  lemma StepKeepsErrors(s: System, run: seq<Event>, e: Event)
    requires PhaseFits(s) && Enabled(s, e) && ErrorsFit(s, run)
    ensures ErrorsFit(Step(s, e), run + [e])
  {
    if e.HandlerEnds? {
      HandlerEndKeepsErrors(s, run, e.ok);
    } else {
      FoldsOfOneMore(run, e, Step(s, e).handlers);
      if e.Register? {
        LaterHandlersDoNotMatter(run, s.handlers, [e.name]);
      }
      assert Step(s, e).errors == s.errors && Step(s, e).handlersRun == s.handlersRun;
    }
  }

  lemma {:induction false} ErrorsFitFrom(start: System, run: seq<Event>)
    requires Invariant(start) && start.handlers == [] && start.errors == [] && start.handlersRun == 0
    requires Legal(start, run)
    ensures ErrorsFit(Final(start, run), run)
    decreases |run|
  {
    if run != [] {
      var before, last := run[..|run| - 1], run[|run| - 1];
      FinalLast(start, run);
      ErrorsFitFrom(start, before);
      RunKeepsInvariant(start, before);
      StepKeepsErrors(Final(start, before), before, last);
      assert before + [last] == run;
    }
  }

  /** In every run the handlers are those registered, and the errors are the names, in order, of those among them
      whose calls ended badly. */
  lemma ErrorsNameTheBadlyEnded(run: seq<Event>)
    requires Legal(INITIAL, run)
    ensures Final(INITIAL, run).handlers == Registered(run)
    ensures Final(INITIAL, run).errors == BadlyEnded(run, Registered(run))
  {
    ErrorsFitFrom(INITIAL, run);
  }
}
