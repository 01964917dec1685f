/** Deletion requests with any number of executions and verifications in flight.  Each of them checks
    the request's status, suspends, and writes later; other calls may come in between.  A step of the
    workflow takes effect when it commits. */
module DeletionRuns {
  import opened Wrappers
  import opened DataDeletion

  type TaskId = nat

  /** A call between its check and its last write; `had` is the status it loaded. */
  datatype Task =
    | Loaded(req: Id, had: Status)                      // execution about to write IN_PROGRESS
    | Running(req: Id, done: nat, cleared: set<Id>)     // about to run the next step, or to write COMPLETED
    | Failing(req: Id)                                  // a step raised; about to write FAILED
    | Checked(req: Id, had: Status)                     // verification about to write

  /** `seen` are the ids of all rows there ever were.  `cleared` records of a completed request which of
      them were there when its execution's delete step ran. */
  datatype System = System(
    tables: Tables,
    requests: map<Id, Request>,
    tasks: map<TaskId, Task>,
    seen: set<Id>,
    cleared: map<Id, set<Id>>)

  datatype Action =
    | NewRequest(id: Id, principal: PartyId, fiduciary: PartyId, code: string)
    | AddConsent(row: Id, consent: Consent)
    | AddEvent(row: Id, attachedTo: Id)
    | AddAudit(row: Id, audit: AuditRow)
    | BeginRun(task: TaskId, id: Id)
    | BeginVerify(task: TaskId, id: Id, code: string)
    | Mark(task: TaskId)
    | RunStep(task: TaskId, raises: bool, reach: Reach)
    | Complete(task: TaskId, now: int)
    | GiveUp(task: TaskId)
    | SetVerified(task: TaskId, now: int)
    | Vanish(task: TaskId)

  predicate Enabled(s: System, a: Action) {
    match a
    case NewRequest(id, _, _, _) => id !in s.requests
    case AddConsent(row, _) => row !in s.seen
    case AddEvent(row, c) => row !in s.seen && c in s.tables.consents
    case AddAudit(row, _) => row !in s.seen
    case BeginRun(k, _) => k !in s.tasks
    case BeginVerify(k, _, _) => k !in s.tasks
    case Mark(k) => k in s.tasks && s.tasks[k].Loaded? && s.tasks[k].req in s.requests
    case RunStep(k, _, _) =>
      k in s.tasks && s.tasks[k].Running? && s.tasks[k].done < |WORKFLOW| && s.tasks[k].req in s.requests
    case Complete(k, _) =>
      k in s.tasks && s.tasks[k].Running? && s.tasks[k].done == |WORKFLOW| && s.tasks[k].req in s.requests
    case GiveUp(k) => k in s.tasks && s.tasks[k].Failing? && s.tasks[k].req in s.requests
    case SetVerified(k, _) => k in s.tasks && s.tasks[k].Checked? && s.tasks[k].req in s.requests
    case Vanish(k) => k in s.tasks
  }

  // --------------------------------------------------- what each action does

  /** Only a column that changed since it was loaded is written. */
  function WriteStatus(r: Request, had: Status, status: Status): Request {
    if had == status then r else r.(status := status)
  }

  function SetRow(s: System, id: Id, r: Request): System {
    s.(requests := s.requests[id := r])
  }

  function SetTask(s: System, k: TaskId, t: Task): System {
    s.(tasks := s.tasks[k := t])
  }

  function EndTask(s: System, k: TaskId): System {
    s.(tasks := s.tasks - {k})
  }

  function Begun(s: System, k: TaskId, id: Id): System {
    if id in s.requests && s.requests[id].status != Completed then SetTask(s, k, Loaded(id, s.requests[id].status))
    else s
  }

  function BegunVerify(s: System, k: TaskId, id: Id, code: string): System {
    if CodeAccepted(Db(s.tables, s.requests), id, code) then SetTask(s, k, Checked(id, s.requests[id].status)) else s
  }

  function Marked(s: System, k: TaskId): System
    requires Enabled(s, Mark(k))
  {
    var t := s.tasks[k];
    SetTask(SetRow(s, t.req, WriteStatus(s.requests[t.req], t.had, InProgress)), k, Running(t.req, 0, {}))
  }

  /** A step runs on the tables as they are. */
  function Stepped(s: System, k: TaskId, raises: bool, reach: Reach): System
    requires Enabled(s, RunStep(k, raises, reach))
  {
    var t, r := s.tasks[k], s.requests[s.tasks[k].req];
    var step := WORKFLOW[t.done];
    var ok := !Fails(s.tables, r, Trouble(if raises then {step} else {}, reach, false), step);
    var s' := s.(tables := StepTables(s.tables, r, step, ok, reach));
    if !ok then SetTask(s', k, Failing(t.req))
    else SetTask(s', k, Running(t.req, t.done + 1, if step == DeleteDatabaseRecords then s.seen else t.cleared))
  }

  function Completing(s: System, k: TaskId, now: int): System
    requires Enabled(s, Complete(k, now))
  {
    var t, r := s.tasks[k], s.requests[s.tasks[k].req];
    EndTask(SetRow(s, t.req, r.(status := Completed, completedAt := Some(now))), k)
      .(cleared := s.cleared[t.req := t.cleared])
  }

  function GivenUp(s: System, k: TaskId): System
    requires Enabled(s, GiveUp(k))
  {
    var id := s.tasks[k].req;
    EndTask(SetRow(s, id, s.requests[id].(status := Failed)), k)
  }

  function Verified(s: System, k: TaskId, now: int): System
    requires Enabled(s, SetVerified(k, now))
  {
    var t, r := s.tasks[k], s.requests[s.tasks[k].req];
    EndTask(SetRow(s, t.req, WriteStatus(r, t.had, VerificationInProgress).(scheduledAt := Some(now + HOURS_24))), k)
  }

  function Step(s: System, a: Action): System
    requires Enabled(s, a)
  {
    match a
    case NewRequest(id, p, f, code) => SetRow(s, id, Request(p, f, Pending, code, None, None))
    case AddConsent(row, c) =>
      s.(tables := s.tables.(consents := s.tables.consents[row := c]), seen := s.seen + {row})
    case AddEvent(row, c) =>
      s.(tables := s.tables.(events := s.tables.events[row := c]), seen := s.seen + {row})
    case AddAudit(row, entry) =>
      s.(tables := s.tables.(audit := s.tables.audit[row := entry]), seen := s.seen + {row})
    case BeginRun(k, id) => Begun(s, k, id)
    case BeginVerify(k, id, code) => BegunVerify(s, k, id, code)
    case Mark(k) => Marked(s, k)
    case RunStep(k, raises, reach) => Stepped(s, k, raises, reach)
    case Complete(k, now) => Completing(s, k, now)
    case GiveUp(k) => GivenUp(s, k)
    case SetVerified(k, now) => Verified(s, k, now)
    case Vanish(k) => EndTask(s, k)
  }

  predicate Legal(s: System, run: seq<Action>)
    decreases |run|
  {
    run == [] || (Enabled(s, run[0]) && Legal(Step(s, run[0]), run[1..]))
  }

  function Final(s: System, run: seq<Action>): System
    requires Legal(s, run)
    decreases |run|
  {
    if run == [] then s else Final(Step(s, run[0]), run[1..])
  }

  lemma Before(s: System, a: Action, rest: seq<Action>) returns (run: seq<Action>)
    requires Enabled(s, a) && Legal(Step(s, a), rest)
    ensures Legal(s, run) && Final(s, run) == Final(Step(s, a), rest)
  {
    run := [a] + rest;
    assert run[1..] == rest;
  }

  // --------------------------------------------------- COMPLETED is absorbing

  predicate IsCompleted(s: System, id: Id) {
    id in s.requests && s.requests[id].status == Completed
  }

  /** The task cannot write another status: an execution whose nine steps are done, or a verification that
      loaded the status it would write. */
  predicate KeepsCompleted(t: Task) {
    (t.Running? && t.done == |WORKFLOW|) || (t.Checked? && t.had == VerificationInProgress)
  }

  ghost predicate OnlyKeepers(s: System, id: Id) {
    forall k :: k in s.tasks && s.tasks[k].req == id ==> KeepsCompleted(s.tasks[k])
  }

  ghost predicate NoneInFlight(s: System, id: Id) {
    forall k :: k in s.tasks ==> s.tasks[k].req != id
  }

  lemma StepKeepsCompleted(s: System, a: Action, id: Id)
    requires Enabled(s, a) && IsCompleted(s, id) && OnlyKeepers(s, id)
    ensures IsCompleted(Step(s, a), id) && OnlyKeepers(Step(s, a), id)
    ensures NoneInFlight(s, id) ==>
              NoneInFlight(Step(s, a), id) && Step(s, a).requests[id] == s.requests[id]
  {
  }

  lemma {:induction false} KeepersKeepCompleted(s: System, run: seq<Action>, id: Id)
    requires Legal(s, run) && IsCompleted(s, id) && OnlyKeepers(s, id)
    ensures IsCompleted(Final(s, run), id)
    ensures NoneInFlight(s, id) ==> Final(s, run).requests[id] == s.requests[id]
    decreases |run|
  {
    if run != [] {
      StepKeepsCompleted(s, run[0], id);
      KeepersKeepCompleted(Step(s, run[0]), run[1..], id);
    }
  }

  /** Any other task in flight can still overwrite the status: a failing step makes it FAILED. */
  lemma OtherTaskOverwrites(s: System, k: TaskId) returns (run: seq<Action>)
    requires k in s.tasks && IsCompleted(s, s.tasks[k].req) && !KeepsCompleted(s.tasks[k])
    requires s.tasks[k].Running? ==> s.tasks[k].done < |WORKFLOW|
    ensures Legal(s, run) && !IsCompleted(Final(s, run), s.tasks[k].req)
  {
    if s.tasks[k].Checked? {
      run := Before(s, SetVerified(k, 0), []);
    } else if s.tasks[k].Failing? {
      run := Before(s, GiveUp(k), []);
    } else if s.tasks[k].Running? {
      run := FailingStepOverwrites(s, k);
    } else {
      run := FailingStepOverwrites(Marked(s, k), k);
      run := Before(s, Mark(k), run);
    }
  }

  lemma FailingStepOverwrites(s: System, k: TaskId) returns (run: seq<Action>)
    requires Enabled(s, RunStep(k, true, Everything))
    ensures Legal(s, run) && !IsCompleted(Final(s, run), s.tasks[k].req)
  {
    var failing := Stepped(s, k, true, Everything);
    run := Before(failing, GiveUp(k), []);
    run := Before(s, RunStep(k, true, Everything), run);
  }

  /** What every reachable state has: running executions have done at most nine steps. */
  ghost predicate CountsFit(s: System) {
    forall k :: k in s.tasks && s.tasks[k].Running? ==> s.tasks[k].done <= |WORKFLOW|
  }

  /** COMPLETED stays, whatever is called from now on, if and only if every execution or verification of the
      request still in flight is one that cannot write another status. */
  lemma CompletedForeverExactlyUnlessOverlapped(s: System, id: Id)
    requires IsCompleted(s, id) && CountsFit(s)
    ensures (forall run | Legal(s, run) :: IsCompleted(Final(s, run), id)) <==> OnlyKeepers(s, id)
  {
    if OnlyKeepers(s, id) {
      forall run | Legal(s, run)
        ensures IsCompleted(Final(s, run), id)
      {
        KeepersKeepCompleted(s, run, id);
      }
    } else {
      var k :| k in s.tasks && s.tasks[k].req == id && !KeepsCompleted(s.tasks[k]);
      var run := OtherTaskOverwrites(s, k);
    }
  }

  /** The task's last write changes the request, whatever status it has. */
  lemma TaskChangesRequest(s: System, k: TaskId) returns (run: seq<Action>)
    requires k in s.tasks && IsCompleted(s, s.tasks[k].req) && CountsFit(s)
    ensures Legal(s, run) && s.tasks[k].req in Final(s, run).requests
    ensures Final(s, run).requests[s.tasks[k].req] != s.requests[s.tasks[k].req]
  {
    var id := s.tasks[k].req;
    var r := s.requests[id];
    if s.tasks[k].Checked? {
      run := Before(s, SetVerified(k, if r.scheduledAt == Some(HOURS_24) then 1 else 0), []);
    } else if KeepsCompleted(s.tasks[k]) {
      run := Before(s, Complete(k, if r.completedAt == Some(0) then 1 else 0), []);
    } else {
      run := OtherTaskOverwrites(s, k);
      RequestsStay(s, run, id);
    }
  }

  lemma {:induction false} RequestsStay(s: System, run: seq<Action>, id: Id)
    requires Legal(s, run) && id in s.requests
    ensures id in Final(s, run).requests
    decreases |run|
  {
    if run != [] {
      RequestsStay(Step(s, run[0]), run[1..], id);
    }
  }

  /** A completed request is never touched again if and only if nothing of it is in flight. */
  lemma CompletedRowFrozenExactlyWithNoneInFlight(s: System, id: Id)
    requires IsCompleted(s, id) && CountsFit(s)
    ensures (forall run | Legal(s, run) ::
               IsCompleted(Final(s, run), id) && Final(s, run).requests[id] == s.requests[id])
            <==> NoneInFlight(s, id)
  {
    if NoneInFlight(s, id) {
      forall run | Legal(s, run)
        ensures IsCompleted(Final(s, run), id) && Final(s, run).requests[id] == s.requests[id]
      {
        KeepersKeepCompleted(s, run, id);
      }
    } else {
      var k :| k in s.tasks && s.tasks[k].req == id;
      var run := TaskChangesRequest(s, k);
    }
  }

  // ---------------------------------------------------- completion means gone

  /** None of the rows in `cleared` is left of the pair. */
  ghost predicate ClearedOf(t: Tables, p: PartyId, f: PartyId, cleared: set<Id>) {
    && (forall c :: c in t.consents && OfPair(t.consents[c], p, f) ==> c !in cleared)
    && (forall e :: e in t.events && t.events[e] in t.consents && OfPair(t.consents[t.events[e]], p, f) ==>
          e !in cleared)
    && (forall a :: a in t.audit && t.audit[a] == AuditRow(Some(p), Some(f)) ==> a !in cleared)
  }

  ghost predicate RowsSeen(s: System) {
    && EventsHaveConsents(s.tables)
    && s.tables.consents.Keys <= s.seen && s.tables.events.Keys <= s.seen && s.tables.audit.Keys <= s.seen
  }

  ghost predicate TaskFits(s: System, t: Task) {
    && t.req in s.requests
    && (t.Running? ==> t.done <= |WORKFLOW| && t.cleared <= s.seen)
    && (t.Running? && t.done > 4 ==>
          ClearedOf(s.tables, s.requests[t.req].principal, s.requests[t.req].fiduciary, t.cleared))
  }

  ghost predicate RequestFits(s: System, id: Id)
    requires id in s.requests
  {
    s.requests[id].status == Completed ==>
      && id in s.cleared && s.cleared[id] <= s.seen
      && ClearedOf(s.tables, s.requests[id].principal, s.requests[id].fiduciary, s.cleared[id])
  }

  ghost predicate Invariant(s: System) {
    && RowsSeen(s)
    && (forall k :: k in s.tasks ==> TaskFits(s, s.tasks[k]))
    && (forall id :: id in s.requests ==> RequestFits(s, id))
  }

  /** Rows may be added under new ids, and taken away. */
  ghost predicate RowsKept(s: System, s': System) {
    && s.seen <= s'.seen
    && (forall c :: c in s'.tables.consents && c in s.seen ==>
          c in s.tables.consents && s'.tables.consents[c] == s.tables.consents[c])
    && (forall e :: e in s'.tables.events && e in s.seen ==>
          e in s.tables.events && s'.tables.events[e] == s.tables.events[e])
    && (forall a :: a in s'.tables.audit && a in s.seen ==>
          a in s.tables.audit && s'.tables.audit[a] == s.tables.audit[a])
  }

  lemma StepTablesKeepsRows(s: System, s': System, r: Request, step: Step, ok: bool, reach: Reach)
    requires RowsSeen(s) && s'.tables == StepTables(s.tables, r, step, ok, reach) && s'.seen == s.seen
    ensures RowsSeen(s') && RowsKept(s, s')
  {
    PartialDeleteIsRecoverable(s.tables, r.principal, r.fiduciary, reach);
    PurgeIsExact(s.tables, r.principal, r.fiduciary);
  }

  lemma StepKeepsRows(s: System, a: Action)
    requires Enabled(s, a) && RowsSeen(s)
    ensures RowsSeen(Step(s, a)) && RowsKept(s, Step(s, a))
  {
    if a.RunStep? {
      var t, r := s.tasks[a.task], s.requests[s.tasks[a.task].req];
      var step := WORKFLOW[t.done];
      var ok := !Fails(s.tables, r, Trouble(if a.raises then {step} else {}, a.reach, false), step);
      StepTablesKeepsRows(s, Step(s, a), r, step, ok, a.reach);
    } else {
      OtherStepKeepsRows(s, a);
    }
  }

  lemma OtherStepKeepsRows(s: System, a: Action)
    requires Enabled(s, a) && RowsSeen(s) && !a.RunStep?
    ensures RowsSeen(Step(s, a)) && RowsKept(s, Step(s, a))
  {
    if !a.AddConsent? && !a.AddEvent? && !a.AddAudit? {
      assert Step(s, a).tables == s.tables && Step(s, a).seen == s.seen;
    }
  }

  lemma KeptRowsStayCleared(s: System, s': System, p: PartyId, f: PartyId, cleared: set<Id>)
    requires RowsSeen(s) && RowsSeen(s') && RowsKept(s, s')
    requires cleared <= s.seen && ClearedOf(s.tables, p, f, cleared)
    ensures ClearedOf(s'.tables, p, f, cleared)
  {
    forall e | e in s'.tables.events && OfPair(s'.tables.consents[s'.tables.events[e]], p, f)
      ensures e !in cleared
    {
      if e in s.seen {
        var c := s.tables.events[e];
        assert c in s.tables.consents && c in s.seen;
      }
    }
  }

  /** The delete step clears all rows there are. */
  lemma DeleteStepClears(s: System, r: Request)
    requires RowsSeen(s)
    ensures ClearedOf(Purged(s.tables, r.principal, r.fiduciary), r.principal, r.fiduciary, s.seen)
  {
    PurgeIsExact(s.tables, r.principal, r.fiduciary);
    var t := Purged(s.tables, r.principal, r.fiduciary);
    forall c | c in t.consents
      ensures !OfPair(t.consents[c], r.principal, r.fiduciary)
    {
      assert c !in PairConsents(t.consents, r.principal, r.fiduciary);
    }
  }

  /** Requests keep their parties. */
  lemma StepKeepsParties(s: System, a: Action, id: Id)
    requires Enabled(s, a) && id in s.requests
    ensures id in Step(s, a).requests
    ensures Step(s, a).requests[id].principal == s.requests[id].principal
    ensures Step(s, a).requests[id].fiduciary == s.requests[id].fiduciary
  {
  }

  lemma StillTaskFits(s: System, s': System, t: Task)
    requires RowsSeen(s) && RowsSeen(s') && RowsKept(s, s') && TaskFits(s, t) && t.req in s'.requests
    requires s'.requests[t.req].principal == s.requests[t.req].principal
    requires s'.requests[t.req].fiduciary == s.requests[t.req].fiduciary
    ensures TaskFits(s', t)
  {
    if t.Running? && t.done > 4 {
      KeptRowsStayCleared(s, s', s.requests[t.req].principal, s.requests[t.req].fiduciary, t.cleared);
    }
  }

  /** The step the execution was about to run leaves it about to run the next one. */
  lemma SteppedTaskFits(s: System, k: TaskId, raises: bool, reach: Reach)
    requires Enabled(s, RunStep(k, raises, reach)) && RowsSeen(s) && TaskFits(s, s.tasks[k])
    ensures var s' := Stepped(s, k, raises, reach); k in s'.tasks && TaskFits(s', s'.tasks[k])
  {
    var t, s' := s.tasks[k], Stepped(s, k, raises, reach);
    StepKeepsRows(s, RunStep(k, raises, reach));
    if t.done == 4 {
      DeleteStepClears(s, s.requests[t.req]);
    } else {
      StillTaskFits(s, s', t);
    }
  }

  lemma StepKeepsTask(s: System, a: Action, k: TaskId)
    requires Enabled(s, a) && Invariant(s) && k in Step(s, a).tasks
    ensures TaskFits(Step(s, a), Step(s, a).tasks[k])
  {
    StepKeepsRows(s, a);
    if a.RunStep? && a.task == k {
      SteppedTaskFits(s, k, a.raises, a.reach);
    } else if k in s.tasks && Step(s, a).tasks[k] == s.tasks[k] {
      StepKeepsParties(s, a, s.tasks[k].req);
      StillTaskFits(s, Step(s, a), s.tasks[k]);
    }
  }

  lemma StepKeepsRequest(s: System, a: Action, id: Id)
    requires Enabled(s, a) && Invariant(s) && id in Step(s, a).requests
    ensures RequestFits(Step(s, a), id)
  {
    StepKeepsRows(s, a);
    var s' := Step(s, a);
    if a.Complete? && s.tasks[a.task].req == id {
      assert TaskFits(s, s.tasks[a.task]);
      var r := s.requests[id];
      KeptRowsStayCleared(s, s', r.principal, r.fiduciary, s.tasks[a.task].cleared);
    } else if id in s.requests && s'.requests[id].status == Completed {
      assert s.requests[id].status == Completed && RequestFits(s, id);
      StepKeepsParties(s, a, id);
      KeptRowsStayCleared(s, s', s.requests[id].principal, s.requests[id].fiduciary, s.cleared[id]);
    }
  }

  lemma StepKeepsInvariant(s: System, a: Action)
    requires Enabled(s, a) && Invariant(s)
    ensures Invariant(Step(s, a))
  {
    StepKeepsRows(s, a);
    forall k | k in Step(s, a).tasks
      ensures TaskFits(Step(s, a), Step(s, a).tasks[k])
    {
      StepKeepsTask(s, a, k);
    }
    forall id | id in Step(s, a).requests
      ensures RequestFits(Step(s, a), id)
    {
      StepKeepsRequest(s, a, id);
    }
  }

  lemma {:induction false} RunKeepsInvariant(s: System, run: seq<Action>)
    requires Legal(s, run) && Invariant(s)
    ensures Invariant(Final(s, run))
    decreases |run|
  {
    if run != [] {
      StepKeepsInvariant(s, run[0]);
      RunKeepsInvariant(Step(s, run[0]), run[1..]);
    }
  }

  function Start(t: Tables): System {
    System(t, map[], map[], t.consents.Keys + t.events.Keys + t.audit.Keys, map[])
  }

  lemma {:induction false} OneMoreStep(s: System, run: seq<Action>, a: Action)
    requires Legal(s, run) && Enabled(Final(s, run), a)
    ensures Legal(s, run + [a]) && Final(s, run + [a]) == Step(Final(s, run), a)
    decreases |run|
  {
    if run == [] {
      assert [a][1..] == [];
    } else {
      assert (run + [a])[1..] == run[1..] + [a];
      OneMoreStep(Step(s, run[0]), run[1..], a);
    }
  }

  /** The action is the delete step of an execution of the request, and it succeeds. */
  predicate IsDelete(s: System, a: Action, id: Id) {
    && Enabled(s, a) && a.RunStep? && s.tasks[a.task].req == id
    && WORKFLOW[s.tasks[a.task].done] == DeleteDatabaseRecords && Step(s, a).tasks[a.task].Running?
  }

  /** Action number k of the run is such a delete step, and `seen` are the ids of the rows there had been
      until then. */
  predicate DeletesAt(start: System, run: seq<Action>, k: nat, id: Id, seen: set<Id>) {
    && k < |run| && Legal(start, run[..k])
    && IsDelete(Final(start, run[..k]), run[k], id) && seen == Final(start, run[..k]).seen
  }

  ghost predicate Deleted(start: System, run: seq<Action>, id: Id, seen: set<Id>) {
    exists k: nat :: DeletesAt(start, run, k, id, seen)
  }

  /** Whatever is recorded as cleared was so by a delete step of the run. */
  ghost predicate ClearedByDeletes(start: System, run: seq<Action>)
    requires Legal(start, run)
  {
    var s := Final(start, run);
    && (forall k :: k in s.tasks && s.tasks[k].Running? && s.tasks[k].done > 4 ==>
          Deleted(start, run, s.tasks[k].req, s.tasks[k].cleared))
    && (forall id :: id in s.requests && s.requests[id].status == Completed ==>
          id in s.cleared && Deleted(start, run, id, s.cleared[id]))
  }

  lemma DeletedStays(start: System, run: seq<Action>, a: Action, id: Id, seen: set<Id>)
    requires Deleted(start, run, id, seen)
    ensures Deleted(start, run + [a], id, seen)
  {
    var k: nat :| DeletesAt(start, run, k, id, seen);
    assert (run + [a])[..k] == run[..k];
    assert DeletesAt(start, run + [a], k, id, seen);
  }

  /** A task gets past the delete step by running it. */
  lemma PastDeleteByDeleting(s: System, a: Action, k: TaskId)
    requires Enabled(s, a) && k in Step(s, a).tasks
    requires Step(s, a).tasks[k].Running? && Step(s, a).tasks[k].done > 4
    ensures var t := Step(s, a).tasks[k];
            || (IsDelete(s, a, t.req) && t.cleared == s.seen)
            || (k in s.tasks && s.tasks[k].Running? && s.tasks[k].done > 4
                && s.tasks[k].req == t.req && s.tasks[k].cleared == t.cleared)
  {
    assert WORKFLOW[4] == DeleteDatabaseRecords;
    assert forall i :: 4 < i < |WORKFLOW| ==> WORKFLOW[i] != DeleteDatabaseRecords;
  }

  lemma StepKeepsTaskDeleted(start: System, run: seq<Action>, a: Action, k: TaskId)
    requires Legal(start, run) && Enabled(Final(start, run), a) && ClearedByDeletes(start, run)
    requires var s' := Step(Final(start, run), a); k in s'.tasks && s'.tasks[k].Running? && s'.tasks[k].done > 4
    ensures var t := Step(Final(start, run), a).tasks[k]; Deleted(start, run + [a], t.req, t.cleared)
  {
    var s := Final(start, run);
    var t := Step(s, a).tasks[k];
    PastDeleteByDeleting(s, a, k);
    if IsDelete(s, a, t.req) && t.cleared == s.seen {
      assert (run + [a])[..|run|] == run;
      assert DeletesAt(start, run + [a], |run|, t.req, t.cleared);
    } else {
      DeletedStays(start, run, a, s.tasks[k].req, s.tasks[k].cleared);
    }
  }

  lemma StepKeepsRequestDeleted(start: System, run: seq<Action>, a: Action, id: Id)
    requires Legal(start, run) && Enabled(Final(start, run), a) && ClearedByDeletes(start, run)
    requires IsCompleted(Step(Final(start, run), a), id)
    ensures var s' := Step(Final(start, run), a); id in s'.cleared && Deleted(start, run + [a], id, s'.cleared[id])
  {
    var s := Final(start, run);
    if a.Complete? && s.tasks[a.task].req == id {
      DeletedStays(start, run, a, id, s.tasks[a.task].cleared);
    } else {
      DeletedStays(start, run, a, id, s.cleared[id]);
    }
  }

  lemma StepIsClearedByDeletes(start: System, run: seq<Action>, a: Action)
    requires Legal(start, run) && Enabled(Final(start, run), a) && ClearedByDeletes(start, run)
    ensures Legal(start, run + [a]) && Final(start, run + [a]) == Step(Final(start, run), a)
    ensures ClearedByDeletes(start, run + [a])
  {
    OneMoreStep(start, run, a);
    var s' := Step(Final(start, run), a);
    forall k | k in s'.tasks && s'.tasks[k].Running? && s'.tasks[k].done > 4
      ensures Deleted(start, run + [a], s'.tasks[k].req, s'.tasks[k].cleared)
    {
      StepKeepsTaskDeleted(start, run, a, k);
    }
    forall id | IsCompleted(s', id)
      ensures id in s'.cleared && Deleted(start, run + [a], id, s'.cleared[id])
    {
      StepKeepsRequestDeleted(start, run, a, id);
    }
  }

  lemma {:induction false} LastStepOfRun(s: System, run: seq<Action>)
    requires Legal(s, run) && run != []
    ensures Legal(s, run[..|run| - 1]) && Enabled(Final(s, run[..|run| - 1]), run[|run| - 1])
    decreases |run|
  {
    if |run| == 1 {
      assert run[..0] == [];
    } else {
      LastStepOfRun(Step(s, run[0]), run[1..]);
      assert run[1..][..|run| - 2] == run[..|run| - 1][1..];
    }
  }

  lemma {:induction false} RunIsClearedByDeletes(start: System, run: seq<Action>)
    requires Legal(start, run) && start.tasks == map[] && start.requests == map[]
    ensures ClearedByDeletes(start, run)
    decreases |run|
  {
    if run != [] {
      var before, last := run[..|run| - 1], run[|run| - 1];
      LastStepOfRun(start, run);
      RunIsClearedByDeletes(start, before);
      StepIsClearedByDeletes(start, before, last);
      assert before + [last] == run;
    }
  }

  /** In every run, with overlapping executions, failing steps, partial deletes and rows added at any time:
      a completed request had a successful delete step of an execution of it, and none of the rows there had
      been until then is left of its pair. */
  lemma CompletionMeansGone(t: Tables, run: seq<Action>, id: Id) returns (k: nat)
    requires EventsHaveConsents(t) && Legal(Start(t), run)
    requires IsCompleted(Final(Start(t), run), id)
    ensures CountsFit(Final(Start(t), run))
    ensures k < |run| && Legal(Start(t), run[..k])
    ensures var before, s := Final(Start(t), run[..k]), Final(Start(t), run);
            && DeletesAt(Start(t), run, k, id, before.seen)
            && ClearedOf(s.tables, s.requests[id].principal, s.requests[id].fiduciary, before.seen)
  {
    RunKeepsInvariant(Start(t), run);
    RunIsClearedByDeletes(Start(t), run);
    var s := Final(Start(t), run);
    assert RequestFits(s, id) && Deleted(Start(t), run, id, s.cleared[id]);
    k :| DeletesAt(Start(t), run, k, id, s.cleared[id]);
  }

  // --------------------------------------------- the step that always raises

  /** The step that clears the caches always raises. */
  predicate CachesNeverCleared(s: System, run: seq<Action>)
    requires Legal(s, run)
    decreases |run|
  {
    run == []
    || ((run[0].RunStep? && WORKFLOW[s.tasks[run[0].task].done] == ClearCaches ==> run[0].raises)
        && CachesNeverCleared(Step(s, run[0]), run[1..]))
  }

  ghost predicate NobodyPastCaches(s: System) {
    && (forall k :: k in s.tasks && s.tasks[k].Running? ==> s.tasks[k].done <= 6)
    && (forall id :: id in s.requests ==> s.requests[id].status != Completed)
    && (forall k :: k in s.tasks && s.tasks[k].Checked? ==> s.tasks[k].had != Completed)
  }

  /** So in every run of the workflow as it is written, however executions overlap, no request is ever
      completed. */
  lemma {:induction false} NothingCompletesAsWritten(s: System, run: seq<Action>)
    requires Legal(s, run) && NobodyPastCaches(s) && CachesNeverCleared(s, run)
    ensures NobodyPastCaches(Final(s, run))
    decreases |run|
  {
    if run != [] {
      StepStaysBeforeCaches(s, run[0]);
      NothingCompletesAsWritten(Step(s, run[0]), run[1..]);
    }
  }

  lemma StepStaysBeforeCaches(s: System, a: Action)
    requires Enabled(s, a) && NobodyPastCaches(s)
    requires a.RunStep? && WORKFLOW[s.tasks[a.task].done] == ClearCaches ==> a.raises
    ensures NobodyPastCaches(Step(s, a))
  {
    assert WORKFLOW[6] == ClearCaches;
  }

  // ------------------------------------------------ an uninterrupted execution

  /** Task k has run the steps to do, up to their end or the first failure, and written the outcome. */
  function Ended(s: System, k: TaskId, r: Request, todo: seq<Step>, trouble: Trouble, now: int,
                 cleared: map<Id, set<Id>>): System
    requires k in s.tasks
  {
    var n := Succeeding(s.tables, r, trouble, todo);
    System(TablesAfter(s.tables, r, todo, n, Kept(trouble)),
           s.requests[s.tasks[k].req :=
             if n == |todo| then r.(status := Completed, completedAt := Some(now))
             else if trouble.aborts then r else r.(status := Failed)],
           s.tasks - {k}, s.seen, cleared)
  }

  lemma CompletionIsEnded(s: System, k: TaskId, trouble: Trouble, now: int)
    requires Enabled(s, Complete(k, now))
    ensures var s' := Completing(s, k, now);
            s' == Ended(s, k, s.requests[s.tasks[k].req], [], trouble, now, s'.cleared)
  {
  }

  /** How an execution ends after a failing step. */
  function Last(k: TaskId, trouble: Trouble): Action {
    if trouble.aborts then Vanish(k) else GiveUp(k)
  }

  lemma FailedStepIsEnded(s: System, k: TaskId, todo: seq<Step>, trouble: Trouble, now: int)
    requires k in s.tasks && s.tasks[k].Running? && s.tasks[k].done < |WORKFLOW| && s.tasks[k].req in s.requests
    requires todo != [] && todo[0] == WORKFLOW[s.tasks[k].done]
    requires Fails(s.tables, s.requests[s.tasks[k].req], trouble, todo[0])
    ensures var s' := Stepped(s, k, todo[0] in trouble.raises, Kept(trouble));
            && Enabled(s', Last(k, trouble))
            && Step(s', Last(k, trouble)) == Ended(s, k, s.requests[s.tasks[k].req], todo, trouble, now, s.cleared)
  {
    var s' := Stepped(s, k, todo[0] in trouble.raises, Kept(trouble));
    assert todo[..0] == [] && s'.tasks - {k} == s.tasks - {k};
    assert s.requests[s.tasks[k].req := s.requests[s.tasks[k].req]] == s.requests;
  }

  lemma SuccessfulStepThenEnded(s: System, k: TaskId, todo: seq<Step>, trouble: Trouble, now: int,
                                cleared: map<Id, set<Id>>)
    requires k in s.tasks && s.tasks[k].Running? && s.tasks[k].done < |WORKFLOW| && s.tasks[k].req in s.requests
    requires todo != [] && todo[0] == WORKFLOW[s.tasks[k].done]
    requires !Fails(s.tables, s.requests[s.tasks[k].req], trouble, todo[0])
    ensures var s', id := Stepped(s, k, todo[0] in trouble.raises, Kept(trouble)), s.tasks[k].req;
            && k in s'.tasks && s'.tasks[k].Running? && s'.tasks[k].req == id
            && s'.tasks[k].done == s.tasks[k].done + 1 && s'.requests == s.requests
            && Ended(s', k, s.requests[id], todo[1..], trouble, now, cleared)
               == Ended(s, k, s.requests[id], todo, trouble, now, cleared)
  {
    var s' := Stepped(s, k, todo[0] in trouble.raises, Kept(trouble));
    SuccessfulStepFirst(s.tables, s.requests[s.tasks[k].req], trouble, todo);
    assert s'.tasks - {k} == s.tasks - {k};
  }

  /** From a step on, an execution that nothing comes between does what the uninterrupted one does. */
  lemma {:induction false} RestIsARun(s: System, k: TaskId, workflow: seq<Step>, trouble: Trouble, now: int)
    returns (run: seq<Action>)
    requires k in s.tasks && s.tasks[k].Running? && s.tasks[k].done <= |workflow| && s.tasks[k].req in s.requests
    requires s.requests[s.tasks[k].req].status == InProgress && workflow == WORKFLOW
    ensures Legal(s, run)
    ensures var id, todo := s.tasks[k].req, workflow[s.tasks[k].done..];
            Final(s, run) == Ended(s, k, s.requests[id], todo, trouble, now, Final(s, run).cleared)
    decreases |workflow| - s.tasks[k].done
  {
    var t := s.tasks[k];
    var todo := workflow[t.done..];
    if t.done == |workflow| {
      CompletionIsEnded(s, k, trouble, now);
      run := Before(s, Complete(k, now), []);
    } else {
      var step := RunStep(k, todo[0] in trouble.raises, Kept(trouble));
      if Fails(s.tables, s.requests[t.req], trouble, todo[0]) {
        FailedStepIsEnded(s, k, todo, trouble, now);
        run := Before(Step(s, step), Last(k, trouble), []);
      } else {
        var s' := Step(s, step);
        SuccessfulStepThenEnded(s, k, todo, trouble, now, s.cleared);
        run := RestIsARun(s', k, workflow, trouble, now);
        SuccessfulStepThenEnded(s, k, todo, trouble, now, Final(s', run).cleared);
        assert todo[1..] == workflow[t.done + 1..];
      }
      run := Before(s, step, run);
    }
  }

  lemma SuccessfulStepFirst(t: Tables, r: Request, trouble: Trouble, todo: seq<Step>)
    requires todo != [] && !Fails(t, r, trouble, todo[0])
    ensures var t' := StepTables(t, r, todo[0], true, Kept(trouble));
            var n := Succeeding(t, r, trouble, todo);
            && n > 0 && Succeeding(t', r, trouble, todo[1..]) == n - 1
            && TablesAfter(t', r, todo[1..], n - 1, Kept(trouble)) == TablesAfter(t, r, todo, n, Kept(trouble))
  {
    var t' := StepTables(t, r, todo[0], true, Kept(trouble));
    var n := Succeeding(t, r, trouble, todo);
    SamePrincipalsSameSteps(t, t', r, trouble, todo[1..]);
    FirstOfSucceeded(t, r, todo, n, Kept(trouble));
    assert n < |todo| ==> todo[n] == todo[1..][n - 1];
  }

  lemma FirstOfSucceeded(t: Tables, r: Request, todo: seq<Step>, n: nat, reach: Reach)
    requires 0 < n <= |todo|
    ensures Succeeded(StepTables(t, r, todo[0], true, reach), r, todo[1..][..n - 1]) == Succeeded(t, r, todo[..n])
  {
    assert todo[..n] == [todo[0]] + todo[1..][..n - 1];
    PurgeTwice(t, r.principal, r.fiduciary);
  }

  lemma {:induction false} SamePrincipalsSameSteps(t: Tables, t': Tables, r: Request, trouble: Trouble, todo: seq<Step>)
    requires t'.principals == t.principals
    ensures Succeeding(t', r, trouble, todo) == Succeeding(t, r, trouble, todo)
    decreases |todo|
  {
    if todo != [] {
      SamePrincipalsSameSteps(t, t', r, trouble, todo[1..]);
    }
  }

  /** The uninterrupted result, told by the request as marked. */
  lemma ExecutedFromMarked(s: System, k: TaskId, id: Id, workflow: seq<Step>, trouble: Trouble, now: int,
                           cleared: map<Id, set<Id>>)
    requires k in s.tasks && s.tasks[k].req == id && id in s.requests && s.requests[id].status != Completed
    ensures var marked := SetRow(s, id, s.requests[id].(status := InProgress));
            var ended := Ended(marked, k, marked.requests[id], workflow, trouble, now, cleared);
            Db(ended.tables, ended.requests) == Execute(Db(s.tables, s.requests), workflow, id, trouble, now).db
  {
    SameSteps(s.tables, s.requests[id], s.requests[id].(status := InProgress), trouble, workflow);
  }

  lemma BeginAndMark(s: System, k: TaskId, id: Id)
    requires k !in s.tasks && id in s.requests && s.requests[id].status != Completed
    ensures Enabled(Begun(s, k, id), Mark(k))
    ensures Marked(Begun(s, k, id), k)
            == SetRow(SetTask(s, k, Running(id, 0, {})), id, s.requests[id].(status := InProgress))
    ensures Marked(Begun(s, k, id), k).tasks - {k} == s.tasks
  {
    assert Marked(Begun(s, k, id), k).tasks == s.tasks[k := Running(id, 0, {})];
  }

  /** An execution that nothing comes between is a run of this machine with the uninterrupted result. */
  lemma ExecutionIsARun(s: System, k: TaskId, id: Id, workflow: seq<Step>, trouble: Trouble, now: int)
    returns (run: seq<Action>)
    requires k !in s.tasks && id in s.requests && s.requests[id].status != Completed && workflow == WORKFLOW
    ensures Legal(s, run)
    ensures Db(Final(s, run).tables, Final(s, run).requests)
            == Execute(Db(s.tables, s.requests), workflow, id, trouble, now).db
    ensures Final(s, run).tasks == s.tasks
  {
    var begun := Begun(s, k, id);
    var marked := Marked(begun, k);
    BeginAndMark(s, k, id);
    assert workflow[0..] == workflow;
    run := RestIsARun(marked, k, workflow, trouble, now);
    assert Db(Final(marked, run).tables, Final(marked, run).requests)
           == Execute(Db(s.tables, s.requests), workflow, id, trouble, now).db by {
      ExecutedFromMarked(SetTask(s, k, Running(id, 0, {})), k, id, workflow, trouble, now, Final(marked, run).cleared);
    }
    run := Before(begun, Mark(k), run);
    run := Before(s, BeginRun(k, id), run);
  }
}
