/** Data deletion: the relational delete for one principal and fiduciary, and the nine-step workflow
    that carries a deletion request to its end, run without interruption. */
module DataDeletion {
  import opened Wrappers

  type Id = nat
  type PartyId = nat

  datatype Consent = Consent(principal: PartyId, fiduciary: PartyId)

  datatype AuditRow = AuditRow(principal: Option<PartyId>, fiduciary: Option<PartyId>)

  /** The tables by row id; an event row holds the id of its consent. */
  datatype Tables = Tables(
    principals: set<PartyId>,
    consents: map<Id, Consent>,
    events: map<Id, Id>,
    audit: map<Id, AuditRow>)

  datatype Status =
    | Pending | VerificationInProgress | Scheduled | InProgress | Completed | Failed | Rejected

  datatype Request = Request(
    principal: PartyId,
    fiduciary: PartyId,
    status: Status,
    code: string,
    scheduledAt: Option<int>,
    completedAt: Option<int>)

  datatype Db = Db(tables: Tables, requests: map<Id, Request>)

  const HOURS_24 := 86400

  // ------------------------------------------------------ the relational delete

  predicate OfPair(c: Consent, p: PartyId, f: PartyId) {
    c.principal == p && c.fiduciary == f
  }

  function PairConsents(consents: map<Id, Consent>, p: PartyId, f: PartyId): set<Id> {
    set id | id in consents && OfPair(consents[id], p, f)
  }

  /** The rows that outlive the deletion for one pair. */
  function Purged(t: Tables, p: PartyId, f: PartyId): Tables {
    t.(consents := OtherConsents(t.consents, p, f),
       events := EventsWithout(t.events, PairConsents(t.consents, p, f)),
       audit := OtherAuditRows(t.audit, p, f))
  }

  function OtherConsents(consents: map<Id, Consent>, p: PartyId, f: PartyId): map<Id, Consent> {
    map id | id in consents && !OfPair(consents[id], p, f) :: consents[id]
  }

  function OtherAuditRows(audit: map<Id, AuditRow>, p: PartyId, f: PartyId): map<Id, AuditRow> {
    map id | id in audit && audit[id] != AuditRow(Some(p), Some(f)) :: audit[id]
  }

  function EventsWithout(events: map<Id, Id>, consents: set<Id>): map<Id, Id> {
    map e | e in events && events[e] !in consents :: events[e]
  }

  ghost predicate EventsHaveConsents(t: Tables) {
    forall e :: e in t.events ==> t.events[e] in t.consents
  }

  ghost predicate NothingLeft(t: Tables, p: PartyId, f: PartyId) {
    && PairConsents(t.consents, p, f) == {}
    && (forall e :: e in t.events && t.events[e] in t.consents ==> !OfPair(t.consents[t.events[e]], p, f))
    && (forall a :: a in t.audit ==> t.audit[a] != AuditRow(Some(p), Some(f)))
  }

  /** The deletion leaves no consent, attached event or audit row of the pair, keeps every other row as it
      is, and keeps every event attached to a consent. */
  lemma PurgeIsExact(t: Tables, p: PartyId, f: PartyId)
    requires EventsHaveConsents(t)
    ensures var t' := Purged(t, p, f);
            && NothingLeft(t', p, f)
            && EventsHaveConsents(t')
            && (forall id :: id in t'.consents <==> id in t.consents && !OfPair(t.consents[id], p, f))
            && (forall id :: id in t'.consents ==> t'.consents[id] == t.consents[id])
            && (forall e :: e in t'.events <==> e in t.events && !OfPair(t.consents[t.events[e]], p, f))
            && (forall e :: e in t'.events ==> t'.events[e] == t.events[e])
            && (forall a :: a in t'.audit <==>
                  a in t.audit && !(t.audit[a].principal == Some(p) && t.audit[a].fiduciary == Some(f)))
            && (forall a :: a in t'.audit ==> t'.audit[a] == t.audit[a])
            && t'.principals == t.principals
  {
    assert forall id :: id in PairConsents(t.consents, p, f) <==> id in t.consents && OfPair(t.consents[id], p, f);
  }

  // --------------------------------------------------- a delete that breaks off

  /** How far the deletes came that a failing delete step leaves behind, as the request's failure is
      committed in the same session: the events of some of the pair's consents, all of them and the
      consents, or everything.  A database that rolls the statements back leaves the first, with no
      consent. */
  datatype Reach = SomeEvents(consents: set<Id>) | EventsAndConsents | Everything

  function PartlyPurged(t: Tables, p: PartyId, f: PartyId, reach: Reach): Tables {
    match reach
    case SomeEvents(ids) => t.(events := EventsWithout(t.events, PairConsents(t.consents, p, f) * ids))
    case EventsAndConsents => Purged(t, p, f).(audit := t.audit)
    case Everything => Purged(t, p, f)
  }

  /** However far it came, it took rows of the pair only, every event still has its consent, and a later
      untroubled delete leaves what a single untroubled one would have left. */
  lemma PartialDeleteIsRecoverable(t: Tables, p: PartyId, f: PartyId, reach: Reach)
    requires EventsHaveConsents(t)
    ensures var t' := PartlyPurged(t, p, f, reach);
            && EventsHaveConsents(t')
            && Purged(t', p, f) == Purged(t, p, f)
            && t'.principals == t.principals
            && (forall id :: id in Purged(t, p, f).consents ==> id in t'.consents)
            && (forall id :: id in t'.consents ==> id in t.consents && t'.consents[id] == t.consents[id])
            && (forall e :: e in Purged(t, p, f).events ==> e in t'.events)
            && (forall e :: e in t'.events ==> e in t.events && t'.events[e] == t.events[e])
            && (forall a :: a in Purged(t, p, f).audit ==> a in t'.audit)
            && (forall a :: a in t'.audit ==> a in t.audit && t'.audit[a] == t.audit[a])
  {
    var t' := PartlyPurged(t, p, f, reach);
    assert OtherConsents(t'.consents, p, f) == OtherConsents(t.consents, p, f);
    assert OtherAuditRows(t'.audit, p, f) == OtherAuditRows(t.audit, p, f);
    assert EventsWithout(t'.events, PairConsents(t'.consents, p, f))
           == EventsWithout(t.events, PairConsents(t.consents, p, f));
  }

  // ------------------------------------------------------------- the workflow

  datatype Step =
    | VerifyIdentity | CheckActiveConsents | CheckLegalHolds | BackupData | DeleteDatabaseRecords
    | RecordOnChainDeletion | ClearCaches | NotifyThirdParties | GenerateCertificate

  const WORKFLOW: seq<Step> := [
    VerifyIdentity, CheckActiveConsents, CheckLegalHolds, BackupData, DeleteDatabaseRecords,
    RecordOnChainDeletion, ClearCaches, NotifyThirdParties, GenerateCertificate]

  datatype StepReport = StepReport(step: Step, completed: bool)

  datatype Response = Response(success: bool, status: Status, steps: seq<StepReport>)

  /** Which steps raise, how far the delete step came if it is one of them, and whether what raised was a
      database error that aborts the transaction. */
  datatype Trouble = Trouble(raises: set<Step>, reach: Reach, aborts: bool)

  /** What is committed of a failing delete step: nothing if the transaction was aborted. */
  function Kept(trouble: Trouble): Reach {
    if trouble.aborts then SomeEvents({}) else trouble.reach
  }

  lemma AbortedDeleteKeepsTables(t: Tables, p: PartyId, f: PartyId)
    ensures PartlyPurged(t, p, f, SomeEvents({})) == t
  {
    assert EventsWithout(t.events, PairConsents(t.consents, p, f) * {}) == t.events;
  }

  /** A step fails when what it calls raises, or when the identity step finds no principal. */
  predicate Fails(t: Tables, r: Request, trouble: Trouble, step: Step) {
    step in trouble.raises || (step == VerifyIdentity && r.principal !in t.principals)
  }

  /** How many of the steps to do succeed before the first failure. */
  function Succeeding(t: Tables, r: Request, trouble: Trouble, todo: seq<Step>): (n: nat)
    ensures n <= |todo|
    decreases |todo|
  {
    if todo == [] || Fails(t, r, trouble, todo[0]) then 0 else 1 + Succeeding(t, r, trouble, todo[1..])
  }

  /** One report for each step done, and one for the step that failed. */
  function Reports(workflow: seq<Step>, done: nat): seq<StepReport>
    requires done <= |workflow|
  {
    seq(done, i requires 0 <= i < done => StepReport(workflow[i], true))
    + (if done < |workflow| then [StepReport(workflow[done], false)] else [])
  }

  /** A report for every step up to the first failure, in order, and only that one is not completed. */
  lemma ReportsTellTheFailure(workflow: seq<Step>, done: nat)
    requires done <= |workflow|
    ensures var steps := Reports(workflow, done);
            && |steps| == (if done == |workflow| then done else done + 1)
            && forall i :: 0 <= i < |steps| ==> steps[i].step == workflow[i] && (steps[i].completed <==> i < done)
  {
    var steps := Reports(workflow, done);
    forall i | 0 <= i < |steps|
      ensures steps[i] == StepReport(workflow[i], i < done)
    {
    }
  }

  /** No response stands for an exception. */
  datatype Executed = Executed(db: Db, response: Option<Response>)

  predicate Succeeds(e: Executed) {
    e.response.Some? && e.response.value.success
  }

  function SetRequest(db: Db, id: Id, r: Request): Db {
    db.(requests := db.requests[id := r])
  }

  /** What one step does to the tables. */
  function StepTables(t: Tables, r: Request, step: Step, ok: bool, reach: Reach): Tables {
    if step != DeleteDatabaseRecords then t
    else if ok then Purged(t, r.principal, r.fiduciary)
    else PartlyPurged(t, r.principal, r.fiduciary, reach)
  }

  /** What steps that succeeded do. */
  function Succeeded(t: Tables, r: Request, done: seq<Step>): Tables {
    if DeleteDatabaseRecords in done then Purged(t, r.principal, r.fiduciary) else t
  }

  /** What the steps do that succeeded, and the one after them, which failed. */
  function TablesAfter(t: Tables, r: Request, workflow: seq<Step>, done: nat, reach: Reach): Tables
    requires done <= |workflow|
  {
    var t' := Succeeded(t, r, workflow[..done]);
    if done < |workflow| then StepTables(t', r, workflow[done], false, reach) else t'
  }

  /** After a step that aborted the transaction the commit of FAILED raises too: the request stays
      IN_PROGRESS and there is no response. */
  function Execute(db: Db, workflow: seq<Step>, id: Id, trouble: Trouble, now: int): Executed {
    if id !in db.requests then Executed(db, Some(Response(false, Failed, [])))
    else if db.requests[id].status == Completed then Executed(db, Some(Response(false, Completed, [])))
    else
      var r := db.requests[id];
      var done := Succeeding(db.tables, r, trouble, workflow);
      var deleted := db.(tables := TablesAfter(db.tables, r, workflow, done, Kept(trouble)));
      if done == |workflow| then
        Executed(SetRequest(deleted, id, r.(status := Completed, completedAt := Some(now))),
                 Some(Response(true, Completed, Reports(workflow, done))))
      else if trouble.aborts then Executed(SetRequest(deleted, id, r.(status := InProgress)), None)
      else
        Executed(SetRequest(deleted, id, r.(status := Failed)), Some(Response(false, Failed, Reports(workflow, done))))
  }

  predicate CodeAccepted(db: Db, id: Id, code: string) {
    && id in db.requests && db.requests[id].code != "" && db.requests[id].code == code
    && db.requests[id].status != Completed && db.requests[id].status != Rejected
  }

  function VerifyRequest(db: Db, id: Id, code: string, now: int): Db {
    if !CodeAccepted(db, id, code) then db
    else
      db.(requests := db.requests[id := db.requests[id].(status := VerificationInProgress,
                                                         scheduledAt := Some(now + HOURS_24))])
  }

  function CreateRequest(db: Db, id: Id, p: PartyId, f: PartyId, code: string): Db {
    if id in db.requests then db
    else db.(requests := db.requests[id := Request(p, f, Pending, code, None, None)])
  }

  // ------------------------------------------------------------ the class

  class DeletionOrchestrator {
    const workflow: seq<Step>
    const principals: set<PartyId>
    var consents: map<Id, Consent>
    var events: map<Id, Id>
    var audit: map<Id, AuditRow>
    var requests: map<Id, Request>

    constructor (t: Tables)
      ensures View() == Db(t, map[])
      ensures workflow == [VerifyIdentity, CheckActiveConsents, CheckLegalHolds, BackupData, DeleteDatabaseRecords,
                           RecordOnChainDeletion, ClearCaches, NotifyThirdParties, GenerateCertificate]
    {
      workflow := WORKFLOW;
      principals, consents, events, audit, requests := t.principals, t.consents, t.events, t.audit, map[];
    }

    ghost function View(): Db
      reads this
    {
      Db(Tables(principals, consents, events, audit), requests)
    }

    /** The loop over the pair's consents, deleting the events of each. */
    method DeleteEventsOf(selected: set<Id>) returns (recordsDeleted: nat)
      modifies this`events
      ensures events == EventsWithout(old(events), selected) && recordsDeleted == |selected|
    {
      ghost var before := events;
      var visited: set<Id> := {};
      recordsDeleted := 0;
      assert events == EventsWithout(before, {});
      while selected - visited != {}
        invariant visited <= selected && recordsDeleted == |visited|
        invariant events == EventsWithout(before, visited)
        decreases selected - visited
      {
        var consent :| consent in selected - visited;
        events := map e | e in events && events[e] != consent :: events[e];
        recordsDeleted := recordsDeleted + 1;
        visited := visited + {consent};
      }
      assert visited == selected;
    }

    method DeleteRecords(p: PartyId, f: PartyId) returns (recordsDeleted: nat)
      modifies this`consents, this`events, this`audit
      ensures View() == old(View()).(tables := Purged(old(View()).tables, p, f))
      ensures recordsDeleted == |PairConsents(old(consents), p, f)|
    {
      var selected := set id | id in consents && consents[id].principal == p && consents[id].fiduciary == f;
      assert selected == PairConsents(consents, p, f);
      recordsDeleted := DeleteEventsOf(selected);
      consents := map id | id in consents && !(consents[id].principal == p && consents[id].fiduciary == f)
                    :: consents[id];
      assert consents == OtherConsents(old(consents), p, f);
      audit := map id | id in audit && !(audit[id].principal == Some(p) && audit[id].fiduciary == Some(f))
                 :: audit[id];
      assert audit == OtherAuditRows(old(audit), p, f);
    }

    /** The deletes as far as they came before one of them raised. */
    method DeleteRecordsPartly(p: PartyId, f: PartyId, reach: Reach)
      modifies this`consents, this`events, this`audit
      ensures View() == old(View()).(tables := PartlyPurged(old(View()).tables, p, f, reach))
    {
      var selected := set id | id in consents && consents[id].principal == p && consents[id].fiduciary == f;
      assert selected == PairConsents(consents, p, f);
      if reach.SomeEvents? {
        var _ := DeleteEventsOf(selected * reach.consents);
        return;
      }
      ghost var auditBefore := audit;
      var _ := DeleteEventsOf(selected);
      consents := map id | id in consents && !(consents[id].principal == p && consents[id].fiduciary == f)
                    :: consents[id];
      assert consents == OtherConsents(old(consents), p, f);
      if reach.Everything? {
        audit := map id | id in audit && !(audit[id].principal == Some(p) && audit[id].fiduciary == Some(f))
                   :: audit[id];
        assert audit == OtherAuditRows(auditBefore, p, f);
      }
    }

    method CreateDeletionRequest(id: Id, p: PartyId, f: PartyId, code: string)
      requires id !in requests
      modifies this`requests
      ensures View() == CreateRequest(old(View()), id, p, f, code)
      ensures requests == old(requests)[id := Request(p, f, Pending, code, None, None)]
    {
      requests := requests[id := Request(p, f, Pending, code, None, None)];
    }

    method VerifyDeletionRequest(id: Id, code: string, now: int) returns (ok: bool)
      modifies this`requests
      ensures View() == VerifyRequest(old(View()), id, code, now)
      ensures ok <==> id in old(requests) && old(requests)[id].code == code && code != ""
                      && old(requests)[id].status !in {Completed, Rejected}
      ensures requests == if !ok then old(requests) else
                old(requests)[id := old(requests)[id].(status := VerificationInProgress,
                                                       scheduledAt := Some(now + 86400))]
    {
      if id !in requests {
        return false;
      }
      var r := requests[id];
      if r.code == "" {
        return false;
      }
      if r.code != code {
        return false;
      }
      if r.status == Completed || r.status == Rejected {
        return false;
      }
      r := r.(status := VerificationInProgress);
      r := r.(scheduledAt := Some(now + HOURS_24));
      requests := requests[id := r];
      ok := true;
    }

    /** `getattr(executor, step_name)()`: false stands for an exception. */
    method RunStep(step: Step, request: Request, trouble: Trouble) returns (ok: bool)
      modifies this`consents, this`events, this`audit
      ensures ok <==> !Fails(old(View()).tables, request, trouble, step)
      ensures View().tables == StepTables(old(View()).tables, request, step, ok, Kept(trouble))
    {
      if step == DeleteDatabaseRecords {
        if step in trouble.raises {
          DeleteRecordsPartly(request.principal, request.fiduciary, Kept(trouble));
          return false;
        }
        var _ := DeleteRecords(request.principal, request.fiduciary);
        return true;
      }
      if step in trouble.raises {
        return false;
      }
      if step == VerifyIdentity && request.principal !in principals {
        return false;
      }
      ok := true;
    }

    method ExecuteDeletionFull(id: Id, trouble: Trouble, now: int) returns (response: Option<Response>)
      modifies this`consents, this`events, this`audit, this`requests
      ensures Executed(View(), response) == Execute(old(View()), workflow, id, trouble, now)
    {
      if id !in requests {
        return Some(Response(false, Failed, []));
      }
      if requests[id].status == Completed {
        return Some(Response(false, Completed, []));
      }
      var request := requests[id];
      requests := requests[id := request.(status := InProgress)];
      var done, steps := RunWorkflow(request, trouble);
      if done < |workflow| {
        if trouble.aborts {
          return None;
        }
        requests := requests[id := request.(status := Failed)];
        return Some(Response(false, Failed, steps));
      }
      requests := requests[id := request.(status := Completed, completedAt := Some(now))];
      response := Some(Response(true, Completed, steps));
    }

    /** The step loop, up to its end or the first failure. */
    method RunWorkflow(request: Request, trouble: Trouble) returns (done: nat, steps: seq<StepReport>)
      modifies this`consents, this`events, this`audit
      ensures done == Succeeding(old(View()).tables, request, trouble, workflow)
      ensures steps == Reports(workflow, done)
      ensures View().tables == TablesAfter(old(View()).tables, request, workflow, done, Kept(trouble))
    {
      ghost var t := View().tables;
      steps := [];
      done := 0;
      while done < |workflow|
        invariant done <= |workflow| && principals == t.principals
        invariant View().tables == Succeeded(t, request, workflow[..done])
        invariant |steps| == done && forall i :: 0 <= i < done ==> steps[i] == StepReport(workflow[i], true)
        invariant Succeeding(t, request, trouble, workflow) == done + Succeeding(t, request, trouble, workflow[done..])
      {
        var step := workflow[done];
        assert workflow[done..][0] == step && workflow[done..][1..] == workflow[done + 1..];
        var ok := RunStep(step, request, trouble);
        steps := steps + [StepReport(step, ok)];
        if !ok {
          return;
        }
        PurgeTwice(t, request.principal, request.fiduciary);
        assert workflow[..done + 1] == workflow[..done] + [step];
        done := done + 1;
      }
    }
  }

  lemma PurgeTwice(t: Tables, p: PartyId, f: PartyId)
    ensures Purged(Purged(t, p, f), p, f) == Purged(t, p, f)
  {
    assert OtherConsents(OtherConsents(t.consents, p, f), p, f) == OtherConsents(t.consents, p, f);
    assert PairConsents(OtherConsents(t.consents, p, f), p, f) == {};
  }

  // ----------------------------------------------- when the workflow completes

  /** Nothing runs for a request that is unknown or already completed: no change, no report, and a response that
      tells which of the two it is.  For any other one the first step is reported, unless an aborted
      transaction leaves no response. */
  lemma RunsNothingExactlyWhenUnknownOrCompleted(db: Db, workflow: seq<Step>, id: Id, trouble: Trouble, now: int)
    requires workflow != []
    ensures var e := Execute(db, workflow, id, trouble, now);
            if id !in db.requests then e == Executed(db, Some(Response(false, Failed, [])))
            else if db.requests[id].status == Completed then e == Executed(db, Some(Response(false, Completed, [])))
            else if e.response.None? then trouble.aborts && e.db.requests[id].status == InProgress
            else e.response.value.steps != [] && e.response.value.steps[0].step == workflow[0]
  {
    if id in db.requests {
      var done := Succeeding(db.tables, db.requests[id], trouble, workflow);
      assert Reports(workflow, done) != [] && Reports(workflow, done)[0].step == workflow[0];
    }
  }

  lemma {:induction false} SucceedingStopsAtFirstFailure(t: Tables, r: Request, trouble: Trouble, todo: seq<Step>)
    ensures var n := Succeeding(t, r, trouble, todo);
            && (forall i :: 0 <= i < n ==> !Fails(t, r, trouble, todo[i]))
            && (n < |todo| ==> Fails(t, r, trouble, todo[n]))
    decreases |todo|
  {
    if todo != [] && !Fails(t, r, trouble, todo[0]) {
      SucceedingStopsAtFirstFailure(t, r, trouble, todo[1..]);
      var n := Succeeding(t, r, trouble, todo[1..]);
      forall i | 0 <= i < n + 1
        ensures !Fails(t, r, trouble, todo[i])
      {
        assert i > 0 ==> todo[i] == todo[1..][i - 1];
      }
    }
  }

  lemma FifthStepDeletes(k: nat)
    requires k <= |WORKFLOW|
    ensures DeleteDatabaseRecords in WORKFLOW[..k] <==> k > 4
  {
    assert WORKFLOW[4] == DeleteDatabaseRecords;
    assert k > 4 ==> WORKFLOW[..k][4] == DeleteDatabaseRecords;
    assert forall i :: 0 <= i < 4 ==> WORKFLOW[i] != DeleteDatabaseRecords;
  }

  lemma WorkflowHasEveryStep(step: Step)
    ensures step in WORKFLOW
  {
    assert WORKFLOW[0] == VerifyIdentity && WORKFLOW[1] == CheckActiveConsents && WORKFLOW[2] == CheckLegalHolds;
    assert WORKFLOW[3] == BackupData && WORKFLOW[4] == DeleteDatabaseRecords && WORKFLOW[5] == RecordOnChainDeletion;
    assert WORKFLOW[6] == ClearCaches && WORKFLOW[7] == NotifyThirdParties && WORKFLOW[8] == GenerateCertificate;
  }

  /** A workflow that holds every step succeeds throughout exactly if no step fails. */
  lemma AllStepsSucceed(t: Tables, r: Request, trouble: Trouble, todo: seq<Step>)
    requires forall step :: step in todo
    ensures Succeeding(t, r, trouble, todo) == |todo| <==> trouble.raises == {} && r.principal in t.principals
  {
    SucceedingStopsAtFirstFailure(t, r, trouble, todo);
    var n := Succeeding(t, r, trouble, todo);
    if n == |todo| {
      forall step | step in todo
        ensures !Fails(t, r, trouble, step)
      {
        var i :| 0 <= i < |todo| && todo[i] == step;
      }
      assert VerifyIdentity in todo && !Fails(t, r, trouble, VerifyIdentity);
      assert forall step :: step in trouble.raises ==> step in todo;
    }
  }

  /** An execution completes the request exactly when none of the nine steps fails; it then has run all
      nine in order and left nothing of the pair. */
  lemma {:induction false} CompletesExactlyWhenAllStepsSucceed(db: Db, id: Id, trouble: Trouble, now: int)
    requires id in db.requests && db.requests[id].status != Completed && EventsHaveConsents(db.tables)
    ensures var r, done := db.requests[id], Execute(db, WORKFLOW, id, trouble, now);
            && (Succeeds(done) <==> trouble.raises == {} && r.principal in db.tables.principals)
            && (Succeeds(done) <==> done.db.requests[id].status == Completed)
            && (Succeeds(done) ==>
                  && NothingLeft(done.db.tables, r.principal, r.fiduciary)
                  && done.response.value.steps == Reports(WORKFLOW, |WORKFLOW|))
  {
    var r := db.requests[id];
    forall step
      ensures step in WORKFLOW
    {
      WorkflowHasEveryStep(step);
    }
    AllStepsSucceed(db.tables, r, trouble, WORKFLOW);
    PurgeIsExact(db.tables, r.principal, r.fiduciary);
    FifthStepDeletes(Succeeding(db.tables, r, trouble, WORKFLOW));
  }

  /** What is left of the pair when the step at position k is the first to fail. */
  function TablesAtFailure(t: Tables, r: Request, k: nat, trouble: Trouble): Tables {
    if k < 4 || (k == 4 && trouble.aborts) then t
    else if k == 4 then PartlyPurged(t, r.principal, r.fiduciary, trouble.reach)
    else Purged(t, r.principal, r.fiduciary)
  }

  /** An execution that fails runs nothing after the failing step.  The pair's rows are all there before the
      delete step, and gone after it.  It reports the steps that succeeded and the failing one and leaves the
      request FAILED, unless the failure aborted the transaction: then the request stays IN_PROGRESS. */
  lemma {:induction false} FailureRunsNothingLater(db: Db, id: Id, trouble: Trouble, now: int)
    requires id in db.requests && db.requests[id].status != Completed
    requires !Succeeds(Execute(db, WORKFLOW, id, trouble, now))
    ensures var r, after := db.requests[id], Execute(db, WORKFLOW, id, trouble, now);
            var k := Succeeding(db.tables, r, trouble, WORKFLOW);
            && k < |WORKFLOW| && Fails(db.tables, r, trouble, WORKFLOW[k])
            && (forall i :: 0 <= i < k ==> !Fails(db.tables, r, trouble, WORKFLOW[i]))
            && after.db.tables == TablesAtFailure(db.tables, r, k, trouble)
            && after.db.requests[id] == r.(status := if trouble.aborts then InProgress else Failed)
            && after.response == if trouble.aborts then None else Some(Response(false, Failed, Reports(WORKFLOW, k)))
  {
    var r := db.requests[id];
    SucceedingStopsAtFirstFailure(db.tables, r, trouble, WORKFLOW);
    FifthStepDeletes(Succeeding(db.tables, r, trouble, WORKFLOW));
    AbortedDeleteKeepsTables(db.tables, r.principal, r.fiduciary);
  }

  /** The step that clears the caches imports a name that api/main does not define, outside its own try, so it
      always raises: whatever else happens no execution completes, and one that nothing else troubles purges
      the pair and leaves the request FAILED after six steps. */
  lemma {:induction false} NothingCompletesAsWritten(db: Db, id: Id, trouble: Trouble, now: int)
    requires id in db.requests && db.requests[id].status != Completed && EventsHaveConsents(db.tables)
    requires ClearCaches in trouble.raises
    ensures var r, after := db.requests[id], Execute(db, WORKFLOW, id, trouble, now);
            && !Succeeds(after) && after.db.requests[id].status != Completed
            && (r.principal in db.tables.principals && trouble.raises <= {ClearCaches, NotifyThirdParties}
                && !trouble.aborts ==>
                  && after.db.tables == Purged(db.tables, r.principal, r.fiduciary)
                  && after.db.requests[id].status == Failed
                  && after.response == Some(Response(false, Failed, Reports(WORKFLOW, 6))))
  {
    var r := db.requests[id];
    CompletesExactlyWhenAllStepsSucceed(db, id, trouble, now);
    FailureRunsNothingLater(db, id, trouble, now);
    assert WORKFLOW[6] == ClearCaches && WORKFLOW[7] == NotifyThirdParties;
    assert forall i :: 0 <= i < 6 ==> WORKFLOW[i] != ClearCaches && WORKFLOW[i] != NotifyThirdParties;
  }

  /** Verification is not a condition of execution: any request that is not completed, even one never verified
      or rejected, is executed with the same result. */
  lemma {:induction false} ExecutionIgnoresOtherStatuses(db: Db, workflow: seq<Step>, id: Id, other: Status,
                                                         trouble: Trouble, now: int)
    requires id in db.requests && db.requests[id].status != Completed && other != Completed
    ensures var db' := SetRequest(db, id, db.requests[id].(status := other));
            var e, e' := Execute(db, workflow, id, trouble, now), Execute(db', workflow, id, trouble, now);
            && e'.response == e.response && e'.db.tables == e.db.tables
            && e'.db.requests[id].status == e.db.requests[id].status
  {
    SameSteps(db.tables, db.requests[id], db.requests[id].(status := other), trouble, workflow);
  }

  lemma {:induction false} SameSteps(t: Tables, r: Request, r': Request, trouble: Trouble, todo: seq<Step>)
    requires r'.principal == r.principal
    ensures Succeeding(t, r', trouble, todo) == Succeeding(t, r, trouble, todo)
    decreases |todo|
  {
    if todo != [] {
      SameSteps(t, r, r', trouble, todo[1..]);
    }
  }
}
