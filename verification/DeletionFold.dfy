/** What a deletion request holds, and which verifications of it are accepted, told by the actions of the run
    alone. */
module DeletionFold {
  import opened Wrappers
  import opened DataDeletion
  import opened DeletionRuns

  // ---------------------------------------------------- requests by the run

  /** The action that created the request. */
  function Creation(run: seq<Action>, id: Id): Option<Action> {
    if run == [] then None
    else
      var last := run[|run| - 1];
      if last.NewRequest? && last.id == id then Some(last) else Creation(run[..|run| - 1], id)
  }

  /** The request that a call works on, and the status that this had when the call began. */
  datatype Origin = Origin(req: Id, had: Status)

  function OriginOf(run: seq<Action>, k: TaskId): Option<Origin>
    decreases |run|, 0
  {
    if run == [] then None
    else
      var before, last := run[..|run| - 1], run[|run| - 1];
      if (last.BeginRun? || last.BeginVerify?) && last.task == k then
        var r := Told(before, last.id);
        if r.Some? then Some(Origin(last.id, r.value.status)) else None
      else OriginOf(before, k)
  }

  predicate WorksOn(run: seq<Action>, k: TaskId, id: Id)
    decreases |run|, 1
  {
    OriginOf(run, k).Some? && OriginOf(run, k).value.req == id
  }

  /** A status is written only if it differs from the one loaded at the call's begin. */
  function Told(run: seq<Action>, id: Id): Option<Request>
    decreases |run|, 2
  {
    if run == [] then None
    else
      var before, last := run[..|run| - 1], run[|run| - 1];
      var r := Told(before, id);
      if last.NewRequest? && last.id == id then
        Some(Request(last.principal, last.fiduciary, Pending, last.code, None, None))
      else if r.Some? && last.Mark? && WorksOn(before, last.task, id) then
        if OriginOf(before, last.task).value.had == InProgress then r else Some(r.value.(status := InProgress))
      else if r.Some? && last.Complete? && WorksOn(before, last.task, id) then
        Some(r.value.(status := Completed, completedAt := Some(last.now)))
      else if r.Some? && last.GiveUp? && WorksOn(before, last.task, id) then Some(r.value.(status := Failed))
      else if r.Some? && last.SetVerified? && WorksOn(before, last.task, id) then
        var status := if OriginOf(before, last.task).value.had == VerificationInProgress then r.value.status
                      else VerificationInProgress;
        Some(r.value.(status := status, scheduledAt := Some(last.now + 86400)))
      else r
  }

  // ------------------------------------------------------------ what is kept

  ghost predicate RowIsTold(s: System, run: seq<Action>, id: Id) {
    if id in s.requests then Told(run, id) == Some(s.requests[id]) else Told(run, id) == None
  }

  ghost predicate TaskIsTold(s: System, run: seq<Action>, k: TaskId) {
    k in s.tasks ==>
      var t := s.tasks[k];
      && t.req in s.requests && WorksOn(run, k, t.req)
      && (t.Loaded? || t.Checked? ==> t.had == OriginOf(run, k).value.had)
  }

  ghost predicate IsTold(s: System, run: seq<Action>) {
    (forall id :: RowIsTold(s, run, id)) && (forall k :: TaskIsTold(s, run, k))
  }

  lemma StepKeepsRowTold(s: System, run: seq<Action>, a: Action, id: Id)
    requires IsTold(s, run) && Enabled(s, a)
    ensures RowIsTold(DeletionRuns.Step(s, a), run + [a], id)
  {
    assert (run + [a])[..|run|] == run && RowIsTold(s, run, id);
    if a.Mark? || a.Complete? || a.GiveUp? || a.SetVerified? {
      assert TaskIsTold(s, run, a.task);
    }
  }

  lemma StepKeepsTaskTold(s: System, run: seq<Action>, a: Action, k: TaskId)
    requires IsTold(s, run) && Enabled(s, a)
    ensures TaskIsTold(DeletionRuns.Step(s, a), run + [a], k)
  {
    assert (run + [a])[..|run|] == run && TaskIsTold(s, run, k);
    if a.BeginRun? || a.BeginVerify? {
      assert RowIsTold(s, run, a.id);
    }
  }

  /** In every run a request holds what the actions so far wrote to it. */
  lemma {:induction false} RequestsAreTold(t: Tables, run: seq<Action>)
    requires Legal(Start(t), run)
    ensures IsTold(Final(Start(t), run), run)
    decreases |run|
  {
    if run != [] {
      var before, last := run[..|run| - 1], run[|run| - 1];
      LastStepOfRun(Start(t), run);
      RequestsAreTold(t, before);
      OneMoreStep(Start(t), before, last);
      var s := Final(Start(t), before);
      assert before + [last] == run;
      forall id
        ensures RowIsTold(DeletionRuns.Step(s, last), run, id)
      {
        StepKeepsRowTold(s, before, last, id);
      }
      forall k
        ensures TaskIsTold(DeletionRuns.Step(s, last), run, k)
      {
        StepKeepsTaskTold(s, before, last, k);
      }
    }
  }

  /** The parties and the code are those of the action that created the request. */
  lemma {:induction false} ToldByCreation(run: seq<Action>, id: Id)
    ensures Told(run, id).Some? <==> Creation(run, id).Some?
    ensures Told(run, id).Some? ==>
              var r, made := Told(run, id).value, Creation(run, id).value;
              made.NewRequest?
              && r.principal == made.principal && r.fiduciary == made.fiduciary && r.code == made.code
  {
    if run != [] {
      ToldByCreation(run[..|run| - 1], id);
    }
  }

  // --------------------------------------------------- accepted verifications

  /** The code is the one that the request was created with, there is one, and the request stands neither
      completed nor rejected. */
  predicate RightCode(run: seq<Action>, id: Id, code: string) {
    var made, r := Creation(run, id), Told(run, id);
    && made.Some? && made.value.NewRequest? && made.value.code == code && code != ""
    && r.Some? && r.value.status != Completed && r.value.status != Rejected
  }

  /** In every run a verification is accepted if and only if its code is right.  Otherwise nothing changes.  An
      accepted one that nothing comes between sets VERIFICATION_IN_PROGRESS and a date 24 hours on, and changes
      nothing else; as one call it does the same. */
  lemma VerificationAcceptedExactly(t: Tables, run: seq<Action>, k: TaskId, id: Id, code: string, now: int)
    requires Legal(Start(t), run) && k !in Final(Start(t), run).tasks
    ensures var s := Final(Start(t), run);
            var db, begun := Db(s.tables, s.requests), DeletionRuns.Step(s, BeginVerify(k, id, code));
            && (CodeAccepted(db, id, code) <==> RightCode(run, id, code))
            && (k in begun.tasks <==> RightCode(run, id, code))
            && if RightCode(run, id, code) then
                 var r := Told(run, id).value.(status := VerificationInProgress, scheduledAt := Some(now + 86400));
                 && begun == s.(tasks := begun.tasks) && Enabled(begun, SetVerified(k, now))
                 && DeletionRuns.Step(begun, SetVerified(k, now)) == s.(requests := s.requests[id := r])
                 && VerifyRequest(db, id, code, now) == db.(requests := db.requests[id := r])
               else begun == s && VerifyRequest(db, id, code, now) == db
  {
    var s := Final(Start(t), run);
    RequestsAreTold(t, run);
    assert RowIsTold(s, run, id);
    ToldByCreation(run, id);
    if RightCode(run, id, code) {
      assert DeletionRuns.Step(s, BeginVerify(k, id, code)).tasks - {k} == s.tasks;
    }
  }

  /** An earlier verification of the request was begun with the code that this was created with. */
  predicate CodeWasGiven(run: seq<Action>, id: Id) {
    exists j :: 0 <= j < |run| && GivesCode(run, j, id)
  }

  predicate GivesCode(run: seq<Action>, j: nat, id: Id)
    requires j < |run|
  {
    run[j].BeginVerify? && run[j].id == id && RightCode(run[..j], id, run[j].code)
  }

  ghost predicate ScheduledByCode(s: System, run: seq<Action>) {
    && (forall k :: k in s.tasks && s.tasks[k].Checked? ==> CodeWasGiven(run, s.tasks[k].req))
    && (forall id :: id in s.requests && s.requests[id].scheduledAt.Some? ==> CodeWasGiven(run, id))
  }

  lemma GivenStays(run: seq<Action>, a: Action, id: Id)
    requires CodeWasGiven(run, id)
    ensures CodeWasGiven(run + [a], id)
  {
    var j: nat :| j < |run| && GivesCode(run, j, id);
    assert (run + [a])[..j] == run[..j];
    assert GivesCode(run + [a], j, id);
  }

  lemma AcceptedCodeIsGiven(t: Tables, run: seq<Action>, a: Action)
    requires Legal(Start(t), run) && Enabled(Final(Start(t), run), a) && a.BeginVerify?
    requires a.task in DeletionRuns.Step(Final(Start(t), run), a).tasks
    ensures CodeWasGiven(run + [a], a.id)
  {
    VerificationAcceptedExactly(t, run, a.task, a.id, a.code, 0);
    assert (run + [a])[..|run|] == run;
    assert GivesCode(run + [a], |run|, a.id);
  }

  lemma StepKeepsScheduled(s: System, run: seq<Action>, a: Action)
    requires Enabled(s, a) && ScheduledByCode(s, run)
    requires a.BeginVerify? && a.task in DeletionRuns.Step(s, a).tasks ==> CodeWasGiven(run + [a], a.id)
    ensures ScheduledByCode(DeletionRuns.Step(s, a), run + [a])
  {
    forall id | CodeWasGiven(run, id)
      ensures CodeWasGiven(run + [a], id)
    {
      GivenStays(run, a, id);
    }
  }

  /** In every run only a request whose code was given is ever scheduled for deletion. */
  lemma {:induction false} ScheduledOnlyByCode(t: Tables, run: seq<Action>)
    requires Legal(Start(t), run)
    ensures ScheduledByCode(Final(Start(t), run), run)
    decreases |run|
  {
    if run != [] {
      var before, last := run[..|run| - 1], run[|run| - 1];
      LastStepOfRun(Start(t), run);
      ScheduledOnlyByCode(t, before);
      OneMoreStep(Start(t), before, last);
      assert before + [last] == run;
      if last.BeginVerify? && last.task in DeletionRuns.Step(Final(Start(t), before), last).tasks {
        AcceptedCodeIsGiven(t, before, last);
      }
      StepKeepsScheduled(Final(Start(t), before), before, last);
    }
  }
}
