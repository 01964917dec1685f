/** One consent under overlapping calls.  Revoking, modifying, verifying and sweeping all check the status
    they loaded, suspend, and write later, so any number of them may be between the two. */
module OverlappingCalls {
  import opened Wrappers
  import opened ConsentLifecycle

  type TaskId = nat

  /** A call that passed its check; `had` is the record it loaded, and `rows` only records how many event rows
      there were then. */
  datatype Task =
    | Revoking(had: Consent, rows: nat, txId: string)
    | Modifying(had: Consent, rows: nat, op: Op)
    | Expiring(had: Consent, rows: nat)

  /** The record of consent `id`, its event rows, and the calls in flight. */
  datatype System = System(id: ConsentId, record: Consent, events: seq<Event>, tasks: map<TaskId, Task>)

  datatype Action =
    | BeginRevoke(task: TaskId, txId: string)
    | BeginModify(task: TaskId, op: Op)
    | BeginExpire(task: TaskId, now: int)
    | Commit(task: TaskId, now: int)
    | Vanish(task: TaskId)

  // --------------------------------------------------- what each action does

  function Changed<T(==)>(current: T, had: T, wanted: T): T {
    if had == wanted then current else wanted
  }

  /** Only the columns that differ from what was loaded are written. */
  function WriteChanged(current: Consent, had: Consent, wanted: Consent): Consent {
    current.(purpose := Changed(current.purpose, had.purpose, wanted.purpose),
             dataTypes := Changed(current.dataTypes, had.dataTypes, wanted.dataTypes),
             status := Changed(current.status, had.status, wanted.status),
             expiresAt := Changed(current.expiresAt, had.expiresAt, wanted.expiresAt),
             revokedAt := Changed(current.revokedAt, had.revokedAt, wanted.revokedAt),
             txId := Changed(current.txId, had.txId, wanted.txId),
             hash := Changed(current.hash, had.hash, wanted.hash))
  }

  /** Revocation and modification start unless the loaded status is REVOKED; a verify call expires a loaded
      deadline that passed unless it is REVOKED or EXPIRED, and the sweep only if it is GRANTED. */
  predicate Enabled(s: System, a: Action) {
    match a
    case BeginRevoke(k, _) => k !in s.tasks && s.record.status != Revoked
    case BeginModify(k, op) => k !in s.tasks && s.record.status != Revoked && op.Modify?
    case BeginExpire(k, now) =>
      k !in s.tasks && s.record.status != Revoked && s.record.status != Expired && PastDue(s.record, now)
    case Commit(k, _) => k in s.tasks && (s.tasks[k].Modifying? ==> s.tasks[k].op.Modify?)
    case Vanish(k) => k in s.tasks
  }

  function Wanted(t: Task, now: int): Consent
    requires t.Modifying? ==> t.op.Modify?
  {
    match t
    case Revoking(had, _, txId) => had.(status := Revoked, revokedAt := Some(now), txId := txId)
    case Modifying(had, _, op) => Amended(had, op, now)
    case Expiring(had, _) => had.(status := Expired)
  }

  function EventRow(id: ConsentId, t: Task, now: int): seq<Event> {
    match t
    case Revoking(had, _, _) => [Event(id, ConsentRevoked, Some(had.status), Revoked, now, had.expiresAt)]
    case Modifying(had, _, _) => [Event(id, ConsentModified, Some(had.status), Modified, now, had.expiresAt)]
    case Expiring(_, _) => []
  }

  function Committed(s: System, k: TaskId, now: int): System
    requires Enabled(s, Commit(k, now))
  {
    var t := s.tasks[k];
    System(s.id, WriteChanged(s.record, t.had, Wanted(t, now)), s.events + EventRow(s.id, t, now), s.tasks - {k})
  }

  function Step(s: System, a: Action): System
    requires Enabled(s, a)
  {
    match a
    case BeginRevoke(k, txId) => s.(tasks := s.tasks[k := Revoking(s.record, |s.events|, txId)])
    case BeginModify(k, op) => s.(tasks := s.tasks[k := Modifying(s.record, |s.events|, op)])
    case BeginExpire(k, _) => s.(tasks := s.tasks[k := Expiring(s.record, |s.events|)])
    case Commit(k, now) => Committed(s, k, now)
    case Vanish(k) => s.(tasks := s.tasks - {k})
  }

  predicate Legal(s: System, run: seq<Action>)
    decreases |run|
  {
    run == [] || (Enabled(s, run[0]) && Legal(Step(s, run[0]), run[1..]))
  }

  function Final(s: System, run: seq<Action>): System
    requires Legal(s, run)
    decreases |run|
  {
    if run == [] then s else Final(Step(s, run[0]), run[1..])
  }

  lemma Before(s: System, a: Action, rest: seq<Action>) returns (run: seq<Action>)
    requires Enabled(s, a) && Legal(Step(s, a), rest)
    ensures Legal(s, run) && Final(s, run) == Final(Step(s, a), rest)
  {
    run := [a] + rest;
    assert run[1..] == rest;
  }

  // ------------------------------------------------ calls that do not overlap

  /** A call whose commit directly follows its check does what the atomic call does. */
  lemma UninterruptedCallsAgree(db: Db, id: ConsentId, k: TaskId, op: Op, now: int)
    requires id in db.consents && (op.Revoke? || op.Modify?) && op.id == id
    requires Apply(db, op, now).response == Done
    ensures var s := System(id, db.consents[id], db.events, map[]);
            var begin := if op.Revoke? then BeginRevoke(k, op.chain.value) else BeginModify(k, op);
            && Legal(s, [begin, Commit(k, now)])
            && Final(s, [begin, Commit(k, now)])
               == System(id, Apply(db, op, now).db.consents[id], Apply(db, op, now).db.events, map[])
  {
    var s := System(id, db.consents[id], db.events, map[]);
    var begin := if op.Revoke? then BeginRevoke(k, op.chain.value) else BeginModify(k, op);
    var run := [begin, Commit(k, now)];
    assert run[1..] == [Commit(k, now)] && [Commit(k, now)][1..] == [];
    var begun := Step(s, begin);
    assert begun.tasks - {k} == map[];
    assert Committed(begun, k, now).record == Apply(db, op, now).db.consents[id];
    assert Committed(begun, k, now).events == Apply(db, op, now).db.events;
    assert Final(begun, run[1..]) == Committed(begun, k, now);
  }

  /** A call's check passes exactly when the atomic call at that moment is not refused, or, for a verify call,
      writes; and what a passed expiry then writes is what the atomic one does. */
  lemma ChecksAgree(db: Db, id: ConsentId, k: TaskId, txId: string, op: Op, now: int)
    requires id in db.consents && op.Modify? && op.id == id
    ensures var s := System(id, db.consents[id], db.events, map[]);
            var expired := Apply(db, Verify(id), now).db;
            && (Enabled(s, BeginRevoke(k, txId)) <==> Apply(db, Revoke(id, Some(txId)), now).response == Done)
            && (Enabled(s, BeginModify(k, op)) <==> Apply(db, op, now).response == Done)
            && (Enabled(s, BeginExpire(k, now)) <==> expired != db)
            && (Enabled(s, BeginExpire(k, now)) ==>
                  && Legal(s, [BeginExpire(k, now), Commit(k, now)])
                  && Final(s, [BeginExpire(k, now), Commit(k, now)])
                     == System(id, expired.consents[id], expired.events, map[]))
  {
    var s := System(id, db.consents[id], db.events, map[]);
    var begin := BeginExpire(k, now);
    var run, expired := [begin, Commit(k, now)], Apply(db, Verify(id), now).db;
    if Enabled(s, begin) {
      assert run[1..] == [Commit(k, now)] && [Commit(k, now)][1..] == [];
      var begun := Step(s, begin);
      assert begun.tasks - {k} == map[];
      assert Committed(begun, k, now) == System(id, expired.consents[id], expired.events, map[]);
      assert Final(begun, run[1..]) == Committed(begun, k, now);
      assert expired.consents[id].status == Expired;
    }
  }

  // ------------------------------------------------- REVOKED is absorbing

  /** Whether the task's commit leaves a REVOKED status alone: a revocation writes it again, and a
      modification that loaded MODIFIED writes no status. */
  predicate KeepsRevoked(t: Task) {
    t.Revoking? || (t.Modifying? && t.had.status == Modified)
  }

  ghost predicate AllKeepRevoked(s: System) {
    forall k :: k in s.tasks ==> KeepsRevoked(s.tasks[k])
  }

  ghost predicate NoRevocationInFlight(s: System) {
    forall k :: k in s.tasks ==> !s.tasks[k].Revoking?
  }

  /** What every reachable state has: tasks loaded a record that passed their check. */
  ghost predicate TasksFit(s: System) {
    forall k :: k in s.tasks ==>
      && s.tasks[k].had.status != Revoked
      && (s.tasks[k].Modifying? ==> s.tasks[k].op.Modify?)
      && (s.tasks[k].Expiring? ==> s.tasks[k].had.status != Expired)
  }

  function Revocations(events: seq<Event>): nat {
    if events == [] then 0
    else (if events[|events| - 1].kind == ConsentRevoked then 1 else 0) + Revocations(events[..|events| - 1])
  }

  lemma RevocationsOfAppend(events: seq<Event>, e: Event)
    ensures Revocations(events + [e]) == Revocations(events) + (if e.kind == ConsentRevoked then 1 else 0)
  {
    assert (events + [e])[..|events|] == events;
  }

  lemma RowsOfCommit(s: System, k: TaskId, now: int)
    requires Enabled(s, Commit(k, now))
    ensures Revocations(Committed(s, k, now).events)
            == Revocations(s.events) + (if s.tasks[k].Revoking? then 1 else 0)
  {
    var rows := EventRow(s.id, s.tasks[k], now);
    if rows == [] {
      assert s.events + rows == s.events;
    } else {
      RevocationsOfAppend(s.events, rows[0]);
    }
  }

  lemma StepKeepsRevoked(s: System, a: Action)
    requires Enabled(s, a) && TasksFit(s) && s.record.status == Revoked && AllKeepRevoked(s)
    ensures var s' := Step(s, a);
            && TasksFit(s') && s'.record.status == Revoked && AllKeepRevoked(s')
            && (NoRevocationInFlight(s) ==> NoRevocationInFlight(s') && Revocations(s'.events) == Revocations(s.events))
            && (s.tasks == map[] ==> s' == s)
  {
    if a.Commit? {
      RowsOfCommit(s, a.task, a.now);
    }
  }

  lemma {:induction false} RevokedStays(s: System, run: seq<Action>)
    requires Legal(s, run) && TasksFit(s) && s.record.status == Revoked && AllKeepRevoked(s)
    ensures Final(s, run).record.status == Revoked
    ensures NoRevocationInFlight(s) ==> Revocations(Final(s, run).events) == Revocations(s.events)
    ensures s.tasks == map[] ==> Final(s, run) == s
    decreases |run|
  {
    if run != [] {
      StepKeepsRevoked(s, run[0]);
      RevokedStays(Step(s, run[0]), run[1..]);
    }
  }

  lemma OverwriterUnrevokes(s: System, k: TaskId)
    requires TasksFit(s) && s.record.status == Revoked && k in s.tasks && !KeepsRevoked(s.tasks[k])
    ensures Enabled(s, Commit(k, 0)) && Committed(s, k, 0).record.status != Revoked
    ensures Committed(s, k, 0).tasks == s.tasks - {k} && Revocations(Committed(s, k, 0).events) == Revocations(s.events)
  {
    RowsOfCommit(s, k, 0);
  }

  /** A revoked consent stays REVOKED, whatever is called from now on, if and only if every call in flight
      leaves that status alone. */
  lemma RevokedForeverExactlyUnlessOverlapped(s: System)
    requires TasksFit(s) && s.record.status == Revoked
    ensures (forall run | Legal(s, run) :: Final(s, run).record.status == Revoked) <==> AllKeepRevoked(s)
  {
    if AllKeepRevoked(s) {
      forall run | Legal(s, run)
        ensures Final(s, run).record.status == Revoked
      {
        RevokedStays(s, run);
      }
    } else {
      var k :| k in s.tasks && !KeepsRevoked(s.tasks[k]);
      OverwriterUnrevokes(s, k);
      var run := Before(s, Commit(k, 0), []);
    }
  }

  lemma AnotherRevocation(s: System, k: TaskId) returns (run: seq<Action>)
    requires TasksFit(s) && s.record.status == Revoked && k in s.tasks
    requires s.tasks[k].Revoking? || !KeepsRevoked(s.tasks[k])
    ensures Legal(s, run) && Revocations(Final(s, run).events) > Revocations(s.events)
  {
    if s.tasks[k].Revoking? {
      RowsOfCommit(s, k, 0);
      run := Before(s, Commit(k, 0), []);
    } else {
      OverwriterUnrevokes(s, k);
      var open := Committed(s, k, 0);
      var begun := Step(open, BeginRevoke(k, ""));
      RowsOfCommit(begun, k, 0);
      run := Before(begun, Commit(k, 0), []);
      run := Before(open, BeginRevoke(k, ""), run);
      run := Before(s, Commit(k, 0), run);
    }
  }

  /** A revoked consent gets no further CONSENT_REVOKED row if and only if nothing in flight is a revocation
      or overwrites the status.  So two overlapping revocations both write one. */
  lemma RevokedOnceExactlyUnlessOverlapped(s: System)
    requires TasksFit(s) && s.record.status == Revoked
    ensures (forall run | Legal(s, run) :: Revocations(Final(s, run).events) == Revocations(s.events))
            <==> AllKeepRevoked(s) && NoRevocationInFlight(s)
  {
    if AllKeepRevoked(s) && NoRevocationInFlight(s) {
      forall run | Legal(s, run)
        ensures Revocations(Final(s, run).events) == Revocations(s.events)
      {
        RevokedStays(s, run);
      }
    } else {
      var k :| k in s.tasks && (s.tasks[k].Revoking? || !KeepsRevoked(s.tasks[k]));
      var run := AnotherRevocation(s, k);
    }
  }

  /** Record and history of a revoked consent never change again if and only if no call of it is in flight. */
  lemma RevokedFrozenExactlyWithNoneInFlight(s: System)
    requires TasksFit(s) && s.record.status == Revoked
    ensures (forall run | Legal(s, run) :: Final(s, run).record == s.record && Final(s, run).events == s.events)
            <==> s.tasks == map[]
  {
    if s.tasks == map[] {
      forall run | Legal(s, run)
        ensures Final(s, run).record == s.record && Final(s, run).events == s.events
      {
        RevokedStays(s, run);
      }
    } else {
      var k :| k in s.tasks;
      var run := Before(s, Commit(k, 0), []);
      if KeepsRevoked(s.tasks[k]) {
        assert |Final(s, run).events| == |s.events| + 1;
      } else {
        OverwriterUnrevokes(s, k);
      }
    }
  }

  /** Those states are the reachable ones. */
  lemma {:induction false} ReachableTasksFit(s: System, run: seq<Action>)
    requires Legal(s, run) && TasksFit(s)
    ensures TasksFit(Final(s, run))
    decreases |run|
  {
    if run != [] {
      ReachableTasksFit(Step(s, run[0]), run[1..]);
    }
  }

  // ------------------------------------------------ when the history is a chain

  /** `e` continues from the status `before` left, or from an expiry, which writes no row.  Nothing follows a
      revocation. */
  predicate Continues(before: Event, e: Event) {
    && e.kind != ConsentGranted && before.next != Revoked
    && (e.previous == Some(before.next) || e.previous == Some(Expired))
  }

  ghost predicate StatusChain(events: seq<Event>) {
    && events != [] && events[0].kind == ConsentGranted
    && (forall k :: 0 <= k < |events| ==> KindFitsStatus(events[k]))
    && (forall k :: 0 < k < |events| ==> Continues(events[k - 1], events[k]))
  }

  predicate RevokedBefore(events: seq<Event>) {
    exists k :: 0 <= k < |events| && events[k].kind == ConsentRevoked
  }

  /** The commit writes no row; or no revocation was written before, and no row since the call loaded the
      record, unless it loaded MODIFIED or EXPIRED. */
  predicate InTurn(s: System, k: TaskId)
    requires k in s.tasks
  {
    var t := s.tasks[k];
    t.Expiring? || (!RevokedBefore(s.events) && (t.rows == |s.events| || t.had.status in {Modified, Expired}))
  }

  predicate AllInTurn(s: System, run: seq<Action>)
    requires Legal(s, run)
    decreases |run|
  {
    run == [] || ((run[0].Commit? ==> InTurn(s, run[0].task)) && AllInTurn(Step(s, run[0]), run[1..]))
  }

  /** While the history is a chain, the record stands where the last row left it or is expired, and so does
      what each call loaded, by the rows there were then. */
  ghost predicate LoadsFit(s: System)
    requires s.events != []
  {
    && (s.record.status == s.events[|s.events| - 1].next || s.record.status == Expired)
    && (forall k :: k in s.tasks ==>
          && 0 < s.tasks[k].rows <= |s.events|
          && (s.tasks[k].had.status == s.events[s.tasks[k].rows - 1].next || s.tasks[k].had.status == Expired))
  }

  /** A chain holds a revocation only at its end. */
  lemma RevokedBeforeIsLast(events: seq<Event>)
    requires StatusChain(events)
    ensures RevokedBefore(events) <==> events[|events| - 1].next == Revoked
  {
    if k :| 0 <= k < |events| && events[k].kind == ConsentRevoked {
      if k + 1 < |events| {
        var next := k + 1;
        assert Continues(events[next - 1], events[next]) && KindFitsStatus(events[k]);
      }
    }
    assert KindFitsStatus(events[|events| - 1]);
  }

  lemma ChainPrefix(events: seq<Event>, e: Event)
    requires events != []
    ensures StatusChain(events + [e])
            <==> StatusChain(events) && KindFitsStatus(e) && Continues(events[|events| - 1], e)
  {
    var longer := events + [e];
    if StatusChain(longer) {
      assert KindFitsStatus(longer[|events|]) && Continues(longer[|events| - 1], longer[|events|]);
      forall k | 0 <= k < |events|
        ensures KindFitsStatus(events[k]) && (k > 0 ==> Continues(events[k - 1], events[k]))
      {
        assert events[k] == longer[k] && KindFitsStatus(longer[k]);
        assert k > 0 ==> Continues(longer[k - 1], longer[k]);
      }
    }
  }

  /** After the first row, rows leave MODIFIED or REVOKED. */
  lemma LaterRowStatus(events: seq<Event>, k: nat)
    requires StatusChain(events) && 0 < k < |events|
    ensures events[k].next == Modified || events[k].next == Revoked
  {
    assert Continues(events[k - 1], events[k]) && KindFitsStatus(events[k]);
  }

  /** A row with the status that was loaded when there were `rows` rows. */
  lemma ContinuesExactlyInTurn(events: seq<Event>, rows: nat, had: Status, e: Event)
    requires StatusChain(events) && 0 < rows <= |events|
    requires (had == events[rows - 1].next || had == Expired) && had != Revoked
    requires e.kind != ConsentGranted && e.previous == Some(had)
    ensures Continues(events[|events| - 1], e)
            <==> !RevokedBefore(events) && (rows == |events| || had in {Modified, Expired})
  {
    RevokedBeforeIsLast(events);
    if rows < |events| {
      LaterRowStatus(events, |events| - 1);
      if rows > 1 {
        LaterRowStatus(events, rows - 1);
      } else {
        assert KindFitsStatus(events[0]);
      }
    }
  }

  /** The row of a commit continues the chain exactly if the commit is in its turn. */
  lemma CommitContinuesExactlyInTurn(s: System, k: TaskId, now: int)
    requires Enabled(s, Commit(k, now)) && TasksFit(s) && StatusChain(s.events) && LoadsFit(s)
    ensures StatusChain(Committed(s, k, now).events) <==> InTurn(s, k)
  {
    var t := s.tasks[k];
    if t.Expiring? {
      assert s.events + EventRow(s.id, t, now) == s.events;
    } else {
      var e := EventRow(s.id, t, now)[0];
      assert s.events + EventRow(s.id, t, now) == s.events + [e];
      ChainPrefix(s.events, e);
      ContinuesExactlyInTurn(s.events, t.rows, t.had.status, e);
    }
  }

  lemma CommitLeavesFittingRecord(s: System, k: TaskId, now: int)
    requires Enabled(s, Commit(k, now)) && TasksFit(s) && StatusChain(s.events) && LoadsFit(s) && InTurn(s, k)
    ensures var s' := Committed(s, k, now);
            && s'.events != []
            && (s'.record.status == s'.events[|s'.events| - 1].next || s'.record.status == Expired)
  {
    var t := s.tasks[k];
    if t.Modifying? && t.had.status == Modified {
      LoadedModified(s, k);
    }
  }

  lemma LoadedModified(s: System, k: TaskId)
    requires k in s.tasks && StatusChain(s.events) && LoadsFit(s) && InTurn(s, k)
    requires s.tasks[k].Modifying? && s.tasks[k].had.status == Modified
    ensures s.events[|s.events| - 1].next == Modified
  {
    RevokedBeforeIsLast(s.events);
    if s.tasks[k].rows < |s.events| {
      LaterRowStatus(s.events, |s.events| - 1);
    }
  }

  lemma StepKeepsLoads(s: System, a: Action)
    requires Enabled(s, a) && TasksFit(s) && StatusChain(s.events) && LoadsFit(s)
    requires a.Commit? ==> InTurn(s, a.task)
    ensures Step(s, a).events != [] && LoadsFit(Step(s, a))
  {
    if a.Commit? {
      CommitLeavesFittingRecord(s, a.task, a.now);
      OtherLoadsFit(s, a.task, a.now);
    } else {
      assert Step(s, a).events == s.events && Step(s, a).record == s.record;
    }
  }

  lemma OtherLoadsFit(s: System, k: TaskId, now: int)
    requires Enabled(s, Commit(k, now)) && s.events != [] && LoadsFit(s)
    ensures var s' := Committed(s, k, now);
            forall j :: j in s'.tasks ==>
              && 0 < s'.tasks[j].rows <= |s'.events|
              && (s'.tasks[j].had.status == s'.events[s'.tasks[j].rows - 1].next || s'.tasks[j].had.status == Expired)
  {
    var s' := Committed(s, k, now);
    assert forall i :: 0 <= i < |s.events| ==> s'.events[i] == s.events[i];
    assert forall j :: j in s'.tasks ==> j in s.tasks && s'.tasks[j] == s.tasks[j];
  }

  lemma {:induction false} BrokenChainStaysBroken(s: System, run: seq<Action>)
    requires Legal(s, run) && s.events != [] && !StatusChain(s.events)
    ensures !StatusChain(Final(s, run).events)
    decreases |run|
  {
    if run != [] {
      var s' := Step(s, run[0]);
      if s'.events != s.events {
        ChainPrefix(s.events, EventRow(s.id, s.tasks[run[0].task], run[0].now)[0]);
      }
      BrokenChainStaysBroken(s', run[1..]);
    }
  }

  lemma {:induction false} ChainExactlyInTurnFrom(s: System, run: seq<Action>)
    requires Legal(s, run) && TasksFit(s) && StatusChain(s.events) && LoadsFit(s)
    ensures StatusChain(Final(s, run).events) <==> AllInTurn(s, run)
    decreases |run|
  {
    if run != [] {
      var a := run[0];
      if a.Commit? {
        CommitContinuesExactlyInTurn(s, a.task, a.now);
      }
      if a.Commit? && !InTurn(s, a.task) {
        BrokenChainStaysBroken(Step(s, a), run[1..]);
      } else {
        StepKeepsLoads(s, a);
        ChainExactlyInTurnFrom(Step(s, a), run[1..]);
      }
    }
  }

  /** In every run of overlapping calls on a consent just created, each event's previous status is the one its
      predecessor left, or EXPIRED, and nothing follows a revocation, if and only if every row was written in
      turn: after no revocation, and by a call that loaded the record after the last row, or loaded MODIFIED
      or EXPIRED. */
  lemma HistoryChainsExactlyInTurn(id: ConsentId, record: Consent, granted: Event, run: seq<Action>)
    requires record.status == Granted && granted.kind == ConsentGranted && granted.next == Granted
    requires Legal(System(id, record, [granted], map[]), run)
    ensures StatusChain(Final(System(id, record, [granted], map[]), run).events)
            <==> AllInTurn(System(id, record, [granted], map[]), run)
  {
    ChainExactlyInTurnFrom(System(id, record, [granted], map[]), run);
  }
}
