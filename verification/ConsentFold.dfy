/** What the consent service's answers and logs are, told by the calls alone: with no word of statuses,
    sweeps and expiry marks. */
module ConsentFold {
  import opened Wrappers
  import opened ConsentLifecycle

  // ------------------------------------------------------ a fold of the calls

  /** What was last given for a consent. */
  datatype Terms = Terms(
    principal: PartyId,
    fiduciary: PartyId,
    purpose: string,
    dataTypes: seq<string>,
    grantedAt: int,
    deadline: int,
    txId: string,
    hash: string)

  datatype Standing = Absent | Alive(terms: Terms) | Withdrawn(terms: Terms, at: int)

  predicate Compliant(purpose: string, dataTypes: seq<string>) {
    && purpose != "THIRD_PARTY_SHARING"
    && (("FINANCIAL_DATA" in dataTypes || "HEALTH_DATA" in dataTypes || "BIOMETRIC_DATA" in dataTypes
         || "SENSITIVE_DATA" in dataTypes) ==> purpose != "MARKETING" && purpose != "ANALYTICS")
  }

  /** At least a day, and at most 90 days for marketing, 180 for analytics and 365 for anything else that is
      compliant. */
  predicate LongAndShortEnough(days: int, purpose: string) {
    && 1 <= days <= 365
    && (purpose == "MARKETING" ==> days <= 90)
    && (purpose == "ANALYTICS" ==> days <= 180)
  }

  predicate MayCreate(parties: Db, op: Op)
    requires op.Create?
  {
    && Compliant(op.purpose, op.dataTypes) && LongAndShortEnough(op.days, op.purpose)
    && op.principal in parties.principals && op.fiduciary in parties.fiduciaries && op.chain.Some?
  }

  function Next(parties: Db, st: Standing, op: Op, now: int, id: ConsentId): Standing {
    if op.Create? && op.id == id && st.Absent? && MayCreate(parties, op) then
      Alive(Terms(op.principal, op.fiduciary, op.purpose, op.dataTypes, now, now + op.days * 86400,
                  op.chain.value, op.hash))
    else if op.Revoke? && op.id == id && st.Alive? && op.chain.Some? then
      Withdrawn(st.terms.(txId := op.chain.value), now)
    else if op.Modify? && op.id == id && st.Alive? then
      var purpose := if op.newPurpose == "" then st.terms.purpose else op.newPurpose;
      var dataTypes := if op.newDataTypes == [] then st.terms.dataTypes else op.newDataTypes;
      var deadline := if op.newDays == 0 then st.terms.deadline else now + op.newDays * 86400;
      Alive(st.terms.(purpose := purpose, dataTypes := dataTypes, deadline := deadline, hash := op.hash))
    else st
  }

  function StandingOf(parties: Db, calls: seq<Call>, id: ConsentId): Standing
    decreases |calls|
  {
    if calls == [] then Absent
    else
      var last := calls[|calls| - 1];
      Next(parties, StandingOf(parties, calls[..|calls| - 1], id), last.op, last.now, id)
  }

  predicate Holds(c: Consent, terms: Terms) {
    && c.principal == terms.principal && c.fiduciary == terms.fiduciary
    && c.purpose == terms.purpose && c.dataTypes == terms.dataTypes
    && c.grantedAt == terms.grantedAt && c.expiresAt == Some(terms.deadline)
    && c.txId == terms.txId && c.hash == terms.hash
  }

  // ------------------------------------------------------------ what is kept

  ghost predicate Agrees(parties: Db, db: Db, st: Standing, id: ConsentId) {
    && db.principals == parties.principals && db.fiduciaries == parties.fiduciaries
    && match st
       case Absent => id !in db.consents
       case Withdrawn(terms, at) =>
         && id in db.consents && Holds(db.consents[id], terms)
         && db.consents[id].status == Revoked && db.consents[id].revokedAt == Some(at)
       case Alive(terms) =>
         && id in db.consents && Holds(db.consents[id], terms)
         && db.consents[id].status in {Granted, Modified, Expired} && db.consents[id].revokedAt == None
  }

  /** A mark of expiry only repeats a deadline that passed by `now`. */
  ghost predicate MarksFit(db: Db, id: ConsentId, now: int) {
    id in db.consents && db.consents[id].status == Expired ==> PastDue(db.consents[id], now)
  }

  lemma RefusesExactlyUnlessAllowed(parties: Db, op: Op)
    requires op.Create?
    ensures CreateRefusal(parties, op).None? <==> MayCreate(parties, op) && op.id !in parties.consents
  {
    assert (exists t :: t in op.dataTypes && t in SENSITIVE)
           <==> "FINANCIAL_DATA" in op.dataTypes || "HEALTH_DATA" in op.dataTypes
                || "BIOMETRIC_DATA" in op.dataTypes || "SENSITIVE_DATA" in op.dataTypes;
  }

  lemma CreateKeepsAgreement(parties: Db, db: Db, st: Standing, id: ConsentId, op: Op, now: int)
    requires Agrees(parties, db, st, id) && op.Create?
    ensures Agrees(parties, CreateOutcome(db, op, now).db, Next(parties, st, op, now, id), id)
  {
    RefusesExactlyUnlessAllowed(db, op);
  }

  lemma CallKeepsAgreement(parties: Db, db: Db, st: Standing, id: ConsentId, op: Op, now: int)
    requires Agrees(parties, db, st, id)
    ensures Agrees(parties, Apply(db, op, now).db, Next(parties, st, op, now, id), id)
  {
    if op.Create? {
      CreateKeepsAgreement(parties, db, st, id, op, now);
    }
  }

  lemma CallKeepsMarks(db: Db, op: Op, before: int, now: int, id: ConsentId)
    requires MarksFit(db, id, before) && before <= now
    ensures MarksFit(Apply(db, op, now).db, id, now)
  {
  }

  lemma {:induction false} AfterLast(db: Db, calls: seq<Call>)
    requires calls != []
    ensures var last := calls[|calls| - 1];
            After(db, calls) == Apply(After(db, calls[..|calls| - 1]), last.op, last.now).db
    decreases |calls|
  {
    if |calls| > 1 {
      var db' := Apply(db, calls[0].op, calls[0].now).db;
      AfterLast(db', calls[1..]);
      assert calls[1..][..|calls| - 2] == calls[..|calls| - 1][1..];
    }
  }

  lemma {:induction false} MonotonePrefix(calls: seq<Call>, start: int)
    requires Monotone(calls, start) && calls != []
    ensures Monotone(calls[..|calls| - 1], start)
    ensures LastTime(calls[..|calls| - 1], start) <= calls[|calls| - 1].now
    decreases |calls|
  {
    if |calls| > 1 {
      MonotonePrefix(calls[1..], calls[0].now);
      assert calls[1..][..|calls| - 2] == calls[..|calls| - 1][1..];
    }
  }

  lemma {:induction false} RunAgrees(parties: Db, calls: seq<Call>, id: ConsentId)
    requires parties == Empty(parties.principals, parties.fiduciaries)
    ensures Agrees(parties, After(parties, calls), StandingOf(parties, calls, id), id)
    decreases |calls|
  {
    if calls != [] {
      var before, last := calls[..|calls| - 1], calls[|calls| - 1];
      RunAgrees(parties, before, id);
      AfterLast(parties, calls);
      CallKeepsAgreement(parties, After(parties, before), StandingOf(parties, before, id), id, last.op, last.now);
    }
  }

  lemma {:induction false} RunKeepsMarks(parties: Db, start: int, calls: seq<Call>, id: ConsentId)
    requires parties == Empty(parties.principals, parties.fiduciaries) && Monotone(calls, start)
    ensures MarksFit(After(parties, calls), id, LastTime(calls, start))
    decreases |calls|
  {
    if calls != [] {
      var before, last := calls[..|calls| - 1], calls[|calls| - 1];
      MonotonePrefix(calls, start);
      RunKeepsMarks(parties, start, before, id);
      AfterLast(parties, calls);
      CallKeepsMarks(After(parties, before), last.op, LastTime(before, start), last.now, id);
    }
  }

  // ----------------------------------------------------------- verify's answers

  /** With a clock that does not go back, after every run of creations, revocations, modifications, sweeps and
      verify calls, verify answers by the fold of the calls alone: valid if and only if the consent was
      created, was not revoked since, and the last deadline that was set has not passed.  A valid answer holds
      the parties and the time of the creation, and the purpose, data types, deadline, transaction and hash
      last given. */
  lemma VerifyIsTheFold(principals: set<PartyId>, fiduciaries: set<PartyId>, start: int, calls: seq<Call>,
                        id: ConsentId, now: int)
    requires Monotone(calls, start) && LastTime(calls, start) <= now
    ensures var parties := Empty(principals, fiduciaries);
            var answer := VerifyOutcome(After(parties, calls), id, now).response;
            match StandingOf(parties, calls, id)
            case Absent => answer == Invalid(ConsentNotFound, None)
            case Withdrawn(_, at) => answer == Invalid(IsRevoked, Some(at))
            case Alive(terms) =>
              if now <= terms.deadline then answer.Valid? && Holds(answer.consent, terms)
              else answer == Invalid(IsExpired, Some(terms.deadline))
  {
    RunAgrees(Empty(principals, fiduciaries), calls, id);
    RunKeepsMarks(Empty(principals, fiduciaries), start, calls, id);
  }

  // ----------------------------------------------------- the other calls' answers

  /** The first of the checks that fails, in the order in which a creation makes them. */
  function FirstRefusal(parties: Db, st: Standing, op: Op): Response
    requires op.Create?
  {
    if !Compliant(op.purpose, op.dataTypes) then Raised(ComplianceViolation)
    else if !LongAndShortEnough(op.days, op.purpose) then Raised(InvalidDuration)
    else if op.principal !in parties.principals then Raised(PrincipalInsertFailed)
    else if op.fiduciary !in parties.fiduciaries then Raised(FiduciaryNotFound)
    else if op.chain.None? then Raised(ChainError)
    else if !st.Absent? then Raised(DuplicateKey)
    else Done
  }

  function ExpectedAnswer(parties: Db, st: Standing, op: Op): Response
    requires op.Create? || op.Revoke? || op.Modify?
  {
    if op.Create? then FirstRefusal(parties, st, op)
    else if st.Absent? then Raised(ConsentNotFound)
    else if st.Withdrawn? then Raised(if op.Revoke? then AlreadyRevoked else CannotModifyRevoked)
    else if op.Revoke? && op.chain.None? then Raised(ChainError)
    else Done
  }

  lemma CreateAnswersAsExpected(parties: Db, db: Db, st: Standing, op: Op, now: int)
    requires op.Create? && Agrees(parties, db, st, op.id)
    ensures CreateOutcome(db, op, now).response == FirstRefusal(parties, st, op)
  {
    assert (exists t :: t in op.dataTypes && t in SENSITIVE)
           <==> "FINANCIAL_DATA" in op.dataTypes || "HEALTH_DATA" in op.dataTypes
                || "BIOMETRIC_DATA" in op.dataTypes || "SENSITIVE_DATA" in op.dataTypes;
  }

  /** After every run, with any clock, a creation, revocation or modification answers by the standing of its
      consent: which one is refused, and for what reason. */
  lemma AnswersAreTheFold(principals: set<PartyId>, fiduciaries: set<PartyId>, calls: seq<Call>, op: Op, now: int)
    requires op.Create? || op.Revoke? || op.Modify?
    ensures var parties := Empty(principals, fiduciaries);
            Apply(After(parties, calls), op, now).response
            == ExpectedAnswer(parties, StandingOf(parties, calls, op.id), op)
  {
    var parties := Empty(principals, fiduciaries);
    RunAgrees(parties, calls, op.id);
    if op.Create? {
      CreateAnswersAsExpected(parties, After(parties, calls), StandingOf(parties, calls, op.id), op, now);
    }
  }

  // ------------------------------------------------------------ the two logs

  /** What a call that succeeds writes to the logs. */
  datatype Line = Line(id: ConsentId, kind: EventKind, at: int, principal: PartyId, fiduciary: PartyId)

  function LinesOfCall(parties: Db, st: Standing, op: Op, now: int): seq<Line> {
    if op.Create? && st.Absent? && MayCreate(parties, op) then
      [Line(op.id, ConsentGranted, now, op.principal, op.fiduciary)]
    else if op.Revoke? && st.Alive? && op.chain.Some? then
      [Line(op.id, ConsentRevoked, now, st.terms.principal, st.terms.fiduciary)]
    else if op.Modify? && st.Alive? then
      [Line(op.id, ConsentModified, now, st.terms.principal, st.terms.fiduciary)]
    else []
  }

  function IdOf(op: Op): ConsentId {
    match op
    case Create(id, _, _, _, _, _, _, _) => id
    case Revoke(id, _) => id
    case Modify(id, _, _, _, _) => id
    case Verify(id) => id
    case Sweep => 0
  }

  function LinesOf(parties: Db, calls: seq<Call>): seq<Line>
    decreases |calls|
  {
    if calls == [] then []
    else
      var before, last := calls[..|calls| - 1], calls[|calls| - 1];
      LinesOf(parties, before) + LinesOfCall(parties, StandingOf(parties, before, IdOf(last.op)), last.op, last.now)
  }

  predicate WrittenAs(e: Event, row: AuditRow, line: Line) {
    && e.consent == line.id && e.kind == line.kind && e.at == line.at
    && row.resource == line.id && ActionOf(line.kind, row.action)
    && row.principal == line.principal && row.fiduciary == line.fiduciary
  }

  ghost predicate LogsAre(db: Db, lines: seq<Line>) {
    && |db.events| == |lines| && |db.audit| == |lines|
    && forall k :: 0 <= k < |lines| ==> WrittenAs(db.events[k], db.audit[k], lines[k])
  }

  lemma CallWritesLines(parties: Db, db: Db, st: Standing, op: Op, now: int)
    requires Agrees(parties, db, st, IdOf(op))
    ensures var lines, db' := LinesOfCall(parties, st, op, now), Apply(db, op, now).db;
            if lines == [] then db'.events == db.events && db'.audit == db.audit
            else
              && |db'.events| == |db.events| + 1 && db.events <= db'.events
              && |db'.audit| == |db.audit| + 1 && db.audit <= db'.audit
              && WrittenAs(db'.events[|db.events|], db'.audit[|db.audit|], lines[0])
  {
    if op.Create? {
      RefusesExactlyUnlessAllowed(db, op);
    }
  }

  lemma LongerLogs(db: Db, db': Db, lines: seq<Line>, line: Line)
    requires LogsAre(db, lines) && db.events <= db'.events && db.audit <= db'.audit
    requires |db'.events| == |db.events| + 1 && |db'.audit| == |db.audit| + 1
    requires WrittenAs(db'.events[|db.events|], db'.audit[|db.audit|], line)
    ensures LogsAre(db', lines + [line])
  {
    forall k | 0 <= k < |lines| + 1
      ensures WrittenAs(db'.events[k], db'.audit[k], (lines + [line])[k])
    {
      assert k < |lines| ==> WrittenAs(db.events[k], db.audit[k], lines[k]);
    }
  }

  /** After every run, with any clock, the event rows and the audit rows are exactly the successful creations,
      revocations and modifications in order, each with its consent, what was done, when, and the parties that
      the consent was created with. */
  lemma {:induction false} LogsAreTheCalls(parties: Db, calls: seq<Call>)
    requires parties == Empty(parties.principals, parties.fiduciaries)
    ensures LogsAre(After(parties, calls), LinesOf(parties, calls))
    decreases |calls|
  {
    if calls != [] {
      var before, last := calls[..|calls| - 1], calls[|calls| - 1];
      var db, st := After(parties, before), StandingOf(parties, before, IdOf(last.op));
      LogsAreTheCalls(parties, before);
      AfterLast(parties, calls);
      RunAgrees(parties, before, IdOf(last.op));
      CallWritesLines(parties, db, st, last.op, last.now);
      var lines := LinesOfCall(parties, st, last.op, last.now);
      if lines == [] {
        assert LinesOf(parties, calls) == LinesOf(parties, before);
      } else {
        LongerLogs(db, After(parties, calls), LinesOf(parties, before), lines[0]);
        assert lines == [lines[0]];
      }
    }
  }

  // ------------------------------------------------------------- the sweep

  /** A sweep marks the GRANTED records past their deadline, changes nothing else, and reports each one that
      it marked as an error and none as processed. */
  lemma SweepMarksGrantedPastDue(db: Db, now: int)
    ensures var after := Apply(db, Sweep, now);
            && after.db == db.(consents := after.db.consents) && after.db.consents.Keys == db.consents.Keys
            && (forall id :: id in db.consents ==>
                  var c, c' := db.consents[id], after.db.consents[id];
                  if c.status == Granted && c.expiresAt.Some? && c.expiresAt.value < now then
                    c' == c.(status := Expired)
                  else c' == c)
            && after.response == Swept(0, |set id | id in db.consents && after.db.consents[id] != db.consents[id]|)
  {
    var after := Apply(db, Sweep, now);
    assert SelectedIds(db, now) == set id | id in db.consents && after.db.consents[id] != db.consents[id];
  }

  // ------------------------------------------------------ the audit log

  predicate ActionOf(kind: EventKind, action: AuditAction) {
    match kind
    case ConsentGranted => action == LoggedCreation
    case ConsentRevoked => action == LoggedRevocation
    case ConsentModified => action == LoggedModification
  }

  /** The event rows and the audit rows tell the same story, row by row. */
  ghost predicate Mirrored(db: Db) {
    && |db.audit| == |db.events|
    && forall k :: 0 <= k < |db.events| ==> RowMirrors(db, db.events[k], db.audit[k])
  }

  predicate RowMirrors(db: Db, e: Event, row: AuditRow) {
    && row.resource == e.consent && ActionOf(e.kind, row.action)
    && e.consent in db.consents
    && row.principal == db.consents[e.consent].principal && row.fiduciary == db.consents[e.consent].fiduciary
  }

  lemma PartiesStay(db: Db, op: Op, now: int, id: ConsentId)
    requires id in db.consents
    ensures id in Apply(db, op, now).db.consents
    ensures Apply(db, op, now).db.consents[id].principal == db.consents[id].principal
    ensures Apply(db, op, now).db.consents[id].fiduciary == db.consents[id].fiduciary
  {
  }

  lemma CallKeepsMirrored(db: Db, op: Op, now: int)
    requires Mirrored(db)
    ensures Mirrored(Apply(db, op, now).db)
  {
    var db' := Apply(db, op, now).db;
    forall k | 0 <= k < |db'.events|
      ensures k < |db'.audit| && RowMirrors(db', db'.events[k], db'.audit[k])
    {
      if k < |db.events| {
        assert RowMirrors(db, db.events[k], db.audit[k]);
        PartiesStay(db, op, now, db.events[k].consent);
        assert db'.events[k] == db.events[k] && db'.audit[k] == db.audit[k];
      }
    }
  }

  /** In every run the audit log mirrors the events: the same number of rows in the same order, each naming the
      consent, what was done to it and its parties. */
  lemma {:induction false} AuditMirrorsEvents(db: Db, calls: seq<Call>)
    requires Mirrored(db)
    ensures Mirrored(After(db, calls))
    ensures Mirrored(Empty(db.principals, db.fiduciaries))
    decreases |calls|
  {
    if calls != [] {
      CallKeepsMirrored(db, calls[0].op, calls[0].now);
      AuditMirrorsEvents(Apply(db, calls[0].op, calls[0].now).db, calls[1..]);
    }
  }
}
