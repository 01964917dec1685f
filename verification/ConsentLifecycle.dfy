/** The consent life cycle of the API service, with its two expiry mechanisms: the lazy one inside
    verify_consent and the eager sweep of the background worker.

    Times are integers in seconds and every call carries the one instant it runs at.  Hashes and
    transaction ids are inputs of the calls that store them. */
module ConsentLifecycle {
  import opened Wrappers

  const DAY := 86400

  type ConsentId = nat
  type PartyId = nat

  datatype Status = Granted | Revoked | Modified | Pending | Expired

  datatype Consent = Consent(
    principal: PartyId,
    fiduciary: PartyId,
    purpose: string,
    dataTypes: seq<string>,
    status: Status,
    grantedAt: int,
    expiresAt: Option<int>,
    revokedAt: Option<int>,
    txId: string,
    hash: string)

  datatype EventKind = ConsentGranted | ConsentRevoked | ConsentModified

  /** `dueBefore` records the expiry date the consent had when the row was written; it is not a column. */
  datatype Event = Event(
    consent: ConsentId,
    kind: EventKind,
    previous: Option<Status>,
    next: Status,
    at: int,
    dueBefore: Option<int>)

  datatype AuditAction = LoggedCreation | LoggedRevocation | LoggedModification

  datatype AuditRow = AuditRow(principal: PartyId, fiduciary: PartyId, action: AuditAction, resource: ConsentId)

  datatype Db = Db(
    principals: set<PartyId>,
    fiduciaries: set<PartyId>,
    consents: map<ConsentId, Consent>,
    events: seq<Event>,
    audit: seq<AuditRow>)

  /** `chain` is what the blockchain client returned, or None when it raised.  The empty purpose,
      the empty list and zero days are Python's "not given". */
  datatype Op =
    | Create(id: ConsentId, principal: PartyId, fiduciary: PartyId, purpose: string,
             dataTypes: seq<string>, days: int, chain: Option<string>, hash: string)
    | Revoke(id: ConsentId, chain: Option<string>)
    | Modify(id: ConsentId, newPurpose: string, newDataTypes: seq<string>, newDays: int, hash: string)
    | Verify(id: ConsentId)
    | Sweep

  datatype Reason =
    | ComplianceViolation | InvalidDuration | PrincipalInsertFailed | FiduciaryNotFound | ChainError | DuplicateKey
    | ConsentNotFound | AlreadyRevoked | CannotModifyRevoked
    | IsRevoked | IsExpired

  datatype Response =
    | Done
    | Raised(reason: Reason)
    | Valid(consent: Consent)
    | Invalid(reason: Reason, date: Option<int>)
    | Swept(processed: nat, errors: nat)

  datatype Outcome = Outcome(db: Db, response: Response)

  function Empty(principals: set<PartyId>, fiduciaries: set<PartyId>): Db {
    Db(principals, fiduciaries, map[], [], [])
  }

  // --------------------------------------------------- what each call does

  const SENSITIVE: set<string> := {"FINANCIAL_DATA", "HEALTH_DATA", "BIOMETRIC_DATA", "SENSITIVE_DATA"}

  predicate PurposeAllowed(purpose: string, dataTypes: seq<string>) {
    && !((exists t :: t in dataTypes && t in SENSITIVE) && (purpose == "MARKETING" || purpose == "ANALYTICS"))
    && purpose != "THIRD_PARTY_SHARING"
  }

  function MaxDays(purpose: string): int {
    if purpose == "MARKETING" || purpose == "THIRD_PARTY_SHARING" then 90
    else if purpose == "ANALYTICS" then 180
    else 365
  }

  predicate DurationAllowed(days: int, purpose: string) {
    1 <= days <= MaxDays(purpose)
  }

  /** The consent's deadline lies strictly before `now`; no deadline never passes. */
  predicate PastDue(c: Consent, now: int) {
    c.expiresAt.Some? && c.expiresAt.value < now
  }

  function Put(db: Db, id: ConsentId, c: Consent): Db {
    db.(consents := db.consents[id := c])
  }

  function LogEvent(db: Db, id: ConsentId, kind: EventKind, previous: Option<Status>, c: Consent,
                    due: Option<int>, now: int): Db {
    db.(events := db.events + [Event(id, kind, previous, c.status, now, due)])
  }

  function LogAudit(db: Db, id: ConsentId, action: AuditAction, c: Consent): Db {
    db.(audit := db.audit + [AuditRow(c.principal, c.fiduciary, action, id)])
  }

  /** For a wallet without a principal row the call inserts one without an email hash, which the table
      refuses. */
  function CreateRefusal(db: Db, op: Op): Option<Reason>
    requires op.Create?
  {
    if !PurposeAllowed(op.purpose, op.dataTypes) then Some(ComplianceViolation)
    else if !DurationAllowed(op.days, op.purpose) then Some(InvalidDuration)
    else if op.principal !in db.principals then Some(PrincipalInsertFailed)
    else if op.fiduciary !in db.fiduciaries then Some(FiduciaryNotFound)
    else if op.chain.None? then Some(ChainError)
    else if op.id in db.consents then Some(DuplicateKey)
    else None
  }

  function CreateOutcome(db: Db, op: Op, now: int): Outcome
    requires op.Create?
  {
    if CreateRefusal(db, op).Some? then Outcome(db, Raised(CreateRefusal(db, op).value))
    else
      var c := Consent(op.principal, op.fiduciary, op.purpose, op.dataTypes, Granted, now,
                       Some(now + op.days * DAY), None, op.chain.value, op.hash);
      var logged := LogEvent(Put(db, op.id, c), op.id, ConsentGranted, None, c, None, now);
      Outcome(LogAudit(logged, op.id, LoggedCreation, c), Done)
  }

  function RevokeOutcome(db: Db, op: Op, now: int): Outcome
    requires op.Revoke?
  {
    if op.id !in db.consents then Outcome(db, Raised(ConsentNotFound))
    else
      var c := db.consents[op.id];
      if c.status == Revoked then Outcome(db, Raised(AlreadyRevoked))
      else if op.chain.None? then Outcome(db, Raised(ChainError))
      else
        var c' := c.(status := Revoked, revokedAt := Some(now), txId := op.chain.value);
        var logged := LogEvent(Put(db, op.id, c'), op.id, ConsentRevoked, Some(c.status), c', c.expiresAt, now);
        Outcome(LogAudit(logged, op.id, LoggedRevocation, c'), Done)
  }

  function Amended(c: Consent, op: Op, now: int): Consent
    requires op.Modify?
  {
    c.(purpose := if op.newPurpose != "" then op.newPurpose else c.purpose,
       dataTypes := if op.newDataTypes != [] then op.newDataTypes else c.dataTypes,
       expiresAt := if op.newDays != 0 then Some(now + op.newDays * DAY) else c.expiresAt,
       status := Modified,
       hash := op.hash)
  }

  function ModifyOutcome(db: Db, op: Op, now: int): Outcome
    requires op.Modify?
  {
    if op.id !in db.consents then Outcome(db, Raised(ConsentNotFound))
    else
      var c := db.consents[op.id];
      if c.status == Revoked then Outcome(db, Raised(CannotModifyRevoked))
      else
        var c' := Amended(c, op, now);
        var logged := LogEvent(Put(db, op.id, c'), op.id, ConsentModified, Some(c.status), c', c.expiresAt, now);
        Outcome(LogAudit(logged, op.id, LoggedModification, c'), Done)
  }

  function VerifyOutcome(db: Db, id: ConsentId, now: int): Outcome {
    if id !in db.consents then Outcome(db, Invalid(ConsentNotFound, None))
    else
      var c := db.consents[id];
      if c.status == Revoked then Outcome(db, Invalid(IsRevoked, c.revokedAt))
      else if c.status == Expired then Outcome(db, Invalid(IsExpired, c.expiresAt))
      else if PastDue(c, now) then
        Outcome(Put(db, id, c.(status := Expired)), Invalid(IsExpired, c.expiresAt))
      else Outcome(db, Valid(c))
  }

  /** What the sweep selects: GRANTED rows past their deadline.  MODIFIED rows are not selected. */
  predicate Selected(c: Consent, now: int) {
    c.status == Granted && PastDue(c, now)
  }

  function SelectedIds(db: Db, now: int): set<ConsentId> {
    set id | id in db.consents && Selected(db.consents[id], now)
  }

  /** Writing the event row raises, as the event enumeration has no expiry member, after the status
      was assigned; the status is committed, no row is written, and every selected consent counts
      as an error. */
  function SweepOutcome(db: Db, now: int): Outcome {
    Outcome(db.(consents := MarkExpired(db.consents, SelectedIds(db, now))), Swept(0, |SelectedIds(db, now)|))
  }

  function MarkExpired(consents: map<ConsentId, Consent>, ids: set<ConsentId>): map<ConsentId, Consent> {
    map id | id in consents :: if id in ids then consents[id].(status := Expired) else consents[id]
  }

  function Apply(db: Db, op: Op, now: int): Outcome {
    match op
    case Create(_, _, _, _, _, _, _, _) => CreateOutcome(db, op, now)
    case Revoke(_, _) => RevokeOutcome(db, op, now)
    case Modify(_, _, _, _, _) => ModifyOutcome(db, op, now)
    case Verify(id) => VerifyOutcome(db, id, now)
    case Sweep => SweepOutcome(db, now)
  }

  // ------------------------------------------------------------ the classes

  /** The tables one database session works on, with the service's calls and the worker's sweep. */
  class ConsentService {
    var principals: set<PartyId>
    var fiduciaries: set<PartyId>
    var consents: map<ConsentId, Consent>
    var events: seq<Event>
    var audit: seq<AuditRow>

    constructor (principals: set<PartyId>, fiduciaries: set<PartyId>)
      ensures Tables() == Empty(principals, fiduciaries)
    {
      this.principals, this.fiduciaries, consents, events, audit := principals, fiduciaries, map[], [], [];
    }

    ghost function Tables(): Db
      reads this
    {
      Db(principals, fiduciaries, consents, events, audit)
    }

    method CreateEvent(id: ConsentId, kind: EventKind, previous: Option<Status>, next: Status,
                       now: int, due: Option<int>)
      modifies this`events
      ensures events == old(events) + [Event(id, kind, previous, next, now, due)]
    {
      events := events + [Event(id, kind, previous, next, now, due)];
    }

    method AddAudit(principal: PartyId, fiduciary: PartyId, action: AuditAction, id: ConsentId)
      modifies this`audit
      ensures audit == old(audit) + [AuditRow(principal, fiduciary, action, id)]
    {
      audit := audit + [AuditRow(principal, fiduciary, action, id)];
    }

    method CreateConsent(id: ConsentId, principal: PartyId, fiduciary: PartyId, purpose: string,
                         dataTypes: seq<string>, days: int, chain: Option<string>, hash: string, now: int)
      returns (r: Response)
      modifies this`consents, this`events, this`audit
      ensures Outcome(Tables(), r) ==
              Apply(old(Tables()), Create(id, principal, fiduciary, purpose, dataTypes, days, chain, hash), now)
      ensures r == Done ==>
                && id !in old(consents) && chain.Some?
                && consents == old(consents)[id := Consent(principal, fiduciary, purpose, dataTypes, Granted, now,
                                                           Some(now + days * 86400), None, chain.value, hash)]
    {
      if !PurposeAllowed(purpose, dataTypes) {
        return Raised(ComplianceViolation);
      }
      if !DurationAllowed(days, purpose) {
        return Raised(InvalidDuration);
      }
      if principal !in principals {
        return Raised(PrincipalInsertFailed);
      }
      if fiduciary !in fiduciaries {
        return Raised(FiduciaryNotFound);
      }
      var expiresAt := now + days * DAY;
      if chain.None? {
        return Raised(ChainError);
      }
      if id in consents {
        return Raised(DuplicateKey);
      }
      consents := consents[id := Consent(principal, fiduciary, purpose, dataTypes, Granted, now,
                                         Some(expiresAt), None, chain.value, hash)];
      CreateEvent(id, ConsentGranted, None, Granted, now, None);
      AddAudit(principal, fiduciary, LoggedCreation, id);
      r := Done;
    }

    method RevokeConsent(id: ConsentId, chain: Option<string>, now: int) returns (r: Response)
      modifies this`consents, this`events, this`audit
      ensures Outcome(Tables(), r) == Apply(old(Tables()), Revoke(id, chain), now)
    {
      if id !in consents {
        return Raised(ConsentNotFound);
      }
      var consent := consents[id];
      if consent.status == Revoked {
        return Raised(AlreadyRevoked);
      }
      if chain.None? {
        return Raised(ChainError);
      }
      var previousStatus := consent.status;
      consent := consent.(status := Revoked);
      consent := consent.(revokedAt := Some(now));
      consent := consent.(txId := chain.value);
      consents := consents[id := consent];
      CreateEvent(id, ConsentRevoked, Some(previousStatus), Revoked, now, consent.expiresAt);
      AddAudit(consent.principal, consent.fiduciary, LoggedRevocation, id);
      r := Done;
    }

    method ModifyConsent(id: ConsentId, newPurpose: string, newDataTypes: seq<string>, newDays: int,
                         hash: string, now: int)
      returns (r: Response)
      modifies this`consents, this`events, this`audit
      ensures Outcome(Tables(), r) ==
              Apply(old(Tables()), Modify(id, newPurpose, newDataTypes, newDays, hash), now)
    {
      if id !in consents {
        return Raised(ConsentNotFound);
      }
      var consent := consents[id];
      if consent.status == Revoked {
        return Raised(CannotModifyRevoked);
      }
      var previousStatus, due := consent.status, consent.expiresAt;
      if newPurpose != "" {
        consent := consent.(purpose := newPurpose);
      }
      if newDataTypes != [] {
        consent := consent.(dataTypes := newDataTypes);
      }
      if newDays != 0 {
        consent := consent.(expiresAt := Some(now + newDays * DAY));
      }
      consent := consent.(status := Modified);
      consent := consent.(hash := hash);
      consents := consents[id := consent];
      CreateEvent(id, ConsentModified, Some(previousStatus), Modified, now, due);
      AddAudit(consent.principal, consent.fiduciary, LoggedModification, id);
      r := Done;
    }

    method VerifyConsent(id: ConsentId, now: int) returns (r: Response)
      modifies this`consents
      ensures Outcome(Tables(), r) == Apply(old(Tables()), Verify(id), now)
    {
      if id !in consents {
        return Invalid(ConsentNotFound, None);
      }
      var consent := consents[id];
      if consent.status == Revoked {
        return Invalid(IsRevoked, consent.revokedAt);
      }
      if consent.status == Expired {
        return Invalid(IsExpired, consent.expiresAt);
      }
      if consent.expiresAt.Some? && consent.expiresAt.value < now {
        consents := consents[id := consent.(status := Expired)];
        return Invalid(IsExpired, consent.expiresAt);
      }
      r := Valid(consent);
    }

    method ProcessExpiredConsents(now: int) returns (processed: nat, errors: nat)
      modifies this`consents
      ensures Outcome(Tables(), Swept(processed, errors)) == Apply(old(Tables()), Sweep, now)
    {
      var selected := set id | id in consents && consents[id].status == Granted
                               && consents[id].expiresAt.Some? && consents[id].expiresAt.value < now;
      assert selected == SelectedIds(Tables(), now);
      ghost var before := consents;
      var marked: set<ConsentId> := {};
      processed, errors := 0, 0;
      while selected - marked != {}
        invariant marked <= selected <= before.Keys
        invariant processed == 0 && errors == |marked|
        invariant consents == MarkExpired(before, marked)
        decreases selected - marked
      {
        var id :| id in selected - marked;
        MarkOneMore(before, marked, id);
        consents := consents[id := consents[id].(status := Expired)];
        errors := errors + 1;
        marked := marked + {id};
      }
      assert marked == selected;
    }
  }

  lemma MarkOneMore(consents: map<ConsentId, Consent>, done: set<ConsentId>, id: ConsentId)
    requires id in consents
    ensures var marked := MarkExpired(consents, done);
            marked[id := marked[id].(status := Expired)] == MarkExpired(consents, done + {id})
  {
  }

  // ------------------------------------------------------------------ runs

  /** `extra` marks the calls that were inserted into a run. */
  datatype Call = Call(op: Op, now: int, extra: bool)

  predicate Monotone(calls: seq<Call>, start: int)
    decreases |calls|
  {
    calls == [] || (start <= calls[0].now && Monotone(calls[1..], calls[0].now))
  }

  function LastTime(calls: seq<Call>, start: int): int {
    if calls == [] then start else calls[|calls| - 1].now
  }

  predicate ExtrasAreProbes(calls: seq<Call>) {
    forall c :: c in calls && c.extra ==> c.op.Verify? || c.op.Sweep?
  }

  function After(db: Db, calls: seq<Call>): Db
    decreases |calls|
  {
    if calls == [] then db else After(Apply(db, calls[0].op, calls[0].now).db, calls[1..])
  }

  /** The run without its inserted calls. */
  function Original(calls: seq<Call>): seq<Call>
    decreases |calls|
  {
    if calls == [] then []
    else if calls[0].extra then Original(calls[1..])
    else [calls[0]] + Original(calls[1..])
  }

  /** A sweep's counts are for its log only. */
  function Visible(r: Response): Response {
    if r.Swept? then Swept(0, 0) else r
  }

  /** What the callers of the original run's calls get to see. */
  function Answers(db: Db, calls: seq<Call>): seq<Response>
    decreases |calls|
  {
    if calls == [] then []
    else
      var o := Apply(db, calls[0].op, calls[0].now);
      (if calls[0].extra then [] else [Visible(o.response)]) + Answers(o.db, calls[1..])
  }

  // -------------------------------- sweeps and extra checks are unobservable

  /** `e` is `c`, or `c` marked expired where `c` has not been marked yet although its deadline passed. */
  predicate SameOrUnswept(c: Consent, e: Consent, now: int) {
    e == c || (e == c.(status := Expired) && c.status != Revoked && PastDue(c, now))
  }

  ghost predicate EventsAlike(a: seq<Event>, b: seq<Event>) {
    |a| == |b| && forall k :: 0 <= k < |a| ==> SameButPrevious(a[k], b[k])
  }

  predicate SameButPrevious(a: Event, b: Event) {
    a.(previous := b.previous) == b && (a.previous == b.previous || b.previous == Some(Expired))
  }

  ghost predicate Similar(plain: Db, probed: Db, now: int) {
    && plain.principals == probed.principals && plain.fiduciaries == probed.fiduciaries
    && plain.consents.Keys == probed.consents.Keys
    && (forall id | id in plain.consents :: SameOrUnswept(plain.consents[id], probed.consents[id], now))
    && EventsAlike(plain.events, probed.events)
    && plain.audit == probed.audit
  }

  lemma SameRevokeKeepsSimilar(plain: Db, probed: Db, before: int, op: Op, now: int)
    requires Similar(plain, probed, before) && before <= now && op.Revoke?
    ensures Similar(RevokeOutcome(plain, op, now).db, RevokeOutcome(probed, op, now).db, now)
    ensures RevokeOutcome(plain, op, now).response == RevokeOutcome(probed, op, now).response
  {
  }

  lemma SameModifyKeepsSimilar(plain: Db, probed: Db, before: int, op: Op, now: int)
    requires Similar(plain, probed, before) && before <= now && op.Modify?
    ensures Similar(ModifyOutcome(plain, op, now).db, ModifyOutcome(probed, op, now).db, now)
    ensures ModifyOutcome(plain, op, now).response == ModifyOutcome(probed, op, now).response
  {
  }

  lemma SameCreateKeepsSimilar(plain: Db, probed: Db, before: int, op: Op, now: int)
    requires Similar(plain, probed, before) && before <= now && op.Create?
    ensures Similar(CreateOutcome(plain, op, now).db, CreateOutcome(probed, op, now).db, now)
    ensures CreateOutcome(plain, op, now).response == CreateOutcome(probed, op, now).response
  {
  }

  lemma TimeKeepsSimilar(plain: Db, probed: Db, before: int, now: int)
    requires Similar(plain, probed, before) && before <= now
    ensures Similar(plain, probed, now)
  {
  }

  lemma PutKeepsSimilar(plain: Db, probed: Db, id: ConsentId, c: Consent, e: Consent, now: int)
    requires Similar(plain, probed, now) && SameOrUnswept(c, e, now)
    ensures Similar(Put(plain, id, c), Put(probed, id, e), now)
  {
  }

  lemma SameVerifyKeepsSimilar(plain: Db, probed: Db, before: int, id: ConsentId, now: int)
    requires Similar(plain, probed, before) && before <= now
    ensures Similar(VerifyOutcome(plain, id, now).db, VerifyOutcome(probed, id, now).db, now)
    ensures VerifyOutcome(plain, id, now).response == VerifyOutcome(probed, id, now).response
  {
    TimeKeepsSimilar(plain, probed, before, now);
    if id in plain.consents {
      var c, e := plain.consents[id], probed.consents[id];
      assert SameOrUnswept(c, e, now);
      if c.status != Revoked && PastDue(c, now) {
        PutKeepsSimilar(plain, probed, id, c.(status := Expired), e.(status := Expired), now);
        assert e.status == Expired ==> Put(probed, id, e) == probed;
        assert c.status == Expired ==> Put(plain, id, c) == plain;
      }
    }
  }

  lemma SameSweepKeepsSimilar(plain: Db, probed: Db, before: int, now: int)
    requires Similar(plain, probed, before) && before <= now
    ensures Similar(SweepOutcome(plain, now).db, SweepOutcome(probed, now).db, now)
  {
  }

  lemma SameCallKeepsSimilar(plain: Db, probed: Db, before: int, op: Op, now: int)
    requires Similar(plain, probed, before) && before <= now
    ensures Similar(Apply(plain, op, now).db, Apply(probed, op, now).db, now)
    ensures Visible(Apply(plain, op, now).response) == Visible(Apply(probed, op, now).response)
  {
    match op
    case Create(_, _, _, _, _, _, _, _) => SameCreateKeepsSimilar(plain, probed, before, op, now);
    case Revoke(_, _) => SameRevokeKeepsSimilar(plain, probed, before, op, now);
    case Modify(_, _, _, _, _) => SameModifyKeepsSimilar(plain, probed, before, op, now);
    case Verify(id) => SameVerifyKeepsSimilar(plain, probed, before, id, now);
    case Sweep => SameSweepKeepsSimilar(plain, probed, before, now);
  }

  lemma ProbeKeepsSimilar(plain: Db, probed: Db, before: int, op: Op, now: int)
    requires Similar(plain, probed, before) && before <= now && (op.Verify? || op.Sweep?)
    ensures Similar(plain, Apply(probed, op, now).db, now)
  {
  }

  lemma {:induction false} SimilarRuns(plain: Db, probed: Db, before: int, calls: seq<Call>)
    requires Similar(plain, probed, before) && Monotone(calls, before) && ExtrasAreProbes(calls)
    ensures Answers(plain, Original(calls)) == Answers(probed, calls)
    ensures Similar(After(plain, Original(calls)), After(probed, calls), LastTime(calls, before))
    decreases |calls|
  {
    if calls != [] {
      var call, rest := calls[0], calls[1..];
      var probed' := Apply(probed, call.op, call.now).db;
      if call.extra {
        ProbeKeepsSimilar(plain, probed, before, call.op, call.now);
        SimilarRuns(plain, probed', call.now, rest);
      } else {
        SameCallKeepsSimilar(plain, probed, before, call.op, call.now);
        SimilarRuns(Apply(plain, call.op, call.now).db, probed', call.now, rest);
        assert Original(calls)[1..] == Original(rest);
      }
    }
  }

  /** Inserting any number of sweeps and extra verify calls anywhere in a run whose clock does not go
      back changes no answer of the run: every verify answer is the same in validity, reason, date and
      contents, and every create, revoke and modify succeeds or fails as before. */
  lemma ExpiryMechanismsUnobservable(db: Db, start: int, calls: seq<Call>)
    requires Monotone(calls, start) && ExtrasAreProbes(calls)
    ensures Answers(db, calls) == Answers(db, Original(calls))
    ensures After(db, calls).audit == After(db, Original(calls)).audit
    ensures EventsAlike(After(db, Original(calls)).events, After(db, calls).events)
  {
    SimilarRuns(db, db, start, calls);
  }

  /** The instants a run's calls read off the clock. */
  function Readings(calls: seq<Call>): (r: seq<int>)
    ensures |r| == |calls|
  {
    seq(|calls|, i requires 0 <= i < |calls| => calls[i].now)
  }

  predicate NonDecreasing(times: seq<int>)
    decreases |times|
  {
    |times| < 2 || (times[0] <= times[1] && NonDecreasing(times[1..]))
  }

  lemma {:induction false} NonDecreasingIsMonotone(calls: seq<Call>)
    requires calls != [] && NonDecreasing(Readings(calls))
    ensures Monotone(calls, calls[0].now)
    decreases |calls|
  {
    if |calls| > 1 {
      assert Readings(calls)[1..] == Readings(calls[1..]);
      NonDecreasingIsMonotone(calls[1..]);
    }
  }

  ghost predicate ProbesUnobservable(db: Db, calls: seq<Call>) {
    Answers(db, calls) == Answers(db, Original(calls))
  }

  /** Inserted calls that look for a consent that does not exist leave everything as it is. */
  function Idle(times: seq<int>): (r: seq<Call>)
    ensures |r| == |times|
  {
    seq(|times|, i requires 0 <= i < |times| => Call(Verify(1), times[i], true))
  }

  lemma {:induction false} IdleDoesNothing(db: Db, times: seq<int>)
    requires 1 !in db.consents
    ensures Answers(db, Idle(times)) == [] && Original(Idle(times)) == []
    decreases |times|
  {
    if times != [] {
      assert Idle(times)[1..] == Idle(times[1..]);
      IdleDoesNothing(db, times[1..]);
    }
  }

  function Doomed(deadline: int): Db {
    var c := Consent(0, 0, "RESEARCH", [], Granted, 0, Some(deadline), None, "", "");
    Db({0}, {0}, map[0 := c], [], [])
  }

  /** A sweep inserted between two readings of which the second is earlier turns a verify's answer from valid
      to expired. */
  lemma SweepBeforeEarlierVerify(times: seq<int>)
    requires |times| >= 2 && times[0] > times[1]
    ensures var calls := [Call(Sweep, times[0], true), Call(Verify(0), times[1], false)] + Idle(times[2..]);
            Readings(calls) == times && ExtrasAreProbes(calls) && !ProbesUnobservable(Doomed(times[1]), calls)
  {
    var db, rest := Doomed(times[1]), Idle(times[2..]);
    var sweep, check := Call(Sweep, times[0], true), Call(Verify(0), times[1], false);
    var calls := [sweep, check] + rest;
    var swept := SweepOutcome(db, times[0]).db;
    assert calls[1..] == [check] + rest && ([check] + rest)[1..] == rest;
    IdleDoesNothing(db, times[2..]);
    IdleDoesNothing(VerifyOutcome(swept, 0, times[1]).db, times[2..]);
    assert Original([check] + rest) == [check] && [check][1..] == [];
    assert swept.consents[0].status == Expired;
    assert Answers(db, [check]) == [Valid(db.consents[0])];
    assert Answers(swept, [check] + rest) == [Invalid(IsExpired, Some(times[1]))];
    assert Answers(db, calls)[0] != Answers(db, [check])[0];
  }

  lemma {:induction false} DescentIsObservable(times: seq<int>) returns (db: Db, calls: seq<Call>)
    requires !NonDecreasing(times)
    ensures Readings(calls) == times && ExtrasAreProbes(calls) && 1 !in db.consents && !ProbesUnobservable(db, calls)
    decreases |times|
  {
    if times[0] > times[1] {
      SweepBeforeEarlierVerify(times);
      db := Doomed(times[1]);
      calls := [Call(Sweep, times[0], true), Call(Verify(0), times[1], false)] + Idle(times[2..]);
    } else {
      var idle, rest := Call(Verify(1), times[0], true), [];
      db, rest := DescentIsObservable(times[1..]);
      calls := [idle] + rest;
      assert calls[1..] == rest && Readings(calls) == [times[0]] + Readings(rest);
    }
  }

  /** Exactly which clocks keep the expiry mechanisms unobservable: for a sequence of clock readings, no
      insertion of sweeps and verify calls into any run with those readings on any database changes an answer,
      if and only if no reading is earlier than the one before it. */
  lemma UnobservableExactlyWithoutDescent(times: seq<int>)
    ensures (forall db: Db, calls: seq<Call> | Readings(calls) == times && ExtrasAreProbes(calls) ::
               ProbesUnobservable(db, calls))
            <==> NonDecreasing(times)
  {
    if NonDecreasing(times) {
      forall db: Db, calls: seq<Call> | Readings(calls) == times && ExtrasAreProbes(calls)
        ensures ProbesUnobservable(db, calls)
      {
        if calls != [] {
          NonDecreasingIsMonotone(calls);
          ExpiryMechanismsUnobservable(db, calls[0].now, calls);
        }
      }
    } else {
      var db, calls := DescentIsObservable(times);
    }
  }

  // ------------------------------------------------ the history of a consent

  /** get_consent_history: the event rows of one consent in the order they were written. */
  function EventsOf(events: seq<Event>, id: ConsentId): seq<Event>
    decreases |events|
  {
    if events == [] then []
    else
      var last := events[|events| - 1];
      EventsOf(events[..|events| - 1], id) + (if last.consent == id then [last] else [])
  }

  lemma EventsOfAppend(events: seq<Event>, e: Event, id: ConsentId)
    ensures EventsOf(events + [e], id) == EventsOf(events, id) + (if e.consent == id then [e] else [])
  {
    assert (events + [e])[..|events|] == events;
  }

  predicate KindFitsStatus(e: Event) {
    match e.kind
    case ConsentGranted => e.next == Granted
    case ConsentRevoked => e.next == Revoked
    case ConsentModified => e.next == Modified
  }

  /** `e` continues from where `before` left the consent, or from a lazy or swept expiry that wrote no
      row and whose deadline had passed.  Nothing follows a revocation. */
  predicate Follows(before: Event, e: Event) {
    && before.next != Revoked
    && (e.previous == Some(before.next)
        || (e.previous == Some(Expired) && e.dueBefore.Some? && e.dueBefore.value < e.at))
  }

  ghost predicate Chained(history: seq<Event>) {
    && (history != [] ==> history[0].kind == ConsentGranted && history[0].previous == None)
    && (forall k :: 0 <= k < |history| ==> KindFitsStatus(history[k]))
    && (forall k :: 0 < k < |history| ==>
          history[k].kind != ConsentGranted && Follows(history[k - 1], history[k]))
  }

  /** The record stands where its last event left it, or expired since. */
  predicate UpToDate(last: Event, c: Consent, now: int) {
    c.status == last.next || (c.status == Expired && last.next != Revoked && PastDue(c, now))
  }

  ghost predicate HistoryFits(db: Db, id: ConsentId, now: int) {
    var history := EventsOf(db.events, id);
    && Chained(history)
    && (id in db.consents <==> history != [])
    && (id in db.consents ==> UpToDate(history[|history| - 1], db.consents[id], now))
  }

  predicate SameOrExpired(c: Consent, c': Consent, now: int) {
    c' == c || (c' == c.(status := Expired) && c.status != Revoked && PastDue(c, now))
  }

  /** Calls that write no event at most expire records. */
  lemma SilentCallExpiresAtMost(db: Db, op: Op, now: int, id: ConsentId)
    requires op.Verify? || op.Sweep?
    ensures var db' := Apply(db, op, now).db;
            && db'.events == db.events && (id in db'.consents <==> id in db.consents)
            && (id in db.consents ==> SameOrExpired(db.consents[id], db'.consents[id], now))
  {
  }

  lemma SilentCallKeepsHistory(db: Db, before: int, op: Op, now: int, id: ConsentId)
    requires HistoryFits(db, id, before) && before <= now && (op.Verify? || op.Sweep?)
    ensures HistoryFits(Apply(db, op, now).db, id, now)
  {
    SilentCallExpiresAtMost(db, op, now, id);
    var db' := Apply(db, op, now).db;
    if id in db.consents {
      var history := EventsOf(db.events, id);
      ExpiredSinceStaysUpToDate(history[|history| - 1], db.consents[id], db'.consents[id], before, now);
    }
  }

  lemma ExpiredSinceStaysUpToDate(last: Event, c: Consent, c': Consent, before: int, now: int)
    requires UpToDate(last, c, before) && before <= now && SameOrExpired(c, c', now)
    ensures UpToDate(last, c', now)
  {
  }

  lemma LongerChain(history: seq<Event>, e: Event)
    requires Chained(history) && KindFitsStatus(e)
    requires history == [] ==> e.kind == ConsentGranted && e.previous == None
    requires history != [] ==> e.kind != ConsentGranted && Follows(history[|history| - 1], e)
    ensures Chained(history + [e])
  {
  }

  lemma ContinuesFromRecord(history: seq<Event>, prior: Consent, e: Event, before: int)
    requires Chained(history) && history != [] && UpToDate(history[|history| - 1], prior, before)
    requires prior.status != Revoked && e.previous == Some(prior.status) && e.dueBefore == prior.expiresAt
    requires before <= e.at
    ensures Follows(history[|history| - 1], e)
  {
    assert KindFitsStatus(history[|history| - 1]);
  }

  lemma NewEventKeepsHistory(db: Db, db': Db, before: int, id: ConsentId, c: Consent, e: Event, now: int)
    requires db'.consents == db.consents[e.consent := c] && db'.events == db.events + [e]
    requires HistoryFits(db, e.consent, before) && HistoryFits(db, id, before) && before <= now == e.at
    requires KindFitsStatus(e) && c.status == e.next
    requires if e.consent in db.consents then
               var prior := db.consents[e.consent];
               && e.kind != ConsentGranted && prior.status != Revoked
               && e.previous == Some(prior.status) && e.dueBefore == prior.expiresAt
             else e.kind == ConsentGranted && e.previous == None
    ensures HistoryFits(db', id, now)
  {
    EventsOfAppend(db.events, e, id);
    var history := EventsOf(db.events, id);
    if e.consent == id {
      if history != [] {
        ContinuesFromRecord(history, db.consents[id], e, before);
      }
      LongerChain(history, e);
    } else {
      assert id in db'.consents <==> id in db.consents;
    }
  }

  lemma RevokeKeepsHistory(db: Db, before: int, op: Op, now: int, id: ConsentId)
    requires HistoryFits(db, id, before) && before <= now && op.Revoke? && HistoryFits(db, op.id, before)
    ensures HistoryFits(RevokeOutcome(db, op, now).db, id, now)
  {
    var db' := RevokeOutcome(db, op, now).db;
    if RevokeOutcome(db, op, now).response == Done {
      NewEventKeepsHistory(db, db', before, id, db'.consents[op.id], db'.events[|db.events|], now);
    }
  }

  lemma ModifyKeepsHistory(db: Db, before: int, op: Op, now: int, id: ConsentId)
    requires HistoryFits(db, id, before) && before <= now && op.Modify? && HistoryFits(db, op.id, before)
    ensures HistoryFits(ModifyOutcome(db, op, now).db, id, now)
  {
    var db' := ModifyOutcome(db, op, now).db;
    if ModifyOutcome(db, op, now).response == Done {
      NewEventKeepsHistory(db, db', before, id, db'.consents[op.id], db'.events[|db.events|], now);
    }
  }

  lemma CallKeepsHistory(db: Db, before: int, op: Op, now: int, id: ConsentId)
    requires before <= now && forall i :: HistoryFits(db, i, before)
    ensures HistoryFits(Apply(db, op, now).db, id, now)
  {
    match op
    case Create(_, _, _, _, _, _, _, _) =>
      if CreateRefusal(db, op).None? {
        var db' := Apply(db, op, now).db;
        NewEventKeepsHistory(db, db', before, id, db'.consents[op.id], db'.events[|db.events|], now);
      }
    case Revoke(_, _) => RevokeKeepsHistory(db, before, op, now, id);
    case Modify(_, _, _, _, _) => ModifyKeepsHistory(db, before, op, now, id);
    case _ => SilentCallKeepsHistory(db, before, op, now, id);
  }

  lemma {:induction false} RunKeepsHistory(db: Db, start: int, calls: seq<Call>)
    requires forall id :: HistoryFits(db, id, start)
    requires Monotone(calls, start)
    ensures forall id :: HistoryFits(After(db, calls), id, LastTime(calls, start))
    decreases |calls|
  {
    if calls != [] {
      var db' := Apply(db, calls[0].op, calls[0].now).db;
      forall id
        ensures HistoryFits(db', id, calls[0].now)
      {
        CallKeepsHistory(db, start, calls[0].op, calls[0].now, id);
      }
      RunKeepsHistory(db', calls[0].now, calls[1..]);
      assert LastTime(calls, start) == LastTime(calls[1..], calls[0].now);
    }
  }

  lemma SucceededIsNotRevocation(history: seq<Event>, k: nat)
    requires Chained(history) && k + 1 < |history|
    ensures history[k].kind != ConsentRevoked
  {
    var next := k + 1;
    assert KindFitsStatus(history[k]) && Follows(history[next - 1], history[next]);
  }

  /** In every run each event's previous status is the status its predecessor left, or EXPIRED after a
      deadline that had passed, and a revocation occurs at most once and as the last event. */
  lemma HistoryIsAChain(principals: set<PartyId>, fiduciaries: set<PartyId>, start: int, calls: seq<Call>,
                        id: ConsentId)
    requires Monotone(calls, start)
    ensures var history := EventsOf(After(Empty(principals, fiduciaries), calls).events, id);
            && Chained(history)
            && forall k :: 0 <= k < |history| && history[k].kind == ConsentRevoked ==> k == |history| - 1
  {
    var db := Empty(principals, fiduciaries);
    RunKeepsHistory(db, start, calls);
    assert HistoryFits(After(db, calls), id, LastTime(calls, start));
    var history := EventsOf(After(db, calls).events, id);
    forall k | 0 <= k < |history| - 1
      ensures history[k].kind != ConsentRevoked
    {
      SucceededIsNotRevocation(history, k);
    }
  }

  /** No call touches a revoked record or writes an event about it. */
  lemma RevokedRecordStays(db: Db, op: Op, now: int, id: ConsentId)
    requires id in db.consents && db.consents[id].status == Revoked
    ensures var db' := Apply(db, op, now).db;
            && id in db'.consents && db'.consents[id] == db.consents[id]
            && (db'.events != db.events ==>
                  |db'.events| > 0 && db'.events[..|db'.events| - 1] == db.events
                  && db'.events[|db'.events| - 1].consent != id)
  {
  }

  lemma RevokedOnce(db: Db, op: Op, now: int, id: ConsentId)
    requires id in db.consents && db.consents[id].status == Revoked
    ensures var db' := Apply(db, op, now).db;
            && id in db'.consents && db'.consents[id] == db.consents[id]
            && EventsOf(db'.events, id) == EventsOf(db.events, id)
  {
    RevokedRecordStays(db, op, now, id);
  }

  /** REVOKED is absorbing: whatever is called later, the record and its history stay as they are and
      verify answers that the consent was revoked, with the date it was. */
  lemma {:induction false} RevokedForever(db: Db, calls: seq<Call>, id: ConsentId, now: int)
    requires id in db.consents && db.consents[id].status == Revoked
    ensures var later := After(db, calls);
            && id in later.consents && later.consents[id] == db.consents[id]
            && EventsOf(later.events, id) == EventsOf(db.events, id)
            && VerifyOutcome(later, id, now).response == Invalid(IsRevoked, db.consents[id].revokedAt)
    decreases |calls|
  {
    if calls != [] {
      var db' := Apply(db, calls[0].op, calls[0].now).db;
      RevokedOnce(db, calls[0].op, calls[0].now, id);
      RevokedForever(db', calls[1..], id, now);
    }
  }

  /** A sweep does all the expiry work that verify would do at that moment, except for the records the
      sweep does not select: a verify right after it writes exactly where a past-due record is MODIFIED
      or still PENDING. */
  lemma SweepLeavesOnlyUnselected(db: Db, now: int, id: ConsentId)
    ensures var swept := SweepOutcome(db, now).db;
            VerifyOutcome(swept, id, now).db != swept
            <==> id in db.consents && PastDue(db.consents[id], now) && db.consents[id].status in {Modified, Pending}
  {
    var swept := SweepOutcome(db, now).db;
    if id in db.consents {
      var after := VerifyOutcome(swept, id, now).db;
      assert after != swept ==> after.consents[id].status == Expired;
      assert swept.consents[id].status != Expired && after.consents[id].status == Expired ==> after != swept;
    }
  }
}
