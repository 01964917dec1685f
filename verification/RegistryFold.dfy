/** What the on-chain registry holds and whom it lets do what, told by the calls that succeeded before. */
module RegistryFold {
  import opened Wrappers
  import opened ConsentRegistry

  // ------------------------------------------------- the calls that succeeded

  /** The submissions of the run that succeeded, in order. */
  function Succeeded(creator: Address, run: seq<Submission>): seq<Submission>
    decreases |run|
  {
    if run == [] then []
    else
      var before, last := run[..|run| - 1], run[|run| - 1];
      var outcome := Execute(After(Deployed(creator), before).registry, last.call, last.txn);
      Succeeded(creator, before) + (if outcome.Ok? then [last] else [])
  }

  /** Those on one hash. */
  function On(done: seq<Submission>, hash: Hash): seq<Submission> {
    if done == [] then []
    else
      var last := done[|done| - 1];
      On(done[..|done| - 1], hash) + (if last.call.hash == hash then [last] else [])
  }

  datatype Tally = Tally(registered: nat, revoked: nat, expired: nat)

  function TallyOf(done: seq<Submission>): Tally {
    if done == [] then Tally(0, 0, 0)
    else
      var before := TallyOf(done[..|done| - 1]);
      match done[|done| - 1].call
      case Register(_, _, _, _, _, _) => before.(registered := before.registered + 1)
      case Revoke(_) => before.(revoked := before.revoked + 1)
      case Modify(_, _, _) => before
      case Expire(_) => before.(expired := before.expired + 1)
  }

  // --------------------------------------------------- a record, by its calls

  predicate StartsRegistered(calls: seq<Submission>) {
    calls != [] && calls[0].call.Register?
  }

  function Last(calls: seq<Submission>): Submission
    requires calls != []
  {
    calls[|calls| - 1]
  }

  /** The latest registration. */
  function Registration(calls: seq<Submission>): (reg: Submission)
    requires StartsRegistered(calls)
    ensures reg.call.Register? && reg in calls
  {
    if Last(calls).call.Register? then Last(calls) else Registration(calls[..|calls| - 1])
  }

  /** The purpose last given: a modification with an empty one keeps it. */
  function PurposeGiven(calls: seq<Submission>): string
    requires StartsRegistered(calls)
  {
    var call := Last(calls).call;
    if call.Register? then call.purpose
    else if call.Modify? && call.newPurpose != "" then call.newPurpose
    else PurposeGiven(calls[..|calls| - 1])
  }

  /** The expiry round last given: a modification with zero keeps it. */
  function ExpiryGiven(calls: seq<Submission>): nat
    requires StartsRegistered(calls)
  {
    var call := Last(calls).call;
    if call.Register? then call.expiresAt
    else if call.Modify? && call.newExpiresAt != 0 then call.newExpiresAt
    else ExpiryGiven(calls[..|calls| - 1])
  }

  function Left(call: Call): Status {
    match call
    case Register(_, _, _, _, _, _) => Granted
    case Revoke(_) => Revoked
    case Modify(_, _, _) => Modified
    case Expire(_) => Expired
  }

  predicate RecordIs(data: ConsentData, calls: seq<Submission>)
    requires StartsRegistered(calls)
  {
    var reg := Registration(calls);
    && data.principal == reg.call.principal && data.fiduciary == reg.call.fiduciary
    && data.dataTypesHash == reg.call.dataTypesHash && data.grantedAt == reg.txn.round
    && data.room == |reg.call.purpose|
    && data.purpose == PurposeGiven(calls) && data.expiresAt == ExpiryGiven(calls)
    && data.status == Left(Last(calls).call)
    && data.revokedAt == if Last(calls).call.Revoke? then Last(calls).txn.round else 0
  }

  predicate BoxIs(boxes: map<Hash, ConsentData>, hash: Hash, calls: seq<Submission>) {
    if calls == [] then hash !in boxes
    else StartsRegistered(calls) && hash in boxes && RecordIs(boxes[hash], calls)
  }

  ghost predicate CountersAre(r: Registry, creator: Address, tally: Tally) {
    && r.admin == creator
    && r.total == tally.registered
    && r.revoked == tally.revoked
    && r.active + tally.revoked + tally.expired == tally.registered
  }

  // ------------------------------------------------------------ what is kept

  lemma {:induction false} AfterLast(s: System, run: seq<Submission>)
    requires run != []
    ensures After(s, run) == Submit(After(s, run[..|run| - 1]), run[|run| - 1])
    decreases |run|
  {
    if |run| > 1 {
      AfterLast(Submit(s, run[0]), run[1..]);
      assert run[1..][..|run| - 2] == run[..|run| - 1][1..];
    }
  }

  lemma OneMoreCall(calls: seq<Submission>, sub: Submission)
    requires StartsRegistered(calls) && !sub.call.Register?
    ensures var more := calls + [sub];
            && StartsRegistered(more) && Last(more) == sub && Registration(more) == Registration(calls)
            && PurposeGiven(more) == (if sub.call.Modify? && sub.call.newPurpose != "" then sub.call.newPurpose
                                      else PurposeGiven(calls))
            && ExpiryGiven(more) == (if sub.call.Modify? && sub.call.newExpiresAt != 0 then sub.call.newExpiresAt
                                     else ExpiryGiven(calls))
  {
    assert (calls + [sub])[..|calls|] == calls;
  }

  lemma RegisterKeepsBox(r: Registry, sub: Submission, calls: seq<Submission>)
    requires sub.call.Register? && Execute(r, sub.call, sub.txn).Ok? && BoxIs(r.boxes, sub.call.hash, calls)
    ensures BoxIs(Execute(r, sub.call, sub.txn).value.boxes, sub.call.hash, calls + [sub])
  {
    assert Last(calls + [sub]) == sub && StartsRegistered(calls + [sub]);
  }

  lemma CallKeepsBox(r: Registry, sub: Submission, calls: seq<Submission>)
    requires Execute(r, sub.call, sub.txn).Ok? && BoxIs(r.boxes, sub.call.hash, calls)
    ensures BoxIs(Execute(r, sub.call, sub.txn).value.boxes, sub.call.hash, calls + [sub])
  {
    if sub.call.Register? {
      RegisterKeepsBox(r, sub, calls);
    } else {
      OneMoreCall(calls, sub);
    }
  }

  lemma OtherBoxesStay(r: Registry, sub: Submission, hash: Hash)
    requires Execute(r, sub.call, sub.txn).Ok? && hash != sub.call.hash
    ensures var boxes := Execute(r, sub.call, sub.txn).value.boxes;
            (hash in boxes <==> hash in r.boxes) && (hash in boxes ==> boxes[hash] == r.boxes[hash])
  {
  }

  lemma CallCounts(r: Registry, creator: Address, sub: Submission, done: seq<Submission>)
    requires Execute(r, sub.call, sub.txn).Ok? && CountersAre(r, creator, TallyOf(done))
    ensures CountersAre(Execute(r, sub.call, sub.txn).value, creator, TallyOf(done + [sub]))
  {
    assert (done + [sub])[..|done|] == done;
  }

  ghost predicate IsTheFold(r: Registry, creator: Address, done: seq<Submission>, hash: Hash) {
    CountersAre(r, creator, TallyOf(done)) && BoxIs(r.boxes, hash, On(done, hash))
  }

  lemma CallKeepsFold(r: Registry, creator: Address, sub: Submission, done: seq<Submission>, hash: Hash)
    requires Execute(r, sub.call, sub.txn).Ok? && IsTheFold(r, creator, done, hash)
    ensures IsTheFold(Execute(r, sub.call, sub.txn).value, creator, done + [sub], hash)
  {
    CallCounts(r, creator, sub, done);
    assert (done + [sub])[..|done|] == done;
    if sub.call.hash == hash {
      CallKeepsBox(r, sub, On(done, hash));
    } else {
      OtherBoxesStay(r, sub, hash);
      assert On(done + [sub], hash) == On(done, hash);
    }
  }

  /** After every run the counters count the calls that succeeded, and a box holds what those on its hash gave
      it: the parties, data types and round of the latest registration, the purpose and expiry round last
      given, and the status that the latest call leaves. */
  lemma {:induction false} RegistryIsTheFold(creator: Address, run: seq<Submission>, hash: Hash)
    ensures var r, done := After(Deployed(creator), run).registry, Succeeded(creator, run);
            IsTheFold(r, creator, done, hash)
    decreases |run|
  {
    if run != [] {
      var before, sub := run[..|run| - 1], run[|run| - 1];
      var r, done := After(Deployed(creator), before).registry, Succeeded(creator, before);
      RegistryIsTheFold(creator, before, hash);
      AfterLast(Deployed(creator), run);
      var outcome := Execute(r, sub.call, sub.txn);
      if outcome.Ok? {
        CallKeepsFold(r, creator, sub, done, hash);
        assert Succeeded(creator, run) == done + [sub];
        assert After(Deployed(creator), run).registry == outcome.value;
      } else {
        assert Succeeded(creator, run) == done;
        assert After(Deployed(creator), run).registry == r;
      }
    }
  }

  // ------------------------------------------------------- who may do what

  /** In every run, with `calls` the earlier successful calls on the hash: a registration succeeds if and only
      if the creator or the named principal sends it; a revocation, if the latest of `calls` is a registration
      and its principal sends it; a modification, if the latest is no revocation, the principal of the latest
      registration sends it and the purpose fits into the box made then; an expiry, whoever sends it, if the
      latest is a registration whose expiry round is over.  The first two also need room in the counters that
      they increase. */
  lemma SucceedsExactly(creator: Address, run: seq<Submission>, call: Call, t: Txn)
    ensures var r, done := After(Deployed(creator), run).registry, Succeeded(creator, run);
            var calls, tally := On(done, call.hash), TallyOf(done);
            && (calls != [] ==> StartsRegistered(calls))
            && (Execute(r, call, t).Ok? <==>
                  match call
                  case Register(_, principal, _, _, _, _) =>
                    (t.sender == creator || t.sender == principal) && tally.registered < 18446744073709551615
                  case Revoke(_) =>
                    && calls != [] && Last(calls).call.Register? && t.sender == Last(calls).call.principal
                    && tally.revoked < 18446744073709551615
                  case Modify(_, newPurpose, _) =>
                    && calls != [] && !Last(calls).call.Revoke?
                    && t.sender == Registration(calls).call.principal
                    && |newPurpose| <= |Registration(calls).call.purpose|
                  case Expire(_) =>
                    calls != [] && Last(calls).call.Register? && Last(calls).call.expiresAt < t.round)
  {
    RegistryIsTheFold(creator, run, call.hash);
    NeverUnderflows(creator, run, Submission(call, t));
    CountersStayBelow(creator, run);
  }

  /** The first of a call's checks that fails, in the order in which it makes them. */
  function FirstFailure(creator: Address, tally: Tally, calls: seq<Submission>, call: Call, t: Txn): Option<Failure>
    requires calls != [] ==> StartsRegistered(calls)
  {
    if call.Register? then
      if t.sender != creator && t.sender != call.principal then Some(Unauthorized)
      else if tally.registered == 18446744073709551615 then Some(Overflow)
      else None
    else if calls == [] then Some(NotFound)
    else if call.Expire? then
      if !Last(calls).call.Register? then Some(NotActive)
      else if t.round <= Last(calls).call.expiresAt then Some(NotYetExpired)
      else None
    else if t.sender != Registration(calls).call.principal then Some(OnlyPrincipal)
    else if call.Revoke? then
      if !Last(calls).call.Register? then Some(NotActive)
      else if tally.revoked == 18446744073709551615 then Some(Overflow)
      else None
    else if Last(calls).call.Revoke? then Some(CannotModifyRevoked)
    else if |call.newPurpose| > |Registration(calls).call.purpose| then Some(BoxTooSmall)
    else None
  }

  /** And every refusal names the first check that fails. */
  lemma RefusalsAreTheFold(creator: Address, run: seq<Submission>, call: Call, t: Txn)
    ensures var r, done := After(Deployed(creator), run).registry, Succeeded(creator, run);
            var calls, outcome := On(done, call.hash), Execute(r, call, t);
            && (calls != [] ==> StartsRegistered(calls))
            && match FirstFailure(creator, TallyOf(done), calls, call, t)
               case Some(failure) => outcome == Err(failure)
               case None => outcome.Ok?
  {
    RegistryIsTheFold(creator, run, call.hash);
    NeverUnderflows(creator, run, Submission(call, t));
    CountersStayBelow(creator, run);
  }

  lemma {:induction false} CountersStayBelow(creator: Address, run: seq<Submission>)
    ensures var r := After(Deployed(creator), run).registry;
            r.active <= r.total <= MAX_UINT64 && r.revoked <= MAX_UINT64
    decreases |run|
  {
    RegistryIsTheFold(creator, run, 0);
    if run != [] {
      CountersStayBelow(creator, run[..|run| - 1]);
      AfterLast(Deployed(creator), run);
    }
  }
}
