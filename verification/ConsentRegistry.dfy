/** The on-chain consent registry (version 2): one box per consent hash and three uint64 counters.

    A call whose assertion fails, or whose counter would leave the uint64 range, is rejected as a whole. */
module ConsentRegistry {
  import opened Wrappers

  const MAX_UINT64: nat := 0xFFFF_FFFF_FFFF_FFFF

  type Hash = nat
  type Address = nat

  datatype Status = Pending | Granted | Revoked | Expired | Modified

  /** A purpose is its encoded bytes, one character each.  `room` is how many of them the box was made for. */
  datatype ConsentData = ConsentData(
    principal: Address,
    fiduciary: Address,
    purpose: string,
    dataTypesHash: Hash,
    status: Status,
    grantedAt: nat,
    expiresAt: nat,
    revokedAt: nat,
    room: nat)

  datatype Registry = Registry(
    admin: Address,
    total: nat,
    active: nat,
    revoked: nat,
    boxes: map<Hash, ConsentData>)

  datatype Failure =
    | Unauthorized | NotFound | OnlyPrincipal | NotActive | CannotModifyRevoked | NotYetExpired
    | BoxTooSmall | Overflow | Underflow

  datatype Txn = Txn(sender: Address, round: nat)

  datatype Call =
    | Register(hash: Hash, principal: Address, fiduciary: Address, purpose: string,
               dataTypesHash: Hash, expiresAt: nat)
    | Revoke(hash: Hash)
    | Modify(hash: Hash, newPurpose: string, newExpiresAt: nat)
    | Expire(hash: Hash)

  // --------------------------------------------------- what each call does

  function RegisterBy(r: Registry, c: Call, t: Txn): Result<Registry, Failure>
    requires c.Register?
  {
    if t.sender != r.admin && t.sender != c.principal then Err(Unauthorized)
    else if r.total == MAX_UINT64 || r.active == MAX_UINT64 then Err(Overflow)
    else
      var data := ConsentData(c.principal, c.fiduciary, c.purpose, c.dataTypesHash, Granted, t.round, c.expiresAt, 0,
                              |c.purpose|);
      Ok(r.(boxes := r.boxes[c.hash := data], total := r.total + 1, active := r.active + 1))
  }

  function RevokeBy(r: Registry, c: Call, t: Txn): Result<Registry, Failure>
    requires c.Revoke?
  {
    if c.hash !in r.boxes then Err(NotFound)
    else
      var data := r.boxes[c.hash];
      if t.sender != data.principal then Err(OnlyPrincipal)
      else if data.status != Granted then Err(NotActive)
      else if r.active == 0 then Err(Underflow)
      else if r.revoked == MAX_UINT64 then Err(Overflow)
      else
        Ok(r.(boxes := r.boxes[c.hash := data.(status := Revoked, revokedAt := t.round)],
              active := r.active - 1, revoked := r.revoked + 1))
  }

  /** The record is written back into a box of fixed size. */
  function ModifyBy(r: Registry, c: Call, t: Txn): Result<Registry, Failure>
    requires c.Modify?
  {
    if c.hash !in r.boxes then Err(NotFound)
    else
      var data := r.boxes[c.hash];
      if t.sender != data.principal then Err(OnlyPrincipal)
      else if data.status == Revoked then Err(CannotModifyRevoked)
      else if |c.newPurpose| > data.room then Err(BoxTooSmall)
      else
        Ok(r.(boxes := r.boxes[c.hash := data.(
          purpose := if c.newPurpose != "" then c.newPurpose else data.purpose,
          expiresAt := if c.newExpiresAt > 0 then c.newExpiresAt else data.expiresAt,
          status := Modified)]))
  }

  function ExpireBy(r: Registry, c: Call, t: Txn): Result<Registry, Failure>
    requires c.Expire?
  {
    if c.hash !in r.boxes then Err(NotFound)
    else
      var data := r.boxes[c.hash];
      if data.status != Granted then Err(NotActive)
      else if t.round <= data.expiresAt then Err(NotYetExpired)
      else if r.active == 0 then Err(Underflow)
      else Ok(r.(boxes := r.boxes[c.hash := data.(status := Expired)], active := r.active - 1))
  }

  function Execute(r: Registry, c: Call, t: Txn): Result<Registry, Failure> {
    match c
    case Register(_, _, _, _, _, _) => RegisterBy(r, c, t)
    case Revoke(_) => RevokeBy(r, c, t)
    case Modify(_, _, _) => ModifyBy(r, c, t)
    case Expire(_) => ExpireBy(r, c, t)
  }

  /** The read-only check. */
  predicate Verifies(r: Registry, hash: Hash, round: nat) {
    && hash in r.boxes
    && r.boxes[hash].status == Granted
    && (r.boxes[hash].expiresAt == 0 || round <= r.boxes[hash].expiresAt)
  }

  // ------------------------------------------------------------ the class

  /** What a call leaves: the new state, or the old one when it was rejected. */
  function Settled(before: Registry, outcome: Result<Registry, Failure>): Registry {
    if outcome.Ok? then outcome.value else before
  }

  class Contract {
    const admin: Address
    var total: nat
    var active: nat
    var revoked: nat
    var boxes: map<Hash, ConsentData>

    constructor (creator: Address)
      ensures View() == Registry(creator, 0, 0, 0, map[])
    {
      admin, total, active, revoked, boxes := creator, 0, 0, 0, map[];
    }

    ghost function View(): Registry
      reads this
    {
      Registry(admin, total, active, revoked, boxes)
    }

    method RegisterConsent(hash: Hash, principal: Address, fiduciary: Address, purpose: string,
                           dataTypesHash: Hash, expiresAt: nat, t: Txn)
      returns (r: Result<Hash, Failure>)
      modifies this
      ensures var call := Register(hash, principal, fiduciary, purpose, dataTypesHash, expiresAt);
              var outcome := Execute(old(View()), call, t);
              && View() == Settled(old(View()), outcome)
              && r == if outcome.Ok? then Ok(hash) else Err(outcome.error)
    {
      if !(t.sender == admin || t.sender == principal) {
        return Err(Unauthorized);
      }
      if total == MAX_UINT64 || active == MAX_UINT64 {
        return Err(Overflow);
      }
      var data := ConsentData(principal, fiduciary, purpose, dataTypesHash, Granted, t.round, expiresAt, 0,
                              |purpose|);
      boxes := boxes[hash := data];
      total := total + 1;
      active := active + 1;
      r := Ok(hash);
    }

    method RevokeConsent(hash: Hash, t: Txn) returns (r: Result<bool, Failure>)
      modifies this
      ensures var outcome := Execute(old(View()), Revoke(hash), t);
              && View() == Settled(old(View()), outcome)
              && r == if outcome.Ok? then Ok(true) else Err(outcome.error)
      ensures r.Ok? <==> hash in old(boxes) && t.sender == old(boxes)[hash].principal
                         && old(boxes)[hash].status == Granted && old(active) != 0 && old(revoked) != MAX_UINT64
    {
      if hash !in boxes {
        return Err(NotFound);
      }
      var stored := boxes[hash];
      if t.sender != stored.principal {
        return Err(OnlyPrincipal);
      }
      if stored.status != Granted {
        return Err(NotActive);
      }
      if active == 0 {
        return Err(Underflow);
      }
      if revoked == MAX_UINT64 {
        return Err(Overflow);
      }
      stored := stored.(status := Revoked);
      stored := stored.(revokedAt := t.round);
      boxes := boxes[hash := stored];
      active := active - 1;
      revoked := revoked + 1;
      r := Ok(true);
    }

    method ModifyConsent(hash: Hash, newPurpose: string, newExpiresAt: nat, t: Txn)
      returns (r: Result<bool, Failure>)
      modifies this
      ensures var outcome := Execute(old(View()), Modify(hash, newPurpose, newExpiresAt), t);
              && View() == Settled(old(View()), outcome)
              && r == if outcome.Ok? then Ok(true) else Err(outcome.error)
    {
      if hash !in boxes {
        return Err(NotFound);
      }
      var stored := boxes[hash];
      if t.sender != stored.principal {
        return Err(OnlyPrincipal);
      }
      if stored.status == Revoked {
        return Err(CannotModifyRevoked);
      }
      if |newPurpose| > 0 {
        stored := stored.(purpose := newPurpose);
      }
      if newExpiresAt > 0 {
        stored := stored.(expiresAt := newExpiresAt);
      }
      stored := stored.(status := Modified);
      if |newPurpose| > stored.room {
        return Err(BoxTooSmall);
      }
      boxes := boxes[hash := stored];
      r := Ok(true);
    }

    method ExpireConsent(hash: Hash, t: Txn) returns (r: Result<bool, Failure>)
      modifies this
      ensures var outcome := Execute(old(View()), Expire(hash), t);
              && View() == Settled(old(View()), outcome)
              && r == if outcome.Ok? then Ok(true) else Err(outcome.error)
    {
      if hash !in boxes {
        return Err(NotFound);
      }
      var stored := boxes[hash];
      if stored.status != Granted {
        return Err(NotActive);
      }
      if !(t.round > stored.expiresAt) {
        return Err(NotYetExpired);
      }
      if active == 0 {
        return Err(Underflow);
      }
      stored := stored.(status := Expired);
      boxes := boxes[hash := stored];
      active := active - 1;
      r := Ok(true);
    }

    method VerifyConsent(hash: Hash, round: nat) returns (valid: bool)
      ensures valid <==> Verifies(View(), hash, round)
    {
      if hash !in boxes {
        return false;
      }
      var stored := boxes[hash];
      if stored.status != Granted {
        return false;
      }
      if stored.expiresAt > 0 && round > stored.expiresAt {
        return false;
      }
      valid := true;
    }
  }

  // ------------------------------------------------------------------ runs

  datatype Submission = Submission(call: Call, txn: Txn)

  /** The registry with a record of the successful expirations. */
  datatype System = System(registry: Registry, expirations: nat, everExpired: set<Hash>)

  function Deployed(creator: Address): System {
    System(Registry(creator, 0, 0, 0, map[]), 0, {})
  }

  function Submit(s: System, sub: Submission): System {
    var outcome := Execute(s.registry, sub.call, sub.txn);
    if outcome.Err? then s
    else if sub.call.Expire? then System(outcome.value, s.expirations + 1, s.everExpired + {sub.call.hash})
    else s.(registry := outcome.value)
  }

  function After(s: System, run: seq<Submission>): System
    decreases |run|
  {
    if run == [] then s else After(Submit(s, run[0]), run[1..])
  }

  // -------------------------------------------------- counters and the boxes

  function WithStatus(boxes: map<Hash, ConsentData>, status: Status): set<Hash> {
    set h | h in boxes && boxes[h].status == status
  }

  /** The books balance, and the active count covers the granted boxes, whatever hashes are used. */
  ghost predicate Covered(s: System) {
    var r := s.registry;
    && r.total == r.active + r.revoked + s.expirations
    && r.active >= |WithStatus(r.boxes, Granted)|
  }

  lemma OtherStatusesUnchanged(boxes: map<Hash, ConsentData>, hash: Hash, data: ConsentData, status: Status)
    ensures WithStatus(boxes[hash := data], status)
            == WithStatus(boxes, status) - {hash} + (if data.status == status then {hash} else {})
  {
  }

  lemma SubmitKeepsCovered(s: System, sub: Submission)
    requires Covered(s)
    ensures Covered(Submit(s, sub))
  {
    var r, r' := s.registry, Submit(s, sub).registry;
    if r' != r {
      var h := sub.call.hash;
      OtherStatusesUnchanged(r.boxes, h, r'.boxes[h], Granted);
      assert r'.boxes == r.boxes[h := r'.boxes[h]];
    }
  }

  lemma {:induction false} RunKeepsCovered(s: System, run: seq<Submission>)
    requires Covered(s)
    ensures Covered(After(s, run))
    decreases |run|
  {
    if run != [] {
      SubmitKeepsCovered(s, run[0]);
      RunKeepsCovered(Submit(s, run[0]), run[1..]);
    }
  }

  /** In every run the books balance, and no call is ever rejected for taking the active count below zero. */
  lemma NeverUnderflows(creator: Address, run: seq<Submission>, next: Submission)
    ensures var s := After(Deployed(creator), run);
            && s.registry.total == s.registry.active + s.registry.revoked + s.expirations
            && |WithStatus(s.registry.boxes, Granted)| <= s.registry.active
            && Execute(s.registry, next.call, next.txn) != Err(Underflow)
  {
    assert WithStatus(Deployed(creator).registry.boxes, Granted) == {};
    RunKeepsCovered(Deployed(creator), run);
    var r := After(Deployed(creator), run).registry;
    if next.call.hash in r.boxes && r.boxes[next.call.hash].status == Granted {
      assert next.call.hash in WithStatus(r.boxes, Granted);
    }
  }

  /** The submission is a registration that succeeds. */
  predicate Registers(s: System, sub: Submission) {
    sub.call.Register? && Execute(s.registry, sub.call, sub.txn).Ok?
  }

  /** No successful registration reuses a hash. */
  predicate FreshHashes(s: System, run: seq<Submission>)
    decreases |run|
  {
    run == []
    || ((Registers(s, run[0]) ==> run[0].call.hash !in s.registry.boxes) && FreshHashes(Submit(s, run[0]), run[1..]))
  }

  /** The hashes that still count as active: granted, or modified without having been expired before. */
  ghost predicate CountsAsActive(s: System, h: Hash) {
    h in s.registry.boxes
    && (s.registry.boxes[h].status == Granted || (s.registry.boxes[h].status == Modified && h !in s.everExpired))
  }

  ghost function ActiveHashes(s: System): set<Hash> {
    set h | h in s.registry.boxes && CountsAsActive(s, h)
  }

  /** With fresh hashes each counter is a count of boxes. */
  ghost predicate Exact(s: System) {
    var boxes := s.registry.boxes;
    && s.registry.total == |boxes|
    && s.registry.revoked == |WithStatus(boxes, Revoked)|
    && s.registry.active == |ActiveHashes(s)|
    && StatusesFit(s)
  }

  /** The expired boxes are recorded, and the recorded hashes never go back to being granted. */
  ghost predicate StatusesFit(s: System) {
    var boxes := s.registry.boxes;
    && (forall h :: h in s.everExpired ==> h in boxes && boxes[h].status in {Expired, Modified})
    && (forall h :: h in boxes && boxes[h].status == Expired ==> h in s.everExpired)
    && (forall h :: h in boxes ==> boxes[h].status != Pending)
  }

  lemma SubmitKeepsStatuses(s: System, sub: Submission)
    requires StatusesFit(s) && (Registers(s, sub) ==> sub.call.hash !in s.registry.boxes)
    ensures StatusesFit(Submit(s, sub))
  {
  }

  lemma RegisterKeepsExact(s: System, sub: Submission)
    requires Exact(s) && Registers(s, sub) && sub.call.hash !in s.registry.boxes
    ensures Exact(Submit(s, sub))
  {
    SubmitKeepsStatuses(s, sub);
    var h, s' := sub.call.hash, Submit(s, sub);
    NewBoxCounts(s, s', h);
    assert WithStatus(s'.registry.boxes, Revoked) == WithStatus(s.registry.boxes, Revoked);
  }

  lemma NewHashIsActive(s: System, s': System, h: Hash)
    requires h !in s.registry.boxes && h !in s.everExpired && s'.everExpired == s.everExpired
    requires h in s'.registry.boxes && s'.registry.boxes[h].status == Granted
    requires s'.registry.boxes == s.registry.boxes[h := s'.registry.boxes[h]]
    ensures h !in ActiveHashes(s) && ActiveHashes(s') == ActiveHashes(s) + {h}
    ensures s'.registry.boxes.Keys == s.registry.boxes.Keys + {h}
  {
    forall k
      ensures CountsAsActive(s', k) <==> CountsAsActive(s, k) || k == h
    {
    }
  }

  lemma NewBoxCounts(s: System, s': System, h: Hash)
    requires h !in s.registry.boxes && h !in s.everExpired && s'.everExpired == s.everExpired
    requires h in s'.registry.boxes && s'.registry.boxes[h].status == Granted
    requires s'.registry.boxes == s.registry.boxes[h := s'.registry.boxes[h]]
    ensures |s'.registry.boxes| == |s.registry.boxes| + 1
    ensures |ActiveHashes(s')| == |ActiveHashes(s)| + 1
  {
    NewHashIsActive(s, s', h);
  }

  lemma RevokeKeepsExact(s: System, sub: Submission)
    requires Exact(s) && sub.call.Revoke? && Execute(s.registry, sub.call, sub.txn).Ok?
    ensures Exact(Submit(s, sub))
  {
    SubmitKeepsStatuses(s, sub);
    var h, s' := sub.call.hash, Submit(s, sub);
    assert s'.registry.boxes.Keys == s.registry.boxes.Keys;
    assert h in ActiveHashes(s) && ActiveHashes(s') == ActiveHashes(s) - {h};
    assert WithStatus(s'.registry.boxes, Revoked) == WithStatus(s.registry.boxes, Revoked) + {h};
  }

  lemma ModifyKeepsExact(s: System, sub: Submission)
    requires Exact(s) && sub.call.Modify? && Execute(s.registry, sub.call, sub.txn).Ok?
    ensures Exact(Submit(s, sub))
  {
    SubmitKeepsStatuses(s, sub);
    var s' := Submit(s, sub);
    assert s'.registry.boxes.Keys == s.registry.boxes.Keys;
    assert ActiveHashes(s') == ActiveHashes(s);
    assert WithStatus(s'.registry.boxes, Revoked) == WithStatus(s.registry.boxes, Revoked);
  }

  lemma ExpireKeepsExact(s: System, sub: Submission)
    requires Exact(s) && sub.call.Expire? && Execute(s.registry, sub.call, sub.txn).Ok?
    ensures Exact(Submit(s, sub))
  {
    SubmitKeepsStatuses(s, sub);
    var h, s' := sub.call.hash, Submit(s, sub);
    assert s'.registry.boxes.Keys == s.registry.boxes.Keys;
    assert h in ActiveHashes(s) && ActiveHashes(s') == ActiveHashes(s) - {h};
    assert WithStatus(s'.registry.boxes, Revoked) == WithStatus(s.registry.boxes, Revoked);
  }

  lemma SubmitKeepsExact(s: System, sub: Submission)
    requires Exact(s) && (Registers(s, sub) ==> sub.call.hash !in s.registry.boxes)
    ensures Exact(Submit(s, sub))
  {
    if Execute(s.registry, sub.call, sub.txn).Ok? {
      match sub.call
      case Register(_, _, _, _, _, _) => RegisterKeepsExact(s, sub);
      case Revoke(_) => RevokeKeepsExact(s, sub);
      case Modify(_, _, _) => ModifyKeepsExact(s, sub);
      case Expire(_) => ExpireKeepsExact(s, sub);
    }
  }

  lemma {:induction false} RunKeepsExact(s: System, run: seq<Submission>)
    requires Exact(s) && FreshHashes(s, run)
    ensures Exact(After(s, run))
    decreases |run|
  {
    if run != [] {
      SubmitKeepsExact(s, run[0]);
      RunKeepsExact(Submit(s, run[0]), run[1..]);
    }
  }

  /** With fresh hashes total counts the boxes, revoked the REVOKED ones, and active the GRANTED ones and
      those MODIFIED ones that were never expired: modifying an expired consent does not count it again. */
  lemma CountersCountBoxes(creator: Address, run: seq<Submission>)
    requires FreshHashes(Deployed(creator), run)
    ensures var s := After(Deployed(creator), run);
            && s.registry.total == |s.registry.boxes|
            && s.registry.revoked == |WithStatus(s.registry.boxes, Revoked)|
            && s.registry.active == |WithStatus(s.registry.boxes, Granted)|
                                    + |WithStatus(s.registry.boxes, Modified) - s.everExpired|
  {
    var initial := Deployed(creator);
    assert ActiveHashes(initial) == {} && WithStatus(initial.registry.boxes, Revoked) == {};
    RunKeepsExact(initial, run);
    var s := After(initial, run);
    assert ActiveHashes(s) == WithStatus(s.registry.boxes, Granted)
                              + (WithStatus(s.registry.boxes, Modified) - s.everExpired);
  }

  // ------------------------------------------------------- verification is final

  predicate RoundsFrom(round: nat, run: seq<Submission>)
    decreases |run|
  {
    run == [] || (round <= run[0].txn.round && RoundsFrom(run[0].txn.round, run[1..]))
  }

  function LastRound(round: nat, run: seq<Submission>): nat
    decreases |run|
  {
    if run == [] then round else LastRound(run[0].txn.round, run[1..])
  }

  predicate NotRegisteredAgain(s: System, run: seq<Submission>, hash: Hash)
    decreases |run|
  {
    run == []
    || (!(Registers(s, run[0]) && run[0].call.hash == hash) && NotRegisteredAgain(Submit(s, run[0]), run[1..], hash))
  }

  /** Once a registered consent does not verify, it never does again, through any modify, revoke and expire
      and at any later round, until its hash is registered anew. */
  lemma {:induction false} RejectionIsFinal(s: System, run: seq<Submission>, hash: Hash, round: nat, later: nat)
    requires hash in s.registry.boxes && !Verifies(s.registry, hash, round)
    requires RoundsFrom(round, run) && NotRegisteredAgain(s, run, hash) && LastRound(round, run) <= later
    ensures hash in After(s, run).registry.boxes && !Verifies(After(s, run).registry, hash, later)
    decreases |run|
  {
    if run != [] {
      RejectionIsFinal(Submit(s, run[0]), run[1..], hash, run[0].txn.round, later);
    }
  }

  /** A modified consent does not verify, so by the finality above modifying one withdraws it. */
  lemma ModifyingWithdraws(s: System, sub: Submission, run: seq<Submission>, later: nat)
    requires sub.call.Modify? && Execute(s.registry, sub.call, sub.txn).Ok?
    requires RoundsFrom(sub.txn.round, run) && NotRegisteredAgain(Submit(s, sub), run, sub.call.hash)
    requires LastRound(sub.txn.round, run) <= later
    ensures !Verifies(After(Submit(s, sub), run).registry, sub.call.hash, later)
  {
    RejectionIsFinal(Submit(s, sub), run, sub.call.hash, sub.txn.round, later);
  }

  /** In every run, a consent that verifies can be expired, by anyone, if and only if it was registered
      without an expiry round (and the chain has left round zero): verify reads zero as never, expire as long
      past. */
  lemma ExpireWithdrawsExactlyUnlimited(creator: Address, run: seq<Submission>, hash: Hash, t: Txn)
    requires Verifies(After(Deployed(creator), run).registry, hash, t.round)
    ensures var r := After(Deployed(creator), run).registry;
            Execute(r, Expire(hash), t).Ok? <==> r.boxes[hash].expiresAt == 0 && t.round > 0
  {
    NeverUnderflows(creator, run, Submission(Expire(hash), t));
  }

  // ------------------------------------------------- verify by the last call

  /** The latest successful call on the hash, `sofar` being the latest one before the run. */
  function LastCall(s: System, run: seq<Submission>, hash: Hash, sofar: Option<Call>): Option<Call>
    decreases |run|
  {
    if run == [] then sofar
    else
      var sub := run[0];
      LastCall(Submit(s, sub), run[1..], hash,
               if sub.call.hash == hash && Execute(s.registry, sub.call, sub.txn).Ok? then Some(sub.call) else sofar)
  }

  /** The box is what the latest call left. */
  predicate LeftBy(s: System, hash: Hash, last: Option<Call>) {
    var boxes := s.registry.boxes;
    match last
    case None => hash !in boxes
    case Some(call) =>
      && hash in boxes && (boxes[hash].status == Granted <==> call.Register?)
      && (call.Register? ==> boxes[hash].expiresAt == call.expiresAt)
  }

  lemma {:induction false} RunLeaves(s: System, run: seq<Submission>, hash: Hash, sofar: Option<Call>)
    requires LeftBy(s, hash, sofar)
    ensures LeftBy(After(s, run), hash, LastCall(s, run, hash, sofar))
    decreases |run|
  {
    if run != [] {
      var sub := run[0];
      RunLeaves(Submit(s, sub), run[1..], hash,
                if sub.call.hash == hash && Execute(s.registry, sub.call, sub.txn).Ok? then Some(sub.call) else sofar);
    }
  }

  /** After every run a hash verifies if and only if the latest successful call on it registered it, with an
      expiry round that is zero or not over. */
  lemma VerifiesExactlyWhenLastRegistered(creator: Address, run: seq<Submission>, hash: Hash, round: nat)
    ensures var last := LastCall(Deployed(creator), run, hash, None);
            Verifies(After(Deployed(creator), run).registry, hash, round)
            <==> last.Some? && last.value.Register? && (last.value.expiresAt == 0 || round <= last.value.expiresAt)
  {
    RunLeaves(Deployed(creator), run, hash, None);
  }

  // ------------------------------------------------------------ box sizes

  /** How many bytes the purpose had with which the hash was last registered, `sofar` being that before the
      run. */
  function RegisteredLength(s: System, run: seq<Submission>, hash: Hash, sofar: nat): nat
    decreases |run|
  {
    if run == [] then sofar
    else
      var sub := run[0];
      RegisteredLength(Submit(s, sub), run[1..], hash,
                       if Registers(s, sub) && sub.call.hash == hash then |sub.call.purpose| else sofar)
  }

  /** The box has the room that the registration made, and the purpose fits. */
  predicate BoxFits(s: System, hash: Hash, room: nat) {
    var boxes := s.registry.boxes;
    hash in boxes ==> boxes[hash].room == room && |boxes[hash].purpose| <= room
  }

  lemma {:induction false} RunKeepsBoxFits(s: System, run: seq<Submission>, hash: Hash, sofar: nat)
    requires BoxFits(s, hash, sofar)
    ensures BoxFits(After(s, run), hash, RegisteredLength(s, run, hash, sofar))
    decreases |run|
  {
    if run != [] {
      var sub := run[0];
      RunKeepsBoxFits(Submit(s, sub), run[1..], hash,
                      if Registers(s, sub) && sub.call.hash == hash then |sub.call.purpose| else sofar);
    }
  }

  /** In every run a call is refused for the size of its box if and only if it is a modification by the
      principal, of a consent not revoked, to a longer purpose than the hash was last registered with; the
      stored purposes always fit, so no other call can be. */
  lemma RefusedForSizeExactly(creator: Address, run: seq<Submission>, call: Call, t: Txn)
    ensures var r := After(Deployed(creator), run).registry;
            var length := RegisteredLength(Deployed(creator), run, call.hash, 0);
            && (call.hash in r.boxes ==> |r.boxes[call.hash].purpose| <= length)
            && (Execute(r, call, t) == Err(BoxTooSmall) <==>
                  && call.Modify? && call.hash in r.boxes && t.sender == r.boxes[call.hash].principal
                  && r.boxes[call.hash].status != Revoked && |call.newPurpose| > length)
  {
    RunKeepsBoxFits(Deployed(creator), run, call.hash, 0);
  }
}
