/** The on-chain audit trail (version 2): one box per logged event, each linked back to the event logged
    before it, and batch entries that only move the head of the chain. */
module AuditTrail {
  import opened Wrappers

  const MAX_UINT64: nat := 0xFFFF_FFFF_FFFF_FFFF

  type Hash = nat
  type Address = nat

  /** The 32 zero bytes the chain starts from. */
  const ZERO: Hash := 0

  /** `backLink` is stored in the field named merkle_proof. */
  datatype AuditEvent = AuditEvent(
    hash: Hash,
    eventType: nat,
    consent: Hash,
    actor: Address,
    timestamp: nat,
    previousStatus: nat,
    newStatus: nat,
    backLink: Hash)

  datatype Trail = Trail(counter: nat, merkleRoot: Hash, last: Hash, boxes: map<Hash, AuditEvent>)

  const DEPLOYED := Trail(0, ZERO, ZERO, map[])

  datatype LogCall = LogCall(
    hash: Hash,
    eventType: nat,
    consent: Hash,
    actor: Address,
    previousStatus: nat,
    newStatus: nat,
    round: nat)

  datatype Failure = Overflow

  // --------------------------------------------------- what each call does

  function EventFor(c: LogCall, backLink: Hash): AuditEvent {
    AuditEvent(c.hash, c.eventType, c.consent, c.actor, c.round, c.previousStatus, c.newStatus, backLink)
  }

  function Logged(t: Trail, c: LogCall): Result<Trail, Failure> {
    if t.counter == MAX_UINT64 then Err(Overflow)
    else Ok(Trail(t.counter + 1, t.merkleRoot, c.hash, t.boxes[c.hash := EventFor(c, t.last)]))
  }

  function Batched(t: Trail, merkleRoot: Hash, eventCount: nat, lastHash: Hash): Result<Trail, Failure> {
    if t.counter + eventCount > MAX_UINT64 then Err(Overflow)
    else Ok(Trail(t.counter + eventCount, merkleRoot, lastHash, t.boxes))
  }

  // ------------------------------------------------------------ the class

  class Contract {
    var counter: nat
    var merkleRoot: Hash
    var last: Hash
    var boxes: map<Hash, AuditEvent>

    constructor ()
      ensures View() == DEPLOYED
    {
      counter, merkleRoot, last, boxes := 0, ZERO, ZERO, map[];
    }

    ghost function View(): Trail
      reads this
    {
      Trail(counter, merkleRoot, last, boxes)
    }

    /** The counter's panic rolls the call back. */
    method LogEvent(c: LogCall) returns (ok: bool)
      modifies this
      ensures var outcome := Logged(old(View()), c);
              ok == outcome.Ok? && View() == if ok then outcome.value else old(View())
    {
      if counter == MAX_UINT64 {
        return false;
      }
      var event := AuditEvent(c.hash, c.eventType, c.consent, c.actor, c.round,
                              c.previousStatus, c.newStatus, last);
      boxes := boxes[c.hash := event];
      last := c.hash;
      counter := counter + 1;
      ok := true;
    }

    method BatchLogEvents(merkleRoot: Hash, eventCount: nat, lastHash: Hash) returns (ok: bool)
      modifies this
      ensures var outcome := Batched(old(View()), merkleRoot, eventCount, lastHash);
              ok == outcome.Ok? && View() == if ok then outcome.value else old(View())
    {
      if counter + eventCount > MAX_UINT64 {
        return false;
      }
      this.merkleRoot := merkleRoot;
      counter := counter + eventCount;
      last := lastHash;
      ok := true;
    }

    method VerifyEvent(hash: Hash) returns (ok: bool)
      ensures ok <==> hash in boxes
    {
      ok := hash in boxes;
    }
  }

  // ------------------------------------------------------------ walking back

  /** Following the back-links from `from` visits exactly `path` and stops at `end`, which has no box. */
  ghost predicate IsWalk(boxes: map<Hash, AuditEvent>, from: Hash, path: seq<Hash>, end: Hash)
    decreases |path|
  {
    if path == [] then from == end && end !in boxes
    else path[0] == from && from in boxes && IsWalk(boxes, boxes[from].backLink, path[1..], end)
  }

  /** Walking back from `from` terminates. */
  ghost predicate Walkable(boxes: map<Hash, AuditEvent>, from: Hash) {
    exists path, end :: IsWalk(boxes, from, path, end)
  }

  /** There is at most one finite walk. */
  lemma {:induction false} WalkUnique(boxes: map<Hash, AuditEvent>, from: Hash,
                                      p: seq<Hash>, e: Hash, q: seq<Hash>, f: Hash)
    requires IsWalk(boxes, from, p, e) && IsWalk(boxes, from, q, f)
    ensures p == q && e == f
    decreases |p|
  {
    if p != [] && q != [] {
      WalkUnique(boxes, boxes[from].backLink, p[1..], e, q[1..], f);
      assert p == [p[0]] + p[1..] && q == [q[0]] + q[1..];
    }
  }

  /** A box off the path does not disturb the walk. */
  lemma {:induction false} WalkFrame(boxes: map<Hash, AuditEvent>, from: Hash, path: seq<Hash>, end: Hash,
                                     h: Hash, event: AuditEvent)
    requires IsWalk(boxes, from, path, end) && h !in path && h != end
    ensures IsWalk(boxes[h := event], from, path, end)
    decreases |path|
  {
    if path != [] {
      WalkFrame(boxes, boxes[from].backLink, path[1..], end, h, event);
    }
  }

  /** A walk that used to pass h, or end there, still comes to h after h's box was written. */
  lemma {:induction false} WalkComesTo(boxes: map<Hash, AuditEvent>, from: Hash, path: seq<Hash>, end: Hash,
                                       h: Hash, event: AuditEvent, p: seq<Hash>, e: Hash) returns (k: nat)
    requires IsWalk(boxes, from, path, end) && (h in path || h == end)
    requires IsWalk(boxes[h := event], from, p, e)
    ensures k <= |p| && IsWalk(boxes[h := event], h, p[k..], e)
    decreases |path|
  {
    if from == h {
      k := 0;
      assert p[0..] == p;
    } else {
      assert p != [] && path != [];
      k := WalkComesTo(boxes, boxes[from].backLink, path[1..], end, h, event, p[1..], e);
      assert p[1..][k..] == p[k + 1..];
      k := k + 1;
    }
  }

  /** Writing an event keeps the trail walkable from its new head if and only if the event's hash is
      neither on the walk from the old head nor where that walk stops. */
  lemma WalkableExactlyWhenOffTheWalk(t: Trail, c: LogCall, path: seq<Hash>, end: Hash)
    requires t.counter < MAX_UINT64 && IsWalk(t.boxes, t.last, path, end)
    ensures Walkable(Logged(t, c).value.boxes, c.hash) <==> c.hash !in path && c.hash != end
  {
    var h, event := c.hash, EventFor(c, t.last);
    var boxes := Logged(t, c).value.boxes;
    assert boxes == t.boxes[h := event];
    if h !in path && h != end {
      WalkFrame(t.boxes, t.last, path, end, h, event);
      assert ([h] + path)[1..] == path;
      assert IsWalk(boxes, h, [h] + path, end);
    } else {
      forall p, e
        ensures !IsWalk(boxes, h, p, e)
      {
        if IsWalk(boxes, h, p, e) {
          WalkCannotReturn(t, c, path, end, p, e);
        }
      }
    }
  }

  lemma WalkCannotReturn(t: Trail, c: LogCall, path: seq<Hash>, end: Hash, p: seq<Hash>, e: Hash)
    requires IsWalk(t.boxes, t.last, path, end) && (c.hash in path || c.hash == end)
    ensures !IsWalk(t.boxes[c.hash := EventFor(c, t.last)], c.hash, p, e)
  {
    var h, event := c.hash, EventFor(c, t.last);
    if IsWalk(t.boxes[h := event], h, p, e) {
      var k := WalkComesTo(t.boxes, t.last, path, end, h, event, p[1..], e);
      WalkUnique(t.boxes[h := event], h, p, e, p[1..][k..], e);
    }
  }

  // ------------------------------------------------------------------ runs

  function AfterLogs(t: Trail, calls: seq<LogCall>): Trail
    requires t.counter + |calls| <= MAX_UINT64
    decreases |calls|
  {
    if calls == [] then t else AfterLogs(Logged(t, calls[0]).value, calls[1..])
  }

  /** The hashes of some calls, last one first. */
  function NewestFirst(calls: seq<LogCall>): (r: seq<Hash>)
    ensures |r| == |calls|
    decreases |calls|
  {
    if calls == [] then [] else NewestFirst(calls[1..]) + [calls[0].hash]
  }

  /** Hashes are used once, have no box yet, and are not where the walk stops. */
  ghost predicate Fresh(boxes: map<Hash, AuditEvent>, calls: seq<LogCall>, end: Hash) {
    && (forall i :: 0 <= i < |calls| ==> calls[i].hash !in boxes && calls[i].hash != end)
    && (forall i, j :: 0 <= i < j < |calls| ==> calls[i].hash != calls[j].hash)
  }

  lemma {:induction false} WalkStaysInBoxes(boxes: map<Hash, AuditEvent>, from: Hash, path: seq<Hash>, end: Hash)
    requires IsWalk(boxes, from, path, end)
    ensures forall h :: h in path ==> h in boxes
    decreases |path|
  {
    if path != [] {
      WalkStaysInBoxes(boxes, boxes[from].backLink, path[1..], end);
    }
  }

  /** Logging events with fresh hashes puts them, newest first, in front of the walk there was. */
  lemma {:induction false} LogsExtendWalk(t: Trail, calls: seq<LogCall>, path: seq<Hash>, end: Hash)
    requires t.counter + |calls| <= MAX_UINT64
    requires IsWalk(t.boxes, t.last, path, end) && Fresh(t.boxes, calls, end)
    ensures var t' := AfterLogs(t, calls);
            IsWalk(t'.boxes, t'.last, NewestFirst(calls) + path, end) && t'.counter == t.counter + |calls|
    decreases |calls|
  {
    if calls == [] {
      assert NewestFirst(calls) + path == path;
    } else {
      var c, next := calls[0], Logged(t, calls[0]).value;
      WalkStaysInBoxes(t.boxes, t.last, path, end);
      WalkFrame(t.boxes, t.last, path, end, c.hash, EventFor(c, t.last));
      assert ([c.hash] + path)[1..] == path;
      LogsExtendWalk(next, calls[1..], [c.hash] + path, end);
      assert NewestFirst(calls[1..]) + ([c.hash] + path) == NewestFirst(calls) + path;
    }
  }

  /** Without batches, walking back from the head terminates at the zero hash and visits exactly the
      logged events in reverse order, as many as the counter says. */
  lemma WalkVisitsLoggedEvents(calls: seq<LogCall>)
    requires |calls| <= MAX_UINT64 && Fresh(map[], calls, ZERO)
    ensures var t := AfterLogs(DEPLOYED, calls);
            && IsWalk(t.boxes, t.last, NewestFirst(calls), ZERO)
            && t.counter == |NewestFirst(calls)|
  {
    LogsExtendWalk(DEPLOYED, calls, [], ZERO);
    assert NewestFirst(calls) + [] == NewestFirst(calls);
  }

  /** After a batch whose last hash has no box, whatever came before, the walk covers exactly the
      events logged since the batch, and the counter has grown by the batch and those events. */
  lemma WalkStopsAtUnboxedBatch(t: Trail, root: Hash, count: nat, lastHash: Hash, calls: seq<LogCall>)
    requires t.counter + count + |calls| <= MAX_UINT64
    requires lastHash !in t.boxes && Fresh(t.boxes, calls, lastHash)
    ensures var t' := AfterLogs(Batched(t, root, count, lastHash).value, calls);
            && IsWalk(t'.boxes, t'.last, NewestFirst(calls), lastHash)
            && t'.counter == t.counter + count + |NewestFirst(calls)|
  {
    LogsExtendWalk(Batched(t, root, count, lastHash).value, calls, [], lastHash);
    assert NewestFirst(calls) + [] == NewestFirst(calls);
  }

  /** After a batch whose last hash is a logged event, the walk continues with that event's own walk: the
      events logged between that event and the batch are skipped. */
  lemma {:induction false} WalkContinuesBelowBoxedBatch(t: Trail, root: Hash, count: nat, lastHash: Hash,
                                                             calls: seq<LogCall>,
                                     below: seq<Hash>, end: Hash)
    requires t.counter + count + |calls| <= MAX_UINT64
    requires IsWalk(t.boxes, lastHash, below, end) && Fresh(t.boxes, calls, end)
    ensures var t' := AfterLogs(Batched(t, root, count, lastHash).value, calls);
            IsWalk(t'.boxes, t'.last, NewestFirst(calls) + below, end)
  {
    LogsExtendWalk(Batched(t, root, count, lastHash).value, calls, below, end);
  }

  /** Each logged event keeps its box, holding what was logged and linked to the event logged before it. */
  lemma {:induction false} LogsAreStored(t: Trail, calls: seq<LogCall>, end: Hash, i: nat)
    requires t.counter + |calls| <= MAX_UINT64 && Fresh(t.boxes, calls, end) && i < |calls|
    ensures var boxes := AfterLogs(t, calls).boxes;
            calls[i].hash in boxes
            && boxes[calls[i].hash] == EventFor(calls[i], if i == 0 then t.last else calls[i - 1].hash)
    decreases |calls|
  {
    var next := Logged(t, calls[0]).value;
    if i > 0 {
      LogsAreStored(next, calls[1..], end, i - 1);
    } else {
      OldBoxesStay(next, calls[1..], calls[0].hash);
    }
  }

  lemma {:induction false} OldBoxesStay(t: Trail, calls: seq<LogCall>, h: Hash)
    requires t.counter + |calls| <= MAX_UINT64 && h in t.boxes
    requires forall i :: 0 <= i < |calls| ==> calls[i].hash != h
    ensures h in AfterLogs(t, calls).boxes && AfterLogs(t, calls).boxes[h] == t.boxes[h]
    decreases |calls|
  {
    if calls != [] {
      OldBoxesStay(Logged(t, calls[0]).value, calls[1..], h);
    }
  }

  // ------------------------------------------ exactly when the walk is finite

  /** Taking back the box of a hash that the walk does not come to. */
  lemma {:induction false} WalkFrameBack(boxes: map<Hash, AuditEvent>, from: Hash, path: seq<Hash>, end: Hash,
                                         h: Hash, event: AuditEvent)
    requires IsWalk(boxes[h := event], from, path, end) && h !in path
    ensures IsWalk(boxes, from, path, end)
    decreases |path|
  {
    if path != [] {
      WalkFrameBack(boxes, boxes[h := event][from].backLink, path[1..], end, h, event);
    }
  }

  lemma {:induction false} WalkFromWithin(boxes: map<Hash, AuditEvent>, from: Hash, path: seq<Hash>, end: Hash, h: Hash)
    returns (k: nat)
    requires IsWalk(boxes, from, path, end) && h in path
    ensures k < |path| && IsWalk(boxes, h, path[k..], end)
    decreases |path|
  {
    if from == h {
      k := 0;
      assert path[0..] == path;
    } else {
      k := WalkFromWithin(boxes, boxes[from].backLink, path[1..], end, h);
      assert path[1..][k..] == path[k + 1..];
      k := k + 1;
    }
  }

  /** An endless walk stays endless whatever is logged. */
  lemma EndlessStaysEndless(t: Trail, c: LogCall)
    requires t.counter < MAX_UINT64 && !Walkable(t.boxes, t.last)
    ensures !Walkable(Logged(t, c).value.boxes, c.hash)
  {
    var h, event := c.hash, EventFor(c, t.last);
    var boxes := t.boxes[h := event];
    if path, end :| IsWalk(boxes, h, path, end) {
      var rest := path[1..];
      if h in rest {
        var k := WalkFromWithin(boxes, t.last, rest, end, h);
        WalkUnique(boxes, h, path, end, rest[k..], end);
      }
      WalkFrameBack(t.boxes, t.last, rest, end, h, event);
    }
  }

  lemma {:induction false} EndlessForEver(t: Trail, calls: seq<LogCall>)
    requires t.counter + |calls| <= MAX_UINT64 && !Walkable(t.boxes, t.last)
    ensures !Walkable(AfterLogs(t, calls).boxes, AfterLogs(t, calls).last)
    decreases |calls|
  {
    if calls != [] {
      EndlessStaysEndless(t, calls[0]);
      EndlessForEver(Logged(t, calls[0]).value, calls[1..]);
    }
  }

  /** No hash is logged twice, is on the walk there was, or is where that walk stops. */
  ghost predicate OffTheWalk(calls: seq<LogCall>, path: seq<Hash>, end: Hash) {
    && (forall i :: 0 <= i < |calls| ==> calls[i].hash !in path && calls[i].hash != end)
    && (forall i, j :: 0 <= i < j < |calls| ==> calls[i].hash != calls[j].hash)
  }

  lemma OffTheWalkFirst(calls: seq<LogCall>, path: seq<Hash>, end: Hash)
    requires calls != []
    ensures OffTheWalk(calls, path, end)
            <==> calls[0].hash !in path && calls[0].hash != end
                 && OffTheWalk(calls[1..], [calls[0].hash] + path, end)
  {
    var c, rest := calls[0], calls[1..];
    if OffTheWalk(calls, path, end) {
      assert forall i :: 0 <= i < |rest| ==> rest[i] == calls[i + 1];
    }
    if c.hash !in path && c.hash != end && OffTheWalk(rest, [c.hash] + path, end) {
      assert forall i :: 0 < i < |calls| ==> calls[i] == rest[i - 1];
      assert c.hash in [c.hash] + path;
    }
  }

  /** After any log calls the walk from the new head is finite if and only if their hashes were all different,
      off the walk there was, and not where it stops. */
  lemma {:induction false} LogsWalkableExactlyWhenOffTheWalk(t: Trail, calls: seq<LogCall>, path: seq<Hash>, end: Hash)
    requires t.counter + |calls| <= MAX_UINT64 && IsWalk(t.boxes, t.last, path, end)
    ensures Walkable(AfterLogs(t, calls).boxes, AfterLogs(t, calls).last) <==> OffTheWalk(calls, path, end)
    decreases |calls|
  {
    if calls != [] {
      var c, next := calls[0], Logged(t, calls[0]).value;
      OffTheWalkFirst(calls, path, end);
      WalkableExactlyWhenOffTheWalk(t, c, path, end);
      if c.hash !in path && c.hash != end {
        WalkFrame(t.boxes, t.last, path, end, c.hash, EventFor(c, t.last));
        assert ([c.hash] + path)[1..] == path;
        LogsWalkableExactlyWhenOffTheWalk(next, calls[1..], [c.hash] + path, end);
      } else {
        EndlessForEver(next, calls[1..]);
      }
    }
  }

  /** From deployment: the walk is finite if and only if the hashes are all different and none is zero. */
  lemma WalkFiniteExactlyWhenFresh(calls: seq<LogCall>)
    requires |calls| <= MAX_UINT64
    ensures Walkable(AfterLogs(DEPLOYED, calls).boxes, AfterLogs(DEPLOYED, calls).last) <==> Fresh(map[], calls, ZERO)
  {
    LogsWalkableExactlyWhenOffTheWalk(DEPLOYED, calls, [], ZERO);
  }

  // --------------------------------------------- runs of logs and batches

  datatype Entry = Log(call: LogCall) | Batch(merkleRoot: Hash, count: nat, lastHash: Hash)

  function Outcome(t: Trail, e: Entry): Result<Trail, Failure> {
    match e
    case Log(c) => Logged(t, c)
    case Batch(root, count, lastHash) => Batched(t, root, count, lastHash)
  }

  /** A call that overflows the counter is rolled back. */
  function Submit(t: Trail, e: Entry): Trail {
    if Outcome(t, e).Ok? then Outcome(t, e).value else t
  }

  function After(t: Trail, run: seq<Entry>): Trail
    decreases |run|
  {
    if run == [] then t else After(Submit(t, run[0]), run[1..])
  }

  /** The hashes of the run's log calls that were not rolled back. */
  function LoggedHashes(t: Trail, run: seq<Entry>): set<Hash>
    decreases |run|
  {
    if run == [] then {}
    else
      (if run[0].Log? && Outcome(t, run[0]).Ok? then {run[0].call.hash} else {})
      + LoggedHashes(Submit(t, run[0]), run[1..])
  }

  /** How many events the run's calls claim. */
  function ClaimedEvents(t: Trail, run: seq<Entry>): nat
    decreases |run|
  {
    if run == [] then 0
    else
      (if Outcome(t, run[0]).Err? then 0 else if run[0].Log? then 1 else run[0].count)
      + ClaimedEvents(Submit(t, run[0]), run[1..])
  }

  lemma {:induction false} RunKeepsBooks(t: Trail, run: seq<Entry>)
    requires t.counter <= MAX_UINT64
    ensures After(t, run).boxes.Keys == t.boxes.Keys + LoggedHashes(t, run)
    ensures After(t, run).counter == t.counter + ClaimedEvents(t, run) <= MAX_UINT64
    decreases |run|
  {
    if run != [] {
      RunKeepsBooks(Submit(t, run[0]), run[1..]);
    }
  }

  /** After every run of logs and batches exactly the logged hashes verify, whatever the batches claim, and
      the counter counts the logged events and the claimed ones. */
  lemma VerifiedExactlyWhenLogged(run: seq<Entry>, hash: Hash)
    ensures hash in After(DEPLOYED, run).boxes <==> hash in LoggedHashes(DEPLOYED, run)
    ensures After(DEPLOYED, run).counter == ClaimedEvents(DEPLOYED, run) <= MAX_UINT64
  {
    RunKeepsBooks(DEPLOYED, run);
  }

  // ----------------------------------------------- the trail, by its calls

  function Size(e: Entry): nat {
    if e.Log? then 1 else e.count
  }

  /** The counter is a uint64: a call that would take it further is as if never made. */
  predicate HasRoom(counted: nat, e: Entry) {
    counted + Size(e) < 0x1_0000_0000_0000_0000
  }

  function Counted(run: seq<Entry>): nat {
    if run == [] then 0
    else
      var before, last := run[..|run| - 1], run[|run| - 1];
      Counted(before) + if HasRoom(Counted(before), last) then Size(last) else 0
  }

  /** The hash given by the latest call, zero before the first. */
  function Head(run: seq<Entry>): Hash {
    if run == [] then 0
    else
      var before, last := run[..|run| - 1], run[|run| - 1];
      if !HasRoom(Counted(before), last) then Head(before)
      else if last.Log? then last.call.hash
      else last.lastHash
  }

  /** The root given by the latest batch, zero before the first; logging leaves it. */
  function Root(run: seq<Entry>): Hash {
    if run == [] then 0
    else
      var before, last := run[..|run| - 1], run[|run| - 1];
      if last.Batch? && HasRoom(Counted(before), last) then last.merkleRoot else Root(before)
  }

  /** What the latest log call of the hash stored, linked to the head there was. */
  function Stored(run: seq<Entry>, hash: Hash): Option<AuditEvent> {
    if run == [] then None
    else
      var before, last := run[..|run| - 1], run[|run| - 1];
      if last.Log? && last.call.hash == hash && HasRoom(Counted(before), last) then
        var c := last.call;
        Some(AuditEvent(hash, c.eventType, c.consent, c.actor, c.round, c.previousStatus, c.newStatus, Head(before)))
      else Stored(before, hash)
  }

  ghost predicate IsTheFold(t: Trail, run: seq<Entry>, hash: Hash) {
    && t.counter == Counted(run) && t.last == Head(run) && t.merkleRoot == Root(run)
    && match Stored(run, hash)
       case None => hash !in t.boxes
       case Some(event) => hash in t.boxes && t.boxes[hash] == event
  }

  lemma {:induction false} AfterLast(t: Trail, run: seq<Entry>)
    requires run != []
    ensures After(t, run) == Submit(After(t, run[..|run| - 1]), run[|run| - 1])
    decreases |run|
  {
    if |run| > 1 {
      AfterLast(Submit(t, run[0]), run[1..]);
      assert run[1..][..|run| - 2] == run[..|run| - 1][1..];
    }
  }

  lemma SubmitKeepsFold(t: Trail, run: seq<Entry>, e: Entry, hash: Hash)
    requires IsTheFold(t, run, hash)
    ensures IsTheFold(Submit(t, e), run + [e], hash)
    ensures Outcome(t, e).Ok? <==> HasRoom(Counted(run), e)
  {
    assert (run + [e])[..|run|] == run;
  }

  /** After every run of logs and batches the head and the Merkle root are those last given, a box holds what
      the latest log call of its hash stored, and the next call succeeds if and only if the counter has room. */
  lemma {:induction false} TrailIsTheFold(run: seq<Entry>, hash: Hash, next: Entry)
    ensures IsTheFold(After(DEPLOYED, run), run, hash)
    ensures Outcome(After(DEPLOYED, run), next).Ok? <==> HasRoom(Counted(run), next)
    decreases |run|
  {
    if run != [] {
      var before, last := run[..|run| - 1], run[|run| - 1];
      TrailIsTheFold(before, hash, last);
      AfterLast(DEPLOYED, run);
      SubmitKeepsFold(After(DEPLOYED, before), before, last, hash);
      assert before + [last] == run;
    }
    SubmitKeepsFold(After(DEPLOYED, run), run, next, hash);
  }
}
