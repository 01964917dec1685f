/** The tiered fixed-window rate limiter: one Redis counter with a time to live per fiduciary and
    endpoint.  INCRBY and EXPIRE are separate commands, so the requests on one key interleave
    between them.  Times are in milliseconds, to which Redis keeps deadlines. */
module RateLimiter {
  import opened Wrappers

  // ---------------------------------------------------------------- limits

  datatype Rate = Rate(limit: nat, unit: string)

  const DEFAULT_RATE := Rate(100, "minute")

  const FREE: map<string, Rate> := map[
    "consent_create" := Rate(50, "minute"),
    "consent_verify" := Rate(100, "minute"),
    "consent_query" := Rate(100, "minute")]

  const BASIC: map<string, Rate> := map[
    "consent_create" := Rate(200, "minute"),
    "consent_verify" := Rate(500, "minute"),
    "consent_query" := Rate(300, "minute")]

  const ENTERPRISE: map<string, Rate> := map[
    "consent_create" := Rate(1000, "minute"),
    "consent_verify" := Rate(2000, "minute"),
    "consent_query" := Rate(1000, "minute")]

  function RateFor(tier: string, endpoint: string): Rate {
    var limits := if tier == "basic" then BASIC else if tier == "enterprise" then ENTERPRISE else FREE;
    if endpoint in limits then limits[endpoint] else DEFAULT_RATE
  }

  function WindowSeconds(unit: string): (seconds: nat)
    ensures seconds >= 1
  {
    if unit == "second" then 1
    else if unit == "hour" then 3600
    else if unit == "day" then 86400
    else 60
  }

  /** A window in milliseconds. */
  function Length(rate: Rate): (millis: nat)
    ensures millis >= 1000
  {
    1000 * WindowSeconds(rate.unit)
  }

  /** Which tier may do what how often: anything that is not basic or enterprise has the free limits, and an
      endpoint without a limit of its own may be called 100 times a minute on every tier. */
  lemma LimitsByTier(tier: string, endpoint: string)
    ensures var limits := if tier == "basic" then [200, 500, 300]
                          else if tier == "enterprise" then [1000, 2000, 1000]
                          else [50, 100, 100];
            && Length(RateFor(tier, endpoint)) == 60 * 1000
            && RateFor(tier, endpoint).limit ==
               if endpoint == "consent_create" then limits[0]
               else if endpoint == "consent_verify" then limits[1]
               else if endpoint == "consent_query" then limits[2]
               else 100
  {
  }

  // ------------------------------------------------------- Redis commands

  /** A key's value and, once EXPIRE was issued, the time at which it vanishes. */
  datatype Counter = Counter(value: int, deadline: Option<int>)

  predicate Live(c: Option<Counter>, now: int) {
    c.Some? && (c.value.deadline.Some? ==> now < c.value.deadline.value)
  }

  function IncrBy(c: Option<Counter>, cost: int, now: int): Counter {
    if Live(c, now) then c.value.(value := c.value.value + cost) else Counter(cost, None)
  }

  /** EXPIRE takes seconds. */
  function Expire(c: Option<Counter>, seconds: nat, now: int): Option<Counter> {
    if Live(c, now) then Some(c.value.(deadline := Some(now + 1000 * seconds))) else c
  }

  /** TTL rounds to whole seconds. */
  function Ttl(c: Option<Counter>, now: int): int {
    if !Live(c, now) then -2 else if c.value.deadline.None? then -1 else (c.value.deadline.value - now + 500) / 1000
  }

  /** The answer is the remaining seconds to the nearest, -1 for a key without a deadline and -2 for none. */
  lemma TtlIsWithinHalfASecond(c: Option<Counter>, now: int)
    ensures Ttl(c, now) == -2 <==> !Live(c, now)
    ensures Ttl(c, now) == -1 <==> Live(c, now) && c.value.deadline.None?
    ensures Live(c, now) && c.value.deadline.Some? ==>
              var left := c.value.deadline.value - now;
              0 < left && left - 500 < 1000 * Ttl(c, now) <= left + 500
  {
  }

  // ------------------------------------------------------------ the class

  datatype Key = Key(fiduciary: string, endpoint: string)

  datatype Info = Info(limit: nat, remaining: nat, reset: int, tier: string)

  class TieredRateLimiter {
    var tiers: map<string, string>
    var counters: map<Key, Counter>

    constructor ()
      ensures tiers == map[] && counters == map[]
    {
      tiers, counters := map[], map[];
    }

    function TierOf(fiduciary: string): string
      reads this
    {
      if fiduciary in tiers && tiers[fiduciary] != "" then tiers[fiduciary] else "free"
    }

    function Lookup(key: Key): Option<Counter>
      reads this
    {
      if key in counters then Some(counters[key]) else None
    }

    /** One request: its three commands arrive at `incrAt`, `expireAt` and `ttlAt`. */
    method CheckRateLimit(fiduciary: string, endpoint: string, cost: int,
                          incrAt: int, expireAt: int, ttlAt: int)
      returns (allowed: bool, info: Info)
      requires incrAt <= expireAt <= ttlAt
      modifies this`counters
      ensures var key, rate := Key(fiduciary, endpoint), RateFor(TierOf(fiduciary), endpoint);
              var current := IncrBy(old(Lookup(key)), cost, incrAt).value;
              && Lookup(key) == Checked(old(Lookup(key)), cost, WindowSeconds(rate.unit), incrAt, expireAt)
              && (forall k :: k != key ==> Lookup(k) == old(Lookup(k)))
              && (allowed <==> current <= rate.limit)
              && info == Info(rate.limit, if allowed then rate.limit - current else 0,
                              Ttl(Lookup(key), ttlAt), TierOf(fiduciary))
    {
      var tier := TierOf(fiduciary);
      var rate := RateFor(tier, endpoint);
      var window := WindowSeconds(rate.unit);
      var key := Key(fiduciary, endpoint);
      var counter := IncrBy(Lookup(key), cost, incrAt);
      counters := counters[key := counter];
      var current := counter.value;
      if current == cost {
        var dated := Expire(Some(counter), window, expireAt);
        counters := counters[key := dated.value];
      }
      var ttl := Ttl(Lookup(key), ttlAt);
      allowed := current <= rate.limit;
      info := Info(rate.limit, if rate.limit - current > 0 then rate.limit - current else 0, ttl, tier);
    }
  }

  function Checked(c: Option<Counter>, cost: int, window: nat, incrAt: int, expireAt: int): Option<Counter> {
    var counter := Some(IncrBy(c, cost, incrAt));
    if counter.value.value == cost then Expire(counter, window, expireAt) else counter
  }

  // ------------------------------------------- one key, requests in flight

  type Request = nat

  /** An INCRBY: when, at what cost, in which of the key's windows, and whether it was let through. */
  datatype Entry = Entry(at: int, cost: int, window: nat, admitted: bool)

  /** `due` are the requests about to issue EXPIRE; the last four fields only record what happened:
      the request and time that opened each window, every increment, and the requests that
      vanished before their EXPIRE. */
  datatype State = State(
    now: int,
    counter: Option<Counter>,
    due: set<Request>,
    openers: seq<Request>,
    starts: seq<int>,
    log: seq<Entry>,
    vanished: set<Request>)

  const INITIAL := State(0, None, {}, [], [], [], {})

  datatype Action =
    | Wait(elapsed: nat)
    | Increment(who: Request, cost: int)
    | SetExpiry(who: Request)
    | Vanish(who: Request)

  /** A request increments before its other commands; its cost is any integer. */
  predicate Enabled(s: State, a: Action) {
    match a
    case Wait(_) => true
    case Increment(who, _) => who !in s.due && who !in s.vanished
    case SetExpiry(who) => who in s.due
    case Vanish(who) => who in s.due
  }

  function Step(s: State, a: Action, rate: Rate): State
    requires Enabled(s, a)
  {
    match a
    case Wait(d) => s.(now := s.now + d)
    case Increment(who, cost) =>
      var opens := !Live(s.counter, s.now);
      var counter := IncrBy(s.counter, cost, s.now);
      var starts := if opens then s.starts + [s.now] else s.starts;
      s.(counter := Some(counter),
         due := if counter.value == cost then s.due + {who} else s.due,
         openers := if opens then s.openers + [who] else s.openers,
         starts := starts,
         log := s.log + [Entry(s.now, cost, if |starts| > 0 then |starts| - 1 else 0, counter.value <= rate.limit)])
    case SetExpiry(who) =>
      s.(counter := Expire(s.counter, WindowSeconds(rate.unit), s.now), due := s.due - {who})
    case Vanish(who) => s.(due := s.due - {who}, vanished := s.vanished + {who})
  }

  predicate Legal(s: State, run: seq<Action>, rate: Rate)
    decreases |run|
  {
    run == [] || (Enabled(s, run[0]) && Legal(Step(s, run[0], rate), run[1..], rate))
  }

  function Final(s: State, run: seq<Action>, rate: Rate): State
    requires Legal(s, run, rate)
    decreases |run|
  {
    if run == [] then s else Final(Step(s, run[0], rate), run[1..], rate)
  }

  predicate CostsAtLeast(run: seq<Action>, least: int) {
    forall a :: a in run && a.Increment? ==> a.cost >= least
  }

  // --------------------------------------------------------- what is kept

  /** Cost counted in one window, and the part of it that was let through. */
  function Counted(log: seq<Entry>, window: nat): int
    decreases |log|
  {
    if log == [] then 0
    else
      var e := log[|log| - 1];
      Counted(log[..|log| - 1], window) + (if e.window == window then e.cost else 0)
  }

  function Admitted(log: seq<Entry>, window: nat): int
    decreases |log|
  {
    if log == [] then 0
    else
      var e := log[|log| - 1];
      Admitted(log[..|log| - 1], window) + (if e.admitted && e.window == window then e.cost else 0)
  }

  lemma LogGrows(log: seq<Entry>, e: Entry, window: nat)
    ensures Counted(log + [e], window) == Counted(log, window) + (if e.window == window then e.cost else 0)
    ensures Admitted(log + [e], window) ==
            Admitted(log, window) + (if e.admitted && e.window == window then e.cost else 0)
  {
    assert (log + [e])[..|log|] == log;
  }

  /** Windows open at least one window length apart. */
  ghost predicate Spaced(starts: seq<int>, length: nat) {
    forall j, k :: 0 <= j < k < |starts| ==> starts[j] + length <= starts[k]
  }

  /** Increments lie in the window open at their time, in order. */
  ghost predicate LogFits(s: State) {
    && (forall k :: 0 <= k < |s.log| ==>
          var e := s.log[k];
          && e.window < |s.starts|
          && s.starts[e.window] <= e.at <= s.now
          && (forall w :: e.window < w < |s.starts| ==> e.at <= s.starts[w]))
    && (forall j, k :: 0 <= j < k < |s.log| ==> s.log[j].window <= s.log[k].window)
  }

  ghost predicate CounterFits(s: State, length: nat) {
    && |s.openers| == |s.starts|
    && (s.starts == [] <==> s.counter.None?)
    && (s.starts != [] ==> s.starts[|s.starts| - 1] <= s.now)
    && (s.counter.Some? ==>
          var last := |s.starts| - 1;
          && s.counter.value.value == Counted(s.log, last)
          && (s.counter.value.deadline.Some? ==> s.starts[last] + length <= s.counter.value.deadline.value)
          && (s.counter.value.deadline.None? ==> s.openers[last] in s.due || s.openers[last] in s.vanished))
  }

  ghost predicate WithinLimit(s: State, limit: nat) {
    && (forall w :: 0 <= w < |s.starts| ==> Admitted(s.log, w) <= limit)
    && (forall w :: 0 <= w < |s.starts| ==> Admitted(s.log, w) <= Counted(s.log, w))
    && (forall w :: w >= |s.starts| ==> Admitted(s.log, w) == Counted(s.log, w) == 0)
  }

  ghost predicate Invariant(s: State, rate: Rate) {
    && Spaced(s.starts, Length(rate))
    && LogFits(s)
    && CounterFits(s, Length(rate))
    && WithinLimit(s, rate.limit)
  }

  lemma InitialInvariant(rate: Rate)
    ensures Invariant(INITIAL, rate)
  {
    assert forall w :: Counted([], w) == Admitted([], w) == 0;
  }

  /** What an increment appends. */
  function NewEntry(s: State, cost: int, rate: Rate): Entry {
    Entry(s.now, cost, if !Live(s.counter, s.now) then |s.starts| else if |s.starts| > 0 then |s.starts| - 1 else 0,
          IncrBy(s.counter, cost, s.now).value <= rate.limit)
  }

  lemma IncrementAppends(s: State, who: Request, cost: int, rate: Rate)
    requires CounterFits(s, Length(rate)) && Enabled(s, Increment(who, cost))
    ensures var s' := Step(s, Increment(who, cost), rate);
            && s'.now == s.now && s'.log == s.log + [NewEntry(s, cost, rate)]
            && s'.starts == if !Live(s.counter, s.now) then s.starts + [s.now] else s.starts
  {
  }

  lemma IncrementKeepsLog(s: State, who: Request, cost: int, rate: Rate)
    requires Spaced(s.starts, Length(rate)) && LogFits(s) && CounterFits(s, Length(rate))
    requires Enabled(s, Increment(who, cost))
    ensures var s' := Step(s, Increment(who, cost), rate);
            s'.log == s.log + [NewEntry(s, cost, rate)] && LogFits(s') && Spaced(s'.starts, Length(rate))
  {
    IncrementAppends(s, who, cost, rate);
    var s' := Step(s, Increment(who, cost), rate);
    if !Live(s.counter, s.now) {
      OpeningKeepsSpaced(s.starts, Length(rate), s.now);
      OpeningKeepsLog(s, s', NewEntry(s, cost, rate));
    } else {
      ContinuingKeepsLog(s, s', NewEntry(s, cost, rate));
    }
  }

  lemma OpeningKeepsSpaced(starts: seq<int>, length: nat, now: int)
    requires Spaced(starts, length)
    requires starts != [] ==> starts[|starts| - 1] + length <= now
    ensures Spaced(starts + [now], length)
  {
    forall j | 0 <= j < |starts|
      ensures starts[j] + length <= now
    {
      assert j == |starts| - 1 || starts[j] + length <= starts[|starts| - 1];
    }
  }

  lemma OpeningKeepsLog(s: State, s': State, e: Entry)
    requires LogFits(s) && e.window == |s.starts| && e.at == s.now == s'.now
    requires s'.starts == s.starts + [s.now] && s'.log == s.log + [e]
    ensures LogFits(s')
  {
  }

  lemma ContinuingKeepsLog(s: State, s': State, e: Entry)
    requires LogFits(s) && s.starts != [] && s.starts[|s.starts| - 1] <= s.now
    requires e.window == |s.starts| - 1 && e.at == s.now == s'.now
    requires s'.starts == s.starts && s'.log == s.log + [e]
    ensures LogFits(s')
  {
  }

  /** The value after an increment is what its window counts. */
  lemma IncrementCounts(s: State, cost: int, rate: Rate)
    requires CounterFits(s, Length(rate)) && Counted(s.log, |s.starts|) == 0
    ensures var e := NewEntry(s, cost, rate);
            Counted(s.log + [e], e.window) == Counted(s.log, e.window) + cost == IncrBy(s.counter, cost, s.now).value
  {
    LogGrows(s.log, NewEntry(s, cost, rate), NewEntry(s, cost, rate).window);
  }

  lemma IncrementKeepsCounter(s: State, who: Request, cost: int, rate: Rate)
    requires CounterFits(s, Length(rate)) && Counted(s.log, |s.starts|) == 0
    requires Enabled(s, Increment(who, cost))
    requires Step(s, Increment(who, cost), rate).log == s.log + [NewEntry(s, cost, rate)]
    ensures CounterFits(Step(s, Increment(who, cost), rate), Length(rate))
  {
    IncrementCounts(s, cost, rate);
    var s' := Step(s, Increment(who, cost), rate);
    assert NewEntry(s, cost, rate).window == |s'.starts| - 1;
    assert s'.counter.value == IncrBy(s.counter, cost, s.now);
  }

  /** An entry of the last window that is admitted exactly if the window's count stays within the limit. */
  lemma EntryKeepsWithinLimit(s: State, s': State, e: Entry, limit: nat)
    requires WithinLimit(s, limit) && s'.log == s.log + [e]
    requires |s.starts| <= |s'.starts| <= |s.starts| + 1 && e.window == |s'.starts| - 1
    requires e.admitted <==> Counted(s.log, e.window) + e.cost <= limit
    ensures WithinLimit(s', limit)
  {
    forall w: nat
      ensures Counted(s'.log, w) == Counted(s.log, w) + (if e.window == w then e.cost else 0)
      ensures Admitted(s'.log, w) == Admitted(s.log, w) + (if e.admitted && e.window == w then e.cost else 0)
    {
      LogGrows(s.log, e, w);
    }
  }

  lemma IncrementKeepsWithinLimit(s: State, who: Request, cost: int, rate: Rate)
    requires CounterFits(s, Length(rate)) && WithinLimit(s, rate.limit)
    requires Enabled(s, Increment(who, cost))
    requires Step(s, Increment(who, cost), rate).log == s.log + [NewEntry(s, cost, rate)]
    ensures WithinLimit(Step(s, Increment(who, cost), rate), rate.limit)
  {
    IncrementCounts(s, cost, rate);
    EntryKeepsWithinLimit(s, Step(s, Increment(who, cost), rate), NewEntry(s, cost, rate), rate.limit);
  }

  lemma OtherStepsKeepLog(s: State, a: Action, rate: Rate)
    requires LogFits(s) && Enabled(s, a) && !a.Increment?
    ensures LogFits(Step(s, a, rate))
  {
  }

  lemma OtherStepsKeepCounter(s: State, a: Action, rate: Rate)
    requires CounterFits(s, Length(rate)) && Enabled(s, a) && !a.Increment?
    ensures CounterFits(Step(s, a, rate), Length(rate))
  {
  }

  lemma StepKeepsInvariant(s: State, a: Action, rate: Rate)
    requires Invariant(s, rate) && Enabled(s, a)
    ensures Invariant(Step(s, a, rate), rate)
  {
    if a.Increment? {
      IncrementKeepsLog(s, a.who, a.cost, rate);
      IncrementKeepsCounter(s, a.who, a.cost, rate);
      IncrementKeepsWithinLimit(s, a.who, a.cost, rate);
    } else {
      OtherStepsKeepLog(s, a, rate);
      OtherStepsKeepCounter(s, a, rate);
    }
  }

  lemma {:induction false} RunKeepsInvariant(s: State, run: seq<Action>, rate: Rate)
    requires Invariant(s, rate) && Legal(s, run, rate)
    ensures Invariant(Final(s, run, rate), rate)
    decreases |run|
  {
    if run != [] {
      StepKeepsInvariant(s, run[0], rate);
      RunKeepsInvariant(Step(s, run[0], rate), run[1..], rate);
    }
  }

  lemma ReachableInvariant(run: seq<Action>, rate: Rate)
    requires Legal(INITIAL, run, rate)
    ensures Invariant(Final(INITIAL, run, rate), rate)
  {
    InitialInvariant(rate);
    RunKeepsInvariant(INITIAL, run, rate);
  }

  /** A key without a deadline is one whose opening request has not issued its EXPIRE: it is still
      about to, or it vanished.  So once that request completes the key has a deadline. */
  lemma DeadlineOnceOpenerCompletes(run: seq<Action>, rate: Rate)
    requires Legal(INITIAL, run, rate)
    ensures var s := Final(INITIAL, run, rate);
            s.counter.Some? && s.counter.value.deadline.None? ==>
              |s.openers| > 0
              && (s.openers[|s.openers| - 1] in s.due || s.openers[|s.openers| - 1] in s.vanished)
  {
    ReachableInvariant(run, rate);
  }

  // -------------------------------------- while the opener has not completed

  /** With costs of at least one, only the request that opened the window issues an EXPIRE. */
  ghost predicate OpenerAlonePending(s: State) {
    && s.due !! s.vanished
    && (s.counter.None? ==> s.due == {} && s.vanished == {})
    && (s.counter.Some? ==>
          && |s.openers| > 0 && s.counter.value.value >= 1
          && s.due + s.vanished == if s.counter.value.deadline.None? then {s.openers[|s.openers| - 1]} else {})
  }

  lemma StepKeepsOpenerAlonePending(s: State, a: Action, rate: Rate)
    requires Enabled(s, a) && OpenerAlonePending(s) && (a.Increment? ==> a.cost >= 1)
    ensures OpenerAlonePending(Step(s, a, rate))
  {
    if a.SetExpiry? || a.Vanish? {
      assert a.who in s.due + s.vanished;
    }
  }

  lemma {:induction false} RunKeepsOpenerAlonePending(s: State, run: seq<Action>, rate: Rate)
    requires Legal(s, run, rate) && OpenerAlonePending(s) && CostsAtLeast(run, 1)
    ensures OpenerAlonePending(Final(s, run, rate))
    decreases |run|
  {
    if run != [] {
      assert run[0] in run;
      StepKeepsOpenerAlonePending(s, run[0], rate);
      RunKeepsOpenerAlonePending(Step(s, run[0], rate), run[1..], rate);
    }
  }

  /** With costs of at least one a key lacks a deadline if and only if its opening request is about to issue
      the EXPIRE, or vanished before it. */
  lemma NoDeadlineExactlyWhileOpenerPending(run: seq<Action>, rate: Rate)
    requires Legal(INITIAL, run, rate) && CostsAtLeast(run, 1)
    ensures var s := Final(INITIAL, run, rate);
            s.counter.Some? ==>
              && |s.openers| > 0
              && (s.counter.value.deadline.None? <==> s.openers[|s.openers| - 1] in s.due + s.vanished)
  {
    RunKeepsOpenerAlonePending(INITIAL, run, rate);
  }

  /** The cost let through in one window never exceeds the limit, even when negative costs give some back. */
  lemma WindowNeverOverspent(run: seq<Action>, rate: Rate, window: nat)
    requires Legal(INITIAL, run, rate)
    ensures Admitted(Final(INITIAL, run, rate).log, window) <= rate.limit
  {
    ReachableInvariant(run, rate);
    var s := Final(INITIAL, run, rate);
    assert window < |s.starts| || Admitted(s.log, window) == 0;
  }

  /** If the opener vanished and nobody else is about to issue EXPIRE, the key never gets a deadline while
      costs are not negative: its window never ends and its count never falls. */
  lemma {:induction false} AbandonedKeyNeverExpires(s: State, run: seq<Action>, rate: Rate)
    requires Legal(s, run, rate) && CostsAtLeast(run, 0)
    requires s.counter.Some? && s.counter.value.deadline.None? && s.counter.value.value > 0 && s.due == {}
    ensures var s' := Final(s, run, rate);
            && s'.counter.Some? && s'.counter.value.deadline.None? && s'.due == {}
            && s'.counter.value.value >= s.counter.value.value
            && s'.starts == s.starts
    decreases |run|
  {
    if run != [] {
      assert run[0] in run;
      AbandonedKeyNeverExpires(Step(s, run[0], rate), run[1..], rate);
    }
  }

  // ------------------------------------------------------- sliding intervals

  /** The cost let through in [from, to). */
  function AdmittedBetween(log: seq<Entry>, from: int, to: int): int
    decreases |log|
  {
    if log == [] then 0
    else
      var e := log[|log| - 1];
      AdmittedBetween(log[..|log| - 1], from, to) + (if e.admitted && from <= e.at < to then e.cost else 0)
  }

  /** The cost let through in the windows lo, ..., hi - 1. */
  function AdmittedInWindows(log: seq<Entry>, lo: nat, hi: nat): int
    decreases hi
  {
    if hi <= lo then 0 else AdmittedInWindows(log, lo, hi - 1) + Admitted(log, hi - 1)
  }

  lemma {:induction false} WindowsGrow(log: seq<Entry>, e: Entry, lo: nat, hi: nat)
    ensures AdmittedInWindows(log + [e], lo, hi) ==
            AdmittedInWindows(log, lo, hi) + (if e.admitted && lo <= e.window < hi then e.cost else 0)
    decreases hi
  {
    if lo < hi {
      WindowsGrow(log, e, lo, hi - 1);
      LogGrows(log, e, hi - 1);
    }
  }

  lemma {:induction false} NoLogNothingAdmitted(lo: nat, hi: nat)
    ensures AdmittedInWindows([], lo, hi) == 0
    decreases hi
  {
    if lo < hi {
      NoLogNothingAdmitted(lo, hi - 1);
    }
  }

  predicate NothingGivenBack(log: seq<Entry>) {
    forall k :: 0 <= k < |log| ==> log[k].cost >= 0
  }

  lemma {:induction false} LogHoldsCosts(s: State, run: seq<Action>, rate: Rate)
    requires Legal(s, run, rate) && CostsAtLeast(run, 0) && NothingGivenBack(s.log)
    ensures NothingGivenBack(Final(s, run, rate).log)
    decreases |run|
  {
    if run != [] {
      assert run[0] in run;
      LogHoldsCosts(Step(s, run[0], rate), run[1..], rate);
    }
  }

  /** What an interval lets through is let through by the windows it meets. */
  lemma {:induction false} IntervalWithinWindows(log: seq<Entry>, from: int, to: int, lo: nat, hi: nat)
    requires forall k :: 0 <= k < |log| ==>
               log[k].cost >= 0 && (from <= log[k].at < to ==> lo <= log[k].window < hi)
    ensures AdmittedBetween(log, from, to) <= AdmittedInWindows(log, lo, hi)
    decreases |log|
  {
    if log == [] {
      NoLogNothingAdmitted(lo, hi);
    } else {
      var shorter, e := log[..|log| - 1], log[|log| - 1];
      assert log == shorter + [e];
      WindowsGrow(shorter, e, lo, hi);
      IntervalWithinWindows(shorter, from, to, lo, hi);
    }
  }

  lemma {:induction false} WindowsWithinLimit(s: State, limit: nat, lo: nat, hi: nat)
    requires WithinLimit(s, limit) && lo <= hi
    ensures AdmittedInWindows(s.log, lo, hi) <= (hi - lo) * limit
    decreases hi
  {
    if lo < hi {
      WindowsWithinLimit(s, limit, lo, hi - 1);
      assert hi - 1 < |s.starts| || Admitted(s.log, hi - 1) == 0;
      assert (hi - lo) * limit == (hi - 1 - lo) * limit + limit;
    }
  }

  lemma {:induction false} StartsApart(starts: seq<int>, length: nat, lo: nat, hi: nat)
    requires Spaced(starts, length) && lo <= hi < |starts|
    ensures starts[lo] + (hi - lo) * length <= starts[hi]
    decreases hi
  {
    if lo < hi {
      StartsApart(starts, length, lo, hi - 1);
      assert (hi - lo) * length == (hi - 1 - lo) * length + length;
    }
  }

  function CeilDiv(a: nat, b: nat): nat
    requires b > 0
  {
    (a + b - 1) / b
  }

  lemma CeilDivExceeds(n: nat, a: nat, b: nat)
    requires b > 0 && n * b < a
    ensures n + 1 <= CeilDiv(a, b)
  {
  }

  /** The first and last increments of an interval. */
  lemma {:induction false} EndsOfInterval(log: seq<Entry>, from: int, to: int) returns (first: nat, last: nat)
    requires exists k :: 0 <= k < |log| && from <= log[k].at < to
    ensures first <= last < |log|
    ensures from <= log[first].at < to && from <= log[last].at < to
    ensures forall k :: 0 <= k < |log| && from <= log[k].at < to ==> first <= k <= last
    decreases |log|
  {
    var shorter, e := log[..|log| - 1], log[|log| - 1];
    if k :| 0 <= k < |shorter| && from <= shorter[k].at < to {
      first, last := EndsOfInterval(shorter, from, to);
      if from <= e.at < to {
        last := |log| - 1;
      }
    } else {
      first, last := |log| - 1, |log| - 1;
    }
  }

  /** An interval meets at most one window more than fit into it. */
  lemma WindowsMet(s: State, rate: Rate, from: int, to: int, first: nat, last: nat)
    requires Invariant(s, rate) && first <= last < |s.log|
    requires from <= s.log[first].at && s.log[last].at < to && from <= to
    ensures s.log[last].window - s.log[first].window <= CeilDiv(to - from, Length(rate))
  {
    var length := Length(rate);
    var lo, hi := s.log[first].window, s.log[last].window;
    if lo < hi {
      StartsApart(s.starts, length, lo + 1, hi);
      CeilDivExceeds(hi - lo - 1, to - from, length);
    }
  }

  lemma SpanWithinLimit(s: State, rate: Rate, from: int, to: int, first: nat, last: nat)
    requires Invariant(s, rate) && NothingGivenBack(s.log) && from <= to && first <= last < |s.log|
    requires from <= s.log[first].at && s.log[last].at < to
    requires forall k :: 0 <= k < |s.log| && from <= s.log[k].at < to ==> first <= k <= last
    ensures AdmittedBetween(s.log, from, to) <= (CeilDiv(to - from, Length(rate)) + 1) * rate.limit
  {
    var lo, hi := s.log[first].window, s.log[last].window + 1;
    WindowsMet(s, rate, from, to, first, last);
    SpanInWindows(s, from, to, first, last);
    WindowsWithinLimit(s, rate.limit, lo, hi);
    MoreWindowsMoreCost(hi - lo, CeilDiv(to - from, Length(rate)) + 1, rate.limit);
  }

  lemma SpanInWindows(s: State, from: int, to: int, first: nat, last: nat)
    requires LogFits(s) && NothingGivenBack(s.log) && first <= last < |s.log|
    requires forall k :: 0 <= k < |s.log| && from <= s.log[k].at < to ==> first <= k <= last
    ensures AdmittedBetween(s.log, from, to)
            <= AdmittedInWindows(s.log, s.log[first].window, s.log[last].window + 1)
  {
    forall k | 0 <= k < |s.log|
      ensures s.log[k].cost >= 0
      ensures from <= s.log[k].at < to ==> s.log[first].window <= s.log[k].window < s.log[last].window + 1
    {
      assert k < first || first == k || first < k;
      assert k < last || last == k || last < k;
    }
    IntervalWithinWindows(s.log, from, to, s.log[first].window, s.log[last].window + 1);
  }

  lemma IntervalWithinLimit(s: State, rate: Rate, from: int, to: int)
    requires Invariant(s, rate) && NothingGivenBack(s.log) && from <= to
    ensures AdmittedBetween(s.log, from, to) <= (CeilDiv(to - from, Length(rate)) + 1) * rate.limit
  {
    if exists k :: 0 <= k < |s.log| && from <= s.log[k].at < to {
      var first, last := EndsOfInterval(s.log, from, to);
      SpanWithinLimit(s, rate, from, to, first, last);
    } else {
      NothingOutside(s.log, from, to);
      MoreWindowsMoreCost(0, CeilDiv(to - from, Length(rate)) + 1, rate.limit);
    }
  }

  lemma MoreWindowsMoreCost(n: nat, m: nat, limit: nat)
    requires n <= m
    ensures n * limit <= m * limit
  {
  }

  lemma {:induction false} NothingOutside(log: seq<Entry>, from: int, to: int)
    requires forall k :: 0 <= k < |log| ==> !(from <= log[k].at < to)
    ensures AdmittedBetween(log, from, to) == 0
    decreases |log|
  {
    if log != [] {
      NothingOutside(log[..|log| - 1], from, to);
    }
  }

  /** Whatever the interleaving, any interval [from, to) lets through at most
      (ceil((to - from) / window) + 1) times the limit, while costs are not negative. */
  lemma IntervalNeverOverspent(run: seq<Action>, rate: Rate, from: int, to: int)
    requires Legal(INITIAL, run, rate) && CostsAtLeast(run, 0) && from <= to
    ensures AdmittedBetween(Final(INITIAL, run, rate).log, from, to)
            <= (CeilDiv(to - from, Length(rate)) + 1) * rate.limit
  {
    LogHoldsCosts(INITIAL, run, rate);
    ReachableInvariant(run, rate);
    IntervalWithinLimit(Final(INITIAL, run, rate), rate, from, to);
  }

  /** The cost let through in the interval of one window's length that starts at `from`. */
  function LetThrough(run: seq<Action>, rate: Rate, from: int): int
    requires Legal(INITIAL, run, rate)
  {
    AdmittedBetween(Final(INITIAL, run, rate).log, from, from + Length(rate))
  }

  /** In particular an interval of one window's length lets through at most twice the limit. */
  lemma AtMostTwiceTheLimit(run: seq<Action>, rate: Rate, from: int)
    requires Legal(INITIAL, run, rate) && CostsAtLeast(run, 0)
    ensures LetThrough(run, rate, from) <= 2 * rate.limit
  {
    IntervalNeverOverspent(run, rate, from, from + Length(rate));
  }

  // ------------------------------------------------------- particular runs

  /** Puts one step in front of a run. */
  lemma Before(s: State, a: Action, next: State, rest: seq<Action>, rate: Rate) returns (run: seq<Action>)
    requires Enabled(s, a) && Step(s, a, rate) == next && Legal(next, rest, rate)
    ensures Legal(s, run, rate) && Final(s, run, rate) == Final(next, rest, rate)
    ensures forall least :: CostsAtLeast(rest, least) && (a.Increment? ==> a.cost >= least) ==> CostsAtLeast(run, least)
  {
    run := [a] + rest;
    assert run[1..] == rest;
    assert forall b :: b in run ==> b == a || b in rest;
  }

  /** A request opens a window and vanishes before its EXPIRE. */
  function OpenerVanished(who: Request, cost: int, rate: Rate): State {
    Step(Step(INITIAL, Increment(who, cost), rate), Vanish(who), rate)
  }

  lemma OneWindowWithinLimit(run: seq<Action>, rate: Rate, from: int, to: int)
    requires Legal(INITIAL, run, rate) && CostsAtLeast(run, 0) && |Final(INITIAL, run, rate).starts| == 1
    ensures AdmittedBetween(Final(INITIAL, run, rate).log, from, to) <= rate.limit
  {
    ReachableInvariant(run, rate);
    LogHoldsCosts(INITIAL, run, rate);
    var s := Final(INITIAL, run, rate);
    IntervalWithinWindows(s.log, from, to, 0, 1);
    WindowsWithinLimit(s, rate.limit, 0, 1);
  }

  /** That can happen, and whatever requests follow, with no negative costs among them, the key's first window
      never ends: no interval, however long, lets through more than a single limit. */
  lemma VanishedOpenerSpendsOneLimitForEver(who: Request, cost: int, rate: Rate, rest: seq<Action>, from: int, to: int)
    returns (run: seq<Action>)
    requires cost >= 1 && Legal(OpenerVanished(who, cost, rate), rest, rate) && CostsAtLeast(rest, 0)
    ensures Legal(INITIAL, run, rate) && Final(INITIAL, run, rate) == Final(OpenerVanished(who, cost, rate), rest, rate)
    ensures var s := Final(INITIAL, run, rate);
            && s.counter.Some? && s.counter.value.deadline.None? && s.starts == [0]
            && AdmittedBetween(s.log, from, to) <= rate.limit
  {
    var counting := Step(INITIAL, Increment(who, cost), rate);
    run := Before(counting, Vanish(who), OpenerVanished(who, cost, rate), rest, rate);
    run := Before(INITIAL, Increment(who, cost), counting, run, rate);
    AbandonedKeyNeverExpires(OpenerVanished(who, cost, rate), rest, rate);
    OneWindowWithinLimit(run, rate, from, to);
  }

  /** The class's request, uninterrupted, is a run of the step machine. */
  lemma RequestIsARun(s: State, who: Request, cost: int, elapsed: nat, rate: Rate) returns (run: seq<Action>)
    requires who !in s.due && who !in s.vanished
    ensures Legal(s, run, rate)
    ensures Final(s, run, rate).now == s.now + elapsed
    ensures Final(s, run, rate).counter == Checked(s.counter, cost, WindowSeconds(rate.unit), s.now, s.now + elapsed)
    ensures Final(s, run, rate).due == s.due
  {
    var incremented := Step(s, Increment(who, cost), rate);
    var waited := incremented.(now := s.now + elapsed);
    run := [];
    if incremented.counter.value.value == cost {
      run := Before(waited, SetExpiry(who), Step(waited, SetExpiry(who), rate), run, rate);
    }
    run := Before(incremented, Wait(elapsed), waited, run, rate);
    run := Before(s, Increment(who, cost), incremented, run, rate);
  }

  function Opening(opening: int): Entry {
    Entry(0, opening, 0, true)
  }

  function Late(rate: Rate, opening: int): Entry {
    Entry(Length(rate) - 1, rate.limit - opening, 0, true)
  }

  /** The limit is spent, one millisecond before the window ends. */
  function Spent(rate: Rate, opening: int): State {
    var length, limit := Length(rate), rate.limit;
    State(length - 1, Some(Counter(limit, Some(length))), if opening == 0 then {1} else {}, [0], [0],
          [Opening(opening), Late(rate, opening)], {})
  }

  lemma SpendingTheLimit(rate: Rate, opening: int, rest: seq<Action>) returns (run: seq<Action>)
    requires opening <= rate.limit && Legal(Spent(rate, opening), rest, rate)
    ensures Legal(INITIAL, run, rate) && Final(INITIAL, run, rate) == Final(Spent(rate, opening), rest, rate)
    ensures forall least :: CostsAtLeast(rest, least) && least <= opening && least <= rate.limit - opening ==>
              CostsAtLeast(run, least)
  {
    var length, limit := Length(rate), rate.limit;
    var s1 := State(0, Some(Counter(opening, None)), {0}, [0], [0], [Opening(opening)], {});
    var s2 := s1.(counter := Some(Counter(opening, Some(length))), due := {});
    var s3 := s2.(now := length - 1);
    run := Before(s3, Increment(1, limit - opening), Spent(rate, opening), rest, rate);
    run := Before(s2, Wait(length - 1), s3, run, rate);
    run := Before(s1, SetExpiry(0), s2, run, rate);
    run := Before(INITIAL, Increment(0, opening), s1, run, rate);
  }

  lemma SpendingItAgain(rate: Rate, opening: int) returns (run: seq<Action>)
    ensures Legal(Spent(rate, opening), run, rate) && forall least :: least <= rate.limit ==> CostsAtLeast(run, least)
    ensures Final(Spent(rate, opening), run, rate).log ==
            [Opening(opening), Late(rate, opening), Entry(Length(rate), rate.limit, 1, true)]
  {
    var length, limit := Length(rate), rate.limit;
    var over := Spent(rate, opening).(now := length);
    run := Before(over, Increment(2, limit), Step(over, Increment(2, limit), rate), [], rate);
    run := Before(Spent(rate, opening), Wait(1), over, run, rate);
  }

  /** A window is opened at some cost, the rest of the limit is spent just before the window ends, and a
      whole limit just after: one window's length sees twice the limit less the opening cost. */
  lemma TwiceTheLimitLessOpening(rate: Rate, opening: int) returns (run: seq<Action>)
    requires opening <= rate.limit
    ensures Legal(INITIAL, run, rate)
    ensures CostsAtLeast(run, if 2 * opening <= rate.limit then opening else rate.limit - opening)
    ensures LetThrough(run, rate, 1) == 2 * rate.limit - opening
  {
    run := SpendingItAgain(rate, opening);
    run := SpendingTheLimit(rate, opening, run);
    var log := Final(INITIAL, run, rate).log;
    assert log[..2] == [Opening(opening), Late(rate, opening)];
    assert log[..2][..1] == [Opening(opening)] && [Opening(opening)][..0] == [];
    assert AdmittedBetween(log[..2][..1], 1, 1 + Length(rate)) == 0;
    assert AdmittedBetween(log[..2], 1, 1 + Length(rate)) == rate.limit - opening;
  }

  /** No interval of one window's length lets through more than twice the limit, in all runs with costs from
      `least` upwards, if and only if `least` is not negative. */
  lemma AtMostTwiceExactlyWithoutNegativeCosts(rate: Rate, least: int)
    ensures (forall run, from | Legal(INITIAL, run, rate) && CostsAtLeast(run, least) ::
               LetThrough(run, rate, from) <= 2 * rate.limit)
            <==> least >= 0
  {
    if least >= 0 {
      forall run, from | Legal(INITIAL, run, rate) && CostsAtLeast(run, least)
        ensures LetThrough(run, rate, from) <= 2 * rate.limit
      {
        AtMostTwiceTheLimit(run, rate, from);
      }
    } else {
      var run := TwiceTheLimitLessOpening(rate, least);
      assert LetThrough(run, rate, 1) > 2 * rate.limit;
    }
  }
}
