/** How much the rate limiter lets through at most in an interval of one window's length, when every cost
    is at least some least value. */
module RateLimiterPeak {
  import opened Wrappers
  import opened RateLimiter

  /** What fits into a window after the request that opened it. */
  function Spare(limit: nat, least: nat): nat {
    if 2 * least <= limit then limit - least else 0
  }

  /** The most an interval of one window's length can let through: what fits behind the opening request of a
      window, and a whole limit in the next one. */
  function Peak(limit: nat, least: nat): nat {
    if least <= limit then limit + Spare(limit, least) else 0
  }

  predicate Seen(log: seq<Entry>, window: nat) {
    exists k :: 0 <= k < |log| && log[k].window == window
  }

  /** The cost let through in a window without the entry that opened it. */
  function Later(log: seq<Entry>, window: nat): int
    decreases |log|
  {
    if log == [] then 0
    else
      var before, e := log[..|log| - 1], log[|log| - 1];
      Later(before, window) + if e.admitted && e.window == window && Seen(before, window) then e.cost else 0
  }

  lemma LaterGrows(log: seq<Entry>, e: Entry, window: nat)
    ensures Later(log + [e], window)
            == Later(log, window) + if e.admitted && e.window == window && Seen(log, window) then e.cost else 0
  {
    assert (log + [e])[..|log|] == log;
  }

  // ------------------------------------------------------------ what is kept

  ghost predicate CostsIn(log: seq<Entry>, least: nat) {
    forall k :: 0 <= k < |log| ==> log[k].cost >= least
  }

  /** The first entry of a window is made when the window starts. */
  ghost predicate OpenedAtStart(s: State) {
    forall k :: 0 <= k < |s.log| ==> OpensOrFollows(s, k)
  }

  ghost predicate OpensOrFollows(s: State, k: nat)
    requires k < |s.log|
  {
    var e := s.log[k];
    Seen(s.log[..k], e.window) || (e.window < |s.starts| && e.at == s.starts[e.window])
  }

  ghost predicate LaterFits(s: State, limit: nat, least: nat) {
    && (forall w: nat :: w < |s.starts| ==> Seen(s.log, w))
    && (forall w: nat :: Later(s.log, w) <= Spare(limit, least))
    && (s.starts != [] ==>
          var last := |s.starts| - 1;
          Counted(s.log, last) >= least + Later(s.log, last))
    && (limit < least ==> forall k :: 0 <= k < |s.log| ==> !s.log[k].admitted)
  }

  ghost predicate PeakInvariant(s: State, rate: Rate, least: nat) {
    Invariant(s, rate) && CostsIn(s.log, least) && OpenedAtStart(s) && LaterFits(s, rate.limit, least)
  }

  lemma SeenGrows(log: seq<Entry>, e: Entry, w: nat)
    ensures Seen(log + [e], w) <==> Seen(log, w) || e.window == w
  {
    if k :| 0 <= k < |log| && log[k].window == w {
      assert (log + [e])[k].window == w;
    }
    if e.window == w {
      assert (log + [e])[|log|].window == w;
    }
  }

  lemma IncrementKeepsOpened(s: State, who: Request, cost: int, rate: Rate)
    requires CounterFits(s, Length(rate)) && Enabled(s, Increment(who, cost)) && OpenedAtStart(s)
    requires forall w: nat :: w < |s.starts| ==> Seen(s.log, w)
    requires Step(s, Increment(who, cost), rate).log == s.log + [NewEntry(s, cost, rate)]
    ensures OpenedAtStart(Step(s, Increment(who, cost), rate))
  {
    var e, s' := NewEntry(s, cost, rate), Step(s, Increment(who, cost), rate);
    forall k | 0 <= k < |s'.log|
      ensures OpensOrFollows(s', k)
    {
      if k < |s.log| {
        assert s'.log[..k] == s.log[..k] && s'.log[k] == s.log[k];
        assert OpensOrFollows(s, k);
      } else {
        assert s'.log[..k] == s.log && s'.log[k] == e;
      }
    }
  }

  lemma SeenWindowIsOpen(s: State, w: nat)
    requires LogFits(s) && Seen(s.log, w)
    ensures w < |s.starts|
  {
  }

  lemma IncrementKeepsLater(s: State, who: Request, cost: int, rate: Rate, least: nat)
    requires CounterFits(s, Length(rate)) && LaterFits(s, rate.limit, least) && CostsIn(s.log, least)
    requires Enabled(s, Increment(who, cost)) && cost >= least
    requires Counted(s.log, |s.starts|) == 0 && !Seen(s.log, |s.starts|)
    requires Step(s, Increment(who, cost), rate).log == s.log + [NewEntry(s, cost, rate)]
    ensures LaterFits(Step(s, Increment(who, cost), rate), rate.limit, least)
  {
    var e, s' := NewEntry(s, cost, rate), Step(s, Increment(who, cost), rate);
    IncrementCounts(s, cost, rate);
    UnseenHasNoLater(s.log, |s.starts|);
    if Live(s.counter, s.now) {
      NextEntryFits(s, s', e, rate.limit, least);
    } else {
      FirstEntryFits(s, s', e, rate.limit, least);
    }
  }

  /** An entry that opens a window. */
  lemma FirstEntryFits(s: State, s': State, e: Entry, limit: nat, least: nat)
    requires LaterFits(s, limit, least) && s'.log == s.log + [e] && e.cost >= least
    requires |s'.starts| == |s.starts| + 1 && e.window == |s.starts| && !Seen(s.log, e.window)
    requires Counted(s'.log, e.window) == e.cost && Later(s.log, e.window) == 0
    requires e.admitted <==> e.cost <= limit
    ensures LaterFits(s', limit, least)
  {
    forall w: nat
      ensures Later(s'.log, w) == Later(s.log, w)
      ensures w < |s'.starts| ==> Seen(s'.log, w)
    {
      LaterGrows(s.log, e, w);
      SeenGrows(s.log, e, w);
    }
  }

  /** An entry in the last window there is. */
  lemma NextEntryFits(s: State, s': State, e: Entry, limit: nat, least: nat)
    requires LaterFits(s, limit, least) && s'.log == s.log + [e] && e.cost >= least && CostsIn(s.log, least)
    requires s'.starts == s.starts && s.starts != [] && e.window == |s.starts| - 1
    requires Counted(s'.log, e.window) == Counted(s.log, e.window) + e.cost
    requires e.admitted <==> Counted(s'.log, e.window) <= limit
    ensures LaterFits(s', limit, least)
  {
    NothingNegativeLater(s.log, e.window);
    LaterGrows(s.log, e, e.window);
    forall w: nat
      ensures w != e.window ==> Later(s'.log, w) == Later(s.log, w)
      ensures w < |s'.starts| ==> Seen(s'.log, w)
    {
      LaterGrows(s.log, e, w);
      SeenGrows(s.log, e, w);
    }
  }

  lemma {:induction false} NothingNegativeLater(log: seq<Entry>, w: nat)
    requires forall k :: 0 <= k < |log| ==> log[k].cost >= 0
    ensures Later(log, w) >= 0
    decreases |log|
  {
    if log != [] {
      NothingNegativeLater(log[..|log| - 1], w);
    }
  }

  lemma {:induction false} UnseenHasNoLater(log: seq<Entry>, w: nat)
    requires !Seen(log, w)
    ensures Later(log, w) == 0
    decreases |log|
  {
    if log != [] {
      var before, e := log[..|log| - 1], log[|log| - 1];
      assert log == before + [e];
      SeenGrows(before, e, w);
      UnseenHasNoLater(before, w);
    }
  }

  lemma NextWindowIsUnseen(s: State, limit: nat)
    requires LogFits(s) && WithinLimit(s, limit)
    ensures Counted(s.log, |s.starts|) == 0 && !Seen(s.log, |s.starts|)
  {
    assert Counted(s.log, |s.starts|) == 0;
  }

  lemma StepKeepsPeakInvariant(s: State, a: Action, rate: Rate, least: nat)
    requires PeakInvariant(s, rate, least) && Enabled(s, a) && (a.Increment? ==> a.cost >= least)
    ensures PeakInvariant(Step(s, a, rate), rate, least)
  {
    StepKeepsInvariant(s, a, rate);
    var s' := Step(s, a, rate);
    if a.Increment? {
      IncrementKeepsLog(s, a.who, a.cost, rate);
      NextWindowIsUnseen(s, rate.limit);
      IncrementKeepsOpened(s, a.who, a.cost, rate);
      IncrementKeepsLater(s, a.who, a.cost, rate, least);
    } else {
      assert s'.log == s.log && s'.starts == s.starts;
      forall k | 0 <= k < |s'.log|
        ensures OpensOrFollows(s', k)
      {
        assert OpensOrFollows(s, k);
      }
    }
  }

  lemma {:induction false} RunKeepsPeakInvariant(s: State, run: seq<Action>, rate: Rate, least: nat)
    requires Legal(s, run, rate) && CostsAtLeast(run, least) && PeakInvariant(s, rate, least)
    ensures PeakInvariant(Final(s, run, rate), rate, least)
    decreases |run|
  {
    if run != [] {
      assert run[0] in run;
      StepKeepsPeakInvariant(s, run[0], rate, least);
      RunKeepsPeakInvariant(Step(s, run[0], rate), run[1..], rate, least);
    }
  }

  // ---------------------------------------------------------------- the bound

  /** Entries of an interval that lie in two windows, without the one that opened the first. */
  lemma {:induction false} IntervalWithinTwo(log: seq<Entry>, from: int, to: int, lo: nat, hi: nat)
    requires lo != hi && forall k :: 0 <= k < |log| ==> log[k].cost >= 0
    requires forall k :: 0 <= k < |log| && from <= log[k].at < to ==>
               log[k].window == hi || (log[k].window == lo && Seen(log[..k], lo))
    ensures AdmittedBetween(log, from, to) <= Later(log, lo) + Admitted(log, hi)
    decreases |log|
  {
    if log != [] {
      var before, e := log[..|log| - 1], log[|log| - 1];
      assert log == before + [e];
      forall k | 0 <= k < |before|
        ensures before[k] == log[k] && before[..k] == log[..k]
      {
      }
      IntervalWithinTwo(before, from, to, lo, hi);
    }
  }

  lemma {:induction false} NothingAdmitted(log: seq<Entry>, from: int, to: int)
    requires forall k :: 0 <= k < |log| ==> !log[k].admitted
    ensures AdmittedBetween(log, from, to) == 0
    decreases |log|
  {
    if log != [] {
      NothingAdmitted(log[..|log| - 1], from, to);
    }
  }

  /** An interval that meets two windows does not contain the opening of the first. */
  lemma OpeningIsBefore(s: State, rate: Rate, from: int, lo: nat, last: nat, k: nat)
    requires LogFits(s) && Spaced(s.starts, Length(rate)) && OpenedAtStart(s)
    requires last < |s.log| && s.log[last].window == lo + 1 && s.log[last].at < from + Length(rate)
    requires k < |s.log| && s.log[k].window == lo && from <= s.log[k].at
    ensures Seen(s.log[..k], lo)
  {
    assert s.starts[lo] + Length(rate) <= s.starts[lo + 1];
    assert OpensOrFollows(s, k);
  }

  lemma TwoWindowsWithinPeak(s: State, rate: Rate, least: nat, from: int, first: nat, last: nat)
    requires LogFits(s) && Spaced(s.starts, Length(rate)) && OpenedAtStart(s) && CostsIn(s.log, least)
    requires first <= last < |s.log| && s.log[last].window == s.log[first].window + 1
    requires s.log[last].at < from + Length(rate)
    requires forall k :: 0 <= k < |s.log| && from <= s.log[k].at < from + Length(rate) ==> first <= k <= last
    ensures AdmittedBetween(s.log, from, from + Length(rate))
            <= Later(s.log, s.log[first].window) + Admitted(s.log, s.log[last].window)
  {
    var lo, hi := s.log[first].window, s.log[last].window;
    forall k | 0 <= k < |s.log| && from <= s.log[k].at < from + Length(rate)
      ensures s.log[k].window == hi || (s.log[k].window == lo && Seen(s.log[..k], lo))
    {
      assert k == first || first < k;
      assert k == last || k < last;
      if s.log[k].window == lo {
        OpeningIsBefore(s, rate, from, lo, last, k);
      }
    }
    IntervalWithinTwo(s.log, from, from + Length(rate), lo, hi);
  }

  lemma OneWindowWithinLimit(s: State, limit: nat, from: int, to: int, first: nat, last: nat)
    requires LogFits(s) && NothingGivenBack(s.log) && WithinLimit(s, limit) && first <= last < |s.log|
    requires forall k :: 0 <= k < |s.log| && from <= s.log[k].at < to ==> first <= k <= last
    requires s.log[last].window == s.log[first].window
    ensures AdmittedBetween(s.log, from, to) <= limit
  {
    var w := s.log[first].window;
    SpanInWindows(s, from, to, first, last);
    assert AdmittedInWindows(s.log, w, w + 1) == AdmittedInWindows(s.log, w, w) + Admitted(s.log, w);
  }

  lemma WindowsOfInterval(s: State, rate: Rate, from: int, first: nat, last: nat)
    requires Invariant(s, rate) && first <= last < |s.log|
    requires from <= s.log[first].at && s.log[last].at < from + Length(rate)
    ensures s.log[first].window <= s.log[last].window <= s.log[first].window + 1
    ensures s.log[last].window < |s.starts|
  {
    WindowsMet(s, rate, from, from + Length(rate), first, last);
    OneLengthOneMore(Length(rate));
    assert first == last || s.log[first].window <= s.log[last].window;
  }

  lemma WithinPeak(s: State, rate: Rate, least: nat, from: int)
    requires PeakInvariant(s, rate, least)
    ensures AdmittedBetween(s.log, from, from + Length(rate)) <= Peak(rate.limit, least)
  {
    var to := from + Length(rate);
    if rate.limit < least {
      NothingAdmitted(s.log, from, to);
    } else if exists k :: 0 <= k < |s.log| && from <= s.log[k].at < to {
      var first, last := EndsOfInterval(s.log, from, to);
      WindowsOfInterval(s, rate, from, first, last);
      if s.log[last].window == s.log[first].window {
        OneWindowWithinLimit(s, rate.limit, from, to, first, last);
      } else {
        TwoWindowsWithinPeak(s, rate, least, from, first, last);
      }
    } else {
      NothingOutside(s.log, from, to);
    }
  }

  lemma OneLengthOneMore(length: nat)
    requires length > 0
    ensures CeilDiv(length, length) == 1
  {
    assert (2 * length - 1) / length == 1;
  }

  // ------------------------------------------------------------- it is attained

  lemma OneRequestSpendsTheLimit(rate: Rate, least: nat) returns (run: seq<Action>)
    requires least <= rate.limit
    ensures Legal(INITIAL, run, rate) && CostsAtLeast(run, least) && LetThrough(run, rate, 0) == rate.limit
  {
    var only := Entry(0, rate.limit, 0, true);
    var s := State(0, Some(Counter(rate.limit, None)), {0}, [0], [0], [only], {});
    run := Before(INITIAL, Increment(0, rate.limit), s, [], rate);
    assert [only][..0] == [];
    assert AdmittedBetween([only], 0, Length(rate)) == rate.limit;
  }

  lemma PeakIsAttained(rate: Rate, least: nat) returns (run: seq<Action>, from: int)
    ensures Legal(INITIAL, run, rate) && CostsAtLeast(run, least)
    ensures LetThrough(run, rate, from) == Peak(rate.limit, least)
  {
    if 2 * least <= rate.limit {
      run := TwiceTheLimitLessOpening(rate, least);
      from := 1;
    } else if least <= rate.limit {
      run := OneRequestSpendsTheLimit(rate, least);
      from := 0;
    } else {
      run, from := [], 0;
    }
  }

  /** In all runs with costs of at least `least`, no interval of one window's length lets through more. */
  ghost predicate IsBound(rate: Rate, least: nat, bound: int) {
    forall run, from | Legal(INITIAL, run, rate) && CostsAtLeast(run, least) :: LetThrough(run, rate, from) <= bound
  }

  lemma PeakIsBound(rate: Rate, least: nat)
    ensures IsBound(rate, least, Peak(rate.limit, least))
  {
    forall run, from | Legal(INITIAL, run, rate) && CostsAtLeast(run, least)
      ensures LetThrough(run, rate, from) <= Peak(rate.limit, least)
    {
      InitialInvariant(rate);
      RunKeepsPeakInvariant(INITIAL, run, rate, least);
      WithinPeak(Final(INITIAL, run, rate), rate, least, from);
    }
  }

  /** With costs of at least `least`, the least upper bound on what an interval of one window's length lets
      through in any run is twice the limit less `least` if two such costs fit into the limit, the limit if
      only one does, and nothing if none does. */
  lemma PeakIsTheMaximum(rate: Rate, least: nat, bound: int)
    ensures IsBound(rate, least, bound) <==> bound >= Peak(rate.limit, least)
  {
    PeakIsBound(rate, least);
    var run, from := PeakIsAttained(rate, least);
    if IsBound(rate, least, bound) {
      assert LetThrough(run, rate, from) <= bound;
    }
  }
}
