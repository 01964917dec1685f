/** The cache service without Redis: a dictionary with expiry times and lazy eviction, and the `cached`
    decorator on top of it.  Pattern matching is whatever predicate the pattern stands for. */
module LocalCache {
  import opened Wrappers

  type Key = string
  type Value = string

  datatype Entry = Entry(value: Value, expiry: int)

  datatype Stats = Stats(hits: nat, misses: nat, sets: nat, deletes: nat)

  datatype Cache = Cache(entries: map<Key, Entry>, stats: Stats)

  const EMPTY := Cache(map[], Stats(0, 0, 0, 0))

  datatype Op =
    | Get(key: Key, now: int)
    | Set(key: Key, value: Value, ttl: int, now: int)
    | Delete(key: Key, now: int)
    | DeletePattern(matches: Key -> bool, now: int)

  // --------------------------------------------------- what each call does

  /** What a lookup at `now` finds. */
  function Peek(c: Cache, key: Key, now: int): Option<Value> {
    if key in c.entries && c.entries[key].expiry > now then Some(c.entries[key].value) else None
  }

  function Matching(entries: map<Key, Entry>, matches: Key -> bool): set<Key> {
    set k | k in entries && matches(k)
  }

  /** A lookup that finds an expired entry removes it. */
  function Apply(c: Cache, op: Op): Cache {
    match op
    case Get(key, now) =>
      if Peek(c, key, now).Some? then c.(stats := c.stats.(hits := c.stats.hits + 1))
      else Cache(c.entries - {key}, c.stats.(misses := c.stats.misses + 1))
    case Set(key, value, ttl, now) =>
      Cache(c.entries[key := Entry(value, now + ttl)], c.stats.(sets := c.stats.sets + 1))
    case Delete(key, _) => Cache(c.entries - {key}, c.stats.(deletes := c.stats.deletes + 1))
    case DeletePattern(matches, _) =>
      var gone := Matching(c.entries, matches);
      Cache(c.entries - gone, c.stats.(deletes := c.stats.deletes + |gone|))
  }

  /** The cache after a history of calls on an empty one. */
  function After(history: seq<Op>): Cache
    decreases |history|
  {
    if history == [] then EMPTY else Apply(After(history[..|history| - 1]), history[|history| - 1])
  }

  lemma {:induction false} AfterOne(history: seq<Op>, op: Op)
    ensures After(history + [op]) == Apply(After(history), op)
  {
    assert (history + [op])[..|history|] == history;
  }

  // -------------------------------------- the map that the history defines

  /** What the latest call that affects `key` stored, if it is a set; lookups affect nothing. */
  function LatestSet(history: seq<Op>, key: Key): Option<Entry>
    decreases |history|
  {
    if history == [] then None
    else
      var earlier := LatestSet(history[..|history| - 1], key);
      match history[|history| - 1]
      case Get(_, _) => earlier
      case Set(k, value, ttl, at) => if k != key then earlier else Some(Entry(value, at + ttl))
      case Delete(k, _) => if k != key then earlier else None
      case DeletePattern(matches, _) => if matches(key) then None else earlier
  }

  /** The value of the latest call that affects `key`, if it is a set whose time to live has not run out. */
  function Defined(history: seq<Op>, key: Key, now: int): Option<Value> {
    var set0 := LatestSet(history, key);
    if set0.Some? && set0.value.expiry > now then Some(set0.value.value) else None
  }

  /** After the latest set of `key`, a lookup of it came at or after the expiry time. */
  predicate LookedUpExpired(history: seq<Op>, key: Key)
    decreases |history|
  {
    history != [] &&
    var before := history[..|history| - 1];
    match history[|history| - 1]
    case Get(k, at) =>
      LookedUpExpired(before, key)
      || (k == key && LatestSet(before, key).Some? && LatestSet(before, key).value.expiry <= at)
    case Set(k, _, _, _) => k != key && LookedUpExpired(before, key)
    case Delete(k, _) => k != key && LookedUpExpired(before, key)
    case DeletePattern(matches, _) => !matches(key) && LookedUpExpired(before, key)
  }

  /** The entry of `key` is the latest set's, unless a lookup evicted it. */
  lemma {:induction false} EntryIsLatestSet(history: seq<Op>, key: Key)
    ensures var entries := After(history).entries;
            && (key in entries <==> LatestSet(history, key).Some? && !LookedUpExpired(history, key))
            && (key in entries ==> LatestSet(history, key) == Some(entries[key]))
    decreases |history|
  {
    if history != [] {
      EntryIsLatestSet(history[..|history| - 1], key);
    }
  }

  /** What a lookup finds by the history alone, with any clock. */
  function Found(history: seq<Op>, key: Key, now: int): Option<Value> {
    if LookedUpExpired(history, key) then None else Defined(history, key, now)
  }

  lemma PeekIsFound(history: seq<Op>, key: Key, now: int)
    ensures Peek(After(history), key, now) == Found(history, key, now)
  {
    EntryIsLatestSet(history, key);
  }

  /** With any clock, a lookup finds what the history of calls defines, except exactly when an earlier
      lookup read a later clock and evicted the entry that would still be live. */
  lemma RefinesExactlyUnlessEvictedEarly(history: seq<Op>, key: Key, now: int)
    ensures Peek(After(history), key, now) == Defined(history, key, now)
            <==> !(Defined(history, key, now).Some? && LookedUpExpired(history, key))
  {
    EntryIsLatestSet(history, key);
  }

  predicate NoLaterClock(history: seq<Op>, now: int) {
    forall i :: 0 <= i < |history| ==> history[i].now <= now
  }

  lemma {:induction false} LiveWasNotLookedUpExpired(history: seq<Op>, key: Key, now: int)
    requires NoLaterClock(history, now)
    ensures Defined(history, key, now).Some? ==> !LookedUpExpired(history, key)
    decreases |history|
  {
    if history != [] {
      LiveWasNotLookedUpExpired(history[..|history| - 1], key, now);
    }
  }

  /** So when no earlier call read a later clock, lazy eviction is invisible: a lookup finds exactly what the
      history of calls defines. */
  lemma RefinesHistory(history: seq<Op>, key: Key, now: int)
    requires NoLaterClock(history, now)
    ensures Peek(After(history), key, now) == Defined(history, key, now)
  {
    RefinesExactlyUnlessEvictedEarly(history, key, now);
    LiveWasNotLookedUpExpired(history, key, now);
  }

  /** How many lookups found a live entry, or did not, by the history alone. */
  function AnsweredGets(history: seq<Op>, answered: bool): nat
    decreases |history|
  {
    if history == [] then 0
    else
      var before, last := history[..|history| - 1], history[|history| - 1];
      AnsweredGets(before, answered)
      + (if last.Get? && Found(before, last.key, last.now).Some? == answered then 1 else 0)
  }

  /** The hit and miss counters are these folds of the history, with any clock. */
  lemma {:induction false} StatsAreFolds(history: seq<Op>)
    ensures After(history).stats.hits == AnsweredGets(history, true)
    ensures After(history).stats.misses == AnsweredGets(history, false)
    decreases |history|
  {
    if history != [] {
      var before, last := history[..|history| - 1], history[|history| - 1];
      StatsAreFolds(before);
      if last.Get? {
        PeekIsFound(before, last.key, last.now);
      }
    }
  }

  predicate HoldsEntry(history: seq<Op>, key: Key) {
    LatestSet(history, key).Some? && !LookedUpExpired(history, key)
  }

  /** The keys that hold an entry, live or not, by the history alone. */
  function StoredKeys(history: seq<Op>): set<Key> {
    set i: nat | i < |history| && history[i].Set? && HoldsEntry(history, history[i].key) :: history[i].key
  }

  lemma {:induction false} LatestSetIsACall(history: seq<Op>, key: Key) returns (i: nat)
    requires LatestSet(history, key).Some?
    ensures i < |history| && history[i].Set? && history[i].key == key
    decreases |history|
  {
    i := |history| - 1;
    if !(history[i].Set? && history[i].key == key) {
      i := LatestSetIsACall(history[..i], key);
    }
  }

  lemma EntriesAreStoredKeys(history: seq<Op>)
    ensures After(history).entries.Keys == StoredKeys(history)
  {
    forall key
      ensures key in After(history).entries <==> key in StoredKeys(history)
    {
      EntryIsLatestSet(history, key);
      if LatestSet(history, key).Some? {
        var _ := LatestSetIsACall(history, key);
      }
    }
  }

  /** How many calls stored a value. */
  function SetCalls(history: seq<Op>): nat {
    if history == [] then 0
    else SetCalls(history[..|history| - 1]) + (if history[|history| - 1].Set? then 1 else 0)
  }

  /** A deletion of one key counts whether or not it was there; a pattern counts the entries it matches. */
  function Deletions(history: seq<Op>): nat {
    if history == [] then 0
    else
      var before := history[..|history| - 1];
      match history[|history| - 1]
      case Delete(_, _) => Deletions(before) + 1
      case DeletePattern(matches, _) => Deletions(before) + |set k | k in StoredKeys(before) && matches(k)|
      case _ => Deletions(before)
  }

  lemma MatchingAreStoredKeys(history: seq<Op>, matches: Key -> bool)
    ensures Matching(After(history).entries, matches) == set k | k in StoredKeys(history) && matches(k)
  {
    EntriesAreStoredKeys(history);
  }

  /** So are the other two counters. */
  lemma {:induction false} WritesAreFolds(history: seq<Op>)
    ensures After(history).stats.sets == SetCalls(history)
    ensures After(history).stats.deletes == Deletions(history)
    decreases |history|
  {
    if history != [] {
      var before, last := history[..|history| - 1], history[|history| - 1];
      WritesAreFolds(before);
      if last.DeletePattern? {
        MatchingAreStoredKeys(before, last.matches);
      }
    }
  }

  // ------------------------------------------------------------ the class

  class CacheService {
    var entries: map<Key, Entry>
    var stats: Stats
    ghost var history: seq<Op>

    ghost predicate Valid()
      reads this
    {
      Cache(entries, stats) == After(history)
    }

    constructor ()
      ensures Valid() && history == []
    {
      entries, stats, history := map[], Stats(0, 0, 0, 0), [];
    }

    /** Finds a live entry and counts a hit, or removes an expired one and counts a miss. */
    method Find(key: Key, now: int) returns (r: Option<Value>)
      modifies this`entries, this`stats
      ensures r == Peek(old(Cache(entries, stats)), key, now)
      ensures Cache(entries, stats) == Apply(old(Cache(entries, stats)), Get(key, now))
    {
      ghost var before := entries;
      r := None;
      if key in entries {
        var entry := entries[key];
        if entry.expiry > now {
          stats := stats.(hits := stats.hits + 1);
          return Some(entry.value);
        } else {
          entries := entries - {key};
        }
      }
      stats := stats.(misses := stats.misses + 1);
      assert entries == before - {key};
    }

    /** Returns what the history of calls defines, whatever the clock. */
    method Lookup(key: Key, now: int) returns (r: Option<Value>)
      requires Valid()
      modifies this
      ensures Valid() && history == old(history) + [Get(key, now)]
      ensures r == Peek(old(Cache(entries, stats)), key, now)
      ensures r == Found(old(history), key, now)
    {
      PeekIsFound(history, key, now);
      AfterOne(history, Get(key, now));
      r := Find(key, now);
      history := history + [Get(key, now)];
    }

    method Store(key: Key, value: Value, ttl: int, now: int)
      requires Valid()
      modifies this
      ensures Valid() && history == old(history) + [Set(key, value, ttl, now)]
    {
      ghost var before, op := Cache(entries, stats), Set(key, value, ttl, now);
      entries := entries[key := Entry(value, now + ttl)];
      stats := stats.(sets := stats.sets + 1);
      assert Cache(entries, stats) == Apply(before, op);
      AfterOne(history, op);
      history := history + [op];
    }

    method Remove(key: Key, now: int)
      requires Valid()
      modifies this
      ensures Valid() && history == old(history) + [Delete(key, now)]
    {
      ghost var before, op := Cache(entries, stats), Delete(key, now);
      if key in entries {
        entries := entries - {key};
      }
      stats := stats.(deletes := stats.deletes + 1);
      assert entries == before.entries - {key};
      assert Cache(entries, stats) == Apply(before, op);
      AfterOne(history, op);
      history := history + [op];
    }

    /** The count includes matching entries that had expired but were not evicted yet. */
    method RemovePattern(matches: Key -> bool, now: int) returns (deleted: nat)
      requires Valid()
      modifies this
      ensures Valid() && history == old(history) + [DeletePattern(matches, now)]
      ensures deleted == |set k | k in StoredKeys(old(history)) && matches(k)|
    {
      ghost var before, op := Cache(entries, stats), DeletePattern(matches, now);
      var keysToDelete := set k | k in entries && matches(k);
      assert keysToDelete == Matching(entries, matches);
      var gone: set<Key> := {};
      deleted := 0;
      while keysToDelete - gone != {}
        invariant gone <= keysToDelete && deleted == |gone| && entries == before.entries - gone
        invariant stats == before.stats && history == old(history)
        decreases keysToDelete - gone
      {
        var key :| key in keysToDelete - gone;
        entries := entries - {key};
        deleted := deleted + 1;
        gone := gone + {key};
      }
      assert gone == keysToDelete;
      MatchingAreStoredKeys(history, matches);
      stats := stats.(deletes := stats.deletes + deleted);
      assert Cache(entries, stats) == Apply(before, op);
      AfterOne(history, op);
      history := history + [op];
    }

    /** The decorator around a deterministic function; the result is stored when there is one. */
    method Cached(f: string -> Option<Value>, keyOf: string -> Key, args: string, ttl: int, askedAt: int, storedAt: int)
      returns (r: Option<Value>)
      requires Valid()
      modifies this
      ensures Valid()
      ensures r == CachedResult(old(Cache(entries, stats)), f, keyOf, args, askedAt)
      ensures var found, key := Found(old(history), keyOf(args), askedAt), keyOf(args);
              if found.Some? then r == found && history == old(history) + [Get(key, askedAt)]
              else
                && r == f(args)
                && history == old(history) + [Get(key, askedAt)]
                              + (if r.Some? then [Set(key, r.value, ttl, storedAt)] else [])
      ensures Honest(old(history), f, keyOf) ==> Honest(history, f, keyOf)
    {
      var key := keyOf(args);
      r := Lookup(key, askedAt);
      if r.Some? {
        return;
      }
      r := f(args);
      if r.Some? {
        Store(key, r.value, ttl, storedAt);
      }
    }
  }

  // ------------------------------------------------------------- the decorator

  function CachedResult(c: Cache, f: string -> Option<Value>, keyOf: string -> Key, args: string, now: int):
    Option<Value>
  {
    var found := Peek(c, keyOf(args), now);
    if found.Some? then found else f(args)
  }

  /** Whatever is stored under a key of the decorator was computed for arguments with that key; other keys
      hold anything. */
  ghost predicate Honest(history: seq<Op>, f: string -> Option<Value>, keyOf: string -> Key) {
    forall op :: op in history && op.Set? ==>
      (exists args :: keyOf(args) == op.key && f(args) == Some(op.value)) || (forall args :: keyOf(args) != op.key)
  }

  lemma {:induction false} FoundWasStored(history: seq<Op>, key: Key, now: int)
    ensures var found := Peek(After(history), key, now);
            found.Some? ==> exists op :: op in history && op.Set? && op.key == key && op.value == found.value
    decreases |history|
  {
    if history != [] {
      var before := history[..|history| - 1];
      FoundWasStored(before, key, now);
      assert history[|history| - 1] in history;
      assert forall op :: op in before ==> op in history;
    }
  }

  /** Colliding arguments are ones the function does not tell apart, as far as results are stored. */
  ghost predicate KeysTellApart(f: string -> Option<Value>, keyOf: string -> Key) {
    forall a, b :: keyOf(a) == keyOf(b) && f(a).Some? ==> f(b) == f(a)
  }

  /** The decorator returns what the function returns, after every history in which the decorator's keys hold
      only its own results, however calls, deletions and other users of the cache interleave. */
  ghost predicate Transparent(f: string -> Option<Value>, keyOf: string -> Key) {
    forall history, args, now :: Honest(history, f, keyOf) ==>
      CachedResult(After(history), f, keyOf, args, now) == f(args)
  }

  lemma CollisionShows(f: string -> Option<Value>, keyOf: string -> Key, a: string, b: string)
    requires keyOf(a) == keyOf(b) && f(a).Some? && f(b) != f(a)
    ensures !Transparent(f, keyOf)
  {
    var stored := Set(keyOf(a), f(a).value, 1, 0);
    var history := [stored];
    assert history[..0] == [] && After(history) == Apply(EMPTY, stored);
    assert Honest(history, f, keyOf);
    assert CachedResult(After(history), f, keyOf, b, 0) == f(a);
  }

  /** It does so if and only if arguments share a key only where the function gives them the same result. */
  lemma CachedIsTransparentExactly(f: string -> Option<Value>, keyOf: string -> Key)
    ensures Transparent(f, keyOf) <==> KeysTellApart(f, keyOf)
  {
    if KeysTellApart(f, keyOf) {
      forall history, args, now | Honest(history, f, keyOf)
        ensures CachedResult(After(history), f, keyOf, args, now) == f(args)
      {
        FoundWasStored(history, keyOf(args), now);
      }
    } else {
      var a, b :| keyOf(a) == keyOf(b) && f(a).Some? && f(b) != f(a);
      CollisionShows(f, keyOf, a, b);
    }
  }

  /** So it is transparent whenever the keys are injective. */
  lemma CachedWithInjectiveKeys(f: string -> Option<Value>, keyOf: string -> Key)
    requires forall a, b :: keyOf(a) == keyOf(b) ==> a == b
    ensures Transparent(f, keyOf)
  {
    CachedIsTransparentExactly(f, keyOf);
  }
}
