/**
 The sliding-window limiter of asterion/auth/rate_limiter.py.

 The limiter keeps, per key, the instants of its recorded hits and drops the old ones whenever it
 looks at a key. It is proved against an untrimmed log: whatever has been dropped so far, the answer
 is the one the full log would give.
 */
module RateLimiting {
  /** A reading of the clock, in ticks of its resolution. */
  type Instant = int

  type Table<!Key> = map<Key, seq<Instant>>

  /** The hits strictly later than `cutoff`, in order. */
  function Recent(hits: seq<Instant>, cutoff: Instant): seq<Instant>
  {
    if hits == [] then []
    else
      var rest := Recent(hits[..|hits| - 1], cutoff);
      var last := hits[|hits| - 1];
      if last > cutoff then rest + [last] else rest
  }

  /** How many instants of `log` lie in the half-open window (lo, hi]. */
  function InWindow(log: seq<Instant>, lo: Instant, hi: Instant): nat
  {
    if log == [] then 0
    else
      var last := log[|log| - 1];
      InWindow(log[..|log| - 1], lo, hi) + if lo < last <= hi then 1 else 0
  }

  /** How many instants of `log` lie in the window of the given width that ends at `t`. */
  function Load(log: seq<Instant>, t: Instant, window: int): nat
  {
    InWindow(log, t - window, t)
  }

  ghost predicate NoLaterThan(log: seq<Instant>, now: Instant)
  {
    forall i :: 0 <= i < |log| ==> log[i] <= now
  }

  lemma {:induction false} RecentOfRecent(hits: seq<Instant>, early: Instant, late: Instant)
    requires early <= late
    ensures Recent(Recent(hits, early), late) == Recent(hits, late)
  {
    if hits != [] {
      var front, last := hits[..|hits| - 1], hits[|hits| - 1];
      RecentOfRecent(front, early, late);
      if last > early {
        assert (Recent(front, early) + [last])[..|Recent(front, early)|] == Recent(front, early);
      }
    }
  }

  lemma {:induction false} RecentCounts(hits: seq<Instant>, cutoff: Instant, now: Instant)
    requires NoLaterThan(hits, now)
    ensures |Recent(hits, cutoff)| == InWindow(hits, cutoff, now)
  {
    if hits != [] {
      RecentCounts(hits[..|hits| - 1], cutoff, now);
    }
  }

  lemma RecentSnoc(hits: seq<Instant>, x: Instant, cutoff: Instant)
    ensures Recent(hits + [x], cutoff) == Recent(hits, cutoff) + if x > cutoff then [x] else []
  {
    assert (hits + [x])[..|hits|] == hits;
  }

  lemma WindowSnoc(log: seq<Instant>, x: Instant, lo: Instant, hi: Instant)
    ensures InWindow(log + [x], lo, hi) == InWindow(log, lo, hi) + if lo < x <= hi then 1 else 0
  {
    assert (log + [x])[..|log|] == log;
  }

  /** A window that starts earlier and ends later holds at least as much. */
  lemma {:induction false} WindowWidens(log: seq<Instant>, lo: Instant, hi: Instant, lo': Instant, hi': Instant)
    requires lo' <= lo && NoLaterThan(log, hi')
    ensures InWindow(log, lo, hi) <= InWindow(log, lo', hi')
  {
    if log != [] {
      WindowWidens(log[..|log| - 1], lo, hi, lo', hi');
    }
  }

  // ---- What the three operations do to the table of hits ----

  function HitsOf<Key>(table: Table<Key>, key: Key): seq<Instant>
  {
    if key in table then table[key] else []
  }

  function Trimmed<Key>(table: Table<Key>, key: Key, now: Instant, window: int): Table<Key>
  {
    table[key := Recent(HitsOf(table, key), now - window)]
  }

  predicate Limited<Key>(table: Table<Key>, key: Key, now: Instant, window: int, max: int)
  {
    |Recent(HitsOf(table, key), now - window)| >= max
  }

  function Recorded<Key>(table: Table<Key>, key: Key, now: Instant, window: int): Table<Key>
  {
    table[key := Recent(HitsOf(table, key), now - window) + [now]]
  }

  function Cleared<Key>(table: Table<Key>, key: Key): Table<Key>
  {
    table - {key}
  }

  // ---- The untrimmed log ----

  ghost predicate SameRecent(hits: seq<Instant>, log: seq<Instant>, cutoff: Instant)
  {
    Recent(hits, cutoff) == Recent(log, cutoff)
  }

  /** From `now` on, the trimmed hits and the full log show the same recent hits. */
  ghost predicate Agrees(hits: seq<Instant>, log: seq<Instant>, now: Instant, window: int)
  {
    && NoLaterThan(log, now)
    && forall cutoff :: now - window <= cutoff ==> SameRecent(hits, log, cutoff)
  }

  lemma AgreesLater(hits: seq<Instant>, log: seq<Instant>, now: Instant, later: Instant, window: int)
    requires Agrees(hits, log, now, window) && now <= later
    ensures Agrees(hits, log, later, window)
  {
  }

  lemma AgreesTrimmed(hits: seq<Instant>, log: seq<Instant>, now: Instant, window: int)
    requires Agrees(hits, log, now, window)
    ensures Agrees(Recent(hits, now - window), log, now, window)
  {
    var trimmed := Recent(hits, now - window);
    forall cutoff | now - window <= cutoff
      ensures SameRecent(trimmed, log, cutoff)
    {
      assert SameRecent(hits, log, cutoff);
      RecentOfRecent(hits, now - window, cutoff);
    }
  }

  lemma AgreesRecorded(hits: seq<Instant>, log: seq<Instant>, now: Instant, window: int)
    requires Agrees(hits, log, now, window)
    ensures Agrees(Recent(hits, now - window) + [now], log + [now], now, window)
  {
    AgreesTrimmed(hits, log, now, window);
    var hits', log' := Recent(hits, now - window) + [now], log + [now];
    forall cutoff | now - window <= cutoff
      ensures SameRecent(hits', log', cutoff)
    {
      assert SameRecent(Recent(hits, now - window), log, cutoff);
      RecentSnoc(Recent(hits, now - window), now, cutoff);
      RecentSnoc(log, now, cutoff);
    }
  }

  /** The trimmed table answers exactly as the full log does. */
  lemma LimitedByLog<Key>(table: Table<Key>, key: Key, log: seq<Instant>, now: Instant, window: int, max: int)
    requires Agrees(HitsOf(table, key), log, now, window)
    ensures Limited(table, key, now, window, max) <==> Load(log, now, window) >= max
  {
    assert SameRecent(HitsOf(table, key), log, now - window);
    RecentCounts(log, now - window, now);
  }

  /** A whole table of trimmed hits against a whole table of full logs. */
  ghost predicate Mirrors<Key(!new)>(table: Table<Key>, log: Table<Key>, now: Instant, window: int)
  {
    forall key :: Agrees(HitsOf(table, key), HitsOf(log, key), now, window)
  }

  lemma MirrorsTrimmed<Key(!new)>(table: Table<Key>, log: Table<Key>, key: Key, seen: Instant, now: Instant,
                                   window: int)
    requires Mirrors(table, log, seen, window) && seen <= now
    ensures Mirrors(Trimmed(table, key, now, window), log, now, window)
  {
    forall k ensures Agrees(HitsOf(Trimmed(table, key, now, window), k), HitsOf(log, k), now, window) {
      AgreesLater(HitsOf(table, k), HitsOf(log, k), seen, now, window);
      AgreesTrimmed(HitsOf(table, k), HitsOf(log, k), now, window);
    }
  }

  lemma MirrorsRecorded<Key(!new)>(table: Table<Key>, log: Table<Key>, key: Key, seen: Instant, now: Instant,
                                    window: int)
    requires Mirrors(table, log, seen, window) && seen <= now
    ensures Mirrors(Recorded(table, key, now, window), log[key := HitsOf(log, key) + [now]], now, window)
  {
    var table', log' := Recorded(table, key, now, window), log[key := HitsOf(log, key) + [now]];
    forall k ensures Agrees(HitsOf(table', k), HitsOf(log', k), now, window) {
      AgreesLater(HitsOf(table, k), HitsOf(log, k), seen, now, window);
      AgreesRecorded(HitsOf(table, k), HitsOf(log, k), now, window);
    }
  }

  lemma MirrorsCleared<Key(!new)>(table: Table<Key>, log: Table<Key>, key: Key, now: Instant, window: int)
    requires Mirrors(table, log, now, window)
    ensures Mirrors(Cleared(table, key), Cleared(log, key), now, window)
  {
    forall k ensures Agrees(HitsOf(Cleared(table, key), k), HitsOf(Cleared(log, key), k), now, window) {
      assert Agrees(HitsOf(table, k), HitsOf(log, k), now, window);
    }
  }

  /** Trimming twice in one request changes nothing. */
  lemma RecordedAfterTrim<Key>(table: Table<Key>, key: Key, now: Instant, window: int)
    ensures Recorded(Trimmed(table, key, now, window), key, now, window) == Recorded(table, key, now, window)
    ensures forall max :: Limited(Trimmed(table, key, now, window), key, now, window, max) <==>
              Limited(table, key, now, window, max)
  {
    RecentOfRecent(HitsOf(table, key), now - window, now - window);
  }

  // ---- Windows under check-then-record ----

  /** No window of the given width holds more than `max` entries of the log. */
  ghost predicate WindowBounded(log: seq<Instant>, window: int, max: int)
  {
    forall t :: Load(log, t, window) <= max
  }

  /** A hit recorded while the limiter was open keeps every window within the bound. */
  lemma RecordKeepsBound(log: seq<Instant>, now: Instant, window: int, max: int)
    requires NoLaterThan(log, now) && WindowBounded(log, window, max)
    requires Load(log, now, window) < max
    ensures WindowBounded(log + [now], window, max)
  {
    forall t ensures Load(log + [now], t, window) <= max {
      assert Load(log, t, window) <= max;
      WindowSnoc(log, now, t - window, t);
      if now <= t {
        WindowWidens(log, t - window, t, now - window, now);
      }
    }
  }

  /** One call of check-then-record (the tenant middleware, the reset throttle). */
  datatype Call<Key> = Call(key: Key, at: Instant)

  datatype Meter<!Key> = Meter(table: Table<Key>, admitted: Table<Key>)

  function Admit<Key>(m: Meter<Key>, call: Call<Key>, window: int, max: int): Meter<Key>
  {
    if Limited(m.table, call.key, call.at, window, max) then
      m.(table := Trimmed(m.table, call.key, call.at, window))
    else
      Meter(Recorded(Trimmed(m.table, call.key, call.at, window), call.key, call.at, window),
            m.admitted[call.key := HitsOf(m.admitted, call.key) + [call.at]])
  }

  function AdmitAll<Key>(calls: seq<Call<Key>>, window: int, max: int): Meter<Key>
  {
    if calls == [] then Meter(map[], map[])
    else Admit(AdmitAll(calls[..|calls| - 1], window, max), calls[|calls| - 1], window, max)
  }

  ghost predicate ClockMonotone<Key>(calls: seq<Call<Key>>)
  {
    forall i, j :: 0 <= i < j < |calls| ==> calls[i].at <= calls[j].at
  }

  ghost predicate Metered(hits: seq<Instant>, admitted: seq<Instant>, now: Instant, window: int, max: nat)
  {
    Agrees(hits, admitted, now, window) && WindowBounded(admitted, window, max)
  }

  lemma AdmitKeepsMetered<Key>(m: Meter<Key>, call: Call<Key>, window: int, max: nat)
    requires Metered(HitsOf(m.table, call.key), HitsOf(m.admitted, call.key), call.at, window, max)
    ensures var m' := Admit(m, call, window, max);
            Metered(HitsOf(m'.table, call.key), HitsOf(m'.admitted, call.key), call.at, window, max)
  {
    var hits, log := HitsOf(m.table, call.key), HitsOf(m.admitted, call.key);
    LimitedByLog(m.table, call.key, log, call.at, window, max);
    AgreesTrimmed(hits, log, call.at, window);
    if !Limited(m.table, call.key, call.at, window, max) {
      AgreesRecorded(Recent(hits, call.at - window), log, call.at, window);
      RecordKeepsBound(log, call.at, window, max);
    }
  }

  lemma {:induction false} AdmittedMetered<Key>(calls: seq<Call<Key>>, key: Key, now: Instant, window: int, max: nat)
    requires ClockMonotone(calls) && (calls != [] ==> calls[|calls| - 1].at <= now)
    ensures var m := AdmitAll(calls, window, max);
            Metered(HitsOf(m.table, key), HitsOf(m.admitted, key), now, window, max)
  {
    if calls != [] {
      var front, call := calls[..|calls| - 1], calls[|calls| - 1];
      var m := AdmitAll(front, window, max);
      AdmittedMetered(front, key, call.at, window, max);
      if call.key == key {
        AdmitKeepsMetered(m, call, window, max);
      }
      var m' := AdmitAll(calls, window, max);
      AgreesLater(HitsOf(m'.table, key), HitsOf(m'.admitted, key), call.at, now, window);
    }
  }

  /** Over every run of check-then-record, no window holds more than `max` admitted calls of a key. */
  lemma AdmissionBound<Key>(calls: seq<Call<Key>>, key: Key, t: Instant, window: int, max: nat)
    requires ClockMonotone(calls)
    ensures Load(HitsOf(AdmitAll(calls, window, max).admitted, key), t, window) <= max
  {
    AdmittedMetered(calls, key, if calls == [] then t else calls[|calls| - 1].at, window, max);
  }

  /** The bound is met, not just kept: a call is refused only when its window is already full. */
  lemma RefusedOnlyWhenFull<Key>(calls: seq<Call<Key>>, call: Call<Key>, window: int, max: nat)
    requires ClockMonotone(calls + [call])
    ensures var before := HitsOf(AdmitAll(calls, window, max).admitted, call.key);
            var after := HitsOf(AdmitAll(calls + [call], window, max).admitted, call.key);
            after == if Load(before, call.at, window) < max then before + [call.at] else before
  {
    assert (calls + [call])[..|calls|] == calls;
    forall i, j | 0 <= i < j < |calls| ensures calls[i].at <= calls[j].at {
      assert (calls + [call])[i] == calls[i] && (calls + [call])[j] == calls[j];
    }
    if calls != [] {
      assert (calls + [call])[|calls| - 1] == calls[|calls| - 1] && (calls + [call])[|calls|] == call;
    }
    AdmittedMetered(calls, call.key, call.at, window, max);
    var m := AdmitAll(calls, window, max);
    LimitedByLog(m.table, call.key, HitsOf(m.admitted, call.key), call.at, window, max);
  }

  function OnlyKey<Key(==)>(calls: seq<Call<Key>>, key: Key): seq<Call<Key>>
  {
    if calls == [] then []
    else
      var rest := OnlyKey(calls[..|calls| - 1], key);
      if calls[|calls| - 1].key == key then rest + [calls[|calls| - 1]] else rest
  }

  /** What a key is granted depends on that key's own calls alone. */
  lemma {:induction false} KeysIndependent<Key>(calls: seq<Call<Key>>, key: Key, window: int, max: int)
    ensures var all, own := AdmitAll(calls, window, max), AdmitAll(OnlyKey(calls, key), window, max);
            && HitsOf(all.table, key) == HitsOf(own.table, key)
            && HitsOf(all.admitted, key) == HitsOf(own.admitted, key)
  {
    if calls != [] {
      var front, call := calls[..|calls| - 1], calls[|calls| - 1];
      KeysIndependent(front, key, window, max);
      if call.key == key {
        assert (OnlyKey(front, key) + [call])[..|OnlyKey(front, key)|] == OnlyKey(front, key);
      }
    }
  }

  // ---- The limiter object ----

  method KeepRecent(stored: seq<Instant>, cutoff: Instant) returns (hits: seq<Instant>)
    ensures hits == Recent(stored, cutoff)
  {
    hits := [];
    for i := 0 to |stored|
      invariant hits == Recent(stored[..i], cutoff)
    {
      assert stored[..i + 1] == stored[..i] + [stored[i]];
      RecentSnoc(stored[..i], stored[i], cutoff);
      if stored[i] > cutoff {
        hits := hits + [stored[i]];
      }
    }
    assert stored[..|stored|] == stored;
  }

  class InMemoryRateLimiter<Key(==,!new)> {
    const maxFailures: int
    const windowSeconds: int
    var failures: Table<Key>

    /** Every hit since the key was last cleared, never trimmed. */
    ghost var log: Table<Key>
    /** The latest reading of the clock. */
    ghost var lastSeen: Instant

    ghost predicate Valid()
      reads this
    {
      Mirrors(failures, log, lastSeen, windowSeconds)
    }

    constructor (maxFailures: int, windowSeconds: int, ghost now: Instant)
      ensures Valid() && failures == map[] && log == map[] && lastSeen == now
      ensures this.maxFailures == maxFailures && this.windowSeconds == windowSeconds
    {
      this.maxFailures, this.windowSeconds := maxFailures, windowSeconds;
      failures, log, lastSeen := map[], map[], now;
    }

    /** Drops the hits of one key that have left the window and returns the others. */
    method Trim(key: Key, now: Instant) returns (hits: seq<Instant>)
      requires Valid() && lastSeen <= now
      modifies this
      ensures Valid() && lastSeen == now && log == old(log)
      ensures hits == Recent(HitsOf(old(failures), key), now - windowSeconds)
      ensures failures == Trimmed(old(failures), key, now, windowSeconds)
    {
      MirrorsTrimmed(failures, log, key, lastSeen, now, windowSeconds);
      hits := KeepRecent(if key in failures then failures[key] else [], now - windowSeconds);
      failures := failures[key := hits];
      lastSeen := now;
    }

    /** Limited iff the full log holds at least `maxFailures` hits in (now - window, now]. */
    method IsLimited(key: Key, now: Instant) returns (limited: bool)
      requires Valid() && lastSeen <= now
      modifies this
      ensures Valid() && lastSeen == now && log == old(log)
      ensures limited <==> Load(HitsOf(log, key), now, windowSeconds) >= maxFailures
      ensures limited <==> Limited(old(failures), key, now, windowSeconds, maxFailures)
      ensures failures == Trimmed(old(failures), key, now, windowSeconds)
    {
      var hits := Trim(key, now);
      limited := |hits| >= maxFailures;
      RecordedAfterTrim(old(failures), key, now, windowSeconds);
      LimitedByLog(failures, key, HitsOf(log, key), now, windowSeconds, maxFailures);
    }

    method RecordFailure(key: Key, now: Instant)
      requires Valid() && lastSeen <= now
      modifies this
      ensures Valid() && lastSeen == now
      ensures log == old(log)[key := HitsOf(old(log), key) + [now]]
      ensures failures == Recorded(old(failures), key, now, windowSeconds)
    {
      MirrorsRecorded(failures, log, key, lastSeen, now, windowSeconds);
      var hits := Trim(key, now);
      hits := hits + [now];
      assert failures[key := hits] == Recorded(old(failures), key, now, windowSeconds);
      failures := failures[key := hits];
      log := log[key := HitsOf(log, key) + [now]];
    }

    method Clear(key: Key)
      requires Valid()
      modifies this
      ensures Valid() && lastSeen == old(lastSeen)
      ensures failures == Cleared(old(failures), key) && log == Cleared(old(log), key)
    {
      MirrorsCleared(failures, log, key, lastSeen, windowSeconds);
      failures := failures - {key};
      log := log - {key};
    }

    /** The per-tenant budget: refuse at the cap, otherwise count the request and let it through. */
    method Dispatch(key: Key, now: Instant) returns (admitted: bool)
      requires Valid() && lastSeen <= now
      modifies this
      ensures Valid() && lastSeen == now
      ensures admitted <==> Load(HitsOf(old(log), key), now, windowSeconds) < maxFailures
      ensures failures == Admit(Meter(old(failures), map[]), Call(key, now), windowSeconds, maxFailures).table
      ensures log == if admitted then old(log)[key := HitsOf(old(log), key) + [now]] else old(log)
    {
      var limited := IsLimited(key, now);
      if limited {
        return false;
      }
      RecordFailure(key, now);
      return true;
    }
  }
}
