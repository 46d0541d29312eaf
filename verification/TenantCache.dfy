/** Resolving a request's tenant through the per-process cache. */
module TenantCache {
  import opened Prelude
  import opened Text

  type Duration = d: real | d >= 0.0

  // ---- The slug of a request ----

  datatype Source = Header(value: Option<string>) | Host(name: string)

  function NormalizeSlug(value: string): Option<string>
  {
    var slug := Lower(Strip(value));
    if slug == "" then None else Some(slug)
  }

  function ExtractSlug(source: Source): Option<string>
  {
    match source
    case Header(value) => if value.None? then None else NormalizeSlug(value.value)
    case Host(name) =>
      var parts := Split(Split(name, ':')[0], '.');
      if |parts| >= 2 then NormalizeSlug(parts[0]) else None
  }

  /** Neither blank nor capital. */
  ghost predicate PlainText(s: string)
  {
    forall i :: 0 <= i < |s| ==> !IsSpace(s[i]) && !('A' <= s[i] <= 'Z')
  }

  /** A header's slug is its text without surrounding blanks and capitals; a blank or missing header gives none. */
  lemma HeaderSlug(blanks: string, value: string, more: string)
    requires forall c :: c in blanks || c in more ==> IsSpace(c)
    requires value != "" && !IsSpace(value[0]) && !IsSpace(value[|value| - 1])
    ensures ExtractSlug(Header(Some(blanks + value + more))) == Some(Lower(value))
    ensures ExtractSlug(Header(Some(blanks))) == None == ExtractSlug(Header(None))
    ensures PlainText(value) ==> Lower(value) == value
  {
    StripBlanks(blanks, value, more);
    StripAllBlank(blanks);
  }

  /** A host's slug is what comes before its first dot, lower-cased; a port is ignored, and no dot means no slug. */
  lemma HostSlug(first: string, rest: string, port: string)
    requires first != "" && !IsSpace(first[0]) && !IsSpace(first[|first| - 1])
    requires Without(first, '.') && Without(first, ':') && Without(rest, ':')
    ensures ExtractSlug(Host(first + "." + rest)) == Some(Lower(first))
    ensures ExtractSlug(Host(first + "." + rest + ":" + port)) == Some(Lower(first))
    ensures ExtractSlug(Host(first)) == None == ExtractSlug(Host(first + ":" + port))
  {
    StripBlanks("", first, "");
    assert "" + first + "" == first;
    var host := first + "." + rest;
    assert Without(host, ':');
    SplitOne(host, ':');
    SplitFirst(host, port, ':');
    SplitFirst(first, rest, '.');
    SplitOne(first, ':');
    SplitOne(first, '.');
    SplitFirst(first, port, ':');
  }

  // ---- The cache ----

  /** What was read for a slug, a missing tenant included, and until when it may be served. */
  datatype Entry<T> = Entry(tenant: Option<T>, expires: real)

  type Cache<T> = map<string, Entry<T>>

  function Row<T>(db: map<string, T>, slug: string): Option<T>
  {
    if slug in db then Some(db[slug]) else None
  }

  predicate Serves<T>(cache: Cache<T>, slug: string, now: real)
  {
    slug in cache && now < cache[slug].expires
  }

  function Stored<T>(cache: Cache<T>, slug: string, tenant: Option<T>, now: real, ttl: real): Cache<T>
  {
    if ttl <= 0.0 then cache - {slug} else cache[slug := Entry(tenant, now + ttl)]
  }

  function Answer<T>(cache: Cache<T>, db: map<string, T>, now: real, slug: string): Option<T>
  {
    if Serves(cache, slug, now) then cache[slug].tenant else Row(db, slug)
  }

  function AfterLookup<T>(cache: Cache<T>, db: map<string, T>, now: real, ttl: real, slug: string): Cache<T>
  {
    if Serves(cache, slug, now) then cache else Stored(cache, slug, Row(db, slug), now, ttl)
  }

  class TenantResolver<T> {
    const ttl: real
    var cache: Cache<T>

    constructor (ttl: real)
      ensures cache == map[] && this.ttl == ttl
    {
      this.ttl := ttl;
      cache := map[];
    }

    method ClearTenantCache()
      modifies this
      ensures cache == map[]
    {
      cache := map[];
    }

    /** Only the slug's own entry goes. */
    method InvalidateTenant(slug: string)
      modifies this
      ensures cache == old(cache) - {slug}
    {
      cache := cache - {slug};
    }

    method MemGet(slug: string, now: real) returns (hit: bool, tenant: Option<T>)
      ensures hit <==> Serves(cache, slug, now)
      ensures tenant == if hit then cache[slug].tenant else None
    {
      if slug in cache && now < cache[slug].expires {
        return true, cache[slug].tenant;
      }
      return false, None;
    }

    method MemSet(slug: string, tenant: Option<T>, now: real)
      modifies this
      ensures cache == Stored(old(cache), slug, tenant, now, ttl)
    {
      if ttl <= 0.0 {
        cache := cache - {slug};
        return;
      }
      cache := cache[slug := Entry(tenant, now + ttl)];
    }

    /** One lookup, the database read included, as one step. */
    method ResolveTenant(source: Source, db: map<string, T>, now: real) returns (tenant: Option<T>)
      modifies this
      ensures var slug := ExtractSlug(source);
        && (slug.None? ==> tenant.None? && cache == old(cache))
        && (slug.Some? ==>
              && tenant == Answer(old(cache), db, now, slug.value)
              && cache == AfterLookup(old(cache), db, now, ttl, slug.value)
              && forall other :: other != slug.value ==>
                   (other in cache <==> other in old(cache)) && (other in cache ==> cache[other] == old(cache)[other]))
    {
      var slug := ExtractSlug(source);
      if slug.None? {
        return None;
      }
      var hit;
      hit, tenant := MemGet(slug.value, now);
      if !hit {
        tenant := Row(db, slug.value);
        MemSet(slug.value, tenant, now);
      }
    }
  }

  // ---- Runs ----

  datatype Step<T> =
    | Elapse(seconds: Duration)
    | Change(slug: string, row: Option<T>)
    | Lookup(source: Source)
    | Invalidate(slug: string)
    | Clear

  datatype State<T> = State(db: map<string, T>, now: real, cache: Cache<T>)

  function Next<T>(s: State<T>, step: Step<T>, ttl: real): State<T>
  {
    match step
    case Elapse(seconds) => s.(now := s.now + seconds)
    case Change(slug, row) => s.(db := if row.None? then s.db - {slug} else s.db[slug := row.value])
    case Lookup(source) =>
      var slug := ExtractSlug(source);
      if slug.None? then s else s.(cache := AfterLookup(s.cache, s.db, s.now, ttl, slug.value))
    case Invalidate(slug) => s.(cache := s.cache - {slug})
    case Clear => s.(cache := map[])
  }

  function Run<T>(s: State<T>, steps: seq<Step<T>>, ttl: real): State<T>
  {
    if steps == [] then s
    else Next(Run(s, steps[..|steps| - 1], ttl), steps[|steps| - 1], ttl)
  }

  predicate LooksUp<T>(step: Step<T>, slug: string)
  {
    step.Lookup? && ExtractSlug(step.source) == Some(slug)
  }

  predicate Drops<T>(step: Step<T>, slug: string)
  {
    step.Clear? || (step.Invalidate? && step.slug == slug)
  }

  /** Step `k` looked the slug up and read it from the database, and nothing dropped the entry since. */
  ghost predicate FilledAt<T>(s: State<T>, steps: seq<Step<T>>, ttl: real, slug: string, k: nat)
  {
    && k < |steps| && LooksUp(steps[k], slug)
    && (forall i :: k < i < |steps| ==> !Drops(steps[i], slug))
    && var filled, here := Run(s, steps[..k], ttl), Run(s, steps, ttl);
       slug in here.cache && here.cache[slug] == Entry(Row(filled.db, slug), filled.now + ttl)
  }

  /** An entry that is there after a step was just read, or was there before and not dropped. */
  lemma EntryAfterStep<T>(s: State<T>, step: Step<T>, ttl: real, slug: string)
    requires slug in Next(s, step, ttl).cache
    ensures var entry := Next(s, step, ttl).cache[slug];
            || (LooksUp(step, slug) && entry == Entry(Row(s.db, slug), s.now + ttl))
            || (!Drops(step, slug) && slug in s.cache && entry == s.cache[slug])
  {
  }

  lemma {:induction false} EntriesAreReads<T>(s: State<T>, steps: seq<Step<T>>, ttl: real, slug: string)
    requires s.cache == map[] && slug in Run(s, steps, ttl).cache
    ensures exists k :: FilledAt(s, steps, ttl, slug, k)
  {
    var n := |steps| - 1;
    var front, last := steps[..n], steps[n];
    var before := Run(s, front, ttl);
    var entry := Next(before, last, ttl).cache[slug];
    EntryAfterStep(before, last, ttl, slug);
    if LooksUp(last, slug) && entry == Entry(Row(before.db, slug), before.now + ttl) {
      assert FilledAt(s, steps, ttl, slug, n);
    } else {
      EntriesAreReads(s, front, ttl, slug);
      var k: nat :| FilledAt(s, front, ttl, slug, k);
      assert front[..k] == steps[..k];
      assert forall i :: k < i < n ==> steps[i] == front[i];
      assert FilledAt(s, steps, ttl, slug, k);
    }
  }

  lemma {:induction false} ClockOnlyAdvances<T>(s: State<T>, steps: seq<Step<T>>, ttl: real, k: nat)
    requires k <= |steps|
    ensures Run(s, steps[..k], ttl).now <= Run(s, steps, ttl).now
  {
    if k == |steps| {
      assert steps[..k] == steps;
    } else {
      var front := steps[..|steps| - 1];
      assert front[..k] == steps[..k];
      ClockOnlyAdvances(s, front, ttl, k);
    }
  }

  /**
   What a lookup may answer: the slug's current row, or the row an earlier lookup of the slug read
   less than `ttl` ago, with no invalidation in between.
   */
  ghost predicate Justified<T>(s: State<T>, steps: seq<Step<T>>, ttl: real, slug: string, answer: Option<T>, k: nat)
  {
    && k <= |steps|
    && answer == Row(Run(s, steps[..k], ttl).db, slug)
    && (k < |steps| ==>
          && LooksUp(steps[k], slug)
          && Run(s, steps, ttl).now - ttl < Run(s, steps[..k], ttl).now
          && forall i :: k < i < |steps| ==> !Drops(steps[i], slug))
  }

  /** Every lookup in every run is justified, whether it finds a tenant or none. */
  lemma LookupsAreRecent<T>(s: State<T>, steps: seq<Step<T>>, ttl: real, slug: string)
    requires s.cache == map[]
    ensures var here := Run(s, steps, ttl);
            exists k :: Justified(s, steps, ttl, slug, Answer(here.cache, here.db, here.now, slug), k)
  {
    var here := Run(s, steps, ttl);
    var answer := Answer(here.cache, here.db, here.now, slug);
    if Serves(here.cache, slug, here.now) {
      EntriesAreReads(s, steps, ttl, slug);
      var k: nat :| FilledAt(s, steps, ttl, slug, k);
      assert Justified(s, steps, ttl, slug, answer, k);
    } else {
      assert steps[..|steps|] == steps;
      assert Justified(s, steps, ttl, slug, answer, |steps|);
    }
  }

  /** No lookup of the slug since something dropped its entry, or none at all. */
  ghost predicate FirstSinceDrop<T>(steps: seq<Step<T>>, slug: string, k: nat)
  {
    && k <= |steps| && (k > 0 ==> Drops(steps[k - 1], slug))
    && forall i :: k <= i < |steps| ==> !LooksUp(steps[i], slug)
  }

  /** With caching off, and for the first lookup after an invalidation, the answer is the current row. */
  lemma CurrentWhenFresh<T>(s: State<T>, steps: seq<Step<T>>, ttl: real, slug: string)
    requires s.cache == map[]
    requires ttl <= 0.0 || exists k :: FirstSinceDrop(steps, slug, k)
    ensures var here := Run(s, steps, ttl); Answer(here.cache, here.db, here.now, slug) == Row(here.db, slug)
  {
    var here := Run(s, steps, ttl);
    var answer := Answer(here.cache, here.db, here.now, slug);
    LookupsAreRecent(s, steps, ttl, slug);
    var k: nat :| Justified(s, steps, ttl, slug, answer, k);
    ClockOnlyAdvances(s, steps, ttl, k);
    if ttl > 0.0 {
      var d: nat :| FirstSinceDrop(steps, slug, d);
      if d > 0 {
        assert Drops(steps[d - 1], slug);
      }
    }
    assert k == |steps|;
    assert steps[..|steps|] == steps;
  }

  /** What a lookup answered is answered again, whatever becomes of the row, until it expires or is dropped. */
  lemma {:induction false} AnswerIsKept<T>(s: State<T>, steps: seq<Step<T>>, ttl: real, slug: string, k: nat)
    requires k < |steps| && LooksUp(steps[k], slug) && forall i :: k < i < |steps| ==> !Drops(steps[i], slug)
    requires var next := Run(s, steps[..k + 1], ttl);
             slug in next.cache && Run(s, steps, ttl).now < next.cache[slug].expires
    ensures var at, here := Run(s, steps[..k], ttl), Run(s, steps, ttl);
            Answer(here.cache, here.db, here.now, slug) == Answer(at.cache, at.db, at.now, slug)
  {
    EntryIsKept(s, steps, ttl, slug, k + 1);
    assert steps[..k + 1][..k] == steps[..k];
    ClockOnlyAdvances(s, steps, ttl, k);
  }

  lemma {:induction false} EntryIsKept<T>(s: State<T>, steps: seq<Step<T>>, ttl: real, slug: string, k: nat)
    requires k <= |steps| && forall i :: k <= i < |steps| ==> !Drops(steps[i], slug)
    requires var at := Run(s, steps[..k], ttl); slug in at.cache && Run(s, steps, ttl).now < at.cache[slug].expires
    ensures var at, here := Run(s, steps[..k], ttl), Run(s, steps, ttl);
            slug in here.cache && here.cache[slug] == at.cache[slug]
  {
    if k == |steps| {
      assert steps[..k] == steps;
    } else {
      var n := |steps| - 1;
      var front, last := steps[..n], steps[n];
      assert front[..k] == steps[..k] && !Drops(last, slug);
      assert steps[..n] == front;
      ClockOnlyAdvances(s, steps, ttl, n);
      EntryIsKept(s, front, ttl, slug, k);
    }
  }
}
