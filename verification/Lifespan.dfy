/** Starting the extensions around the application's own lifespan, and unwinding whatever did start. */
module Lifespan {
  import opened Prelude

  /**
   How a hook ends. `Aborts` is an exception outside `Exception`, such as the cancellation of the
   surrounding task: the handler around a shutdown does not catch it.
   */
  datatype Ending = Fine | Fails | Aborts

  /** The application's own lifespan: how entering it ends, and what leaving it makes of the body's ending. */
  datatype UserLifespan = UserLifespan(enter: Ending, leave: Ending -> Ending)

  datatype Extension = Extension(startup: Ending, shutdown: Ending)

  datatype App = App(extensions: seq<Extension>, user: Option<UserLifespan>, body: Ending)

  datatype Event = Started(ext: nat) | StartFailed(ext: nat) | EnterFailed | Served | Stopped(ext: nat, how: Ending)

  datatype Raised = Nothing | AtStartup(ext: nat) | AtEntry | AtBody | AtShutdown(ext: nat)

  // ---- The trace it should leave ----

  /** How many extensions start before the first that does not. */
  function StartedCount(extensions: seq<Extension>): (k: nat)
    ensures k <= |extensions|
    ensures forall i :: 0 <= i < k ==> extensions[i].startup.Fine?
    ensures k < |extensions| ==> !extensions[k].startup.Fine?
  {
    if extensions == [] || !extensions[0].startup.Fine? then 0 else 1 + StartedCount(extensions[1..])
  }

  /** How many of the first `k` extensions are told to stop, from the last one down, before one aborts. */
  function StopCount(extensions: seq<Extension>, k: nat): (m: nat)
    requires k <= |extensions|
    ensures m <= k
  {
    if k == 0 then 0
    else if extensions[k - 1].shutdown.Aborts? then 1
    else 1 + StopCount(extensions, k - 1)
  }

  function Starts(k: nat): seq<Event>
  {
    seq(k, i requires 0 <= i < k => Started(i))
  }

  /** Stops `count` extensions downwards, beginning just below `k`. */
  function Stops(extensions: seq<Extension>, k: nat, count: nat): seq<Event>
    requires count <= k <= |extensions|
  {
    seq(count, i requires 0 <= i < count => Stopped(k - 1 - i, extensions[k - 1 - i].shutdown))
  }

  predicate Entered(app: App)
  {
    app.user.None? || app.user.value.enter.Fine?
  }

  /** What happens between the last startup and the first shutdown, and what it raises. */
  function Middle(app: App): (seq<Event>, Raised)
  {
    var k := StartedCount(app.extensions);
    if k < |app.extensions| then ([StartFailed(k)], AtStartup(k))
    else if !Entered(app) then ([EnterFailed], AtEntry)
    else
      var ending := if app.user.None? then app.body else app.user.value.leave(app.body);
      ([Served], if ending.Fine? then Nothing else AtBody)
  }

  function Trace(app: App): seq<Event>
  {
    var k := StartedCount(app.extensions);
    Starts(k) + Middle(app).0 + Stops(app.extensions, k, StopCount(app.extensions, k))
  }

  /** The error that escapes: an aborted shutdown replaces whatever was on its way. */
  function Escapes(app: App): Raised
  {
    var k := StartedCount(app.extensions);
    var m := StopCount(app.extensions, k);
    if m > 0 && app.extensions[k - m].shutdown.Aborts? then AtShutdown(k - m) else Middle(app).1
  }

  // ---- The context manager ----

  /** Everything up to the end of the body, with the extensions started so far on a list. */
  method StartAndServe(app: App) returns (started: seq<nat>, trace: seq<Event>, raised: Raised)
    ensures started == seq(StartedCount(app.extensions), i => i)
    ensures trace == Starts(|started|) + Middle(app).0 && raised == Middle(app).1
  {
    started, trace := [], [];
    for i := 0 to |app.extensions|
      invariant started == seq(i, j => j) && trace == Starts(i)
      invariant forall j :: 0 <= j < i ==> app.extensions[j].startup.Fine?
    {
      if !app.extensions[i].startup.Fine? {
        return started, trace + [StartFailed(i)], AtStartup(i);
      }
      started := started + [i];
      trace := trace + [Started(i)];
    }
    if app.user.Some? {
      if !app.user.value.enter.Fine? {
        return started, trace + [EnterFailed], AtEntry;
      }
      trace := trace + [Served];
      raised := if app.user.value.leave(app.body).Fine? then Nothing else AtBody;
    } else {
      trace := trace + [Served];
      raised := if app.body.Fine? then Nothing else AtBody;
    }
  }

  method Compose(app: App) returns (trace: seq<Event>, raised: Raised)
    ensures trace == Trace(app) && raised == Escapes(app)
  {
    var started: seq<nat>;
    started, trace, raised := StartAndServe(app);
    ghost var k, before := |started|, trace;
    var i := |started|;
    while i > 0
      invariant 0 <= i <= k && raised == Middle(app).1
      invariant trace == before + Stops(app.extensions, k, k - i)
      invariant StopCount(app.extensions, k) == k - i + StopCount(app.extensions, i)
      invariant forall j :: i <= j < k ==> !app.extensions[j].shutdown.Aborts?
    {
      i := i - 1;
      var ext := started[i];
      trace := trace + [Stopped(ext, app.extensions[ext].shutdown)];
      assert Stops(app.extensions, k, k - i)
          == Stops(app.extensions, k, k - i - 1) + [Stopped(i, app.extensions[i].shutdown)];
      if app.extensions[ext].shutdown.Aborts? {
        return trace, AtShutdown(ext);
      }
    }
  }

  // ---- What the trace promises ----

  /** The extensions that started, in order. */
  function StartsIn(trace: seq<Event>): seq<nat>
  {
    if trace == [] then []
    else
      var before, e := StartsIn(trace[..|trace| - 1]), trace[|trace| - 1];
      if e.Started? then before + [e.ext] else before
  }

  /** The extensions that were told to stop, in order. */
  function StopsIn(trace: seq<Event>): seq<nat>
  {
    if trace == [] then []
    else
      var before, e := StopsIn(trace[..|trace| - 1]), trace[|trace| - 1];
      if e.Stopped? then before + [e.ext] else before
  }

  function Reversed(s: seq<nat>): seq<nat>
  {
    if s == [] then [] else Reversed(s[1..]) + [s[0]]
  }

  lemma {:induction false} CountedStarts(k: nat)
    ensures StartsIn(Starts(k)) == seq(k, i => i) && StopsIn(Starts(k)) == []
  {
    if k > 0 {
      CountedStarts(k - 1);
      assert Starts(k)[..k - 1] == Starts(k - 1);
    }
  }

  function Downwards(k: nat, count: nat): seq<nat>
    requires count <= k
  {
    seq(count, i requires 0 <= i < count => k - 1 - i)
  }

  lemma {:induction false} CountedStops(before: seq<Event>, extensions: seq<Extension>, k: nat, count: nat)
    requires count <= k <= |extensions|
    ensures StartsIn(before + Stops(extensions, k, count)) == StartsIn(before)
    ensures StopsIn(before + Stops(extensions, k, count)) == StopsIn(before) + Downwards(k, count)
  {
    var trace := before + Stops(extensions, k, count);
    if count == 0 {
      assert trace == before;
    } else {
      CountedStops(before, extensions, k, count - 1);
      assert trace[..|trace| - 1] == before + Stops(extensions, k, count - 1);
      assert Downwards(k, count) == Downwards(k, count - 1) + [k - count];
    }
  }

  lemma {:induction false} ReversedCount(k: nat)
    ensures Reversed(seq(k, i => i)) == Downwards(k, k)
  {
    if k > 0 {
      var s := seq(k, i => i);
      ReversedUp(s, 0);
    }
  }

  lemma {:induction false} ReversedUp(s: seq<nat>, from: nat)
    requires forall i :: 0 <= i < |s| ==> s[i] == from + i
    ensures |Reversed(s)| == |s| && forall i :: 0 <= i < |s| ==> Reversed(s)[i] == from + |s| - 1 - i
  {
    if s != [] {
      ReversedUp(s[1..], from + 1);
    }
  }

  /** The extensions that start, in registration order, and those told to stop, in the opposite order. */
  lemma StartsInOrder(app: App)
    ensures StartsIn(Trace(app)) == seq(StartedCount(app.extensions), i => i)
    ensures StopsIn(Trace(app))
         == Downwards(StartedCount(app.extensions), StopCount(app.extensions, StartedCount(app.extensions)))
  {
    var k := StartedCount(app.extensions);
    var before := Starts(k) + Middle(app).0;
    CountedStarts(k);
    assert before[..|before| - 1] == Starts(k);
    CountedStops(before, app.extensions, k, StopCount(app.extensions, k));
  }

  /** Of the extensions that started, only the first registered one may abort its shutdown. */
  predicate OnlyLastStopAborts(app: App)
  {
    forall i :: 1 <= i < StartedCount(app.extensions) ==> !app.extensions[i].shutdown.Aborts?
  }

  lemma {:induction false} StopsAllIff(extensions: seq<Extension>, k: nat)
    requires k <= |extensions|
    ensures StopCount(extensions, k) == k <==> forall i :: 1 <= i < k ==> !extensions[i].shutdown.Aborts?
  {
    if k > 0 {
      StopsAllIff(extensions, k - 1);
    }
  }

  /**
   The shutdowns are the startups in reverse, each once, exactly when no shutdown but the last to run
   is aborted; shutdowns that merely fail never keep another extension from being stopped.
   */
  lemma StopsMirrorStartsIff(app: App)
    ensures StopsIn(Trace(app)) == Reversed(StartsIn(Trace(app))) <==> OnlyLastStopAborts(app)
    ensures (forall i :: 0 <= i < |app.extensions| ==> !app.extensions[i].shutdown.Aborts?) ==> OnlyLastStopAborts(app)
  {
    var k := StartedCount(app.extensions);
    StartsInOrder(app);
    ReversedCount(k);
    StopsAllIff(app.extensions, k);
    if StopsIn(Trace(app)) == Reversed(StartsIn(Trace(app))) {
      assert |StopsIn(Trace(app))| == StopCount(app.extensions, k);
      assert |Reversed(StartsIn(Trace(app)))| == k;
    }
  }

  /** The application serves exactly when every extension started and its own lifespan could be entered. */
  lemma ServesIff(app: App)
    ensures Served in Trace(app) <==>
              (forall i :: 0 <= i < |app.extensions| ==> app.extensions[i].startup.Fine?)
              && (app.user.Some? ==> app.user.value.enter == Fine)
  {
    var k := StartedCount(app.extensions);
    var tail := Stops(app.extensions, k, StopCount(app.extensions, k));
    assert Served !in Starts(k) && Served !in tail;
    if k == |app.extensions| && Entered(app) {
      assert Served in Middle(app).0;
    }
  }

  /** A failing shutdown is never what escapes; with no aborted one, the error is that of the run itself. */
  lemma FailuresStayInside(app: App)
    requires forall i :: 0 <= i < |app.extensions| ==> !app.extensions[i].shutdown.Aborts?
    ensures Escapes(app) == Middle(app).1
    ensures Escapes(app) == Nothing <==>
              && Served in Trace(app)
              && (if app.user.None? then app.body else app.user.value.leave(app.body)).Fine?
  {
    ServesIff(app);
  }

  /** No extension starts after the application has served or another has stopped, and nothing follows but stops. */
  lemma TraceIsInOrder(app: App, i: nat, j: nat)
    requires i < j < |Trace(app)|
    ensures Trace(app)[j].Started? ==> Trace(app)[i].Started?
    ensures Trace(app)[i].Stopped? ==> Trace(app)[j].Stopped?
    ensures Trace(app)[i].Started? || Trace(app)[j].Stopped?
  {
    var k := StartedCount(app.extensions);
    assert |Starts(k)| == k && |Middle(app).0| == 1;
    assert forall n :: 0 <= n < k ==> Trace(app)[n] == Starts(k)[n];
    assert forall n :: k < n < |Trace(app)| ==>
        Trace(app)[n] == Stops(app.extensions, k, StopCount(app.extensions, k))[n - k - 1];
  }

  /** A stop is recorded as it ended. */
  lemma StopsEndAsTheyDo(app: App, e: Event)
    requires e in Trace(app) && e.Stopped?
    ensures e.ext < |app.extensions| && e.how == app.extensions[e.ext].shutdown
  {
    var k := StartedCount(app.extensions);
    var tail := Stops(app.extensions, k, StopCount(app.extensions, k));
    assert e !in Starts(k) && e !in Middle(app).0;
    assert e in tail;
  }

  /**
   The error that escapes names the last registered started extension whose shutdown aborts, if any; else
   the first extension that did not start, else the entry or the body of the application's lifespan.
   */
  lemma EscapesIff(app: App, i: nat)
    requires i < |app.extensions|
    ensures var started := forall j :: 0 <= j < |app.extensions| ==> app.extensions[j].startup.Fine?;
            && (Escapes(app) == AtShutdown(i) <==>
                  && app.extensions[i].shutdown.Aborts? && (forall j :: 0 <= j <= i ==> app.extensions[j].startup.Fine?)
                  && (forall j :: i < j < StartedCount(app.extensions) ==> !app.extensions[j].shutdown.Aborts?))
            && (Escapes(app) == AtStartup(i) <==>
                  && !app.extensions[i].startup.Fine? && (forall j :: 0 <= j < i ==> app.extensions[j].startup.Fine?)
                  && (forall j :: 0 <= j < i ==> !app.extensions[j].shutdown.Aborts?))
            && (Escapes(app) == AtEntry ==> started && app.user.Some? && app.user.value.enter != Fine)
            && (Escapes(app) == AtBody ==> started && (app.user.Some? ==> app.user.value.enter == Fine))
  {
    var k := StartedCount(app.extensions);
    StopsDownTo(app.extensions, k);
  }

  /** Stopping goes down to the highest extension whose shutdown aborts. */
  lemma {:induction false} StopsDownTo(extensions: seq<Extension>, k: nat)
    requires k <= |extensions|
    ensures var m := StopCount(extensions, k);
            && (forall j :: k - m < j < k ==> !extensions[j].shutdown.Aborts?)
            && (m < k ==> m > 0 && extensions[k - m].shutdown.Aborts?)
  {
    if k > 0 {
      StopsDownTo(extensions, k - 1);
    }
  }
}
