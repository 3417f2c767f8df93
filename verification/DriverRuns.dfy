/** Power requests, scans and reads together: what a power-off does to an enumeration of the scan cache. */
module DriverRuns {
  import opened MachineTypes
  import P = Power
  import C = ScanModel
  import L = ScanLaws
  import R = ScanRuns

  datatype Driver = Driver(power: P.State, cache: C.State)

  const START: Driver := Driver(P.INITIAL, C.EMPTY)

  /** `now` is the clock a power-off reads while it clears the cache. */
  datatype Event = OnPower(power: P.Event, now: u64) | OnCache(cache: C.Event)

  /** The request turns the power off, so it runs `scanFreeResults(0)`. */
  predicate TurnsOff(s: P.State, e: P.Event) {
    e.Request? && e.state == P.POWER_OFF && s.state != P.POWER_OFF
  }

  /** What an event does to the scan cache. */
  function OnTheCache(s: Driver, e: Event): (on: seq<C.Event>)
    ensures |on| <= 1
  {
    match e
    case OnPower(power, now) => if TurnsOff(s.power, power) then [C.Sweep(now, 0)] else []
    case OnCache(cache) => [cache]
  }

  function Step(s: Driver, e: Event): Driver {
    match e
    case OnPower(power, now) =>
      Driver(P.Step(s.power, power), if TurnsOff(s.power, power) then C.Step(s.cache, C.Sweep(now, 0)) else s.cache)
    case OnCache(cache) => s.(cache := C.Step(s.cache, cache))
  }

  function Run(s: Driver, events: seq<Event>): Driver {
    if events == [] then s else Step(Run(s, events[..|events| - 1]), events[|events| - 1])
  }

  /** The scan-cache events of a run, power-offs among them. */
  function CacheEvents(s: Driver, events: seq<Event>): seq<C.Event> {
    if events == [] then []
    else
      var front := events[..|events| - 1];
      CacheEvents(s, front) + OnTheCache(Run(s, front), events[|events| - 1])
  }

  function PowerEvents(events: seq<Event>): seq<P.Event> {
    if events == [] then []
    else
      var e := events[|events| - 1];
      PowerEvents(events[..|events| - 1]) + if e.OnPower? then [e.power] else []
  }

  /** The power trace says when the cache is cleared: a step adds the label exactly when it turns the power off. */
  lemma TurnsOffIsTraced(s: P.State, e: P.Event)
    ensures var t := P.Step(s, e);
      && |s.trace| <= |t.trace| && t.trace[..|s.trace|] == s.trace
      && (TurnsOff(s, e) <==> P.ClearScanCache in t.trace[|s.trace|..])
  {
    var t := P.Step(s, e);
    if TurnsOff(s, e) {
      assert t.trace[|s.trace|..][2] == P.ClearScanCache;
    }
  }

  lemma RunSnoc(s: C.State, events: seq<C.Event>, e: C.Event)
    ensures C.Run(s, events + [e]) == C.Step(C.Run(s, events), e)
  {
    assert (events + [e])[..|events|] == events;
  }

  lemma PowerRunSnoc(s: P.State, events: seq<P.Event>, e: P.Event)
    ensures P.Run(s, events + [e]) == P.Step(P.Run(s, events), e)
  {
    assert (events + [e])[..|events|] == events;
  }

  lemma CacheStep(s: Driver, e: Event, before: seq<C.Event>, start: C.State)
    requires s.cache == C.Run(start, before)
    ensures Step(s, e).cache == C.Run(start, before + OnTheCache(s, e))
  {
    var on := OnTheCache(s, e);
    if on == [] {
      assert before + on == before;
    } else {
      assert on == [on[0]];
      RunSnoc(start, before, on[0]);
    }
  }

  lemma PowerStep(s: Driver, e: Event, before: seq<P.Event>, start: P.State)
    requires s.power == P.Run(start, before)
    ensures Step(s, e).power == P.Run(start, before + if e.OnPower? then [e.power] else [])
  {
    if e.OnPower? {
      PowerRunSnoc(start, before, e.power);
    } else {
      assert before + [] == before;
    }
  }

  /** A driver run is a run of the cache on its events and a run of the power state on its own. */
  lemma {:induction false} RunProjects(s: Driver, events: seq<Event>)
    ensures Run(s, events).cache == C.Run(s.cache, CacheEvents(s, events))
    ensures Run(s, events).power == P.Run(s.power, PowerEvents(events))
  {
    if events != [] {
      var front, e := events[..|events| - 1], events[|events| - 1];
      RunProjects(s, front);
      CacheStep(Run(s, front), e, CacheEvents(s, front), s.cache);
      PowerStep(Run(s, front), e, PowerEvents(front), s.power);
    }
  }

  /** A read in this state finds null or a live node, or no cursor is needed. */
  predicate ReadIsSafe(s: C.State) {
    s.list != [] ==> C.CursorLive(s)
  }

  /** Every read of the run is safe. */
  predicate Safe(s: Driver, events: seq<Event>) {
    events == [] || (
      var front := events[..|events| - 1];
      Safe(s, front) && (events[|events| - 1] == OnCache(C.Get) ==> ReadIsSafe(Run(s, front).cache)))
  }

  lemma CursorSafeSnoc(s: C.State, events: seq<C.Event>, e: C.Event)
    ensures R.CursorSafe(s, events + [e])
       <==> R.CursorSafe(s, events) && (e.Get? ==> ReadIsSafe(C.Run(s, events)))
  {
    var all := events + [e];
    assert all[..|events|] == events;
    assert forall j :: 0 <= j < |events| ==> all[..j] == events[..j];
    assert forall j :: 0 <= j < |events| ==> (R.ReadsCursor(s, all, j) <==> R.ReadsCursor(s, events, j));
    assert R.ReadsCursor(s, all, |events|) <==> e.Get? && C.Run(s, events).list != [];
  }

  lemma CursorSafeAfter(s: C.State, events: seq<C.Event>, on: seq<C.Event>)
    requires |on| <= 1
    ensures R.CursorSafe(s, events + on)
       <==> R.CursorSafe(s, events) && (on == [C.Get] ==> ReadIsSafe(C.Run(s, events)))
  {
    if on == [] {
      assert events + on == events;
    } else {
      assert on == [on[0]];
      CursorSafeSnoc(s, events, on[0]);
    }
  }

  lemma {:induction false} SafeIsCursorSafe(s: Driver, events: seq<Event>)
    ensures Safe(s, events) <==> R.CursorSafe(s.cache, CacheEvents(s, events))
  {
    if events != [] {
      var front, e := events[..|events| - 1], events[|events| - 1];
      SafeIsCursorSafe(s, front);
      RunProjects(s, front);
      CursorSafeAfter(s.cache, CacheEvents(s, front), OnTheCache(Run(s, front), e));
    }
  }

  /**
   * From the start of the driver, over any mix of power requests, ticks, scans
   * and reads, every read is safe if and only if a scan-done stands between each
   * clearing that frees the cursor's node, by power-off or by sweep, and the
   * next read of a non-empty cache.
   */
  lemma SafeIffDisciplined(events: seq<Event>)
    ensures Safe(START, events) <==> R.Disciplined(C.EMPTY, CacheEvents(START, events))
  {
    SafeIsCursorSafe(START, events);
    L.FreshDriverIsValid();
    R.CursorSafeIffDisciplined(C.EMPTY, CacheEvents(START, events));
  }

  predicate NoDone(events: seq<Event>) {
    forall i :: 0 <= i < |events| && events[i].OnCache? ==> !events[i].cache.Done?
  }

  /** A null cursor stays null, and a dead one dead, until a scan-done. */
  lemma UnsetStep(s: C.State, e: C.Event)
    requires L.Valid(s) && !e.Done? && (s.cursor == None || !C.CursorLive(s))
    ensures C.Step(s, e).cursor == s.cursor && (s.cursor == None || !C.CursorLive(C.Step(s, e)))
  {
    match e
    case Scan(obs) =>
      L.ScanKeepsValid(s, obs);
      if s.cursor != None { R.DeadStep(s, e); }
    case Sweep(_, _) => if s.cursor != None { R.DeadStep(s, e); }
    case Get => if s.cursor != None { R.DeadStep(s, e); }
  }

  lemma DriverStepKeepsValid(s: Driver, e: Event)
    requires L.Valid(s.cache)
    ensures L.Valid(Step(s, e).cache)
  {
    match e
    case OnPower(_, now) => L.StepKeepsValid(s.cache, C.Sweep(now, 0));
    case OnCache(cache) => L.StepKeepsValid(s.cache, cache);
  }

  lemma {:induction false} UnsetStays(s: Driver, events: seq<Event>)
    requires L.Valid(s.cache) && NoDone(events) && (s.cache.cursor == None || !C.CursorLive(s.cache))
    ensures var t := Run(s, events).cache;
      L.Valid(t) && t.cursor == s.cache.cursor && (t.cursor == None || !C.CursorLive(t))
  {
    if events != [] {
      var front, e := events[..|events| - 1], events[|events| - 1];
      UnsetStays(s, front);
      var u := Run(s, front);
      DriverStepKeepsValid(u, e);
      match e
      case OnPower(_, now) => UnsetStep(u.cache, C.Sweep(now, 0));
      case OnCache(cache) => UnsetStep(u.cache, cache);
    }
  }

  /**
   * After any history and a power-off, until the next scan-done, a read is safe
   * exactly while the cache is still empty, or if the cursor was null before.
   */
  lemma AfterPowerOff(history: seq<Event>, off: P.Event, now: u64, rest: seq<Event>)
    requires TurnsOff(Run(START, history).power, off) && NoDone(rest)
    ensures var s := Run(START, history); var t := Run(Step(s, OnPower(off, now)), rest);
      && Step(s, OnPower(off, now)).cache.list == []
      && (ReadIsSafe(t.cache) <==> t.cache.list == [] || s.cache.cursor == None)
  {
    var s := Run(START, history);
    RunProjects(START, history);
    L.FreshDriverIsValid();
    L.RunKeepsValid(C.EMPTY, CacheEvents(START, history));
    DriverStepKeepsValid(s, OnPower(off, now));
    R.ClearEmpties(s.cache.list, now);
    UnsetStays(Step(s, OnPower(off, now)), rest);
  }
}
