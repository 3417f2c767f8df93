/** Power requests and the watchdog timer as a state machine; `Driver.AirPort` implements its steps. */
module Power {
  import opened MachineTypes

  const POWER_OFF: u32 := 0
  const POWER_ON: u32 := 1   // 2 and 3 are transmit only and receive only

  const SUCCESS: int := 0
  const ERROR: int := 1      // kIOReturnError

  /** What a power change tells the hardware, net80211 and the scan cache, in order. */
  datatype Action = Up | Wakeup | Quiesce | FreeNodes | ClearScanCache

  /** `armed`: the one-shot timer is pending; `timer` is if_timer; `alarms` counts the driver watchdog's calls. */
  datatype State = State(state: u32, firstUp: bool, armed: bool, timer: i16, alarms: nat, trace: seq<Action>)

  const INITIAL: State := State(POWER_OFF, true, false, 0, 0, [])

  datatype Event =
    | Request(state: u32)              // changePowerState
    | Enable                           // enable
    | SetTimer(value: i16)             // a transmit, a stop or any other writer of if_timer
    | Tick(handler: bool, left: i16)   // the timer fires; handler: if_watchdog is set, left: what it leaves in if_timer

  function Change(s: State, state: u32): State {
    if s.state == state then s
    else if state == POWER_ON then
      s.(state := state, firstUp := false, armed := true, trace := s.trace + [if s.firstUp then Up else Wakeup])
    else if state == POWER_OFF then
      s.(state := state, armed := false, trace := s.trace + [Quiesce, FreeNodes, ClearScanCache])
    else s.(state := state)
  }

  /** A timer that is not armed does not fire. */
  function Fire(s: State, handler: bool, left: i16): State {
    if !s.armed then s
    else if !handler then s.(armed := false)
    else if s.timer == 1 then s.(timer := left, alarms := s.alarms + 1)
    else if s.timer > 0 then s.(timer := s.timer - 1)
    else s
  }

  function Step(s: State, e: Event): State {
    match e
    case Request(state) => Change(s, state)
    case Enable => if s.state == POWER_OFF then Change(s, POWER_ON) else s
    case SetTimer(value) => s.(timer := value)
    case Tick(handler, left) => Fire(s, handler, left)
  }

  function Run(s: State, events: seq<Event>): State {
    if events == [] then s else Step(Run(s, events[..|events| - 1]), events[|events| - 1])
  }

  // ---------- What one request does ----------

  lemma RunSnoc(events: seq<Event>, e: Event)
    ensures Run(INITIAL, events + [e]) == Step(Run(INITIAL, events), e)
  {
    assert (events + [e])[..|events|] == events;
  }

  /** After any run, a request is recorded whatever it asks for, also one that only answers with an error. */
  lemma RequestIsRecorded(events: seq<Event>, state: u32)
    ensures Run(INITIAL, events + [Request(state)]).state == state
  {
    RunSnoc(events, Request(state));
  }

  /**
   * From any other state, transmit only and receive only among them, a request
   * for on brings the hardware up, or wakes it if it was up before, and arms the
   * timer; one for off quiesces and clears and disarms it; any other is silent.
   */
  lemma RequestEffect(s: State, state: u32)
    ensures var t := Step(s, Request(state));
      && t.timer == s.timer && t.alarms == s.alarms
      && (s.state == state ==> t == s)
      && (s.state != state == 1 ==>
            t.trace == s.trace + [if s.firstUp then Up else Wakeup] && t.armed && !t.firstUp)
      && (s.state != state == 0 ==>
            t.trace == s.trace + [Quiesce, FreeNodes, ClearScanCache] && !t.armed && t.firstUp == s.firstUp)
      && (state > 1 ==> t.trace == s.trace && t.armed == s.armed && t.firstUp == s.firstUp)
  {
  }

  /** `enable` is a request for on, made only while the driver is off. */
  lemma EnableEffect(s: State)
    ensures Step(s, Enable) == if s.state == 0 then Step(s, Request(1)) else s
  {
  }

  /** A tick with no handler lets the timer run out; one with a handler keeps it armed. */
  lemma TickEffect(s: State, handler: bool, left: i16)
    ensures var t := Step(s, Tick(handler, left));
      && t.state == s.state && t.firstUp == s.firstUp && t.trace == s.trace
      && t.armed == (s.armed && handler)
      && (!t.armed ==> t.timer == s.timer && t.alarms == s.alarms)
  {
  }

  // ---------- The order of the hardware actions ----------

  /** The actions the hardware sees. */
  function Hardware(trace: seq<Action>): (h: seq<Action>)
    ensures forall i :: 0 <= i < |h| ==> h[i].Up? || h[i].Wakeup? || h[i].Quiesce?
  {
    if trace == [] then []
    else
      var last := trace[|trace| - 1];
      Hardware(trace[..|trace| - 1]) + if last.FreeNodes? || last.ClearScanCache? then [] else [last]
  }

  /** Before "up" only quiesces; after it no second "up". */
  predicate UpComesFirst(h: seq<Action>, up: nat) {
    && up <= |h|
    && (forall i :: 0 <= i < up ==> h[i] == Quiesce)
    && (up < |h| ==> h[up] == Up)
    && (forall i :: up < i < |h| ==> h[i] == Wakeup || h[i] == Quiesce)
  }

  lemma {:induction false} HardwareConcat(a: seq<Action>, b: seq<Action>)
    ensures Hardware(a + b) == Hardware(a) + Hardware(b)
  {
    if b == [] {
      assert a + b == a;
    } else {
      HardwareConcat(a, b[..|b| - 1]);
      assert (a + b)[..|a + b| - 1] == a + b[..|b| - 1];
    }
  }

  lemma HardwareOfOff()
    ensures Hardware([Quiesce, FreeNodes, ClearScanCache]) == [Quiesce]
  {
    var t := [Quiesce, FreeNodes, ClearScanCache];
    assert t[..2] == [Quiesce, FreeNodes] && t[..2][..1] == [Quiesce] && [Quiesce][..0] == [];
  }

  lemma HardwareOfOn(a: Action)
    requires a == Up || a == Wakeup
    ensures Hardware([a]) == [a]
  {
    assert [a][..0] == [];
  }

  lemma ChangeHardware(s: State, state: u32)
    ensures Hardware(Change(s, state).trace) == Hardware(s.trace) +
      if s.state == state || (state != POWER_ON && state != POWER_OFF) then []
      else [if state == POWER_OFF then Quiesce else if s.firstUp then Up else Wakeup]
  {
    if s.state != state && state == POWER_ON {
      var a := if s.firstUp then Up else Wakeup;
      HardwareConcat(s.trace, [a]);
      HardwareOfOn(a);
    } else if s.state != state && state == POWER_OFF {
      HardwareConcat(s.trace, [Quiesce, FreeNodes, ClearScanCache]);
      HardwareOfOff();
    }
  }

  lemma HardwareStep(s: State, e: Event)
    ensures var h := Hardware(s.trace); var t := Step(s, e);
      Hardware(t.trace) ==
        if t.state == s.state || (t.state != POWER_ON && t.state != POWER_OFF) then h
        else h + [if t.state == POWER_OFF then Quiesce else if s.firstUp then Up else Wakeup]
    ensures Step(s, e).firstUp == (s.firstUp && (Step(s, e).state == s.state || Step(s, e).state != POWER_ON))
  {
    match e
    case Request(state) => ChangeHardware(s, state);
    case Enable => ChangeHardware(s, POWER_ON);
    case SetTimer(_) =>
    case Tick(_, _) =>
  }

  lemma UpStep(s: State, e: Event, up: nat) returns (up': nat)
    requires UpComesFirst(Hardware(s.trace), up) && (s.firstUp <==> up == |Hardware(s.trace)|)
    ensures var t := Step(s, e);
      UpComesFirst(Hardware(t.trace), up') && (t.firstUp <==> up' == |Hardware(t.trace)|)
  {
    HardwareStep(s, e);
    up' := if Step(s, e).firstUp then |Hardware(Step(s, e).trace)| else up;
  }

  /** Whatever is requested, "up" is issued at most once and before every wakeup. */
  lemma {:induction false} UpOnceBeforeWakeup(events: seq<Event>) returns (up: nat)
    ensures var t := Run(INITIAL, events);
      UpComesFirst(Hardware(t.trace), up) && (t.firstUp <==> up == |Hardware(t.trace)|)
  {
    up := 0;
    if events != [] {
      up := UpOnceBeforeWakeup(events[..|events| - 1]);
      up := UpStep(Run(INITIAL, events[..|events| - 1]), events[|events| - 1], up);
    }
  }

  predicate OnOffOnly(events: seq<Event>) {
    forall i :: 0 <= i < |events| && events[i].Request? ==> events[i].state == POWER_ON || events[i].state == POWER_OFF
  }

  /** A prefix of UP (QUIESCE WAKEUP)*. */
  predicate Alternating(h: seq<Action>) {
    && (h != [] ==> h[0] == Up)
    && (forall i :: 0 < i < |h| ==> h[i] == if h[i - 1] == Quiesce then Wakeup else Quiesce)
  }

  /** What the hardware has seen, and the state that goes with it. */
  predicate Alternates(h: seq<Action>, s: State) {
    && Alternating(h)
    && s.state == (if h == [] || h[|h| - 1] == Quiesce then POWER_OFF else POWER_ON)
    && s.firstUp == (h == [])
  }

  /** A change of state adds the action that keeps the pattern. */
  lemma AlternatesChange(h: seq<Action>, s: State, t: State, a: Action)
    requires Alternates(h, s) && t.state != s.state
    requires t.state == POWER_ON || t.state == POWER_OFF
    requires a == if t.state == POWER_OFF then Quiesce else if s.firstUp then Up else Wakeup
    requires t.firstUp == (s.firstUp && t.state != POWER_ON)
    ensures Alternates(h + [a], t)
  {
  }

  lemma AlternatesTo(s: State, state: u32)
    requires Alternates(Hardware(s.trace), s) && (state == POWER_ON || state == POWER_OFF)
    ensures Alternates(Hardware(Change(s, state).trace), Change(s, state))
  {
    ChangeHardware(s, state);
    if s.state != state {
      var a := if state == POWER_OFF then Quiesce else if s.firstUp then Up else Wakeup;
      AlternatesChange(Hardware(s.trace), s, Change(s, state), a);
    } else {
      assert Hardware(s.trace) + [] == Hardware(s.trace);
    }
  }

  lemma AlternatesStep(s: State, e: Event)
    requires Alternates(Hardware(s.trace), s)
    requires e.Request? ==> e.state == POWER_ON || e.state == POWER_OFF
    ensures Alternates(Hardware(Step(s, e).trace), Step(s, e))
  {
    if e.Request? {
      AlternatesTo(s, e.state);
    } else if e.Enable? && s.state == POWER_OFF {
      AlternatesTo(s, POWER_ON);
    } else {
      AlternatesSame(s, Step(s, e));
    }
  }

  lemma AlternatesSame(s: State, t: State)
    requires Alternates(Hardware(s.trace), s) && t.trace == s.trace && t.state == s.state && t.firstUp == s.firstUp
    ensures Alternates(Hardware(t.trace), t)
  {
  }

  /**
   * With only on and off requests the hardware sees a prefix of UP (QUIESCE WAKEUP)*,
   * and is off exactly before the first action and after each quiesce.
   */
  lemma {:induction false} OnOffAlternates(events: seq<Event>)
    requires OnOffOnly(events)
    ensures Alternates(Hardware(Run(INITIAL, events).trace), Run(INITIAL, events))
  {
    if events != [] {
      OnOffAlternates(events[..|events| - 1]);
      AlternatesStep(Run(INITIAL, events[..|events| - 1]), events[|events| - 1]);
    }
  }

  /** Each power-off frees the nodes and clears the scan cache right after it quiesces the hardware. */
  predicate OffClears(trace: seq<Action>) {
    forall i :: 0 <= i < |trace| && trace[i] == Quiesce ==>
      i + 2 < |trace| && trace[i + 1] == FreeNodes && trace[i + 2] == ClearScanCache
  }

  lemma {:induction false} PowerOffClears(events: seq<Event>)
    ensures OffClears(Run(INITIAL, events).trace)
  {
    if events != [] {
      PowerOffClears(events[..|events| - 1]);
      OffClearsStep(Run(INITIAL, events[..|events| - 1]), events[|events| - 1]);
    }
  }

  lemma OffClearsStep(s: State, e: Event)
    requires OffClears(s.trace)
    ensures OffClears(Step(s, e).trace)
  {
    match e
    case Request(state) => OffClearsChange(s, state);
    case Enable => OffClearsChange(s, POWER_ON);
    case SetTimer(_) =>
    case Tick(_, _) =>
  }

  lemma OffClearsChange(s: State, state: u32)
    requires OffClears(s.trace)
    ensures OffClears(Change(s, state).trace)
  {
    if s.state != state && state == POWER_OFF {
      var n, t := |s.trace|, Change(s, state);
      assert t.trace[n + 1] == FreeNodes && t.trace[n + 2] == ClearScanCache;
    }
  }

  // ---------- The watchdog ----------

  /** Under any interleaving of requests and ticks, the timer is not armed while the power is off. */
  lemma {:induction false} NeverArmedWhileOff(events: seq<Event>)
    ensures var t := Run(INITIAL, events); t.state == POWER_OFF ==> !t.armed
  {
    if events != [] {
      NeverArmedWhileOff(events[..|events| - 1]);
    }
  }

  predicate HandlerPresent(events: seq<Event>) {
    forall i :: 0 <= i < |events| && events[i].Tick? ==> events[i].handler
  }

  /** The last request for on or off, counting `enable` on a driver that is off. */
  function LastOnOff(events: seq<Event>): u32 {
    if events == [] then POWER_OFF
    else
      var front, last := events[..|events| - 1], events[|events| - 1];
      match last
      case Request(state) => if state == POWER_ON || state == POWER_OFF then state else LastOnOff(front)
      case Enable => if Run(INITIAL, front).state == POWER_OFF then POWER_ON else LastOnOff(front)
      case SetTimer(_) => LastOnOff(front)
      case Tick(_, _) => LastOnOff(front)
  }

  /** While a handler is present no tick loses the timer: it is armed exactly if the last on/off request was on. */
  lemma {:induction false} ArmedSinceOn(events: seq<Event>)
    requires HandlerPresent(events)
    ensures var t := Run(INITIAL, events);
      && t.armed == (LastOnOff(events) == POWER_ON)
      && (t.state == POWER_ON || t.state == POWER_OFF ==> t.state == LastOnOff(events))
  {
    if events != [] {
      ArmedSinceOn(events[..|events| - 1]);
    }
  }

  /** The tick finds the timer armed and a handler present. */
  predicate Fires(s: State, e: Event) {
    e.Tick? && e.handler && s.armed
  }

  function Fired(s: State, events: seq<Event>): nat {
    if events == [] then 0
    else
      var front := events[..|events| - 1];
      Fired(s, front) + if Fires(Run(s, front), events[|events| - 1]) then 1 else 0
  }

  /**
   * After a write of n the driver watchdog is called on exactly the n-th fired
   * tick, unless the timer is written again before; zero or less never calls it.
   */
  lemma {:induction false} AlarmOnNthTick(s: State, n: i16, events: seq<Event>)
    requires forall i :: 0 <= i < |events| ==> !events[i].SetTimer?
    ensures var start := Step(s, SetTimer(n)); var t := Run(start, events); var k := Fired(start, events);
      && (n <= 0 ==> t.timer == n && t.alarms == s.alarms)
      && (k < n ==> t.timer == n - k && t.alarms == s.alarms)
      && (k == n > 0 && Fires(Run(start, events[..|events| - 1]), events[|events| - 1]) ==>
            t.timer == events[|events| - 1].left && t.alarms == s.alarms + 1)
  {
    if events != [] {
      AlarmOnNthTick(s, n, events[..|events| - 1]);
    }
  }

  /** A value written to if_timer, and the fired ticks until the next write. */
  datatype Write = Write(value: i16, ticks: nat) {
    predicate Completes() {
      0 < value == ticks
    }
  }

  /** The writes of a run that another write has followed, and the last one. */
  datatype Writes = Writes(over: seq<Write>, last: Write) {
    function Next(value: i16): Writes {
      Writes(over + [last], Write(value, 0))
    }

    /** One fired tick later: a completed countdown ends in the watchdog's own write. */
    function Ticked(left: i16): Writes {
      var t := this.(last := last.(ticks := last.ticks + 1));
      if t.last.Completes() then t.Next(left) else t
    }
  }

  /** The writes of a run, starting with the value found. */
  function WritesOf(s: State, events: seq<Event>): Writes {
    if events == [] then Writes([], Write(s.timer, 0))
    else
      var front, e := events[..|events| - 1], events[|events| - 1];
      var ws := WritesOf(s, front);
      if e.SetTimer? then ws.Next(e.value)
      else if Fires(Run(s, front), e) then ws.Ticked(e.left)
      else ws
  }

  function Completed(ws: seq<Write>): nat {
    if ws == [] then 0 else Completed(ws[..|ws| - 1]) + if ws[|ws| - 1].Completes() then 1 else 0
  }

  lemma CompletedSnoc(ws: seq<Write>, w: Write)
    ensures Completed(ws + [w]) == Completed(ws) + if w.Completes() then 1 else 0
  {
    assert (ws + [w])[..|ws|] == ws;
  }

  /** The timer is what the last write has left of its value. */
  predicate Counts(timer: i16, w: Write) {
    timer == (if w.value <= 0 then w.value else w.value - w.ticks) && (w.value > 0 ==> w.ticks < w.value)
  }

  lemma FireCounts(s: State, left: i16, ws: Writes, base: int)
    requires s.armed && Counts(s.timer, ws.last) && s.alarms == base + Completed(ws.over)
    ensures var t := Fire(s, true, left);
      Counts(t.timer, ws.Ticked(left).last) && t.alarms == base + Completed(ws.Ticked(left).over)
  {
    CompletedSnoc(ws.over, ws.last.(ticks := ws.last.ticks + 1));
  }

  lemma WriteCounts(ws: Writes, value: i16)
    requires !ws.last.Completes()
    ensures Counts(value, ws.Next(value).last) && Completed(ws.Next(value).over) == Completed(ws.over)
  {
    CompletedSnoc(ws.over, ws.last);
  }

  /**
   * Over any run, the driver watchdog is called once for each write whose
   * countdown completes before the next write, and the timer is what the last
   * write has left.
   */
  lemma {:induction false} AlarmsAreCompletedWrites(s: State, events: seq<Event>)
    ensures var ws := WritesOf(s, events);
      Run(s, events).alarms == s.alarms + Completed(ws.over) && Counts(Run(s, events).timer, ws.last)
  {
    if events != [] {
      var front, e := events[..|events| - 1], events[|events| - 1];
      AlarmsAreCompletedWrites(s, front);
      if e.SetTimer? {
        WriteCounts(WritesOf(s, front), e.value);
      } else if Fires(Run(s, front), e) {
        FireCounts(Run(s, front), e.left, WritesOf(s, front), s.alarms);
      }
    }
  }
}
