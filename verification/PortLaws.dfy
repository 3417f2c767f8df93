/** Laws of the protection flags, the port and the pairwise key, over any sequence of events. */
module PortLaws {
  import opened MachineTypes
  import opened KeyInstall
  import opened KeyLaws

  // ---------- What an event means to the port ----------

  /** An accepted key, a reset, an opening by the driver, or a write of the link fields. */
  datatype Turn =
    | ByPairwise
    | ByGroup
    | ByReset(others: u32)
    | ByDriver(others: u32)
    | ByBackground(linkUp: bool, assocFail: u32, netGroupCipher: Cipher)

  /** A key is accepted if its length fits and the hardware, if asked, does not refuse it. */
  function TurnOf(s: Link, e: Event): (turn: seq<Turn>)
    requires InBounds(s) && Callable(e)
    ensures |turn| <= 1
  {
    match e
    case Ptk(key, keyLen, a) =>
      if s.pairwiseCipher != UseGroup && keyLen == KeyLen(s.pairwiseCipher) && a.Ok() then [ByPairwise] else []
    case Gtk(gtk, keyLen, kid, rsc, a) =>
      if gtk.None? || (keyLen == KeyLen(s.groupCipher) && (a.Ok() || !Differs(s, kid, gtk.value)))
      then [ByGroup] else []
    case Unprotected(others) => [ByReset(others)]
    case PortOpened(others) => [ByDriver(others)]
    case Background(_, linkUp, assocFail, netGroupCipher) => [ByBackground(linkUp, assocFail, netGroupCipher)]
    case _ => []
  }

  /** A group key is accepted if the driver does not refuse it or the slot's history has left it there. */
  lemma AcceptedFromHistory(s: Link, events: seq<Event>, e: Event)
    requires InBounds(s) && AllCallable(events) && Callable(e) && e.Gtk? && e.gtk.Some?
    requires s.groupCipher != NoCipher
    ensures TurnOf(Run(s, events), e) == [ByGroup] <==>
      && Passes(s.groupCipher, e, e.kid)
      && (e.answer.Ok() || LastKey(ViewOf(s, e.kid).held, History(s.groupCipher, events, e.kid))
                         == Some(e.gtk.value[..KeyLen(s.groupCipher)]))
  {
    CiphersStay(s, events);
    InstallsAreChanges(s, events, e.kid);
  }

  /** What happens to the port over a run. */
  function Turns(s: Link, events: seq<Event>): seq<Turn>
    requires InBounds(s) && AllCallable(events)
  {
    if events == [] then []
    else
      var front := events[..|events| - 1];
      Turns(s, front) + TurnOf(Run(s, front), events[|events| - 1])
  }

  function After(p: Port, opmode: OpMode, group: Cipher, turn: Turn): Port {
    match turn
    case ByPairwise => PairwiseAccepted(p)
    case ByGroup => GroupAccepted(p, opmode, group)
    case ByReset(others) => Closed(p, others)
    case ByDriver(others) => OpenedByDriver(p, others)
    case ByBackground(linkUp, assocFail, netGroupCipher) => Rewritten(p, linkUp, assocFail, netGroupCipher)
  }

  function AfterAll(p: Port, opmode: OpMode, group: Cipher, turns: seq<Turn>): Port {
    if turns == [] then p
    else After(AfterAll(p, opmode, group, turns[..|turns| - 1]), opmode, group, turns[|turns| - 1])
  }

  lemma AfterSnoc(p: Port, opmode: OpMode, group: Cipher, turns: seq<Turn>, turn: seq<Turn>)
    requires |turn| <= 1
    ensures AfterAll(p, opmode, group, turns + turn)
         == if turn == [] then AfterAll(p, opmode, group, turns)
            else After(AfterAll(p, opmode, group, turns), opmode, group, turn[0])
  {
    if turn == [] {
      assert turns + turn == turns;
    } else {
      assert (turns + turn)[..|turns|] == turns;
    }
  }

  lemma TurnStep(s: Link, e: Event)
    requires InBounds(s) && Callable(e)
    ensures var turn := TurnOf(s, e);
      Step(s, e).port == if turn == [] then s.port else After(s.port, s.opmode, s.groupCipher, turn[0])
  {
    match e
    case Ptk(_, _, _) =>
    case Gtk(_, _, _, _, _) =>
    case Traffic(_, _, _, _) =>
    case Cleared =>
    case Deleted(_, _) =>
    case Unprotected(_) =>
    case PortOpened(_) =>
    case Background(_, _, _, _) =>
  }

  /** The port after a run depends on its turns alone. */
  lemma {:induction false} PortIsTurns(s: Link, events: seq<Event>)
    requires InBounds(s) && AllCallable(events)
    ensures Run(s, events).port == AfterAll(s.port, s.opmode, s.groupCipher, Turns(s, events))
  {
    if events != [] {
      var front, e := events[..|events| - 1], events[|events| - 1];
      PortIsTurns(s, front);
      CiphersStay(s, front);
      TurnStep(Run(s, front), e);
      AfterSnoc(s.port, s.opmode, s.groupCipher, Turns(s, front), TurnOf(Run(s, front), e));
    }
  }

  // ---------- What the flags say about the history ----------

  /** The last turn that moves the protection bits. */
  function LastProtection(turns: seq<Turn>): Option<Turn> {
    if turns == [] then None
    else
      match turns[|turns| - 1]
      case ByDriver(_) => LastProtection(turns[..|turns| - 1])
      case ByBackground(_, _, _) => LastProtection(turns[..|turns| - 1])
      case turn => Some(turn)
  }

  /** The other flag bits as the environment last left them. */
  function OthersLeft(before: u32, turns: seq<Turn>): u32 {
    if turns == [] then before
    else
      match turns[|turns| - 1]
      case ByReset(others) => others
      case ByDriver(others) => others
      case _ => OthersLeft(before, turns[..|turns| - 1])
  }

  predicate SomePairwise(turns: seq<Turn>) {
    exists i :: 0 <= i < |turns| && turns[i].ByPairwise?
  }

  lemma FlagsStep(p: Port, opmode: OpMode, group: Cipher, turn: Turn)
    ensures var f := After(p, opmode, group, turn).flags; var moves := !turn.ByDriver? && !turn.ByBackground?;
      && f.txProt == (if moves then turn.ByGroup? else p.flags.txProt)
      && f.rxProt == (if moves then !turn.ByReset? else p.flags.rxProt)
      && f.newPtk == (p.flags.newPtk && !turn.ByPairwise?)
      && f.others == if turn.ByReset? || turn.ByDriver? then turn.others else p.flags.others
  {
  }

  lemma {:induction false} ProtectionIs(p: Port, opmode: OpMode, group: Cipher, turns: seq<Turn>)
    ensures var f := AfterAll(p, opmode, group, turns).flags; var last := LastProtection(turns);
      && f.txProt == (if last.Some? then last.value.ByGroup? else p.flags.txProt)
      && f.rxProt == (if last.Some? then !last.value.ByReset? else p.flags.rxProt)
  {
    if turns != [] {
      var front := turns[..|turns| - 1];
      ProtectionIs(p, opmode, group, front);
      FlagsStep(AfterAll(p, opmode, group, front), opmode, group, turns[|turns| - 1]);
    }
  }

  lemma SomePairwiseSnoc(turns: seq<Turn>)
    requires turns != []
    ensures SomePairwise(turns) <==> SomePairwise(turns[..|turns| - 1]) || turns[|turns| - 1].ByPairwise?
  {
    assert forall i :: 0 <= i < |turns| - 1 ==> turns[i] == turns[..|turns| - 1][i];
  }

  lemma {:induction false} OtherFlagsAre(p: Port, opmode: OpMode, group: Cipher, turns: seq<Turn>)
    ensures var f := AfterAll(p, opmode, group, turns).flags;
      && f.newPtk == (p.flags.newPtk && !SomePairwise(turns))
      && f.others == OthersLeft(p.flags.others, turns)
  {
    if turns != [] {
      var front := turns[..|turns| - 1];
      OtherFlagsAre(p, opmode, group, front);
      FlagsStep(AfterAll(p, opmode, group, front), opmode, group, turns[|turns| - 1]);
      SomePairwiseSnoc(turns);
    }
  }

  /**
   * Over every run, transmit protection is on exactly if the last turn of the
   * protection was an accepted group key, reception protection if it was any
   * accepted key and not a reset.
   */
  lemma FlagsFollowHistory(s: Link, events: seq<Event>)
    requires InBounds(s) && AllCallable(events)
    ensures var flags, turns := Run(s, events).port.flags, Turns(s, events); var last := LastProtection(turns);
      && flags.txProt == (if last.Some? then last.value.ByGroup? else s.port.flags.txProt)
      && flags.rxProt == (if last.Some? then !last.value.ByReset? else s.port.flags.rxProt)
      && flags.newPtk == (s.port.flags.newPtk && !SomePairwise(turns))
      && flags.others == OthersLeft(s.port.flags.others, turns)
  {
    PortIsTurns(s, events);
    ProtectionIs(s.port, s.opmode, s.groupCipher, Turns(s, events));
    OtherFlagsAre(s.port, s.opmode, s.groupCipher, Turns(s, events));
  }

  // ---------- The port ----------

  function Groups(turns: seq<Turn>): nat {
    if turns == [] then 0 else Groups(turns[..|turns| - 1]) + if turns[|turns| - 1].ByGroup? then 1 else 0
  }

  /** The last turn opens the port: the driver's, or an accepted group key, in an ad-hoc network if the count is two. */
  predicate Opens(p: Port, opmode: OpMode, turns: seq<Turn>)
    requires turns != []
  {
    || turns[|turns| - 1].ByDriver?
    || (turns[|turns| - 1].ByGroup? && (opmode == Ibss ==> (p.keyCount + Groups(turns)) % 0x100 == 2))
  }

  /** Since the last reset something has opened the port. */
  predicate OpenSinceReset(p: Port, opmode: OpMode, turns: seq<Turn>) {
    if turns == [] then p.valid
    else if turns[|turns| - 1].ByReset? then false
    else Opens(p, opmode, turns) || OpenSinceReset(p, opmode, turns[..|turns| - 1])
  }

  lemma ModSucc(n: int)
    ensures (n % 0x100 + 1) % 0x100 == (n + 1) % 0x100
  {
  }

  lemma {:induction false} CountIs(p: Port, opmode: OpMode, group: Cipher, turns: seq<Turn>)
    ensures AfterAll(p, opmode, group, turns).keyCount
         == if opmode == Ibss then (p.keyCount + Groups(turns)) % 0x100 else p.keyCount
  {
    if turns != [] {
      CountIs(p, opmode, group, turns[..|turns| - 1]);
      ModSucc(p.keyCount + Groups(turns[..|turns| - 1]));
    }
  }

  lemma {:induction false} ValidIs(p: Port, opmode: OpMode, group: Cipher, turns: seq<Turn>)
    ensures AfterAll(p, opmode, group, turns).valid <==> OpenSinceReset(p, opmode, turns)
  {
    if turns != [] {
      ValidIs(p, opmode, group, turns[..|turns| - 1]);
      CountIs(p, opmode, group, turns);
    }
  }

  /** Over every run the port is valid if and only if something has opened it since its last reset. */
  lemma PortFollowsHistory(s: Link, events: seq<Event>)
    requires InBounds(s) && AllCallable(events)
    ensures Run(s, events).port.valid <==> OpenSinceReset(s.port, s.opmode, Turns(s, events))
  {
    PortIsTurns(s, events);
    ValidIs(s.port, s.opmode, s.groupCipher, Turns(s, events));
  }

  /** Neither net80211 nor the driver touches the port. */
  predicate LeftAlone(turns: seq<Turn>) {
    forall i :: 0 <= i < |turns| ==> !turns[i].ByReset? && !turns[i].ByDriver?
  }

  lemma {:induction false} OpenAfter(p: Port, opmode: OpMode, turns: seq<Turn>)
    requires LeftAlone(turns) && !p.valid && p.keyCount == 0
    ensures OpenSinceReset(p, opmode, turns) <==> Groups(turns) >= if opmode == Ibss then 2 else 1
  {
    if turns != [] {
      OpenAfter(p, opmode, turns[..|turns| - 1]);
    }
  }

  /** Within one association of a fresh node one accepted group key opens the port, in an ad-hoc network two do. */
  lemma PortValidAfter(s: Link, events: seq<Event>)
    requires InBounds(s) && AllCallable(events) && LeftAlone(Turns(s, events)) && !s.port.valid && s.port.keyCount == 0
    ensures Run(s, events).port.valid <==> Groups(Turns(s, events)) >= if s.opmode == Ibss then 2 else 1
  {
    PortFollowsHistory(s, events);
    OpenAfter(s.port, s.opmode, Turns(s, events));
  }

  /** The driver opens the port only while reception is protected: after an accepted key and no reset since. */
  predicate OpensProtected(before: bool, turns: seq<Turn>) {
    turns == [] || (
      var front := turns[..|turns| - 1]; var last := LastProtection(front);
      && OpensProtected(before, front)
      && (turns[|turns| - 1].ByDriver? ==> if last.Some? then !last.value.ByReset? else before))
  }

  /** A valid port has reception protection, at the end and after each turn before. */
  predicate AlwaysProtected(p: Port, opmode: OpMode, group: Cipher, turns: seq<Turn>) {
    && var q := AfterAll(p, opmode, group, turns);
    && (q.valid ==> q.flags.rxProt)
    && (turns != [] ==> AlwaysProtected(p, opmode, group, turns[..|turns| - 1]))
  }

  lemma ProtectedStep(p: Port, opmode: OpMode, group: Cipher, turn: Turn)
    requires p.valid ==> p.flags.rxProt
    ensures var q := After(p, opmode, group, turn);
      (q.valid ==> q.flags.rxProt) <==> (turn.ByDriver? ==> p.flags.rxProt)
  {
  }

  lemma {:induction false} ProtectedAre(p: Port, opmode: OpMode, group: Cipher, turns: seq<Turn>)
    requires p.valid ==> p.flags.rxProt
    ensures AlwaysProtected(p, opmode, group, turns) <==> OpensProtected(p.flags.rxProt, turns)
  {
    if turns != [] {
      var front := turns[..|turns| - 1];
      ProtectedAre(p, opmode, group, front);
      ProtectionIs(p, opmode, group, front);
      if AlwaysProtected(p, opmode, group, front) {
        ProtectedStep(AfterAll(p, opmode, group, front), opmode, group, turns[|turns| - 1]);
      }
    }
  }

  /** A valid port is protected throughout a run if and only if the driver never opens it unprotected. */
  lemma ValidPortIsProtected(s: Link, events: seq<Event>)
    requires InBounds(s) && AllCallable(events) && (s.port.valid ==> s.port.flags.rxProt)
    ensures OpensProtected(s.port.flags.rxProt, Turns(s, events)) <==>
      AlwaysProtected(s.port, s.opmode, s.groupCipher, Turns(s, events))
    ensures OpensProtected(s.port.flags.rxProt, Turns(s, events)) ==>
      (Run(s, events).port.valid ==> Run(s, events).port.flags.rxProt)
  {
    PortIsTurns(s, events);
    ProtectedAre(s.port, s.opmode, s.groupCipher, Turns(s, events));
  }

  /** The link is up, no association failure is recorded and a station has adopted the group cipher. */
  predicate LinkIsUp(p: Port, opmode: OpMode, group: Cipher) {
    p.linkUp && p.assocFail == 0 && (opmode == Sta ==> p.netGroupCipher == group)
  }

  /** An accepted group key has opened the port, and the background has not written since. */
  predicate OpenedQuietly(p: Port, opmode: OpMode, turns: seq<Turn>) {
    turns != [] && !turns[|turns| - 1].ByBackground? && (
      || (Opens(p, opmode, turns) && turns[|turns| - 1].ByGroup?)
      || OpenedQuietly(p, opmode, turns[..|turns| - 1]))
  }

  lemma {:induction false} LinkIs(p: Port, opmode: OpMode, group: Cipher, turns: seq<Turn>)
    requires OpenedQuietly(p, opmode, turns)
    ensures LinkIsUp(AfterAll(p, opmode, group, turns), opmode, group)
  {
    CountIs(p, opmode, group, turns);
    if OpenedQuietly(p, opmode, turns[..|turns| - 1]) {
      LinkIs(p, opmode, group, turns[..|turns| - 1]);
    }
  }

  /** A group key that opens the port brings the link up, and it stays so until the background writes. */
  lemma OpenedLinkIsUp(s: Link, events: seq<Event>)
    requires InBounds(s) && AllCallable(events) && OpenedQuietly(s.port, s.opmode, Turns(s, events))
    ensures LinkIsUp(Run(s, events).port, s.opmode, s.groupCipher)
  {
    PortIsTurns(s, events);
    LinkIs(s.port, s.opmode, s.groupCipher, Turns(s, events));
  }

  // ---------- The keys ----------

  predicate SlotOk(k: Key, kid: nat) {
    k.cipher != NoCipher ==> k.id == kid && k.flags.group && k.len == KeyLen(k.cipher)
  }

  predicate SlotsOk(slots: seq<Key>) {
    forall kid :: 0 <= kid < |slots| ==> SlotOk(slots[kid], kid)
  }

  lemma SlotsStep(s: Link, e: Event)
    requires InBounds(s) && Callable(e) && SlotsOk(s.slots)
    ensures SlotsOk(Step(s, e).slots)
  {
    match e
    case Ptk(_, _, _) =>
    case Gtk(gtk, _, kid, rsc, answer) =>
      if Passes(s.groupCipher, e, kid) {
        OfferStep(s, e);
        NewGroupHolds(s.groupCipher, kid, rsc, gtk.value, answer);
      }
    case Traffic(_, _, _, _) =>
    case Cleared =>
    case Deleted(_, _) =>
    case Unprotected(_) =>
    case PortOpened(_) =>
    case Background(_, _, _, _) =>
  }

  /** Every slot in use keeps its own number, the group flag and the key length of its cipher. */
  lemma {:induction false} SlotsStayOk(s: Link, events: seq<Event>)
    requires InBounds(s) && AllCallable(events) && SlotsOk(s.slots)
    ensures SlotsOk(Run(s, events).slots)
  {
    if events != [] {
      var front := events[..|events| - 1];
      SlotsStayOk(s, front);
      SlotsStep(Run(s, front), events[|events| - 1]);
    }
  }

  /** The event writes the pairwise key. */
  predicate WritesPairwise(c: Cipher, e: Event) {
    (e.Ptk? && c != UseGroup && e.keyLen == KeyLen(c)) || (e.Deleted? && e.slot == None && e.zeroed)
  }

  /** The last write of the pairwise key: one offered with the right length, or a deletion that zeroes it. */
  function LastPairwise(c: Cipher, events: seq<Event>): Option<Event> {
    if events == [] then None
    else
      var e := events[|events| - 1];
      if WritesPairwise(c, e) then Some(e) else LastPairwise(c, events[..|events| - 1])
  }

  /** No frame has moved the pairwise counters since the last write of the key. */
  predicate CountersFresh(c: Cipher, events: seq<Event>) {
    events != [] && (
      var e := events[|events| - 1];
      WritesPairwise(c, e)
      || (!(e.Traffic? && e.slot == None) && CountersFresh(c, events[..|events| - 1])))
  }

  /** The key that the event leaves, up to its counters. */
  predicate IsKeyOf(k: Key, c: Cipher, e: Event)
    requires WritesPairwise(c, e) && Callable(e) && KeyInBounds(k)
  {
    if e.Deleted? then k.cipher == NoCipher && k.len == 0 && k.bytes == Zeros(KEY_BYTES)
    else k.cipher == c && k.len == KeyLen(c) && k.bytes[..k.len] == e.key[..e.keyLen]
  }

  predicate CountersZero(k: Key) {
    k.rsc == Zeros(TIDS) && k.mgmtRsc == 0 && k.tsc == 0
  }

  lemma PairwiseStep(s: Link, e: Event)
    requires InBounds(s) && Callable(e)
    ensures var k := Step(s, e).pairwise;
      if WritesPairwise(s.pairwiseCipher, e) then IsKeyOf(k, s.pairwiseCipher, e) && CountersZero(k)
      else if e.Traffic? && e.slot == None then k == Moved(s.pairwise, e.counters, e.mgmtRsc, e.tsc)
      else k == s.pairwise
  {
    match e
    case Ptk(_, _, _) =>
    case Gtk(_, _, _, _, _) =>
    case Traffic(_, _, _, _) =>
    case Cleared =>
    case Deleted(_, _) =>
    case Unprotected(_) =>
    case PortOpened(_) =>
    case Background(_, _, _, _) =>
  }

  /** The pairwise key is what its last write left, accepted or not; its counters are zero until a frame moves them. */
  lemma {:induction false} PairwiseIsLastOffered(s: Link, events: seq<Event>)
    requires InBounds(s) && AllCallable(events)
    ensures var k := Run(s, events).pairwise; var last := LastPairwise(s.pairwiseCipher, events);
      if last.None? then k.cipher == s.pairwise.cipher && k.len == s.pairwise.len && k.bytes == s.pairwise.bytes
      else
        && WritesPairwise(s.pairwiseCipher, last.value) && Callable(last.value)
        && IsKeyOf(k, s.pairwiseCipher, last.value)
    ensures CountersFresh(s.pairwiseCipher, events) ==> CountersZero(Run(s, events).pairwise)
  {
    if events != [] {
      var front := events[..|events| - 1];
      PairwiseIsLastOffered(s, front);
      CiphersStay(s, front);
      PairwiseStep(Run(s, front), events[|events| - 1]);
    }
  }

  /** The counter of a new group key determines the six bytes it was read from. */
  lemma CounterIsInjective(p: seq<u8>, q: seq<u8>)
    requires |p| >= 6 && |q| >= 6 && ReadCounter(p) == ReadCounter(q)
    ensures p[..6] == q[..6]
  {
    SameLowByte(p[0], p[1] + 0x100 * (p[2] + 0x100 * (p[3] + 0x100 * (p[4] + 0x100 * p[5] as int))),
      q[0], q[1] + 0x100 * (q[2] + 0x100 * (q[3] + 0x100 * (q[4] + 0x100 * q[5] as int))));
    SameLowByte(p[1], p[2] + 0x100 * (p[3] + 0x100 * (p[4] + 0x100 * p[5] as int)),
      q[1], q[2] + 0x100 * (q[3] + 0x100 * (q[4] + 0x100 * q[5] as int)));
    SameLowByte(p[2], p[3] + 0x100 * (p[4] + 0x100 * p[5] as int), q[2], q[3] + 0x100 * (q[4] + 0x100 * q[5] as int));
    SameLowByte(p[3], p[4] + 0x100 * p[5] as int, q[3], q[4] + 0x100 * q[5] as int);
    SameLowByte(p[4], p[5], q[4], q[5]);
  }

  lemma SameLowByte(a: u8, r: int, b: u8, t: int)
    requires a + 0x100 * r == b + 0x100 * t
    ensures a == b && r == t
  {
  }

  // ---------- Runs that end with a valid port and no key in the hardware ----------

  /** A node after the pairwise handshake, with no group key yet. */
  const NO_GROUP_KEY: Link := Link(Ccmp, Ccmp, Sta, true, ZERO_KEY, EmptySlots(), CLOSED, [])

  function GroupKey(code: int): Event {
    Gtk(Some(Zeros(16)), 16, 1, Zeros(8), Answer(code, false))
  }

  const KEY: seq<u8> := Zeros(16)

  /** Events that each leave one mark on slot 1. */
  lemma {:induction false} HistoryIs(events: seq<Event>, marks: seq<Mark>)
    requires AllCallable(events) && |marks| == |events|
    requires forall i :: 0 <= i < |events| ==> MarkOf(Ccmp, events[i], 1) == [marks[i]]
    ensures History(Ccmp, events, 1) == marks
  {
    if events != [] {
      HistoryIs(events[..|events| - 1], marks[..|marks| - 1]);
    }
  }

  lemma GroupKeyIs(code: int)
    ensures Callable(GroupKey(code)) && MarkOf(Ccmp, GroupKey(code), 1) == [Offer(KEY, code)]
  {
    assert KEY[..16] == KEY;
  }

  /** A group key opens the port of the node if it is granted, or if the slot's history has left it there. */
  lemma GroupKeyOpens(events: seq<Event>, code: int)
    requires AllCallable(events)
    requires code == 0 || code == EBUSY || LastKey(None, History(Ccmp, events, 1)) == Some(KEY)
    ensures AllCallable(events + [GroupKey(code)]) && Run(NO_GROUP_KEY, events + [GroupKey(code)]).port.valid
  {
    var e := GroupKey(code);
    assert (events + [e])[..|events|] == events;
    GroupKeyIs(code);
    AcceptedFromHistory(NO_GROUP_KEY, events, e);
    CiphersStay(NO_GROUP_KEY, events);
    TurnStep(Run(NO_GROUP_KEY, events), e);
  }

  /** The port is valid while slot 1 of the hardware holds no key. */
  predicate OpenWithoutKey(events: seq<Event>, busy: bool)
    requires AllCallable(events)
  {
    var t := Run(NO_GROUP_KEY, events);
    t.port.valid && InHardware(Asked(t.calls, 1), busy) == None
  }

  lemma EndsOpen(front: seq<Event>, code: int, marks: seq<Mark>, busy: bool)
    requires AllCallable(front) && History(Ccmp, front, 1) == marks
    requires code == 0 || code == EBUSY || LastKey(None, marks) == Some(KEY)
    ensures AllCallable(front + [GroupKey(code)])
    ensures var t := Run(NO_GROUP_KEY, front + [GroupKey(code)]);
      && t.port.valid
      && InHardware(Asked(t.calls, 1), busy) == InHardware(Changed(None, false, marks + [Offer(KEY, code)]), busy)
  {
    var events := front + [GroupKey(code)];
    assert events[..|front|] == front;
    GroupKeyIs(code);
    GroupKeyOpens(front, code);
    SlotIsLastAsked(NO_GROUP_KEY, events, 1);
  }

  lemma ChangedSnoc(marks: seq<Mark>, m: Mark)
    ensures Changed(None, false, marks + [m])
         == Changed(None, false, marks) + AsksFor(LastKey(None, marks), Occupied(false, marks), m)
  {
    assert (marks + [m])[..|marks|] == marks;
  }

  lemma HardwareSnoc(asked: seq<Mark>, m: Mark, busy: bool)
    ensures InHardware(asked + [m], busy)
         == if Granted(m, busy) then Some(m.key) else if m.Offer? then InHardware(asked, busy) else None
  {
    assert (asked + [m])[..|asked|] == asked;
  }

  /** Refused at first, the key is not asked for again. */
  lemma RefusedTwice(marks: seq<Mark>, busy: bool)
    requires LastKey(None, marks) == None && InHardware(Changed(None, false, marks), busy) == None
    ensures var once := marks + [Offer(KEY, 5)];
      && LastKey(None, once) == Some(KEY)
      && InHardware(Changed(None, false, once + [Offer(KEY, 5)]), busy) == None
  {
    var once := marks + [Offer(KEY, 5)];
    ChangedSnoc(marks, Offer(KEY, 5));
    ChangedSnoc(once, Offer(KEY, 5));
    HardwareSnoc(Changed(None, false, marks), Offer(KEY, 5), busy);
    assert Changed(None, false, once) + [] == Changed(None, false, once);
  }

  /** A refused key, offered again, is taken for installed. */
  lemma RefusedThenRepeated(busy: bool)
    ensures var events := [GroupKey(5)] + [GroupKey(5)];
      AllCallable(events) && OpenWithoutKey(events, busy)
  {
    GroupKeyIs(5);
    HistoryIs([GroupKey(5)], [Offer(KEY, 5)]);
    RefusedTwice([], busy);
    assert [] + [Offer(KEY, 5)] == [Offer(KEY, 5)];
    EndsOpen([GroupKey(5)], 5, [Offer(KEY, 5)], busy);
  }

  /** So it is after a clearing that has deleted the same key, granted before. */
  lemma ClearedThenRefused(busy: bool)
    ensures var events := [GroupKey(0), Cleared, GroupKey(5)] + [GroupKey(5)];
      AllCallable(events) && OpenWithoutKey(events, busy)
  {
    var marks := [Offer(KEY, 0), Clear];
    GroupKeyIs(0);
    GroupKeyIs(5);
    HistoryIs([GroupKey(0), Cleared, GroupKey(5)], marks + [Offer(KEY, 5)]);
    ChangedSnoc([Offer(KEY, 0)], Clear);
    HardwareSnoc(Changed(None, false, [Offer(KEY, 0)]), Delete(true), busy);
    assert [Offer(KEY, 0)] + [Clear] == marks;
    RefusedTwice(marks, busy);
    EndsOpen([GroupKey(0), Cleared, GroupKey(5)], 5, marks + [Offer(KEY, 5)], busy);
  }

  lemma FirstOffer(code: int, busy: bool)
    ensures InHardware(Changed(None, false, [Offer(KEY, code)]), busy)
         == if Granted(Offer(KEY, code), busy) then Some(KEY) else None
  {
    ChangedSnoc([], Offer(KEY, code));
    HardwareSnoc([], Offer(KEY, code), busy);
    assert [] + [Offer(KEY, code)] == [Offer(KEY, code)];
  }

  /** An answer of EBUSY makes the port valid while the key has not been sent to the hardware yet. */
  lemma BusyBeforeInstalled()
    ensures var events := [GroupKey(EBUSY)];
      && AllCallable(events) && OpenWithoutKey(events, false)
      && InHardware(Asked(Run(NO_GROUP_KEY, events).calls, 1), true) == Some(KEY)
  {
    assert [] + [GroupKey(EBUSY)] == [GroupKey(EBUSY)] && [] + [Offer(KEY, EBUSY)] == [Offer(KEY, EBUSY)];
    EndsOpen([], EBUSY, [], false);
    EndsOpen([], EBUSY, [], true);
    FirstOffer(EBUSY, false);
    FirstOffer(EBUSY, true);
  }
}
