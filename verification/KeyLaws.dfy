/** Laws of the group-key slots, and of what the hardware holds, over any sequence of events. */
module KeyLaws {
  import opened MachineTypes
  import opened KeyInstall

  // ---------- What a slot goes through ----------

  /** A key offered to the slot with the driver's answer, a clearing of all slots, or a deletion of this slot's key. */
  datatype Mark = Offer(key: seq<u8>, code: int) | Clear | Delete(zeroed: bool)

  /** A group-key event for slot kid that passes the length check. */
  predicate Passes(g: Cipher, e: Event, kid: nat) {
    e.Gtk? && e.kid == kid && e.gtk.Some? && e.keyLen == KeyLen(g)
  }

  /** What an event means to slot kid. */
  function MarkOf(g: Cipher, e: Event, kid: nat): (m: seq<Mark>)
    requires Callable(e)
    ensures |m| <= 1
  {
    match e
    case Gtk(_, _, _, _, answer) =>
      if Passes(g, e, kid) then [Offer(e.gtk.value[..KeyLen(g)], answer.code)] else []
    case Cleared => [Clear]
    case Deleted(slot, zeroed) => if slot == Some(kid) then [Delete(zeroed)] else []
    case _ => []
  }

  /** The history of slot kid: offers, clearings and deletions, in order. */
  function History(g: Cipher, events: seq<Event>, kid: nat): seq<Mark>
    requires AllCallable(events)
  {
    if events == [] then []
    else History(g, events[..|events| - 1], kid) + MarkOf(g, events[|events| - 1], kid)
  }

  function KeyBytes(k: Key): seq<u8> {
    if k.len <= |k.bytes| then k.bytes[..k.len] else k.bytes
  }

  function AskOf(c: Call, kid: nat): seq<Mark> {
    match c
    case GroupCall(k, key, code) => if k == kid then [Offer(KeyBytes(key), code)] else []
    case GroupDelete(k, zeroed) => if k == kid then [Delete(zeroed)] else []
    case GroupDeletes(used) => if kid < |used| && used[kid] then [Delete(true)] else []
    case _ => []
  }

  /** What the driver was asked about slot kid: keys to install, with its answers, and deletions. */
  function Asked(calls: seq<Call>, kid: nat): seq<Mark> {
    if calls == [] then []
    else Asked(calls[..|calls| - 1], kid) + AskOf(calls[|calls| - 1], kid)
  }

  lemma AskedSnoc(calls: seq<Call>, c: Call, kid: nat)
    ensures Asked(calls + [c], kid) == Asked(calls, kid) + AskOf(c, kid)
  {
    assert (calls + [c])[..|calls|] == calls;
  }

  // ---------- A slot as its history sees it ----------

  /** The key the slot holds for the group cipher, whether it is in use, and what the driver was asked. */
  datatype View = View(held: Option<seq<u8>>, used: bool, asked: seq<Mark>)

  /** The key a slot already holds for the node's group cipher. */
  function Held(k: Key, g: Cipher): Option<seq<u8>>
    requires KeyInBounds(k)
  {
    if k.cipher == NoCipher || k.len != KeyLen(g) then None else Some(k.bytes[..k.len])
  }

  function ViewOf(s: Link, kid: nat): View
    requires InBounds(s) && kid < GROUP_SLOTS
  {
    View(Held(s.slots[kid], s.groupCipher), s.slots[kid].cipher != NoCipher, Asked(s.calls, kid))
  }

  /** What an entry of the history asks for: the key unless it is held, the deletion of a key in use, the deletion. */
  function AsksFor(held: Option<seq<u8>>, used: bool, m: Mark): seq<Mark> {
    match m
    case Offer(key, _) => if held == Some(key) then [] else [m]
    case Clear => if used then [Delete(true)] else []
    case Delete(_) => [m]
  }

  function Apply(g: Cipher, v: View, m: Mark): View {
    var asked := v.asked + AsksFor(v.held, v.used, m);
    match m
    case Offer(key, _) =>
      if v.held == Some(key) then v else View(if g == NoCipher then None else Some(key), g != NoCipher, asked)
    case Clear => View(None, false, asked)
    case Delete(zeroed) => if zeroed then View(None, false, asked) else View(v.held, v.used, asked)
  }

  function ApplyAll(g: Cipher, v: View, marks: seq<Mark>): View {
    if marks == [] then v
    else Apply(g, ApplyAll(g, v, marks[..|marks| - 1]), marks[|marks| - 1])
  }

  lemma ApplySnoc(g: Cipher, v: View, marks: seq<Mark>, m: Mark)
    ensures ApplyAll(g, v, marks + [m]) == Apply(g, ApplyAll(g, v, marks), m)
  {
    assert (marks + [m])[..|marks|] == marks;
  }

  lemma ApplyOne(g: Cipher, v: View, m: Mark)
    ensures ApplyAll(g, v, [m]) == Apply(g, v, m)
  {
    assert [m][..0] == [];
  }

  lemma NewGroupHolds(c: Cipher, kid: u8, rsc: seq<u8>, gtk: seq<u8>, a: Answer)
    requires KeyLen(c) <= |gtk| && |rsc| >= 6
    ensures var k := Marked(NewGroup(c, kid, rsc, gtk), a);
      k.cipher == c && k.len == KeyLen(c) && k.id == kid && k.flags.group && k.bytes[..k.len] == gtk[..k.len]
    ensures KeyBytes(NewGroup(c, kid, rsc, gtk)) == gtk[..KeyLen(c)]
  {
  }

  /** The slot and the calls after a group key that passes the length check. */
  lemma OfferStep(s: Link, e: Event)
    requires InBounds(s) && Callable(e) && e.Gtk? && Passes(s.groupCipher, e, e.kid)
    ensures var t := Step(s, e); var g := s.groupCipher;
      if Held(s.slots[e.kid], g) == Some(e.gtk.value[..KeyLen(g)]) then t.slots == s.slots && t.calls == s.calls
      else
        var k := NewGroup(g, e.kid, e.rsc, e.gtk.value);
        && t.slots == s.slots[e.kid := Marked(k, e.answer)]
        && t.calls == s.calls + [GroupCall(e.kid, k, e.answer.code)]
  {
  }

  lemma OfferView(s: Link, e: Event, kid: nat)
    requires InBounds(s) && Callable(e) && e.Gtk? && Passes(s.groupCipher, e, e.kid) && kid < GROUP_SLOTS
    ensures ViewOf(Step(s, e), kid) == ApplyAll(s.groupCipher, ViewOf(s, kid), MarkOf(s.groupCipher, e, kid))
  {
    var g := s.groupCipher;
    var k := NewGroup(g, e.kid, e.rsc, e.gtk.value);
    OfferStep(s, e);
    NewGroupHolds(g, e.kid, e.rsc, e.gtk.value, e.answer);
    AskedSnoc(s.calls, GroupCall(e.kid, k, e.answer.code), kid);
    if e.kid == kid {
      ApplyOne(g, ViewOf(s, kid), MarkOf(g, e, kid)[0]);
    }
  }

  lemma Associates(a: seq<Mark>, b: seq<Mark>, c: seq<Mark>)
    ensures a + b + c == a + (b + c)
  {
  }

  lemma ClearView(s: Link, kid: nat)
    requires InBounds(s) && kid < GROUP_SLOTS
    ensures ViewOf(Step(s, Cleared), kid) == Apply(s.groupCipher, ViewOf(s, kid), Clear)
  {
    var t := Step(s, Cleared);
    assert t.slots[kid] == ZERO_KEY;
    AskedSnoc(s.calls, GroupDeletes(InUse(s.slots)), kid);
  }

  lemma DeleteView(s: Link, kid: nat, zeroed: bool)
    requires InBounds(s) && kid < GROUP_SLOTS
    ensures ViewOf(AfterDelete(s, Some(kid), zeroed), kid) == Apply(s.groupCipher, ViewOf(s, kid), Delete(zeroed))
  {
    AskedSnoc(s.calls, GroupDelete(kid, zeroed), kid);
    if zeroed {
      assert AfterDelete(s, Some(kid), zeroed).slots[kid] == ZERO_KEY;
    } else {
      assert AfterDelete(s, Some(kid), zeroed).slots[kid] == s.slots[kid];
    }
  }

  lemma OtherDeleteView(s: Link, slot: Option<nat>, zeroed: bool, kid: nat)
    requires InBounds(s) && (slot.Some? ==> slot.value < GROUP_SLOTS) && kid < GROUP_SLOTS && slot != Some(kid)
    ensures ViewOf(AfterDelete(s, slot, zeroed), kid) == ViewOf(s, kid)
  {
    AskedSnoc(s.calls, if slot.None? then PairwiseDelete(zeroed) else GroupDelete(slot.value, zeroed), kid);
  }

  lemma PtkView(s: Link, e: Event, kid: nat)
    requires InBounds(s) && Callable(e) && e.Ptk? && kid < GROUP_SLOTS
    ensures ViewOf(Step(s, e), kid) == ViewOf(s, kid)
  {
    if s.pairwiseCipher != UseGroup && e.keyLen == KeyLen(s.pairwiseCipher) {
      AskedSnoc(s.calls, PairwiseCall(NewPairwise(s.pairwiseCipher, e.key), e.answer.code), kid);
    }
  }

  /** Every event moves the view of a slot as its entry in the slot's history says. */
  lemma ViewStep(s: Link, e: Event, kid: nat)
    requires InBounds(s) && Callable(e) && kid < GROUP_SLOTS
    ensures ViewOf(Step(s, e), kid) == ApplyAll(s.groupCipher, ViewOf(s, kid), MarkOf(s.groupCipher, e, kid))
  {
    match e
    case Ptk(_, _, _) => PtkView(s, e, kid);
    case Gtk(_, _, _, _, _) => if Passes(s.groupCipher, e, e.kid) { OfferView(s, e, kid); }
    case Traffic(_, _, _, _) =>
    case Cleared =>
      ClearView(s, kid);
      ApplyOne(s.groupCipher, ViewOf(s, kid), Clear);
    case Deleted(slot, zeroed) =>
      if slot == Some(kid) {
        DeleteView(s, kid, zeroed);
        ApplyOne(s.groupCipher, ViewOf(s, kid), Delete(zeroed));
      } else {
        OtherDeleteView(s, slot, zeroed, kid);
      }
    case Unprotected(_) =>
    case PortOpened(_) =>
    case Background(_, _, _, _) =>
  }

  lemma {:induction false} CiphersStay(s: Link, events: seq<Event>)
    requires InBounds(s) && AllCallable(events)
    ensures SameNode(s, Run(s, events))
  {
    if events != [] {
      CiphersStay(s, events[..|events| - 1]);
    }
  }

  lemma ApplyStep(g: Cipher, v: View, marks: seq<Mark>, m: seq<Mark>)
    requires |m| <= 1
    ensures ApplyAll(g, v, marks + m) == ApplyAll(g, ApplyAll(g, v, marks), m)
  {
    var w := ApplyAll(g, v, marks);
    if m == [] {
      assert marks + m == marks;
    } else {
      assert m == [m[0]];
      ApplySnoc(g, v, marks, m[0]);
      ApplyOne(g, w, m[0]);
    }
  }

  lemma {:induction false} ViewIsHistory(s: Link, events: seq<Event>, kid: nat)
    requires InBounds(s) && AllCallable(events) && kid < GROUP_SLOTS
    ensures ViewOf(Run(s, events), kid)
         == ApplyAll(s.groupCipher, ViewOf(s, kid), History(s.groupCipher, events, kid))
  {
    if events != [] {
      var front, e := events[..|events| - 1], events[|events| - 1];
      ViewIsHistory(s, front, kid);
      CiphersStay(s, front);
      ViewStep(Run(s, front), e, kid);
      var g := s.groupCipher;
      ApplyStep(g, ViewOf(s, kid), History(g, front, kid), MarkOf(g, e, kid));
    }
  }

  // ---------- Group-key deduplication ----------

  /** The key that a history leaves in the slot: the last one offered, unless the slot was emptied since. */
  function LastKey(before: Option<seq<u8>>, marks: seq<Mark>): Option<seq<u8>> {
    if marks == [] then before
    else
      match marks[|marks| - 1]
      case Offer(key, _) => Some(key)
      case Clear => None
      case Delete(zeroed) => if zeroed then None else LastKey(before, marks[..|marks| - 1])
  }

  /** The slot is in use after this history. */
  predicate Occupied(before: bool, marks: seq<Mark>) {
    if marks == [] then before
    else
      match marks[|marks| - 1]
      case Offer(_, _) => true
      case Clear => false
      case Delete(zeroed) => !zeroed && Occupied(before, marks[..|marks| - 1])
  }

  /** What a history asks for. */
  function Changed(held: Option<seq<u8>>, used: bool, marks: seq<Mark>): seq<Mark> {
    if marks == [] then []
    else
      var front := marks[..|marks| - 1];
      Changed(held, used, front) + AsksFor(LastKey(held, front), Occupied(used, front), marks[|marks| - 1])
  }

  lemma {:induction false} ApplyIsChanges(g: Cipher, v: View, marks: seq<Mark>)
    requires g != NoCipher && (v.held.Some? ==> v.used)
    ensures var w := ApplyAll(g, v, marks);
      && w.held == LastKey(v.held, marks) && w.used == Occupied(v.used, marks) && (w.held.Some? ==> w.used)
      && w.asked == v.asked + Changed(v.held, v.used, marks)
  {
    if marks != [] {
      var front, m := marks[..|marks| - 1], marks[|marks| - 1];
      ApplyIsChanges(g, v, front);
      var w := ApplyAll(g, v, front);
      Associates(v.asked, Changed(v.held, v.used, front), AsksFor(w.held, w.used, m));
    }
  }

  /**
   * With a real group cipher, the driver is asked, in order, exactly for those
   * keys that differ from the one left in the slot by the offers, clearings and
   * deletions before, and to delete the key of each used slot that is cleared.
   */
  lemma InstallsAreChanges(s: Link, events: seq<Event>, kid: nat)
    requires InBounds(s) && AllCallable(events) && kid < GROUP_SLOTS && s.groupCipher != NoCipher
    ensures var v, t := ViewOf(s, kid), Run(s, events); var marks := History(s.groupCipher, events, kid);
      && Held(t.slots[kid], t.groupCipher) == LastKey(v.held, marks)
      && (t.slots[kid].cipher != NoCipher <==> Occupied(v.used, marks))
      && Asked(t.calls, kid) == Asked(s.calls, kid) + Changed(v.held, v.used, marks)
  {
    ViewIsHistory(s, events, kid);
    ApplyIsChanges(s.groupCipher, ViewOf(s, kid), History(s.groupCipher, events, kid));
  }

  /** A history without its clearings: on an empty slot they delete nothing. */
  function Unfiltered(marks: seq<Mark>): seq<Mark> {
    if marks == [] then []
    else Unfiltered(marks[..|marks| - 1]) + if marks[|marks| - 1].Clear? then [] else [marks[|marks| - 1]]
  }

  lemma {:induction false} ApplyWithoutCipher(v: View, marks: seq<Mark>)
    requires v.held == None && !v.used
    ensures ApplyAll(NoCipher, v, marks) == View(None, false, v.asked + Unfiltered(marks))
  {
    if marks != [] {
      ApplyWithoutCipher(v, marks[..|marks| - 1]);
    }
  }

  /** Without a group cipher the slot stays empty and nothing is deduplicated. */
  lemma NoCipherAlwaysInstalls(s: Link, events: seq<Event>, kid: nat)
    requires InBounds(s) && AllCallable(events) && kid < GROUP_SLOTS
    requires s.groupCipher == NoCipher && s.slots[kid].cipher == NoCipher
    ensures var t := Run(s, events);
      && t.slots[kid].cipher == NoCipher
      && Asked(t.calls, kid) == Asked(s.calls, kid) + Unfiltered(History(NoCipher, events, kid))
  {
    ViewIsHistory(s, events, kid);
    ApplyWithoutCipher(ViewOf(s, kid), History(NoCipher, events, kid));
  }

  /**
   * Repeating a group key that the events between have left in its slot touches
   * no slot, so a receive counter advanced in between is not wound back.
   */
  lemma RepeatKeepsCounters(s: Link, first: Event, between: seq<Event>, again: Event)
    requires InBounds(s) && Callable(first) && AllCallable(between) && Callable(again)
    requires s.groupCipher != NoCipher && first.Gtk? && again.Gtk?
    requires Passes(s.groupCipher, first, first.kid) && Passes(s.groupCipher, again, first.kid)
    requires var key := first.gtk.value[..KeyLen(s.groupCipher)];
      && again.gtk.value[..KeyLen(s.groupCipher)] == key
      && LastKey(Some(key), History(s.groupCipher, between, first.kid)) == Some(key)
    ensures var t := Run(Step(s, first), between);
      Step(t, again).slots == t.slots && Step(t, again).calls == t.calls
  {
    InstallsAreChanges(s, [first], first.kid);
    var marks := [Offer(first.gtk.value[..KeyLen(s.groupCipher)], first.answer.code)];
    assert [first][..0] == [];
    assert History(s.groupCipher, [first], first.kid) == marks;
    assert Run(s, [first]) == Step(s, first);
    InstallsAreChanges(Step(s, first), between, first.kid);
    CiphersStay(Step(s, first), between);
    OfferStep(Run(Step(s, first), between), again);
  }

  // ---------- What the hardware holds ----------

  /** The driver granted the offer; `busy` says whether an EBUSY, given before the key is sent, counts as granted. */
  predicate Granted(m: Mark, busy: bool) {
    m.Offer? && (m.code == 0 || (busy && m.code == EBUSY))
  }

  /** The group key for slot kid in the hardware: the last one granted, unless it was deleted since. */
  function InHardware(asked: seq<Mark>, busy: bool): Option<seq<u8>> {
    if asked == [] then None
    else
      var m := asked[|asked| - 1];
      if Granted(m, busy) then Some(m.key)
      else if m.Offer? then InHardware(asked[..|asked| - 1], busy) else None
  }

  /** The key was granted at position k, and since then every offer was refused and no deletion asked for. */
  predicate LastsFrom(asked: seq<Mark>, k: int, key: seq<u8>, busy: bool)
    requires 0 <= k < |asked|
  {
    && Granted(asked[k], busy) && asked[k].key == key
    && forall j :: k < j < |asked| ==> asked[j].Offer? && !Granted(asked[j], busy)
  }

  lemma {:induction false} InHardwareIs(asked: seq<Mark>, busy: bool, key: seq<u8>)
    ensures InHardware(asked, busy) == Some(key) <==> exists k :: 0 <= k < |asked| && LastsFrom(asked, k, key, busy)
  {
    if asked != [] {
      var n := |asked| - 1;
      var front := asked[..n];
      InHardwareIs(front, busy, key);
      if Granted(asked[n], busy) {
        assert LastsFrom(asked, n, asked[n].key, busy);
      } else if asked[n].Offer? {
        LastsInFront(asked, key, busy);
      }
    }
  }

  lemma LastsInFront(asked: seq<Mark>, key: seq<u8>, busy: bool)
    requires asked != [] && asked[|asked| - 1].Offer? && !Granted(asked[|asked| - 1], busy)
    ensures var front := asked[..|asked| - 1];
      (exists k :: 0 <= k < |asked| && LastsFrom(asked, k, key, busy))
      <==> exists k :: 0 <= k < |front| && LastsFrom(front, k, key, busy)
  {
    var n := |asked| - 1;
    var front := asked[..n];
    forall k | 0 <= k < n ensures LastsFrom(asked, k, key, busy) <==> LastsFrom(front, k, key, busy) {
      assert forall j :: k <= j < n ==> asked[j] == front[j];
    }
    assert !LastsFrom(asked, n, key, busy);
  }

  lemma LastKeySnoc(before: Option<seq<u8>>, marks: seq<Mark>, m: Mark)
    ensures LastKey(before, marks + [m]) ==
      match m
      case Offer(key, _) => Some(key)
      case Clear => None
      case Delete(zeroed) => if zeroed then None else LastKey(before, marks)
  {
    assert (marks + [m])[..|marks|] == marks;
  }

  lemma {:induction false} LastChangeIsLastMark(marks: seq<Mark>)
    ensures LastKey(None, Changed(None, false, marks)) == LastKey(None, marks)
    ensures LastKey(None, marks).Some? ==> Occupied(false, marks)
  {
    if marks != [] {
      var front, m := marks[..|marks| - 1], marks[|marks| - 1];
      LastChangeIsLastMark(front);
      LastKeySnoc(None, Changed(None, false, front), if m.Clear? then Delete(true) else m);
      assert Changed(None, false, front) + [] == Changed(None, false, front);
    }
  }

  /** A slot that starts empty holds, after any run, exactly what the last key or deletion asked for left in it. */
  lemma SlotIsLastAsked(s: Link, events: seq<Event>, kid: nat)
    requires InBounds(s) && AllCallable(events) && kid < GROUP_SLOTS && s.groupCipher != NoCipher
    requires s.slots[kid].cipher == NoCipher && Asked(s.calls, kid) == []
    ensures var t := Run(s, events);
      && Asked(t.calls, kid) == Changed(None, false, History(s.groupCipher, events, kid))
      && Held(t.slots[kid], t.groupCipher) == LastKey(None, Asked(t.calls, kid))
  {
    InstallsAreChanges(s, events, kid);
    LastChangeIsLastMark(History(s.groupCipher, events, kid));
  }

  /**
   * Over any run from an empty slot, a group key is in the hardware if and only
   * if some offer of it was asked for and granted, and everything asked since then
   * was an offer and was refused: a condition on offers, answers, clearings and
   * deletions alone.
   */
  lemma KeyIsInHardware(s: Link, events: seq<Event>, kid: nat, key: seq<u8>, busy: bool)
    requires InBounds(s) && AllCallable(events) && kid < GROUP_SLOTS && s.groupCipher != NoCipher
    requires s.slots[kid].cipher == NoCipher && Asked(s.calls, kid) == []
    ensures var asked := Changed(None, false, History(s.groupCipher, events, kid));
      InHardware(Asked(Run(s, events).calls, kid), busy) == Some(key)
      <==> exists k :: 0 <= k < |asked| && LastsFrom(asked, k, key, busy)
  {
    SlotIsLastAsked(s, events, kid);
    InHardwareIs(Changed(None, false, History(s.groupCipher, events, kid)), busy, key);
  }
}
