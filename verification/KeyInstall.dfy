/** Installing the pairwise and group keys at the end of the handshakes (`setPTK`, `setGTK`). */
module KeyInstall {
  import opened MachineTypes

  const GROUP_SLOTS := 6   // IEEE80211_GROUP_NKID
  const TIDS := 16         // IEEE80211_NUM_TID
  const KEY_BYTES := 32

  /** `ni_flags`: the three bits these operations write, and the value of all the others. */
  datatype NodeFlags = NodeFlags(rxProt: bool, txProt: bool, newPtk: bool, others: u32)

  /** `k_flags`. */
  datatype KeyFlags = KeyFlags(group: bool, tx: bool, igtk: bool, software: bool)

  const NO_FLAGS: KeyFlags := KeyFlags(false, false, false, false)
  const GROUP_KEY: KeyFlags := KeyFlags(true, false, false, false)

  datatype Cipher = NoCipher | UseGroup | Wep40 | Tkip | Ccmp | Wep104 | Bip

  function KeyLen(c: Cipher): (n: nat)
    ensures n <= KEY_BYTES
  {
    match c
    case Wep40 => 5
    case Tkip => 32
    case Ccmp => 16
    case Wep104 => 13
    case Bip => 16
    case _ => 0
  }

  datatype OpMode = Sta | Ibss | AhDemo | HostAp | Monitor

  /** `struct ieee80211_key`. */
  datatype Key = Key(
    id: u8, cipher: Cipher, flags: KeyFlags, len: nat, rsc: seq<u64>, mgmtRsc: u64, tsc: u64, bytes: seq<u8>)

  const ZERO_KEY: Key := Key(0, NoCipher, NO_FLAGS, 0, Zeros(TIDS), 0, 0, Zeros(KEY_BYTES))

  predicate KeyInBounds(k: Key) {
    |k.rsc| == TIDS && |k.bytes| == KEY_BYTES && k.len <= KEY_BYTES
  }

  /** The driver's answer to `ic_set_key`; a software key is marked in the key itself. */
  datatype Answer = Answer(code: int, software: bool) {
    predicate Ok() {
      code == 0 || code == EBUSY
    }
  }

  const EBUSY := 16

  /**
   * A call of `ic_set_key`, with the code it answered; of `ic_delete_key`, with
   * what it left of the key; or one of it for each group slot that is in use.
   */
  datatype Call =
    | PairwiseCall(key: Key, code: int)
    | GroupCall(kid: nat, key: Key, code: int)
    | PairwiseDelete(zeroed: bool)
    | GroupDelete(kid: nat, zeroed: bool)
    | GroupDeletes(used: seq<bool>)

  /** Protection, port and link: the fields beside the keys that the two operations write. */
  datatype Port = Port(
    flags: NodeFlags, valid: bool, linkUp: bool, assocFail: u32, keyCount: u8, netGroupCipher: Cipher)

  const CLOSED: Port := Port(NodeFlags(false, false, false, 0), false, false, 0, 0, NoCipher)

  /** The part of the node and the controller state that the two operations touch. */
  datatype Link = Link(
    pairwiseCipher: Cipher, groupCipher: Cipher, opmode: OpMode,
    ptkDone: bool, pairwise: Key, slots: seq<Key>, port: Port, calls: seq<Call>)

  predicate KeysInBounds(slots: seq<Key>) {
    |slots| == GROUP_SLOTS && forall i :: 0 <= i < GROUP_SLOTS ==> KeyInBounds(slots[i])
  }

  predicate InBounds(s: Link) {
    KeysInBounds(s.slots) && KeyInBounds(s.pairwise)
  }

  /** The ciphers and the mode, which no event changes. */
  predicate SameNode(s: Link, t: Link) {
    t.groupCipher == s.groupCipher && t.pairwiseCipher == s.pairwiseCipher && t.opmode == s.opmode
  }

  /** The two operations, and what net80211 and the hardware driver do to the same state between them. */
  datatype Event =
    | Ptk(key: seq<u8>, keyLen: nat, answer: Answer)
    | Gtk(gtk: Option<seq<u8>>, keyLen: nat, kid: nat, rsc: seq<u8>, answer: Answer)
    | Traffic(slot: Option<nat>, counters: seq<u64>, mgmtRsc: u64, tsc: u64)   // frames move the counters of a key
    | Cleared                                                           // ieee80211_crypto_clear_groupkeys
    | Deleted(slot: Option<nat>, zeroed: bool)                          // ic_delete_key of one key
    | Unprotected(others: u32)                                          // authentication, or a driver leaving a BSS
    | PortOpened(others: u32)                                           // the key task of if_iwx.c is through
    | Background(ptkDone: bool, linkUp: bool, assocFail: u32, netGroupCipher: Cipher)   // the other fields

  /** What the operations ask of their callers: readable buffers of the announced size and an existing slot. */
  predicate Callable(e: Event) {
    match e
    case Ptk(key, keyLen, _) => keyLen <= |key|
    case Gtk(gtk, keyLen, kid, rsc, _) => kid < GROUP_SLOTS && |rsc| >= 6 && (gtk.Some? ==> keyLen <= |gtk.value|)
    case Traffic(slot, counters, _, _) => (slot.Some? ==> slot.value < GROUP_SLOTS) && |counters| == TIDS
    case Deleted(slot, _) => slot.Some? ==> slot.value < GROUP_SLOTS
    case _ => true
  }

  /** `LE_READ_6`. */
  function ReadCounter(p: seq<u8>): u64
    requires |p| >= 6
  {
    var b := (i: int) requires 0 <= i < 6 => p[i] as int;
    b(0) + 0x100 * b(1) + 0x1_0000 * b(2) + 0x100_0000 * b(3) + 0x1_0000_0000 * b(4) + 0x100_0000_0000 * b(5)
  }

  function Marked(k: Key, a: Answer): Key {
    if a.software then k.(flags := k.flags.(software := true)) else k
  }

  function NewPairwise(c: Cipher, key: seq<u8>): Key
    requires KeyLen(c) <= |key|
  {
    Key(0, c, NO_FLAGS, KeyLen(c), Zeros(TIDS), 0, 0, Padded(key[..KeyLen(c)], KEY_BYTES))
  }

  function NewGroup(c: Cipher, kid: u8, rsc: seq<u8>, gtk: seq<u8>): Key
    requires KeyLen(c) <= |gtk| && |rsc| >= 6
  {
    Key(kid, c, GROUP_KEY, KeyLen(c), [ReadCounter(rsc)] + Zeros(TIDS - 1), 0, 0, Padded(gtk[..KeyLen(c)], KEY_BYTES))
  }

  /** The end of `setPTK`. */
  function PairwiseAccepted(p: Port): Port {
    p.(flags := p.flags.(newPtk := false, txProt := false, rxProt := true))
  }

  function AfterPtk(s: Link, key: seq<u8>, keyLen: nat, a: Answer): (t: Link)
    requires InBounds(s) && keyLen <= |key|
    ensures InBounds(t) && SameNode(s, t)
  {
    var t := s.(ptkDone := true);
    if s.pairwiseCipher == UseGroup || keyLen != KeyLen(s.pairwiseCipher) then t
    else
      var k := NewPairwise(s.pairwiseCipher, key);
      var u := t.(pairwise := Marked(k, a), calls := t.calls + [PairwiseCall(k, a.code)]);
      if a.Ok() then u.(port := PairwiseAccepted(u.port)) else u
  }

  /** The slot does not already hold this key for the node's group cipher. */
  predicate Differs(s: Link, kid: nat, gtk: seq<u8>)
    requires InBounds(s) && kid < GROUP_SLOTS && KeyLen(s.groupCipher) <= |gtk|
  {
    var k, n := s.slots[kid], KeyLen(s.groupCipher);
    k.cipher == NoCipher || k.len != n || k.bytes[..n] != gtk[..n]
  }

  function Opened(p: Port, opmode: OpMode, group: Cipher): Port {
    p.(valid := true, linkUp := true, assocFail := 0,
      netGroupCipher := if opmode == Sta then group else p.netGroupCipher)
  }

  /** The end of `setGTK`: protection on, and the port valid, in an ad-hoc network only with the second key. */
  function GroupAccepted(p: Port, opmode: OpMode, group: Cipher): Port {
    var q := p.(flags := p.flags.(txProt := true, rxProt := true));
    if opmode != Ibss then Opened(q, opmode, group)
    else
      var counted := q.(keyCount := (q.keyCount + 1) % 0x100);
      if counted.keyCount == 2 then Opened(counted, opmode, group) else counted
  }

  function Protected(s: Link): Link {
    s.(port := GroupAccepted(s.port, s.opmode, s.groupCipher))
  }

  function AfterGtk(s: Link, gtk: Option<seq<u8>>, keyLen: nat, kid: nat, rsc: seq<u8>, a: Answer): (t: Link)
    requires InBounds(s) && kid < GROUP_SLOTS && |rsc| >= 6 && (gtk.Some? ==> keyLen <= |gtk.value|)
    ensures InBounds(t) && SameNode(s, t)
  {
    if gtk.None? then Protected(s)
    else if keyLen != KeyLen(s.groupCipher) then s
    else if !Differs(s, kid, gtk.value) then Protected(s)
    else
      var k := NewGroup(s.groupCipher, kid, rsc, gtk.value);
      var t := s.(slots := s.slots[kid := Marked(k, a)], calls := s.calls + [GroupCall(kid, k, a.code)]);
      if a.Ok() then Protected(t) else t
  }

  function EmptySlots(): (slots: seq<Key>)
    ensures |slots| == GROUP_SLOTS && forall i :: 0 <= i < GROUP_SLOTS ==> slots[i] == ZERO_KEY
  {
    seq(GROUP_SLOTS, _ => ZERO_KEY)
  }

  /** Which slots a clearing has to delete from the hardware. */
  function InUse(slots: seq<Key>): (used: seq<bool>)
    ensures |used| == |slots| && forall i :: 0 <= i < |slots| ==> used[i] == (slots[i].cipher != NoCipher)
  {
    seq(|slots|, i requires 0 <= i < |slots| => slots[i].cipher != NoCipher)
  }

  function Moved(k: Key, rsc: seq<u64>, mgmtRsc: u64, tsc: u64): Key {
    k.(rsc := rsc, mgmtRsc := mgmtRsc, tsc := tsc)
  }

  function AfterTraffic(s: Link, slot: Option<nat>, rsc: seq<u64>, mgmtRsc: u64, tsc: u64): (t: Link)
    requires InBounds(s) && |rsc| == TIDS && (slot.Some? ==> slot.value < GROUP_SLOTS)
    ensures InBounds(t) && SameNode(s, t)
  {
    match slot
    case None => s.(pairwise := Moved(s.pairwise, rsc, mgmtRsc, tsc))
    case Some(kid) => s.(slots := s.slots[kid := Moved(s.slots[kid], rsc, mgmtRsc, tsc)])
  }

  /** Some drivers leave the key itself alone when they delete it from the hardware. */
  function AfterDelete(s: Link, slot: Option<nat>, zeroed: bool): (t: Link)
    requires InBounds(s) && (slot.Some? ==> slot.value < GROUP_SLOTS)
    ensures InBounds(t) && SameNode(s, t)
  {
    match slot
    case None =>
      s.(pairwise := if zeroed then ZERO_KEY else s.pairwise, calls := s.calls + [PairwiseDelete(zeroed)])
    case Some(kid) =>
      s.(slots := if zeroed then s.slots[kid := ZERO_KEY] else s.slots, calls := s.calls + [GroupDelete(kid, zeroed)])
  }

  function Closed(p: Port, others: u32): Port {
    p.(flags := p.flags.(txProt := false, rxProt := false, others := others), valid := false)
  }

  function OpenedByDriver(p: Port, others: u32): Port {
    p.(flags := p.flags.(others := others), valid := true, linkUp := true)
  }

  function Rewritten(p: Port, linkUp: bool, assocFail: u32, netGroupCipher: Cipher): Port {
    p.(linkUp := linkUp, assocFail := assocFail, netGroupCipher := netGroupCipher)
  }

  function Step(s: Link, e: Event): (t: Link)
    requires InBounds(s) && Callable(e)
    ensures InBounds(t) && SameNode(s, t)
  {
    match e
    case Ptk(key, keyLen, a) => AfterPtk(s, key, keyLen, a)
    case Gtk(gtk, keyLen, kid, rsc, a) => AfterGtk(s, gtk, keyLen, kid, rsc, a)
    case Traffic(slot, counters, mgmtRsc, tsc) => AfterTraffic(s, slot, counters, mgmtRsc, tsc)
    case Cleared => s.(slots := EmptySlots(), calls := s.calls + [GroupDeletes(InUse(s.slots))])
    case Deleted(slot, zeroed) => AfterDelete(s, slot, zeroed)
    case Unprotected(others) => s.(port := Closed(s.port, others))
    case PortOpened(others) => s.(port := OpenedByDriver(s.port, others))
    case Background(ptkDone, linkUp, assocFail, netGroupCipher) =>
      s.(ptkDone := ptkDone, port := Rewritten(s.port, linkUp, assocFail, netGroupCipher))
  }

  predicate AllCallable(events: seq<Event>) {
    forall i :: 0 <= i < |events| ==> Callable(events[i])
  }

  function Run(s: Link, events: seq<Event>): (t: Link)
    requires InBounds(s) && AllCallable(events)
    ensures InBounds(t)
  {
    if events == [] then s else Step(Run(s, events[..|events| - 1]), events[|events| - 1])
  }

  class KeyInstaller {
    const pairwiseCipher: Cipher      // ni_rsncipher
    const groupCipher: Cipher         // ni_rsngroupcipher
    const opmode: OpMode              // ic_opmode
    const slots: array<Key>           // ic_nw_keys
    var ptkDone: bool                 // ni_rsn_supp_state == RSNA_SUPP_PTKDONE
    var flags: NodeFlags              // ni_flags
    var pairwise: Key                 // ni_pairwise_key
    var portValid: bool               // ni_port_valid
    var linkUp: bool
    var assocFail: u32                // ni_assoc_fail
    var keyCount: u8                 // ni_key_count
    var netGroupCipher: Cipher        // ic_rsngroupcipher
    ghost var calls: seq<Call>

    ghost function Abs(): Link
      reads this, slots
    {
      Link(pairwiseCipher, groupCipher, opmode, ptkDone, pairwise, slots[..],
        Port(flags, portValid, linkUp, assocFail, keyCount, netGroupCipher), calls)
    }

    constructor (pairwiseCipher: Cipher, groupCipher: Cipher, opmode: OpMode)
      ensures InBounds(Abs()) && fresh(slots)
      ensures Abs() == Link(pairwiseCipher, groupCipher, opmode, false, ZERO_KEY, EmptySlots(), CLOSED, [])
    {
      this.pairwiseCipher, this.groupCipher, this.opmode := pairwiseCipher, groupCipher, opmode;
      slots := new Key[GROUP_SLOTS](_ => ZERO_KEY);
      ptkDone, flags, pairwise, portValid, linkUp := false, NodeFlags(false, false, false, 0), ZERO_KEY, false, false;
      assocFail, keyCount, netGroupCipher, calls := 0, 0, NoCipher, [];
      new;
      assert slots[..] == EmptySlots();
    }

    method SetPtk(key: seq<u8>, keyLen: nat, answer: Answer)
      requires InBounds(Abs()) && Callable(Ptk(key, keyLen, answer))
      modifies this
      ensures InBounds(Abs()) && Abs() == Step(old(Abs()), Ptk(key, keyLen, answer))
    {
      ptkDone := true;
      if pairwiseCipher != UseGroup {
        var n := KeyLen(pairwiseCipher);
        if keyLen != n {
          return;
        }
        pairwise := ZERO_KEY;
        pairwise := pairwise.(cipher := pairwiseCipher, len := n);
        pairwise := pairwise.(bytes := key[..n] + pairwise.bytes[n..]);
        calls := calls + [PairwiseCall(pairwise, answer.code)];
        assert pairwise.bytes == Padded(key[..n], KEY_BYTES);
        assert pairwise == NewPairwise(pairwiseCipher, key);
        pairwise := Marked(pairwise, answer);
        if answer.code != 0 && answer.code != EBUSY {
          return;
        }
        flags := flags.(newPtk := false);
        flags := flags.(txProt := false, rxProt := false);
        flags := flags.(rxProt := true);
      }
    }

    /** Fill the slot and hand it to the hardware; a refusal does not undo the write. */
    method InstallGroup(gtk: seq<u8>, kid: nat, rsc: seq<u8>, answer: Answer)
      requires slots.Length == GROUP_SLOTS && kid < GROUP_SLOTS && |rsc| >= 6 && KeyLen(groupCipher) <= |gtk|
      modifies this`calls, slots
      ensures var k := NewGroup(groupCipher, kid, rsc, gtk);
        && slots[..] == old(slots[..])[kid := Marked(k, answer)]
        && calls == old(calls) + [GroupCall(kid, k, answer.code)]
    {
      var n := KeyLen(groupCipher);
      var k := ZERO_KEY;
      k := k.(id := kid, cipher := groupCipher, flags := GROUP_KEY);
      k := k.(rsc := k.rsc[0 := ReadCounter(rsc)], len := n);
      k := k.(bytes := gtk[..n] + k.bytes[n..]);
      assert k.bytes == Padded(gtk[..n], KEY_BYTES) && k.rsc == [ReadCounter(rsc)] + Zeros(TIDS - 1);
      calls := calls + [GroupCall(kid, k, answer.code)];
      slots[kid] := Marked(k, answer);
    }

    method SetGtk(gtk: Option<seq<u8>>, keyLen: nat, kid: nat, rsc: seq<u8>, answer: Answer)
      requires InBounds(Abs()) && Callable(Gtk(gtk, keyLen, kid, rsc, answer))
      modifies this, slots
      ensures InBounds(Abs()) && Abs() == Step(old(Abs()), Gtk(gtk, keyLen, kid, rsc, answer))
    {
      if gtk.Some? {
        var n := KeyLen(groupCipher);
        if keyLen != n {
          return;
        }
        var k := slots[kid];
        if k.cipher == NoCipher || k.len != n || k.bytes[..n] != gtk.value[..n] {
          InstallGroup(gtk.value, kid, rsc, answer);
          if answer.code != 0 && answer.code != EBUSY {
            return;
          }
        }
      }
      Protect();
    }

    /** `ieee80211_crypto_clear_groupkeys`. */
    method ClearGroupKeys()
      requires InBounds(Abs())
      modifies this`calls, slots
      ensures InBounds(Abs()) && Abs() == Step(old(Abs()), Cleared)
    {
      ghost var was := slots[..];
      ghost var deleted := [];
      for i := 0 to GROUP_SLOTS
        invariant calls == old(calls)
        invariant |deleted| == i && forall j :: 0 <= j < i ==> deleted[j] == (was[j].cipher != NoCipher)
        invariant forall j :: 0 <= j < GROUP_SLOTS ==> slots[j] == if j < i then ZERO_KEY else was[j]
      {
        deleted := deleted + [slots[i].cipher != NoCipher];
        slots[i] := ZERO_KEY;
      }
      calls := calls + [GroupDeletes(deleted)];
      assert deleted == InUse(was);
      assert slots[..] == EmptySlots();
    }

    /** The last part of `setGTK`. */
    method Protect()
      modifies this
      ensures Abs() == Protected(old(Abs()))
    {
      flags := flags.(txProt := true, rxProt := true);
      var second := false;
      if opmode == Ibss {
        keyCount := (keyCount + 1) % 0x100;
        second := keyCount == 2;
      }
      if opmode != Ibss || second {
        portValid := true;
        linkUp := true;
        assocFail := 0;
        if opmode == Sta {
          netGroupCipher := groupCipher;
        }
      }
    }
  }
}
