/** What one pairwise or group key does to the node, in terms of the fields alone. */
module KeyEffects {
  import opened MachineTypes
  import opened KeyInstall

  /** The hardware took the key, or will (EBUSY). */
  predicate Taken(code: int) {
    code == 0 || code == 16
  }

  /** A key of length n, with these bytes and counters, no management counter, and marked if the driver says so. */
  predicate IsFreshKey(k: Key, id: u8, cipher: Cipher, n: nat, bytes: seq<u8>, group: bool, software: bool) {
    && k.id == id && k.cipher == cipher && k.len == n
    && k.flags.group == group && k.flags.software == software && !k.flags.tx && !k.flags.igtk
    && n <= |bytes| && |k.bytes| == 32 && n <= 32
    && (forall i :: 0 <= i < n ==> k.bytes[i] == bytes[i])
    && (forall i :: n <= i < 32 ==> k.bytes[i] == 0)
    && |k.rsc| == 16 && (forall tid :: 1 <= tid < 16 ==> k.rsc[tid] == 0)
    && k.mgmtRsc == 0 && k.tsc == 0
  }

  /** The length each cipher asks of its key. */
  lemma KeyLengths()
    ensures KeyLen(Wep40) == 5 && KeyLen(Wep104) == 13 && KeyLen(Ccmp) == 16 && KeyLen(Tkip) == 32
    ensures KeyLen(Bip) == 16 && KeyLen(NoCipher) == 0 && KeyLen(UseGroup) == 0
  {
  }

  // ---------- setPTK ----------

  /** The handshake is done whatever happens; a wrong length or a node on the group cipher changes nothing else. */
  lemma PairwiseKeyIsIgnored(s: Link, key: seq<u8>, keyLen: nat, a: Answer)
    requires InBounds(s) && keyLen <= |key|
    requires s.pairwiseCipher == UseGroup || keyLen != KeyLen(s.pairwiseCipher)
    ensures Step(s, Ptk(key, keyLen, a)) == s.(ptkDone := true)
  {
  }

  /**
   * A pairwise key of the right length is written and handed to the driver before
   * the answer is known; taken, it turns protection to receive only.
   */
  lemma PairwiseKeyIsWritten(s: Link, key: seq<u8>, keyLen: nat, a: Answer)
    requires InBounds(s) && keyLen <= |key|
    requires s.pairwiseCipher != UseGroup && keyLen == KeyLen(s.pairwiseCipher)
    ensures var t := Step(s, Ptk(key, keyLen, a));
      && t.ptkDone && t.slots == s.slots
      && IsFreshKey(t.pairwise, 0, s.pairwiseCipher, keyLen, key, false, a.software) && t.pairwise.rsc[0] == 0
      && |t.calls| == |s.calls| + 1 && t.calls[..|s.calls|] == s.calls
      && var call := t.calls[|s.calls|];
      call.PairwiseCall? && call.code == a.code
      && IsFreshKey(call.key, 0, s.pairwiseCipher, keyLen, key, false, false) && call.key.rsc[0] == 0
  {
    NewPairwiseIsFresh(s.pairwiseCipher, key, a);
  }

  lemma NewPairwiseIsFresh(c: Cipher, key: seq<u8>, a: Answer)
    requires KeyLen(c) <= |key|
    ensures var n, k := KeyLen(c), NewPairwise(c, key);
      && IsFreshKey(k, 0, c, n, key, false, false) && k.rsc[0] == 0
      && IsFreshKey(Marked(k, a), 0, c, n, key, false, a.software) && Marked(k, a).rsc[0] == 0
  {
    FrontOf(key, KeyLen(c));
  }

  lemma FrontOf(key: seq<u8>, n: nat)
    requires n <= |key| && n <= KEY_BYTES
    ensures forall i :: 0 <= i < n ==> Padded(key[..n], KEY_BYTES)[i] == key[i]
  {
    var bytes := Padded(key[..n], KEY_BYTES);
    assert forall i :: 0 <= i < n ==> bytes[i] == bytes[..n][i];
  }

  lemma PairwiseKeyProtects(s: Link, key: seq<u8>, keyLen: nat, a: Answer)
    requires InBounds(s) && keyLen <= |key|
    requires s.pairwiseCipher != UseGroup && keyLen == KeyLen(s.pairwiseCipher)
    ensures var p, q := s.port, Step(s, Ptk(key, keyLen, a)).port;
      if Taken(a.code) then
        && q.flags.rxProt && !q.flags.txProt && !q.flags.newPtk && q.flags.others == p.flags.others
        && q == p.(flags := q.flags)
      else q == p
  {
  }

  /** The handshake state: done after a pairwise key, and otherwise as the background has left it. */
  function HandshakeDone(before: bool, events: seq<Event>): bool {
    if events == [] then before
    else
      match events[|events| - 1]
      case Ptk(_, _, _) => true
      case Background(ptkDone, _, _, _) => ptkDone
      case _ => HandshakeDone(before, events[..|events| - 1])
  }

  lemma {:induction false} HandshakeFollowsHistory(s: Link, events: seq<Event>)
    requires InBounds(s) && AllCallable(events)
    ensures Run(s, events).ptkDone == HandshakeDone(s.ptkDone, events)
  {
    if events != [] {
      HandshakeFollowsHistory(s, events[..|events| - 1]);
      HandshakeStep(Run(s, events[..|events| - 1]), events[|events| - 1]);
    }
  }

  lemma HandshakeStep(s: Link, e: Event)
    requires InBounds(s) && Callable(e)
    ensures Step(s, e).ptkDone == (e.Ptk? || if e.Background? then e.ptkDone else s.ptkDone)
  {
    match e
    case Ptk(_, _, _) =>
    case Gtk(_, _, _, _, _) =>
    case Traffic(_, _, _, _) =>
    case Cleared =>
    case Deleted(_, _) =>
    case Unprotected(_) =>
    case PortOpened(_) =>
    case Background(_, _, _, _) =>
  }

  // ---------- setGTK ----------

  /** The slot holds this key already: in use, with the length of the group cipher, and the same bytes. */
  predicate Holds(k: Key, n: nat, gtk: seq<u8>)
    requires n <= |gtk|
  {
    k.cipher != NoCipher && k.len == n && n <= |k.bytes| && forall i :: 0 <= i < n ==> k.bytes[i] == gtk[i]
  }

  lemma HoldsIfSame(s: Link, kid: nat, gtk: seq<u8>)
    requires InBounds(s) && kid < GROUP_SLOTS && KeyLen(s.groupCipher) <= |gtk|
    ensures Differs(s, kid, gtk) <==> !Holds(s.slots[kid], KeyLen(s.groupCipher), gtk)
  {
    var k, n := s.slots[kid], KeyLen(s.groupCipher);
    assert k.bytes[..n] == gtk[..n] <==> forall i :: 0 <= i < n ==> k.bytes[i] == gtk[i] by {
      assert forall i :: 0 <= i < n ==> k.bytes[..n][i] == k.bytes[i] && gtk[..n][i] == gtk[i];
    }
  }

  /** A wrong length changes nothing; no key at all, or one the slot holds, leaves the slots and the driver alone. */
  lemma GroupKeyIsSkipped(s: Link, gtk: Option<seq<u8>>, keyLen: nat, kid: nat, rsc: seq<u8>, a: Answer)
    requires InBounds(s) && Callable(Gtk(gtk, keyLen, kid, rsc, a))
    ensures var t := Step(s, Gtk(gtk, keyLen, kid, rsc, a));
      && (gtk.Some? && keyLen != KeyLen(s.groupCipher) ==> t == s)
      && (gtk.None? || (keyLen == KeyLen(s.groupCipher) && Holds(s.slots[kid], keyLen, gtk.value)) ==>
            t == s.(port := t.port) && IsProtected(s.port, t.port, s.opmode, s.groupCipher))
  {
    if gtk.Some? && keyLen == KeyLen(s.groupCipher) {
      HoldsIfSame(s, kid, gtk.value);
    }
    AcceptedIsProtected(s.port, s.opmode, s.groupCipher);
  }

  /**
   * A new group key is written to its slot and handed to the driver before the
   * answer is known, with the receive counter read as six bytes, low byte first.
   */
  lemma GroupKeyIsWritten(s: Link, gtk: seq<u8>, keyLen: nat, kid: nat, rsc: seq<u8>, a: Answer)
    requires InBounds(s) && Callable(Gtk(Some(gtk), keyLen, kid, rsc, a))
    requires keyLen == KeyLen(s.groupCipher) && !Holds(s.slots[kid], keyLen, gtk)
    ensures var t := Step(s, Gtk(Some(gtk), keyLen, kid, rsc, a)); var k := t.slots[kid];
      var counter := rsc[0] + 256 * (rsc[1] + 256 * (rsc[2] + 256 * (rsc[3] + 256 * (rsc[4] + 256 * rsc[5] as int))));
      && t.ptkDone == s.ptkDone && t.pairwise == s.pairwise
      && (forall other :: 0 <= other < 6 && other != kid ==> t.slots[other] == s.slots[other])
      && IsFreshKey(k, kid, s.groupCipher, keyLen, gtk, true, a.software) && k.rsc[0] == counter
      && t.calls == s.calls + [GroupCall(kid, k.(flags := GROUP_KEY), a.code)]
  {
    HoldsIfSame(s, kid, gtk);
    NewGroupIsFresh(s.groupCipher, kid, rsc, gtk, a);
  }

  lemma NewGroupIsFresh(c: Cipher, kid: u8, rsc: seq<u8>, gtk: seq<u8>, a: Answer)
    requires KeyLen(c) <= |gtk| && |rsc| >= 6
    ensures var k := Marked(NewGroup(c, kid, rsc, gtk), a);
      var counter := rsc[0] + 256 * (rsc[1] + 256 * (rsc[2] + 256 * (rsc[3] + 256 * (rsc[4] + 256 * rsc[5] as int))));
      && IsFreshKey(k, kid, c, KeyLen(c), gtk, true, a.software) && k.rsc[0] == counter
      && k.(flags := GROUP_KEY) == NewGroup(c, kid, rsc, gtk)
  {
    FrontOf(gtk, KeyLen(c));
  }

  /** It protects only if the hardware takes it. */
  lemma GroupKeyProtects(s: Link, gtk: seq<u8>, keyLen: nat, kid: nat, rsc: seq<u8>, a: Answer)
    requires InBounds(s) && Callable(Gtk(Some(gtk), keyLen, kid, rsc, a))
    requires keyLen == KeyLen(s.groupCipher) && !Holds(s.slots[kid], keyLen, gtk)
    ensures var t := Step(s, Gtk(Some(gtk), keyLen, kid, rsc, a));
      if Taken(a.code) then IsProtected(s.port, t.port, s.opmode, s.groupCipher) else t.port == s.port
  {
    HoldsIfSame(s, kid, gtk);
    AcceptedIsProtected(s.port, s.opmode, s.groupCipher);
  }

  /** From port p to q: both directions protected; the port opened at once, in an ad-hoc network at the count of two. */
  predicate IsProtected(p: Port, q: Port, opmode: OpMode, group: Cipher) {
    && q.flags == p.flags.(txProt := true, rxProt := true)
    && q.keyCount == (if opmode == Ibss then (p.keyCount + 1) % 256 else p.keyCount)
    && if opmode != Ibss || q.keyCount == 2 then
         && q.valid && q.linkUp && q.assocFail == 0
         && q.netGroupCipher == if opmode == Sta then group else p.netGroupCipher
       else q == p.(flags := q.flags, keyCount := q.keyCount)
  }

  lemma AcceptedIsProtected(p: Port, opmode: OpMode, group: Cipher)
    ensures IsProtected(p, GroupAccepted(p, opmode, group), opmode, group)
  {
  }
}
