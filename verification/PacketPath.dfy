/** Packets out (`outputStart`, `outputPacket`) and packets in (`if_input`). */
module PacketPath {
  import opened MachineTypes

  datatype Mbuf = Mbuf(id: nat, packetHeader: bool, free: bool)

  datatype Ret = Success | OutputDropped | NoResources

  /**
   * One successful dequeue, with what the environment answers while the packet
   * is handled: whether the interface is running, whether the send queue has
   * room, how many packets `if_start` then takes off the queue, and how many
   * errors it counts while it encapsulates and transmits, for those packets and
   * for the management frames it sends along.
   */
  datatype Pull = Pull(m: Option<Mbuf>, running: bool, room: bool, taken: nat, refused: nat)

  /** Counters, the send queue, and the packets the hardware driver has taken and the glue has freed so far. */
  datatype Out = Out(packets: u32, errors: u32, queue: seq<Mbuf>, handed: seq<Mbuf>, freed: seq<Mbuf>)

  function Add(x: u32, n: nat): u32 {
    (x + n) % TWO_32
  }

  function Inc(x: u32): u32 {
    Add(x, 1)
  }

  /** The packet makes it into the send queue. */
  predicate Good(p: Pull) {
    p.running && p.m.Some? && p.m.value.packetHeader && !p.m.value.free && p.room
  }

  /** A drop that shows in the error counter. */
  predicate Counted(p: Pull) {
    p.running || (p.m.Some? && !p.m.value.free)
  }

  /** A drop that also frees the packet. */
  predicate Freed(p: Pull) {
    && p.m.Some?
    && if !p.running then !p.m.value.free else !p.m.value.packetHeader || !p.m.value.free
  }

  function Taken(p: Pull, queued: nat): (k: nat)
    ensures k <= queued
  {
    if p.taken < queued then p.taken else queued
  }

  function Send(s: Out, p: Pull): Out {
    if Good(p) then
      var q := s.queue + [p.m.value];
      var k := Taken(p, |q|);
      Out(Inc(s.packets), Add(s.errors, p.refused), q[k..], s.handed + q[..k], s.freed)
    else
      Out(s.packets, if Counted(p) then Inc(s.errors) else s.errors, s.queue, s.handed,
        s.freed + if Freed(p) then [p.m.value] else [])
  }

  datatype Drained = Drained(out: Out, ret: Ret, pulled: nat)

  /** `outputStart` on the packets the interface still has, with `ret` the answer if it has none. */
  function Drain(s: Out, pulls: seq<Pull>, ret: Ret): Drained
    decreases |pulls|
  {
    if pulls == [] then Drained(s, ret, 0)
    else if !Good(pulls[0]) then Drained(Send(s, pulls[0]), OutputDropped, 1)
    else
      var d := Drain(Send(s, pulls[0]), pulls[1..], Success);
      d.(pulled := d.pulled + 1)
  }

  class NetDevice {
    var packets: u32       // if_opackets
    var errors: u32        // if_oerrors
    var received: u32      // if_ipackets
    var queue: seq<Mbuf>   // if_snd
    ghost var handed: seq<Mbuf>
    ghost var freed: seq<Mbuf>

    ghost function Abs(): Out
      reads this
    {
      Out(packets, errors, queue, handed, freed)
    }

    constructor ()
      ensures Abs() == Out(0, 0, [], [], []) && received == 0
    {
      packets, errors, received, queue, handed, freed := 0, 0, 0, [], [], [];
    }

    /** The hardware driver takes packets off the front of the send queue and counts those it refuses as errors. */
    method IfStart(taken: nat, refused: nat)
      modifies this`queue, this`handed, this`errors
      ensures var k := if taken < |old(queue)| then taken else |old(queue)|;
        queue == old(queue)[k..] && handed == old(handed) + old(queue)[..k]
      ensures errors == Add(old(errors), refused)
    {
      errors := Add(errors, refused);
      var k := if taken < |queue| then taken else |queue|;
      handed := handed + queue[..k];
      queue := queue[k..];
    }

    method OutputPacket(p: Pull) returns (ret: Ret)
      modifies this
      ensures Abs() == Send(old(Abs()), p) && received == old(received)
      ensures ret == if p.running && p.m.Some? && p.m.value.packetHeader && !p.m.value.free && p.room
                     then Success else OutputDropped
    {
      ret := OutputDropped;
      if !p.running {
        if p.m.Some? && !p.m.value.free {
          errors := Inc(errors);
          freed := freed + [p.m.value];
        }
        return;
      }
      if p.m.None? {
        errors := Inc(errors);
        return;
      }
      var m := p.m.value;
      if !m.packetHeader {
        freed := freed + [m];
        errors := Inc(errors);
        return;
      }
      if m.free {
        errors := Inc(errors);
        return;
      }
      if !p.room {
        freed := freed + [m];
        errors := Inc(errors);
        return;
      }
      queue := queue + [m];
      IfStart(p.taken, p.refused);
      packets := Inc(packets);
      ret := Success;
    }

    /** `pulls` is what the interface's queue yields, one packet at a time. */
    method OutputStart(pulls: seq<Pull>) returns (ret: Ret, pulled: nat)
      modifies this
      ensures Drain(old(Abs()), pulls, NoResources) == Drained(Abs(), ret, pulled)
      ensures received == old(received)
    {
      ret := NoResources;
      pulled := 0;
      while pulled < |pulls|
        invariant pulled <= |pulls| && received == old(received)
        invariant var d := Drain(Abs(), pulls[pulled..], ret);
          Drain(old(Abs()), pulls, NoResources) == d.(pulled := d.pulled + pulled)
      {
        var p := pulls[pulled];
        ret := OutputPacket(p);
        pulled := pulled + 1;
        if ret != Success {
          return;
        }
      }
    }

    /** `ml` is drained into the interface, unless the interface is gone. */
    method IfInput(ml: seq<Mbuf>, attached: bool, counting: bool)
      returns (delivered: seq<Mbuf>, rest: seq<Mbuf>, flushed: bool)
      modifies this`received
      ensures attached ==> delivered == ml && rest == []
      ensures !attached ==> delivered == [] && rest == if ml == [] then [] else ml[1..]
      ensures flushed == (delivered != [])
      ensures received == if counting then (old(received) + |delivered|) % TWO_32 else old(received)
    {
      var packets := 0;
      delivered, rest, flushed := [], ml, false;
      while rest != []
        invariant delivered + rest == ml && packets == |delivered| && (!attached ==> delivered == [])
        invariant received == if counting then (old(received) + |delivered|) % TWO_32 else old(received)
        decreases |rest|
      {
        var m := rest[0];
        rest := rest[1..];
        if !attached {
          break;
        }
        ModAdd(old(received) + |delivered|, 1);
        delivered := delivered + [m];
        packets := packets + 1;
        if counting {
          received := Inc(received);
        }
      }
      if packets > 0 {
        flushed := true;
      }
    }
  }

  // ---------- What one packet meets ----------

  /**
   * The tests of `outputPacket` in their order: not running, no packet, no
   * header, a free packet, a full queue; and what each drop counts and frees.
   */
  lemma SendEffect(s: Out, p: Pull)
    ensures var t := Send(s, p); var errorsPlusOne := (s.errors + 1) % TWO_32;
      if !p.running then
        t == if p.m.Some? && !p.m.value.free
             then s.(errors := errorsPlusOne, freed := s.freed + [p.m.value]) else s
      else if p.m.None? then t == s.(errors := errorsPlusOne)
      else if !p.m.value.packetHeader then t == s.(errors := errorsPlusOne, freed := s.freed + [p.m.value])
      else if p.m.value.free then t == s.(errors := errorsPlusOne)
      else if !p.room then t == s.(errors := errorsPlusOne, freed := s.freed + [p.m.value])
      else
        && t.packets == (s.packets + 1) % TWO_32 && t.errors == (s.errors + p.refused) % TWO_32 && t.freed == s.freed
        && var q := s.queue + [p.m.value];
        if p.taken < |q| then t.queue == q[p.taken..] && t.handed == s.handed + q[..p.taken]
        else t.queue == [] && t.handed == s.handed + q
  {
    assert s.freed + [] == s.freed;
    if p.m.Some? {
      var q := s.queue + [p.m.value];
      assert q[..|q|] == q && q[|q|..] == [];
    }
  }

  /** The loop goes on exactly after a packet that passes all of these tests. */
  lemma DrainGoesOn(s: Out, p: Pull, rest: seq<Pull>, ret: Ret)
    ensures var d := Drain(s, [p] + rest, ret);
      if p.running && p.m.Some? && p.m.value.packetHeader && !p.m.value.free && p.room
      then var next := Drain(Send(s, p), rest, Success); d == next.(pulled := next.pulled + 1)
      else d == Drained(Send(s, p), OutputDropped, 1)
  {
    assert ([p] + rest)[1..] == rest;
  }

  // ---------- What a drain does ----------

  /** The position of the first packet that is dropped. */
  function FirstBad(pulls: seq<Pull>): (n: nat)
    ensures n <= |pulls| && (n < |pulls| ==> !Good(pulls[n]))
    ensures forall i :: 0 <= i < n ==> Good(pulls[i])
  {
    if pulls == [] || !Good(pulls[0]) then 0 else 1 + FirstBad(pulls[1..])
  }

  /** The packets of these pulls, in order. */
  function Packets(pulls: seq<Pull>): (ms: seq<Mbuf>)
    requires forall i :: 0 <= i < |pulls| ==> pulls[i].m.Some?
    ensures |ms| == |pulls| && forall i :: 0 <= i < |ms| ==> ms[i] == pulls[i].m.value
  {
    seq(|pulls|, i requires 0 <= i < |pulls| => pulls[i].m.value)
  }

  /** The errors `if_start` counts over these pulls. */
  function Refused(pulls: seq<Pull>): nat {
    if pulls == [] then 0 else pulls[0].refused + Refused(pulls[1..])
  }

  /** `outputStart` stops right after the first bad packet, and answers NoResources exactly if it pulled nothing. */
  lemma {:induction false} DrainStops(s: Out, pulls: seq<Pull>, ret: Ret)
    ensures var n := FirstBad(pulls); var d := Drain(s, pulls, ret);
      && d.pulled == (if n < |pulls| then n + 1 else n)
      && d.ret == (if n < |pulls| then OutputDropped else if n > 0 then Success else ret)
      && d.out.freed == s.freed + if n < |pulls| && Freed(pulls[n]) then [pulls[n].m.value] else []
    decreases |pulls|
  {
    if pulls != [] && Good(pulls[0]) {
      DrainStops(Send(s, pulls[0]), pulls[1..], Success);
    }
  }

  /** The error the last drop counts, if there is one. */
  function LastDrop(pulls: seq<Pull>): nat {
    var n := FirstBad(pulls);
    if n < |pulls| && Counted(pulls[n]) then 1 else 0
  }

  /** The counters rise by the packets sent, the errors `if_start` counted meanwhile, and a counted last drop. */
  lemma {:induction false} DrainCounts(s: Out, pulls: seq<Pull>, ret: Ret)
    ensures var n := FirstBad(pulls); var d := Drain(s, pulls, ret);
      && d.out.packets == Add(s.packets, n)
      && d.out.errors == Add(s.errors, Refused(pulls[..n]) + LastDrop(pulls))
    decreases |pulls|
  {
    if pulls != [] && Good(pulls[0]) {
      var rest := pulls[1..];
      var n := FirstBad(rest);
      DrainCounts(Send(s, pulls[0]), rest, Success);
      RefusedSplit(pulls, n);
      AddTwice(s.packets, 1, n);
      AddTwice(s.errors, pulls[0].refused, Refused(rest[..n]) + LastDrop(rest));
    } else {
      assert pulls[..0] == [];
    }
  }

  lemma AddTwice(x: u32, a: nat, b: nat)
    ensures Add(Add(x, a), b) == Add(x, a + b)
  {
  }

  lemma RefusedSplit(pulls: seq<Pull>, n: nat)
    requires n < |pulls|
    ensures Refused(pulls[..n + 1]) == pulls[0].refused + Refused(pulls[1..][..n])
  {
    assert pulls[..n + 1][1..] == pulls[1..][..n];
  }

  /** The packets before the first bad one are sent in the order they were pulled. */
  lemma {:induction false} DrainKeepsOrder(s: Out, pulls: seq<Pull>, ret: Ret)
    ensures var d := Drain(s, pulls, ret);
      d.out.handed + d.out.queue == s.handed + s.queue + Packets(pulls[..FirstBad(pulls)])
    decreases |pulls|
  {
    if pulls != [] && Good(pulls[0]) {
      DrainKeepsOrder(Send(s, pulls[0]), pulls[1..], Success);
      SendKeepsOrder(s, pulls[0]);
      var n := FirstBad(pulls[1..]);
      assert Packets(pulls[..n + 1]) == [pulls[0].m.value] + Packets(pulls[1..][..n]);
    }
  }

  lemma ModAdd(x: int, y: int)
    ensures (x % TWO_32 + y) % TWO_32 == (x + y) % TWO_32
  {
  }

  lemma SendKeepsOrder(s: Out, p: Pull)
    requires Good(p)
    ensures Send(s, p).handed + Send(s, p).queue == s.handed + s.queue + [p.m.value]
  {
    var q := s.queue + [p.m.value];
    var k := Taken(p, |q|);
    assert q[..k] + q[k..] == q;
  }

  /** The drain ended on a missing or free packet while the interface was not running: a drop in neither counter. */
  predicate EndsSilently(pulls: seq<Pull>) {
    var n := FirstBad(pulls);
    n < |pulls| && !pulls[n].running && (pulls[n].m.None? || pulls[n].m.value.free)
  }

  /**
   * The two counters together rise by the packets pulled and the errors that
   * `if_start` counted for packets already counted as sent, less one for a silent drop.
   */
  lemma DrainAccounting(s: Out, pulls: seq<Pull>)
    ensures var d := Drain(s, pulls, NoResources); var refused := Refused(pulls[..FirstBad(pulls)]);
      && (d.out.packets + d.out.errors) % TWO_32
      == (s.packets + s.errors + d.pulled + refused - if EndsSilently(pulls) then 1 else 0) % TWO_32
  {
    DrainStops(s, pulls, NoResources);
    DrainCounts(s, pulls, NoResources);
    var n := FirstBad(pulls);
    var e := Refused(pulls[..n]) + LastDrop(pulls);
    ModAdd(s.packets + n, Add(s.errors, e));
    ModAdd(s.errors + e, s.packets + n);
  }

  /**
   * So the counters rise by exactly the packets pulled if and only if the errors
   * of `if_start` are matched by the silent drop, up to a turn of the 32-bit counters.
   */
  lemma AccountingIsExactIff(s: Out, pulls: seq<Pull>)
    ensures var d := Drain(s, pulls, NoResources); var refused := Refused(pulls[..FirstBad(pulls)]);
      (d.out.packets + d.out.errors) % TWO_32 == (s.packets + s.errors + d.pulled) % TWO_32
      <==> refused % TWO_32 == if EndsSilently(pulls) then 1 else 0
  {
    DrainAccounting(s, pulls);
    var d := Drain(s, pulls, NoResources);
    var silent := if EndsSilently(pulls) then 1 else 0;
    SameResidue(s.packets + s.errors + d.pulled, Refused(pulls[..FirstBad(pulls)]), silent);
  }

  lemma SameResidue(x: int, r: nat, silent: int)
    requires 0 <= silent <= 1
    ensures (x + r - silent) % TWO_32 == x % TWO_32 <==> r % TWO_32 == silent
  {
    ModAdd(r, x - silent);
    var q := r % TWO_32;
    if (x + q - silent) % TWO_32 == x % TWO_32 {
      var a, b := (x + q - silent) / TWO_32, x / TWO_32;
      assert q - silent == TWO_32 * (a - b);
    }
  }

  /** A packet that is queued and then refused, as on an RSN network whose port is not valid yet, counts twice. */
  lemma RefusedPacketCountsTwice(m: Mbuf)
    requires m.packetHeader && !m.free
    ensures var d := Drain(Out(0, 0, [], [], []), [Pull(Some(m), true, true, 1, 1)], NoResources);
      d.pulled == 1 && d.out.packets == 1 && d.out.errors == 1 && d.ret == Success
  {
    var pulls := [Pull(Some(m), true, true, 1, 1)];
    assert pulls[1..] == [];
    assert Drain(Send(Out(0, 0, [], [], []), pulls[0]), pulls[1..], Success).pulled == 0;
  }

  /** A free packet pulled while the interface is not running counts in neither. */
  lemma SilentDropIsNotCounted(m: Mbuf)
    requires m.free
    ensures var d := Drain(Out(0, 0, [], [], []), [Pull(Some(m), false, true, 0, 0)], NoResources);
      d.pulled == 1 && d.out.packets == 0 && d.out.errors == 0 && d.ret == OutputDropped
  {
  }

  /** A packet that must not get lost: not free, or free but without a header when the interface is running. */
  predicate Accountable(p: Pull) {
    p.m.Some? && (!p.m.value.free || (p.running && !p.m.value.packetHeader))
  }

  function OwedFor(p: Pull): multiset<Mbuf> {
    if Accountable(p) then multiset{p.m.value} else multiset{}
  }

  /** The accountable packets of these pulls. */
  function Owed(pulls: seq<Pull>): multiset<Mbuf> {
    if pulls == [] then multiset{}
    else OwedFor(pulls[0]) + Owed(pulls[1..])
  }

  /** Where packets can be: taken by the driver, in the send queue, or freed. */
  function Placed(s: Out): multiset<Mbuf> {
    multiset(s.handed + s.queue) + multiset(s.freed)
  }

  lemma OwedSplit(pulls: seq<Pull>, n: nat)
    requires n < |pulls|
    ensures Owed(pulls[..n + 1]) == OwedFor(pulls[0]) + Owed(pulls[1..][..n])
  {
    assert pulls[..n + 1][1..] == pulls[1..][..n];
  }

  lemma SendConserves(s: Out, p: Pull)
    ensures Placed(Send(s, p)) == Placed(s) + OwedFor(p)
  {
    if Good(p) {
      SendKeepsOrder(s, p);
      assert multiset(s.handed + s.queue + [p.m.value]) == multiset(s.handed + s.queue) + multiset{p.m.value};
    } else {
      assert Accountable(p) <==> Freed(p);
    }
  }

  lemma SumInTwoSteps(a: multiset<Mbuf>, b: multiset<Mbuf>, c: multiset<Mbuf>)
    ensures a + b + c == a + (b + c)
  {
  }

  /** Each accountable packet pulled is queued, taken by the driver or freed, exactly once, and no other is. */
  lemma {:induction false} DrainConserves(s: Out, pulls: seq<Pull>, ret: Ret)
    ensures var d := Drain(s, pulls, ret);
      d.pulled <= |pulls| && Placed(d.out) == Placed(s) + Owed(pulls[..d.pulled])
    decreases |pulls|
  {
    if pulls != [] {
      var next := Send(s, pulls[0]);
      SendConserves(s, pulls[0]);
      if Good(pulls[0]) {
        var d := Drain(next, pulls[1..], Success);
        DrainConserves(next, pulls[1..], Success);
        OwedSplit(pulls, d.pulled);
        SumInTwoSteps(Placed(s), OwedFor(pulls[0]), Owed(pulls[1..][..d.pulled]));
      } else {
        OwedSplit(pulls, 0);
      }
    }
  }
}
