/** Laws of the scan cache: what every step keeps, and what one scan does to the cached networks. */
module ScanLaws {
  import opened MachineTypes
  import opened ScanRecord
  import opened ScanModel

  // ---------- Node conservation ----------

  /** How often node id occurs in the list and among the freed nodes together. */
  function Owners(list: seq<Cell>, freed: seq<nat>, id: nat): nat {
    multiset(Ids(list))[id] + multiset(freed)[id]
  }

  /** Every node ever allocated is in the list or was freed, never both and never twice. */
  ghost predicate Conserved(s: State) {
    && (forall id: nat :: Owners(s.list, s.freed, id) == if id < s.made then 1 else 0)
    && (s.cursor.Some? ==> s.cursor.value < s.made)
  }

  predicate Distinct(ids: seq<nat>) {
    forall i, j :: 0 <= i < j < |ids| ==> ids[i] != ids[j]
  }

  lemma ConservedIsDistinct(s: State)
    requires Conserved(s)
    ensures Distinct(Ids(s.list))
    ensures forall id :: id in Ids(s.list) ==> id < s.made && id !in s.freed
  {
    var ids := Ids(s.list);
    forall i, j | 0 <= i < j < |ids| ensures ids[i] != ids[j] {
      assert ids == ids[..j] + ids[j..];
      assert ids[i] in ids[..j] && ids[j] in ids[j..];
      assert Owners(s.list, s.freed, ids[j]) <= 1;
    }
    forall id | id in ids ensures id < s.made && id !in s.freed {
      assert Owners(s.list, s.freed, id) <= 1;
    }
  }

  predicate UniqueKeys(list: seq<Cell>) {
    forall i, j :: 0 <= i < j < |list| ==> KeyOf(list[i].rec) != KeyOf(list[j].rec)
  }

  ghost predicate Valid(s: State) {
    Conserved(s) && UniqueKeys(s.list)
  }

  lemma PutConserves(s: State, k: Key, sec: u64, rec: ScanResult)
    requires Conserved(s)
    ensures Conserved(Put(s, k, sec, rec))
  {
    var t := Put(s, k, sec, rec);
    var isNew := Find(s.list, k) == |s.list|;
    assert Ids(t.list) == (if isNew then [s.made] else []) + Ids(s.list);
    forall id: nat
      ensures Owners(t.list, t.freed, id) == if id < t.made then 1 else 0
    {
      assert Owners(s.list, s.freed, id) == if id < s.made then 1 else 0;
      assert multiset(Ids(t.list)) == (if isNew then multiset{s.made} else multiset{}) + multiset(Ids(s.list));
    }
  }

  lemma PutKeepsValid(s: State, k: Key, sec: u64, rec: ScanResult)
    requires Valid(s) && KeyOf(rec) == k
    ensures Valid(Put(s, k, sec, rec))
  {
    PutConserves(s, k, sec, rec);
  }

  lemma {:induction false} ScanKeepsValid(s: State, obs: seq<Obs>)
    requires Valid(s)
    ensures Valid(ScanAll(s, obs))
    ensures ScanAll(s, obs).cursor == s.cursor
  {
    if obs != [] {
      ScanKeepsValid(s, obs[..|obs| - 1]);
      var o := obs[|obs| - 1];
      if Visible(o) {
        PutKeepsValid(ScanAll(s, obs[..|obs| - 1]), KeyOfObs(o), o.sec, Convert(o.station, o.uptime));
      }
    }
  }

  /** A sweep keeps exactly the retained nodes. */
  lemma {:induction false} SweepMembers(list: seq<Cell>, now: u64, age: u64, c: Cell)
    ensures c in Kept(list, now, age) <==> c in list && Retained(c.stamp, now, age)
  {
    if list != [] {
      SweepMembers(list[1..], now, age, c);
    }
  }

  lemma IdsCons(c: Cell, rest: seq<Cell>)
    ensures Ids([c] + rest) == [c.id] + Ids(rest)
    ensures multiset(Ids([c] + rest)) == multiset{c.id} + multiset(Ids(rest))
  {
    assert Ids([c] + rest) == [c.id] + Ids(rest);
  }

  lemma SweepConservesOne(c: Cell, rest: seq<Cell>, now: u64, age: u64)
    requires multiset(Ids(rest)) == multiset(Ids(Kept(rest, now, age))) + multiset(Removed(rest, now, age))
    ensures multiset(Ids([c] + rest))
         == multiset(Ids(Kept([c] + rest, now, age))) + multiset(Removed([c] + rest, now, age))
  {
    var list := [c] + rest;
    assert list[1..] == rest;
    IdsCons(c, rest);
    if Retained(c.stamp, now, age) {
      assert Kept(list, now, age) == [c] + Kept(rest, now, age);
      assert Removed(list, now, age) == Removed(rest, now, age);
      IdsCons(c, Kept(rest, now, age));
    } else {
      assert Kept(list, now, age) == Kept(rest, now, age);
      assert Removed(list, now, age) == [c.id] + Removed(rest, now, age);
    }
  }

  /** Each node of the list is either kept or freed, one time. */
  lemma {:induction false} SweepConserves(list: seq<Cell>, now: u64, age: u64)
    ensures multiset(Ids(list)) == multiset(Ids(Kept(list, now, age))) + multiset(Removed(list, now, age))
  {
    if list != [] {
      SweepConserves(list[1..], now, age);
      assert list == [list[0]] + list[1..];
      SweepConservesOne(list[0], list[1..], now, age);
    }
  }

  /** Two survivors stand in the order they had before the sweep. */
  lemma {:induction false} SweepKeepsOrder(list: seq<Cell>, now: u64, age: u64, i: nat, j: nat) returns (a: nat, b: nat)
    requires i < j < |Kept(list, now, age)|
    ensures a < b < |list|
    ensures list[a] == Kept(list, now, age)[i] && list[b] == Kept(list, now, age)[j]
  {
    var n := if Retained(list[0].stamp, now, age) then 1 else 0;
    b := SurvivorWasThere(list[1..], now, age, j - n);
    if i < n {
      a := 0;
    } else {
      a, b := SweepKeepsOrder(list[1..], now, age, i - n, j - n);
      a := a + 1;
    }
    b := b + 1;
  }

  lemma {:induction false} SurvivorWasThere(list: seq<Cell>, now: u64, age: u64, i: nat) returns (a: nat)
    requires i < |Kept(list, now, age)|
    ensures a < |list| && list[a] == Kept(list, now, age)[i]
  {
    var n := if Retained(list[0].stamp, now, age) then 1 else 0;
    if i < n {
      a := 0;
    } else {
      a := SurvivorWasThere(list[1..], now, age, i - n);
      a := a + 1;
    }
  }

  lemma SweepKeepsValid(s: State, now: u64, age: u64)
    requires Valid(s)
    ensures Valid(Step(s, Sweep(now, age)))
  {
    var t := Step(s, Sweep(now, age));
    SweepConserves(s.list, now, age);
    assert forall id: nat :: Owners(t.list, t.freed, id) == Owners(s.list, s.freed, id);
    forall i, j | 0 <= i < j < |t.list| ensures KeyOf(t.list[i].rec) != KeyOf(t.list[j].rec) {
      var a, b := SweepKeepsOrder(s.list, now, age, i, j);
    }
  }

  lemma StepKeepsValid(s: State, e: Event)
    requires Valid(s)
    ensures Valid(Step(s, e))
  {
    match e
    case Scan(obs) => ScanKeepsValid(s, obs);
    case Done(obs) =>
      ScanKeepsValid(s, obs);
      var list := ScanAll(s, obs).list;
      ConservedIsDistinct(ScanAll(s, obs));
      assert list != [] ==> Ids(list)[0] in Ids(list);
    case Sweep(now, age) => SweepKeepsValid(s, now, age);
    case Get =>
      if Answers(s) && CurrentIndex(s) + 1 < |s.list| {
        ConservedIsDistinct(s);
        assert Ids(s.list)[CurrentIndex(s) + 1] in Ids(s.list);
      }
  }

  /**
   * Over every run of scans, sweeps and reads, in any order: the list never
   * repeats a node or a network, and each allocated node is either in the list
   * or was freed exactly once.
   */
  lemma {:induction false} RunKeepsValid(s: State, events: seq<Event>)
    requires Valid(s)
    ensures Valid(Run(s, events))
  {
    if events != [] {
      RunKeepsValid(s, events[..|events| - 1]);
      StepKeepsValid(Run(s, events[..|events| - 1]), events[|events| - 1]);
    }
  }

  lemma RunIsDistinct(s: State, events: seq<Event>)
    requires Valid(s)
    ensures Distinct(Ids(Run(s, events).list))
  {
    RunKeepsValid(s, events);
    ConservedIsDistinct(Run(s, events));
  }

  lemma FreshDriverIsValid()
    ensures Valid(EMPTY)
  {
  }

  // ---------- What the cached records are ----------

  ghost predicate IsConversion(rec: ScanResult) {
    exists station: Station, uptime: u64 :: rec == Convert(station, uptime)
  }

  /** Every cached record is the conversion of some node. */
  ghost predicate AllConverted(list: seq<Cell>) {
    forall c :: c in list ==> IsConversion(c.rec)
  }

  lemma PutKeepsConverted(s: State, k: Key, sec: u64, rec: ScanResult)
    requires AllConverted(s.list) && IsConversion(rec)
    ensures AllConverted(Put(s, k, sec, rec).list)
  {
  }

  lemma {:induction false} ScanKeepsConverted(s: State, obs: seq<Obs>)
    requires AllConverted(s.list)
    ensures AllConverted(ScanAll(s, obs).list)
  {
    if obs != [] {
      var o := obs[|obs| - 1];
      ScanKeepsConverted(s, obs[..|obs| - 1]);
      if Visible(o) {
        assert IsConversion(Convert(o.station, o.uptime));
        PutKeepsConverted(ScanAll(s, obs[..|obs| - 1]), KeyOfObs(o), o.sec, Convert(o.station, o.uptime));
      }
    }
  }

  lemma StepKeepsConverted(s: State, e: Event)
    requires AllConverted(s.list)
    ensures AllConverted(Step(s, e).list)
  {
    match e
    case Scan(obs) => ScanKeepsConverted(s, obs);
    case Done(obs) => ScanKeepsConverted(s, obs);
    case Sweep(now, age) =>
      forall c | c in Kept(s.list, now, age) ensures IsConversion(c.rec) {
        SweepMembers(s.list, now, age, c);
      }
    case Get =>
  }

  /** Over every run the cache holds nothing but conversions of nodes. */
  lemma {:induction false} RunKeepsConverted(s: State, events: seq<Event>)
    requires AllConverted(s.list)
    ensures AllConverted(Run(s, events).list)
  {
    if events != [] {
      RunKeepsConverted(s, events[..|events| - 1]);
      StepKeepsConverted(Run(s, events[..|events| - 1]), events[|events| - 1]);
    }
  }

  lemma ConversionsInBounds(list: seq<Cell>)
    requires AllConverted(list)
    ensures AllInBounds(list)
  {
    forall i | 0 <= i < |list| ensures InBounds(list[i].rec) {
      assert IsConversion(list[i].rec);
      var station: Station, uptime: u64 :| list[i].rec == Convert(station, uptime);
      ConvertInBounds(station, uptime);
    }
  }

  /** A record that the field-by-field copy hands out unchanged. */
  predicate Whole(rec: ScanResult) {
    InBounds(rec) && FieldCopy(rec) == rec
  }

  predicate AllWhole(list: seq<Cell>) {
    forall i :: 0 <= i < |list| ==> Whole(list[i].rec)
  }

  /** No node of the scan has more information elements than the sixteen-bit length can say. */
  predicate ShortElements(e: Event) {
    match e
    case Scan(obs) => forall i :: 0 <= i < |obs| ==> obs[i].station.ieLen < 0x8000
    case Done(obs) => forall i :: 0 <= i < |obs| ==> obs[i].station.ieLen < 0x8000
    case _ => true
  }

  lemma PutKeepsWhole(s: State, k: Key, sec: u64, rec: ScanResult)
    requires AllWhole(s.list) && Whole(rec)
    ensures AllWhole(Put(s, k, sec, rec).list)
  {
  }

  lemma {:induction false} ScanKeepsWhole(s: State, obs: seq<Obs>)
    requires AllWhole(s.list) && ShortElements(Scan(obs))
    ensures AllWhole(ScanAll(s, obs).list)
  {
    if obs != [] {
      var o := obs[|obs| - 1];
      ScanKeepsWhole(s, obs[..|obs| - 1]);
      ShortElementsAreKept(o.station, o.uptime);
      PutKeepsWhole(ScanAll(s, obs[..|obs| - 1]), KeyOfObs(o), o.sec, Convert(o.station, o.uptime));
    }
  }

  lemma {:induction false} SweepKeepsWhole(list: seq<Cell>, now: u64, age: u64)
    requires AllWhole(list)
    ensures AllWhole(Kept(list, now, age))
  {
    if list != [] {
      SweepKeepsWhole(list[1..], now, age);
    }
  }

  /** Over every run whose nodes stay below 32768 bytes of elements, every cached record is copied out whole. */
  lemma {:induction false} RunKeepsWhole(s: State, events: seq<Event>)
    requires AllWhole(s.list) && forall i :: 0 <= i < |events| ==> ShortElements(events[i])
    ensures AllWhole(Run(s, events).list)
  {
    if events != [] {
      var front := events[..|events| - 1];
      RunKeepsWhole(s, front);
      match events[|events| - 1]
      case Scan(obs) => ScanKeepsWhole(Run(s, front), obs);
      case Done(obs) => ScanKeepsWhole(Run(s, front), obs);
      case Sweep(now, age) => SweepKeepsWhole(Run(s, front).list, now, age);
      case Get =>
    }
  }

  // ---------- A scan overrides a map ----------

  datatype Value = Value(stamp: u64, rec: ScanResult)

  /** The cache read as a map from (BSSID, channel). */
  function Lookup(list: seq<Cell>, k: Key): Option<Value> {
    var n := Find(list, k);
    if n < |list| then Some(Value(list[n].stamp, list[n].rec)) else None
  }

  /** The last visible node of the walk with key k. */
  function LastSeen(obs: seq<Obs>, k: Key): Option<Obs> {
    if obs == [] then None
    else
      var o := obs[|obs| - 1];
      if Visible(o) && KeyOfObs(o) == k then Some(o) else LastSeen(obs[..|obs| - 1], k)
  }

  function ValueOf(o: Obs): Value {
    Value(o.sec, Convert(o.station, o.uptime))
  }

  lemma FindIs(list: seq<Cell>, k: Key, n: nat)
    requires n <= |list|
    requires n < |list| ==> KeyOf(list[n].rec) == k
    requires forall i :: 0 <= i < n ==> KeyOf(list[i].rec) != k
    ensures Find(list, k) == n
  {
    var m := Find(list, k);
    assert !(m < n) && !(n < m);
  }

  lemma PutLookup(s: State, k: Key, sec: u64, rec: ScanResult, k': Key)
    requires KeyOf(rec) == k
    ensures Lookup(Put(s, k, sec, rec).list, k') == if k' == k then Some(Value(sec, rec)) else Lookup(s.list, k')
  {
    var t := Put(s, k, sec, rec);
    var n := Find(s.list, k);
    if k' == k {
      FindIs(t.list, k, if n < |s.list| then n else 0);
    } else {
      FindIs(t.list, k', Find(s.list, k') + if n < |s.list| then 0 else 1);
    }
  }

  /**
   * A scan overrides the map: each network seen carries the conversion of its
   * last visible node, every other network keeps what it had.
   */
  lemma {:induction false} ScanOverrides(s: State, obs: seq<Obs>, k: Key)
    ensures Lookup(ScanAll(s, obs).list, k)
         == match LastSeen(obs, k) { case Some(o) => Some(ValueOf(o)) case None => Lookup(s.list, k) }
  {
    if obs != [] {
      var front, last := obs[..|obs| - 1], obs[|obs| - 1];
      ScanOverrides(s, front, k);
      PutLookup(ScanAll(s, front), KeyOfObs(last), last.sec, Convert(last.station, last.uptime), k);
    }
  }

  /** One node adds its identity in front if its network is new, and otherwise changes no identity. */
  lemma ObserveIds(s: State, o: Obs)
    ensures var t := Observe(s, o);
      && t.freed == s.freed && t.cursor == s.cursor
      && if t.made == s.made then Ids(t.list) == Ids(s.list)
         else t.made == s.made + 1 && Ids(t.list) == [s.made] + Ids(s.list)
  {
    var t := Observe(s, o);
    if t.made == s.made {
      assert Ids(t.list) == Ids(s.list);
    } else {
      assert Ids(t.list) == [s.made] + Ids(s.list);
    }
  }

  /** The identities `ids` end in `tail`, and those before it count down from made - 1. */
  predicate GrownFrom(ids: seq<nat>, tail: seq<nat>, made: nat) {
    && |tail| <= |ids|
    && ids[|ids| - |tail|..] == tail
    && forall i :: 0 <= i < |ids| - |tail| ==> ids[i] == made - 1 - i
  }

  lemma GrownByOne(ids: seq<nat>, tail: seq<nat>, made: nat)
    requires GrownFrom(ids, tail, made)
    ensures GrownFrom([made] + ids, tail, made + 1)
  {
    var more := [made] + ids;
    assert more[|more| - |tail|..] == ids[|ids| - |tail|..];
  }

  /** From s to t only new nodes have come in front. */
  predicate Grown(s: State, t: State) {
    && t.freed == s.freed && t.cursor == s.cursor && t.made == s.made + |t.list| - |s.list|
    && GrownFrom(Ids(t.list), Ids(s.list), t.made)
  }

  lemma ObserveGrows(s: State, mid: State, o: Obs)
    requires Grown(s, mid)
    ensures Grown(s, Observe(mid, o))
  {
    var t := Observe(mid, o);
    ObserveIds(mid, o);
    assert |Ids(t.list)| == |t.list| && |Ids(mid.list)| == |mid.list|;
    if t.made != mid.made {
      GrownByOne(Ids(mid.list), Ids(s.list), mid.made);
    }
  }

  lemma {:induction false} ScanGrows(s: State, obs: seq<Obs>)
    ensures Grown(s, ScanAll(s, obs))
  {
    if obs != [] {
      ScanGrows(s, obs[..|obs| - 1]);
      ObserveGrows(s, ScanAll(s, obs[..|obs| - 1]), obs[|obs| - 1]);
    }
  }

  /** The node has a name and this BSSID and channel: the source's own test of the tree walk and the list walk. */
  predicate Shows(o: Obs, bssid: seq<u8>, channel: u32) {
    o.station.essid[0] != 0 && o.station.bssid == bssid && o.station.channel.number == channel
  }

  /** If the node has this BSSID and channel, it has no name. */
  predicate Nameless(o: Obs, bssid: seq<u8>, channel: u32) {
    o.station.bssid == bssid && o.station.channel.number == channel ==> o.station.essid[0] == 0
  }

  lemma {:induction false} LastSeenIs(obs: seq<Obs>, i: nat, bssid: seq<u8>, channel: u32)
    requires i < |obs| && Shows(obs[i], bssid, channel)
    requires forall j :: i < j < |obs| ==> !Shows(obs[j], bssid, channel)
    ensures LastSeen(obs, Key(bssid, channel)) == Some(obs[i])
  {
    if i < |obs| - 1 {
      LastSeenIs(obs[..|obs| - 1], i, bssid, channel);
    }
  }

  lemma {:induction false} NoneSeen(obs: seq<Obs>, bssid: seq<u8>, channel: u32)
    requires forall j :: 0 <= j < |obs| ==> !Shows(obs[j], bssid, channel)
    ensures LastSeen(obs, Key(bssid, channel)) == None
  {
    if obs != [] {
      NoneSeen(obs[..|obs| - 1], bssid, channel);
    }
  }

  /** The last node of the walk with a name and this BSSID and channel is what the cache holds for them afterwards. */
  lemma LastNamedIsCached(s: State, obs: seq<Obs>, i: nat, bssid: seq<u8>, channel: u32)
    requires i < |obs| && Shows(obs[i], bssid, channel)
    requires forall j :: i < j < |obs| ==> !Shows(obs[j], bssid, channel)
    ensures Lookup(ScanAll(s, obs).list, Key(bssid, channel))
         == Some(Value(obs[i].sec, Convert(obs[i].station, obs[i].uptime)))
  {
    LastSeenIs(obs, i, bssid, channel);
    ScanOverrides(s, obs, Key(bssid, channel));
  }

  /** Nodes without a name change nothing: if no node with this BSSID and channel has one, the entry stays as it was. */
  lemma NamelessAreSkipped(s: State, obs: seq<Obs>, bssid: seq<u8>, channel: u32)
    requires forall j :: 0 <= j < |obs| ==> Nameless(obs[j], bssid, channel)
    ensures Lookup(ScanAll(s, obs).list, Key(bssid, channel)) == Lookup(s.list, Key(bssid, channel))
  {
    NoneSeen(obs, bssid, channel);
    ScanOverrides(s, obs, Key(bssid, channel));
  }

  /** What a lookup finds is an entry of the list with that BSSID and channel; it fails only if there is none. */
  lemma LookupFinds(list: seq<Cell>, bssid: seq<u8>, channel: u32)
    ensures var found := Lookup(list, Key(bssid, channel));
      if found.Some? then
        exists n :: (
          && 0 <= n < |list| && list[n].rec.bssid == bssid && list[n].rec.channel.number == channel
          && found.value == Value(list[n].stamp, list[n].rec))
      else forall n :: 0 <= n < |list| ==> list[n].rec.bssid != bssid || list[n].rec.channel.number != channel
  {
    var n := Find(list, Key(bssid, channel));
    if n < |list| {
      assert KeyOf(list[n].rec) == Key(bssid, channel);
    } else {
      forall i | 0 <= i < |list| ensures list[i].rec.bssid != bssid || list[i].rec.channel.number != channel {
        assert KeyOf(list[i].rec) != Key(bssid, channel);
      }
    }
  }

  /** The old nodes survive a scan, in order, as the tail of the new list; the nodes before them are new. */
  lemma ScanKeepsSuffix(s: State, obs: seq<Obs>)
    ensures var t := ScanAll(s, obs); var grown := |t.list| - |s.list|;
      && 0 <= grown && t.made == s.made + grown
      && t.freed == s.freed && t.cursor == s.cursor
      && Ids(t.list)[grown..] == Ids(s.list)
      && forall i :: 0 <= i < grown ==> Ids(t.list)[i] == t.made - 1 - i
  {
    ScanGrows(s, obs);
  }

  lemma OldNodesLast(s: State, obs: seq<Obs>) returns (g: nat)
    ensures var t := ScanAll(s, obs);
      g == |t.list| - |s.list| && Ids(t.list)[g..] == Ids(s.list) && t.cursor == s.cursor
  {
    ScanKeepsSuffix(s, obs);
    g := |ScanAll(s, obs).list| - |s.list|;
  }

  /** The networks at the end of the list, in order. */
  predicate EndsWithKeys(list: seq<Cell>, keys: seq<Key>) {
    |keys| <= |list| && forall i :: 0 <= i < |keys| ==> keys[i] == KeyOf(list[|list| - |keys| + i].rec)
  }

  lemma PutKeepsKeys(s: State, k: Key, sec: u64, rec: ScanResult, keys: seq<Key>)
    requires KeyOf(rec) == k && EndsWithKeys(s.list, keys)
    ensures EndsWithKeys(Put(s, k, sec, rec).list, keys)
  {
  }

  /** A scan overwrites a node only with a record of the same network. */
  lemma {:induction false} ScanKeepsKeys(s: State, obs: seq<Obs>, keys: seq<Key>)
    requires EndsWithKeys(s.list, keys)
    ensures EndsWithKeys(ScanAll(s, obs).list, keys)
  {
    if obs != [] {
      var front, o := obs[..|obs| - 1], obs[|obs| - 1];
      ScanKeepsKeys(s, front, keys);
      if Visible(o) {
        PutKeepsKeys(ScanAll(s, front), KeyOfObs(o), o.sec, Convert(o.station, o.uptime), keys);
      }
    }
  }

  /** A scan forgets no node, and the nodes it adds were never allocated before. */
  lemma ScanIds(s: State, obs: seq<Obs>)
    ensures forall id :: id in Ids(s.list) ==> id in Ids(ScanAll(s, obs).list)
    ensures forall id :: id in Ids(ScanAll(s, obs).list) ==> id in Ids(s.list) || s.made <= id
  {
    ScanKeepsSuffix(s, obs);
    var ids := Ids(ScanAll(s, obs).list);
    var grown := |ids| - |s.list|;
    assert ids == ids[..grown] + ids[grown..];
  }

  lemma SweepIds(list: seq<Cell>, now: u64, age: u64)
    ensures forall id :: id in Ids(Kept(list, now, age)) ==> id in Ids(list)
  {
    SweepConserves(list, now, age);
    forall id | id in Ids(Kept(list, now, age)) ensures id in Ids(list) {
      assert id in multiset(Ids(Kept(list, now, age)));
      assert id in multiset(Ids(list));
    }
  }

  lemma HeadInList(list: seq<Cell>)
    ensures list != [] ==> list[0].id in Ids(list)
  {
    if list != [] {
      assert Ids(list)[0] in Ids(list);
    }
  }
}
