/**
 * The scan cache as a state machine: the list in order, the enumeration cursor,
 * and which list nodes were ever allocated and freed. `ScanList.ScanCache`
 * implements every step on a heap-allocated list.
 */
module ScanModel {
  import opened MachineTypes
  import opened ScanRecord

  /** One node met by the tree walk, with the clock readings taken while it is handled. */
  datatype Obs = Obs(station: Station, sec: u64, uptime: u64)

  datatype Key = Key(bssid: seq<u8>, channel: u32)

  /** A list node: `id` is its identity (its place in the order of allocation). */
  datatype Cell = Cell(id: nat, stamp: u64, rec: ScanResult)

  /** `cursor` is `scan_result_next`; `made` counts the nodes ever allocated. */
  datatype State = State(list: seq<Cell>, cursor: Option<nat>, made: nat, freed: seq<nat>)

  const EMPTY: State := State([], None, 0, [])

  datatype Event =
    | Scan(obs: seq<Obs>)           // scanComplete
    | Done(obs: seq<Obs>)           // apple80211_scan_done
    | Sweep(now: u64, age: u64)     // scanFreeResults
    | Get                           // getSCAN_RESULT

  /** `NoMore` is the return code 0x05. */
  datatype Reply = Record(rec: ScanResult) | NoMore

  predicate Visible(o: Obs) {
    o.station.essid[0] != 0
  }

  function KeyOfObs(o: Obs): Key {
    Key(o.station.bssid, o.station.channel.number)
  }

  function KeyOf(rec: ScanResult): Key {
    Key(rec.bssid, rec.channel.number)
  }

  function Ids(list: seq<Cell>): (ids: seq<nat>)
    ensures |ids| == |list|
    ensures forall i :: 0 <= i < |list| ==> ids[i] == list[i].id
  {
    seq(|list|, i requires 0 <= i < |list| => list[i].id)
  }

  /** Position of the first node with key k, or the length of the list. */
  function Find(list: seq<Cell>, k: Key): (n: nat)
    ensures n <= |list|
    ensures n < |list| ==> KeyOf(list[n].rec) == k
    ensures forall i :: 0 <= i < n ==> KeyOf(list[i].rec) != k
  {
    if list == [] || KeyOf(list[0].rec) == k then 0 else 1 + Find(list[1..], k)
  }

  /** Position of the node with identity id, or the length of the list. */
  function IndexOf(list: seq<Cell>, id: nat): (n: nat)
    ensures n <= |list|
    ensures n < |list| ==> list[n].id == id
    ensures forall i :: 0 <= i < n ==> list[i].id != id
  {
    if list == [] || list[0].id == id then 0 else 1 + IndexOf(list[1..], id)
  }

  /** Overwrite the node with key k in place, or insert a new node at the head. */
  function Put(s: State, k: Key, sec: u64, rec: ScanResult): State {
    var n := Find(s.list, k);
    if n < |s.list| then
      s.(list := s.list[n := Cell(s.list[n].id, sec, rec)])
    else
      s.(list := [Cell(s.made, sec, rec)] + s.list, made := s.made + 1)
  }

  function Observe(s: State, o: Obs): State {
    if Visible(o) then Put(s, KeyOfObs(o), o.sec, Convert(o.station, o.uptime)) else s
  }

  function ScanAll(s: State, obs: seq<Obs>): State {
    if obs == [] then s else Observe(ScanAll(s, obs[..|obs| - 1]), obs[|obs| - 1])
  }

  predicate Retained(stamp: u64, now: u64, age: u64) {
    age != 0 && (now - stamp) % TWO_64 <= age
  }

  function Kept(list: seq<Cell>, now: u64, age: u64): seq<Cell> {
    if list == [] then []
    else (if Retained(list[0].stamp, now, age) then [list[0]] else []) + Kept(list[1..], now, age)
  }

  function Removed(list: seq<Cell>, now: u64, age: u64): seq<nat> {
    if list == [] then []
    else (if Retained(list[0].stamp, now, age) then [] else [list[0].id]) + Removed(list[1..], now, age)
  }

  /** The cursor is null or names a node that is still in the list. */
  predicate CursorLive(s: State) {
    s.cursor.Some? ==> s.cursor.value in Ids(s.list)
  }

  function Head(list: seq<Cell>): Option<nat> {
    if list == [] then None else Some(list[0].id)
  }

  /** `SLIST_NEXT` of the node at position n. */
  function Successor(list: seq<Cell>, n: nat): Option<nat> {
    if n + 1 < |list| then Some(list[n + 1].id) else None
  }

  /** A read through the cursor answers with a record only in these states. */
  predicate Answers(s: State) {
    s.list != [] && s.cursor.Some? && s.cursor.value in Ids(s.list)
  }

  function CurrentIndex(s: State): (n: nat)
    requires Answers(s)
    ensures n < |s.list| && s.list[n].id == s.cursor.value
  {
    IndexOf(s.list, s.cursor.value)
  }

  function ReplyOf(s: State): Reply
    requires AllInBounds(s.list)
  {
    if Answers(s) then Record(FieldCopy(s.list[CurrentIndex(s)].rec)) else NoMore
  }

  predicate AllInBounds(list: seq<Cell>) {
    forall i :: 0 <= i < |list| ==> InBounds(list[i].rec)
  }

  /** A read through a dead cursor is no step of the driver; the model leaves the state alone. */
  function Step(s: State, e: Event): State {
    match e
    case Scan(obs) => ScanAll(s, obs)
    case Done(obs) => var t := ScanAll(s, obs); t.(cursor := Head(t.list))
    case Sweep(now, age) => s.(list := Kept(s.list, now, age), freed := s.freed + Removed(s.list, now, age))
    case Get => if Answers(s) then s.(cursor := Successor(s.list, CurrentIndex(s))) else s
  }

  function Run(s: State, events: seq<Event>): State {
    if events == [] then s else Step(Run(s, events[..|events| - 1]), events[|events| - 1])
  }
}
