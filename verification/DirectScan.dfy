/** The table of SSIDs probed actively, and the scan requests that rewrite it. */
module DirectScan {
  import opened MachineTypes
  import opened ScanRecord
  import opened ScanModel
  import ScanList

  const SLOTS := 15       // ic->direct_scan[15]
  const MAX_SSIDS := 10   // apple80211_scan_multiple_data.ssids[10]
  const BAD_ARGUMENT: u32 := 0x16
  const SUCCESS: u32 := 0

  /** `struct ssid_data`. */
  datatype Slot = Slot(len: u8, ssid: seq<u8>)

  const ZERO_SLOT: Slot := Slot(0, Zeros(SSID_BYTES))

  /** A requested SSID: its length, its buffer, and the byte that follows the buffer in the request. */
  datatype SsidData = Ssid(len: u32, bytes: seq<u8>, after: u8)

  type Ssid = s: SsidData | |s.bytes| == SSID_BYTES && s.len <= SSID_BYTES
    witness Ssid(0, Zeros(SSID_BYTES), 0)

  /** What `setSCAN_REQ_MULTIPLE` reads of its request. */
  datatype MultipleData = MultipleData(reqs: seq<Ssid>, channels: seq<u32>)

  /** `strcmp(request, cached) == 0`: a cached SSID is always followed by a zero byte, a requested one need not be. */
  predicate Matches(req: Ssid, rec: ScanResult) {
    CString(req.bytes + [req.after]) == CString(rec.ssid)
  }

  predicate Cached(list: seq<Cell>, req: Ssid) {
    exists i :: 0 <= i < |list| && Matches(req, list[i].rec)
  }

  function SlotOf(req: Ssid): Slot {
    Slot(req.len, Padded(req.bytes[..req.len], SSID_BYTES))
  }

  predicate Probed(list: seq<Cell>, req: Ssid) {
    req.len > 0 && !Cached(list, req)
  }

  /** The first n requested SSIDs that are worth probing, in request order. */
  function UncachedUpTo(list: seq<Cell>, reqs: seq<Ssid>, n: nat): (table: seq<Slot>)
    requires n <= |reqs|
    ensures |table| <= n
  {
    if n == 0 then []
    else UncachedUpTo(list, reqs, n - 1) + if Probed(list, reqs[n - 1]) then [SlotOf(reqs[n - 1])] else []
  }

  function Uncached(list: seq<Cell>, reqs: seq<Ssid>): (table: seq<Slot>)
    ensures |table| <= |reqs|
  {
    UncachedUpTo(list, reqs, |reqs|)
  }

  lemma UncachedOne(list: seq<Cell>, req: Ssid)
    ensures Uncached(list, [req]) == if Probed(list, req) then [SlotOf(req)] else []
  {
    assert UncachedUpTo(list, [req], 0) == [];
  }

  predicate AsksForChannelOne(channels: seq<u32>) {
    1 in channels && 0 !in channels
  }

  datatype Request =
    | Single(req: Ssid, obs: seq<Obs>)
    | Multiple(reqs: seq<Ssid>, channels: seq<u32>, obs: seq<Obs>)
    | Other(e: Event)

  datatype Scanner = Scanner(cache: State, table: seq<Slot>)

  /** The cache as the request sees it: refreshed, if the request looks at it at all. */
  function Refreshed(cache: State, r: Request): State {
    match r
    case Single(req, obs) => if req.len > 0 then ScanAll(cache, obs) else cache
    case Multiple(reqs, channels, obs) => if AsksForChannelOne(channels) then ScanAll(cache, obs) else cache
    case Other(e) => Step(cache, e)
  }

  predicate Rewrites(cache: State, r: Request) {
    match r
    case Single(req, obs) => Probed(Refreshed(cache, r).list, req)
    case Multiple(reqs, channels, obs) => AsksForChannelOne(channels)
    case Other(e) => false
  }

  function Requested(r: Request): seq<Ssid> {
    match r
    case Single(req, obs) => [req]
    case Multiple(reqs, channels, obs) => reqs
    case Other(e) => []
  }

  function Handle(s: Scanner, r: Request): Scanner {
    var cache := Refreshed(s.cache, r);
    Scanner(cache, if Rewrites(s.cache, r) then Uncached(cache.list, Requested(r)) else s.table)
  }

  function HandleAll(s: Scanner, rs: seq<Request>): Scanner {
    if rs == [] then s else Handle(HandleAll(s, rs[..|rs| - 1]), rs[|rs| - 1])
  }

  predicate SlotInUse(slot: Slot) {
    && 0 < slot.len <= SSID_BYTES && |slot.ssid| == SSID_BYTES
    && forall i :: slot.len <= i < SSID_BYTES ==> slot.ssid[i] == 0
  }

  /** Ten slots at most are in use, each with a positive length and zero padding. */
  predicate TableOk(table: seq<Slot>) {
    |table| <= MAX_SSIDS && forall i :: 0 <= i < |table| ==> SlotInUse(table[i])
  }

  predicate WellSized(r: Request) {
    r.Multiple? ==> |r.reqs| <= MAX_SSIDS
  }

  class Prober {
    const cache: ScanList.ScanCache
    const slots: array<Slot>   // ic->direct_scan
    var count: nat             // ic->direct_scan_count

    ghost predicate Valid()
      reads this, slots, cache, cache.spine
    {
      && cache.Valid()
      && slots.Length == SLOTS && count <= MAX_SSIDS
      && TableOk(slots[..count])
      && forall i :: count <= i < SLOTS ==> slots[i] == ZERO_SLOT
    }

    ghost function Abs(): Scanner
      requires Valid()
      reads this, slots, cache, cache.spine
    {
      Scanner(cache.model, slots[..count])
    }

    constructor ()
      ensures Valid() && Abs() == Scanner(EMPTY, []) && fresh(cache) && fresh(slots)
    {
      cache := new ScanList.ScanCache();
      slots := new Slot[SLOTS](_ => ZERO_SLOT);
      count := 0;
    }

    /** The lookup loop over the cached records. */
    method InCache(req: Ssid) returns (found: bool)
      requires cache.Valid()
      ensures found == Cached(cache.model.list, req)
    {
      found := false;
      var e := cache.head;
      ghost var i := 0;
      while e != null
        invariant i <= |cache.spine| && e == if i < |cache.spine| then cache.spine[i] else null
        invariant forall j :: 0 <= j < i ==> !Matches(req, cache.model.list[j].rec)
        decreases |cache.spine| - i
      {
        assert cache.model.list[i].rec == e.rec;
        if CString(req.bytes + [req.after]) == CString(e.rec.ssid) {
          found := true;
          return;
        }
        e, i := e.next, i + 1;
      }
    }

    /** `strcmp` of a request with slot i, whose buffer is followed by the length byte of slot i + 1. */
    ghost predicate MatchesSlot(req: Ssid, i: int)
      requires Valid() && 0 <= i < count
      reads this, slots, cache, cache.spine
    {
      CString(req.bytes + [req.after]) == CString(slots[i].ssid + [slots[i + 1].len])
    }

    /** The lookup loop over the table. */
    method InTable(req: Ssid) returns (found: bool)
      requires Valid()
      ensures found == exists i :: 0 <= i < count && MatchesSlot(req, i)
    {
      found := false;
      var i := 0;
      while i < count
        invariant i <= count && forall j :: 0 <= j < i ==> !MatchesSlot(req, j)
      {
        if CString(req.bytes + [req.after]) == CString(slots[i].ssid + [slots[i + 1].len]) {
          assert MatchesSlot(req, i);
          found := true;
          return;
        }
        i := i + 1;
      }
    }

    method ClearTable()
      requires Valid()
      modifies this`count, slots
      ensures Valid() && count == 0
    {
      count := 0;
      forall i | 0 <= i < SLOTS {
        slots[i] := ZERO_SLOT;
      }
    }

    method Append(req: Ssid)
      requires Valid() && count < MAX_SSIDS && req.len > 0
      modifies this`count, slots
      ensures Valid() && count == old(count) + 1 && slots[..count] == old(slots[..count]) + [SlotOf(req)]
    {
      var slot := slots[count];
      slots[count] := Slot(req.len, req.bytes[..req.len] + slot.ssid[req.len..]);
      count := count + 1;
      assert slots[count - 1] == SlotOf(req) by {
        assert slots[count - 1].ssid == Padded(req.bytes[..req.len], SSID_BYTES);
      }
    }

    /** The two searches of a single request, and what they do to the table. */
    method ProbeOne(req: Ssid) returns (ms: u32)
      requires Valid() && req.len > 0
      modifies this`count, slots
      ensures Valid()
      ensures ms == if Probed(cache.model.list, req) then 1000 else 200
      ensures slots[..count] == if Probed(cache.model.list, req) then [SlotOf(req)] else old(slots[..count])
    {
      ms := 200;
      var found := InCache(req);
      if !found {
        ms := 1000;
        ClearTable();
      }
      var directFound := InTable(req);
      if !found && !directFound {
        Append(req);
      }
    }

    /** The part of `setSCAN_REQ` both interfaces share. */
    method Probe(req: Ssid, obs: seq<Obs>) returns (ms: u32)
      requires Valid()
      modifies this`count, slots, cache, cache.made
      ensures Valid() && Abs() == Handle(old(Abs()), Single(req, obs))
      ensures req.len > 0 ==> Abs().cache == ScanAll(old(Abs()).cache, obs)
      ensures ms == if req.len > 0 && !Cached(Abs().cache.list, req) then 1000 else 200
    {
      ms := 200;
      if req.len > 0 {
        cache.ScanComplete(obs);
        UncachedOne(cache.model.list, req);
        ms := ProbeOne(req);
      }
    }

    method SetScanReqLegacy(request: Option<Ssid>, obs: seq<Obs>) returns (ret: u32, timeout: Option<u32>)
      requires Valid()
      modifies this`count, slots, cache, cache.made
      ensures Valid()
      ensures request.None? ==> ret == BAD_ARGUMENT && timeout == None && Abs() == old(Abs())
      ensures request.Some? ==>
        && ret == SUCCESS && Abs() == Handle(old(Abs()), Single(request.value, obs))
        && (request.value.len > 0 ==> Abs().cache == ScanAll(old(Abs()).cache, obs))
        && timeout == Some(if request.value.len > 0 && !Cached(Abs().cache.list, request.value) then 1000 else 200)
    {
      if request.None? {
        return BAD_ARGUMENT, None;
      }
      var ms := Probe(request.value, obs);
      ret, timeout := SUCCESS, Some(ms);
    }

    /** Fast and passive requests only set a timer from their dwell time; the others also start a background scan. */
    method SetScanReqSkywalk(request: Option<Ssid>, obs: seq<Obs>, scanType: u32, dwell: u16)
      returns (ret: u32, timeout: Option<u32>, background: bool)
      requires Valid()
      modifies this`count, slots, cache, cache.made
      ensures Valid()
      ensures request.None? ==> ret == BAD_ARGUMENT && timeout == None && !background && Abs() == old(Abs())
      ensures request.Some? ==>
        && ret == SUCCESS && Abs() == Handle(old(Abs()), Single(request.value, obs))
        && (request.value.len > 0 ==> Abs().cache == ScanAll(old(Abs()).cache, obs))
        && background == (scanType != 2 && scanType != 3)
        && timeout == Some(if !background then dwell
                           else if request.value.len > 0 && !Cached(Abs().cache.list, request.value) then 1000
                           else 200)
    {
      if request.None? {
        return BAD_ARGUMENT, None, false;
      }
      var ms := Probe(request.value, obs);
      if scanType == 3 || scanType == 2 {
        return SUCCESS, Some(dwell), false;
      }
      ret, timeout, background := SUCCESS, Some(ms), true;
    }

    /** The channel loop of the multiple request: the least channel asked for, at most 165. */
    static method MinChannel(channels: seq<u32>) returns (least: u32)
      ensures least <= 165 && (least == 165 || least in channels)
      ensures forall i :: 0 <= i < |channels| ==> least <= channels[i]
    {
      least := 165;
      for i := 0 to |channels|
        invariant least <= 165 && (least == 165 || least in channels)
        invariant forall j :: 0 <= j < i ==> least <= channels[j]
      {
        if channels[i] < least {
          least := channels[i];
        }
      }
    }

    static lemma LeastIsOne(channels: seq<u32>, least: u32)
      requires least == 165 || least in channels
      requires forall i :: 0 <= i < |channels| ==> least <= channels[i]
      ensures least == 1 <==> AsksForChannelOne(channels)
    {
      if AsksForChannelOne(channels) {
        assert least != 0;
      }
    }

    /** One turn of the loop over the requested SSIDs. */
    method AppendIfUncached(reqs: seq<Ssid>, i: nat) returns (added: bool)
      requires Valid() && count < MAX_SSIDS && i < |reqs|
      requires slots[..count] == UncachedUpTo(cache.model.list, reqs, i)
      modifies this`count, slots
      ensures Valid() && count == old(count) + if added then 1 else 0
      ensures slots[..count] == UncachedUpTo(cache.model.list, reqs, i + 1)
    {
      added := false;
      var req := reqs[i];
      if req.len > 0 {
        var found := InCache(req);
        if !found {
          Append(req);
          added := true;
        }
      }
    }

    /** The loop over the requested SSIDs, started on a cleared table. */
    method AppendUncached(reqs: seq<Ssid>) returns (any: bool)
      requires Valid() && count == 0 && |reqs| <= MAX_SSIDS
      modifies this`count, slots
      ensures Valid() && slots[..count] == Uncached(cache.model.list, reqs) && any == (count > 0)
    {
      any := false;
      var i := 0;
      while i < |reqs|
        invariant i <= |reqs| && Valid() && count <= i && any == (count > 0)
        invariant slots[..count] == UncachedUpTo(cache.model.list, reqs, i)
      {
        var added := AppendIfUncached(reqs, i);
        any := any || added;
        i := i + 1;
      }
    }

    method ProbeMultiple(reqs: seq<Ssid>, channels: seq<u32>, obs: seq<Obs>) returns (ms: u32)
      requires Valid() && |reqs| <= MAX_SSIDS
      modifies this`count, slots, cache, cache.made
      ensures Valid() && Abs() == Handle(old(Abs()), Multiple(reqs, channels, obs))
      ensures 1 in channels && 0 !in channels ==>
        && Abs().cache == ScanAll(old(Abs()).cache, obs) && Abs().table == Uncached(Abs().cache.list, reqs)
        && ms == if Abs().table != [] then 2000 else 200
      ensures 1 !in channels || 0 in channels ==> Abs() == old(Abs()) && ms == 200
    {
      ms := 200;
      var least := MinChannel(channels);
      LeastIsOne(channels, least);
      if least == 1 {
        cache.ScanComplete(obs);
        ClearTable();
        var any := AppendUncached(reqs);
        if any {
          ms := 2000;
        }
      }
    }

    method SetScanReqMultiple(request: Option<MultipleData>, obs: seq<Obs>) returns (ret: u32, timeout: Option<u32>)
      requires Valid() && (request.Some? ==> |request.value.reqs| <= MAX_SSIDS)
      modifies this`count, slots, cache, cache.made
      ensures Valid()
      ensures request.None? ==> ret == BAD_ARGUMENT && timeout == None && Abs() == old(Abs())
      ensures request.Some? ==> var r := request.value;
        && ret == SUCCESS && Abs() == Handle(old(Abs()), Multiple(r.reqs, r.channels, obs))
        && timeout == Some(if 1 in r.channels && 0 !in r.channels && Abs().table != [] then 2000 else 200)
    {
      if request.None? {
        return BAD_ARGUMENT, None;
      }
      var ms := ProbeMultiple(request.value.reqs, request.value.channels, obs);
      ret, timeout := SUCCESS, Some(ms);
    }
  }
}
