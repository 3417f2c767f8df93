/** Laws of the active-probe table, over any mix of scan requests and cache events. */
module DirectLaws {
  import opened MachineTypes
  import opened ScanRecord
  import opened ScanModel
  import opened DirectScan
  import L = ScanLaws

  // ---------- The table ----------

  predicate AllInUse(table: seq<Slot>) {
    forall i :: 0 <= i < |table| ==> SlotInUse(table[i])
  }

  lemma SlotOfIsInUse(req: Ssid)
    ensures req.len > 0 ==> SlotInUse(SlotOf(req))
  {
  }

  lemma {:induction false} UncachedInUse(list: seq<Cell>, reqs: seq<Ssid>, n: nat)
    requires n <= |reqs|
    ensures AllInUse(UncachedUpTo(list, reqs, n))
  {
    if n > 0 {
      UncachedInUse(list, reqs, n - 1);
      SlotOfIsInUse(reqs[n - 1]);
      var before, table := UncachedUpTo(list, reqs, n - 1), UncachedUpTo(list, reqs, n);
      assert forall i :: 0 <= i < |before| ==> table[i] == before[i];
    }
  }

  /** Whatever requests arrive, ten slots at most are in use, each with a positive length and zero padding. */
  lemma {:induction false} TableStaysOk(s: Scanner, rs: seq<Request>)
    requires TableOk(s.table) && forall i :: 0 <= i < |rs| ==> WellSized(rs[i])
    ensures TableOk(HandleAll(s, rs).table)
  {
    if rs != [] {
      var front, last := rs[..|rs| - 1], rs[|rs| - 1];
      TableStaysOk(s, front);
      UncachedInUse(Refreshed(HandleAll(s, front).cache, last).list, Requested(last), |Requested(last)|);
    }
  }

  /**
   * A single request for a non-empty SSID refreshes the cache; then it leaves the
   * table alone if a cached SSID compares equal as a C string, and otherwise
   * replaces it by the one SSID, zero padded. An empty SSID does nothing.
   */
  lemma SingleEffect(s: Scanner, req: Ssid, obs: seq<Obs>)
    ensures req.len == 0 ==> Handle(s, Single(req, obs)) == s
    ensures req.len > 0 ==>
      var t, list := Handle(s, Single(req, obs)), ScanAll(s.cache, obs).list;
      && t.cache == ScanAll(s.cache, obs)
      && if exists i :: 0 <= i < |list| && CString(req.bytes + [req.after]) == CString(list[i].rec.ssid)
         then t.table == s.table
         else
           && |t.table| == 1 && t.table[0].len == req.len && |t.table[0].ssid| == SSID_BYTES
           && t.table[0].ssid[..req.len] == req.bytes[..req.len]
           && forall i :: req.len <= i < SSID_BYTES ==> t.table[0].ssid[i] == 0
  {
    if req.len > 0 {
      var list := ScanAll(s.cache, obs).list;
      UncachedOne(list, req);
      assert forall i :: 0 <= i < |list| ==>
        (Matches(req, list[i].rec) <==> CString(req.bytes + [req.after]) == CString(list[i].rec.ssid));
    }
  }

  /** A multiple request for channel 1 and not 0 refreshes the cache and fills the table; others do nothing. */
  lemma MultipleEffect(s: Scanner, reqs: seq<Ssid>, channels: seq<u32>, obs: seq<Obs>)
    ensures var t := Handle(s, Multiple(reqs, channels, obs));
      if 1 in channels && 0 !in channels
      then t.cache == ScanAll(s.cache, obs) && t.table == Uncached(ScanAll(s.cache, obs).list, reqs)
      else t == s
  {
  }

  /** Between requests the cache may change in any way, and the table stays. */
  lemma CacheEventEffect(s: Scanner, e: Event)
    ensures Handle(s, Other(e)) == Scanner(Step(s.cache, e), s.table)
  {
  }

  /** The request replaces the table: a single one that the refreshed cache misses, or a multiple one for channel 1. */
  predicate Replaces(s: Scanner, r: Request) {
    match r
    case Single(req, obs) => req.len > 0 && !Cached(ScanAll(s.cache, obs).list, req)
    case Multiple(_, channels, _) => 1 in channels && 0 !in channels
    case Other(_) => false
  }

  /** What it puts there. */
  function Replacement(s: Scanner, r: Request): seq<Slot>
    requires Replaces(s, r)
  {
    match r
    case Single(req, obs) => [SlotOf(req)]
    case Multiple(reqs, _, obs) => Uncached(ScanAll(s.cache, obs).list, reqs)
  }

  lemma TableStep(s: Scanner, r: Request)
    ensures Handle(s, r).table == if Replaces(s, r) then Replacement(s, r) else s.table
  {
    match r
    case Single(req, obs) => UncachedOne(ScanAll(s.cache, obs).list, req);
    case Multiple(_, _, _) =>
    case Other(_) =>
  }

  /** The position of the last request of the run that replaced the table. */
  function LastReplacing(s: Scanner, rs: seq<Request>): (at: Option<nat>)
    ensures at.Some? ==> at.value < |rs| && Replaces(HandleAll(s, rs[..at.value]), rs[at.value])
  {
    if rs == [] then None
    else
      var front := rs[..|rs| - 1];
      if Replaces(HandleAll(s, front), rs[|rs| - 1]) then Some(|rs| - 1)
      else
        var at := LastReplacing(s, front);
        assert at.Some? ==> rs[..at.value] == front[..at.value];
        at
  }

  /** The table is what the last replacing request of the run put there, from the cache that it had refreshed. */
  lemma {:induction false} TableIsLastReplacement(s: Scanner, rs: seq<Request>)
    ensures HandleAll(s, rs).table == match LastReplacing(s, rs)
      case None => s.table
      case Some(at) => Replacement(HandleAll(s, rs[..at]), rs[at])
  {
    if rs != [] {
      var front := rs[..|rs| - 1];
      TableStep(HandleAll(s, front), rs[|rs| - 1]);
      if !Replaces(HandleAll(s, front), rs[|rs| - 1]) {
        TableIsLastReplacement(s, front);
        var at := LastReplacing(s, front);
        assert at.Some? ==> rs[..at.value] == front[..at.value];
      }
    }
  }

  /** Single requests alone never keep more than one SSID. */
  lemma {:induction false} SingleKeepsOne(s: Scanner, rs: seq<Request>)
    requires |s.table| <= 1 && forall i :: 0 <= i < |rs| ==> !rs[i].Multiple?
    ensures |HandleAll(s, rs).table| <= 1
  {
    if rs != [] {
      SingleKeepsOne(s, rs[..|rs| - 1]);
    }
  }

  /** Positions picked from 0..n, in increasing order. */
  predicate Increasing(picks: seq<nat>, n: nat) {
    && (forall i :: 0 <= i < |picks| ==> picks[i] < n)
    && (forall i, j :: 0 <= i < j < |picks| ==> picks[i] < picks[j])
  }

  /** The positions of the SSIDs that get into the table. */
  function Picks(list: seq<Cell>, reqs: seq<Ssid>, n: nat): (picks: seq<nat>)
    requires n <= |reqs|
    ensures Increasing(picks, n)
  {
    if n == 0 then []
    else if Probed(list, reqs[n - 1]) then Picks(list, reqs, n - 1) + [n - 1]
    else Picks(list, reqs, n - 1)
  }

  lemma {:induction false} PicksAreUncached(list: seq<Cell>, reqs: seq<Ssid>, n: nat, i: nat)
    requires n <= |reqs| && i < n
    ensures i in Picks(list, reqs, n) <==> reqs[i].len > 0 && !Cached(list, reqs[i])
  {
    if i < n - 1 {
      PicksAreUncached(list, reqs, n - 1, i);
    }
  }

  lemma {:induction false} PicksFillTable(list: seq<Cell>, reqs: seq<Ssid>, n: nat, k: nat)
    requires n <= |reqs|
    ensures |Picks(list, reqs, n)| == |UncachedUpTo(list, reqs, n)|
    ensures k < |Picks(list, reqs, n)| ==> UncachedUpTo(list, reqs, n)[k] == SlotOf(reqs[Picks(list, reqs, n)[k]])
  {
    if n > 0 {
      PicksFillTable(list, reqs, n - 1, k);
    }
  }

  /**
   * The table built from a request is the order-preserving choice of exactly
   * those SSIDs that have a positive length and no match in the cache.
   */
  lemma UncachedIsFilter(list: seq<Cell>, reqs: seq<Ssid>) returns (picks: seq<nat>)
    ensures Increasing(picks, |reqs|) && |picks| == |Uncached(list, reqs)|
    ensures forall i :: 0 <= i < |reqs| ==> (i in picks <==> reqs[i].len > 0 && !Cached(list, reqs[i]))
    ensures forall k :: 0 <= k < |picks| ==>
      var req := reqs[picks[k]]; var slot := Uncached(list, reqs)[k];
      |slot.ssid| == SSID_BYTES && slot.len == req.len && slot.ssid[..req.len] == req.bytes[..req.len]
  {
    picks := Picks(list, reqs, |reqs|);
    PicksFillTable(list, reqs, |reqs|, 0);
    forall i | 0 <= i < |reqs| ensures i in picks <==> reqs[i].len > 0 && !Cached(list, reqs[i]) {
      PicksAreUncached(list, reqs, |reqs|, i);
    }
    forall k | 0 <= k < |picks| ensures Uncached(list, reqs)[k] == SlotOf(reqs[picks[k]]) {
      PicksFillTable(list, reqs, |reqs|, k);
    }
  }

  /** Every SSID in the table was asked for by that request, has a positive length and matched nothing in its cache. */
  lemma ProbedWasAbsent(s: Scanner, rs: seq<Request>, k: nat) returns (req: Ssid)
    requires LastReplacing(s, rs).Some? && k < |HandleAll(s, rs).table|
    ensures var at := LastReplacing(s, rs).value;
      && HandleAll(s, rs).table[k] == SlotOf(req) && req.len > 0
      && match rs[at] {
           case Single(asked, obs) => req == asked && !Cached(ScanAll(HandleAll(s, rs[..at]).cache, obs).list, req)
           case Multiple(reqs, _, obs) => req in reqs && !Cached(ScanAll(HandleAll(s, rs[..at]).cache, obs).list, req)
           case Other(_) => false
         }
  {
    var at := LastReplacing(s, rs).value;
    TableIsLastReplacement(s, rs);
    match rs[at]
    case Single(asked, obs) => req := asked;
    case Multiple(reqs, _, obs) =>
      var list := ScanAll(HandleAll(s, rs[..at]).cache, obs).list;
      PicksFillTable(list, reqs, |reqs|, k);
      var i := Picks(list, reqs, |reqs|)[k];
      PicksAreUncached(list, reqs, |reqs|, i);
      req := reqs[i];
  }

  // ---------- What a match means ----------

  /** What `strcmp` sees of the request: its buffer and the byte behind it. */
  function Buffer(req: Ssid): (b: seq<u8>)
    ensures |b| == SSID_BYTES + 1
  {
    req.bytes + [req.after]
  }

  /** The SSID a client asks for, and the byte that follows it in the request. */
  function Asked(req: Ssid): (a: seq<u8>)
    ensures |a| == req.len
  {
    req.bytes[..req.len]
  }

  function NextByte(req: Ssid): u8 {
    Buffer(req)[req.len]
  }

  function Name(station: Station): (name: seq<u8>)
    ensures |name| == station.esslen
  {
    station.essid[..station.esslen]
  }

  /** The request's buffer goes like the name up to the name's first zero or its end, and has a zero there. */
  predicate Spells(req: Ssid, name: seq<u8>)
    requires |name| <= SSID_BYTES
  {
    var n := |CString(name)|; Buffer(req)[..n] == name[..n] && Buffer(req)[n] == 0
  }

  lemma {:induction false} CStringOfPadded(s: seq<u8>, n: nat)
    ensures CString(s + Zeros(n)) == CString(s)
  {
    if s == [] {
      assert s + Zeros(n) == Zeros(n);
    } else {
      CStringOfPadded(s[1..], n);
      assert (s + Zeros(n))[1..] == s[1..] + Zeros(n);
    }
  }

  lemma SameSpelling(x: seq<u8>, y: seq<u8>)
    requires |CString(y)| < |x|
    ensures CString(x) == CString(y) <==> var n := |CString(y)|; x[..n] == y[..n] && x[n] == 0
  {
    var n := |CString(y)|;
    if x[..n] == y[..n] && x[n] == 0 {
      assert forall i :: 0 <= i < n ==> x[i] == x[..n][i];
      CStringIs(x, n);
    }
  }

  lemma ConvertedSsid(station: Station, uptime: u64)
    ensures CString(Convert(station, uptime).ssid) == CString(Name(station))
  {
    CStringOfPadded(Name(station), SSID_BYTES - station.esslen);
  }

  lemma MatchSpells(req: Ssid, rec: ScanResult, name: seq<u8>)
    requires |name| <= SSID_BYTES && CString(rec.ssid) == CString(name)
    ensures Matches(req, rec) <==> Spells(req, name)
  {
    SameSpelling(Buffer(req), name);
  }

  /** The comparison stops at the first zero, so it sees only what the two names spell before it. */
  lemma MatchIsSpelling(req: Ssid, station: Station, uptime: u64)
    ensures Matches(req, Convert(station, uptime)) <==> Spells(req, Name(station))
  {
    ConvertedSsid(station, uptime);
    MatchSpells(req, Convert(station, uptime), Name(station));
  }

  /** Requests and networks without a zero in the SSID, asked for with a zero behind it, match exactly if equal. */
  lemma MatchIsEqualSsid(req: Ssid, station: Station, uptime: u64)
    requires 0 !in Asked(req) && 0 !in Name(station) && NextByte(req) == 0
    ensures Matches(req, Convert(station, uptime)) <==> Asked(req) == Name(station)
  {
    ConvertedSsid(station, uptime);
    assert forall i :: 0 <= i < req.len ==> Buffer(req)[i] == Asked(req)[i];
    CStringIs(Buffer(req), req.len);
    assert Buffer(req)[..req.len] == Asked(req);
    CStringIs(Name(station), station.esslen);
  }

  /** A request for a cached SSID matches it exactly when a zero ends the comparison: in the SSID or right behind it. */
  lemma EqualSsidsMatch(req: Ssid, station: Station, uptime: u64)
    requires Asked(req) == Name(station)
    ensures Matches(req, Convert(station, uptime)) <==> 0 in Name(station) || NextByte(req) == 0
  {
    MatchIsSpelling(req, station, uptime);
    var name := Name(station);
    var n := |CString(name)|;
    assert Buffer(req)[..req.len] == name;
    assert Buffer(req)[..n] == name[..n];
    if n < |name| {
      assert name[n] == 0 && Buffer(req)[n] == Buffer(req)[..req.len][n];
    } else {
      assert CString(name) == name;
    }
  }

  /**
   * A request for another SSID that matches all the same has a zero inside one of
   * the two SSIDs or a non-zero byte behind it. If the cached SSID has none, the
   * match means that the request's buffer, cut or extended, spells that SSID.
   */
  lemma DifferentSsidsMatch(req: Ssid, station: Station, uptime: u64)
    requires Asked(req) != Name(station)
    ensures Matches(req, Convert(station, uptime)) ==>
      0 in Name(station) || 0 in Asked(req) || NextByte(req) != 0
    ensures 0 !in Name(station) ==>
      (Matches(req, Convert(station, uptime)) <==>
        && station.esslen != req.len
        && Buffer(req)[..station.esslen] == Name(station) && Buffer(req)[station.esslen] == 0)
  {
    MatchIsSpelling(req, station, uptime);
    if 0 !in Name(station) {
      CStringIs(Name(station), station.esslen);
      assert station.esslen == req.len ==> Buffer(req)[..req.len] == Asked(req);
      if 0 !in Asked(req) && NextByte(req) == 0 {
        MatchIsEqualSsid(req, station, uptime);
      }
    }
  }

  // ---------- What a request misses, in any cache ----------

  /** The SSID a cached record shows. */
  function SsidOf(rec: ScanResult): (name: seq<u8>)
    requires InBounds(rec)
    ensures |name| <= SSID_BYTES
  {
    rec.ssid[..rec.ssidLen]
  }

  lemma RecordMatches(req: Ssid, rec: ScanResult)
    requires L.IsConversion(rec)
    ensures InBounds(rec)
    ensures Matches(req, rec) <==> Spells(req, SsidOf(rec))
    ensures Asked(req) == SsidOf(rec) ==> (Matches(req, rec) <==> 0 in Asked(req) || NextByte(req) == 0)
    ensures 0 !in Asked(req) && 0 !in SsidOf(rec) && NextByte(req) == 0 ==>
      (Matches(req, rec) <==> Asked(req) == SsidOf(rec))
  {
    var station: Station, uptime: u64 :| rec == Convert(station, uptime);
    ConvertInBounds(station, uptime);
    assert SsidOf(rec) == Name(station);
    MatchIsSpelling(req, station, uptime);
    if Asked(req) == Name(station) {
      EqualSsidsMatch(req, station, uptime);
    }
    if 0 !in Asked(req) && 0 !in Name(station) && NextByte(req) == 0 {
      MatchIsEqualSsid(req, station, uptime);
    }
  }

  lemma RecordsMatch(list: seq<Cell>, req: Ssid)
    requires L.AllConverted(list)
    ensures AllInBounds(list)
    ensures forall i :: 0 <= i < |list| ==> (Matches(req, list[i].rec) <==> Spells(req, SsidOf(list[i].rec)))
  {
    forall i | 0 <= i < |list|
      ensures InBounds(list[i].rec) && (Matches(req, list[i].rec) <==> Spells(req, SsidOf(list[i].rec)))
    {
      RecordMatches(req, list[i].rec);
    }
  }

  /** Whatever the cache holds, an SSID is probed exactly if it is not empty and its buffer spells no cached SSID. */
  lemma ProbedUnlessSpelled(list: seq<Cell>, req: Ssid)
    requires L.AllConverted(list)
    ensures AllInBounds(list)
    ensures Probed(list, req) <==> req.len > 0 && forall i :: 0 <= i < |list| ==> !Spells(req, SsidOf(list[i].rec))
  {
    RecordsMatch(list, req);
  }

  /** With no zero in any SSID and one behind the request: exactly if it is not empty and not cached. */
  lemma ProbedUnlessCached(list: seq<Cell>, req: Ssid)
    requires L.AllConverted(list) && AllInBounds(list) && 0 !in Asked(req) && NextByte(req) == 0
    requires forall i :: 0 <= i < |list| ==> 0 !in SsidOf(list[i].rec)
    ensures Probed(list, req) <==> req.len > 0 && forall i :: 0 <= i < |list| ==> SsidOf(list[i].rec) != Asked(req)
  {
    forall i | 0 <= i < |list| ensures Matches(req, list[i].rec) <==> SsidOf(list[i].rec) == Asked(req) {
      RecordMatches(req, list[i].rec);
    }
  }

  /**
   * An SSID that is cached is probed again exactly if it is not empty, has no
   * zero, a non-zero byte follows it, and its buffer spells no other cached SSID.
   */
  lemma CachedIsProbedAgain(list: seq<Cell>, req: Ssid, c: nat)
    requires L.AllConverted(list) && AllInBounds(list) && c < |list| && SsidOf(list[c].rec) == Asked(req)
    ensures Probed(list, req) <==>
      && req.len > 0 && 0 !in Asked(req) && NextByte(req) != 0
      && forall i :: 0 <= i < |list| && SsidOf(list[i].rec) != Asked(req) ==> !Spells(req, SsidOf(list[i].rec))
  {
    RecordsMatch(list, req);
    forall i | 0 <= i < |list| && SsidOf(list[i].rec) == Asked(req)
      ensures Matches(req, list[i].rec) <==> 0 in Asked(req) || NextByte(req) == 0
    {
      RecordMatches(req, list[i].rec);
    }
    assert Matches(req, list[c].rec) <==> 0 in Asked(req) || NextByte(req) == 0;
  }

  lemma {:induction false} RequestsKeepConverted(s: Scanner, rs: seq<Request>)
    requires L.AllConverted(s.cache.list)
    ensures L.AllConverted(HandleAll(s, rs).cache.list)
  {
    if rs != [] {
      RequestsKeepConverted(s, rs[..|rs| - 1]);
      RefreshKeepsConverted(HandleAll(s, rs[..|rs| - 1]).cache, rs[|rs| - 1]);
    }
  }

  lemma RefreshKeepsConverted(cache: State, r: Request)
    requires L.AllConverted(cache.list)
    ensures L.AllConverted(Refreshed(cache, r).list)
  {
    match r
    case Single(_, obs) => L.ScanKeepsConverted(cache, obs);
    case Multiple(_, _, obs) => L.ScanKeepsConverted(cache, obs);
    case Other(e) => L.StepKeepsConverted(cache, e);
  }

  /** After any run, a single request replaces the table exactly if its buffer spells no SSID of the refreshed cache. */
  lemma SingleProbes(s: Scanner, rs: seq<Request>, req: Ssid, obs: seq<Obs>)
    requires L.AllConverted(s.cache.list)
    ensures var before := HandleAll(s, rs); var cache := ScanAll(before.cache, obs);
      && AllInBounds(cache.list)
      && Handle(before, Single(req, obs)) ==
        if req.len == 0 then before
        else if forall i :: 0 <= i < |cache.list| ==> !Spells(req, SsidOf(cache.list[i].rec))
        then Scanner(cache, [SlotOf(req)]) else Scanner(cache, before.table)
  {
    RequestsKeepConverted(s, rs);
    L.ScanKeepsConverted(HandleAll(s, rs).cache, obs);
    var list := ScanAll(HandleAll(s, rs).cache, obs).list;
    ProbedUnlessSpelled(list, req);
    UncachedOne(list, req);
  }

  // ---------- Three requests against a cache of one network ----------

  /** A single request is probed unless the one cached network matches it. */
  lemma ProbedAlone(req: Ssid, rec: ScanResult, id: nat)
    requires req.len > 0
    ensures Uncached([Cell(id, 0, rec)], [req]) == if Matches(req, rec) then [] else [SlotOf(req)]
  {
    var list := [Cell(id, 0, rec)];
    UncachedOne(list, req);
    if Matches(req, rec) {
      assert Matches(req, list[0].rec);
    }
  }

  lemma ProbedAgain(req: Ssid, station: Station, uptime: u64, id: nat)
    requires req.len > 0 && Asked(req) == Name(station) && 0 !in Name(station) && NextByte(req) != 0
    ensures Uncached([Cell(id, 0, Convert(station, uptime))], [req]) == [SlotOf(req)]
  {
    EqualSsidsMatch(req, station, uptime);
    ProbedAlone(req, Convert(station, uptime), id);
  }

  /** A cached SSID of 32 bytes is probed again if whatever follows the request's buffer is not zero. */
  lemma FullLengthSsidIsProbed(station: Station, uptime: u64, after: u8, id: nat)
    requires station.esslen == SSID_BYTES && 0 !in station.essid && after != 0
    ensures Uncached([Cell(id, 0, Convert(station, uptime))], [Ssid(SSID_BYTES, station.essid, after)])
      == [Slot(SSID_BYTES, station.essid)]
  {
    var req: Ssid := Ssid(SSID_BYTES, station.essid, after);
    assert station.essid[..SSID_BYTES] == station.essid;
    ProbedAgain(req, station, uptime, id);
    assert Padded(Asked(req), SSID_BYTES) == station.essid;
  }

  /** A station that shows this SSID and nothing else. */
  function Showing(name: seq<u8>): Station
    requires |name| <= SSID_BYTES
  {
    Station(Zeros(6), Channel(0, 0), 0, 0, 0, Zeros(MAX_RATES), 0, Padded(name, SSID_BYTES), |name|, 0, None, 0)
  }

  function Asking(bytes: seq<u8>, len: u32): Ssid
    requires |bytes| <= SSID_BYTES && len <= SSID_BYTES
  {
    Ssid(len, Padded(bytes, SSID_BYTES), 0)
  }

  /** So is a cached SSID of one byte, if the request has a second byte left in its buffer. */
  lemma LeftoverByteIsProbed(a: u8, b: u8, uptime: u64)
    requires a != 0 && b != 0
    ensures Uncached([Cell(0, 0, Convert(Showing([a]), uptime))], [Asking([a, b], 1)]) == [SlotOf(Asking([a, b], 1))]
  {
    var req := Asking([a, b], 1);
    assert req.bytes[..2][0] == a && req.bytes[..2][1] == b;
    assert Asked(req) == [a] == Name(Showing([a]));
    ProbedAgain(req, Showing([a]), uptime, 0);
  }

  /** And the reverse: an SSID that is not cached is never probed, because it agrees with a cached one up to a zero. */
  lemma ZeroInsideIsNotProbed(a: u8, b: u8, c: u8, uptime: u64)
    requires a != 0 && b != c
    ensures var req := Asking([a, 0, b], 3);
      && Asked(req) != Name(Showing([a, 0, c]))
      && Uncached([Cell(0, 0, Convert(Showing([a, 0, c]), uptime))], [req]) == []
  {
    var req := Asking([a, 0, b], 3);
    var station := Showing([a, 0, c]);
    var name := Name(station);
    assert Asked(req) == [a, 0, b] && name == [a, 0, c];
    CStringIs(name, 1);
    assert |CString(name)| == 1;
    assert Buffer(req)[..3] == [a, 0, b];
    assert Buffer(req)[0] == Buffer(req)[..3][0] && Buffer(req)[1] == Buffer(req)[..3][1];
    assert Buffer(req)[..1] == name[..1];
    MatchIsSpelling(req, station, uptime);
    ProbedAlone(req, Convert(station, uptime), 0);
  }
}
