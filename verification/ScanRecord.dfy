/**
 * The scan record handed to user space: how a net80211 node becomes one
 * (`scanConvertResult`) and how `getSCAN_RESULT` copies it out field by field.
 */
module ScanRecord {
  import opened MachineTypes

  const VERSION: u32 := 1
  const MAX_RATES := 15
  const SSID_BYTES := 32
  const IE_BYTES := 1024

  /** The two answers net80211 gives about a node's channel: its number and its flag bits. */
  datatype Channel = Channel(number: u32, flags: u32)

  /** What the driver reads of `struct ieee80211_node`. */
  datatype StationData = Station(
    bssid: seq<u8>, channel: Channel, rssi: u8, interval: u16, capinfo: u16,
    rates: seq<u8>, nrates: u8, essid: seq<u8>, esslen: u8,
    ageTs: u64, ie: Option<seq<u8>>, ieLen: u32)
  {
    predicate WellFormed() {
      && |bssid| == 6
      && |rates| == MAX_RATES && nrates <= MAX_RATES
      && |essid| == SSID_BYTES && esslen <= SSID_BYTES
      && (ie.Some? ==> |ie.value| == ieLen)
    }

    predicate HasIe() {
      ie.Some? && ieLen > 0
    }
  }

  type Station = s: StationData | s.WellFormed()
    witness Station(Zeros(6), Channel(0, 0), 0, 0, 0, Zeros(15), 0, Zeros(32), 0, 0, None, 0)

  /** `struct apple80211_scan_result` with the information elements held inline. */
  datatype ScanResult = ScanResult(
    version: u32, channelVersion: u32, channel: Channel,
    use: i16, noise: i16, snr: i16, rssi: i16, beaconInt: i16, cap: i16,
    bssid: seq<u8>, nrates: u8, nrUnk: u8, rates: seq<u32>,
    ssidLen: u8, ssid: seq<u8>, unk: i16, unk2: u8,
    age: u32, unk3: u16, ieLen: i16, ieData: seq<u8>)

  const ZERO_RECORD: ScanResult := ScanResult(
    0, 0, Channel(0, 0), 0, 0, 0, 0, 0, 0, Zeros(6), 0, 0, Zeros(MAX_RATES),
    0, Zeros(SSID_BYTES), 0, 0, 0, 0, 0, Zeros(IE_BYTES))

  /** `min(len, sizeof(asr_ie_data))`: a negative length is a huge unsigned one, so the buffer size wins. */
  function IeCopied(len: i16): (n: nat)
    ensures n <= IE_BYTES
  {
    if 0 <= len < IE_BYTES then len else IE_BYTES
  }

  function RateOf(station: Station, r: int): u32 {
    if 0 <= r < station.nrates then station.rates[r] % 128 / 2 else 0
  }

  /** What `scanConvertResult` computes, stated on the whole record. */
  function Convert(station: Station, uptime: u64): ScanResult {
    ScanResult(
      VERSION, VERSION, station.channel,
      1, 0, station.rssi - 100, station.rssi - 100,
      ToI16(station.interval), ToI16(station.capinfo),
      station.bssid, station.nrates, 0, seq(MAX_RATES, r => RateOf(station, r)),
      station.esslen, Padded(station.essid[..station.esslen], SSID_BYTES), 0, 0,
      if station.ageTs == 0 then 0 else (uptime - station.ageTs) % TWO_64 % TWO_32, 0,
      if station.HasIe() then ToI16(station.ieLen) else 0,
      if station.HasIe() then Padded(station.ie.value[..IeCopied(ToI16(station.ieLen))], IE_BYTES)
      else Zeros(IE_BYTES))
  }

  method ScanConvertResult(station: Station, uptime: u64) returns (one: ScanResult)
    ensures one == Convert(station, uptime)
  {
    one := ZERO_RECORD;
    one := one.(version := VERSION, channelVersion := VERSION, channel := station.channel);
    one := one.(use := 1, noise := 0, rssi := station.rssi - 100);
    one := one.(snr := ToI16(one.rssi - one.noise));
    one := one.(beaconInt := ToI16(station.interval), cap := ToI16(station.capinfo));
    one := one.(bssid := station.bssid, nrates := station.nrates);
    ghost var start := one;
    for r := 0 to one.nrates
      invariant one == start.(rates := one.rates) && |one.rates| == MAX_RATES
      invariant forall i :: 0 <= i < MAX_RATES ==> one.rates[i] == if i < r then RateOf(station, i) else 0
    {
      one := one.(rates := one.rates[r := station.rates[r] % 128 / 2]);
    }
    one := one.(ssidLen := station.esslen);
    one := one.(ssid := station.essid[..one.ssidLen] + one.ssid[one.ssidLen..]);
    if station.ageTs != 0 {
      one := one.(age := (uptime - station.ageTs) % TWO_64 % TWO_32);
    }
    if station.ie.Some? && station.ieLen > 0 {
      one := one.(ieLen := ToI16(station.ieLen));
      var n := IeCopied(one.ieLen);
      one := one.(ieData := station.ie.value[..n] + one.ieData[n..]);
    }
    ghost var whole := Convert(station, uptime);
    assert one.rates == whole.rates && one.ssid == whole.ssid && one.ieData == whole.ieData;
  }

  /** A record whose buffers have their declared sizes and whose counts stay inside them. */
  predicate InBounds(one: ScanResult) {
    && |one.bssid| == 6
    && |one.rates| == MAX_RATES && one.nrates <= MAX_RATES
    && |one.ssid| == SSID_BYTES && one.ssidLen <= SSID_BYTES
    && |one.ieData| == IE_BYTES
  }

  /** The record `getSCAN_RESULT` builds from a cached one. */
  function FieldCopy(one: ScanResult): ScanResult
    requires InBounds(one)
  {
    ZERO_RECORD.(
      version := VERSION, channelVersion := VERSION, channel := one.channel,
      use := 1, rssi := one.rssi, snr := one.rssi, beaconInt := one.beaconInt, cap := one.cap,
      bssid := one.bssid, nrates := one.nrates,
      rates := seq(MAX_RATES, r requires 0 <= r < MAX_RATES => if r < one.nrates then one.rates[r] else 0),
      ssidLen := one.ssidLen, ssid := Padded(one.ssid[..one.ssidLen], SSID_BYTES),
      age := one.age, ieLen := one.ieLen,
      ieData := if one.ieLen > 0 then Padded(one.ieData[..IeCopied(one.ieLen)], IE_BYTES) else Zeros(IE_BYTES))
  }

  method CopyRecord(one: ScanResult) returns (sr: ScanResult)
    requires InBounds(one)
    ensures sr == FieldCopy(one)
  {
    sr := ZERO_RECORD;
    sr := sr.(version := VERSION, channelVersion := VERSION, channel := one.channel);
    sr := sr.(use := 1, noise := 0, rssi := one.rssi);
    sr := sr.(snr := ToI16(sr.rssi - sr.noise), beaconInt := one.beaconInt, cap := one.cap);
    sr := sr.(bssid := one.bssid, nrates := one.nrates);
    ghost var start := sr;
    for r := 0 to sr.nrates
      invariant sr == start.(rates := sr.rates) && |sr.rates| == MAX_RATES
      invariant forall i :: 0 <= i < MAX_RATES ==> sr.rates[i] == if i < r then one.rates[i] else 0
    {
      sr := sr.(rates := sr.rates[r := one.rates[r]]);
    }
    sr := sr.(ssidLen := one.ssidLen);
    if sr.ssidLen != 0 {
      sr := sr.(ssid := one.ssid[..sr.ssidLen] + sr.ssid[sr.ssidLen..]);
    }
    sr := sr.(age := one.age, ieLen := one.ieLen);
    if sr.ieLen > 0 {
      var n := IeCopied(sr.ieLen);
      sr := sr.(ieData := one.ieData[..n] + sr.ieData[n..]);
    }
    ghost var whole := FieldCopy(one);
    assert sr.ssid == whole.ssid && sr.rates == whole.rates && sr.ieData == whole.ieData;
  }

  lemma ConvertInBounds(station: Station, uptime: u64)
    ensures InBounds(Convert(station, uptime))
  {
  }

  /** What a converted record tells about its node: everything but the dropped low rate bit and the cut elements. */
  lemma RecordDeterminesNode(station: Station, uptime: u64)
    ensures var rec := Convert(station, uptime);
      && rec.bssid == station.bssid && rec.channel == station.channel
      && station.rssi == rec.rssi + 100 && rec.snr == rec.rssi - rec.noise
      && station.interval == rec.beaconInt % 0x1_0000 && station.capinfo == rec.cap % 0x1_0000
      && rec.nrates == station.nrates
      && (forall r :: 0 <= r < rec.nrates ==> 2 * rec.rates[r] <= station.rates[r] % 128 < 2 * rec.rates[r] + 2)
      && (forall r :: rec.nrates <= r < MAX_RATES ==> rec.rates[r] == 0)
      && rec.ssid[..rec.ssidLen] == station.essid[..station.esslen]
      && (forall i :: rec.ssidLen <= i < SSID_BYTES ==> rec.ssid[i] == 0)
      && (station.HasIe() && station.ieLen <= IE_BYTES ==>
            rec.ieLen == station.ieLen && rec.ieData[..rec.ieLen] == station.ie.value)
      && (station.ageTs != 0 && 0 <= uptime - station.ageTs < TWO_32 ==> station.ageTs + rec.age == uptime)
  {
  }

  /** And the rest: the age up to its width, the 1024 bytes the elements are cut to, and the constant fields. */
  lemma RecordCutsNode(station: Station, uptime: u64)
    ensures var rec := Convert(station, uptime);
      && (station.ageTs == 0 ==> rec.age == 0)
      && (station.ageTs != 0 ==> (station.ageTs + rec.age) % TWO_32 == uptime % TWO_32)
      && (station.ie == None || station.ieLen == 0 ==>
            rec.ieLen == 0 && forall i :: 0 <= i < 1024 ==> rec.ieData[i] == 0)
      && (station.ie.Some? && station.ieLen > 0 ==>
            && rec.ieLen % 0x1_0000 == station.ieLen % 0x1_0000
            && var low := station.ieLen % 0x1_0000; var n := if low < 1024 then low else 1024;
            rec.ieData[..n] == station.ie.value[..n] && forall i :: n <= i < 1024 ==> rec.ieData[i] == 0)
      && rec.version == 1 && rec.channelVersion == 1 && rec.use == 1 && rec.noise == 0
      && rec.nrUnk == 0 && rec.unk == 0 && rec.unk2 == 0 && rec.unk3 == 0
  {
    if station.ageTs != 0 {
      ElapsedMod(station.ageTs, uptime);
    }
  }

  lemma ElapsedMod(from: u64, to: u64)
    ensures (from + (to - from) % TWO_64 % TWO_32) % TWO_32 == to % TWO_32
  {
    var wrap := if to < from then 1 else 0;
    assert (to - from) % TWO_64 == to - from + wrap * TWO_64;
    assert TWO_64 == TWO_32 * TWO_32;
  }

  /** The guard that fails: the cached length is negative, so the copy skips bytes the conversion stored. */
  predicate IeLengthWraps(station: Station) {
    && station.HasIe()
    && station.ieLen % 0x1_0000 >= 0x8000
    && exists i :: 0 <= i < IE_BYTES && station.ie.value[i] != 0
  }

  /**
   * The field-by-field copy equals the whole converted record for every node,
   * except exactly when the element length, cut to sixteen bits, turns negative
   * and the stored elements are not all zero.
   */
  lemma CopyIsWholeRecord(station: Station, uptime: u64)
    ensures InBounds(Convert(station, uptime))
    ensures FieldCopy(Convert(station, uptime)) == Convert(station, uptime) <==> !IeLengthWraps(station)
  {
    var one := Convert(station, uptime);
    var sr := FieldCopy(one);
    assert sr.rates == one.rates && sr.ssid == one.ssid;
    assert sr == one <==> sr.ieData == one.ieData;
  }

  /** With fewer than 32768 bytes of elements, as every received frame leaves, the record is copied whole. */
  lemma ShortElementsAreKept(station: Station, uptime: u64)
    requires station.ieLen < 0x8000
    ensures InBounds(Convert(station, uptime))
    ensures FieldCopy(Convert(station, uptime)) == Convert(station, uptime)
  {
    CopyIsWholeRecord(station, uptime);
  }

  /** The bound is that of the sixteen-bit field: a node with 32768 bytes of elements would lose them on the way out. */
  lemma LengthFieldWraps() returns (station: Station)
    ensures station.ieLen == 0x8000 && InBounds(Convert(station, 0))
    ensures FieldCopy(Convert(station, 0)) != Convert(station, 0)
  {
    var ie: seq<u8> := seq(0x8000, _ => 1);
    station := Station(Zeros(6), Channel(1, 0), 50, 100, 0, Zeros(15), 0, Padded([65], 32), 1, 0, Some(ie), 0x8000);
    assert ie[0] != 0;
    CopyIsWholeRecord(station, 0);
  }
}
