/** The bounded wait for an association (`setASSOCIATE`) and the sleep durations it uses. */
module AssocWait {
  import opened MachineTypes

  const NSEC_PER_SEC: int := 1_000_000_000
  const NSEC_PER_MSEC: int := 1_000_000
  const UINT64_MAX: int := TWO_64 - 1
  const TRIES := 10

  function Saturated(x: int): (r: u64)
    requires x >= 0
  {
    if x < UINT64_MAX then x else UINT64_MAX
  }

  method SecToNsec(seconds: u64) returns (ns: u64)
    ensures ns == Saturated(seconds * NSEC_PER_SEC)
  {
    if seconds > UINT64_MAX / NSEC_PER_SEC {
      return UINT64_MAX;
    }
    return seconds * NSEC_PER_SEC;
  }

  method MsecToNsec(milliseconds: u64) returns (ns: u64)
    ensures ns == Saturated(milliseconds * NSEC_PER_MSEC)
  {
    if milliseconds > UINT64_MAX / NSEC_PER_MSEC {
      return UINT64_MAX;
    }
    return milliseconds * NSEC_PER_MSEC;
  }

  /** Longer waits convert to longer durations, and only waits that overflow are cut. */
  lemma ConversionIsMonotone(x: u64, y: u64, unit: int)
    requires x <= y && unit > 0
    ensures 0 <= x * unit <= y * unit
    ensures Saturated(x * unit) <= Saturated(y * unit)
    ensures Saturated(x * unit) == x * unit <==> x <= UINT64_MAX / unit
  {
    assert 0 <= x * unit <= y * unit by {
      MulMonotone(0, x, unit);
      MulMonotone(x, y, unit);
    }
    var q := UINT64_MAX / unit;
    assert q * unit <= UINT64_MAX < (q + 1) * unit;
    if x <= q {
      MulMonotone(x, q, unit);
    } else {
      MulMonotone(q + 1, x, unit);
    }
  }

  lemma MulMonotone(x: int, y: int, unit: int)
    requires x <= y && unit > 0
    ensures x * unit <= y * unit
  {
  }

  /** What the wait loop looks at in the controller. */
  datatype Controller = Controller(
    running: bool, station: bool, rsnOn: bool, portValid: bool, akm8021x: bool, akmSha256: bool)
  {
    predicate IsConnected() {
      running && (!station || !rsnOn || portValid)
    }

    predicate IsRun8021X() {
      running && (!station || akm8021x || akmSha256)
    }

    predicate Associated() {
      IsConnected() || IsRun8021X()
    }
  }

  /** The wait ends once the interface runs and the network needs no key, has a valid port, or is an 802.1X one. */
  lemma AssociatedMeans(c: Controller)
    ensures c.Associated() <==>
      c.running && (!c.station || !c.rsnOn || c.portValid || c.akm8021x || c.akmSha256)
    ensures c.IsConnected() <==> c.running && (c.station && c.rsnOn ==> c.portValid)
    ensures c.IsRun8021X() <==> c.running && (c.station ==> c.akm8021x || c.akmSha256)
  {
  }

  /**
   * `env(k)` is the controller at the k-th look at it; between two looks the
   * driver sleeps and anything may change. `slept` records the durations.
   */
  method WaitForAssociation(env: nat -> Controller) returns (tryTimes: int, slept: seq<u64>)
    ensures |slept| <= 10 && forall d :: d in slept ==> d == 1_000_000_000
    ensures forall k :: 0 <= k < |slept| ==> !env(k).Associated()
    ensures if env(|slept|).Associated() then tryTimes == 10 - |slept| else |slept| == 10 && tryTimes == -1
  {
    tryTimes, slept := TRIES, [];
    while true
      invariant 0 <= tryTimes <= TRIES && |slept| == TRIES - tryTimes
      invariant forall d :: d in slept ==> d == NSEC_PER_SEC
      invariant forall k :: 0 <= k < |slept| ==> !env(k).Associated()
      decreases tryTimes
    {
      if env(|slept|).Associated() {
        return;
      }
      tryTimes := tryTimes - 1;
      if !(tryTimes + 1 > 0) {
        return;
      }
      var ns := SecToNsec(1);
      slept := slept + [ns];
    }
  }

  /** The contract of the wait leaves one outcome: the loop is determined by its first eleven looks. */
  lemma WaitIsDetermined(env: nat -> Controller, t1: int, n1: nat, t2: int, n2: nat)
    requires n1 <= TRIES && n2 <= TRIES
    requires forall k :: 0 <= k < n1 ==> !env(k).Associated()
    requires forall k :: 0 <= k < n2 ==> !env(k).Associated()
    requires if env(n1).Associated() then t1 == TRIES - n1 else n1 == TRIES && t1 == -1
    requires if env(n2).Associated() then t2 == TRIES - n2 else n2 == TRIES && t2 == -1
    ensures n1 == n2 && t1 == t2
    ensures t1 == -1 <==> forall k :: 0 <= k <= TRIES ==> !env(k).Associated()
  {
    assert !(n1 < n2) && !(n2 < n1);
  }
}
