/** The driver object: its power state and watchdog (`changePowerState`, `if_watchdog`) beside its scan cache. */
module Driver {
  import opened MachineTypes
  import P = Power
  import C = ScanModel
  import D = DriverRuns
  import ScanList

  class AirPort {
    const cache: ScanList.ScanCache
    var powerState: u32
    var firstUp: bool
    var armed: bool     // fWatchdogTimer is pending
    var ifTimer: i16    // if_timer
    ghost var alarms: nat
    ghost var trace: seq<P.Action>

    ghost predicate Valid()
      reads cache, cache.spine
    {
      cache.Valid()
    }

    ghost function Power(): P.State
      reads this
    {
      P.State(powerState, firstUp, armed, ifTimer, alarms, trace)
    }

    /** A call of a method of `cache` moves the second part alone, as its contract says. */
    ghost function Abs(): D.Driver
      reads this, cache
    {
      D.Driver(Power(), cache.model)
    }

    constructor ()
      ensures Valid() && Abs() == D.START && fresh(cache)
    {
      cache := new ScanList.ScanCache();
      powerState, firstUp, armed, ifTimer, alarms, trace := P.POWER_OFF, true, false, 0, 0, [];
    }

    /** `now` is the clock that `scanFreeResults` reads. */
    method ChangePowerState(state: u32, now: u64) returns (ret: int)
      requires Valid()
      modifies this, cache, cache.made
      ensures Valid() && Abs() == D.Step(old(Abs()), D.OnPower(P.Request(state), now))
      ensures powerState == state && cache.made == old(cache.made)
      ensures ret ==
        if old(powerState) == state || state == P.POWER_ON || state == P.POWER_OFF then P.SUCCESS else P.ERROR
    {
      ret := P.SUCCESS;
      if powerState == state {
        return;
      }
      powerState := state;
      if state == P.POWER_ON {
        if firstUp {
          firstUp := false;
          trace := trace + [P.Up];
        } else {
          trace := trace + [P.Wakeup];
        }
        armed := false;
        armed := true;
      } else if state == P.POWER_OFF {
        armed := false;
        trace := trace + [P.Quiesce];
        trace := trace + [P.FreeNodes];
        trace := trace + [P.ClearScanCache];
        assert trace == old(trace) + [P.Quiesce, P.FreeNodes, P.ClearScanCache];
        cache.ScanFreeResults(0, now);
      } else {
        ret := P.ERROR;
      }
    }

    /** The gate action reads the low 32 bits of the unsigned long it is given, and drops the return code. */
    method SetPowerState(ordinal: u64, now: u64)
      requires Valid()
      modifies this, cache, cache.made
      ensures Valid() && Abs() == D.Step(old(Abs()), D.OnPower(P.Request(ordinal % TWO_32), now))
    {
      var ret := ChangePowerState(ordinal % TWO_32, now);
    }

    method EnableInterface(now: u64)
      requires Valid()
      modifies this, cache, cache.made
      ensures Valid() && Abs() == D.Step(old(Abs()), D.OnPower(P.Enable, now))
    {
      if powerState == P.POWER_OFF {
        SetPowerState(P.POWER_ON, now);
      }
    }

    /** The timer has fired: it is no longer pending until it is set again. */
    method IfWatchdog(handler: bool, left: i16, now: u64)
      requires Valid() && armed
      modifies this
      ensures Valid() && Abs() == D.Step(old(Abs()), D.OnPower(P.Tick(handler, left), now))
    {
      armed := false;
      if handler {
        if ifTimer > 0 {
          ifTimer := ifTimer - 1;
          if ifTimer == 0 {
            alarms := alarms + 1;
            ifTimer := left;
          }
        }
        armed := true;
      }
    }

    method ScanComplete(obs: seq<C.Obs>)
      requires Valid()
      modifies cache, cache.made
      ensures Valid() && Abs() == D.Step(old(Abs()), D.OnCache(C.Scan(obs)))
    {
      cache.ScanComplete(obs);
    }

    method ScanDone(obs: seq<C.Obs>)
      requires Valid()
      modifies cache, cache.made
      ensures Valid() && Abs() == D.Step(old(Abs()), D.OnCache(C.Done(obs)))
    {
      cache.ScanDone(obs);
    }

    /** What a read asks for is `ReadIsSafe`, which `DriverRuns.SafeIffDisciplined` decides for whole runs. */
    method GetScanResult() returns (reply: C.Reply)
      requires Valid() && C.AllInBounds(cache.model.list) && D.ReadIsSafe(cache.model)
      modifies cache
      ensures Valid() && Abs() == D.Step(old(Abs()), D.OnCache(C.Get)) && reply == C.ReplyOf(old(cache.model))
    {
      reply := cache.GetScanResult();
    }
  }
}
