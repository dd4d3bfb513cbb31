/** struct fan_ctrl as an object: the driver's entry points run without interference, each proved
    against a function of the old fields, and each shown to be a run of the interleaved machine. */
module FanCtrlObject {
  import opened Basics
  import opened Decimal
  import opened FanDriver

  class FanCtrl {
    var manualMode: bool
    var frequency: u32
    var gpioState: bool
    var pin: bool
    var armed: bool
    var periodMs: nat

    function Contents(): Fan
      reads this
    {
      Fan(manualMode, frequency, gpioState, pin, armed, periodMs)
    }

    constructor Probe(reading: Reading)
      ensures Contents() == AfterProbe(reading).fan
      ensures !AfterProbe(reading).oops
    {
      manualMode := false;
      frequency := 0;
      gpioState := false;
      pin := false;
      armed := false;
      periodMs := 0;
      new;
      var oops := FanToggleTimer(reading);
    }

    method FanToggleTimer(reading: Reading) returns (oops: bool)
      modifies this
      ensures (Contents(), oops) == WholeCallback(old(Contents()), reading)
    {
      var manual, freq := manualMode, frequency;
      if !manual && reading.Temp? {
        freq := TempToFreq(reading.mc);
        frequency := freq;
      }
      if freq == 0 {
        gpioState := false;
        pin := false;
        return false;
      }
      gpioState := !gpioState;
      pin := gpioState;
      if Divisor(freq) == 0 {
        return true;
      }
      armed := true;
      periodMs := 1000 / Divisor(freq);
      return false;
    }

    /** The pending timer expires and runs the callback. */
    method TimerExpires(reading: Reading) returns (oops: bool)
      requires armed
      modifies this
      ensures (Contents(), oops) == WholeCallback(old(Contents()).(armed := false), reading)
    {
      armed := false;
      oops := FanToggleTimer(reading);
    }

    function ManualModeShow(): (text: string)
      reads this
      ensures text == if manualMode then "1\n" else "0\n"
    {
      Format(if manualMode then 1 else 0) + "\n"
    }

    method ManualModeStore(buf: string) returns (status: int)
      modifies this
      ensures match Kstrtobool(buf)
              case Value(mode) => Contents() == old(Contents()).(manual := mode) && status == |buf|
              case Invalid => Contents() == old(Contents()) && status == -EINVAL
    {
      match Kstrtobool(buf)
      case Invalid =>
        return -EINVAL;
      case Value(mode) =>
        manualMode := mode;
        return |buf|;
    }

    function FrequencyShow(): string
      reads this
    {
      Format(frequency) + "\n"
    }

    method FrequencyStore(buf: string) returns (status: int, oops: bool)
      modifies this
      ensures match Kstrtou32(buf)
              case Invalid => Contents() == old(Contents()) && status == -EINVAL && !oops
              case Value(val) =>
                if old(manualMode) then (Contents(), oops) == WholeStore(old(Contents()), val) && status == |buf|
                else Contents() == old(Contents()) && status == -EPERM && !oops
    {
      oops := false;
      match Kstrtou32(buf)
      case Invalid =>
        status := -EINVAL;
      case Value(val) =>
        if !manualMode {
          return -EPERM, false;
        }
        frequency := val;
        status := |buf|;
        if frequency == 0 {
          gpioState := false;
          pin := false;
        } else if Divisor(frequency) == 0 {
          oops := true;
        } else {
          periodMs := 1000 / Divisor(frequency);
          armed := true;
        }
    }
  }

  /** The half period really is half of one of f periods in 1000 ms, rounded down. */
  predicate HalfPeriodOf(ms: nat, f: nat) {
    2 * f * ms <= 1000 < 2 * f * (ms + 1)
  }

  lemma DividesInto(m: nat)
    requires m > 0
    ensures m * (1000 / m) <= 1000 < m * (1000 / m + 1)
  {
  }

  /** What one callback does to a fan whose frequency does not overflow: the pin is inverted, and
      the timer pending with the half period of the frequency, which in automatic mode is the
      temperature's. */
  lemma CallbackInverts(f: Fan, reading: Reading)
    requires 0 < f.frequency < TWO_TO_31
    ensures var (g, oops) := WholeCallback(f, reading);
            && !oops && g.manual == f.manual && g.gpioState == g.pin == !f.gpioState
            && g.frequency == (if f.manual || reading.ReadFailed? then f.frequency else TempToFreq(reading.mc))
            && 0 < g.frequency < TWO_TO_31 && g.armed && HalfPeriodOf(g.periodMs, g.frequency)
  {
    var (g, oops) := WholeCallback(f, reading);
    DividesInto(2 * g.frequency);
  }

  /** And one store: a non-zero value starts the timer with its half period and leaves the pin
      alone; zero lowers the pin and leaves the timer alone. */
  lemma StoreStartsOrStops(f: Fan, val: u32)
    requires val < TWO_TO_31
    ensures var (g, oops) := WholeStore(f, val);
            && !oops && g.manual == f.manual && g.frequency == val
            && (val != 0 ==> g.armed && HalfPeriodOf(g.periodMs, val) && g.pin == f.pin && g.gpioState == f.gpioState)
            && (val == 0 ==> !g.pin && !g.gpioState && g.armed == f.armed && g.periodMs == f.periodMs)
  {
    if val != 0 { DividesInto(2 * val); }
  }

  /** The frequency after these readings, in automatic mode the last successful one's. */
  function Followed(f: u32, manual: bool, readings: seq<Reading>): u32 {
    if readings == [] then f
    else
      var last := readings[|readings| - 1];
      if !manual && last.Temp? then TempToFreq(last.mc) else Followed(f, manual, readings[..|readings| - 1])
  }

  /** The timer expires again and again with nothing in between: the fan blinks. */
  method Blink(fan: FanCtrl, readings: seq<Reading>)
    requires fan.armed && 0 < fan.frequency < TWO_TO_31
    modifies fan
    ensures fan.armed && fan.manualMode == old(fan.manualMode)
    ensures fan.frequency == Followed(old(fan.frequency), fan.manualMode, readings)
    ensures fan.gpioState == (old(fan.gpioState) != Odd(|readings|))
    ensures readings != [] ==> fan.pin == fan.gpioState && HalfPeriodOf(fan.periodMs, fan.frequency)
  {
    for i := 0 to |readings|
      invariant fan.armed && fan.manualMode == old(fan.manualMode) && 0 < fan.frequency < TWO_TO_31
      invariant fan.frequency == Followed(old(fan.frequency), fan.manualMode, readings[..i])
      invariant fan.gpioState == (old(fan.gpioState) != Odd(i))
      invariant i > 0 ==> fan.pin == fan.gpioState && HalfPeriodOf(fan.periodMs, fan.frequency)
    {
      CallbackInverts(fan.Contents().(armed := false), readings[i]);
      var oops := fan.TimerExpires(readings[i]);
      assert readings[..i + 1][..i] == readings[..i];
    }
    assert readings[..|readings|] == readings;
  }

  lemma Steps(d: Driver, run: seq<Step>, e: Driver, s: Step, t: Step) returns (longer: seq<Step>, f: Driver)
    requires ReachedBy(d, run, e) && Enabled(e, s) && Enabled(Apply(e, s), t)
    ensures ReachedBy(d, longer, f) && f == Apply(Apply(e, s), t)
  {
    longer := Extend(d, run, e, s);
    longer := Extend(d, longer, Apply(e, s), t);
    f := Apply(Apply(e, s), t);
  }

  /** The callback method is one schedule of the interleaved machine: the one in which nothing
      runs between its steps. */
  lemma CallbackIsARun(d: Driver, reading: Reading) returns (run: seq<Step>, e: Driver)
    requires !d.oops && d.cb.Entered?
    ensures ReachedBy(d, run, e)
    ensures (e.fan, e.oops) == WholeCallback(d.fan, reading)
    ensures e.stores == d.stores && (e.oops || e.cb.Idle?)
  {
    run := Extend(d, [], d, Snapshot);
    e := Apply(d, Snapshot);
    if e.cb.AutoRead? {
      run := Extend(d, run, e, AutoUpdate(reading));
      e := Apply(e, AutoUpdate(reading));
    }
    if e.cb.freq == 0 {
      run, e := Steps(d, run, e, Decide, LowerPin);
    } else {
      run, e := Steps(d, run, e, Decide, DrivePin);
      run := Extend(d, run, e, Arm);
      e := Apply(e, Arm);
    }
  }

  /** Likewise for a store in manual mode. */
  lemma StoreIsARun(d: Driver, id: nat) returns (run: seq<Step>, e: Driver)
    requires !d.oops && id in d.stores && d.stores[id].Waiting? && d.fan.manual
    ensures ReachedBy(d, run, e)
    ensures (e.fan, e.oops) == WholeStore(d.fan, d.stores[id].val)
    ensures e.cb == d.cb && (e.oops || e.stores == d.stores - {id})
  {
    run, e := Steps(d, [], d, StoreLocked(id), StoreTest(id));
    if e.stores[id].SawZero? {
      run, e := Steps(d, run, e, StoreClear(id), StoreLower(id));
    } else {
      run := Extend(d, run, e, StoreDivide(id));
      e := Apply(e, StoreDivide(id));
      if !e.oops {
        run := Extend(d, run, e, StoreArm(id));
        e := Apply(e, StoreArm(id));
      }
    }
  }

  /** The decimal round trip through both sysfs files: any value below 2^31 that is printed into
      the daemon's buffer, stored in manual mode, shown and read back is itself. */
  method StoreThenRead(fan: FanCtrl, buffer: string, f: nat) returns (back: int)
    requires fan.manualMode && |buffer| == 20 && f < TWO_TO_31
    modifies fan
    ensures fan.manualMode && fan.frequency == f && back == f
  {
    StoredIsPrinted(buffer, f);
    var status, oops := fan.FrequencyStore(Snprintf(buffer, Format(f)));
    assert !oops;
    ReadIsShown(f);
    back := Atoi(ReadInto20(fan.FrequencyShow()));
  }
}
