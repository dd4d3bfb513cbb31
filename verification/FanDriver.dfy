/** The kernel fan driver as a state machine at lock granularity.

    The timer callback and every sysfs store is cut into the steps between which another context
    can run: each spinlock section, each unlocked read of `frequency`, and each write of the GPIO
    is a step of its own. The callback is not re-entered: it expires only when it is idle.
    A store in flight is named by an arbitrary key, so any number of them overlap. */
module FanDriver {
  import opened Decimal

  const EPERM := 1
  const EINVAL := 22

  type u32 = x: int | 0 <= x < TWO_TO_32

  const HOTTEST: u32 := 20

  /** The temperature table, in milli-degrees. */
  function TempToFreq(tempMc: int): u32 {
    if tempMc < 35000 then 2
    else if tempMc > 40000 then 5
    else if tempMc < 45000 then 10
    else HOTTEST
  }

  /** `2 * frequency` in 32-bit unsigned arithmetic. */
  function Divisor(freq: u32): u32 {
    2 * freq % TWO_TO_32
  }

  function PeriodMs(freq: u32): nat
    requires Divisor(freq) != 0
  {
    1000 / Divisor(freq)
  }

  /** The fields of struct fan_ctrl, the pin, and the pending timer. */
  datatype Fan = Fan(manual: bool, frequency: u32, gpioState: bool, pin: bool, armed: bool, periodMs: nat)

  /** Where the timer callback stands, with its local copy of the frequency. */
  datatype Callback =
    | Idle
    | Entered                  // expired, snapshot not taken
    | AutoRead(freq: u32)      // snapshot said automatic, temperature not read
    | Chosen(freq: u32)        // local frequency is final
    | Cleared                  // frequency was zero: state cleared, pin still to be lowered
    | Toggled(freq: u32)       // state toggled, pin still to be driven
    | Driven(freq: u32)        // pin driven, timer still to be armed

  /** Where a frequency_store stands, once its text has been parsed. */
  datatype Store =
    | Waiting(val: u32)        // before the lock
    | Unlocked                 // value stored, lock released
    | SawZero                  // first re-read gave zero
    | StateCleared             // state cleared, pin still to be lowered
    | SawNonzero               // first re-read gave non-zero, second one to come
    | Period(ms: nat)          // period computed, timer still to be armed

  datatype Driver = Driver(fan: Fan, cb: Callback, stores: map<nat, Store>, refused: nat, oops: bool)

  datatype Reading = Temp(mc: int) | ReadFailed

  datatype Step =
    | Expire
    | Snapshot
    | AutoUpdate(reading: Reading)
    | Decide
    | LowerPin
    | DrivePin
    | Arm
    | ModeStore(mode: bool)
    | StoreBegin(id: nat, val: u32)
    | StoreLocked(id: nat)
    | StoreTest(id: nat)
    | StoreClear(id: nat)
    | StoreLower(id: nat)
    | StoreDivide(id: nat)
    | StoreArm(id: nat)

  /** Dividing by zero is undefined behaviour: the model stops there and says nothing more. */
  predicate Enabled(d: Driver, step: Step) {
    !d.oops &&
    match step
    case Expire => d.cb.Idle? && d.fan.armed
    case Snapshot => d.cb.Entered?
    case AutoUpdate(_) => d.cb.AutoRead?
    case Decide => d.cb.Chosen?
    case LowerPin => d.cb.Cleared?
    case DrivePin => d.cb.Toggled?
    case Arm => d.cb.Driven?
    case ModeStore(_) => true
    case StoreBegin(id, _) => id !in d.stores
    case StoreLocked(id) => id in d.stores && d.stores[id].Waiting?
    case StoreTest(id) => id in d.stores && d.stores[id].Unlocked?
    case StoreClear(id) => id in d.stores && d.stores[id].SawZero?
    case StoreLower(id) => id in d.stores && d.stores[id].StateCleared?
    case StoreDivide(id) => id in d.stores && d.stores[id].SawNonzero?
    case StoreArm(id) => id in d.stores && d.stores[id].Period?
  }

  function Apply(d: Driver, step: Step): Driver
    requires Enabled(d, step)
  {
    var f := d.fan;
    match step
    case Expire => d.(fan := f.(armed := false), cb := Entered)
    case Snapshot => d.(cb := if f.manual then Chosen(f.frequency) else AutoRead(f.frequency))
    case AutoUpdate(Temp(mc)) => d.(fan := f.(frequency := TempToFreq(mc)), cb := Chosen(TempToFreq(mc)))
    case AutoUpdate(ReadFailed) => d.(cb := Chosen(d.cb.freq))
    case Decide =>
      if d.cb.freq == 0 then d.(fan := f.(gpioState := false), cb := Cleared)
      else d.(fan := f.(gpioState := !f.gpioState), cb := Toggled(d.cb.freq))
    case LowerPin => d.(fan := f.(pin := false), cb := Idle)
    case DrivePin => d.(fan := f.(pin := f.gpioState), cb := Driven(d.cb.freq))
    case Arm =>
      if Divisor(d.cb.freq) == 0 then d.(oops := true)
      else d.(fan := f.(armed := true, periodMs := PeriodMs(d.cb.freq)), cb := Idle)
    case ModeStore(mode) => d.(fan := f.(manual := mode))
    case StoreBegin(id, val) => d.(stores := d.stores[id := Waiting(val)])
    case StoreLocked(id) =>
      if f.manual
      then d.(fan := f.(frequency := d.stores[id].val), stores := d.stores[id := Unlocked])
      else d.(stores := d.stores - {id}, refused := d.refused + 1)
    case StoreTest(id) => d.(stores := d.stores[id := if f.frequency == 0 then SawZero else SawNonzero])
    case StoreClear(id) => d.(fan := f.(gpioState := false), stores := d.stores[id := StateCleared])
    case StoreLower(id) => d.(fan := f.(pin := false), stores := d.stores - {id})
    case StoreDivide(id) =>
      if Divisor(f.frequency) == 0 then d.(oops := true)
      else d.(stores := d.stores[id := Period(PeriodMs(f.frequency))])
    case StoreArm(id) =>
      d.(fan := f.(armed := true, periodMs := d.stores[id].ms), stores := d.stores - {id})
  }

  ghost predicate Legal(d: Driver, run: seq<Step>)
    decreases |run|, 0
  {
    run == [] ||
    (Legal(d, run[..|run| - 1]) && Enabled(Exec(d, run[..|run| - 1]), run[|run| - 1]))
  }

  ghost function Exec(d: Driver, run: seq<Step>): Driver
    requires Legal(d, run)
    decreases |run|, 1
  {
    if run == [] then d else Apply(Exec(d, run[..|run| - 1]), run[|run| - 1])
  }

  ghost predicate ReachedBy(d: Driver, run: seq<Step>, e: Driver) {
    Legal(d, run) && Exec(d, run) == e
  }

  lemma Extend(d: Driver, run: seq<Step>, e: Driver, step: Step) returns (longer: seq<Step>)
    requires ReachedBy(d, run, e) && Enabled(e, step)
    ensures longer == run + [step] && ReachedBy(d, longer, Apply(e, step))
  {
    longer := run + [step];
    assert longer[..|run|] == run;
  }

  /** One uninterrupted callback body, from the snapshot on; the second component says
      whether it divided by zero. */
  function WholeCallback(f: Fan, reading: Reading): (Fan, bool) {
    var read := if f.manual || reading.ReadFailed? then f.frequency else TempToFreq(reading.mc);
    var g := f.(frequency := read);
    if read == 0 then (g.(gpioState := false, pin := false), false)
    else
      var h := g.(gpioState := !f.gpioState, pin := !f.gpioState);
      if Divisor(read) == 0 then (h, true)
      else (h.(armed := true, periodMs := PeriodMs(read)), false)
  }

  /** One uninterrupted frequency_store of a parsed value, in manual mode. */
  function WholeStore(f: Fan, val: u32): (Fan, bool) {
    var g := f.(frequency := val);
    if val == 0 then (g.(gpioState := false, pin := false), false)
    else if Divisor(val) == 0 then (g, true)
    else (g.(armed := true, periodMs := PeriodMs(val)), false)
  }

  const RESET := Fan(false, 0, false, false, false, 0)

  /** Probe clears the fields and calls the callback once; it is not interleaved with anything. */
  function AfterProbe(reading: Reading): Driver {
    var (f, oops) := WholeCallback(RESET, reading);
    Driver(f, Idle, map[], 0, oops)
  }

  predicate AtRest(d: Driver) {
    d.cb.Idle? && d.stores == map[]
  }
}
