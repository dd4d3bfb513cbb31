/** Daemon and driver together, with the driver's callbacks interleaved between any two steps the
    single-threaded daemon takes. The daemon is the only one that writes to sysfs. */
module FanSystem {
  import opened Decimal
  import opened FanDriver
  import opened FanFaults
  import opened FanLiveness
  import opened FanProtocol
  import opened FanStop

  /** What the daemon is doing; Ready is between two of its events. */
  datatype Pc = Ready | WritingMode | Writing(val: int) | InStore

  datatype System = System(d: Driver, cache: bool, pc: Pc)

  datatype SysStep =
    | Kernel(step: Step)       // a callback step, or the next step of the daemon's own store
    | ToggleMode               // the cache flips; the text is still to be written
    | WriteMode
    | Up                       // read the frequency, compute the next one
    | Down
    | SetTo(val: int)          // a request in range
    | BeginStore
    | StoreReturns

  /** The daemon names its only store 0. */
  predicate CanStep(s: System, step: SysStep) {
    match step
    case Kernel(k) => Undisturbed(k) && Enabled(s.d, k)
    case ToggleMode => s.pc.Ready?
    case WriteMode => s.pc.WritingMode? && Enabled(s.d, ModeStore(s.cache))
    case Up => s.pc.Ready? && s.cache
    case Down => s.pc.Ready? && s.cache
    case SetTo(val) => s.pc.Ready? && s.cache && InRange(val)
    case BeginStore => s.pc.Writing? && 0 <= s.pc.val < TWO_TO_32 && Enabled(s.d, StoreBegin(0, s.pc.val))
    case StoreReturns => s.pc.InStore? && 0 !in s.d.stores
  }

  function Take(s: System, step: SysStep): System
    requires CanStep(s, step)
  {
    match step
    case Kernel(k) => s.(d := Apply(s.d, k))
    case ToggleMode => s.(cache := !s.cache, pc := WritingMode)
    case WriteMode => s.(d := Apply(s.d, ModeStore(s.cache)), pc := Ready)
    case Up => s.(pc := Writing(Increased(s.d.fan.frequency)))
    case Down => s.(pc := Writing(Decreased(s.d.fan.frequency)))
    case SetTo(val) => s.(pc := Writing(val))
    case BeginStore => s.(d := Apply(s.d, StoreBegin(0, s.pc.val)), pc := InStore)
    case StoreReturns => s.(pc := Ready)
  }

  ghost predicate Possible(s: System, run: seq<SysStep>)
    decreases |run|, 0
  {
    run == [] ||
    (Possible(s, run[..|run| - 1]) && CanStep(Outcome(s, run[..|run| - 1]), run[|run| - 1]))
  }

  ghost function Outcome(s: System, run: seq<SysStep>): System
    requires Possible(s, run)
    decreases |run|, 1
  {
    if run == [] then s else Take(Outcome(s, run[..|run| - 1]), run[|run| - 1])
  }

  /** fan_init reads the probed driver's mode into the cache. */
  function Start(reading: Reading): System {
    var d := AfterProbe(reading);
    System(d, d.fan.manual, Ready)
  }

  predicate LocalInRange(cb: Callback) {
    match cb
    case AutoRead(f) => InRange(f)
    case Chosen(f) => InRange(f)
    case Toggled(f) => InRange(f)
    case Driven(f) => InRange(f)
    case Cleared => false
    case _ => true
  }

  predicate StoreInRange(s: Store, manual: bool) {
    match s
    case Waiting(v) => InRange(v) && manual
    case SawZero => false
    case StateCleared => false
    case _ => true
  }

  ghost predicate Agreed(s: System) {
    && !s.d.oops && s.d.refused == 0
    && InRange(s.d.fan.frequency) && LocalInRange(s.d.cb) && Live(s.d)
    && s.d.stores.Keys <= {0}
    && (0 in s.d.stores ==> StoreInRange(s.d.stores[0], s.d.fan.manual))
    && match s.pc
       case Ready => s.cache == s.d.fan.manual && s.d.stores == map[]
       case WritingMode => s.cache != s.d.fan.manual && s.d.stores == map[]
       case Writing(v) => s.cache && s.d.fan.manual && s.d.stores == map[] && InRange(v)
       case InStore => s.cache && s.d.fan.manual
  }

  lemma AgreedStep(s: System, step: SysStep)
    requires Agreed(s) && CanStep(s, step)
    ensures Agreed(Take(s, step))
  {
    match step
    case Kernel(k) =>
      LiveStep(s.d, k);
      FaultsExactlyWhen(s.d, k);
    case WriteMode => LiveStep(s.d, ModeStore(s.cache));
    case BeginStore => LiveStep(s.d, StoreBegin(0, s.pc.val));
    case _ =>
  }

  lemma {:induction false} AgreedRun(s: System, run: seq<SysStep>)
    requires Agreed(s) && Possible(s, run)
    ensures Agreed(Outcome(s, run))
  {
    if run == [] {
    } else {
      AgreedRun(s, run[..|run| - 1]);
      AgreedStep(Outcome(s, run[..|run| - 1]), run[|run| - 1]);
    }
  }

  /** In every reachable state no write has been refused, nothing has divided by zero and the
      frequency is in the daemon's range; between events the cache is the driver's mode, and if no
      callback is running either, the timer is pending. */
  lemma {:induction false} DaemonAndDriverAgree(mc: int, run: seq<SysStep>)
    requires Possible(Start(Temp(mc)), run)
    ensures var s := Outcome(Start(Temp(mc)), run);
            && s.d.refused == 0 && !s.d.oops && InRange(s.d.fan.frequency)
            && (s.pc.Ready? ==> s.cache == s.d.fan.manual)
            && (s.pc.Ready? && s.d.cb.Idle? ==> s.d.fan.armed)
  {
    AgreedRun(Start(Temp(mc)), run);
  }

  ghost predicate AlwaysInRange(reading: Reading) {
    forall run :: Possible(Start(reading), run) ==> InRange(Outcome(Start(reading), run).d.fan.frequency)
  }

  /** The probe-time reading decides it: with a failed one the range is violated from the start. */
  lemma InRangeExactlyWhenProbeReads(reading: Reading)
    ensures AlwaysInRange(reading) <==> reading.Temp?
  {
    if reading.Temp? {
      forall run | Possible(Start(reading), run)
        ensures InRange(Outcome(Start(reading), run).d.fan.frequency)
      {
        DaemonAndDriverAgree(reading.mc, run);
      }
    } else {
      assert Possible(Start(reading), []);
      assert !InRange(Outcome(Start(reading), []).d.fan.frequency);
    }
  }

  /** The driver right after a manual frequency was stored, no other store waiting. */
  ghost predicate JustStored(d: Driver) {
    !d.oops && d.fan.manual && forall id :: id in d.stores ==> !d.stores[id].Waiting?
  }

  ghost predicate Kept(d: Driver) {
    forall run :: Legal(d, run) && UndisturbedRun(run) ==> Exec(d, run).fan.frequency == d.fan.frequency
  }

  lemma {:induction false} KeptStep(d: Driver, step: Step)
    requires JustStored(d) && !d.cb.AutoRead? && Enabled(d, step) && Undisturbed(step)
    ensures var e := Apply(d, step);
            (!e.oops ==> JustStored(e)) && !e.cb.AutoRead? && e.fan.frequency == d.fan.frequency
  {
  }

  lemma {:induction false} KeptRun(d: Driver, run: seq<Step>)
    requires JustStored(d) && !d.cb.AutoRead? && Legal(d, run) && UndisturbedRun(run)
    ensures var e := Exec(d, run);
            && (!e.oops ==> JustStored(e)) && !e.cb.AutoRead? && e.fan.frequency == d.fan.frequency
  {
    if run == [] {
    } else {
      assert Undisturbed(run[|run| - 1]);
      KeptRun(d, run[..|run| - 1]);
      KeptStep(Exec(d, run[..|run| - 1]), run[|run| - 1]);
    }
  }

  /** A frequency the user stored survives the callbacks exactly when no automatic callback was
      waiting for its temperature at that moment: one that was overwrites the accepted value
      although the mode is manual. */
  lemma AcceptedFrequencyIsKeptExactlyWhen(d: Driver)
    requires JustStored(d)
    ensures Kept(d) <==> !d.cb.AutoRead?
  {
    if d.cb.AutoRead? {
      var step := AutoUpdate(Temp(if d.fan.frequency == 2 then 50000 else 0));
      var run := Extend(d, [], d, step);
      assert UndisturbedRun(run);
      assert Exec(d, run).fan.frequency != d.fan.frequency;
    } else {
      forall run | Legal(d, run) && UndisturbedRun(run)
        ensures Exec(d, run).fan.frequency == d.fan.frequency
      {
        KeptRun(d, run);
      }
    }
  }

  ghost predicate Seen(s: System, run: seq<SysStep>, t: System) {
    Possible(s, run) && Outcome(s, run) == t
  }

  lemma Append(s: System, run: seq<SysStep>, t: System, step: SysStep) returns (longer: seq<SysStep>, u: System)
    requires Seen(s, run, t) && CanStep(t, step)
    ensures longer == run + [step] && u == Take(t, step) && Seen(s, longer, u)
  {
    longer, u := run + [step], Take(t, step);
    assert longer[..|run|] == run;
  }

  predicate ManualWithAutoCallback(s: System) {
    s.cache && s.d.fan.manual && s.d.cb.AutoRead? && !s.d.oops
  }

  lemma SwitchDuringCallback() returns (run: seq<SysStep>, s: System)
    ensures Seen(Start(Temp(30000)), run, s)
    ensures ManualWithAutoCallback(s) && s.pc.Ready? && s.d.stores == map[]
  {
    var s0 := Start(Temp(30000));
    run, s := [], s0;
    run, s := Append(s0, run, s, Kernel(Expire));
    run, s := Append(s0, run, s, Kernel(Snapshot));
    run, s := Append(s0, run, s, ToggleMode);
    run, s := Append(s0, run, s, WriteMode);
  }

  lemma BeginFifty(s0: System, before: seq<SysStep>, t: System) returns (run: seq<SysStep>, s: System)
    requires Seen(s0, before, t) && ManualWithAutoCallback(t) && t.pc.Ready? && t.d.stores == map[]
    ensures Seen(s0, run, s) && SetTo(50) in run
    ensures ManualWithAutoCallback(s) && s.pc.InStore? && s.d.stores == map[0 := Waiting(50)]
  {
    run, s := Append(s0, before, t, SetTo(50));
    assert run[|before|] == SetTo(50);
    var n := |run|;
    run, s := Append(s0, run, s, BeginStore);
    assert run[n - 1] == SetTo(50);
  }

  lemma AcceptFifty(s0: System, before: seq<SysStep>, t: System) returns (run: seq<SysStep>, s: System)
    requires Seen(s0, before, t) && ManualWithAutoCallback(t) && t.pc.Ready? && t.d.stores == map[]
    ensures Seen(s0, run, s) && SetTo(50) in run
    ensures ManualWithAutoCallback(s) && s.pc.InStore? && s.d.stores == map[0 := Unlocked] && s.d.fan.frequency == 50
  {
    run, s := BeginFifty(s0, before, t);
    run, s := Append(s0, run, s, Kernel(StoreLocked(0)));
  }

  lemma FinishStore(s0: System, before: seq<SysStep>, t: System) returns (run: seq<SysStep>, s: System)
    requires Seen(s0, before, t) && SetTo(50) in before && ManualWithAutoCallback(t) && t.pc.InStore?
    requires t.d.stores == map[0 := Unlocked] && t.d.fan.frequency == 50
    ensures Seen(s0, run, s) && SetTo(50) in run && ManualWithAutoCallback(s) && s.pc.Ready?
  {
    run, s := Append(s0, before, t, Kernel(StoreTest(0)));
    run, s := Append(s0, run, s, Kernel(StoreDivide(0)));
    run, s := Append(s0, run, s, Kernel(StoreArm(0)));
    run, s := Append(s0, run, s, StoreReturns);
  }

  /** That moment is reachable by the daemon: it accepts 50 in manual mode while an automatic
      callback is in flight, and ends between events in manual mode at 2. */
  lemma AcceptedFrequencyCanBeLost() returns (run: seq<SysStep>, s: System)
    ensures Seen(Start(Temp(30000)), run, s) && SetTo(50) in run
    ensures s.pc.Ready? && s.cache && s.d.fan.manual && s.d.fan.frequency == 2
  {
    run, s := SwitchDuringCallback();
    run, s := AcceptFifty(Start(Temp(30000)), run, s);
    run, s := FinishStore(Start(Temp(30000)), run, s);
    run, s := Append(Start(Temp(30000)), run, s, Kernel(AutoUpdate(Temp(30000))));
  }

  /** The system as its clients see it. */
  function Seeming(s: System): Simple {
    Simple(s.d.fan.manual, s.d.fan.frequency)
  }

  /** Between events, no callback running. */
  ghost predicate Quiescent(s: System) {
    Agreed(s) && s.pc.Ready? && s.d.cb.Idle?
  }

  lemma Next(s: System, run: seq<SysStep>, t: System, step: SysStep) returns (longer: seq<SysStep>, u: System)
    requires Seen(s, run, t) && CanStep(t, step)
    ensures u == Take(t, step) && Seen(s, longer, u)
  {
    longer, u := Append(s, run, t, step);
  }

  lemma BeginWrite(s0: System, before: seq<SysStep>, s: System, val: int) returns (run: seq<SysStep>, t: System)
    requires Seen(s0, before, s) && Agreed(s) && s.pc == Writing(val) && s.d.cb.Idle?
    ensures Seen(s0, run, t) && t.pc.InStore? && t.cache == s.cache
    ensures t.d == s.d.(fan := s.d.fan.(frequency := val), stores := map[0 := Unlocked])
  {
    run, t := Next(s0, before, s, BeginStore);
    run, t := Next(s0, run, t, Kernel(StoreLocked(0)));
  }

  lemma ComputePeriod(s0: System, before: seq<SysStep>, s: System) returns (run: seq<SysStep>, t: System)
    requires Seen(s0, before, s) && s.pc.InStore? && s.d.stores == map[0 := Unlocked] && !s.d.oops
    requires InRange(s.d.fan.frequency)
    ensures Seen(s0, run, t) && t.pc.InStore? && t.d.fan == s.d.fan && t.d.cb == s.d.cb && !t.d.oops
    ensures t.d.stores.Keys == {0} && t.d.stores[0].Period?
  {
    run, t := Next(s0, before, s, Kernel(StoreTest(0)));
    FaultsExactlyWhen(t.d, StoreDivide(0));
    run, t := Next(s0, run, t, Kernel(StoreDivide(0)));
  }

  lemma EndWrite(s0: System, before: seq<SysStep>, s: System) returns (run: seq<SysStep>, t: System)
    requires Seen(s0, before, s) && s.pc.InStore? && s.d.stores == map[0 := Unlocked] && !s.d.oops
    requires InRange(s.d.fan.frequency)
    ensures Seen(s0, run, t) && t.pc.Ready? && Seeming(t) == Seeming(s) && t.d.cb == s.d.cb
  {
    run, t := ComputePeriod(s0, before, s);
    run, t := Next(s0, run, t, Kernel(StoreArm(0)));
    run, t := Next(s0, run, t, StoreReturns);
  }

  /** A write of the frequency with nothing in between. */
  lemma WholeWrite(s0: System, before: seq<SysStep>, s: System, step: SysStep) returns (run: seq<SysStep>, t: System)
    requires Seen(s0, before, s) && Quiescent(s) && CanStep(s, step) && (step.Up? || step.Down? || step.SetTo?)
    ensures Seen(s0, run, t) && t.pc.Ready? && t.d.cb.Idle?
    ensures Seeming(t) == Simple(true, Take(s, step).pc.val)
  {
    AgreedStep(s, step);
    run, t := Next(s0, before, s, step);
    run, t := BeginWrite(s0, run, t, t.pc.val);
    run, t := EndWrite(s0, run, t);
  }

  lemma WholeToggle(s0: System, before: seq<SysStep>, s: System) returns (run: seq<SysStep>, t: System)
    requires Seen(s0, before, s) && s.pc.Ready? && s.d.cb.Idle? && !s.d.oops && s.cache == s.d.fan.manual
    ensures Seen(s0, run, t) && t.pc.Ready? && t.d.cb.Idle?
    ensures Seeming(t) == Simple(!s.d.fan.manual, s.d.fan.frequency)
  {
    run, t := Next(s0, before, s, ToggleMode);
    run, t := Next(s0, run, t, WriteMode);
  }

  lemma CallbackChooses(s0: System, before: seq<SysStep>, s: System, reading: Reading)
    returns (run: seq<SysStep>, t: System)
    requires Seen(s0, before, s) && s.pc.Ready? && s.d.cb.Idle? && !s.d.oops && s.d.fan.armed
    ensures Seen(s0, run, t) && t.pc.Ready? && !t.d.oops
    ensures Seeming(t) == Handle(Seeming(s), Tick(reading)).0 && t.d.cb == Chosen(t.d.fan.frequency)
  {
    run, t := Next(s0, before, s, Kernel(Expire));
    run, t := Next(s0, run, t, Kernel(Snapshot));
    if t.d.cb.AutoRead? {
      run, t := Next(s0, run, t, Kernel(AutoUpdate(reading)));
    }
  }

  lemma CallbackInverts(s0: System, before: seq<SysStep>, s: System) returns (run: seq<SysStep>, t: System)
    requires Seen(s0, before, s) && !s.d.oops && s.d.cb.Chosen? && s.d.cb.freq != 0
    ensures Seen(s0, run, t) && t.pc == s.pc && !t.d.oops && t.d.cb == Driven(s.d.cb.freq) && Seeming(t) == Seeming(s)
  {
    run, t := Next(s0, before, s, Kernel(Decide));
    run, t := Next(s0, run, t, Kernel(DrivePin));
  }

  lemma CallbackFinishes(s0: System, before: seq<SysStep>, s: System) returns (run: seq<SysStep>, t: System)
    requires Seen(s0, before, s) && !s.d.oops && s.d.cb == Chosen(s.d.fan.frequency) && InRange(s.d.fan.frequency)
    ensures Seen(s0, run, t) && t.pc == s.pc && t.d.cb.Idle? && Seeming(t) == Seeming(s)
  {
    run, t := CallbackInverts(s0, before, s);
    FaultsExactlyWhen(t.d, Arm);
    run, t := Next(s0, run, t, Kernel(Arm));
  }

  /** One pass of the callback with nothing in between. */
  lemma WholeTick(s0: System, before: seq<SysStep>, s: System, reading: Reading) returns (run: seq<SysStep>, t: System)
    requires Seen(s0, before, s) && Quiescent(s)
    ensures Seen(s0, run, t) && t.pc.Ready? && t.d.cb.Idle?
    ensures Seeming(t) == Handle(Seeming(s), Tick(reading)).0
  {
    run, t := CallbackChooses(s0, before, s, reading);
    run, t := CallbackFinishes(s0, run, t);
  }

  /** Every event is a run of the interleaved system: the one in which nothing comes in between. */
  lemma EventIsARun(s0: System, before: seq<SysStep>, s: System, ev: Event) returns (run: seq<SysStep>, t: System)
    requires Seen(s0, before, s) && Quiescent(s)
    ensures Seen(s0, run, t) && t.pc.Ready? && t.d.cb.Idle?
    ensures Seeming(t) == Handle(Seeming(s), ev).0
  {
    match ev
    case Tick(reading) =>
      run, t := WholeTick(s0, before, s, reading);
    case Button1(true) =>
      run, t := before, s;
      if s.cache { run, t := WholeWrite(s0, before, s, Up); }
    case Button2(true) =>
      run, t := before, s;
      if s.cache { run, t := WholeWrite(s0, before, s, Down); }
    case Button3(true) =>
      run, t := WholeToggle(s0, before, s);
    case Request(cmd, value, _) =>
      run, t := before, s;
      if cmd == SET_MODE && s.cache != (value != 0) {
        run, t := WholeToggle(s0, before, s);
      } else if cmd == SET_FREQUENCY && s.cache && InRange(value) {
        run, t := WholeWrite(s0, before, s, SetTo(value));
      }
    case _ =>
      run, t := before, s;
  }

  /** So the interleaved system can follow the two-field machine through any events. */
  lemma {:induction false} SessionIsARun(mc: int, evs: seq<Event>) returns (run: seq<SysStep>, s: System)
    ensures Seen(Start(Temp(mc)), run, s) && Quiescent(s)
    ensures Seeming(s) == After(Simple(false, TempToFreq(mc)), evs)
  {
    if evs == [] {
      run, s := [], Start(Temp(mc));
    } else {
      run, s := SessionIsARun(mc, evs[..|evs| - 1]);
      run, s := EventIsARun(Start(Temp(mc)), run, s, evs[|evs| - 1]);
      AgreedRun(Start(Temp(mc)), run);
    }
  }
}
