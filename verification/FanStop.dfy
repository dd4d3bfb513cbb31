/** Stopping the fan: what follows once the value 0 has been stored. */
module FanStop {
  import opened Decimal
  import opened FanDriver
  import opened FanFaults
  import opened FanLiveness

  /** The store `id` has just put 0 under the lock; it is the only one in flight, the mode is
      manual, and no callback is about to publish an automatic frequency. */
  ghost predicate JustStopped(d: Driver, id: nat) {
    && !d.oops && d.fan.manual && d.fan.frequency == 0
    && d.stores == map[id := Unlocked] && !d.cb.AutoRead?
  }

  /** Only the callback and the store itself run. */
  predicate Undisturbed(step: Step) {
    !step.ModeStore? && !step.StoreBegin?
  }

  ghost predicate UndisturbedRun(run: seq<Step>) {
    forall i :: 0 <= i < |run| ==> Undisturbed(run[i])
  }

  predicate Completes(step: Step) {
    step.LowerPin? || step.Arm?
  }

  function Completions(run: seq<Step>): nat {
    if run == [] then 0
    else Completions(run[..|run| - 1]) + if Completes(run[|run| - 1]) then 1 else 0
  }

  predicate WillExpire(d: Driver) {
    d.fan.armed || d.cb.Toggled? || d.cb.Driven? || (d.cb.Chosen? && d.cb.freq != 0)
  }

  /** Callback completions still to come. */
  function Pending(d: Driver): nat {
    (if d.cb.Idle? then 0 else 1) + (if WillExpire(d) then 1 else 0)
  }

  function CallbackWork(cb: Callback): nat {
    match cb
    case Idle => 0
    case Entered => 3
    case AutoRead(_) => 3
    case Chosen(f) => if f == 0 then 2 else 3
    case Cleared => 1
    case Toggled(_) => 2
    case Driven(_) => 1
  }

  function StoreWork(d: Driver, id: nat): nat {
    if id !in d.stores then 0
    else match d.stores[id]
         case Unlocked => 3
         case SawZero => 2
         case _ => 1
  }

  /** Steps still to come. */
  function Work(d: Driver, id: nat): nat {
    CallbackWork(d.cb) + (if WillExpire(d) then 4 else 0) + StoreWork(d, id)
  }

  ghost predicate Stopping(d: Driver, id: nat) {
    && !d.oops && d.fan.manual && d.fan.frequency == 0
    && d.stores.Keys <= {id}
    && (id in d.stores ==> d.stores[id].Unlocked? || d.stores[id].SawZero? || d.stores[id].StateCleared?)
    && !d.cb.AutoRead? && Whole(d.cb)
    && (d.cb.Idle? && !d.fan.armed && id !in d.stores ==> !d.fan.pin)
  }

  lemma StoppingStep(d: Driver, id: nat, step: Step)
    requires Stopping(d, id) && Enabled(d, step) && Undisturbed(step)
    ensures var e := Apply(d, step);
            && Stopping(e, id)
            && Work(e, id) < Work(d, id)
            && Pending(e) + (if Completes(step) then 1 else 0) <= Pending(d)
  {
    FaultsExactlyWhen(d, step);
  }

  lemma {:induction false} StoppingRun(d: Driver, id: nat, run: seq<Step>)
    requires Stopping(d, id) && Legal(d, run) && UndisturbedRun(run)
    ensures var e := Exec(d, run);
            && Stopping(e, id)
            && |run| + Work(e, id) <= Work(d, id)
            && Completions(run) + Pending(e) <= Pending(d)
  {
    if run == [] {
    } else {
      var init, last := run[..|run| - 1], run[|run| - 1];
      assert Undisturbed(last);
      StoppingRun(d, id, init);
      StoppingStep(Exec(d, init), id, last);
    }
  }

  /** At rest with the timer off and the pin low. */
  predicate Stopped(d: Driver) {
    AtRest(d) && !d.fan.armed && !d.fan.pin && d.fan.frequency == 0
  }

  lemma StuckMeansStopped(d: Driver, id: nat)
    requires Stopping(d, id)
    ensures Stopped(d) || exists step :: Undisturbed(step) && Enabled(d, step)
  {
    if id in d.stores {
      var step := match d.stores[id]
        case Unlocked => StoreTest(id)
        case SawZero => StoreClear(id)
        case _ => StoreLower(id);
      assert Undisturbed(step) && Enabled(d, step);
    } else if !d.cb.Idle? {
      var step := match d.cb
        case Entered => Snapshot
        case Chosen(_) => Decide
        case Cleared => LowerPin
        case Toggled(_) => DrivePin
        case _ => Arm;
      assert Undisturbed(step) && Enabled(d, step);
    } else if d.fan.armed {
      assert Undisturbed(Expire) && Enabled(d, Expire);
    }
  }

  /** Stopping terminates, unless the callback still holds 2^31: every undisturbed run has at most
      ten steps and two callback completions, never divides by zero, and can only get stuck with
      the pin low and the timer off. */
  lemma {:induction false} StopTerminates(d: Driver, id: nat, run: seq<Step>)
    requires JustStopped(d, id) && Whole(d.cb) && Legal(d, run) && UndisturbedRun(run)
    ensures |run| <= 10 && Completions(run) <= 2 && !Exec(d, run).oops
    ensures Stopped(Exec(d, run)) || exists step :: Undisturbed(step) && Enabled(Exec(d, run), step)
  {
    StoppingRun(d, id, run);
    StuckMeansStopped(Exec(d, run), id);
  }

  lemma {:induction false} BadCopyFaults(d: Driver, before: seq<Step>, e: Driver) returns (run: seq<Step>)
    requires ReachedBy(d, before, e) && UndisturbedRun(before)
    requires !e.oops && !e.cb.AutoRead? && !Whole(e.cb)
    ensures Legal(d, run) && UndisturbedRun(run) && Exec(d, run).oops
    decreases CallbackWork(e.cb)
  {
    var step := match e.cb
      case Chosen(_) => Decide
      case Toggled(_) => DrivePin
      case _ => Arm;
    run := Extend(d, before, e, step);
    if step != Arm {
      run := BadCopyFaults(d, run, Apply(e, step));
    }
  }

  /** The exception is exact: a stop can divide by zero if and only if the callback's local copy
      is 2^31 (or, past its zero test, another multiple of it). */
  lemma StopFaultsExactlyWhen(d: Driver, id: nat)
    requires JustStopped(d, id)
    ensures (exists run :: Legal(d, run) && UndisturbedRun(run) && Exec(d, run).oops) <==> !Whole(d.cb)
  {
    if Whole(d.cb) {
      forall run | Legal(d, run) && UndisturbedRun(run)
        ensures !Exec(d, run).oops
      {
        StopTerminates(d, id, run);
      }
    } else {
      var run := BadCopyFaults(d, [], d);
    }
  }

  /** A run that stores nothing but zeros. */
  ghost predicate OnlyZeros(run: seq<Step>) {
    forall i :: 0 <= i < |run| && run[i].StoreBegin? ==> run[i].val == 0
  }

  /** With the timer off, a stopped fan stays stopped until a non-zero value is stored. Mode stores
      do not revive it: back in automatic mode the temperature is never read again. */
  lemma {:induction false} StoppedStays(d: Driver, run: seq<Step>)
    requires AtRest(d) && !d.fan.armed && d.fan.frequency == 0 && Legal(d, run) && OnlyZeros(run)
    ensures Dead(Exec(d, run)) && (!d.fan.pin ==> !Exec(d, run).fan.pin)
  {
    if run == [] {
    } else {
      var init, last := run[..|run| - 1], run[|run| - 1];
      assert forall i :: 0 <= i < |init| ==> init[i] == run[i];
      StoppedStays(d, init);
      assert last == run[|init|];
      DeadStep(Exec(d, init), last);
    }
  }

  /** Every store of the run is of one of these values. */
  ghost predicate StoresOf(run: seq<Step>, vals: set<u32>) {
    forall i :: 0 <= i < |run| && run[i].StoreBegin? ==> run[i].val in vals
  }

  /** Some run with such stores reaches a callback that reads the temperature. */
  ghost predicate AutomaticReturns(d: Driver, vals: set<u32>) {
    exists run :: Legal(d, run) && StoresOf(run, vals) && Exec(d, run).cb.AutoRead?
  }

  /** No callback to come: whatever store gets past its zero test divides by zero. */
  ghost predicate Stuck(d: Driver) {
    && d.cb.Idle? && !d.fan.armed && d.fan.frequency % TWO_TO_31 == 0
    && forall a :: a in d.stores ==> match d.stores[a] case Waiting(v) => v % TWO_TO_31 == 0 case Period(_) => false case _ => true
  }

  lemma {:induction false} StuckRun(d: Driver, run: seq<Step>, vals: set<u32>)
    requires Stuck(d) && Legal(d, run) && StoresOf(run, vals) && forall v :: v in vals ==> v % TWO_TO_31 == 0
    ensures Stuck(Exec(d, run))
  {
    if run == [] {
    } else {
      var init, last := run[..|run| - 1], run[|run| - 1];
      assert forall i :: 0 <= i < |init| ==> init[i] == run[i];
      StuckRun(d, init, vals);
      assert last == run[|init|];
      FaultsExactlyWhen(Exec(d, init), last);
    }
  }

  ghost predicate Reaches(d: Driver, vals: set<u32>, run: seq<Step>, e: Driver) {
    ReachedBy(d, run, e) && StoresOf(run, vals)
  }

  lemma ExtendStores(d: Driver, vals: set<u32>, run: seq<Step>, e: Driver, step: Step)
    returns (longer: seq<Step>, f: Driver)
    requires Reaches(d, vals, run, e) && Enabled(e, step) && (step.StoreBegin? ==> step.val in vals)
    ensures f == Apply(e, step) && Reaches(d, vals, longer, f)
  {
    longer := Extend(d, run, e, step);
    f := Apply(e, step);
  }

  /** A pending timer is enough: its callback finds the mode automatic again. */
  lemma ArmedReturns(d: Driver, vals: set<u32>, before: seq<Step>, e: Driver) returns (run: seq<Step>, f: Driver)
    requires Reaches(d, vals, before, e) && !e.oops && e.cb.Idle? && e.fan.armed
    ensures Reaches(d, vals, run, f) && f.cb.AutoRead? && !f.oops && f.stores == e.stores && !f.fan.manual
  {
    run, f := ExtendStores(d, vals, before, e, ModeStore(false));
    run, f := ExtendStores(d, vals, run, f, Expire);
    run, f := ExtendStores(d, vals, run, f, Snapshot);
  }

  lemma StoreManually(d: Driver, vals: set<u32>, v: u32) returns (run: seq<Step>, e: Driver)
    requires AtRest(d) && !d.oops && v in vals
    ensures Reaches(d, vals, run, e)
    ensures e == d.(fan := d.fan.(manual := true, frequency := v), stores := map[0 := Unlocked])
  {
    run, e := ExtendStores(d, vals, [], d, ModeStore(true));
    run, e := ExtendStores(d, vals, run, e, StoreBegin(0, v));
    run, e := ExtendStores(d, vals, run, e, StoreLocked(0));
  }

  lemma StoreRevives(d: Driver, vals: set<u32>, v: u32) returns (run: seq<Step>, e: Driver)
    requires AtRest(d) && !d.oops && v in vals && v % TWO_TO_31 != 0
    ensures Reaches(d, vals, run, e) && !e.oops && e.cb.Idle? && e.fan.armed
  {
    run, e := StoreManually(d, vals, v);
    run, e := ExtendStores(d, vals, run, e, StoreTest(0));
    run, e := ExtendStores(d, vals, run, e, StoreDivide(0));
    run, e := ExtendStores(d, vals, run, e, StoreArm(0));
  }

  /** When automatic mode can come back, for a driver at rest anywhere in any run from probe and
      any set of values still to be stored: exactly when the timer is pending or one of the values
      is neither 0 nor 2^31. A non-zero frequency at rest says that the timer is pending. */
  lemma {:induction false} AutomaticReturnsExactlyWhen(reading: Reading, before: seq<Step>, vals: set<u32>)
    requires Legal(AfterProbe(reading), before)
    requires AtRest(Exec(AfterProbe(reading), before)) && !Exec(AfterProbe(reading), before).oops
    ensures var d := Exec(AfterProbe(reading), before);
            AutomaticReturns(d, vals) <==> d.fan.armed || exists v :: v in vals && v % TWO_TO_31 != 0
    ensures var d := Exec(AfterProbe(reading), before);
            d.fan.frequency != 0 ==> d.fan.armed
  {
    var d := Exec(AfterProbe(reading), before);
    BlinkingNeverDies(reading, before);
    if d.fan.armed {
      var run, f := ArmedReturns(d, vals, [], d);
    } else if v :| v in vals && v % TWO_TO_31 != 0 {
      var run, e := StoreRevives(d, vals, v);
      run, e := ArmedReturns(d, vals, run, e);
    } else {
      forall run | Legal(d, run) && StoresOf(run, vals)
        ensures !Exec(d, run).cb.AutoRead?
      {
        StuckRun(d, run, vals);
      }
    }
  }

  /** Storing 0 does not cancel a pending timer: the driver is at rest at frequency 0 with the pin
      low and the timer armed. */
  lemma StopLeavesTimer(mc: int) returns (run: seq<Step>, e: Driver)
    ensures Reaches(AfterProbe(Temp(mc)), {0}, run, e)
    ensures AtRest(e) && !e.oops && e.fan.manual && e.fan.frequency == 0 && !e.fan.pin && e.fan.armed
  {
    var d := AfterProbe(Temp(mc));
    run, e := StoreManually(d, {0}, 0);
    run, e := ExtendStores(d, {0}, run, e, StoreTest(0));
    run, e := ExtendStores(d, {0}, run, e, StoreClear(0));
    run, e := ExtendStores(d, {0}, run, e, StoreLower(0));
  }

  /** Back in automatic mode before that timer expires, the fan blinks again by itself. */
  lemma StoppedComesBack(mc: int) returns (run: seq<Step>, e: Driver)
    ensures Reaches(AfterProbe(Temp(mc)), {0}, run, e)
    ensures AtRest(e) && !e.oops && !e.fan.manual && e.fan.frequency == TempToFreq(mc) && e.fan.armed
  {
    var d := AfterProbe(Temp(mc));
    run, e := StopLeavesTimer(mc);
    run, e := ArmedReturns(d, {0}, run, e);
    run, e := ExtendStores(d, {0}, run, e, AutoUpdate(Temp(mc)));
    run, e := ExtendStores(d, {0}, run, e, Decide);
    run, e := ExtendStores(d, {0}, run, e, DrivePin);
    run, e := ExtendStores(d, {0}, run, e, Arm);
  }

  /** In automatic mode not even a non-zero store helps: it is refused. */
  ghost predicate DeadInAuto(d: Driver) {
    && d.cb.Idle? && !d.fan.armed && d.fan.frequency == 0 && !d.fan.manual
    && forall id :: id in d.stores ==> d.stores[id].Waiting?
  }

  lemma {:induction false} AutoStaysDead(d: Driver, run: seq<Step>)
    requires DeadInAuto(d) && Legal(d, run) && ModeStore(true) !in run
    ensures DeadInAuto(Exec(d, run))
  {
    if run == [] {
    } else {
      AutoStaysDead(d, run[..|run| - 1]);
      assert run[|run| - 1] in run;
    }
  }

  /** The fan is in that state from the start exactly when the first temperature read fails. */
  lemma ProbeFailureIsDead(reading: Reading)
    ensures DeadInAuto(AfterProbe(reading)) <==> reading.ReadFailed?
  {
  }

  /** Why no automatic callback may be mid-flight: one that is publishes its temperature's
      frequency over the stored zero, and the fan keeps blinking. */
  lemma AutoCallbackOutlivesStop(d: Driver, t: int)
    requires !d.oops && d.cb.AutoRead? && d.fan.frequency == 0
    ensures exists run, e :: ReachedBy(d, run, e) && e.fan.armed && e.fan.frequency == TempToFreq(t) != 0
  {
    var run, e := [], d;
    run := Extend(d, run, e, AutoUpdate(Temp(t)));
    e := Apply(e, AutoUpdate(Temp(t)));
    run := Extend(d, run, e, Decide);
    e := Apply(e, Decide);
    run := Extend(d, run, e, DrivePin);
    e := Apply(e, DrivePin);
    run := Extend(d, run, e, Arm);
    e := Apply(e, Arm);
  }
}
