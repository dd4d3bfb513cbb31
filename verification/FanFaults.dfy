/** When the fan driver divides by zero: exactly, for every set of values its users may store and
    every number of stores they may have in flight. */
module FanFaults {
  import opened Decimal
  import opened FanDriver

  lemma DivisorIsZero(f: u32)
    ensures Divisor(f) == 0 <==> f % TWO_TO_31 == 0
  {
    assert f < TWO_TO_31 || f - TWO_TO_31 < TWO_TO_31;
  }

  /** A step faults exactly when it divides and its divisor frequency is a multiple of 2^31:
      the store's second, unlocked read of `frequency`, or the callback's local copy. */
  lemma FaultsExactlyWhen(d: Driver, step: Step)
    requires Enabled(d, step)
    ensures Apply(d, step).oops <==>
              (step.StoreDivide? && d.fan.frequency % TWO_TO_31 == 0) ||
              (step.Arm? && d.cb.freq % TWO_TO_31 == 0)
  {
    DivisorIsZero(d.fan.frequency);
    if step.Arm? { DivisorIsZero(d.cb.freq); }
  }

  /** The users' part: they store values of `vals`, at most m of them at a time. */
  ghost predicate Confined(d: Driver, run: seq<Step>, vals: set<u32>, m: nat)
    requires Legal(d, run)
  {
    run == [] ||
    var init, last := run[..|run| - 1], run[|run| - 1];
    Confined(d, init, vals, m) && (last.StoreBegin? ==> last.val in vals && |Exec(d, init).stores| < m)
  }

  ghost predicate NeverFaults(reading: Reading, vals: set<u32>, m: nat) {
    forall run :: Legal(AfterProbe(reading), run) && Confined(AfterProbe(reading), run, vals, m) ==>
      !Exec(AfterProbe(reading), run).oops
  }

  /** No local copy of the callback makes it fault. */
  predicate Whole(cb: Callback) {
    match cb
    case AutoRead(f) => f != TWO_TO_31
    case Chosen(f) => f != TWO_TO_31
    case Toggled(f) => f % TWO_TO_31 != 0
    case Driven(f) => f % TWO_TO_31 != 0
    case _ => true
  }

  /** One store at a time: a store that saw a non-zero frequency still sees it. */
  ghost predicate SafeAlone(d: Driver, vals: set<u32>) {
    && !d.oops && d.fan.frequency != TWO_TO_31 && Whole(d.cb)
    && (forall a, b :: a in d.stores && b in d.stores ==> a == b)
    && (forall a :: a in d.stores && d.stores[a].Waiting? ==> d.stores[a].val in vals)
    && (forall a :: a in d.stores && d.stores[a].SawNonzero? ==> d.fan.frequency != 0)
  }

  lemma AloneStep(d: Driver, step: Step, vals: set<u32>)
    requires TWO_TO_31 !in vals && SafeAlone(d, vals) && Enabled(d, step)
    requires step.StoreBegin? ==> step.val in vals && |d.stores| < 1
    ensures SafeAlone(Apply(d, step), vals)
  {
    FaultsExactlyWhen(d, step);
    assert step.StoreBegin? ==> d.stores == map[];
  }

  lemma {:induction false} AloneNeverFaults(reading: Reading, run: seq<Step>, vals: set<u32>)
    requires TWO_TO_31 !in vals
    requires Legal(AfterProbe(reading), run) && Confined(AfterProbe(reading), run, vals, 1)
    ensures SafeAlone(Exec(AfterProbe(reading), run), vals)
  {
    if run == [] {
    } else {
      var init, last := run[..|run| - 1], run[|run| - 1];
      AloneNeverFaults(reading, init, vals);
      AloneStep(Exec(AfterProbe(reading), init), last, vals);
    }
  }

  /** Any number of stores, none of them zero: once a store has seen a non-zero frequency, the
      frequency never becomes zero again. */
  ghost predicate SafeOverlapping(d: Driver, vals: set<u32>) {
    && !d.oops && d.fan.frequency != TWO_TO_31 && Whole(d.cb)
    && (forall a :: a in d.stores && d.stores[a].Waiting? ==> d.stores[a].val in vals)
    && (forall a :: a in d.stores && !d.stores[a].Waiting? ==> d.fan.frequency != 0)
  }

  lemma OverlappingStep(d: Driver, step: Step, vals: set<u32>)
    requires TWO_TO_31 !in vals && 0 !in vals && SafeOverlapping(d, vals) && Enabled(d, step)
    requires step.StoreBegin? ==> step.val in vals
    ensures SafeOverlapping(Apply(d, step), vals)
  {
    FaultsExactlyWhen(d, step);
  }

  lemma {:induction false} OverlappingNeverFaults(reading: Reading, run: seq<Step>, vals: set<u32>, m: nat)
    requires TWO_TO_31 !in vals && 0 !in vals
    requires Legal(AfterProbe(reading), run) && Confined(AfterProbe(reading), run, vals, m)
    ensures SafeOverlapping(Exec(AfterProbe(reading), run), vals)
  {
    if run == [] {
    } else {
      var init, last := run[..|run| - 1], run[|run| - 1];
      OverlappingNeverFaults(reading, init, vals, m);
      OverlappingStep(Exec(AfterProbe(reading), init), last, vals);
    }
  }

  /** No callback to come and nothing but zeros being stored. */
  ghost predicate Dead(d: Driver) {
    && d.cb.Idle? && !d.fan.armed && d.fan.frequency == 0
    && forall a :: a in d.stores ==> d.stores[a] in {Waiting(0), Unlocked, SawZero, StateCleared}
  }

  lemma DeadStep(d: Driver, step: Step)
    requires Dead(d) && Enabled(d, step)
    requires step.StoreBegin? ==> step.val == 0
    ensures Dead(Apply(d, step)) && !Apply(d, step).oops && (!d.fan.pin ==> !Apply(d, step).fan.pin)
  {
  }

  /** After a failed probe-time reading nothing but zeros: the fan never starts. */
  lemma {:induction false} ZerosNeverStart(run: seq<Step>, vals: set<u32>, m: nat)
    requires vals <= {0}
    requires Legal(AfterProbe(ReadFailed), run) && Confined(AfterProbe(ReadFailed), run, vals, m)
    ensures Dead(Exec(AfterProbe(ReadFailed), run)) && !Exec(AfterProbe(ReadFailed), run).oops
  {
    if run == [] {
    } else {
      ZerosNeverStart(run[..|run| - 1], vals, m);
      DeadStep(Exec(AfterProbe(ReadFailed), run[..|run| - 1]), run[|run| - 1]);
    }
  }

  ghost predicate Confines(d: Driver, run: seq<Step>, e: Driver, vals: set<u32>, m: nat) {
    ReachedBy(d, run, e) && Confined(d, run, vals, m)
  }

  lemma ExtendConfined(d: Driver, run: seq<Step>, e: Driver, step: Step, vals: set<u32>, m: nat)
    returns (longer: seq<Step>, f: Driver)
    requires Confines(d, run, e, vals, m) && Enabled(e, step)
    requires step.StoreBegin? ==> step.val in vals && |e.stores| < m
    ensures f == Apply(e, step) && Confines(d, longer, f, vals, m)
  {
    longer := Extend(d, run, e, step);
    f := Apply(e, step);
    assert longer[..|run|] == run;
  }

  /** The mode is set to manual and a store of v begins. */
  lemma BeginManualStore(d: Driver, before: seq<Step>, b: Driver, v: u32, vals: set<u32>, m: nat)
    returns (run: seq<Step>, e: Driver)
    requires Confines(d, before, b, vals, m) && !b.oops && b.stores == map[] && v in vals && m >= 1
    ensures Confines(d, run, e, vals, m)
    ensures e == b.(fan := b.fan.(manual := true), stores := map[0 := Waiting(v)])
  {
    run, e := ExtendConfined(d, before, b, ModeStore(true), vals, m);
    run, e := ExtendConfined(d, run, e, StoreBegin(0, v), vals, m);
  }

  /** A store that has seen a non-zero frequency, while the mode is manual. */
  predicate Halfway(d: Driver) {
    !d.oops && d.fan.manual && d.stores == map[0 := SawNonzero]
  }

  lemma NonzeroStoreHalfway(reading: Reading, v: u32, vals: set<u32>, m: nat) returns (run: seq<Step>, h: Driver)
    requires v in vals && v != 0 && m >= 1
    ensures Confines(AfterProbe(reading), run, h, vals, m) && Halfway(h) && h.fan.frequency == v
  {
    var d := AfterProbe(reading);
    run, h := BeginManualStore(d, [], d, v, vals, m);
    run, h := ExtendConfined(d, run, h, StoreLocked(0), vals, m);
    run, h := ExtendConfined(d, run, h, StoreTest(0), vals, m);
  }

  /** A store of 2^31 on its own. */
  lemma WrappingStoreFaults(reading: Reading, vals: set<u32>, m: nat) returns (run: seq<Step>, e: Driver)
    requires TWO_TO_31 in vals && m >= 1
    ensures Confines(AfterProbe(reading), run, e, vals, m) && e.oops
  {
    run, e := NonzeroStoreHalfway(reading, TWO_TO_31, vals, m);
    run, e := ExtendConfined(AfterProbe(reading), run, e, StoreDivide(0), vals, m);
  }

  /** A second store puts zero between the first one's two unlocked reads. */
  lemma ZeroInBetweenFaults(d: Driver, before: seq<Step>, h: Driver, vals: set<u32>, m: nat)
    returns (run: seq<Step>, e: Driver)
    requires Confines(d, before, h, vals, m) && Halfway(h) && 0 in vals && m >= 2
    ensures Confines(d, run, e, vals, m) && e.oops
  {
    run, e := ExtendConfined(d, before, h, StoreBegin(1, 0), vals, m);
    run, e := ExtendConfined(d, run, e, StoreLocked(1), vals, m);
    run, e := ExtendConfined(d, run, e, StoreDivide(0), vals, m);
  }

  lemma AutomaticCallback(mc: int, vals: set<u32>, m: nat) returns (run: seq<Step>, e: Driver)
    ensures Confines(AfterProbe(Temp(mc)), run, e, vals, m)
    ensures !e.oops && e.cb.AutoRead? && e.stores == map[]
  {
    var d := AfterProbe(Temp(mc));
    run, e := ExtendConfined(d, [], d, Expire, vals, m);
    run, e := ExtendConfined(d, run, e, Snapshot, vals, m);
  }

  /** A store of zero sees a non-zero frequency when an automatic callback publishes one before
      its first read. */
  lemma ZeroStoreHalfway(mc: int, vals: set<u32>, m: nat) returns (run: seq<Step>, h: Driver)
    requires 0 in vals && m >= 1
    ensures Confines(AfterProbe(Temp(mc)), run, h, vals, m) && Halfway(h)
  {
    var d := AfterProbe(Temp(mc));
    run, h := AutomaticCallback(mc, vals, m);
    run, h := BeginManualStore(d, run, h, 0, vals, m);
    run, h := ExtendConfined(d, run, h, StoreLocked(0), vals, m);
    run, h := ExtendConfined(d, run, h, AutoUpdate(Temp(mc)), vals, m);
    run, h := ExtendConfined(d, run, h, StoreTest(0), vals, m);
  }

  /** Two overlapping stores, one of them zero, fault; two zeros do if the fan ever started. */
  lemma OverlappingStoresFault(reading: Reading, vals: set<u32>, m: nat) returns (run: seq<Step>, e: Driver)
    requires 0 in vals && m >= 2 && (reading.Temp? || vals != {0})
    ensures Confines(AfterProbe(reading), run, e, vals, m) && e.oops
  {
    if v :| v in vals && v != 0 {
      run, e := NonzeroStoreHalfway(reading, v, vals, m);
    } else {
      assert vals == {0};
      run, e := ZeroStoreHalfway(reading.mc, vals, m);
    }
    run, e := ZeroInBetweenFaults(AfterProbe(reading), run, e, vals, m);
  }

  /** For every set of values and every number of stores in flight: no interleaving divides by
      zero exactly when 2^31 is never stored and stores either come one at a time or are never
      zero (or the fan was never started and nothing but zero is stored). */
  lemma NeverFaultsExactlyWhen(reading: Reading, vals: set<u32>, m: nat)
    requires m >= 1
    ensures NeverFaults(reading, vals, m) <==>
              TWO_TO_31 !in vals && (m == 1 || 0 !in vals || (reading.ReadFailed? && vals == {0}))
  {
    var d := AfterProbe(reading);
    if TWO_TO_31 in vals {
      var run, e := WrappingStoreFaults(reading, vals, m);
    } else if m > 1 && 0 in vals && (reading.Temp? || vals != {0}) {
      var run, e := OverlappingStoresFault(reading, vals, m);
    } else {
      forall run | Legal(d, run) && Confined(d, run, vals, m)
        ensures !Exec(d, run).oops
      {
        if m == 1 {
          AloneNeverFaults(reading, run, vals);
        } else if 0 !in vals {
          OverlappingNeverFaults(reading, run, vals, m);
        } else {
          ZerosNeverStart(run, vals, m);
        }
      }
    }
  }
}
