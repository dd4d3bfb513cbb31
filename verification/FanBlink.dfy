/** That the fan blinks: every pass of the timer callback inverts the pin, over every interleaving
    in which nothing stops the fan. */
module FanBlink {
  import opened Basics
  import opened FanDriver

  /** How often the callback has inverted its state, and how often it has driven the pin. */
  function Inversions(run: seq<Step>): nat {
    if run == [] then 0 else Inversions(run[..|run| - 1]) + if run[|run| - 1].Decide? then 1 else 0
  }

  function Drives(run: seq<Step>): nat {
    if run == [] then 0 else Drives(run[..|run| - 1]) + if run[|run| - 1].DrivePin? then 1 else 0
  }

  /** Nothing stops the fan: no callback decides on a frequency of zero, no store acts on one. */
  ghost predicate Unstopped(d: Driver, run: seq<Step>)
    requires Legal(d, run)
  {
    run == [] ||
    var init, last := run[..|run| - 1], run[|run| - 1];
    && Unstopped(d, init)
    && (last.Decide? ==> Exec(d, init).cb.freq != 0) && !last.StoreClear?
  }

  /** The pin shows the state, except between the inversion and the write of the pin. */
  ghost predicate PinFollows(d: Driver) {
    && !d.cb.Cleared? && (forall id :: id in d.stores ==> !d.stores[id].StateCleared?)
    && d.fan.pin == (d.fan.gpioState != d.cb.Toggled?)
  }

  lemma {:induction false} UnstoppedStep(d: Driver, step: Step)
    requires Enabled(d, step) && (step.Decide? ==> d.cb.freq != 0) && !step.StoreClear?
    ensures Apply(d, step).fan.gpioState == (d.fan.gpioState != step.Decide?)
    ensures PinFollows(d) ==> PinFollows(Apply(d, step)) && Apply(d, step).fan.pin == (d.fan.pin != step.DrivePin?)
  {
  }

  /** The state is inverted once per decision, and by nothing else. */
  lemma {:induction false} StateAlternates(d: Driver, run: seq<Step>)
    requires Legal(d, run) && Unstopped(d, run)
    ensures Exec(d, run).fan.gpioState == (d.fan.gpioState != Odd(Inversions(run)))
  {
    if run == [] {
    } else {
      StateAlternates(d, run[..|run| - 1]);
      UnstoppedStep(Exec(d, run[..|run| - 1]), run[|run| - 1]);
    }
  }

  /** Each write of the pin inverts it: after any run the pin differs from the first one exactly
      when it was driven an odd number of times. */
  lemma {:induction false} PinAlternates(d: Driver, run: seq<Step>)
    requires PinFollows(d) && Legal(d, run) && Unstopped(d, run)
    ensures PinFollows(Exec(d, run))
    ensures Exec(d, run).fan.pin == (d.fan.pin != Odd(Drives(run)))
  {
    if run == [] {
    } else {
      PinAlternates(d, run[..|run| - 1]);
      UnstoppedStep(Exec(d, run[..|run| - 1]), run[|run| - 1]);
    }
  }

  /** No zero anywhere: neither stored, nor about to be, nor in a local copy. */
  ghost predicate NoZero(d: Driver) {
    && d.fan.frequency != 0
    && (match d.cb
        case AutoRead(f) => f != 0
        case Chosen(f) => f != 0
        case Cleared => false
        case _ => true)
    && forall id :: id in d.stores ==> d.stores[id] !in {Waiting(0), SawZero, StateCleared}
  }

  ghost predicate StoresNoZero(run: seq<Step>) {
    forall i :: 0 <= i < |run| && run[i].StoreBegin? ==> run[i].val != 0
  }

  lemma NoZeroStep(d: Driver, step: Step)
    requires NoZero(d) && Enabled(d, step) && (step.StoreBegin? ==> step.val != 0)
    ensures NoZero(Apply(d, step))
    ensures (step.Decide? ==> d.cb.freq != 0) && !step.StoreClear?
  {
  }

  lemma {:induction false} NoZeroRun(d: Driver, run: seq<Step>)
    requires NoZero(d) && Legal(d, run) && StoresNoZero(run)
    ensures NoZero(Exec(d, run)) && Unstopped(d, run)
  {
    if run == [] {
    } else {
      var init, last := run[..|run| - 1], run[|run| - 1];
      assert forall i :: 0 <= i < |init| ==> init[i] == run[i];
      NoZeroRun(d, init);
      assert last == run[|init|];
      NoZeroStep(Exec(d, init), last);
    }
  }

  /** Probed with a good reading and never given a zero, the fan blinks in every interleaving of
      callbacks, mode stores and any number of frequency stores: the pin is high from the probe,
      and inverted each time the callback drives it. */
  lemma {:induction false} FanBlinks(mc: int, run: seq<Step>)
    requires Legal(AfterProbe(Temp(mc)), run) && StoresNoZero(run)
    ensures Exec(AfterProbe(Temp(mc)), run).fan.pin == !Odd(Drives(run))
    ensures Exec(AfterProbe(Temp(mc)), run).fan.gpioState == !Odd(Inversions(run))
  {
    var d := AfterProbe(Temp(mc));
    NoZeroRun(d, run);
    PinAlternates(d, run);
    StateAlternates(d, run);
  }
}
