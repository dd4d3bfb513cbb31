/** What every interleaving of the fan driver keeps: blinking never dies with a non-zero
    frequency; and what the temperature table and the half period compute. */
module FanLiveness {
  import opened Decimal
  import opened FanDriver

  predicate CallbackWillArm(cb: Callback) {
    match cb
    case Entered => true
    case AutoRead(f) => f != 0
    case Chosen(f) => f != 0
    case Toggled(_) => true
    case Driven(_) => true
    case _ => false
  }

  predicate StoreWillDecide(s: Store) {
    s.Unlocked? || s.SawNonzero? || s.Period?
  }

  /** Someone is still responsible for keeping a non-zero frequency blinking. */
  ghost predicate Attended(d: Driver) {
    d.fan.armed || CallbackWillArm(d.cb) || exists id :: id in d.stores && StoreWillDecide(d.stores[id])
  }

  ghost predicate Live(d: Driver) {
    !d.oops && d.fan.frequency != 0 ==> Attended(d)
  }

  lemma LiveStep(d: Driver, step: Step)
    requires Live(d) && Enabled(d, step)
    ensures Live(Apply(d, step))
  {
    var e := Apply(d, step);
    if !e.oops && e.fan.frequency != 0 && !e.fan.armed && !CallbackWillArm(e.cb) {
      if step.StoreLocked? && d.fan.manual {
        assert e.stores[step.id].Unlocked?;
      } else {
        assert d.fan.frequency != 0 && Attended(d);
        var id :| id in d.stores && StoreWillDecide(d.stores[id]);
        assert id in e.stores && StoreWillDecide(e.stores[id]);
      }
    }
  }

  lemma {:induction false} LiveRun(d: Driver, run: seq<Step>)
    requires Live(d) && Legal(d, run)
    ensures Live(Exec(d, run))
  {
    if run == [] {
    } else {
      LiveRun(d, run[..|run| - 1]);
      LiveStep(Exec(d, run[..|run| - 1]), run[|run| - 1]);
    }
  }

  /** Over every interleaving after probe: at rest, a non-zero frequency means a pending timer. */
  lemma {:induction false} BlinkingNeverDies(reading: Reading, run: seq<Step>)
    requires Legal(AfterProbe(reading), run)
    ensures Live(Exec(AfterProbe(reading), run))
    ensures var d := Exec(AfterProbe(reading), run);
            AtRest(d) && !d.oops && d.fan.frequency != 0 ==> d.fan.armed
  {
    LiveRun(AfterProbe(reading), run);
  }

  /** The stores that have returned, other than refused ones. */
  function Returned(run: seq<Step>): nat {
    if run == [] then 0
    else Returned(run[..|run| - 1]) + if run[|run| - 1].StoreLower? || run[|run| - 1].StoreArm? then 1 else 0
  }

  function Begun(run: seq<Step>): nat {
    if run == [] then 0 else Begun(run[..|run| - 1]) + if run[|run| - 1].StoreBegin? then 1 else 0
  }

  lemma StoreCounted(d: Driver, step: Step)
    requires Enabled(d, step)
    ensures var e := Apply(d, step);
            && |e.stores| == |d.stores| + (if step.StoreBegin? then 1 else 0)
               - (if step.StoreLower? || step.StoreArm? || (step.StoreLocked? && !d.fan.manual) then 1 else 0)
            && e.refused == d.refused + (if step.StoreLocked? && !d.fan.manual then 1 else 0)
  {
  }

  /** Every store is in flight, refused, or has returned, and a refused one is counted once. */
  lemma {:induction false} StoresAreConserved(reading: Reading, run: seq<Step>)
    requires Legal(AfterProbe(reading), run)
    ensures var d := Exec(AfterProbe(reading), run); Begun(run) == |d.stores| + d.refused + Returned(run)
  {
    if run == [] {
    } else {
      StoresAreConserved(reading, run[..|run| - 1]);
      StoreCounted(Exec(AfterProbe(reading), run[..|run| - 1]), run[|run| - 1]);
    }
  }

  lemma DivisorIs(f: u32)
    ensures Divisor(f) == if f < TWO_TO_31 then 2 * f else 2 * (f - TWO_TO_31)
  {
  }

  lemma Quotient(m: nat)
    requires m > 0
    ensures m * (1000 / m) <= 1000 < m * (1000 / m + 1)
    ensures 1000 / m == 0 <==> m > 1000
  {
  }

  lemma Product(a: nat, b: nat, c: nat, d: nat)
    requires a <= b && c <= d
    ensures a * c <= b * d
  {
    assert a * c <= b * c;
    assert b * c <= b * d;
  }

  lemma QuotientAntitone(m: nat, n: nat)
    requires 0 < m <= n
    ensures 1000 / n <= 1000 / m
  {
    if 1000 / n > 1000 / m {
      Product(m, n, 1000 / m + 1, 1000 / n);
      Quotient(m);
      Quotient(n);
    }
  }

  /** The half period is the integer part of 1000 / (2f), as long as 2f fits in 32 bits. */
  lemma {:induction false} HalfPeriod(f: u32, g: u32)
    requires 0 < f <= g < TWO_TO_31
    ensures Divisor(f) != 0 && Divisor(g) != 0
    ensures 2 * f * PeriodMs(f) <= 1000 < 2 * f * (PeriodMs(f) + 1)
    ensures PeriodMs(g) <= PeriodMs(f)
    ensures PeriodMs(f) == 0 <==> f > 500
  {
    DivisorIs(f);
    DivisorIs(g);
    Quotient(2 * f);
    QuotientAntitone(2 * f, 2 * g);
  }

  /** In 32 bits the product wraps: the period is the mathematical one exactly for frequencies
      below 2^31 or above 2^31 + 500; in between the fan blinks as if at f - 2^31. */
  lemma {:induction false} PeriodWraps(f: u32)
    requires Divisor(f) != 0
    ensures PeriodMs(f) == 1000 / (2 * f) <==> f < TWO_TO_31 || f > TWO_TO_31 + 500
    ensures f > TWO_TO_31 ==> Divisor(f - TWO_TO_31) != 0 && PeriodMs(f) == PeriodMs(f - TWO_TO_31)
  {
    DivisorIs(f);
    Quotient(Divisor(f));
    Quotient(2 * f);
    if f > TWO_TO_31 {
      DivisorIs(f - TWO_TO_31);
    }
  }

  /** Twenty is dead code, each other value has its band, and the table is not monotone: the hottest readings get less than the
      middle band. */
  lemma TableIsNotMonotone(t: int)
    ensures TempToFreq(t) in {2, 5, 10} && TempToFreq(t) != 20
    ensures (TempToFreq(t) == 2 <==> t < 35000) && (TempToFreq(t) == 5 <==> t > 40000)
    ensures (exists u :: u > t && TempToFreq(u) < TempToFreq(t)) <==> 35000 <= t <= 40000
  {
    if 35000 <= t <= 40000 {
      assert TempToFreq(40001) < TempToFreq(t);
    }
  }
}
