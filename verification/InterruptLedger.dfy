/** Conservation of interrupts in the counting drivers, and the total the Rust application
    accumulates from what it reads. */
module InterruptLedger {
  import opened Basics
  import opened Decimal
  import opened WaitQueue

  function Value(w: Waiter): int {
    if w.Holding? then w.value else 0
  }

  /** What readers have taken and not yet handed over. */
  ghost function Held(ws: map<nat, Waiter>): int {
    if ws == map[] then 0
    else var w :| w in ws; Value(ws[w]) + Held(ws - {w})
  }

  lemma {:induction false} HeldWithout(ws: map<nat, Waiter>, w: nat)
    requires w in ws
    ensures Held(ws) == Value(ws[w]) + Held(ws - {w})
  {
    var v :| v in ws && Held(ws) == Value(ws[v]) + Held(ws - {v});
    if v != w {
      HeldWithout(ws - {v}, w);
      HeldWithout(ws - {w}, v);
      assert ws - {v} - {w} == ws - {w} - {v};
    }
  }

  lemma HeldPut(ws: map<nat, Waiter>, w: nat, x: Waiter)
    ensures Held(ws[w := x]) == Held(ws) - (if w in ws then Value(ws[w]) else 0) + Value(x)
  {
    HeldWithout(ws[w := x], w);
    if w in ws {
      HeldWithout(ws, w);
      assert ws[w := x] - {w} == ws - {w};
    } else {
      assert ws[w := x] - {w} == ws;
    }
  }

  lemma {:induction false} HeldWakeAll(ws: map<nat, Waiter>)
    ensures Held(WakeAll(ws)) == Held(ws)
  {
    if ws == map[] {
      assert WakeAll(ws) == map[];
    } else {
      var w :| w in ws;
      HeldWithout(ws, w);
      HeldWithout(WakeAll(ws), w);
      assert WakeAll(ws) - {w} == WakeAll(ws - {w});
      HeldWakeAll(ws - {w});
    }
  }

  /** Interrupts raised that are accounted for, leaving out counter wrap-arounds. */
  ghost function Accounted(st: State): int {
    Sum(st.delivered) + st.discarded + st.dropped + Held(st.waiters) + st.counter
  }

  ghost predicate Balanced(st: State) {
    st.raised == Accounted(st) + st.wraps * TWO_TO_32
  }

  lemma BalancedStep(cfg: Config, st: State, step: Step)
    requires cfg.counts && Enabled(cfg, st, step)
    ensures var t := Apply(cfg, st, step);
            Accounted(t) + t.wraps * TWO_TO_32 - t.raised == Accounted(st) + st.wraps * TWO_TO_32 - st.raised
  {
    var t := Apply(cfg, st, step);
    match step
    case Wake(_) => HeldWakeAll(st.waiters);
    case WakeStop => HeldWakeAll(st.waiters);
    case StartRead(w, b) => HeldPut(st.waiters, w, FirstTake(b));
    case StartWait(w) => HeldPut(st.waiters, w, Enqueue);
    case TakeFirst(w) => HeldWithout(st.waiters, w); HeldPut(st.waiters, w, if w in t.waiters then t.waiters[w] else Enqueue);
    case Join(w) => HeldPut(st.waiters, w, Check(false));
    case Read(w) => HeldPut(st.waiters, w, t.waiters[w]);
    case Sleep(w) => HeldPut(st.waiters, w, t.waiters[w]);
    case Interrupt(w) => HeldWithout(st.waiters, w);
    case Take(w) => HeldPut(st.waiters, w, t.waiters[w]);
    case Deliver(w) =>
      HeldWithout(st.waiters, w);
      assert t.delivered[..|t.delivered| - 1] == st.delivered;
    case Fault(w) => HeldWithout(st.waiters, w);
    case _ =>
  }

  /** In every interleaving of interrupts, concurrent readers, resets, signals and failed copies,
      every interrupt raised has been returned by a read, discarded by a reset, dropped by a
      failed copy, is held by a reader, or is in the counter; wrap-arounds lose 2^32 each. */
  lemma {:induction false} InterruptsAreConserved(cfg: Config, run: seq<Step>)
    requires cfg.counts && Legal(cfg, START, run)
    ensures Balanced(Exec(cfg, START, run))
  {
    if run == [] {
    } else {
      InterruptsAreConserved(cfg, run[..|run| - 1]);
      BalancedStep(cfg, Exec(cfg, START, run[..|run| - 1]), run[|run| - 1]);
    }
  }

  /** One read's text, as the driver prints it. */
  function Shown(v: int): string {
    Format(v) + "\n"
  }

  /** The application's accumulation; a text that is no u32 adds the total to itself. */
  function Accumulate(texts: seq<string>): int {
    if texts == [] then 0
    else
      var total := Accumulate(texts[..|texts| - 1]);
      match TrimParseU32(texts[|texts| - 1])
      case Value(v) => total + v
      case Invalid => total + total
  }

  method TotalInterrupts(texts: seq<string>) returns (total: int)
    ensures total == Accumulate(texts)
  {
    total := 0;
    for i := 0 to |texts|
      invariant total == Accumulate(texts[..i])
    {
      assert texts[..i + 1][..i] == texts[..i];
      match TrimParseU32(texts[i])
      case Value(v) => total := total + v;
      case Invalid => total := total + total;
    }
    assert texts[..|texts|] == texts;
  }

  predicate AllSmall(vs: seq<int>) {
    forall i :: 0 <= i < |vs| ==> 0 <= vs[i] < TWO_TO_31
  }

  lemma {:induction false} AccumulatesSum(vs: seq<int>, texts: seq<string>)
    requires AllSmall(vs) && |texts| == |vs|
    requires forall i :: 0 <= i < |vs| ==> texts[i] == Shown(vs[i])
    ensures Accumulate(texts) == Sum(vs)
  {
    if vs == [] {
    } else {
      AccumulatesSum(vs[..|vs| - 1], texts[..|vs| - 1]);
      ParsedIsShown(vs[|vs| - 1]);
    }
  }

  /** The application's conditions: nobody resets the counter again, no copy fails, and fewer
      than 2^31 interrupts are raised after its own reset. */
  ghost predicate Undisturbed(cfg: Config, st: State, run: seq<Step>)
    requires Legal(cfg, st, run)
  {
    && (forall i :: 0 <= i < |run| ==> !run[i].Reset? && !run[i].Fault?)
    && Exec(cfg, st, run).raised - st.raised < TWO_TO_31
  }

  /** The driver right after the application's reset: nothing counted, nothing held. */
  ghost predicate JustReset(st: State) {
    st.counter == 0 && st.waiters == map[]
  }

  ghost predicate NonNegative(base: State, st: State) {
    && st.counter >= 0 && st.wraps == base.wraps && st.raised >= base.raised
    && base.delivered <= st.delivered
    && (forall i :: |base.delivered| <= i < |st.delivered| ==> st.delivered[i] >= 0)
    && (forall w :: w in st.waiters ==> Value(st.waiters[w]) >= 0)
    && st.discarded == base.discarded && st.dropped == base.dropped
  }

  lemma {:induction false} HeldNonNegative(ws: map<nat, Waiter>)
    requires forall w :: w in ws ==> Value(ws[w]) >= 0
    ensures Held(ws) >= 0 && forall w :: w in ws ==> Value(ws[w]) <= Held(ws)
  {
    if ws == map[] {
    } else {
      var v :| v in ws && Held(ws) == Value(ws[v]) + Held(ws - {v});
      HeldNonNegative(ws - {v});
      forall w | w in ws
        ensures Value(ws[w]) <= Held(ws)
      {
        if w != v { assert w in ws - {v} && (ws - {v})[w] == ws[w]; }
      }
    }
  }

  /** With nothing negative and no wrap-around, the new deliveries, the held values and the
      counter add up to the interrupts raised since the reset. */
  lemma {:induction false} SinceReset(base: State, st: State)
    requires JustReset(base) && NonNegative(base, st)
    requires Accounted(st) - st.raised == Accounted(base) - base.raised
    ensures Sum(st.delivered[|base.delivered|..]) + Held(st.waiters) + st.counter == st.raised - base.raised
    ensures Sum(st.delivered[|base.delivered|..]) >= 0 && Held(st.waiters) >= 0
  {
    SumSplit(base.delivered, st.delivered);
    SumNonNegative(st.delivered[|base.delivered|..]);
    HeldNonNegative(st.waiters);
  }

  lemma {:induction false} NonNegativeStep(cfg: Config, base: State, st: State, step: Step)
    requires cfg.counts && cfg.consume.Drain? && Enabled(cfg, st, step) && !step.Reset? && !step.Fault?
    requires NonNegative(base, st) && st.counter <= st.raised - base.raised
    requires Apply(cfg, st, step).raised - base.raised < TWO_TO_31
    ensures NonNegative(base, Apply(cfg, st, step))
  {
  }

  lemma {:induction false} SinceResetRun(cfg: Config, base: State, run: seq<Step>)
    requires cfg.counts && cfg.consume.Drain? && JustReset(base) && Legal(cfg, base, run) && Undisturbed(cfg, base, run)
    ensures var st := Exec(cfg, base, run);
            NonNegative(base, st) && Accounted(st) - st.raised == Accounted(base) - base.raised
  {
    if run == [] {
    } else {
      var init, last := run[..|run| - 1], run[|run| - 1];
      var before, after := Exec(cfg, base, init), Exec(cfg, base, run);
      assert after.raised >= before.raised;
      assert forall i :: 0 <= i < |init| ==> init[i] == run[i];
      SinceResetRun(cfg, base, init);
      SinceReset(base, before);
      BalancedStep(cfg, before, last);
      NonNegativeStep(cfg, base, before, last);
    }
  }

  /** The application's total plus the counter (plus what a read in progress holds) is the number
      of interrupts since its reset. */
  lemma {:induction false} ApplicationCountsInterrupts(base: State, run: seq<Step>, texts: seq<string>)
    requires JustReset(base) && Legal(STUDENT_DRIVER, base, run) && Undisturbed(STUDENT_DRIVER, base, run)
    requires var news := Exec(STUDENT_DRIVER, base, run).delivered;
             |texts| == |news| - |base.delivered| && forall i :: 0 <= i < |texts| ==> texts[i] == Shown(news[|base.delivered| + i])
    ensures var st := Exec(STUDENT_DRIVER, base, run);
            Accumulate(texts) + Held(st.waiters) + st.counter == st.raised - base.raised
  {
    var st := Exec(STUDENT_DRIVER, base, run);
    var news := st.delivered[|base.delivered|..];
    SinceResetRun(STUDENT_DRIVER, base, run);
    SinceReset(base, st);
    SumNonNegative(news);
    AccumulatesSum(news, texts);
  }

  /** The atomic exchange with zero, before any waiting or after it. */
  predicate Exchanges(step: Step) {
    step.TakeFirst? || step.Take?
  }

  /** An exchange takes all there is: the counter is zero right after it, and the reader holds
      what was there. */
  lemma ExchangeTakesAll(cfg: Config, st: State, step: Step)
    requires !cfg.consume.TakeOne? && Exchanges(step) && Enabled(cfg, st, step)
    ensures var t := Apply(cfg, st, step);
            t.counter == 0 && (st.counter != 0 ==> step.w in t.waiters && t.waiters[step.w] == Holding(st.counter))
  {
  }

  /** Counted from the steps alone: the increments, and those since the counter was last emptied, by
      an exchange or a reset. */
  function Increments(run: seq<Step>): nat {
    if run == [] then 0 else Increments(run[..|run| - 1]) + if run[|run| - 1].Set? then 1 else 0
  }

  function SinceEmpty(run: seq<Step>): (n: nat)
    ensures n <= Increments(run)
  {
    if run == [] || Exchanges(run[|run| - 1]) || run[|run| - 1].Reset? then 0
    else SinceEmpty(run[..|run| - 1]) + if run[|run| - 1].Set? then 1 else 0
  }

  /** What each exchange that ends in a reader's hands took: the increments since the one before. */
  function Taken(run: seq<Step>): seq<int> {
    if run == [] then []
    else
      var init, last := run[..|run| - 1], run[|run| - 1];
      if last.Take? || (last.TakeFirst? && SinceEmpty(init) > 0) then Taken(init) + [SinceEmpty(init)] else Taken(init)
  }

  /** With any number of readers, and resets, the counter is the number of increments since it was
      last emptied. */
  lemma {:induction false} CounterIsSinceEmpty(cfg: Config, base: State, run: seq<Step>)
    requires cfg.counts && cfg.consume.Drain? && base.counter == 0 && Legal(cfg, base, run) && Increments(run) < TWO_TO_31
    ensures Exec(cfg, base, run).counter == SinceEmpty(run)
    ensures Exec(cfg, base, run).raised == base.raised + Increments(run)
  {
    if run == [] {
    } else {
      CounterIsSinceEmpty(cfg, base, run[..|run| - 1]);
    }
  }

  /** Without counting, the counter is a flag: set exactly when there was a notification since it
      was last cleared. */
  lemma {:induction false} FlagIsSinceClear(cfg: Config, base: State, run: seq<Step>)
    requires !cfg.counts && cfg.consume.Clear? && base.counter == 0 && Legal(cfg, base, run)
    ensures Exec(cfg, base, run).counter == if SinceEmpty(run) > 0 then 1 else 0
  {
    if run == [] {
    } else {
      FlagIsSinceClear(cfg, base, run[..|run| - 1]);
    }
  }

  /** No reset of the counter, and fewer increments than it can hold. */
  ghost predicate Quiet(run: seq<Step>) {
    (forall i :: 0 <= i < |run| ==> !run[i].Reset?) && Increments(run) < TWO_TO_31
  }

  lemma QuietPrefix(run: seq<Step>)
    requires run != [] && Quiet(run)
    ensures Quiet(run[..|run| - 1]) && !run[|run| - 1].Reset?
    ensures run[|run| - 1].Set? ==> Increments(run[..|run| - 1]) < TWO_TO_31 - 1
  {
  }

  /** One reader: each read starts when the one before has ended, and no copy fails. */
  ghost predicate OneReader(cfg: Config, base: State, run: seq<Step>)
    requires Legal(cfg, base, run)
  {
    run == [] ||
    var init, last := run[..|run| - 1], run[|run| - 1];
    OneReader(cfg, base, init) && (last.StartRead? ==> Exec(cfg, base, init).waiters == map[]) && !last.Fault?
  }

  /** The values handed over, and the one in hand if there is one. */
  ghost predicate HandedOver(st: State, values: seq<int>) {
    && (forall v, w :: v in st.waiters && w in st.waiters ==> v == w)
    && (forall w :: w in st.waiters && st.waiters[w].Holding? ==> st.delivered + [st.waiters[w].value] == values)
    && ((forall w :: w in st.waiters ==> !st.waiters[w].Holding?) ==> st.delivered == values)
    && (forall w :: w in st.waiters && st.waiters[w].Ready? ==> st.counter != 0)
  }

  lemma HandedOverStep(cfg: Config, st: State, step: Step, values: seq<int>)
    requires cfg.counts && cfg.consume.Drain? && Enabled(cfg, st, step) && !step.Reset? && !step.Fault? && st.stop.Running?
    requires HandedOver(st, values) && 0 <= st.counter && (step.Set? ==> st.counter < TWO_TO_31 - 1)
    requires step.StartRead? ==> st.waiters == map[]
    ensures HandedOver(Apply(cfg, st, step),
                       if step.Take? || (step.TakeFirst? && st.counter > 0) then values + [st.counter] else values)
    ensures step.Take? ==> st.counter > 0
    ensures Apply(cfg, st, step).stop.Running?
  {
    var t := Apply(cfg, st, step);
    if Exchanges(step) { ExchangeTakesAll(cfg, st, step); }
    if v :| v in st.waiters && st.waiters[v].Holding? {
      assert !step.Deliver? ==> v in t.waiters && t.waiters[v] == st.waiters[v];
    }
  }

  /** With a single reader each value it delivers is the number of interrupts since its previous
      exchange, and none is zero. */
  lemma {:induction false} EachReadCountsItsOwn(cfg: Config, base: State, run: seq<Step>)
    requires cfg.counts && cfg.consume.Drain? && JustReset(base) && base.stop.Running?
    requires Legal(cfg, base, run) && Quiet(run) && OneReader(cfg, base, run)
    ensures HandedOver(Exec(cfg, base, run), base.delivered + Taken(run)) && Exec(cfg, base, run).stop.Running?
    ensures forall i :: 0 <= i < |Taken(run)| ==> Taken(run)[i] > 0
  {
    if run == [] {
    } else {
      var init, last := run[..|run| - 1], run[|run| - 1];
      QuietPrefix(run);
      EachReadCountsItsOwn(cfg, base, init);
      CounterIsSinceEmpty(cfg, base, init);
      HandedOverStep(cfg, Exec(cfg, base, init), last, base.delivered + Taken(init));
      assert base.delivered + Taken(init) + [SinceEmpty(init)] == base.delivered + (Taken(init) + [SinceEmpty(init)]);
    }
  }

  /** If nothing was raised after the last exchange and every read is done, the application's
      total is exactly the number of interrupts. */
  lemma {:induction false} TotalIsExact(base: State, run: seq<Step>, texts: seq<string>)
    requires JustReset(base) && Legal(STUDENT_DRIVER, base, run) && Undisturbed(STUDENT_DRIVER, base, run)
    requires Quiet(run) && SinceEmpty(run) == 0 && Exec(STUDENT_DRIVER, base, run).waiters == map[]
    requires var news := Exec(STUDENT_DRIVER, base, run).delivered;
             |texts| == |news| - |base.delivered| && forall i :: 0 <= i < |texts| ==> texts[i] == Shown(news[|base.delivered| + i])
    ensures Accumulate(texts) == Increments(run)
  {
    CounterIsSinceEmpty(STUDENT_DRIVER, base, run);
    ApplicationCountsInterrupts(base, run, texts);
  }

  ghost predicate NobodyWaits(ws: map<nat, Waiter>) {
    forall w :: w in ws ==> ws[w] == FirstTake(false) || ws[w].Holding?
  }

  lemma {:induction false} NobodyWaitsStep(cfg: Config, st: State, step: Step)
    requires cfg.consume.Drain? && Enabled(cfg, st, step) && NobodyWaits(st.waiters) && (step.StartRead? ==> !step.blocking)
    ensures NobodyWaits(Apply(cfg, st, step).waiters)
  {
    var t := Apply(cfg, st, step);
    if step.Wake? || step.WakeStop? { assert t.waiters == WakeAll(st.waiters); }
  }

  /** The application's reads are non-blocking: none ever joins the queue or sleeps. */
  lemma {:induction false} NonBlockingNeverWaits(cfg: Config, base: State, run: seq<Step>)
    requires cfg.consume.Drain? && base.waiters == map[] && Legal(cfg, base, run)
    requires forall i :: 0 <= i < |run| && run[i].StartRead? ==> !run[i].blocking
    ensures NobodyWaits(Exec(cfg, base, run).waiters)
  {
    if run == [] {
    } else {
      var init := run[..|run| - 1];
      assert forall i :: 0 <= i < |init| ==> init[i] == run[i];
      NonBlockingNeverWaits(cfg, base, init);
      assert run[|run| - 1] == run[|init|];
      NobodyWaitsStep(cfg, Exec(cfg, base, init), run[|init|]);
    }
  }

  /** Past 2^31 the count is negative, and the application doubles its total instead. */
  lemma WrappedCountDoublesTotal(texts: seq<string>, v: int)
    requires v < 0
    ensures Accumulate(texts + [Shown(v)]) == 2 * Accumulate(texts)
  {
    NegativeIsInvalid(v);
    assert (texts + [Shown(v)])[..|texts|] == texts;
  }
}
