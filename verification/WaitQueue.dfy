/** Sleeping on a kernel wait queue until a counter is non-zero.

    One machine covers the three drivers; they differ in the order of "change the condition" and
    "wake", in what the signaller does to the counter, and in what an awakened thread takes from
    it. wait_event is cut into enqueue, check and sleep: a wake-up between check and sleep makes
    the sleep return at once. */
module WaitQueue {
  import opened Decimal

  datatype Order = SetThenWake | WakeThenSet

  /** Drain: exchange with zero. TakeOne: decrement. Clear: store zero. */
  datatype Consume = Drain | TakeOne | Clear

  datatype Config = Config(order: Order, counts: bool, consume: Consume)

  const STUDENT_DRIVER := Config(WakeThenSet, true, Drain)
  const TEACHER_DRIVER := Config(SetThenWake, true, TakeOne)
  const TWO_THREADS := Config(SetThenWake, false, Clear)

  datatype Signaller = Fresh | Halfway

  datatype Waiter =
    | FirstTake(blocking: bool)     // read(): the exchange before any waiting
    | Enqueue                       // about to join the queue, or to join it again
    | Check(woken: bool)            // on the queue, condition not yet read
    | Doze(woken: bool)             // condition read as false, not yet asleep
    | Asleep
    | Ready                         // condition read as true
    | Holding(value: int)           // has taken the value, has not yet delivered it

  /** kthread_stop on the waiting thread: flag set, then the thread woken. */
  datatype Stop = Running | Stopping | Stopped

  /** `raised` counts completed set halves; `wraps` how often the 32-bit counter wrapped. */
  datatype State = State(counter: int, waiters: map<nat, Waiter>, signallers: map<nat, Signaller>,
                         raised: nat, wraps: nat,
                         delivered: seq<int>, discarded: int, dropped: int, stop: Stop)

  datatype Step =
    | Arrive(s: nat)                    // an interrupt or a notification starts
    | Set(s: nat)
    | Wake(s: nat)
    | StartRead(w: nat, blocking: bool)
    | StartWait(w: nat)
    | TakeFirst(w: nat)
    | Join(w: nat)
    | Read(w: nat)                      // read the condition
    | Sleep(w: nat)
    | Interrupt(w: nat)                 // a signal ends the wait
    | Take(w: nat)
    | Deliver(w: nat)
    | Fault(w: nat)                     // the copy to user space fails
    | Reset                             // sysfs stores zero
    | SetStop
    | WakeStop

  function Increment(c: int): int {
    if c == TWO_TO_31 - 1 then -TWO_TO_31 else c + 1
  }

  /** What the waiters wait for. */
  predicate Condition(st: State) {
    st.counter != 0 || !st.stop.Running?
  }

  function WakeOne(w: Waiter): Waiter {
    match w
    case Check(_) => Check(true)
    case Doze(_) => Doze(true)
    case Asleep => Enqueue
    case _ => w
  }

  /** Wait queues without exclusive waiters: a wake-up releases every one of them. */
  function WakeAll(ws: map<nat, Waiter>): map<nat, Waiter> {
    map w | w in ws :: WakeOne(ws[w])
  }

  predicate Enabled(cfg: Config, st: State, step: Step) {
    match step
    case Arrive(s) => s !in st.signallers
    case Set(s) => s in st.signallers && st.signallers[s] == (if cfg.order.SetThenWake? then Fresh else Halfway)
    case Wake(s) => s in st.signallers && st.signallers[s] == (if cfg.order.SetThenWake? then Halfway else Fresh)
    case StartRead(w, _) => w !in st.waiters && cfg.consume.Drain?
    case StartWait(w) => w !in st.waiters && !cfg.consume.Drain?
    case TakeFirst(w) => w in st.waiters && st.waiters[w].FirstTake?
    case Join(w) => w in st.waiters && st.waiters[w].Enqueue?
    case Read(w) => w in st.waiters && st.waiters[w].Check?
    case Sleep(w) => w in st.waiters && st.waiters[w].Doze?
    case Interrupt(w) => w in st.waiters && (st.waiters[w].Asleep? || st.waiters[w].Doze?)
    case Take(w) => w in st.waiters && st.waiters[w].Ready?
    case Deliver(w) => w in st.waiters && st.waiters[w].Holding?
    case Fault(w) => w in st.waiters && st.waiters[w].Holding?
    case Reset => cfg.consume.Drain?
    case SetStop => cfg.consume.Clear? && st.stop.Running?
    case WakeStop => st.stop.Stopping?
  }

  function Put(st: State, w: nat, x: Waiter): State {
    st.(waiters := st.waiters[w := x])
  }

  function AfterFirstHalf(st: State, s: nat): map<nat, Signaller>
    requires s in st.signallers
  {
    if st.signallers[s].Fresh? then st.signallers[s := Halfway] else st.signallers - {s}
  }

  function Apply(cfg: Config, st: State, step: Step): State
    requires Enabled(cfg, st, step)
  {
    match step
    case Arrive(s) => st.(signallers := st.signallers[s := Fresh])
    case Set(s) =>
      var c := if cfg.counts then Increment(st.counter) else 1;
      st.(counter := c, signallers := AfterFirstHalf(st, s), raised := st.raised + 1,
          wraps := if cfg.counts && c < st.counter then st.wraps + 1 else st.wraps)
    case Wake(s) => st.(waiters := WakeAll(st.waiters), signallers := AfterFirstHalf(st, s))
    case StartRead(w, blocking) => Put(st, w, FirstTake(blocking))
    case StartWait(w) => Put(st, w, Enqueue)
    case TakeFirst(w) =>
      if st.counter != 0 then Put(st, w, Holding(st.counter)).(counter := 0)
      else if st.waiters[w].blocking then Put(st, w, Enqueue)
      else st.(waiters := st.waiters - {w})
    case Join(w) => Put(st, w, Check(false))
    case Read(w) => Put(st, w, if Condition(st) then Ready else Doze(st.waiters[w].woken))
    case Sleep(w) => Put(st, w, if st.waiters[w].woken then Enqueue else Asleep)
    case Interrupt(w) => st.(waiters := st.waiters - {w})
    case Take(w) =>
      (match cfg.consume
       case Drain => Put(st, w, Holding(st.counter)).(counter := 0)
       case TakeOne => Put(st, w, Holding(1)).(counter := st.counter - 1)
       case Clear => Put(st, w, Holding(st.counter)).(counter := 0))
    case Deliver(w) => st.(waiters := st.waiters - {w}, delivered := st.delivered + [st.waiters[w].value])
    case Fault(w) => st.(waiters := st.waiters - {w}, dropped := st.dropped + st.waiters[w].value)
    case Reset => st.(counter := 0, discarded := st.discarded + st.counter)
    case SetStop => st.(stop := Stopping)
    case WakeStop => st.(stop := Stopped, waiters := WakeAll(st.waiters))
  }

  const START := State(0, map[], map[], 0, 0, [], 0, 0, Running)

  ghost predicate Legal(cfg: Config, st: State, run: seq<Step>)
    decreases |run|, 0
  {
    run == [] ||
    (Legal(cfg, st, run[..|run| - 1]) && Enabled(cfg, Exec(cfg, st, run[..|run| - 1]), run[|run| - 1]))
  }

  ghost function Exec(cfg: Config, st: State, run: seq<Step>): State
    requires Legal(cfg, st, run)
    decreases |run|, 1
  {
    if run == [] then st else Apply(cfg, Exec(cfg, st, run[..|run| - 1]), run[|run| - 1])
  }

  /** The counter of a driver that never decrements is a 32-bit integer in every run. */
  lemma {:induction false} CounterFits(cfg: Config, run: seq<Step>)
    requires !cfg.consume.TakeOne? && Legal(cfg, START, run)
    ensures -TWO_TO_31 <= Exec(cfg, START, run).counter < TWO_TO_31
  {
    if run == [] {
    } else {
      CounterFits(cfg, run[..|run| - 1]);
    }
  }

  /** Asleep, or past its check and bound to fall asleep unless woken first. */
  predicate Sleeping(x: Waiter) {
    x.Asleep? || x == Doze(false)
  }

  predicate AnySleeping(ws: map<nat, Waiter>) {
    exists w :: w in ws && Sleeping(ws[w])
  }

  /** Someone has made the condition true and has not yet woken the queue. */
  ghost predicate WakeToCome(st: State) {
    st.stop.Stopping? || exists s :: s in st.signallers && st.signallers[s].Halfway?
  }

  /** A waiter sleeps although its condition is true and nobody is going to wake it. */
  ghost predicate Stranded(st: State) {
    && Condition(st)
    && (exists w :: w in st.waiters && st.waiters[w].Asleep?)
    && st.signallers == map[] && !st.stop.Stopping?
  }

  ghost predicate SleepersAttended(st: State) {
    Condition(st) && AnySleeping(st.waiters) ==> WakeToCome(st)
  }

  /** Only a decrement can make the condition true without a signaller: from 0 to -1. */
  predicate TakesFromZero(cfg: Config, st: State, step: Step) {
    step.Take? && cfg.consume.TakeOne? && st.counter == 0
  }

  lemma AttendedStep(cfg: Config, st: State, step: Step)
    requires cfg.order.SetThenWake? && SleepersAttended(st) && Enabled(cfg, st, step)
    requires !TakesFromZero(cfg, st, step)
    ensures SleepersAttended(Apply(cfg, st, step))
  {
    var t := Apply(cfg, st, step);
    if Condition(t) && AnySleeping(t.waiters) {
      if step.Set? {
        assert t.signallers[step.s].Halfway?;
      } else if !t.stop.Stopping? {
        var w :| w in t.waiters && Sleeping(t.waiters[w]);
        assert Condition(st) && w in st.waiters && Sleeping(st.waiters[w]);
        var s :| s in st.signallers && st.signallers[s].Halfway?;
        assert s in t.signallers && t.signallers[s].Halfway?;
      }
    }
  }

  lemma {:induction false} AttendedRun(cfg: Config, run: seq<Step>)
    requires cfg.order.SetThenWake? && !cfg.consume.TakeOne? && Legal(cfg, START, run)
    ensures SleepersAttended(Exec(cfg, START, run))
  {
    if run == [] {
    } else {
      AttendedRun(cfg, run[..|run| - 1]);
      AttendedStep(cfg, Exec(cfg, START, run[..|run| - 1]), run[|run| - 1]);
    }
  }

  ghost predicate NeverStrands(cfg: Config) {
    forall run :: Legal(cfg, START, run) ==> !Stranded(Exec(cfg, START, run))
  }

  ghost predicate ReachedBy(cfg: Config, run: seq<Step>, st: State) {
    Legal(cfg, START, run) && Exec(cfg, START, run) == st
  }

  lemma Extend(cfg: Config, run: seq<Step>, st: State, step: Step) returns (longer: seq<Step>, t: State)
    requires ReachedBy(cfg, run, st) && Enabled(cfg, st, step)
    ensures t == Apply(cfg, st, step) && ReachedBy(cfg, longer, t)
  {
    longer, t := run + [step], Apply(cfg, st, step);
    assert longer[..|run|] == run;
  }

  /** A new waiter is let in up to the point where it joins the queue. */
  lemma LetIn(cfg: Config, before: seq<Step>, st: State, w: nat) returns (run: seq<Step>, t: State)
    requires ReachedBy(cfg, before, st) && w !in st.waiters && (cfg.consume.Drain? ==> st.counter == 0)
    ensures ReachedBy(cfg, run, t) && t == Put(st, w, Check(false))
  {
    if cfg.consume.Drain? {
      run, t := Extend(cfg, before, st, StartRead(w, true));
      run, t := Extend(cfg, run, t, TakeFirst(w));
    } else {
      run, t := Extend(cfg, before, st, StartWait(w));
    }
    run, t := Extend(cfg, run, t, Join(w));
    assert t.waiters == st.waiters[w := Check(false)];
  }

  /** Wake first: the waiter checks and falls asleep between the two halves of the signal. */
  lemma WakeFirstStrands(cfg: Config) returns (run: seq<Step>, st: State)
    requires cfg.order.WakeThenSet?
    ensures ReachedBy(cfg, run, st) && Stranded(st) && st.counter == 1
  {
    run, st := [], START;
    run, st := Extend(cfg, run, st, Arrive(0));
    run, st := Extend(cfg, run, st, Wake(0));
    assert st.waiters == map[];
    run, st := LetIn(cfg, run, st, 7);
    run, st := Extend(cfg, run, st, Read(7));
    run, st := Extend(cfg, run, st, Sleep(7));
    run, st := Extend(cfg, run, st, Set(0));
    assert st.waiters[7].Asleep?;
  }

  /** At most k waiters at a time, and fewer signals than the counter can hold. */
  ghost predicate Few(cfg: Config, k: nat, run: seq<Step>)
    requires Legal(cfg, START, run)
  {
    run == [] ||
    var st, step := Exec(cfg, START, run[..|run| - 1]), run[|run| - 1];
    && Few(cfg, k, run[..|run| - 1])
    && (step.StartWait? ==> |st.waiters| < k)
    && (step.Set? ==> st.raised < TWO_TO_31 - 1)
  }

  ghost predicate ReachedByFew(cfg: Config, k: nat, run: seq<Step>, st: State) {
    ReachedBy(cfg, run, st) && Few(cfg, k, run)
  }

  lemma ExtendFew(cfg: Config, k: nat, run: seq<Step>, st: State, step: Step) returns (longer: seq<Step>, t: State)
    requires ReachedByFew(cfg, k, run, st) && Enabled(cfg, st, step)
    requires (step.StartWait? ==> |st.waiters| < k) && (step.Set? ==> st.raised < TWO_TO_31 - 1)
    ensures t == Apply(cfg, st, step) && ReachedByFew(cfg, k, longer, t)
  {
    longer, t := run + [step], Apply(cfg, st, step);
    assert longer[..|run|] == run;
  }

  /** A poller joins the queue and reads the condition. */
  lemma PollOnce(cfg: Config, k: nat, before: seq<Step>, st: State, w: nat) returns (run: seq<Step>, t: State)
    requires cfg.consume.TakeOne? && ReachedByFew(cfg, k, before, st) && w !in st.waiters && |st.waiters| < k
    ensures ReachedByFew(cfg, k, run, t) && t == Put(st, w, if Condition(st) then Ready else Doze(false))
  {
    run, t := ExtendFew(cfg, k, before, st, StartWait(w));
    run, t := ExtendFew(cfg, k, run, t, Join(w));
    run, t := ExtendFew(cfg, k, run, t, Read(w));
    assert t.waiters == st.waiters[w := if Condition(st) then Ready else Doze(false)];
  }

  /** Two pollers have both seen the only interrupt. */
  lemma TwoPollersReady(cfg: Config, k: nat) returns (run: seq<Step>, st: State)
    requires cfg.order.SetThenWake? && cfg.consume.TakeOne? && k >= 2
    ensures ReachedByFew(cfg, k, run, st) && st.counter == 1 && st.stop.Running?
    ensures st.waiters == map[1 := Ready, 2 := Ready] && st.signallers == map[]
  {
    run, st := [], START;
    run, st := ExtendFew(cfg, k, run, st, Arrive(0));
    run, st := ExtendFew(cfg, k, run, st, Set(0));
    run, st := ExtendFew(cfg, k, run, st, Wake(0));
    assert st.waiters == map[] && st.signallers == map[];
    run, st := PollOnce(cfg, k, run, st, 1);
    run, st := PollOnce(cfg, k, run, st, 2);
  }

  /** Testing and decrementing are separate: the first poller takes the interrupt, polls again and
      falls asleep at zero; the second one's decrement then makes its condition true. */
  lemma TakeOneStrands(cfg: Config, k: nat) returns (run: seq<Step>, st: State)
    requires cfg.order.SetThenWake? && cfg.consume.TakeOne? && k >= 2
    ensures ReachedByFew(cfg, k, run, st) && Stranded(st) && st.counter == -1
  {
    run, st := TwoPollersReady(cfg, k);
    run, st := ExtendFew(cfg, k, run, st, Take(1));
    run, st := ExtendFew(cfg, k, run, st, Deliver(1));
    assert st.waiters == map[2 := Ready];
    run, st := PollOnce(cfg, k, run, st, 1);
    run, st := ExtendFew(cfg, k, run, st, Sleep(1));
    run, st := ExtendFew(cfg, k, run, st, Take(2));
    assert st.waiters[1].Asleep?;
  }

  /** The order of the two halves decides it, over all interleavings of any number of waiters
      and signallers: sleepers are never stranded exactly when the condition is set before the
      wake-up and a waiter takes all there is. */
  lemma OrderDecides(cfg: Config)
    ensures NeverStrands(cfg) <==> cfg.order.SetThenWake? && !cfg.consume.TakeOne?
  {
    if cfg.order.WakeThenSet? {
      var run, st := WakeFirstStrands(cfg);
    } else if cfg.consume.TakeOne? {
      var run, st := TakeOneStrands(cfg, 2);
    } else {
      forall run | Legal(cfg, START, run)
        ensures !Stranded(Exec(cfg, START, run))
      {
        AttendedRun(cfg, run);
        var st := Exec(cfg, START, run);
        assert forall w :: w in st.waiters && st.waiters[w].Asleep? ==> Sleeping(st.waiters[w]);
      }
    }
  }

  /** Of the three drivers only the two-thread module is free of stranded sleepers. */
  lemma ThreeDrivers()
    ensures NeverStrands(TWO_THREADS) && !NeverStrands(STUDENT_DRIVER) && !NeverStrands(TEACHER_DRIVER)
  {
    OrderDecides(TWO_THREADS);
    OrderDecides(STUDENT_DRIVER);
    OrderDecides(TEACHER_DRIVER);
  }

  /** What a single poller keeps: the counter is the interrupts not yet taken, and a poller about
      to take one finds one. */
  ghost predicate SinglePoller(st: State) {
    && SleepersAttended(st) && 0 <= st.counter <= st.raised && st.raised < TWO_TO_31 && st.stop.Running?
    && (forall v, w :: v in st.waiters && w in st.waiters ==> v == w)
    && (forall w :: w in st.waiters && st.waiters[w].Ready? ==> st.counter > 0)
  }

  lemma SinglePollerStep(cfg: Config, st: State, step: Step)
    requires cfg.order.SetThenWake? && cfg.consume.TakeOne? && Enabled(cfg, st, step) && SinglePoller(st)
    requires (step.StartWait? ==> st.waiters == map[]) && (step.Set? ==> st.raised < TWO_TO_31 - 1)
    ensures SinglePoller(Apply(cfg, st, step))
  {
    AttendedStep(cfg, st, step);
  }

  lemma {:induction false} SinglePollerRun(cfg: Config, k: nat, run: seq<Step>)
    requires cfg.order.SetThenWake? && cfg.consume.TakeOne? && k <= 1 && Legal(cfg, START, run) && Few(cfg, k, run)
    ensures SinglePoller(Exec(cfg, START, run))
  {
    if run == [] {
    } else {
      var init, last := run[..|run| - 1], run[|run| - 1];
      SinglePollerRun(cfg, k, init);
      assert last.StartWait? ==> Exec(cfg, START, init).waiters == map[];
      SinglePollerStep(cfg, Exec(cfg, START, init), last);
    }
  }

  /** A single poller of the decrementing driver is never stranded and never drives the counter
      negative. */
  lemma {:induction false} SinglePollerIsSafe(cfg: Config, k: nat, run: seq<Step>)
    requires cfg.order.SetThenWake? && cfg.consume.TakeOne? && k <= 1 && Legal(cfg, START, run) && Few(cfg, k, run)
    ensures !Stranded(Exec(cfg, START, run)) && Exec(cfg, START, run).counter >= 0
  {
    SinglePollerRun(cfg, k, run);
    var st := Exec(cfg, START, run);
    assert forall w :: w in st.waiters && st.waiters[w].Asleep? ==> Sleeping(st.waiters[w]);
  }

  ghost predicate NeverStrandsFew(cfg: Config, k: nat) {
    forall run :: Legal(cfg, START, run) && Few(cfg, k, run) ==> !Stranded(Exec(cfg, START, run))
  }

  ghost predicate NeverNegative(cfg: Config, k: nat) {
    forall run :: Legal(cfg, START, run) && Few(cfg, k, run) ==> Exec(cfg, START, run).counter >= 0
  }

  /** With at most k pollers at a time, the decrementing driver never strands one exactly when
      there is at most one; with two, the counter can also go negative. */
  lemma PollersDecide(cfg: Config, k: nat)
    requires cfg.order.SetThenWake? && cfg.consume.TakeOne?
    ensures NeverStrandsFew(cfg, k) <==> k <= 1
    ensures NeverNegative(cfg, k) <==> k <= 1
  {
    if k <= 1 {
      forall run | Legal(cfg, START, run) && Few(cfg, k, run)
        ensures !Stranded(Exec(cfg, START, run)) && Exec(cfg, START, run).counter >= 0
      {
        SinglePollerIsSafe(cfg, k, run);
      }
    } else {
      var run, st := TakeOneStrands(cfg, k);
      assert Legal(cfg, START, run) && Few(cfg, k, run) && Exec(cfg, START, run) == st;
    }
  }

  function HalfwaySet(st: State): set<nat> {
    set s | s in st.signallers && st.signallers[s].Halfway?
  }

  /** At most k interrupts are being handled at a time. */
  ghost predicate AtMost(cfg: Config, k: nat, run: seq<Step>)
    requires Legal(cfg, START, run)
  {
    run == [] ||
    (AtMost(cfg, k, run[..|run| - 1]) &&
     (run[|run| - 1].Arrive? ==> |Exec(cfg, START, run[..|run| - 1]).signallers| < k))
  }

  ghost predicate SleepersMissFew(st: State, k: nat) {
    && |st.signallers| <= k
    && (AnySleeping(st.waiters) ==> st.counter + |HalfwaySet(st)| <= k)
  }

  lemma Subset(a: set<nat>, b: set<nat>)
    requires a <= b
    ensures |a| <= |b|
  {
    assert b == a + (b - a);
  }

  lemma HalfwaysAreSignallers(st: State)
    ensures |HalfwaySet(st)| <= |st.signallers|
  {
    Subset(HalfwaySet(st), st.signallers.Keys);
  }

  lemma SetMisses(cfg: Config, k: nat, st: State, s: nat)
    requires cfg.order.WakeThenSet? && cfg.counts && Enabled(cfg, st, Set(s)) && SleepersMissFew(st, k)
    ensures SleepersMissFew(Apply(cfg, st, Set(s)), k)
  {
    var t := Apply(cfg, st, Set(s));
    assert t.signallers.Keys == st.signallers.Keys - {s};
    assert HalfwaySet(t) == HalfwaySet(st) - {s};
  }

  lemma WakeMisses(cfg: Config, k: nat, st: State, s: nat)
    requires cfg.order.WakeThenSet? && Enabled(cfg, st, Wake(s)) && SleepersMissFew(st, k)
    ensures SleepersMissFew(Apply(cfg, st, Wake(s)), k)
  {
    var t := Apply(cfg, st, Wake(s));
    assert t.signallers.Keys == st.signallers.Keys;
    assert forall w :: w in t.waiters ==> !Sleeping(t.waiters[w]);
  }

  /** The waiters' own steps: one can only start sleeping at a counter of zero. */
  lemma WaiterMisses(cfg: Config, k: nat, st: State, step: Step)
    requires cfg.counts && Enabled(cfg, st, step) && SleepersMissFew(st, k)
    requires !step.Set? && !step.Wake? && !step.Arrive?
    ensures SleepersMissFew(Apply(cfg, st, step), k)
  {
    var t := Apply(cfg, st, step);
    assert t.signallers == st.signallers;
    assert HalfwaySet(t) == HalfwaySet(st);
    assert t.counter <= st.counter || t.counter == 0;
    HalfwaysAreSignallers(t);
    if AnySleeping(t.waiters) && t.counter != 0 {
      var w :| w in t.waiters && Sleeping(t.waiters[w]);
      assert w in st.waiters && Sleeping(st.waiters[w]);
    }
  }

  lemma MissFewStep(cfg: Config, k: nat, st: State, step: Step)
    requires cfg.order.WakeThenSet? && cfg.counts && Enabled(cfg, st, step) && SleepersMissFew(st, k)
    requires step.Arrive? ==> |st.signallers| < k
    ensures SleepersMissFew(Apply(cfg, st, step), k)
  {
    match step
    case Set(s) => SetMisses(cfg, k, st, s);
    case Wake(s) => WakeMisses(cfg, k, st, s);
    case Arrive(s) =>
      assert HalfwaySet(Apply(cfg, st, step)) == HalfwaySet(st);
    case _ => WaiterMisses(cfg, k, st, step);
  }

  /** With the wake-up first and at most k interrupts handled at once, a sleeping reader has
      missed at most k: with the interrupts serialised, at most one. */
  lemma {:induction false} SleeperMissesAtMost(cfg: Config, k: nat, run: seq<Step>)
    requires cfg.order.WakeThenSet? && cfg.counts && Legal(cfg, START, run) && AtMost(cfg, k, run)
    ensures SleepersMissFew(Exec(cfg, START, run), k)
  {
    if run == [] {
      HalfwaysAreSignallers(START);
    } else {
      SleeperMissesAtMost(cfg, k, run[..|run| - 1]);
      MissFewStep(cfg, k, Exec(cfg, START, run[..|run| - 1]), run[|run| - 1]);
    }
  }

  /** i interrupts that have woken the queue and not yet counted. */
  function Halves(i: nat): (m: map<nat, Signaller>)
    ensures forall s: nat :: s in m <==> s < i
    ensures |m| == i
  {
    if i == 0 then map[] else Halves(i - 1)[i - 1 := Halfway]
  }

  ghost predicate ReachedByAtMost(cfg: Config, k: nat, run: seq<Step>, st: State) {
    ReachedBy(cfg, run, st) && AtMost(cfg, k, run)
  }

  lemma ExtendAtMost(cfg: Config, k: nat, run: seq<Step>, st: State, step: Step) returns (longer: seq<Step>, t: State)
    requires ReachedByAtMost(cfg, k, run, st) && Enabled(cfg, st, step) && (step.Arrive? ==> |st.signallers| < k)
    ensures t == Apply(cfg, st, step) && ReachedByAtMost(cfg, k, longer, t)
  {
    longer, t := run + [step], Apply(cfg, st, step);
    assert longer[..|run|] == run;
  }

  lemma {:induction false} AllHalfway(cfg: Config, k: nat, i: nat) returns (run: seq<Step>, st: State)
    requires cfg.order.WakeThenSet? && i <= k
    ensures ReachedByAtMost(cfg, k, run, st) && st == START.(signallers := Halves(i))
  {
    if i == 0 {
      run, st := [], START;
      assert Halves(0) == map[];
    } else {
      run, st := AllHalfway(cfg, k, i - 1);
      run, st := ExtendAtMost(cfg, k, run, st, Arrive(i - 1));
      run, st := ExtendAtMost(cfg, k, run, st, Wake(i - 1));
      assert st.waiters == map[];
      assert st.signallers == Halves(i);
    }
  }

  lemma FallAsleep(cfg: Config, k: nat, before: seq<Step>, st: State, w: nat) returns (run: seq<Step>, t: State)
    requires ReachedByAtMost(cfg, k, before, st) && w !in st.waiters && !Condition(st)
    ensures ReachedByAtMost(cfg, k, run, t) && t == Put(st, w, Asleep)
  {
    if cfg.consume.Drain? {
      run, t := ExtendAtMost(cfg, k, before, st, StartRead(w, true));
      run, t := ExtendAtMost(cfg, k, run, t, TakeFirst(w));
    } else {
      run, t := ExtendAtMost(cfg, k, before, st, StartWait(w));
    }
    run, t := ExtendAtMost(cfg, k, run, t, Join(w));
    run, t := ExtendAtMost(cfg, k, run, t, Read(w));
    run, t := ExtendAtMost(cfg, k, run, t, Sleep(w));
    assert t.waiters == st.waiters[w := Asleep];
  }

  lemma {:induction false} CountHalves(cfg: Config, k: nat, before: seq<Step>, st: State, i: nat)
    returns (run: seq<Step>, t: State)
    requires cfg.order.WakeThenSet? && cfg.counts && ReachedByAtMost(cfg, k, before, st)
    requires st.signallers == Halves(i) && 0 <= st.counter && st.counter + i < TWO_TO_31
    ensures ReachedByAtMost(cfg, k, run, t)
    ensures t.counter == st.counter + i && t.signallers == map[] && t.waiters == st.waiters && t.stop == st.stop
    decreases i
  {
    if i == 0 {
      run, t := before, st;
      assert Halves(0) == map[];
    } else {
      run, t := ExtendAtMost(cfg, k, before, st, Set(i - 1));
      assert t.signallers == Halves(i - 1);
      run, t := CountHalves(cfg, k, run, t, i - 1);
    }
  }

  /** The bound is reached for every k the counter can hold: k interrupts wake, the reader falls
      asleep, and only then do they count. */
  lemma SleeperCanMissAll(cfg: Config, k: nat) returns (run: seq<Step>, st: State)
    requires cfg.order.WakeThenSet? && cfg.counts && k < TWO_TO_31
    ensures ReachedByAtMost(cfg, k, run, st)
    ensures st.counter == k && st.signallers == map[] && st.waiters == map[0 := Asleep]
  {
    run, st := AllHalfway(cfg, k, k);
    run, st := FallAsleep(cfg, k, run, st, 0);
    run, st := CountHalves(cfg, k, run, st, k);
  }

  /** And the next interrupt's wake-up releases every sleeper, a signal the one it is sent to. */
  lemma WakeReleasesAll(cfg: Config, st: State, s: nat, w: nat)
    requires Enabled(cfg, st, Wake(s)) && w in st.waiters
    ensures var t := Apply(cfg, st, Wake(s)); w in t.waiters && !Sleeping(t.waiters[w])
    ensures st.waiters[w].Asleep? ==> Enabled(cfg, Apply(cfg, st, Wake(s)), Join(w))
    ensures Sleeping(st.waiters[w]) ==> Enabled(cfg, st, Interrupt(w)) && w !in Apply(cfg, st, Interrupt(w)).waiters
  {
  }
}
