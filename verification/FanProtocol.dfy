/** The fan as its clients should see it: a mode and a frequency, and how requests, buttons and
    timer ticks change them. No text, no cache, no timer. */
module FanProtocol {
  import opened FanDriver

  const ERANGE := 34
  const ENOSYS := 38

  const GET_MODE := 0
  const SET_MODE := 1
  const GET_FREQUENCY := 2
  const SET_FREQUENCY := 3
  const GET_TEMP := 4

  const FREQUENCY_MIN := 1
  const FREQUENCY_MAX := 100
  const FREQUENCY_STEP := 1

  datatype Event =
    | ShortRequest
    | Request(cmd: int, value: int, temp: Reading)   // temp: what the sensor says just now
    | Button1(pressed: bool)
    | Button2(pressed: bool)
    | Button3(pressed: bool)
    | Tick(reading: Reading)                         // the driver's timer expires

  datatype Reply = NoReply | Reply(status: int, value: int)

  datatype Simple = Simple(manual: bool, frequency: int)

  predicate InRange(f: int) {
    FREQUENCY_MIN <= f <= FREQUENCY_MAX
  }

  function Increased(f: int): int {
    if f + FREQUENCY_STEP > FREQUENCY_MAX then FREQUENCY_MAX else f + FREQUENCY_STEP
  }

  function Decreased(f: int): int {
    if f - FREQUENCY_STEP < FREQUENCY_MIN then FREQUENCY_MIN else f - FREQUENCY_STEP
  }

  /** C division, which truncates towards zero. */
  function Degrees(reading: Reading): int {
    match reading
    case ReadFailed => 0
    case Temp(mc) => if mc >= 0 then mc / 1000 else -(-mc / 1000)
  }

  function Handle(s: Simple, ev: Event): (Simple, Reply) {
    match ev
    case ShortRequest => (s, Reply(-EINVAL, 0))
    case Request(cmd, value, temp) =>
      if cmd == GET_MODE then (s, Reply(0, if s.manual then 1 else 0))
      else if cmd == SET_MODE then (s.(manual := value != 0), Reply(0, 0))
      else if cmd == GET_FREQUENCY then (s, Reply(0, s.frequency))
      else if cmd == SET_FREQUENCY then
        if !s.manual then (s, Reply(-EPERM, 0))
        else if !InRange(value) then (s, Reply(-ERANGE, 0))
        else (s.(frequency := value), Reply(0, 0))
      else if cmd == GET_TEMP then (s, Reply(0, Degrees(temp)))
      else (s, Reply(-ENOSYS, 0))
    case Button1(pressed) => (if pressed && s.manual then s.(frequency := Increased(s.frequency)) else s, NoReply)
    case Button2(pressed) => (if pressed && s.manual then s.(frequency := Decreased(s.frequency)) else s, NoReply)
    case Button3(pressed) => (if pressed then s.(manual := !s.manual) else s, NoReply)
    case Tick(reading) =>
      (if s.manual || reading.ReadFailed? then s else s.(frequency := TempToFreq(reading.mc)), NoReply)
  }

  /** The same machine, had GET_TEMP passed a failed read on the way GET_FREQUENCY does: the
      negative value as the status. */
  function HandleReporting(s: Simple, ev: Event): (Simple, Reply) {
    if ev.Request? && ev.cmd == GET_TEMP && ev.temp.ReadFailed? then (s, Reply(-1, -1)) else Handle(s, ev)
  }

  function After(s: Simple, evs: seq<Event>): Simple {
    if evs == [] then s else Handle(After(s, evs[..|evs| - 1]), evs[|evs| - 1]).0
  }

  function Replies(s: Simple, evs: seq<Event>): (rs: seq<Reply>)
    ensures |rs| == |evs|
  {
    if evs == [] then []
    else Replies(s, evs[..|evs| - 1]) + [Handle(After(s, evs[..|evs| - 1]), evs[|evs| - 1]).1]
  }

  lemma {:induction false} StaysInRange(s: Simple, evs: seq<Event>)
    requires InRange(s.frequency)
    ensures InRange(After(s, evs).frequency)
  {
    if evs == [] {
    } else {
      StaysInRange(s, evs[..|evs| - 1]);
    }
  }

  /** A request or a button that puts a frequency, and so starts the driver's timer. */
  predicate Accepts(s: Simple, ev: Event) {
    && s.manual
    && match ev
       case Request(cmd, value, _) => cmd == SET_FREQUENCY && InRange(value)
       case Button1(pressed) => pressed
       case Button2(pressed) => pressed
       case _ => false
  }

  /** Whether the driver's timer is pending after these events, if `runs` says so before them: a
      callback that finds the frequency 0 does not re-arm it. */
  function TimerAfter(runs: bool, s: Simple, evs: seq<Event>): bool {
    if evs == [] then runs
    else
      var init, last := evs[..|evs| - 1], evs[|evs| - 1];
      if last.Tick? then After(s, evs).frequency != 0 else TimerAfter(runs, s, init) || Accepts(After(s, init), last)
  }

  /** The timer expires only while it is pending. */
  ghost predicate Timely(runs: bool, s: Simple, evs: seq<Event>) {
    forall i :: 0 <= i < |evs| && evs[i].Tick? ==> TimerAfter(runs, s, evs[..i])
  }

  lemma {:induction false} TimelyPrefix(runs: bool, s: Simple, evs: seq<Event>, n: nat)
    requires Timely(runs, s, evs) && n <= |evs|
    ensures Timely(runs, s, evs[..n])
  {
    forall i | 0 <= i < n && evs[..n][i].Tick?
      ensures TimerAfter(runs, s, evs[..n][..i])
    {
      assert evs[..n][..i] == evs[..i];
    }
  }

  /** A running fan runs for ever: its timer can expire after any events. */
  lemma {:induction false} RunningStaysRunning(s: Simple, evs: seq<Event>)
    requires InRange(s.frequency)
    ensures TimerAfter(true, s, evs) && Timely(true, s, evs)
    decreases |evs|
  {
    if evs == [] {
    } else {
      StaysInRange(s, evs);
      RunningStaysRunning(s, evs[..|evs| - 1]);
      forall i | 0 <= i < |evs|
        ensures TimerAfter(true, s, evs[..i])
      {
        RunningStaysRunning(s, evs[..i]);
      }
    }
  }

  ghost predicate SomeAccepted(s: Simple, evs: seq<Event>) {
    exists i :: 0 <= i < |evs| && Accepts(After(s, evs[..i]), evs[i])
  }

  lemma {:induction false} SomeAcceptedLast(s: Simple, evs: seq<Event>)
    requires evs != []
    ensures var init := evs[..|evs| - 1];
            SomeAccepted(s, evs) <==> SomeAccepted(s, init) || Accepts(After(s, init), evs[|evs| - 1])
  {
    var init := evs[..|evs| - 1];
    forall i | 0 <= i < |init|
      ensures init[..i] == evs[..i] && init[i] == evs[i]
    {
    }
    if i :| 0 <= i < |init| && Accepts(After(s, init[..i]), init[i]) {
      assert Accepts(After(s, evs[..i]), evs[i]);
    }
    if i :| 0 <= i < |evs| && Accepts(After(s, evs[..i]), evs[i]) {
      assert i < |init| ==> Accepts(After(s, init[..i]), init[i]);
    }
  }

  lemma AcceptedIsInRange(s: Simple, ev: Event)
    requires s.frequency == 0 || InRange(s.frequency)
    ensures var f := Handle(s, ev).0.frequency;
            if Accepts(s, ev) || s.frequency != 0 then InRange(f) else ev.Tick? || f == 0
  {
  }

  /** A fan that never started (its probe-time reading failed) starts exactly when a frequency is
      accepted; before that its frequency is 0, afterwards it is in range. */
  lemma {:induction false} StartsExactlyWhenAccepted(s: Simple, evs: seq<Event>)
    requires s.frequency == 0 && Timely(false, s, evs)
    ensures TimerAfter(false, s, evs) <==> SomeAccepted(s, evs)
    ensures var f := After(s, evs).frequency; if TimerAfter(false, s, evs) then InRange(f) else f == 0
  {
    if evs == [] {
    } else {
      var init, last := evs[..|evs| - 1], evs[|evs| - 1];
      TimelyPrefix(false, s, evs, |init|);
      StartsExactlyWhenAccepted(s, init);
      SomeAcceptedLast(s, evs);
      AcceptedIsInRange(After(s, init), last);
      assert last == evs[|init|];
    }
  }

  /** Setting the mode twice is setting it once; both times the answer is yes, and GET_MODE reports
      the mode set. */
  lemma SetModeIdempotent(s: Simple, v: int, t: Reading)
    ensures var (s1, r1) := Handle(s, Request(SET_MODE, v, t));
            && r1 == Reply(0, 0) && Handle(s1, Request(SET_MODE, v, t)) == (s1, r1)
            && Handle(s1, Request(GET_MODE, 0, t)) == (s1, Reply(0, if v != 0 then 1 else 0))
  {
  }

  /** The mode the events alone determine: the last one set, inverted by each press after it. */
  function LastMode(manual: bool, evs: seq<Event>): bool {
    if evs == [] then manual
    else
      var before, last := LastMode(manual, evs[..|evs| - 1]), evs[|evs| - 1];
      if last.Request? && last.cmd == SET_MODE then last.value != 0
      else if last == Button3(true) then !before
      else before
  }

  /** GET_MODE reports the last mode set, over any events. */
  lemma {:induction false} GetReturnsLastMode(s: Simple, evs: seq<Event>, v: int, t: Reading)
    ensures After(s, evs).manual == LastMode(s.manual, evs)
    ensures Handle(After(s, evs), Request(GET_MODE, v, t)) ==
            (After(s, evs), Reply(0, if LastMode(s.manual, evs) then 1 else 0))
  {
    if evs == [] {
    } else {
      GetReturnsLastMode(s, evs[..|evs| - 1], v, t);
    }
  }

  /** An event that puts a frequency: an accepted one in manual mode, in automatic mode a timer
      tick whose sensor can be read. */
  predicate Puts(s: Simple, ev: Event) {
    Accepts(s, ev) || (!s.manual && ev.Tick? && ev.reading.Temp?)
  }

  function ValuePut(f: int, ev: Event): int {
    match ev
    case Request(_, value, _) => value
    case Button1(_) => if f >= 100 then 100 else f + 1
    case Button2(_) => if f <= 1 then 1 else f - 1
    case Tick(Temp(mc)) => TempToFreq(mc)
    case _ => f
  }

  ghost predicate NothingPut(s: Simple, evs: seq<Event>, from: nat) {
    forall j :: from <= j < |evs| ==> !Puts(After(s, evs[..j]), evs[j])
  }

  lemma PutStep(s: Simple, ev: Event)
    ensures Handle(s, ev).0.frequency == if Puts(s, ev) then ValuePut(s.frequency, ev) else s.frequency
  {
  }

  lemma {:induction false} KeptUnlessPut(s: Simple, evs: seq<Event>, from: nat)
    requires from <= |evs| && NothingPut(s, evs, from)
    ensures After(s, evs).frequency == After(s, evs[..from]).frequency
    decreases |evs|
  {
    if from == |evs| {
      assert evs[..from] == evs;
    } else {
      var n := |evs| - 1;
      assert forall j :: from <= j < n ==> evs[..n][..j] == evs[..j] && evs[..n][j] == evs[j];
      KeptUnlessPut(s, evs[..n], from);
      assert evs[..n][..from] == evs[..from];
      PutStep(After(s, evs[..n]), evs[n]);
    }
  }

  /** In both modes GET_FREQUENCY answers with status 0 and the frequency last put: by the accepted
      request, by the button press relative to what was there, or by the tick's temperature. With
      nothing put it is the initial one. */
  lemma {:induction false} GetReturnsLastPut(s: Simple, evs: seq<Event>, i: nat, v: int, t: Reading)
    requires i <= |evs| && NothingPut(s, evs, i)
    requires i > 0 ==> Puts(After(s, evs[..i - 1]), evs[i - 1])
    ensures Handle(After(s, evs), Request(GET_FREQUENCY, v, t)) ==
            (After(s, evs),
             Reply(0, if i == 0 then s.frequency else ValuePut(After(s, evs[..i - 1]).frequency, evs[i - 1])))
  {
    KeptUnlessPut(s, evs, i);
    if i == 0 {
    } else {
      assert evs[..i][..i - 1] == evs[..i - 1];
      PutStep(After(s, evs[..i - 1]), evs[i - 1]);
    }
  }

  /** In automatic mode that is the table's value for the last temperature read. */
  lemma {:induction false} AutomaticReportsTemperature(s: Simple, mc: int, evs: seq<Event>, v: int, t: Reading)
    requires !s.manual && NothingPut(s, [Tick(Temp(mc))] + evs, 1)
    ensures Handle(After(s, [Tick(Temp(mc))] + evs), Request(GET_FREQUENCY, v, t)).1 == Reply(0, TempToFreq(mc))
  {
    var all := [Tick(Temp(mc))] + evs;
    assert all[..0] == [];
    GetReturnsLastPut(s, all, 1, v, t);
  }

  /** What the status says: 0 from SET_FREQUENCY means accepted, and each refusal its reason, in the
      errno numbers a client sees; a request that fails changes nothing. */
  lemma StatusMeans(s: Simple, cmd: int, v: int, t: Reading)
    ensures var (s1, r) := Handle(s, Request(cmd, v, t));
            && (cmd == SET_FREQUENCY ==>
                  && (r.status == 0 <==> s.manual && 1 <= v <= 100)
                  && (r.status == -1 <==> !s.manual)
                  && (r.status == -34 <==> s.manual && !(1 <= v <= 100))
                  && (r.status == 0 ==> s1 == Simple(true, v)))
            && (r.status == -38 <==> cmd !in {0, 1, 2, 3, 4})
            && (r.status != 0 ==> s1 == s && r.value == 0)
            && (cmd != SET_FREQUENCY && cmd in {0, 1, 2, 4} ==> r.status == 0)
    ensures Handle(s, ShortRequest) == (s, Reply(-22, 0))
  {
  }

  /** GET_TEMP answers in whole degrees, cut towards zero. */
  lemma DegreesAnswered(s: Simple, v: int, mc: int)
    ensures var d := Handle(s, Request(GET_TEMP, v, Temp(mc))).1.value;
            if mc >= 0 then 1000 * d <= mc < 1000 * (d + 1) else 1000 * (d - 1) < mc <= 1000 * d
  {
  }

  /** n presses of the first button raise a manual frequency by n, up to 100. */
  lemma {:induction false} PressesUp(s: Simple, n: nat)
    requires s.manual && 0 <= s.frequency <= 100
    ensures After(s, seq(n, _ => Button1(true))) == Simple(true, if s.frequency + n > 100 then 100 else s.frequency + n)
  {
    if n == 0 {
    } else {
      PressesUp(s, n - 1);
      assert seq(n, _ => Button1(true))[..n - 1] == seq(n - 1, _ => Button1(true));
    }
  }

  /** And n of the second one lower it by n, down to 1. */
  lemma {:induction false} PressesDown(s: Simple, n: nat)
    requires s.manual && 1 <= s.frequency <= 100
    ensures After(s, seq(n, _ => Button2(true))) == Simple(true, if s.frequency - n < 1 then 1 else s.frequency - n)
  {
    if n == 0 {
    } else {
      PressesDown(s, n - 1);
      assert seq(n, _ => Button2(true))[..n - 1] == seq(n - 1, _ => Button2(true));
    }
  }

  /** The buttons do nothing when released, and the first two nothing in automatic mode. */
  lemma ButtonsIgnored(s: Simple, pressed: bool)
    ensures Handle(s, Button1(false)) == Handle(s, Button2(false)) == Handle(s, Button3(false)) == (s, NoReply)
    ensures !s.manual ==> Handle(s, Button1(pressed)) == Handle(s, Button2(pressed)) == (s, NoReply)
  {
  }

  /** The answer to GET_TEMP after a failed sensor read is the answer to exactly the readings
      strictly between -1000 and 1000: a client cannot tell them apart. */
  lemma FailedReadLooksLikeZeroDegrees(s: Simple, v: int, r: Reading)
    ensures Handle(s, Request(GET_TEMP, v, ReadFailed)).1 == Reply(0, 0)
    ensures Handle(s, Request(GET_TEMP, v, r)).1 == Handle(s, Request(GET_TEMP, v, ReadFailed)).1 <==>
              r.ReadFailed? || -1000 < r.mc < 1000
  {
  }

  lemma {:induction false} ReplyAt(s: Simple, evs: seq<Event>, i: nat)
    requires i < |evs|
    ensures Replies(s, evs)[i] == Handle(After(s, evs[..i]), evs[i]).1
  {
    var n := |evs| - 1;
    if i == n {
      assert evs[..n][..n] == evs[..n];
    } else {
      ReplyAt(s, evs[..n], i);
      assert evs[..n][..i] == evs[..i];
    }
  }

  /** Over any events, the replies are those of the machine that reports failed reads exactly
      when no GET_TEMP met one. */
  lemma {:induction false} ReportsFailuresExactlyWhen(s: Simple, evs: seq<Event>)
    ensures (forall i :: 0 <= i < |evs| ==>
               Replies(s, evs)[i] == HandleReporting(After(s, evs[..i]), evs[i]).1) <==>
            (forall i :: 0 <= i < |evs| ==> !(evs[i].Request? && evs[i].cmd == GET_TEMP && evs[i].temp.ReadFailed?))
  {
    forall i | 0 <= i < |evs|
      ensures Replies(s, evs)[i] == Handle(After(s, evs[..i]), evs[i]).1
    {
      ReplyAt(s, evs, i);
    }
  }

  /** An event that neither leaves manual mode nor has a frequency accepted. */
  predicate KeepsFrequency(ev: Event) {
    match ev
    case Request(cmd, value, _) =>
      !(cmd == SET_MODE && value == 0) && !(cmd == SET_FREQUENCY && InRange(value))
    case Button1(pressed) => !pressed
    case Button2(pressed) => !pressed
    case Button3(pressed) => !pressed
    case _ => true
  }

  /** In manual mode the frequency read back is the last one accepted, whatever timer ticks,
      refused requests and button releases come in between. */
  lemma {:induction false} GetReturnsLastAccepted(s: Simple, v: int, t: Reading, evs: seq<Event>)
    requires s.manual && InRange(v)
    requires forall i :: 0 <= i < |evs| ==> KeepsFrequency(evs[i])
    ensures var s1 := Handle(s, Request(SET_FREQUENCY, v, t)).0;
            && After(s1, evs) == Simple(true, v)
            && Handle(After(s1, evs), Request(GET_FREQUENCY, 0, t)).1 == Reply(0, v)
  {
    if evs == [] {
    } else {
      var init := evs[..|evs| - 1];
      assert forall i :: 0 <= i < |init| ==> init[i] == evs[i];
      GetReturnsLastAccepted(s, v, t, init);
      assert KeepsFrequency(evs[|evs| - 1]);
    }
  }

  /** KeepsFrequency is exact: any other event changes the fan from some manual frequency. */
  lemma KeepsFrequencyExactly(ev: Event)
    ensures KeepsFrequency(ev) <==> forall f :: InRange(f) ==> Handle(Simple(true, f), ev).0 == Simple(true, f)
  {
    if !KeepsFrequency(ev) {
      var f := if ev.Request? && ev.cmd == SET_FREQUENCY && ev.value == 50 then 51 else 50;
      assert InRange(f) && Handle(Simple(true, f), ev).0 != Simple(true, f);
    }
  }
}
