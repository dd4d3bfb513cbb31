/** The daemon's pool of socket clients under epoll, as functions of the pool and the kernel's
    side of it: which descriptors are open, and which slot each registration points to.

    epoll hands back a pointer into the pool, not a descriptor, so an event names a slot whose
    content is looked up only when the event is dispatched. Registrations are one-shot. */
module ClientPool {

  const MAX_CLIENTS: nat := 8

  datatype Registration = Registration(slot: nat, armed: bool)

  /** `conns` numbers the connections in the order they were admitted, so that a reused
      descriptor is not mistaken for the client it belonged to before; `answered` lists the
      connections that were sent a response. */
  datatype Pool = Pool(slots: seq<int>, count: nat,
                       conns: map<int, nat>, regs: map<int, Registration>,
                       admitted: nat, answered: seq<nat>)

  /** An event in the batch epoll_wait returned. `conn` is the connection that was ready; the
      daemon itself only sees the slot. */
  datatype Ready = Listener | Client(slot: nat, conn: nat)

  datatype Source = OnListener | OnClient(fd: int)

  datatype Loop = Loop(pool: Pool, batch: seq<Ready>, dispatched: seq<nat>)

  datatype Step =
    | Wait(sources: seq<Source>)
    | Dispatch(fd: int)          // fd: what accept returns, if the event is the listener's

  const EMPTY_POOL := Pool([0, 0, 0, 0, 0, 0, 0, 0], 0, map[], map[], 0, [])

  function Accept(p: Pool, fd: int): Pool
    requires |p.slots| == MAX_CLIENTS
  {
    if fd < 0 || p.count >= MAX_CLIENTS then p
    else p.(slots := p.slots[p.count := fd], count := p.count + 1,
            conns := p.conns[fd := p.admitted],
            regs := p.regs[fd := Registration(p.count, true)],
            admitted := p.admitted + 1)
  }

  /** The first index below `n` that holds fd, or n. */
  function Find(slots: seq<int>, n: nat, fd: int): (i: nat)
    requires n <= |slots|
    ensures i <= n && (i < n ==> slots[i] == fd)
    ensures forall j :: 0 <= j < i ==> slots[j] != fd
  {
    if n == 0 then 0
    else
      var i := Find(slots, n - 1, fd);
      if i < n - 1 || slots[n - 1] == fd then i else n
  }

  /** Answer and close fd if it is open; closing also drops its registration. */
  function Close(p: Pool, fd: int): Pool {
    if fd !in p.conns then p
    else p.(conns := p.conns - {fd}, regs := p.regs - {fd}, answered := p.answered + [p.conns[fd]])
  }

  function SwapRemove(p: Pool, fd: int): Pool
    requires p.count <= |p.slots|
  {
    var i := Find(p.slots, p.count, fd);
    if i == p.count then p
    else p.(slots := p.slots[i := p.slots[p.count - 1]], count := p.count - 1)
  }

  function Serve(p: Pool, fd: int): Pool
    requires p.count <= |p.slots|
  {
    SwapRemove(Close(p, fd), fd)
  }

  function Harvest(p: Pool, source: Source): Ready
    requires source.OnClient? ==> source.fd in p.conns && source.fd in p.regs
  {
    match source
    case OnListener => Listener
    case OnClient(fd) => Client(p.regs[fd].slot, p.conns[fd])
  }

  /** epoll_wait is called once the previous batch is used up, and reports armed descriptors. */
  predicate Enabled(l: Loop, step: Step) {
    match step
    case Wait(sources) =>
      && l.batch == []
      && (forall i :: 0 <= i < |sources| && sources[i].OnClient? ==>
            sources[i].fd in l.pool.conns && sources[i].fd in l.pool.regs && l.pool.regs[sources[i].fd].armed)
      && (forall i, j :: 0 <= i < j < |sources| && sources[i].OnClient? ==> sources[i] != sources[j])
    case Dispatch(fd) =>
      && l.batch != []
      && |l.pool.slots| == MAX_CLIENTS && l.pool.count <= MAX_CLIENTS
      && (l.batch[0].Listener? ==> fd !in l.pool.conns)
      && (l.batch[0].Client? ==> l.batch[0].slot < MAX_CLIENTS)
  }

  function Apply(l: Loop, step: Step): Loop
    requires Enabled(l, step)
  {
    var p := l.pool;
    match step
    case Wait(sources) =>
      var regs := map fd | fd in p.regs ::
                    if OnClient(fd) in sources then p.regs[fd].(armed := false) else p.regs[fd];
      l.(pool := p.(regs := regs),
         batch := seq(|sources|, i requires 0 <= i < |sources| => Harvest(p, sources[i])))
    case Dispatch(fd) =>
      match l.batch[0]
      case Listener => l.(pool := Accept(p, fd), batch := l.batch[1..])
      case Client(slot, conn) =>
        Loop(Serve(p, p.slots[slot]), l.batch[1..], l.dispatched + [conn])
  }

  ghost predicate Legal(l: Loop, run: seq<Step>)
    decreases |run|, 0
  {
    run == [] ||
    (Legal(l, run[..|run| - 1]) && Enabled(Exec(l, run[..|run| - 1]), run[|run| - 1]))
  }

  ghost function Exec(l: Loop, run: seq<Step>): Loop
    requires Legal(l, run)
    decreases |run|, 1
  {
    if run == [] then l else Apply(Exec(l, run[..|run| - 1]), run[|run| - 1])
  }

  const START := Loop(EMPTY_POOL, [], [])

  ghost predicate Distinct(s: seq<int>) {
    forall i, j :: 0 <= i < j < |s| ==> s[i] != s[j]
  }

  /** The pool holds exactly the open descriptors, each once. */
  ghost predicate HoldsOpen(p: Pool) {
    && |p.slots| == MAX_CLIENTS && p.count <= MAX_CLIENTS
    && Distinct(p.slots[..p.count])
    && (forall fd :: fd in p.conns <==> fd in p.slots[..p.count])
    && |p.conns| == p.count
  }

  ghost predicate Sound(l: Loop) {
    && HoldsOpen(l.pool)
    && l.pool.regs.Keys == l.pool.conns.Keys
    && (forall fd :: fd in l.pool.regs ==> fd >= 0 && l.pool.regs[fd].slot < MAX_CLIENTS)
    && (forall i :: 0 <= i < |l.batch| && l.batch[i].Client? ==> l.batch[i].slot < MAX_CLIENTS)
  }

  lemma AcceptHolds(p: Pool, fd: int)
    requires HoldsOpen(p) && fd !in p.conns
    ensures HoldsOpen(Accept(p, fd))
  {
    var q := Accept(p, fd);
    if q != p {
      assert q.slots[..q.count] == p.slots[..p.count] + [fd];
    }
  }

  /** Overwriting entry i with the last one and dropping the last removes exactly entry i. */
  lemma SwapRemoves(s: seq<int>, i: nat)
    requires i < |s| && Distinct(s)
    ensures var t := s[i := s[|s| - 1]][..|s| - 1];
            Distinct(t) && forall g :: g in t <==> g in s && g != s[i]
  {
    var t := s[i := s[|s| - 1]][..|s| - 1];
    forall g | g in s && g != s[i]
      ensures g in t
    {
      var k :| 0 <= k < |s| && s[k] == g;
      assert t[if k == |s| - 1 then i else k] == g;
    }
  }

  lemma SwapInPrefix(slots: seq<int>, n: nat, i: nat)
    requires i < n <= |slots| && Distinct(slots[..n])
    ensures var t := slots[i := slots[n - 1]][..n - 1];
            Distinct(t) && forall g :: g in t <==> g in slots[..n] && g != slots[i]
  {
    SwapRemoves(slots[..n], i);
    assert slots[i := slots[n - 1]][..n - 1] == slots[..n][i := slots[n - 1]][..n - 1];
  }

  lemma SwapHolds(p: Pool, fd: int, i: nat)
    requires HoldsOpen(p) && i < p.count && p.slots[i] == fd
    ensures HoldsOpen(p.(slots := p.slots[i := p.slots[p.count - 1]], count := p.count - 1, conns := p.conns - {fd}))
  {
    SwapInPrefix(p.slots, p.count, i);
    assert fd in p.slots[..p.count];
    assert |p.conns - {fd}| == |p.conns| - 1;
  }

  lemma ServeHolds(p: Pool, fd: int)
    requires HoldsOpen(p)
    ensures HoldsOpen(Serve(p, fd))
  {
    var i := Find(p.slots, p.count, fd);
    if i < p.count {
      SwapHolds(p, fd, i);
    } else {
      assert fd !in p.slots[..p.count];
    }
  }

  lemma {:induction false} SoundWait(l: Loop, sources: seq<Source>)
    requires Sound(l) && Enabled(l, Wait(sources))
    ensures Sound(Apply(l, Wait(sources)))
  {
  }

  lemma {:induction false} SoundAccept(l: Loop, fd: int)
    requires Sound(l) && Enabled(l, Dispatch(fd)) && l.batch[0].Listener?
    ensures Sound(Apply(l, Dispatch(fd)))
  {
    AcceptHolds(l.pool, fd);
  }

  lemma {:induction false} SoundServe(l: Loop, fd: int)
    requires Sound(l) && Enabled(l, Dispatch(fd)) && l.batch[0].Client?
    ensures Sound(Apply(l, Dispatch(fd)))
  {
    ServeHolds(l.pool, l.pool.slots[l.batch[0].slot]);
  }

  lemma {:induction false} SoundStep(l: Loop, step: Step)
    requires Sound(l) && Enabled(l, step)
    ensures Sound(Apply(l, step))
  {
    match step
    case Wait(sources) => SoundWait(l, sources);
    case Dispatch(fd) =>
      if l.batch[0].Listener? {
        SoundAccept(l, fd);
      } else {
        SoundServe(l, fd);
      }
  }

  lemma {:induction false} SoundRun(run: seq<Step>)
    requires Legal(START, run)
    ensures Sound(Exec(START, run))
  {
    if run == [] {
    } else {
      SoundRun(run[..|run| - 1]);
      SoundStep(Exec(START, run[..|run| - 1]), run[|run| - 1]);
    }
  }

  /** Over every run, whatever batches arrive and however stale their events are: the pool is
      exactly the set of open clients, and never more than eight. */
  lemma {:induction false} PoolIsOpenClients(run: seq<Step>)
    requires Legal(START, run)
    ensures var p := Exec(START, run).pool; HoldsOpen(p) && |p.conns| == p.count <= 8
  {
    SoundRun(run);
  }

  /** Counted from the steps: the connections accept returned while fewer than eight clients were
      open. */
  ghost function Admissions(run: seq<Step>): nat
    requires Legal(START, run)
  {
    if run == [] then 0
    else
      var l, last := Exec(START, run[..|run| - 1]), run[|run| - 1];
      Admissions(run[..|run| - 1]) +
      if last.Dispatch? && l.batch[0].Listener? && last.fd >= 0 && |l.pool.conns| < 8 then 1 else 0
  }

  /** Just those are admitted, over every run. */
  lemma {:induction false} AdmittedAreCounted(run: seq<Step>)
    requires Legal(START, run)
    ensures Exec(START, run).pool.admitted == Admissions(run)
  {
    if run == [] {
    } else {
      AdmittedAreCounted(run[..|run| - 1]);
      PoolIsOpenClients(run[..|run| - 1]);
    }
  }

  /** Whoever connects while fewer than eight clients are open is served from then on: the new
      descriptor is open with the next number and armed at an entry of the pool that holds it, and
      no other client's descriptor, entry or registration changes. A ninth is turned away. */
  lemma {:induction false} RoomMeansAdmitted(run: seq<Step>, fd: int)
    requires Legal(START, run + [Dispatch(fd)]) && Exec(START, run).batch[0].Listener?
    ensures var p, q := Exec(START, run).pool, Exec(START, run + [Dispatch(fd)]).pool;
            if fd >= 0 && |p.conns| < 8 then
              && q.conns == p.conns[fd := Admissions(run)] && fd !in p.conns
              && fd in q.regs && q.regs[fd].armed && q.regs[fd].slot < q.count && q.slots[q.regs[fd].slot] == fd
              && (forall gd :: gd in p.regs ==> gd in q.regs && q.regs[gd] == p.regs[gd])
              && q.slots[..p.count] == p.slots[..p.count] && q.count == p.count + 1
            else q == p
  {
    assert (run + [Dispatch(fd)])[..|run|] == run;
    AdmittedAreCounted(run);
    SoundRun(run);
  }

  ghost predicate IsOpen(p: Pool, c: nat) {
    exists fd :: fd in p.conns && p.conns[fd] == c
  }

  /** Each admitted connection is open or has been answered, never both, and at most once. */
  ghost predicate Ledger(p: Pool) {
    && (forall fd :: fd in p.conns ==> p.conns[fd] < p.admitted && p.conns[fd] !in p.answered)
    && (forall fd, gd :: fd in p.conns && gd in p.conns && p.conns[fd] == p.conns[gd] ==> fd == gd)
    && (forall i, j :: 0 <= i < j < |p.answered| ==> p.answered[i] != p.answered[j])
    && (forall i :: 0 <= i < |p.answered| ==> p.answered[i] < p.admitted)
    && (forall c :: 0 <= c < p.admitted && c !in p.answered ==> IsOpen(p, c))
  }

  lemma AcceptLedger(p: Pool, fd: int)
    requires |p.slots| == MAX_CLIENTS && Ledger(p) && fd !in p.conns
    ensures Ledger(Accept(p, fd))
  {
    var q := Accept(p, fd);
    if q != p {
      forall c | 0 <= c < q.admitted && c !in q.answered
        ensures IsOpen(q, c)
      {
        if c == p.admitted {
          assert q.conns[fd] == c;
        } else {
          var gd :| gd in p.conns && p.conns[gd] == c;
          assert q.conns[gd] == c;
        }
      }
    }
  }

  lemma CloseLedger(p: Pool, fd: int)
    requires Ledger(p)
    ensures Ledger(Close(p, fd))
  {
    var q := Close(p, fd);
    forall c | 0 <= c < q.admitted && c !in q.answered
      ensures IsOpen(q, c)
    {
      assert c !in p.answered;
      var gd :| gd in p.conns && p.conns[gd] == c;
      assert gd in q.conns && q.conns[gd] == c;
    }
  }

  /** The ledger depends neither on slots nor on registrations. */
  lemma LedgerOnly(p: Pool, q: Pool)
    requires Ledger(p) && q.conns == p.conns && q.admitted == p.admitted && q.answered == p.answered
    ensures Ledger(q)
  {
    assert forall c :: IsOpen(p, c) <==> IsOpen(q, c);
  }

  lemma ServeLedger(p: Pool, fd: int)
    requires Ledger(p) && p.count <= |p.slots|
    ensures Ledger(Serve(p, fd))
  {
    CloseLedger(p, fd);
    LedgerOnly(Close(p, fd), Serve(p, fd));
  }

  lemma {:induction false} LedgerRun(run: seq<Step>)
    requires Legal(START, run)
    ensures Ledger(Exec(START, run).pool)
  {
    if run == [] {
    } else {
      var l, step := Exec(START, run[..|run| - 1]), run[|run| - 1];
      LedgerRun(run[..|run| - 1]);
      match step
      case Wait(_) => LedgerOnly(l.pool, Apply(l, step).pool);
      case Dispatch(fd) =>
        match l.batch[0]
        case Listener => AcceptLedger(l.pool, fd);
        case Client(slot, _) => ServeLedger(l.pool, l.pool.slots[slot]);
    }
  }

  /** The event points to the slot of the connection that was ready. */
  ghost predicate Delivers(p: Pool, e: Ready) {
    e.Client? ==>
      e.slot < |p.slots| &&
      var fd := p.slots[e.slot];
      fd in p.conns && p.conns[fd] == e.conn && fd in p.regs && p.regs[fd] == Registration(e.slot, false)
  }

  ghost predicate Awaits(l: Loop, fd: int)
    requires fd in l.pool.conns && fd in l.pool.regs
  {
    l.pool.regs[fd].armed || Client(l.pool.regs[fd].slot, l.pool.conns[fd]) in l.batch
  }

  ghost predicate ArmedPointHome(p: Pool) {
    forall fd :: fd in p.regs && p.regs[fd].armed ==>
      p.regs[fd].slot < |p.slots| && p.slots[p.regs[fd].slot] == fd
  }

  ghost predicate AllDeliver(p: Pool, batch: seq<Ready>) {
    forall i :: 0 <= i < |batch| ==> Delivers(p, batch[i])
  }

  ghost predicate NoRepeats(batch: seq<Ready>) {
    forall i, j :: 0 <= i < j < |batch| && batch[i].Client? ==> batch[i] != batch[j]
  }

  ghost predicate AllAwait(l: Loop) {
    forall fd :: fd in l.pool.conns ==> fd in l.pool.regs && Awaits(l, fd)
  }

  /** Every armed registration and every pending event points to the slot of its own client,
      every open client is armed or pending, and the connections answered are those whose
      events were dispatched. */
  ghost predicate Routed(l: Loop) {
    && Sound(l) && Ledger(l.pool)
    && ArmedPointHome(l.pool) && AllDeliver(l.pool, l.batch) && NoRepeats(l.batch) && AllAwait(l)
    && l.pool.answered == l.dispatched
  }

  /** No open client is registered at the slot the next accept writes. */
  ghost predicate NextSlotIsFree(p: Pool) {
    forall fd :: fd in p.regs ==> p.regs[fd].slot != p.count
  }

  /** Serving an open descriptor changes no slot but its own. */
  lemma ServeEffect(p: Pool, fd: int)
    requires HoldsOpen(p) && fd in p.conns
    ensures var q := Serve(p, fd);
            && q.conns == p.conns - {fd} && q.regs == p.regs - {fd} && q.admitted == p.admitted
            && q.answered == p.answered + [p.conns[fd]]
            && |q.slots| == |p.slots|
            && forall j :: 0 <= j < |p.slots| && p.slots[j] != fd ==> q.slots[j] == p.slots[j]
  {
    assert fd in p.slots[..p.count];
  }

  lemma ServeAwaits(l: Loop, m: Loop)
    requires Routed(l) && l.batch != [] && l.batch[0].Client?
    requires m == Apply(l, Dispatch(0))
    ensures AllAwait(m)
  {
    var p, e := l.pool, l.batch[0];
    assert Delivers(p, e);
    ServeEffect(p, p.slots[e.slot]);
    forall gd | gd in m.pool.conns
      ensures gd in m.pool.regs && Awaits(m, gd)
    {
      assert Awaits(l, gd);
      if !p.regs[gd].armed {
        var k :| 0 <= k < |l.batch| && l.batch[k] == Client(p.regs[gd].slot, p.conns[gd]);
        assert k != 0 && m.batch[k - 1] == l.batch[k];
      }
    }
  }

  lemma ServeDelivers(l: Loop, m: Loop)
    requires Routed(l) && l.batch != [] && l.batch[0].Client?
    requires m == Apply(l, Dispatch(0))
    ensures AllDeliver(m.pool, m.batch) && NoRepeats(m.batch)
  {
    var p, e := l.pool, l.batch[0];
    assert Delivers(p, e);
    ServeEffect(p, p.slots[e.slot]);
    forall k | 0 <= k < |m.batch|
      ensures Delivers(m.pool, m.batch[k])
    {
      assert m.batch[k] == l.batch[k + 1] && Delivers(p, l.batch[k + 1]) && e != l.batch[k + 1];
    }
  }

  lemma {:induction false} ServePointsHome(l: Loop)
    requires Routed(l) && l.batch != [] && l.batch[0].Client?
    ensures ArmedPointHome(Apply(l, Dispatch(0)).pool)
    ensures Apply(l, Dispatch(0)).pool.answered == l.pool.answered + [l.batch[0].conn]
  {
    assert Delivers(l.pool, l.batch[0]);
    ServeEffect(l.pool, l.pool.slots[l.batch[0].slot]);
  }

  lemma {:induction false} ServeRouted(l: Loop)
    requires Routed(l) && l.batch != [] && l.batch[0].Client?
    ensures Enabled(l, Dispatch(0)) && Routed(Apply(l, Dispatch(0)))
    ensures Apply(l, Dispatch(0)).pool.answered == l.pool.answered + [l.batch[0].conn]
  {
    var m := Apply(l, Dispatch(0));
    SoundStep(l, Dispatch(0));
    ServeLedger(l.pool, l.pool.slots[l.batch[0].slot]);
    ServeAwaits(l, m);
    ServeDelivers(l, m);
    ServePointsHome(l);
  }

  lemma WaitAwaits(l: Loop, sources: seq<Source>)
    requires Routed(l) && Enabled(l, Wait(sources))
    ensures AllAwait(Apply(l, Wait(sources)))
  {
    var p, m := l.pool, Apply(l, Wait(sources));
    forall fd | fd in m.pool.conns
      ensures fd in m.pool.regs && Awaits(m, fd)
    {
      assert Awaits(l, fd);
      if OnClient(fd) in sources {
        var k :| 0 <= k < |sources| && sources[k] == OnClient(fd);
        assert m.batch[k] == Client(p.regs[fd].slot, p.conns[fd]);
      }
    }
  }

  lemma WaitDelivers(l: Loop, sources: seq<Source>)
    requires Routed(l) && Enabled(l, Wait(sources))
    ensures AllDeliver(Apply(l, Wait(sources)).pool, Apply(l, Wait(sources)).batch)
    ensures NoRepeats(Apply(l, Wait(sources)).batch)
  {
    var p, m := l.pool, Apply(l, Wait(sources));
    forall k | 0 <= k < |m.batch|
      ensures Delivers(m.pool, m.batch[k])
    {
      assert m.batch[k] == Harvest(p, sources[k]);
      assert sources[k] in sources;
    }
    forall i, j | 0 <= i < j < |m.batch| && m.batch[i].Client?
      ensures m.batch[i] != m.batch[j]
    {
      assert m.batch[i] == Harvest(p, sources[i]) && m.batch[j] == Harvest(p, sources[j]);
    }
  }

  lemma {:induction false} WaitRouted(l: Loop, sources: seq<Source>)
    requires Routed(l) && Enabled(l, Wait(sources))
    ensures Routed(Apply(l, Wait(sources)))
  {
    SoundStep(l, Wait(sources));
    WaitAwaits(l, sources);
    WaitDelivers(l, sources);
    LedgerOnly(l.pool, Apply(l, Wait(sources)).pool);
  }

  lemma KeepsAwaiting(l: Loop, m: Loop, gd: int)
    requires gd in l.pool.conns && gd in l.pool.regs && Awaits(l, gd)
    requires l.batch != [] && l.batch[0].Listener? && m.batch == l.batch[1..]
    requires gd in m.pool.conns && gd in m.pool.regs
    requires m.pool.conns[gd] == l.pool.conns[gd] && m.pool.regs[gd] == l.pool.regs[gd]
    ensures Awaits(m, gd)
  {
    var e := Client(l.pool.regs[gd].slot, l.pool.conns[gd]);
    if e in l.batch {
      var k :| 0 <= k < |l.batch| && l.batch[k] == e;
      assert m.batch[k - 1] == e;
    }
  }

  lemma AcceptDelivers(p: Pool, batch: seq<Ready>, fd: int)
    requires HoldsOpen(p) && AllDeliver(p, batch) && NextSlotIsFree(p)
    requires fd >= 0 && fd !in p.conns && p.count < MAX_CLIENTS
    ensures AllDeliver(Accept(p, fd), batch)
  {
    forall k | 0 <= k < |batch|
      ensures Delivers(Accept(p, fd), batch[k])
    {
      assert Delivers(p, batch[k]);
    }
  }

  lemma AcceptAwaits(l: Loop, fd: int)
    requires Sound(l) && AllAwait(l) && l.batch != [] && l.batch[0].Listener?
    requires fd >= 0 && fd !in l.pool.conns && l.pool.count < MAX_CLIENTS
    ensures AllAwait(Apply(l, Dispatch(fd)))
  {
    var m := Apply(l, Dispatch(fd));
    forall gd | gd in m.pool.conns
      ensures gd in m.pool.regs && Awaits(m, gd)
    {
      if gd != fd {
        KeepsAwaiting(l, m, gd);
      }
    }
  }

  lemma AcceptPointsHome(p: Pool, fd: int)
    requires HoldsOpen(p) && ArmedPointHome(p) && NextSlotIsFree(p)
    ensures ArmedPointHome(Accept(p, fd))
  {
  }

  lemma FreeSlotKeepsRouting(l: Loop, fd: int)
    requires Routed(l) && l.batch != [] && l.batch[0].Listener?
    requires fd >= 0 && fd !in l.pool.conns && l.pool.count < MAX_CLIENTS && NextSlotIsFree(l.pool)
    ensures Routed(Apply(l, Dispatch(fd)))
  {
    SoundStep(l, Dispatch(fd));
    AcceptLedger(l.pool, fd);
    AcceptDelivers(l.pool, l.batch[1..], fd);
    AcceptAwaits(l, fd);
    AcceptPointsHome(l.pool, fd);
    assert NoRepeats(l.batch[1..]);
  }

  lemma TakenSlotBreaksRouting(l: Loop, fd: int)
    requires Routed(l) && l.batch != [] && l.batch[0].Listener?
    requires fd >= 0 && fd !in l.pool.conns && l.pool.count < MAX_CLIENTS && !NextSlotIsFree(l.pool)
    ensures !Routed(Apply(l, Dispatch(fd)))
  {
    var p, m := l.pool, Apply(l, Dispatch(fd));
    var gd :| gd in p.regs && p.regs[gd].slot == p.count;
    assert Awaits(l, gd);
    if !p.regs[gd].armed {
      KeepsAwaiting(l, m, gd);
      var k :| 0 <= k < |m.batch| && m.batch[k] == Client(p.count, p.conns[gd]);
      assert !Delivers(m.pool, m.batch[k]);
    }
  }

  /** With correct routing and room in the pool, an accepted client keeps every other one's
      routing exactly when no open client is registered at the slot it gets. */
  lemma AcceptRoutedExactlyWhen(l: Loop, fd: int)
    requires Routed(l) && l.batch != [] && l.batch[0].Listener?
    requires fd >= 0 && fd !in l.pool.conns && l.pool.count < MAX_CLIENTS
    ensures Routed(Apply(l, Dispatch(fd))) <==> NextSlotIsFree(l.pool)
  {
    if NextSlotIsFree(l.pool) {
      FreeSlotKeepsRouting(l, fd);
    } else {
      TakenSlotBreaksRouting(l, fd);
    }
  }

  /** The condition on a run: whenever an accept takes a slot, that slot is free. */
  ghost predicate Clean(l: Loop, step: Step) {
    (step.Dispatch? && l.batch != [] && l.batch[0].Listener? && step.fd >= 0 && l.pool.count < MAX_CLIENTS) ==>
      NextSlotIsFree(l.pool)
  }

  ghost predicate CleanRun(l: Loop, run: seq<Step>)
    requires Legal(l, run)
  {
    run == [] || (CleanRun(l, run[..|run| - 1]) && Clean(Exec(l, run[..|run| - 1]), run[|run| - 1]))
  }

  lemma IgnoredAccept(l: Loop, fd: int)
    requires Routed(l) && Enabled(l, Dispatch(fd)) && l.batch[0].Listener?
    requires fd < 0 || l.pool.count >= MAX_CLIENTS
    ensures Routed(Apply(l, Dispatch(fd)))
  {
    var m := Apply(l, Dispatch(fd));
    SoundStep(l, Dispatch(fd));
    forall k | 0 <= k < |m.batch|
      ensures Delivers(m.pool, m.batch[k])
    {
      assert m.batch[k] == l.batch[k + 1] && Delivers(l.pool, l.batch[k + 1]);
    }
    forall gd | gd in m.pool.conns
      ensures Awaits(m, gd)
    {
      KeepsAwaiting(l, m, gd);
    }
  }

  lemma {:induction false} RoutedStep(l: Loop, step: Step)
    requires Routed(l) && Enabled(l, step) && Clean(l, step)
    ensures Routed(Apply(l, step))
  {
    match step
    case Wait(sources) => WaitRouted(l, sources);
    case Dispatch(fd) =>
      if l.batch[0].Client? {
        ServeRouted(l);
      } else if fd >= 0 && l.pool.count < MAX_CLIENTS {
        AcceptRoutedExactlyWhen(l, fd);
      } else {
        IgnoredAccept(l, fd);
      }
  }

  lemma {:induction false} RoutedRun(l: Loop, run: seq<Step>)
    requires Routed(l) && Legal(l, run) && CleanRun(l, run)
    ensures Routed(Exec(l, run))
  {
    if run == [] {
    } else {
      RoutedRun(l, run[..|run| - 1]);
      RoutedStep(Exec(l, run[..|run| - 1]), run[|run| - 1]);
    }
  }

  ghost predicate IsWaiting(l: Loop, fd: int, c: nat) {
    fd in l.pool.conns && l.pool.conns[fd] == c && fd in l.pool.regs && Awaits(l, fd)
  }

  /** Over every clean run each ready client is answered on its own descriptor exactly once:
      the answers are the dispatched events' own connections, in order and without repetition,
      and every other admitted client is open and still armed or pending. */
  lemma {:induction false} CleanRunsAnswerEveryone(run: seq<Step>)
    requires Legal(START, run) && CleanRun(START, run)
    ensures var l := Exec(START, run);
            && l.pool.answered == l.dispatched
            && (forall i, j :: 0 <= i < j < |l.dispatched| ==> l.dispatched[i] != l.dispatched[j])
            && (forall c :: 0 <= c < l.pool.admitted ==>
                  c in l.pool.answered || exists fd :: IsWaiting(l, fd, c))
  {
    RoutedRun(START, run);
    var l := Exec(START, run);
    forall c | 0 <= c < l.pool.admitted && c !in l.pool.answered
      ensures exists fd :: IsWaiting(l, fd, c)
    {
      var fd :| fd in l.pool.conns && l.pool.conns[fd] == c;
      assert IsWaiting(l, fd, c);
    }
  }

  /** However the loop goes on, as long as every later accept gets a free slot, the answers are
      the ready connections. */
  ghost predicate AnswersRight(l: Loop) {
    forall run :: Legal(l, run) && CleanRun(l, run) ==> Exec(l, run).pool.answered == Exec(l, run).dispatched
  }

  ghost predicate CleanlyReaches(l: Loop, run: seq<Step>, m: Loop) {
    Legal(l, run) && CleanRun(l, run) && Exec(l, run) == m
  }

  lemma ExtendCleanly(l: Loop, run: seq<Step>, m: Loop, step: Step) returns (longer: seq<Step>, next: Loop)
    requires CleanlyReaches(l, run, m) && Enabled(m, step) && Clean(m, step)
    ensures next == Apply(m, step) && CleanlyReaches(l, longer, next)
  {
    longer, next := run + [step], Apply(m, step);
    assert longer[..|run|] == run;
  }

  /** Every pending event of connection c names this slot, and none is of connection other. */
  ghost predicate Spares(batch: seq<Ready>, c: nat, slot: nat, other: nat) {
    forall i :: 0 <= i < |batch| && batch[i].Client? ==>
      batch[i].conn != other && (batch[i].conn == c ==> batch[i].slot == slot)
  }

  /** Client gd waits at a slot that holds the descriptor of another open client. */
  ghost predicate Crossed(l: Loop, gd: int, fd: int) {
    && gd in l.pool.conns && fd in l.pool.conns && l.pool.conns[gd] != l.pool.conns[fd]
    && gd in l.pool.regs && l.pool.regs[gd].slot < |l.pool.slots| && l.pool.slots[l.pool.regs[gd].slot] == fd
    && Awaits(l, gd) && Spares(l.batch, l.pool.conns[gd], l.pool.regs[gd].slot, l.pool.conns[fd])
  }

  ghost predicate Misdirected(l: Loop, gd: int, fd: int) {
    Sound(l) && Ledger(l.pool) && Crossed(l, gd, fd)
  }

  lemma RightAnswer(l: Loop)
    requires Sound(l) && l.batch != [] && l.batch[0].Client? && l.pool.answered == l.dispatched
    requires Apply(l, Dispatch(0)).pool.answered == Apply(l, Dispatch(0)).dispatched
    ensures var fd := l.pool.slots[l.batch[0].slot]; fd in l.pool.conns && l.pool.conns[fd] == l.batch[0].conn
  {
    assert Apply(l, Dispatch(0)).dispatched[|l.dispatched|] == l.batch[0].conn;
  }

  lemma StillAwaits(l: Loop, m: Loop, gd: int)
    requires Sound(l) && l.batch != [] && gd in l.pool.conns && Awaits(l, gd) && l.batch[0] != Listener
    requires l.batch[0].conn != l.pool.conns[gd] && m.batch == l.batch[1..]
    requires gd in m.pool.conns && gd in m.pool.regs
    requires m.pool.conns[gd] == l.pool.conns[gd] && m.pool.regs[gd] == l.pool.regs[gd]
    ensures Awaits(m, gd)
  {
    if !l.pool.regs[gd].armed {
      var k :| 0 <= k < |l.batch| && l.batch[k] == Client(l.pool.regs[gd].slot, l.pool.conns[gd]);
      assert k != 0 && m.batch[k - 1] == l.batch[k];
    }
  }

  lemma CrossedServe(l: Loop, gd: int, fd: int)
    requires Sound(l) && Crossed(l, gd, fd) && l.batch != [] && l.batch[0].Client?
    requires var jd := l.pool.slots[l.batch[0].slot]; jd in l.pool.conns && l.pool.conns[jd] == l.batch[0].conn
    ensures Crossed(Apply(l, Dispatch(0)), gd, fd)
  {
    var p, m := l.pool, Apply(l, Dispatch(0));
    var jd := p.slots[l.batch[0].slot];
    ServeEffect(p, jd);
    assert jd != fd && jd != gd;
    StillAwaits(l, m, gd);
  }

  lemma MisdirectedServe(l: Loop, gd: int, fd: int)
    requires Misdirected(l, gd, fd) && l.batch != [] && l.batch[0].Client? && l.pool.answered == l.dispatched
    requires Apply(l, Dispatch(0)).pool.answered == Apply(l, Dispatch(0)).dispatched
    ensures Misdirected(Apply(l, Dispatch(0)), gd, fd)
  {
    SoundStep(l, Dispatch(0));
    ServeLedger(l.pool, l.pool.slots[l.batch[0].slot]);
    RightAnswer(l);
    CrossedServe(l, gd, fd);
  }

  lemma MisdirectedIgnore(l: Loop, gd: int, fd: int)
    requires Misdirected(l, gd, fd) && l.batch != [] && l.batch[0].Listener?
    ensures Enabled(l, Dispatch(-1)) && Clean(l, Dispatch(-1)) && Misdirected(Apply(l, Dispatch(-1)), gd, fd)
    ensures Apply(l, Dispatch(-1)).pool == l.pool
  {
    SoundStep(l, Dispatch(-1));
    KeepsAwaiting(l, Apply(l, Dispatch(-1)), gd);
  }

  /** The rest of the batch, up to the first wrong answer if there is one. */
  lemma MisdirectedRest(start: Loop, before: seq<Step>, l: Loop, gd: int, fd: int)
    returns (run: seq<Step>, m: Loop)
    requires CleanlyReaches(start, before, l) && Misdirected(l, gd, fd) && l.pool.answered == l.dispatched
    ensures CleanlyReaches(start, run, m)
    ensures m.pool.answered == m.dispatched ==> Misdirected(m, gd, fd) && m.batch == []
    decreases |l.batch|
  {
    run, m := before, l;
    if l.batch == [] {
    } else if l.batch[0].Listener? {
      MisdirectedIgnore(l, gd, fd);
      run, m := ExtendCleanly(start, before, l, Dispatch(-1));
      run, m := MisdirectedRest(start, run, m, gd, fd);
    } else {
      run, m := ExtendCleanly(start, before, l, Dispatch(0));
      if m.pool.answered == m.dispatched {
        MisdirectedServe(l, gd, fd);
        run, m := MisdirectedRest(start, run, m, gd, fd);
      }
    }
  }

  /** gd's own event, on its own, is answered to the other client. */
  lemma OwnEventMisanswers(start: Loop, before: seq<Step>, l: Loop, gd: int, fd: int)
    returns (run: seq<Step>, m: Loop)
    requires CleanlyReaches(start, before, l) && Misdirected(l, gd, fd) && l.batch == []
    ensures CleanlyReaches(start, run, m)
    ensures m.pool.answered == l.pool.answered + [l.pool.conns[fd]] && m.dispatched == l.dispatched + [l.pool.conns[gd]]
  {
    run, m := ExtendCleanly(start, before, l, Wait([OnClient(gd)]));
    assert m.batch == [Client(l.pool.regs[gd].slot, l.pool.conns[gd])];
    run, m := ExtendCleanly(start, run, m, Dispatch(0));
  }

  lemma MisdirectedMisanswers(l: Loop, gd: int, fd: int) returns (run: seq<Step>, m: Loop)
    requires Misdirected(l, gd, fd) && l.pool.answered == l.dispatched
    ensures CleanlyReaches(l, run, m) && m.pool.answered != m.dispatched
  {
    run, m := MisdirectedRest(l, [], l, gd, fd);
    if m.pool.answered == m.dispatched {
      var n := |m.dispatched|;
      var c, d := m.pool.conns[fd], m.pool.conns[gd];
      run, m := OwnEventMisanswers(l, run, m, gd, fd);
      assert m.pool.answered[n] == c != d == m.dispatched[n];
    }
  }

  lemma EventsSpare(p: Pool, batch: seq<Ready>, gd: int)
    requires Ledger(p) && AllDeliver(p, batch) && gd in p.conns && gd in p.regs
    ensures Spares(batch, p.conns[gd], p.regs[gd].slot, p.admitted)
  {
    forall i | 0 <= i < |batch| && batch[i].Client?
      ensures batch[i].conn != p.admitted && (batch[i].conn == p.conns[gd] ==> batch[i].slot == p.regs[gd].slot)
    {
      assert Delivers(p, batch[i]);
    }
  }

  lemma TakenSlotMisdirects(l: Loop, fd: int) returns (gd: int)
    requires Routed(l) && l.batch != [] && l.batch[0].Listener?
    requires fd >= 0 && fd !in l.pool.conns && l.pool.count < MAX_CLIENTS && !NextSlotIsFree(l.pool)
    ensures Misdirected(Apply(l, Dispatch(fd)), gd, fd)
  {
    var p := l.pool;
    SoundStep(l, Dispatch(fd));
    AcceptLedger(p, fd);
    gd :| gd in p.regs && p.regs[gd].slot == p.count;
    assert Awaits(l, gd);
    KeepsAwaiting(l, Apply(l, Dispatch(fd)), gd);
    EventsSpare(p, l.batch[1..], gd);
  }

  /** What a client sees of it: with correct routing so far and room in the pool, no wrong answer
      follows an accept, whatever events come next, exactly when no open client is registered at
      the slot it takes. */
  lemma AcceptAnswersRightExactlyWhen(l: Loop, fd: int)
    requires Routed(l) && l.batch != [] && l.batch[0].Listener?
    requires fd >= 0 && fd !in l.pool.conns && l.pool.count < MAX_CLIENTS
    ensures AnswersRight(Apply(l, Dispatch(fd))) <==> NextSlotIsFree(l.pool)
  {
    var m := Apply(l, Dispatch(fd));
    if NextSlotIsFree(l.pool) {
      FreeSlotKeepsRouting(l, fd);
      forall run | Legal(m, run) && CleanRun(m, run)
        ensures Exec(m, run).pool.answered == Exec(m, run).dispatched
      {
        RoutedRun(m, run);
      }
    } else {
      var gd := TakenSlotMisdirects(l, fd);
      var run, n := MisdirectedMisanswers(m, gd, fd);
    }
  }

  ghost predicate ReachedBy(run: seq<Step>, l: Loop) {
    Legal(START, run) && Exec(START, run) == l
  }

  lemma Extend(run: seq<Step>, l: Loop, step: Step) returns (longer: seq<Step>, m: Loop)
    requires ReachedBy(run, l) && Enabled(l, step)
    ensures m == Apply(l, step) && ReachedBy(longer, m)
  {
    longer, m := run + [step], Apply(l, step);
    assert longer[..|run|] == run;
  }

  /** One listener event on its own. */
  lemma Admit(run: seq<Step>, l: Loop, fd: int) returns (longer: seq<Step>, m: Loop)
    requires ReachedBy(run, l) && l.batch == [] && fd !in l.pool.conns
    requires |l.pool.slots| == MAX_CLIENTS && l.pool.count <= MAX_CLIENTS
    ensures ReachedBy(longer, m) && m == Loop(Accept(l.pool, fd), [], l.dispatched)
  {
    longer, m := Extend(run, l, Wait([OnListener]));
    assert m.batch == [Listener];
    assert m.pool.regs == l.pool.regs;
    longer, m := Extend(longer, m, Dispatch(fd));
  }

  /** One client event on its own. */
  lemma Answer(run: seq<Step>, l: Loop, fd: int) returns (longer: seq<Step>, m: Loop)
    requires ReachedBy(run, l) && l.batch == [] && fd in l.pool.conns && fd in l.pool.regs
    requires l.pool.regs[fd].armed && l.pool.regs[fd].slot < MAX_CLIENTS
    requires |l.pool.slots| == MAX_CLIENTS && l.pool.count <= MAX_CLIENTS
    ensures ReachedBy(longer, m)
    ensures var p := l.pool.(regs := l.pool.regs[fd := l.pool.regs[fd].(armed := false)]);
            m == Loop(Serve(p, p.slots[p.regs[fd].slot]), [], l.dispatched + [p.conns[fd]])
  {
    longer, m := Extend(run, l, Wait([OnClient(fd)]));
    assert m.batch == [Client(l.pool.regs[fd].slot, l.pool.conns[fd])];
    assert m.pool.regs == l.pool.regs[fd := l.pool.regs[fd].(armed := false)];
    longer, m := Extend(longer, m, Dispatch(0));
  }

  lemma TwoClients() returns (run: seq<Step>, l: Loop)
    ensures ReachedBy(run, l) && l.batch == [] && l.dispatched == []
    ensures l.pool == Pool([10, 11, 0, 0, 0, 0, 0, 0], 2, map[10 := 0, 11 := 1],
                           map[10 := Registration(0, true), 11 := Registration(1, true)], 2, [])
  {
    run, l := Admit([], START, 10);
    run, l := Admit(run, l, 11);
  }

  lemma ServeTen(p: Pool)
    requires p.slots == [10, 11, 0, 0, 0, 0, 0, 0] && p.count == 2 && p.conns == map[10 := 0, 11 := 1]
    ensures Serve(p, 10).slots == [11, 11, 0, 0, 0, 0, 0, 0] && Serve(p, 10).count == 1
    ensures Serve(p, 10).conns == map[11 := 1] && Serve(p, 10).regs == p.regs - {10}
  {
    assert Find(p.slots, 1, 10) == 0;
  }

  lemma FirstAnswered() returns (run: seq<Step>, l: Loop)
    ensures ReachedBy(run, l)
    ensures l == Loop(Pool([11, 11, 0, 0, 0, 0, 0, 0], 1, map[11 := 1], map[11 := Registration(1, true)], 2, [0]), [], [0])
  {
    run, l := TwoClients();
    ServeTen(l.pool.(regs := l.pool.regs[10 := Registration(0, false)]));
    run, l := Answer(run, l, 10);
  }

  lemma SlotReused() returns (run: seq<Step>, l: Loop)
    ensures ReachedBy(run, l)
    ensures l == Loop(Pool([11, 12, 0, 0, 0, 0, 0, 0], 2, map[11 := 1, 12 := 2],
                           map[11 := Registration(1, true), 12 := Registration(1, true)], 3, [0]), [], [0])
  {
    run, l := FirstAnswered();
    run, l := Admit(run, l, 12);
  }

  /** What happens otherwise: the second client's slot is reused after a swap, its request is
      answered to the third client, and it stays open with nothing left to wake the daemon. */
  lemma ReusedSlotMisroutes() returns (run: seq<Step>, l: Loop)
    ensures ReachedBy(run, l) && l.batch == []
    ensures l.dispatched == [0, 1] && l.pool.answered == [0, 2]
    ensures 11 in l.pool.conns && l.pool.conns[11] == 1 && 11 in l.pool.regs && !Awaits(l, 11)
  {
    run, l := SlotReused();
    run, l := Answer(run, l, 11);
  }

  /** Serving a descriptor that is closed already does nothing. */
  lemma ServeClosed(p: Pool, fd: int)
    requires HoldsOpen(p) && fd !in p.conns
    ensures Serve(p, fd) == p
  {
  }

  lemma ServeTwelve(p: Pool)
    requires p.slots == [11, 12, 0, 0, 0, 0, 0, 0] && p.count == 2 && p.conns == map[11 := 1, 12 := 2]
    ensures Serve(p, 12).slots == p.slots && Serve(p, 12).count == 1
    ensures Serve(p, 12).conns == map[11 := 1] && Serve(p, 12).regs == p.regs - {12}
    ensures Serve(p, 12).answered == p.answered + [2]
  {
    assert Find(p.slots, 1, 12) == 1 && Find(p.slots, 2, 12) == 1;
  }

  lemma ThirdClientFirst() returns (run: seq<Step>, l: Loop)
    ensures ReachedBy(run, l)
    ensures l == Loop(Pool([11, 12, 0, 0, 0, 0, 0, 0], 1, map[11 := 1], map[11 := Registration(1, true)], 3, [0, 2]), [], [0, 2])
  {
    run, l := SlotReused();
    ServeTwelve(l.pool.(regs := l.pool.regs[12 := Registration(1, false)]));
    run, l := Answer(run, l, 12);
  }

  lemma ServeClosedTwelve(p: Pool)
    requires p.slots == [11, 12, 0, 0, 0, 0, 0, 0] && p.count == 1 && p.conns == map[11 := 1]
    ensures Serve(p, 12) == p
  {
    assert p.slots[..1] == [11];
    ServeClosed(p, 12);
  }

  /** If the third client is answered and closed first, the slot names a closed descriptor: then
      the second client's request is answered to nobody. */
  lemma StaleSlotAnswersNobody() returns (run: seq<Step>, l: Loop)
    ensures ReachedBy(run, l) && l.batch == []
    ensures l.dispatched == [0, 2, 1] && l.pool.answered == [0, 2]
    ensures 11 in l.pool.conns && l.pool.conns[11] == 1 && 11 in l.pool.regs && !Awaits(l, 11)
  {
    run, l := ThirdClientFirst();
    ServeClosedTwelve(l.pool.(regs := l.pool.regs[11 := Registration(1, false)]));
    run, l := Answer(run, l, 11);
  }

  ghost predicate Forgotten(l: Loop, fd: int, c: nat) {
    fd in l.pool.conns && l.pool.conns[fd] == c && fd in l.pool.regs && !Awaits(l, fd)
  }

  lemma WaitForgets(l: Loop, sources: seq<Source>, fd: int)
    requires Ledger(l.pool) && Enabled(l, Wait(sources)) && fd in l.pool.conns && fd in l.pool.regs && !Awaits(l, fd)
    ensures Forgotten(Apply(l, Wait(sources)), fd, l.pool.conns[fd])
  {
    var m := Apply(l, Wait(sources));
    forall k | 0 <= k < |m.batch|
      ensures m.batch[k] != Client(l.pool.regs[fd].slot, l.pool.conns[fd])
    {
      assert m.batch[k] == Harvest(l.pool, sources[k]);
    }
  }

  /** A client that is neither armed nor pending never becomes so again while it is open. */
  lemma ForgottenStaysForgotten(l: Loop, step: Step, fd: int)
    requires Sound(l) && Ledger(l.pool) && Enabled(l, step) && fd in l.pool.conns && Forgotten(l, fd, l.pool.conns[fd])
    ensures var m := Apply(l, step);
            Forgotten(m, fd, l.pool.conns[fd]) || l.pool.conns[fd] in m.pool.answered
  {
    match step
    case Wait(sources) => WaitForgets(l, sources, fd);
    case Dispatch(_) =>
      var m := Apply(l, step);
      assert forall k :: 0 <= k < |m.batch| ==> m.batch[k] == l.batch[k + 1];
  }
}
