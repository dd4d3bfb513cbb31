/** The event loop of main.c as an object: the pool is an array changed in place by
    process_event, next to the kernel's table of open descriptors and registrations. */
module EventLoopObject {
  import opened ClientPool

  predicate InRange(p: Pool) {
    |p.slots| == MAX_CLIENTS && p.count <= MAX_CLIENTS
  }

  /** process_event on a socket event; fd is what accept returns if it is the listener's. */
  function Process(p: Pool, e: Ready, fd: int): (q: Pool)
    requires InRange(p) && (e.Client? ==> e.slot < MAX_CLIENTS)
    ensures InRange(q)
  {
    match e
    case Listener => Accept(p, fd)
    case Client(slot, _) => Serve(p, p.slots[slot])
  }

  /** Events name slots of the array. */
  predicate SlotsExist(batch: seq<Ready>) {
    forall i :: 0 <= i < |batch| && batch[i].Client? ==> batch[i].slot < MAX_CLIENTS
  }

  /** The inner loop of main: one batch, in order. */
  function RunBatch(p: Pool, batch: seq<Ready>, fds: seq<int>): (q: Pool)
    requires InRange(p) && SlotsExist(batch) && |fds| == |batch|
    ensures InRange(q)
  {
    if batch == [] then p
    else
      var n := |batch| - 1;
      Process(RunBatch(p, batch[..n], fds[..n]), batch[n], fds[n])
  }

  /** accept never returns a descriptor that is open at that moment. */
  ghost predicate Plausible(p: Pool, batch: seq<Ready>, fds: seq<int>)
    requires InRange(p) && SlotsExist(batch) && |fds| == |batch|
  {
    forall n :: 0 <= n < |batch| && batch[n].Listener? ==> fds[n] !in RunBatch(p, batch[..n], fds[..n]).conns
  }

  lemma ProcessHolds(p: Pool, e: Ready, fd: int)
    requires HoldsOpen(p) && (e.Client? ==> e.slot < MAX_CLIENTS) && (e.Listener? ==> fd !in p.conns)
    ensures HoldsOpen(Process(p, e, fd))
  {
    match e
    case Listener => AcceptHolds(p, fd);
    case Client(slot, _) => ServeHolds(p, p.slots[slot]);
  }

  lemma PlausiblePrefix(p: Pool, batch: seq<Ready>, fds: seq<int>, n: nat)
    requires InRange(p) && SlotsExist(batch) && |fds| == |batch| && Plausible(p, batch, fds) && n <= |batch|
    ensures Plausible(p, batch[..n], fds[..n])
  {
    forall k | 0 <= k < n && batch[..n][k].Listener?
      ensures fds[..n][k] !in RunBatch(p, batch[..n][..k], fds[..n][..k]).conns
    {
      assert batch[..n][..k] == batch[..k] && fds[..n][..k] == fds[..k];
    }
  }

  /** Over a whole batch, stale events included, the pool stays the set of open clients. */
  lemma {:induction false} BatchHolds(p: Pool, batch: seq<Ready>, fds: seq<int>)
    requires HoldsOpen(p) && SlotsExist(batch) && |fds| == |batch| && Plausible(p, batch, fds)
    ensures HoldsOpen(RunBatch(p, batch, fds))
  {
    if batch == [] {
    } else {
      var n := |batch| - 1;
      PlausiblePrefix(p, batch, fds, n);
      BatchHolds(p, batch[..n], fds[..n]);
      ProcessHolds(RunBatch(p, batch[..n], fds[..n]), batch[n], fds[n]);
    }
  }

  /** What accept returns, as the machine's dispatches of a batch. */
  function Dispatches(fds: seq<int>): seq<Step> {
    seq(|fds|, i requires 0 <= i < |fds| => Dispatch(fds[i]))
  }

  lemma {:induction false} DispatchIsProcess(l: Loop, fd: int)
    requires HoldsOpen(l.pool) && l.batch != [] && (l.batch[0].Client? ==> l.batch[0].slot < MAX_CLIENTS)
    requires l.batch[0].Listener? ==> fd !in l.pool.conns
    ensures Enabled(l, Dispatch(fd)) && Apply(l, Dispatch(fd)).batch == l.batch[1..]
    ensures Apply(l, Dispatch(fd)).pool == Process(l.pool, l.batch[0], fd)
  {
  }

  lemma {:induction false} DispatchesLast(fds: seq<int>)
    requires fds != []
    ensures var run, n := Dispatches(fds), |fds| - 1;
            run[..n] == Dispatches(fds[..n]) && run[n] == Dispatch(fds[n])
  {
  }

  lemma {:induction false} BatchLast(p: Pool, batch: seq<Ready>, fds: seq<int>)
    requires HoldsOpen(p) && batch != [] && SlotsExist(batch) && |fds| == |batch| && Plausible(p, batch, fds)
    ensures var n := |batch| - 1;
            && SlotsExist(batch[..n]) && Plausible(p, batch[..n], fds[..n])
            && HoldsOpen(RunBatch(p, batch[..n], fds[..n]))
            && (batch[n].Listener? ==> fds[n] !in RunBatch(p, batch[..n], fds[..n]).conns)
            && RunBatch(p, batch, fds) == Process(RunBatch(p, batch[..n], fds[..n]), batch[n], fds[n])
  {
    var n := |batch| - 1;
    PlausiblePrefix(p, batch, fds, n);
    BatchHolds(p, batch[..n], fds[..n]);
  }

  lemma {:induction false} LastDispatch(l: Loop, fds: seq<int>, e: Ready, rest: seq<Ready>)
    requires fds != [] && Legal(l, Dispatches(fds[..|fds| - 1]))
    requires var m := Exec(l, Dispatches(fds[..|fds| - 1]));
             && HoldsOpen(m.pool) && m.batch == [e] + rest
             && (e.Client? ==> e.slot < MAX_CLIENTS) && (e.Listener? ==> fds[|fds| - 1] !in m.pool.conns)
    ensures Legal(l, Dispatches(fds)) && Exec(l, Dispatches(fds)).batch == rest
    ensures Exec(l, Dispatches(fds)).pool == Process(Exec(l, Dispatches(fds[..|fds| - 1])).pool, e, fds[|fds| - 1])
  {
    DispatchesLast(fds);
    DispatchIsProcess(Exec(l, Dispatches(fds[..|fds| - 1])), fds[|fds| - 1]);
  }

  /** The batch has been dispatched: what remains is `rest`. */
  ghost predicate Dispatched(l: Loop, batch: seq<Ready>, rest: seq<Ready>, fds: seq<int>)
    requires InRange(l.pool) && SlotsExist(batch) && |fds| == |batch|
  {
    && Legal(l, Dispatches(fds))
    && Exec(l, Dispatches(fds)).pool == RunBatch(l.pool, batch, fds)
    && Exec(l, Dispatches(fds)).batch == rest
  }

  lemma {:induction false} BatchThenLast(l: Loop, batch: seq<Ready>, rest: seq<Ready>, fds: seq<int>)
    requires HoldsOpen(l.pool) && batch != [] && SlotsExist(batch) && |fds| == |batch| && Plausible(l.pool, batch, fds)
    requires SlotsExist(batch[..|batch| - 1])
    requires Dispatched(l, batch[..|batch| - 1], [batch[|batch| - 1]] + rest, fds[..|batch| - 1])
    ensures Dispatched(l, batch, rest, fds)
  {
    BatchLast(l.pool, batch, fds);
    LastDispatch(l, fds, batch[|batch| - 1], rest);
  }

  lemma {:induction false} BatchThenRest(l: Loop, batch: seq<Ready>, rest: seq<Ready>, fds: seq<int>)
    requires l.batch == batch + rest && HoldsOpen(l.pool) && SlotsExist(batch) && |fds| == |batch|
    requires Plausible(l.pool, batch, fds)
    ensures Dispatched(l, batch, rest, fds)
    decreases |batch|
  {
    if batch == [] {
    } else {
      var n := |batch| - 1;
      PlausiblePrefix(l.pool, batch, fds, n);
      assert l.batch == batch[..n] + ([batch[n]] + rest);
      BatchThenRest(l, batch[..n], [batch[n]] + rest, fds[..n]);
      BatchThenLast(l, batch, rest, fds);
    }
  }

  /** A batch processed as a whole is the machine's dispatches one after another. */
  lemma {:induction false} BatchIsDispatches(l: Loop, n: nat, fds: seq<int>)
    requires n == |fds| <= |l.batch| && HoldsOpen(l.pool) && SlotsExist(l.batch)
    requires Plausible(l.pool, l.batch[..n], fds)
    ensures Legal(l, Dispatches(fds))
    ensures Exec(l, Dispatches(fds)).pool == RunBatch(l.pool, l.batch[..n], fds)
    ensures Exec(l, Dispatches(fds)).batch == l.batch[n..]
  {
    assert l.batch == l.batch[..n] + l.batch[n..];
    BatchThenRest(l, l.batch[..n], l.batch[n..], fds);
  }

  lemma {:induction false} FindIs(slots: seq<int>, n: nat, fd: int, i: nat)
    requires i <= n <= |slots| && (i < n ==> slots[i] == fd)
    requires forall j :: 0 <= j < i ==> slots[j] != fd
    ensures Find(slots, n, fd) == i
  {
    assert Find(slots, n, fd) == i;
  }

  class EventLoop {
    const clientEvents: array<int>
    var clientEventCount: nat
    var conns: map<int, nat>
    var regs: map<int, Registration>
    var admitted: nat
    var answered: seq<nat>

    function Contents(): Pool
      reads this, clientEvents
    {
      Pool(clientEvents[..], clientEventCount, conns, regs, admitted, answered)
    }

    constructor ()
      ensures Contents() == EMPTY_POOL && fresh(clientEvents)
    {
      clientEvents := new int[8](_ => 0);
      clientEventCount := 0;
      conns, regs := map[], map[];
      admitted, answered := 0, [];
    }

    method AcceptClient(fd: int)
      requires HoldsOpen(Contents()) && fd !in conns
      modifies this, clientEvents
      ensures Contents() == Accept(old(Contents()), fd) && HoldsOpen(Contents())
    {
      AcceptHolds(Contents(), fd);
      if fd < 0 || clientEventCount >= MAX_CLIENTS {
        return;
      }
      var slot := clientEventCount;
      clientEventCount := clientEventCount + 1;
      clientEvents[slot] := fd;
      conns := conns[fd := admitted];
      regs := regs[fd := Registration(slot, true)];
      admitted := admitted + 1;
    }

    /** socket_handle_client: answer, if the descriptor is open, and close. */
    method AnswerAndClose(fd: int)
      modifies this
      ensures Contents() == Close(old(Contents()), fd)
    {
      if fd in conns {
        answered := answered + [conns[fd]];
        conns := conns - {fd};
        regs := regs - {fd};
      }
    }

    /** The search for the descriptor, and the last entry moved into its place. */
    method RemoveFromPool(fd: int)
      requires clientEventCount <= clientEvents.Length
      modifies this`clientEventCount, clientEvents
      ensures Contents() == SwapRemove(old(Contents()), fd)
    {
      var i := 0;
      while i < clientEventCount && clientEvents[i] != fd
        invariant i <= clientEventCount
        invariant forall j :: 0 <= j < i ==> clientEvents[j] != fd
      {
        i := i + 1;
      }
      FindIs(clientEvents[..], clientEventCount, fd, i);
      if i < clientEventCount {
        clientEventCount := clientEventCount - 1;
        clientEvents[i] := clientEvents[clientEventCount];
      }
    }

    /** A client event: the slot is looked up now, then the descriptor found there is served
        and searched for in the pool. */
    method ClientRequest(slot: nat)
      requires HoldsOpen(Contents()) && slot < MAX_CLIENTS
      modifies this, clientEvents
      ensures Contents() == Serve(old(Contents()), old(clientEvents[slot])) && HoldsOpen(Contents())
    {
      var fd := clientEvents[slot];
      ServeHolds(Contents(), fd);
      AnswerAndClose(fd);
      RemoveFromPool(fd);
    }

    method ProcessBatch(batch: seq<Ready>, fds: seq<int>)
      requires HoldsOpen(Contents()) && SlotsExist(batch) && |fds| == |batch| && Plausible(Contents(), batch, fds)
      modifies this, clientEvents
      ensures Contents() == RunBatch(old(Contents()), batch, fds) && HoldsOpen(Contents())
    {
      for i := 0 to |batch|
        invariant Contents() == RunBatch(old(Contents()), batch[..i], fds[..i]) && HoldsOpen(Contents())
      {
        assert batch[..i + 1][..i] == batch[..i] && fds[..i + 1][..i] == fds[..i];
        match batch[i]
        case Listener => AcceptClient(fds[i]);
        case Client(slot, _) => ClientRequest(slot);
      }
      assert batch[..|batch|] == batch && fds[..|batch|] == fds;
    }
  }
}
