/** Loading and unloading of the multi-device character driver: every acquisition can fail, and
    each failure point rolls back by hand. */
module CharDeviceInit {

  const EINVAL := 22
  const ENOMEM := 12

  datatype Resource =
    | Devices | Buffers | Buffer(i: nat) | Region | Class | Cdev(i: nat) | Node(i: nat)

  datatype Outcome = Success | FailedAt(r: Resource)

  function BufferSet(k: nat): set<Resource> {
    set i | 0 <= i < k :: Buffer(i)
  }

  function CdevSet(k: nat): set<Resource> {
    set i | 0 <= i < k :: Cdev(i)
  }

  function NodeSet(k: nat): set<Resource> {
    set i | 0 <= i < k :: Node(i)
  }

  /** The two arrays and k buffers. */
  function Memory(k: nat): set<Resource> {
    {Devices, Buffers} + BufferSet(k)
  }

  /** Everything a loaded driver with n devices holds. */
  function Loaded(n: nat): set<Resource> {
    Memory(n) + {Region, Class} + CdevSet(n) + NodeSet(n)
  }

  function BufferOutcome(i: nat, n: nat, failing: set<Resource>): Outcome
    requires i <= n
    decreases n - i
  {
    if i == n then Success
    else if Buffer(i) in failing then FailedAt(Buffer(i))
    else BufferOutcome(i + 1, n, failing)
  }

  function DeviceOutcome(i: nat, n: nat, failing: set<Resource>): Outcome
    requires i <= n
    decreases n - i
  {
    if i == n then Success
    else if Cdev(i) in failing then FailedAt(Cdev(i))
    else if Node(i) in failing then FailedAt(Node(i))
    else DeviceOutcome(i + 1, n, failing)
  }

  /** The first acquisition that fails, in the driver's order. */
  function FirstFailure(n: nat, failing: set<Resource>): Outcome {
    if Devices in failing then FailedAt(Devices)
    else if Buffers in failing then FailedAt(Buffers)
    else if BufferOutcome(0, n, failing).FailedAt? then BufferOutcome(0, n, failing)
    else if Region in failing then FailedAt(Region)
    else if Class in failing then FailedAt(Class)
    else DeviceOutcome(0, n, failing)
  }

  /** The driver's order of acquisition. */
  function Rank(n: nat, r: Resource): nat {
    match r
    case Devices => 0
    case Buffers => 1
    case Buffer(i) => 2 + i
    case Region => n + 2
    case Class => n + 3
    case Cdev(i) => n + 4 + 2 * i
    case Node(i) => n + 5 + 2 * i
  }

  /** What a failed load leaves behind. */
  function Leak(o: Outcome): set<Resource> {
    if o.FailedAt? && o.r.Cdev? then NodeSet(o.r.i) else {}
  }

  lemma {:induction false} BufferOutcomeMeaning(i: nat, n: nat, failing: set<Resource>)
    requires i <= n
    ensures BufferOutcome(i, n, failing).Success? <==> forall j :: i <= j < n ==> Buffer(j) !in failing
    ensures BufferOutcome(i, n, failing).FailedAt? ==>
              var r := BufferOutcome(i, n, failing).r;
              r.Buffer? && i <= r.i < n && r in failing && forall j :: i <= j < r.i ==> Buffer(j) !in failing
    decreases n - i
  {
    if i == n {
    } else {
      BufferOutcomeMeaning(i + 1, n, failing);
    }
  }

  lemma {:induction false} DeviceOutcomeMeaning(i: nat, n: nat, failing: set<Resource>)
    requires i <= n
    ensures DeviceOutcome(i, n, failing).Success? <==>
              forall j :: i <= j < n ==> Cdev(j) !in failing && Node(j) !in failing
    ensures DeviceOutcome(i, n, failing).FailedAt? ==>
              var r := DeviceOutcome(i, n, failing).r;
              && (r.Cdev? || r.Node?) && i <= r.i < n && r in failing
              && (r.Node? ==> Cdev(r.i) !in failing)
              && forall j :: i <= j < r.i ==> Cdev(j) !in failing && Node(j) !in failing
    decreases n - i
  {
    if i == n {
    } else {
      DeviceOutcomeMeaning(i + 1, n, failing);
    }
  }

  /** Needed, failing, and first in the driver's order among such. */
  ghost predicate IsFirst(n: nat, failing: set<Resource>, r: Resource) {
    r in Loaded(n) && r in failing && forall q :: q in Loaded(n) && q in failing ==> Rank(n, r) <= Rank(n, q)
  }

  lemma {:induction false} FailureIsFirst(n: nat, failing: set<Resource>)
    requires FirstFailure(n, failing).FailedAt?
    ensures IsFirst(n, failing, FirstFailure(n, failing).r)
  {
    BufferOutcomeMeaning(0, n, failing);
    DeviceOutcomeMeaning(0, n, failing);
  }

  lemma RankIsExact(n: nat, q: Resource, r: Resource)
    requires q in Loaded(n) && r in Loaded(n) && Rank(n, q) == Rank(n, r)
    ensures q == r
  {
  }

  /** Loading succeeds exactly when nothing the driver needs fails, and it leaks exactly when a
      character device after the first is what fails first. */
  lemma OutcomeMeaning(n: nat, failing: set<Resource>)
    ensures FirstFailure(n, failing).Success? <==> Loaded(n) !! failing
    ensures Leak(FirstFailure(n, failing)) != {} <==>
              exists i :: 0 < i < n && FirstFailure(n, failing) == FailedAt(Cdev(i))
  {
    BufferOutcomeMeaning(0, n, failing);
    DeviceOutcomeMeaning(0, n, failing);
    if FirstFailure(n, failing).Success? {
      forall r | r in Loaded(n) ensures r !in failing {}
    } else {
      var r := FirstFailure(n, failing).r;
      assert r in Loaded(n) && r in failing;
      if r.Cdev? && r.i > 0 { assert Node(0) in NodeSet(r.i); }
    }
  }

  /** The load stops at the needed resource that fails first in the driver's order. */
  lemma FailsAtTheFirst(n: nat, failing: set<Resource>, r: Resource)
    ensures FirstFailure(n, failing) == FailedAt(r) <==> IsFirst(n, failing, r)
  {
    OutcomeMeaning(n, failing);
    if FirstFailure(n, failing).FailedAt? { FailureIsFirst(n, failing); }
    if IsFirst(n, failing, r) { RankIsExact(n, r, FirstFailure(n, failing).r); }
  }

  /** What the module holds once i of its n devices are added. */
  function Partial(n: nat, i: nat): set<Resource> {
    Memory(n) + {Region, Class} + CdevSet(i) + NodeSet(i)
  }

  lemma CdevGrows(i: nat)
    ensures CdevSet(i + 1) == CdevSet(i) + {Cdev(i)} && Cdev(i) !in CdevSet(i)
  {
  }

  lemma NodeGrows(i: nat)
    ensures NodeSet(i + 1) == NodeSet(i) + {Node(i)} && Node(i) !in NodeSet(i)
  {
  }

  lemma PartialGrows(n: nat, i: nat)
    ensures Partial(n, i + 1) == Partial(n, i) + {Cdev(i)} + {Node(i)}
    ensures Cdev(i) !in Partial(n, i) && Node(i) !in Partial(n, i)
  {
    CdevGrows(i);
    NodeGrows(i);
  }

  lemma PartialEnds(n: nat)
    ensures Partial(n, 0) == Memory(n) + {Region, Class} && Partial(n, n) == Loaded(n)
  {
    assert CdevSet(0) == {} && NodeSet(0) == {};
  }

  class SkeletonModule {
    const devicesNumber: int
    /** The kernel's view: what the module holds, and whether it ever released something it did
        not hold or acquired something twice. */
    var ledger: set<Resource>
    var misused: bool
    var devices: bool
    var buffers: bool
    var class_: bool

    constructor (devicesNumber: int)
      ensures this.devicesNumber == devicesNumber && ledger == {} && !misused
      ensures !devices && !buffers && !class_
    {
      this.devicesNumber := devicesNumber;
      ledger, misused := {}, false;
      devices, buffers, class_ := false, false, false;
    }

    method Acquire(r: Resource, failing: set<Resource>) returns (ok: bool)
      modifies this`ledger, this`misused
      ensures ok <==> r !in failing
      ensures ledger == if ok then old(ledger) + {r} else old(ledger)
      ensures misused == (old(misused) || (ok && r in old(ledger)))
    {
      ok := r !in failing;
      if ok {
        misused := misused || r in ledger;
        ledger := ledger + {r};
      }
    }

    method Release(r: Resource)
      modifies this`ledger, this`misused
      ensures ledger == old(ledger) - {r}
      ensures misused == (old(misused) || r !in old(ledger))
    {
      misused := misused || r !in ledger;
      ledger := ledger - {r};
    }

    method FreeBuffers(k: nat)
      requires BufferSet(k) <= ledger
      modifies this`ledger, this`misused
      ensures ledger == old(ledger) - BufferSet(k) && misused == old(misused)
    {
      for j := 0 to k
        invariant ledger == old(ledger) - BufferSet(j) && misused == old(misused)
      {
        assert Buffer(j) in BufferSet(k) && Buffer(j) !in BufferSet(j);
        assert BufferSet(j + 1) == BufferSet(j) + {Buffer(j)};
        Release(Buffer(j));
      }
    }

    method DeleteCdevs(k: nat)
      requires CdevSet(k) <= ledger
      modifies this`ledger, this`misused
      ensures ledger == old(ledger) - CdevSet(k) && misused == old(misused)
    {
      for j := 0 to k
        invariant ledger == old(ledger) - CdevSet(j) && misused == old(misused)
      {
        assert Cdev(j) in CdevSet(k) && Cdev(j) !in CdevSet(j);
        assert CdevSet(j + 1) == CdevSet(j) + {Cdev(j)};
        Release(Cdev(j));
      }
    }

    method DestroyNodes(k: nat)
      requires NodeSet(k) <= ledger
      modifies this`ledger, this`misused
      ensures ledger == old(ledger) - NodeSet(k) && misused == old(misused)
    {
      for j := 0 to k
        invariant ledger == old(ledger) - NodeSet(j) && misused == old(misused)
      {
        assert Node(j) in NodeSet(k) && Node(j) !in NodeSet(j);
        assert NodeSet(j + 1) == NodeSet(j) + {Node(j)};
        Release(Node(j));
      }
    }

    /** The two arrays and the first k buffers. */
    method FreeMemory(k: nat)
      requires Memory(k) <= ledger
      modifies this
      ensures ledger == old(ledger) - Memory(k) && misused == old(misused)
      ensures !devices && !buffers && class_ == old(class_)
    {
      FreeBuffers(k);
      Release(Buffers);
      buffers := false;
      Release(Devices);
      devices := false;
    }

    /** The allocations at the start of skeleton_init, each undone if a later one fails. */
    method AllocateMemory(failing: set<Resource>) returns (ok: bool)
      requires ledger == {} && !misused && !devices && !buffers && !class_ && devicesNumber > 0
      modifies this
      ensures !misused && !class_ && devices == buffers == ok
      ensures ok <==> Devices !in failing && Buffers !in failing && BufferOutcome(0, devicesNumber, failing).Success?
      ensures ledger == if ok then Memory(devicesNumber) else {}
    {
      var n: nat := devicesNumber;
      ok := Acquire(Devices, failing);
      if !ok { return; }
      devices := true;

      ok := Acquire(Buffers, failing);
      if !ok {
        Release(Devices);
        devices := false;
        return;
      }
      buffers := true;

      for i := 0 to n
        invariant !misused && devices && buffers && !class_
        invariant ledger == Memory(i)
        invariant BufferOutcome(0, n, failing) == BufferOutcome(i, n, failing)
      {
        ok := Acquire(Buffer(i), failing);
        if !ok {
          FreeMemory(i);
          return;
        }
        assert BufferSet(i + 1) == BufferSet(i) + {Buffer(i)};
      }
      ok := true;
    }

    /** cdev_add failed for device i: its predecessors' character devices go, their nodes stay. */
    method RollBackCdev(i: nat)
      requires devicesNumber > 0 && !misused
      requires ledger == Partial(devicesNumber, i)
      modifies this
      ensures !misused && ledger == NodeSet(i) && !devices && !buffers && !class_
    {
      DeleteCdevs(i);
      Release(Region);
      FreeMemory(devicesNumber);
      Release(Class);
      class_ := false;
    }

    /** device_create failed for device i: everything goes. */
    method RollBackNode(i: nat)
      requires devicesNumber > 0 && !misused
      requires ledger == Partial(devicesNumber, i) + {Cdev(i)}
      modifies this
      ensures !misused && ledger == {} && !devices && !buffers && !class_
    {
      Release(Cdev(i));
      for j := 0 to i
        invariant !misused
        invariant ledger == Memory(devicesNumber) + {Region, Class} + (CdevSet(i) - CdevSet(j)) + (NodeSet(i) - NodeSet(j))
      {
        CdevGrows(j);
        NodeGrows(j);
        Release(Node(j));
        Release(Cdev(j));
      }
      Release(Class);
      class_ := false;
      Release(Region);
      FreeMemory(devicesNumber);
    }

    /** The last loop of skeleton_init. */
    method AddDevices(failing: set<Resource>, error: int) returns (status: int)
      requires devicesNumber > 0 && !misused && error < 0
      requires ledger == Memory(devicesNumber) + {Region, Class} && devices && buffers && class_
      modifies this
      ensures !misused
      ensures match DeviceOutcome(0, devicesNumber, failing)
              case Success => status == 0 && ledger == Loaded(devicesNumber) && devices && buffers && class_
              case FailedAt(r) =>
                && status == (if r.Cdev? then error else -ENOMEM)
                && ledger == Leak(FailedAt(r)) && !devices && !buffers && !class_
    {
      var n: nat := devicesNumber;
      PartialEnds(n);
      for i := 0 to n
        invariant !misused && devices && buffers && class_
        invariant ledger == Partial(n, i)
        invariant DeviceOutcome(0, n, failing) == DeviceOutcome(i, n, failing)
      {
        PartialGrows(n, i);
        var ok := Acquire(Cdev(i), failing);
        if !ok {
          RollBackCdev(i);
          return error;
        }
        ok := Acquire(Node(i), failing);
        if !ok {
          RollBackNode(i);
          return -ENOMEM;
        }
      }
      return 0;
    }

    /** skeleton_init; `error` is the code a failing kernel call reports. */
    method SkeletonInit(failing: set<Resource>, error: int) returns (status: int)
      requires ledger == {} && !misused && !devices && !buffers && !class_ && error < 0
      modifies this
      ensures !misused
      ensures devicesNumber <= 0 ==> status == -EINVAL && ledger == {}
      ensures devicesNumber > 0 ==>
                match FirstFailure(devicesNumber, failing)
                case Success => status == 0 && ledger == Loaded(devicesNumber) && devices && buffers && class_
                case FailedAt(r) =>
                  && status == (if r.Region? || r.Class? || r.Cdev? then error else -ENOMEM)
                  && ledger == Leak(FailedAt(r)) && !devices && !buffers && !class_
    {
      if devicesNumber <= 0 {
        return -EINVAL;
      }
      BufferOutcomeMeaning(0, devicesNumber, failing);
      var ok := AllocateMemory(failing);
      if !ok {
        return -ENOMEM;
      }

      ok := Acquire(Region, failing);
      if !ok {
        FreeMemory(devicesNumber);
        return error;
      }

      ok := Acquire(Class, failing);
      if !ok {
        Release(Region);
        FreeMemory(devicesNumber);
        return error;
      }
      class_ := true;

      DeviceOutcomeMeaning(0, devicesNumber, failing);
      status := AddDevices(failing, error);
    }

    method SkeletonExit()
      requires devicesNumber > 0 && ledger == Loaded(devicesNumber) && !misused && devices && buffers && class_
      modifies this
      ensures ledger == {} && !misused && !devices && !buffers && !class_
    {
      if class_ && devices {
        DestroyNodes(devicesNumber);
        Release(Class);
        class_ := false;
      }
      if devices {
        DeleteCdevs(devicesNumber);
        Release(Region);
        Release(Devices);
        devices := false;
      }
      if buffers {
        FreeBuffers(devicesNumber);
        Release(Buffers);
        buffers := false;
      }
    }
  }

  /** Load, and unload if that succeeded: nothing is released twice, and the ledger ends empty
      except for the device nodes of a failed character device. */
  method LoadAndUnload(n: int, failing: set<Resource>, error: int) returns (status: int, left: set<Resource>)
    requires error < 0
    ensures status == 0 <==> n > 0 && Loaded(n) !! failing
    ensures n <= 0 ==> status == -22
    ensures n > 0 && FirstFailure(n, failing).FailedAt? ==>
              var r := FirstFailure(n, failing).r;
              status == if r.Region? || r.Class? || r.Cdev? then error else -12
    ensures left == if n > 0 then Leak(FirstFailure(n, failing)) else {}
  {
    var m := new SkeletonModule(n);
    status := m.SkeletonInit(failing, error);
    if n > 0 { OutcomeMeaning(n, failing); }
    if status == 0 {
      m.SkeletonExit();
    }
    assert !m.misused;
    left := m.ledger;
  }
}
