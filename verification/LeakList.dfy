/** The memory-leak exercise: a singly linked list fed alternately by two allocators, each with a
    static counter of its own, and emptied from the front. */
module LeakList {

  lemma Alternate(a: nat)
    ensures (a + 1) / 2 == a / 2 + a % 2 && (a + 2) / 2 == a / 2 + 1 && (a + 1) % 2 == 1 - a % 2
  {
  }

  class Alpha {
    var attr: int
    var next: Alpha?

    constructor (attr: int)
      ensures this.attr == attr && next == null
    {
      this.attr := attr;
      next := null;
    }
  }

  /** The root pointer, the three static counters, and the heap blocks not yet freed. */
  class AlphaList {
    var root: Alpha?
    var cnt1: nat
    var cnt2: nat
    var x: nat
    ghost var nodes: seq<Alpha>
    ghost var live: set<Alpha>
    ghost var allocs: nat
    ghost var frees: nat

    /** `nodes` is the list: linked in order, acyclic, ending in null. */
    ghost predicate Linked()
      reads this`root, this`nodes, this`live, nodes
    {
      && (nodes == [] <==> root == null)
      && (nodes != [] ==> root == nodes[0] && nodes[|nodes| - 1].next == null)
      && (forall i {:trigger nodes[i].next} :: 0 <= i < |nodes| - 1 ==> nodes[i].next == nodes[i + 1])
      && (forall i, j :: 0 <= i < j < |nodes| ==> nodes[i] != nodes[j])
      && live == set n | n in nodes
    }

    ghost predicate Attributes()
      reads this`nodes, this`frees, nodes
    {
      forall i :: 0 <= i < |nodes| ==> nodes[i].attr == (frees + i) / 2
    }

    /** After `allocs` allocations and `frees` successful deallocations the attributes are the
        window [frees, allocs) of the sequence i -> i / 2. */
    ghost predicate Window()
      reads this, nodes
    {
      && frees <= allocs && |nodes| == allocs - frees && Attributes()
      && cnt1 == (allocs + 1) / 2 && cnt2 == allocs / 2 && x == allocs % 2
    }

    ghost predicate Valid()
      reads this, nodes
    {
      Linked() && Window()
    }

    constructor ()
      ensures Valid() && allocs == 0 && frees == 0 && nodes == []
    {
      root := null;
      cnt1, cnt2, x := 0, 0, 0;
      nodes, live := [], {};
      allocs, frees := 0, 0;
    }

    /** The tail of alloc1 and alloc2: find the last element and link the new one. */
    method Append(ele: Alpha)
      requires Linked() && ele !in nodes && ele.next == null
      modifies this`root, this`nodes, this`live, nodes
      ensures Linked() && nodes == old(nodes) + [ele]
      ensures forall n :: n in nodes ==> n.attr == old(n.attr)
    {
      if root == null {
        root := ele;
      } else {
        var n := root;
        ghost var k := 0;
        while n.next != null
          invariant k < |nodes| && n == nodes[k] && (nodes[k].next == null <==> k == |nodes| - 1)
          decreases |nodes| - k
        {
          n := n.next;
          k := k + 1;
        }
        n.next := ele;
      }
      ghost var before := nodes;
      nodes := nodes + [ele];
      live := live + {ele};
      forall i | 0 <= i < |nodes| - 1
        ensures nodes[i].next == nodes[i + 1]
      {
        if i < |before| - 1 { assert before[i] != before[|before| - 1] && before[i].next == before[i + 1]; }
      }
    }

    method Alloc1()
      requires Linked()
      modifies this`root, this`nodes, this`live, this`cnt1, nodes
      ensures Linked() && |nodes| == |old(nodes)| + 1 && nodes[..|old(nodes)|] == old(nodes) && fresh(nodes[|old(nodes)|])
      ensures nodes[|old(nodes)|].attr == old(cnt1) && cnt1 == old(cnt1) + 1
      ensures forall n :: n in old(nodes) ==> n.attr == old(n.attr)
      ensures old(Attributes()) && old(cnt1) == (frees + |old(nodes)|) / 2 ==> Attributes()
    {
      var ele := new Alpha(cnt1);
      cnt1 := cnt1 + 1;
      Append(ele);
    }

    method Alloc2()
      requires Linked()
      modifies this`root, this`nodes, this`live, this`cnt2, nodes
      ensures Linked() && |nodes| == |old(nodes)| + 1 && nodes[..|old(nodes)|] == old(nodes) && fresh(nodes[|old(nodes)|])
      ensures nodes[|old(nodes)|].attr == old(cnt2) && cnt2 == old(cnt2) + 1
      ensures forall n :: n in old(nodes) ==> n.attr == old(n.attr)
      ensures old(Attributes()) && old(cnt2) == (frees + |old(nodes)|) / 2 ==> Attributes()
    {
      var ele := new Alpha(cnt2);
      cnt2 := cnt2 + 1;
      Append(ele);
    }

    method Alloc()
      requires Valid()
      modifies this, nodes
      ensures Valid() && allocs == old(allocs) + 1 && frees == old(frees)
      ensures |nodes| == |old(nodes)| + 1 && nodes[..|old(nodes)|] == old(nodes) && fresh(nodes[|old(nodes)|])
    {
      Alternate(allocs);
      if x == 0 {
        Alloc1();
      } else {
        Alloc2();
      }
      x := (x + 1) % 2;
      allocs := allocs + 1;
    }

    /** On an empty list free(NULL) does nothing. */
    method Dealloc()
      requires Valid()
      modifies this
      ensures Valid() && allocs == old(allocs)
      ensures frees == old(frees) + (if old(nodes) == [] then 0 else 1)
      ensures nodes == if old(nodes) == [] then [] else old(nodes)[1..]
    {
      var ele := root;
      if root != null {
        assert |nodes| > 1 ==> nodes[0].next == nodes[1];
        root := ele.next;
        nodes, live, frees := nodes[1..], live - {nodes[0]}, frees + 1;
      }
    }
  }

  /** The program's own run: 4000 allocations, 15 deallocations, 3985 blocks leaked. */
  method Demo() returns (list: AlphaList)
    ensures fresh(list) && list.Valid() && |list.nodes| == 3985
    ensures list.nodes[0].attr == 7 && list.nodes[3984].attr == 1999
  {
    list := new AlphaList();
    for i := 0 to 4000
      invariant list.Valid() && list.allocs == i && list.frees == 0 && fresh(list) && fresh(list.nodes)
    {
      list.Alloc();
    }
    for i := 0 to 15
      invariant list.Valid() && list.allocs == 4000 && list.frees == i && fresh(list) && fresh(list.nodes)
    {
      list.Dealloc();
    }
  }

  datatype Op = AllocOp | DeallocOp

  /** What any sequence of operations does to the two counts: deallocations of an empty list are
      not counted. */
  function Counts(ops: seq<Op>): (c: (nat, nat))
    ensures c.1 <= c.0
  {
    if ops == [] then (0, 0)
    else
      var (a, d) := Counts(ops[..|ops| - 1]);
      if ops[|ops| - 1].AllocOp? then (a + 1, d) else if d < a then (a, d + 1) else (a, d)
  }

  /** Any interleaving: the attributes are always the window, and the list is well formed. */
  method Perform(ops: seq<Op>) returns (list: AlphaList)
    ensures fresh(list) && list.Valid() && (list.allocs, list.frees) == Counts(ops)
  {
    list := new AlphaList();
    for i := 0 to |ops|
      invariant fresh(list) && fresh(list.nodes) && list.Valid() && (list.allocs, list.frees) == Counts(ops[..i])
    {
      assert ops[..i + 1][..i] == ops[..i];
      match ops[i]
      case AllocOp => list.Alloc();
      case DeallocOp => list.Dealloc();
    }
    assert ops[..|ops|] == ops;
  }
}
