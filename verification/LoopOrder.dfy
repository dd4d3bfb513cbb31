/** The two loop orders of the cache exercise leave the same array. */
module LoopOrder {

  /** The array after every cell was incremented `k` times. */
  twostate predicate Raised(a: array2<int>, k: nat)
    reads a
  {
    forall i, j :: 0 <= i < a.Length0 && 0 <= j < a.Length1 ==> a[i, j] == old(a[i, j]) + k
  }

  method RowOrder(a: array2<int>, repeats: nat)
    requires a.Length0 == a.Length1
    modifies a
    ensures Raised(a, repeats)
  {
    for k := 0 to repeats
      invariant Raised(a, k)
    {
      for i := 0 to a.Length0
        invariant forall p, q :: 0 <= p < a.Length0 && 0 <= q < a.Length1 ==>
                    a[p, q] == old(a[p, q]) + k + if p < i then 1 else 0
      {
        for j := 0 to a.Length1
          invariant forall p, q :: 0 <= p < a.Length0 && 0 <= q < a.Length1 ==>
                      a[p, q] == old(a[p, q]) + k + if p < i || (p == i && q < j) then 1 else 0
        {
          a[i, j] := a[i, j] + 1;
        }
      }
    }
  }

  method ColumnOrder(a: array2<int>, repeats: nat)
    requires a.Length0 == a.Length1
    modifies a
    ensures Raised(a, repeats)
  {
    for k := 0 to repeats
      invariant Raised(a, k)
    {
      for i := 0 to a.Length1
        invariant forall p, q :: 0 <= p < a.Length0 && 0 <= q < a.Length1 ==>
                    a[p, q] == old(a[p, q]) + k + if q < i then 1 else 0
      {
        for j := 0 to a.Length0
          invariant forall p, q :: 0 <= p < a.Length0 && 0 <= q < a.Length1 ==>
                      a[p, q] == old(a[p, q]) + k + if q < i || (q == i && p < j) then 1 else 0
        {
          a[j, i] := a[j, i] + 1;
        }
      }
    }
  }

  /** Run on equal arrays, the two orders end in equal arrays. */
  method BothOrders(a: array2<int>, b: array2<int>, repeats: nat)
    requires a != b && a.Length0 == a.Length1 == b.Length0 == b.Length1
    requires forall i, j :: 0 <= i < a.Length0 && 0 <= j < a.Length1 ==> a[i, j] == b[i, j]
    modifies a, b
    ensures forall i, j :: 0 <= i < a.Length0 && 0 <= j < a.Length1 ==> a[i, j] == b[i, j] == old(a[i, j]) + repeats
  {
    RowOrder(a, repeats);
    label Between:
    ColumnOrder(b, repeats);
    assert forall i, j :: 0 <= i < b.Length0 && 0 <= j < b.Length1 ==> old@Between(b[i, j]) == old(b[i, j]);
  }
}
