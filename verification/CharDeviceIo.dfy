/** open, read and write of the multi-device character driver: fixed 256-byte buffers, one per
    device, shared by all files opened on it; each file has its own offset. */
module CharDeviceIo {
  import opened Basics

  const BUFFER_SIZE: nat := 256
  const EFAULT := 14
  const ENODEV := 19

  /** strnlen: the first NUL, or the whole length. */
  function StrnLen(s: seq<byte>): (n: nat)
    ensures n <= |s| && (n < |s| ==> s[n] == 0)
    ensures forall i :: 0 <= i < n ==> s[i] != 0
  {
    if s == [] || s[0] == 0 then 0 else 1 + StrnLen(s[1..])
  }

  function Min(a: nat, b: nat): nat {
    if a < b then a else b
  }

  /** What a buffer's reader may see of it. */
  function Visible(buffer: seq<byte>): seq<byte> {
    buffer[..StrnLen(buffer)]
  }

  /** What a write of d is meant to leave: d cut at 255 bytes and at its first NUL. */
  function Text(d: seq<byte>): seq<byte> {
    Visible(d[..Min(|d|, BUFFER_SIZE - 1)])
  }

  /** Up to 255 bytes are kept whole, up to their first NUL if they have one; of more, the first
      255. */
  lemma TextKeeps(d: seq<byte>)
    ensures Text(d) <= d && |Text(d)| <= 255 && 0 !in Text(d)
    ensures |Text(d)| < |d| && |Text(d)| < 255 ==> d[|Text(d)|] == 0
    ensures 0 !in d && |d| <= 255 ==> Text(d) == d
  {
  }

  function Written(buffer: seq<byte>, d: seq<byte>): seq<byte>
    requires |buffer| == BUFFER_SIZE
  {
    var n := Min(|d|, BUFFER_SIZE - 1);
    d[..n] + [0] + buffer[n + 1..]
  }

  datatype Copy = Copied | FaultAfter(k: nat)   // a user-space copy that fails has done k bytes

  /** What copy_from_user leaves when it fails after k bytes: the rest of the n it was asked for
      is filled with zeros. */
  function FaultedCopy(buffer: seq<byte>, d: seq<byte>, k: nat): seq<byte>
    requires |buffer| == BUFFER_SIZE && k < Min(|d|, BUFFER_SIZE - 1)
  {
    var n := Min(|d|, BUFFER_SIZE - 1);
    d[..k] + seq(n - k, _ => 0) + buffer[n..]
  }

  function Slice(buffer: seq<byte>, pos: nat, count: nat): seq<byte> {
    var len := StrnLen(buffer);
    if pos >= len then [] else buffer[pos..pos + Min(count, len - pos)]
  }

  lemma WrittenIsVisible(buffer: seq<byte>, d: seq<byte>)
    requires |buffer| == BUFFER_SIZE
    ensures |Written(buffer, d)| == BUFFER_SIZE && Visible(Written(buffer, d)) == Text(d)
  {
    var n := Min(|d|, BUFFER_SIZE - 1);
    var w, t := Written(buffer, d), d[..Min(|d|, BUFFER_SIZE - 1)];
    assert w[n] == 0 && w[..n] == t;
    var a, b := StrnLen(w), StrnLen(t);
    assert a <= n;
    assert forall i :: 0 <= i < n ==> w[i] == t[i];
    assert a == b;
  }

  lemma FaultedCopyIsVisible(buffer: seq<byte>, d: seq<byte>, k: nat)
    requires |buffer| == BUFFER_SIZE && k < Min(|d|, BUFFER_SIZE - 1)
    ensures |FaultedCopy(buffer, d, k)| == BUFFER_SIZE && Visible(FaultedCopy(buffer, d, k)) == Visible(d[..k])
  {
    var w, t := FaultedCopy(buffer, d, k), d[..k];
    assert w[k] == 0 && w[..k] == t;
    var a, b := StrnLen(w), StrnLen(t);
    assert a <= k;
    assert forall i :: 0 <= i < k ==> w[i] == t[i];
    assert a == b;
  }

  /** A write and how its copy from user space goes. */
  datatype Writing = Writing(d: seq<byte>, copy: Copy)

  predicate Possible(w: Writing) {
    w.copy.FaultAfter? ==> w.copy.k < Min(|w.d|, BUFFER_SIZE - 1)
  }

  ghost predicate AllPossible(ws: seq<Writing>) {
    forall i :: 0 <= i < |ws| ==> Possible(ws[i])
  }

  ghost function AfterWrites(buffer: seq<byte>, ws: seq<Writing>): (b: seq<byte>)
    requires |buffer| == BUFFER_SIZE && AllPossible(ws)
    ensures |b| == BUFFER_SIZE
  {
    if ws == [] then buffer
    else
      var b, w := AfterWrites(buffer, ws[..|ws| - 1]), ws[|ws| - 1];
      match w.copy
      case Copied => Written(b, w.d)
      case FaultAfter(k) => FaultedCopy(b, w.d, k)
  }

  /** The uninitialised bytes of a buffer are never seen: a fresh buffer is empty, and after any
      writes, failed ones included, a reader sees just what the last one copied. */
  lemma {:induction false} OnlyWritesAreVisible(buffer: seq<byte>, ws: seq<Writing>)
    requires |buffer| == BUFFER_SIZE && buffer[0] == 0 && AllPossible(ws)
    ensures Visible(AfterWrites(buffer, ws)) ==
            if ws == [] then []
            else match ws[|ws| - 1].copy
                 case Copied => Text(ws[|ws| - 1].d)
                 case FaultAfter(k) => Visible(ws[|ws| - 1].d[..k])
  {
    if ws == [] {
    } else {
      var b, w := AfterWrites(buffer, ws[..|ws| - 1]), ws[|ws| - 1];
      match w.copy
      case Copied => WrittenIsVisible(b, w.d);
      case FaultAfter(k) => FaultedCopyIsVisible(b, w.d, k);
    }
  }

  /** The bytes returned by consecutive reads from offset 0, joined, and the final offset. */
  function ReadRun(buffer: seq<byte>, counts: seq<nat>): (seq<byte>, nat) {
    if counts == [] then ([], 0)
    else
      var (got, pos) := ReadRun(buffer, counts[..|counts| - 1]);
      var more := Slice(buffer, pos, counts[|counts| - 1]);
      (got + more, pos + |more|)
  }

  lemma {:induction false} ReadRunStep(buffer: seq<byte>, counts: seq<nat>, i: nat)
    requires i < |counts|
    ensures var (got, pos) := ReadRun(buffer, counts[..i]);
            ReadRun(buffer, counts[..i + 1]) ==
            (got + Slice(buffer, pos, counts[i]), pos + |Slice(buffer, pos, counts[i])|)
  {
    assert counts[..i + 1][..i] == counts[..i];
  }

  lemma SliceExtends(buffer: seq<byte>, pos: nat, count: nat)
    requires pos <= StrnLen(buffer)
    ensures |Slice(buffer, pos, count)| == Min(count, StrnLen(buffer) - pos)
    ensures Visible(buffer)[..pos] + Slice(buffer, pos, count) == Visible(buffer)[..pos + |Slice(buffer, pos, count)|]
  {
  }

  /** Consecutive reads return consecutive pieces of the visible text, and how far they get is
      exactly what was asked for, cut at the end of the text. */
  lemma {:induction false} ReadRunIsPrefix(buffer: seq<byte>, counts: seq<nat>)
    ensures var (got, pos) := ReadRun(buffer, counts);
            Sum(counts) >= 0 && pos == Min(Sum(counts), StrnLen(buffer)) && got == Visible(buffer)[..pos]
  {
    if counts == [] {
    } else {
      ReadRunIsPrefix(buffer, counts[..|counts| - 1]);
      SliceExtends(buffer, ReadRun(buffer, counts[..|counts| - 1]).1, counts[|counts| - 1]);
    }
  }

  /** After a write, any reads from the start return a prefix of the text written; they return
      all of it exactly when they ask for enough, and then nothing more, ever. */
  lemma {:induction false} WriteThenRead(buffer: seq<byte>, d: seq<byte>, counts: seq<nat>, next: nat)
    requires |buffer| == BUFFER_SIZE
    ensures var (got, pos) := ReadRun(Written(buffer, d), counts);
            && got <= Text(d) && pos == |got|
            && (got == Text(d) <==> Sum(counts) >= |Text(d)|)
            && (got == Text(d) ==> Slice(Written(buffer, d), pos, next) == [])
  {
    WrittenIsVisible(buffer, d);
    ReadRunIsPrefix(Written(buffer, d), counts);
    assert Text(d)[..|Text(d)|] == Text(d);
  }

  lemma {:induction false} SumOfPositive(counts: seq<nat>)
    requires forall i :: 0 <= i < |counts| ==> counts[i] > 0
    ensures Sum(counts) >= |counts|
  {
    if counts == [] {
    } else {
      SumOfPositive(counts[..|counts| - 1]);
    }
  }

  /** One-byte reads are the slowest that still finish: as many reads as there are bytes return
      all of the text written. */
  lemma {:induction false} PositiveReadsFinish(buffer: seq<byte>, d: seq<byte>, counts: seq<nat>)
    requires |buffer| == BUFFER_SIZE && |counts| >= |Text(d)|
    requires forall i :: 0 <= i < |counts| ==> counts[i] > 0
    ensures ReadRun(Written(buffer, d), counts).0 == Text(d)
  {
    SumOfPositive(counts);
    WriteThenRead(buffer, d, counts, 0);
  }

  /** struct file with its private data and offset. */
  class SkeletonFile {
    const data: array<byte>
    var pos: nat

    constructor (data: array<byte>)
      ensures this.data == data && pos == 0
    {
      this.data := data;
      pos := 0;
    }

    method Read(count: nat, copy: Copy) returns (status: int, bytes: seq<byte>)
      requires data.Length == BUFFER_SIZE
      modifies this
      ensures copy.Copied? || Slice(data[..], old(pos), count) == [] ==>
                bytes == Slice(data[..], old(pos), count) && status == |bytes| && pos == old(pos) + |bytes|
      ensures copy.FaultAfter? && Slice(data[..], old(pos), count) != [] ==>
                bytes == [] && status == -EFAULT && pos == old(pos)
    {
      var len := StrnLen(data[..]);
      if pos >= len {
        return 0, [];
      }
      var n := count;
      if n > len - pos {
        n := len - pos;
      }
      if n > 0 && copy.FaultAfter? {
        return -EFAULT, [];
      }
      bytes := data[pos..pos + n];
      pos := pos + n;
      status := n;
    }

    method Write(d: seq<byte>, copy: Copy) returns (status: int)
      requires data.Length == BUFFER_SIZE
      requires copy.FaultAfter? ==> copy.k < Min(|d|, BUFFER_SIZE - 1)
      modifies this, data
      ensures copy.Copied? ==>
                data[..] == Written(old(data[..]), d) && pos == 0 && status == Min(|d|, BUFFER_SIZE - 1)
      ensures copy.FaultAfter? ==>
                data[..] == FaultedCopy(old(data[..]), d, copy.k) && pos == old(pos) && status == -EFAULT
    {
      var n := Min(|d|, BUFFER_SIZE - 1);
      var done := if copy.Copied? then n else copy.k;
      forall i | 0 <= i < n {
        data[i] := if i < done then d[i] else 0;
      }
      if copy.FaultAfter? {
        return -EFAULT;
      }
      data[n] := 0;
      pos := 0;
      status := n;
    }
  }

  datatype Opened = File(file: SkeletonFile) | NoDevice(status: int)

  /** A user reading a freshly opened or freshly written file piece by piece. */
  method ReadMany(f: SkeletonFile, counts: seq<nat>) returns (got: seq<byte>)
    requires f.data.Length == BUFFER_SIZE && f.pos == 0
    modifies f
    ensures got == ReadRun(f.data[..], counts).0 && f.pos == ReadRun(f.data[..], counts).1
  {
    ghost var buffer := f.data[..];
    got := [];
    for i := 0 to |counts|
      invariant f.data[..] == buffer
      invariant ReadRun(buffer, counts[..i]).0 == got
      invariant ReadRun(buffer, counts[..i]).1 == f.pos
    {
      ReadRunStep(buffer, counts, i);
      ghost var before := f.pos;
      var status, bytes := f.Read(counts[i], Copied);
      assert f.data[..] == buffer;
      assert bytes == Slice(buffer, before, counts[i]);
      got := got + bytes;
    }
    assert counts[..|counts|] == counts;
  }

  /** The loaded driver: minors from `firstMinor` on, one buffer each. */
  class Skeleton {
    const firstMinor: int
    const buffers: seq<array<byte>>

    ghost predicate Valid()
      reads buffers
    {
      && (forall i :: 0 <= i < |buffers| ==> buffers[i].Length == BUFFER_SIZE)
      && (forall i, j :: 0 <= i < j < |buffers| ==> buffers[i] != buffers[j])
    }

    constructor (firstMinor: int, n: nat)
      ensures Valid() && this.firstMinor == firstMinor && |buffers| == n
      ensures forall i :: 0 <= i < n ==> fresh(buffers[i]) && Visible(buffers[i][..]) == []
    {
      var made: seq<array<byte>> := [];
      for k := 0 to n
        invariant |made| == k && fresh(made)
        invariant forall i :: 0 <= i < k ==> made[i].Length == BUFFER_SIZE && made[i][0] == 0
        invariant forall i, j :: 0 <= i < j < k ==> made[i] != made[j]
      {
        var a := new byte[BUFFER_SIZE];
        a[0] := 0;
        made := made + [a];
      }
      this.firstMinor := firstMinor;
      this.buffers := made;
    }

    method Open(minor: int) returns (r: Opened)
      requires Valid()
      ensures r.File? <==> 0 <= minor - firstMinor < |buffers|
      ensures r.File? ==> r.file.data == buffers[minor - firstMinor] && r.file.pos == 0 && fresh(r.file)
      ensures r.NoDevice? ==> r.status == -ENODEV
    {
      var idx := minor - firstMinor;
      if idx < 0 || idx >= |buffers| {
        return NoDevice(-ENODEV);
      }
      var f := new SkeletonFile(buffers[idx]);
      r := File(f);
    }

    /** A write on one device, seen from the whole driver, and the reads that follow it: piece by
        piece on the same file, then on a second file opened on the same device. */
    method WriteAndRead(minor: int, d: seq<byte>, counts: seq<nat>)
      returns (status: int, got: seq<byte>, again: seq<byte>)
      requires Valid()
      modifies buffers
      ensures Valid()
      ensures forall j :: 0 <= j < |buffers| && j != minor - firstMinor ==> buffers[j][..] == old(buffers[j][..])
      ensures 0 <= minor - firstMinor < |buffers| ==>
                && status == (if |d| <= 255 then |d| else 255)
                && buffers[minor - firstMinor][..] == Written(old(buffers[minor - firstMinor][..]), d)
                && got == again && got <= Text(d)
                && (got == Text(d) <==> Sum(counts) >= |Text(d)|)
      ensures !(0 <= minor - firstMinor < |buffers|) ==> status == -19 && got == again == []
    {
      got, again := [], [];
      var r := Open(minor);
      match r
      case NoDevice(code) =>
        status := code;
      case File(f) =>
        ghost var before := f.data[..];
        status := f.Write(d, Copied);
        WriteThenRead(before, d, counts, 0);
        got := ReadMany(f, counts);
        var other := new SkeletonFile(f.data);
        again := ReadMany(other, counts);
    }
  }
}
