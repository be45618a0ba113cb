/** `SplitChunks` and `MapRangeToParts`: parts of a file and slices of its parts. */
module Chunks {
  import opened Wrappers

  function Flatten<T>(parts: seq<seq<T>>): seq<T> {
    if parts == [] then [] else Flatten(parts[..|parts| - 1]) + parts[|parts| - 1]
  }

  lemma FlattenAdd<T>(parts: seq<seq<T>>, p: seq<T>)
    ensures Flatten(parts + [p]) == Flatten(parts) + p
  {
    assert (parts + [p])[..|parts|] == parts;
  }

  lemma FlattenNone<T>()
    ensures Flatten<T>([]) == []
  {}

  lemma {:induction false} FlattenCat<T>(a: seq<seq<T>>, b: seq<seq<T>>)
    ensures Flatten(a + b) == Flatten(a) + Flatten(b)
    decreases |b|
  {
    hide Flatten;
    if b == [] {
      assert a + b == a;
      assert Flatten(b) == [] by { FlattenNone<T>(); }
    } else {
      var before, p := b[..|b| - 1], b[|b| - 1];
      FlattenCat(a, before);
      FlattenAdd(a + before, p);
      FlattenAdd(before, p);
      assert b == before + [p] && a + b == (a + before) + [p];
    }
  }

  // ---- splitting ----

  function Min(a: int, b: int): int {
    if a < b then a else b
  }

  /** The i-th stretch of `size` bytes. */
  function Chunk<T>(data: seq<T>, size: nat, i: nat): seq<T> {
    data[Min(i * size, |data|)..Min((i + 1) * size, |data|)]
  }

  /** How many stretches hold the data: one for empty data. */
  function ChunkCount(length: nat, size: nat): nat
    requires size > 0
  {
    if length == 0 then 1 else (length + size - 1) / size
  }

  /** Full chunks, then one that is not empty unless it is the only one. */
  ghost predicate Regular<T>(parts: seq<seq<T>>, size: nat) {
    && parts != [] && (forall i | 0 <= i < |parts| - 1 :: |parts[i]| == size)
    && |parts[|parts| - 1]| <= size && (|parts| > 1 ==> parts[|parts| - 1] != [])
  }

  /** The first `n` chunks. */
  function FirstChunks<T>(data: seq<T>, size: nat, n: nat): seq<seq<T>> {
    seq(n, i requires 0 <= i => Chunk(data, size, i))
  }

  lemma FirstChunksStep<T>(data: seq<T>, size: nat, n: nat)
    ensures FirstChunks(data, size, n + 1) == FirstChunks(data, size, n) + [Chunk(data, size, n)]
  {}

  lemma {:induction false} FirstChunksFlatten<T>(data: seq<T>, size: nat, n: nat)
    ensures Flatten(FirstChunks(data, size, n)) == data[..Min(n * size, |data|)]
    decreases n
  {
    if n > 0 {
      hide Flatten, FirstChunks, Chunk, Min;
      FirstChunksFlatten(data, size, n - 1);
      FirstChunksStep(data, size, n - 1);
      FlattenAdd(FirstChunks(data, size, n - 1), Chunk(data, size, n - 1));
      ChunkExtends(data, size, n - 1, n);
    } else {
      assert FirstChunks(data, size, 0) == [];
    }
  }

  lemma ChunkExtends<T>(data: seq<T>, size: nat, i: nat, j: nat)
    requires j == i + 1
    ensures data[..Min(i * size, |data|)] + Chunk(data, size, i) == data[..Min(j * size, |data|)]
  {
    Monotone(i, j, size);
    ChunkIs(data, size, i, j);
  }

  lemma ChunkIs<T>(data: seq<T>, size: nat, i: nat, j: nat)
    requires j == i + 1 && Min(i * size, |data|) <= Min(j * size, |data|)
    ensures Chunk(data, size, i) == data[Min(i * size, |data|)..Min(j * size, |data|)]
  {}

  lemma Monotone(i: nat, j: nat, size: nat)
    requires i <= j
    ensures i * size <= j * size
  {}

  lemma CountBounds(length: nat, size: nat)
    requires size > 0 && length > 0
    ensures ChunkCount(length, size) >= 1
    ensures (ChunkCount(length, size) - 1) * size < length <= ChunkCount(length, size) * size
  {
    var n := (length + size - 1) / size;
    assert n * size + (length + size - 1) % size == length + size - 1;
    assert (n - 1) * size == n * size - size;
  }

  /** There is exactly one way to cut data into regular chunks. */
  lemma {:induction false} RegularUnique<T>(parts: seq<seq<T>>, size: nat)
    requires size > 0 && Regular(parts, size)
    ensures |parts| == ChunkCount(|Flatten(parts)|, size)
    ensures parts == FirstChunks(Flatten(parts), size, |parts|)
  {
    hide Flatten, Chunk, ChunkCount;
    var data := Flatten(parts);
    var n := |parts|;
    var before, last := parts[..n - 1], parts[n - 1];
    FullChunks(before, size);
    assert parts == before + [last];
    FlattenAdd(before, last);
    assert n * size == (n - 1) * size + size;
    CountIs(|data|, size, n);
    forall i | 0 <= i < n ensures parts[i] == Chunk(data, size, i) {
      if i < n - 1 {
        assert before[i] == Chunk(Flatten(before), size, i);
        PrefixChunk(Flatten(before), data, size, i, n - 1);
      } else {
        LastChunk(Flatten(before), last, size, n - 1);
      }
    }
  }

  lemma LastChunk<T>(before: seq<T>, last: seq<T>, size: nat, n: nat)
    requires |before| == n * size && |last| <= size
    ensures Chunk(before + last, size, n) == last
  {
    assert (n + 1) * size == n * size + size;
  }

  lemma PrefixChunk<T>(before: seq<T>, data: seq<T>, size: nat, i: nat, n: nat)
    requires i < n && |before| == n * size && before <= data
    ensures Chunk(before, size, i) == Chunk(data, size, i)
  {
    Monotone(i, i + 1, size);
    Monotone(i + 1, n, size);
  }

  lemma {:induction false} FullChunks<T>(parts: seq<seq<T>>, size: nat)
    requires forall i | 0 <= i < |parts| :: |parts[i]| == size
    ensures |Flatten(parts)| == |parts| * size
    ensures forall i | 0 <= i < |parts| :: parts[i] == Chunk(Flatten(parts), size, i)
    decreases |parts|
  {
    if parts != [] {
      var n := |parts| - 1;
      var before := parts[..n];
      FullChunks(before, size);
      FlattenAdd(before, parts[n]);
      assert parts == before + [parts[n]];
      assert (n + 1) * size == n * size + size;
      forall i | 0 <= i < |parts| ensures parts[i] == Chunk(Flatten(parts), size, i) {
        if i < n {
          assert before[i] == parts[i];
          PrefixChunk(Flatten(before), Flatten(parts), size, i, n);
        }
      }
    }
  }

  lemma CountIs(length: nat, size: nat, n: nat)
    requires size > 0 && n >= 1
    requires if length == 0 then n == 1 else (n - 1) * size < length <= n * size
    ensures n == ChunkCount(length, size)
  {
    if length > 0 {
      CountBounds(length, size);
      var m := ChunkCount(length, size);
      if n < m {
        Monotone(n, m - 1, size);
      } else if m < n {
        Monotone(m, n - 1, size);
      }
    }
  }

  /** `SplitChunks`; a chunk size that is not positive is a panic. */
  method SplitChunks<T>(data: seq<T>, size: nat) returns (out: seq<seq<T>>)
    requires size > 0
    ensures Flatten(out) == data && Regular(out, size)
    ensures |out| == ChunkCount(|data|, size)
  {
    if |data| == 0 {
      out := [data];
      assert Flatten(out) == data;
      return;
    }
    out := [];
    var i := 0;
    while i < |data|
      invariant i == |out| * size && (out != [] ==> (|out| - 1) * size < |data|)
      invariant out == FirstChunks(data, size, |out|)
      decreases |data| - i
    {
      var end := i + size;
      if end > |data| {
        end := |data|;
      }
      assert (|out| + 1) * size == |out| * size + size;
      FirstChunksStep(data, size, |out|);
      out := out + [data[i..end]];
      i := i + size;
    }
    FirstChunksFlatten(data, size, |out|);
    CountIs(|data|, size, |out|);
    ChunkLengths(data, size, |out|);
  }

  lemma ChunkLengths<T>(data: seq<T>, size: nat, n: nat)
    requires size > 0 && n >= 1 && (n - 1) * size < |data| <= n * size
    ensures Regular(FirstChunks(data, size, n), size)
  {
    var parts := FirstChunks(data, size, n);
    forall i | 0 <= i < n - 1 ensures |parts[i]| == size {
      Monotone(i + 1, n - 1, size);
      assert (i + 1) * size == i * size + size;
    }
    assert n * size == (n - 1) * size + size;
  }

  // ---- ranges ----

  /** A read: `take` bytes of part `partNo` after `skip`. */
  datatype PartRange = PartRange(partNo: nat, skip: nat, take: nat)

  function Sum(sizes: seq<nat>): nat {
    if sizes == [] then 0 else Sum(sizes[..|sizes| - 1]) + sizes[|sizes| - 1]
  }

  lemma SumAdd(sizes: seq<nat>, n: nat)
    ensures Sum(sizes + [n]) == Sum(sizes) + n
  {
    assert (sizes + [n])[..|sizes|] == sizes;
  }

  function Sizes<T>(parts: seq<seq<T>>): (sizes: seq<nat>)
    ensures |sizes| == |parts|
  {
    seq(|parts|, i requires 0 <= i < |parts| => |parts[i]|)
  }

  lemma {:induction false} SumFlatten<T>(parts: seq<seq<T>>)
    ensures Sum(Sizes(parts)) == |Flatten(parts)|
    decreases |parts|
  {
    if parts != [] {
      var before := parts[..|parts| - 1];
      SumFlatten(before);
      assert Sizes(parts) == Sizes(before) + [|parts[|parts| - 1]|];
      SumAdd(Sizes(before), |parts[|parts| - 1]|);
    }
  }

  /** The read the loop makes of one part, which begins at `offset`. */
  function ReadOf(i: nat, offset: nat, size: nat, start: nat, end: nat): seq<PartRange>
    requires start <= end
  {
    if end < offset || start > offset + size - 1 then []
    else
      var skip := if start > offset then start - offset else 0;
      [PartRange(i, skip, Min(end, offset + size - 1) - (offset + skip) + 1)]
  }

  function Reads(sizes: seq<nat>, start: nat, end: nat): seq<PartRange>
    requires start <= end
  {
    if sizes == [] then []
    else
      var n := |sizes| - 1;
      Reads(sizes[..n], start, end) + ReadOf(n, Sum(sizes[..n]), sizes[n], start, end)
  }

  ghost predicate Fits(rs: seq<PartRange>, sizes: seq<nat>) {
    forall k | 0 <= k < |rs| :: rs[k].partNo < |sizes| && rs[k].skip + rs[k].take <= sizes[rs[k].partNo]
  }

  /** The bytes the reads bring, in order. */
  function Gather<T>(parts: seq<seq<T>>, rs: seq<PartRange>): seq<T>
    requires Fits(rs, Sizes(parts))
  {
    if rs == [] then []
    else
      var r := rs[|rs| - 1];
      Gather(parts, rs[..|rs| - 1]) + parts[r.partNo][r.skip..r.skip + r.take]
  }

  /** `data[start..end + 1]`, cut to the data there is. */
  function Slice<T>(data: seq<T>, start: nat, end: nat): seq<T>
    requires start <= end
  {
    data[Min(start, |data|)..Min(end + 1, |data|)]
  }

  /** Parts strictly in order, each read inside its part, and an empty read only
      of an empty part. */
  ghost predicate InOrder(rs: seq<PartRange>, sizes: seq<nat>) {
    && Fits(rs, sizes)
    && (forall j, k | 0 <= j < k < |rs| :: rs[j].partNo < rs[k].partNo)
    && (forall k | 0 <= k < |rs| && rs[k].take == 0 :: sizes[rs[k].partNo] == 0)
  }

  lemma {:induction false} ReadsInOrder(sizes: seq<nat>, start: nat, end: nat)
    requires start <= end
    ensures InOrder(Reads(sizes, start, end), sizes)
    decreases |sizes|
  {
    hide ReadOf, InOrder;
    if sizes == [] {
      assert InOrder([], sizes) by { OrderNone(sizes); }
    } else {
      var n := |sizes| - 1;
      ReadsInOrder(sizes[..n], start, end);
      OrderStep(Reads(sizes[..n], start, end), sizes, n, Sum(sizes[..n]), start, end);
    }
  }

  lemma OrderNone(sizes: seq<nat>)
    ensures InOrder([], sizes)
  {}

  lemma OrderStep(rs: seq<PartRange>, sizes: seq<nat>, n: nat, offset: nat, start: nat, end: nat)
    requires n < |sizes| && start <= end && InOrder(rs, sizes[..n])
    ensures InOrder(rs + ReadOf(n, offset, sizes[n], start, end), sizes)
  {
    var b := ReadOf(n, offset, sizes[n], start, end);
    var all := rs + b;
    forall k | 0 <= k < |all|
      ensures all[k].partNo < |sizes| && all[k].skip + all[k].take <= sizes[all[k].partNo] &&
        (all[k].take == 0 ==> sizes[all[k].partNo] == 0)
    {
      if k < |rs| {
        assert all[k] == rs[k] && rs[k].partNo < n && sizes[..n][rs[k].partNo] == sizes[rs[k].partNo];
      } else {
        assert all[k] == b[0];
      }
    }
    forall j, k | 0 <= j < k < |all| ensures all[j].partNo < all[k].partNo {
      assert all[j] == rs[j] && rs[j].partNo < n;
      if k < |rs| {
        assert all[k] == rs[k];
      } else {
        assert all[k] == b[0];
      }
    }
  }

  lemma {:induction false} GatherCat<T>(parts: seq<seq<T>>, before: seq<seq<T>>, a: seq<PartRange>, b: seq<PartRange>)
    requires before <= parts && Fits(a, Sizes(before)) && Fits(b, Sizes(parts)) && |b| <= 1
    ensures Fits(a + b, Sizes(parts))
    ensures Gather(parts, a + b) == Gather(before, a) + Gather(parts, b)
    decreases |a|
  {
    assert Fits(a, Sizes(parts));
    GatherPrefix(parts, before, a);
    if b == [] {
      assert a + b == a;
    } else {
      assert (a + b)[..|a|] == a;
      assert b[..0] == [];
    }
  }

  lemma {:induction false} GatherPrefix<T>(parts: seq<seq<T>>, before: seq<seq<T>>, a: seq<PartRange>)
    requires before <= parts && Fits(a, Sizes(before)) && Fits(a, Sizes(parts))
    ensures Gather(parts, a) == Gather(before, a)
    decreases |a|
  {
    if a != [] {
      GatherPrefix(parts, before, a[..|a| - 1]);
    }
  }

  /** The reads bring exactly the requested bytes. */
  lemma {:induction false} ReadsBringSlice<T>(parts: seq<seq<T>>, start: nat, end: nat)
    requires start <= end
    ensures InOrder(Reads(Sizes(parts), start, end), Sizes(parts))
    ensures Gather(parts, Reads(Sizes(parts), start, end)) == Slice(Flatten(parts), start, end)
    decreases |parts|
  {
    hide Flatten, Gather, Fits, Sum, Slice, ReadOf, InOrder;
    ReadsInOrder(Sizes(parts), start, end);
    OrderFits(Reads(Sizes(parts), start, end), Sizes(parts));
    if parts != [] {
      var n := |parts| - 1;
      var before := parts[..n];
      ReadsBringSlice(before, start, end);
      ReadsInOrder(Sizes(before), start, end);
      OrderFits(Reads(Sizes(before), start, end), Sizes(before));
      assert Sizes(parts)[..n] == Sizes(before);
      SumFlatten(before);
      var b := ReadOf(n, |Flatten(before)|, |parts[n]|, start, end);
      ReadFits(parts, n, |Flatten(before)|, start, end);
      GatherCat(parts, before, Reads(Sizes(before), start, end), b);
      OnePart(parts, n, b, start, end);
    } else {
      NothingGathered<T>(start, end);
    }
  }

  lemma NothingGathered<T>(start: nat, end: nat)
    requires start <= end
    ensures Fits([], Sizes<T>([])) && Gather<T>([], []) == Slice<T>(Flatten<T>([]), start, end)
  {}

  lemma OrderFits(rs: seq<PartRange>, sizes: seq<nat>)
    requires InOrder(rs, sizes)
    ensures Fits(rs, sizes)
  {}

  lemma ReadFits<T>(parts: seq<seq<T>>, n: nat, offset: nat, start: nat, end: nat)
    requires n < |parts| && start <= end
    ensures Fits(ReadOf(n, offset, |parts[n]|, start, end), Sizes(parts)) &&
      |ReadOf(n, offset, |parts[n]|, start, end)| <= 1
  {}

  lemma OnePart<T>(parts: seq<seq<T>>, n: nat, b: seq<PartRange>, start: nat, end: nat)
    requires n + 1 == |parts| && start <= end
    requires b == ReadOf(n, |Flatten(parts[..n])|, |parts[n]|, start, end) && Fits(b, Sizes(parts))
    ensures Slice(Flatten(parts), start, end) == Slice(Flatten(parts[..n]), start, end) + Gather(parts, b)
  {
    var x, y := Flatten(parts[..n]), parts[n];
    assert b != [] ==> b[..0] == [];
    assert Flatten(parts) == x + y;
    SliceCat(x, y, start, end);
    if b == [] {
      assert Slice(x + y, start, end) == Slice(x, start, end);
    } else {
      assert Gather(parts, b) == y[b[0].skip..b[0].skip + b[0].take];
    }
  }

  lemma SliceCat<T>(x: seq<T>, y: seq<T>, start: nat, end: nat)
    requires start <= end
    ensures var from := if start > |x| then start - |x| else 0;
      var to := if end + 1 > |x| then end + 1 - |x| else 0;
      Slice(x + y, start, end) == Slice(x, start, end) + y[Min(from, |y|)..Min(to, |y|)]
  {}

  lemma NoSizes(sizes: seq<nat>, start: int, end: int)
    ensures Sum(sizes[..0]) == 0 && (0 <= start <= end ==> Reads(sizes[..0], start, end) == [])
  {}

  lemma ReadsStep(sizes: seq<nat>, i: nat, start: nat, end: nat)
    requires i < |sizes| && start <= end
    ensures Reads(sizes[..i + 1], start, end) ==
      Reads(sizes[..i], start, end) + ReadOf(i, Sum(sizes[..i]), sizes[i], start, end)
  {
    assert sizes[..i + 1][..i] == sizes[..i];
  }

  /** `MapRangeToParts`. */
  method MapRangeToParts(sizes: seq<nat>, start: int, end: int) returns (r: Result<seq<PartRange>, ()>)
    ensures r.Err? <==> start < 0 || end < start || end >= Sum(sizes)
    ensures r.Ok? ==> r.value == Reads(sizes, start, end) && InOrder(r.value, sizes)
  {
    hide InOrder, Sum, Reads;
    if start < 0 || end < start {
      return Err(());
    }
    var total := 0;
    NoSizes(sizes, start, end);
    var i := 0;
    while i < |sizes|
      invariant 0 <= i <= |sizes| && total == Sum(sizes[..i])
    {
      SumAdd(sizes[..i], sizes[i]);
      assert sizes[..i + 1] == sizes[..i] + [sizes[i]];
      total := total + sizes[i];
      i := i + 1;
    }
    assert sizes[..i] == sizes;
    if end >= total {
      return Err(());
    }
    var out: seq<PartRange> := [];
    var offset: int := 0;
    i := 0;
    while i < |sizes|
      invariant 0 <= i <= |sizes| && offset == Sum(sizes[..i])
      invariant out == Reads(sizes[..i], start, end)
    {
      var size: int := sizes[i];
      var partStart := offset;
      var partEnd := offset + size - 1;
      SumAdd(sizes[..i], size);
      assert sizes[..i + 1] == sizes[..i] + [sizes[i]];
      ReadsStep(sizes, i, start, end);
      offset := offset + size;
      if !(end < partStart || start > partEnd) {
        var skip: int := 0;
        if start > partStart {
          skip := start - partStart;
        }
        var takeEnd := partEnd;
        if end < partEnd {
          takeEnd := end;
        }
        var take := takeEnd - (partStart + skip) + 1;
        out := out + [PartRange(i, skip, take)];
      }
      i := i + 1;
    }
    assert sizes[..i] == sizes;
    ReadsInOrder(sizes, start, end);
    r := Ok(out);
  }
}
