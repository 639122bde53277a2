// Where aio-stress puts its data: one allocation, cut into the buffers of all
// units of all threads and the one that verification compares with.
module BufferLayout {
  import opened Arithmetic
  import opened Bits

  /** reclen rounded up to whole pages of mask + 1 bytes. */
  function Padded(reclen: nat, mask: nat): nat {
    (reclen + mask) / (mask + 1) * (mask + 1)
  }

  lemma PaddedFits(reclen: nat, mask: nat)
    ensures reclen <= Padded(reclen, mask) < reclen + mask + 1
    ensures Padded(reclen, mask) % (mask + 1) == 0
  {
    var n := mask + 1;
    assert reclen + mask == (reclen + mask) / n * n + (reclen + mask) % n;
    WholePages((reclen + mask) / n, n);
  }

  lemma WholePages(q: nat, n: nat)
    requires n > 0
    ensures q * n % n == 0
  {
    RemainderIs(q * n, n, q, 0);
  }

  /** Units before those of thread t. */
  function First(files: seq<nat>, depth: nat, t: nat): nat
    requires t <= |files|
  {
    if t == 0 then 0 else First(files, depth, t - 1) + depth * files[t - 1]
  }

  function Sum(files: seq<nat>, t: nat): nat
    requires t <= |files|
  {
    if t == 0 then 0 else Sum(files, t - 1) + files[t - 1]
  }

  lemma {:induction false} FirstIsSum(files: seq<nat>, depth: nat, t: nat)
    requires t <= |files|
    ensures First(files, depth, t) == depth * Sum(files, t)
  {
    if t > 0 {
      FirstIsSum(files, depth, t - 1);
    }
  }

  lemma {:induction false} FirstGrows(files: seq<nat>, depth: nat, t: nat, u: nat)
    requires t < u <= |files|
    ensures First(files, depth, t) + depth * files[t] <= First(files, depth, u)
    decreases u
  {
    if t + 1 < u {
      FirstGrows(files, depth, t, u - 1);
    }
  }

  lemma Scaled(a: nat, b: nat, n: nat)
    requires a < b
    ensures a * n + n <= b * n
  {
    var d := b - a - 1;
    assert b * n == a * n + n + d * n;
    assert 0 <= d * n;
  }

  /** Buffers of reclen bytes that have nothing in common. */
  predicate Apart(a: nat, b: nat, reclen: nat) {
    a + reclen <= b || b + reclen <= a
  }

  /** The padded length and the bytes of all units, with one more for each thread,
      are computed as ints. */
  predicate Computable(units: nat, padded: nat, numThreads: nat) {
    padded <= INT_MAX && units <= INT_MAX && units * padded + numThreads <= INT_MAX
  }

  class Buffers {
    const mask: nat
    const reclen: nat
    const depth: nat

    var paddedReclen: nat
    var alignedBuffer: nat
    var verifyBuf: nat

    constructor (mask: nat, reclen: nat, depth: nat)
      ensures this.mask == mask && this.reclen == reclen && this.depth == depth
    {
      this.mask, this.reclen, this.depth := mask, reclen, depth;
      paddedReclen, alignedBuffer, verifyBuf := 0, 0, 0;
    }

    /** setup_shared_mem, for the block at p; whether its int arithmetic
        overflows. */
    method SetupSharedMem(numThreads: nat, numFiles: nat, verify: bool, p: nat)
      returns (overflows: bool, totalRam: nat)
      modifies this
      ensures overflows <==> !Computable(depth * numFiles, Padded(reclen, mask), numThreads)
      ensures !overflows ==>
                && paddedReclen == Padded(reclen, mask)
                && totalRam == (depth * numFiles + if verify then 1 else 0) * paddedReclen + numThreads
                && alignedBuffer == AndNot(p + mask, mask)
    {
      hide AndNot;
      totalRam := 0;
      paddedReclen := (reclen + mask) / (mask + 1);
      paddedReclen := paddedReclen * (mask + 1);
      var units := numFiles * depth;
      assert units == depth * numFiles;
      if paddedReclen > INT_MAX || units > INT_MAX || units * paddedReclen + numThreads > INT_MAX {
        return true, 0;
      }
      Distributes(units, if verify then 1 else 0, paddedReclen);
      overflows, totalRam := false, units * paddedReclen + numThreads;
      if verify {
        totalRam := totalRam + paddedReclen;
      }
      alignedBuffer := AndNot(p + mask, mask);
    }

    /** setup_ious: the next buffers for the units of one thread. */
    method SetupIous(numFiles: nat, verify: bool) returns (bufs: seq<nat>)
      modifies `alignedBuffer, `verifyBuf
      ensures |bufs| == depth * numFiles
      ensures forall i :: 0 <= i < |bufs| ==> bufs[i] == old(alignedBuffer) + i * paddedReclen
      ensures alignedBuffer == old(alignedBuffer) + depth * numFiles * paddedReclen
      ensures verifyBuf == if verify then alignedBuffer else old(verifyBuf)
    {
      bufs := [];
      for i := 0 to depth * numFiles
        invariant |bufs| == i && forall k :: 0 <= k < i ==> bufs[k] == old(alignedBuffer) + k * paddedReclen
        invariant alignedBuffer == old(alignedBuffer) + i * paddedReclen && verifyBuf == old(verifyBuf)
      {
        bufs := bufs + [alignedBuffer];
        alignedBuffer := alignedBuffer + paddedReclen;
      }
      if verify {
        verifyBuf := alignedBuffer;
      }
    }
  }

  /** The slot of a unit in the allocation. */
  function Slot(files: seq<nat>, depth: nat, t: nat, i: nat): nat
    requires t < |files|
  {
    First(files, depth, t) + i
  }

  ghost predicate InSlots(bufs: seq<seq<nat>>, files: seq<nat>, depth: nat, base: nat, padded: nat) {
    && |bufs| <= |files|
    && (forall t :: 0 <= t < |bufs| ==> |bufs[t]| == depth * files[t])
    && forall t, i :: 0 <= t < |bufs| && 0 <= i < |bufs[t]| ==>
         bufs[t][i] == base + Slot(files, depth, t, i) * padded
  }

  lemma SlotsApart(bufs: seq<seq<nat>>, files: seq<nat>, depth: nat, base: nat, padded: nat,
                   t: nat, i: nat, u: nat, j: nat)
    requires InSlots(bufs, files, depth, base, padded)
    requires t < |bufs| && i < |bufs[t]| && u < |bufs| && j < |bufs[u]| && (t < u || (t == u && i < j))
    ensures bufs[t][i] + padded <= bufs[u][j]
  {
    if t < u {
      FirstGrows(files, depth, t, u);
    }
    Scaled(Slot(files, depth, t, i), Slot(files, depth, u, j), padded);
  }

  ghost predicate AllApart(bufs: seq<seq<nat>>, reclen: nat) {
    forall t, i, u, j ::
      (0 <= t < |bufs| && 0 <= i < |bufs[t]| && 0 <= u < |bufs| && 0 <= j < |bufs[u]| && (t != u || i != j)) ==>
        Apart(bufs[t][i], bufs[u][j], reclen)
  }

  ghost predicate AllApartFrom(bufs: seq<seq<nat>>, b: nat, reclen: nat) {
    forall t, i :: 0 <= t < |bufs| && 0 <= i < |bufs[t]| ==> Apart(bufs[t][i], b, reclen)
  }

  ghost predicate AllInside(bufs: seq<seq<nat>>, low: nat, high: nat, reclen: nat) {
    forall t, i :: 0 <= t < |bufs| && 0 <= i < |bufs[t]| ==> low <= bufs[t][i] && bufs[t][i] + reclen <= high
  }

  ghost predicate AllAligned(bufs: seq<seq<nat>>, n: nat)
    requires n > 0
  {
    forall t, i :: 0 <= t < |bufs| && 0 <= i < |bufs[t]| ==> bufs[t][i] % n == 0
  }

  lemma SlotsAllApart(bufs: seq<seq<nat>>, files: seq<nat>, depth: nat, base: nat, padded: nat, reclen: nat)
    requires InSlots(bufs, files, depth, base, padded) && reclen <= padded
    ensures AllApart(bufs, reclen)
  {
    forall t, i, u, j | 0 <= t < |bufs| && 0 <= i < |bufs[t]| && 0 <= u < |bufs| && 0 <= j < |bufs[u]|
                        && (t != u || i != j)
      ensures Apart(bufs[t][i], bufs[u][j], reclen)
    {
      if t < u || (t == u && i < j) {
        SlotsApart(bufs, files, depth, base, padded, t, i, u, j);
      } else {
        SlotsApart(bufs, files, depth, base, padded, u, j, t, i);
      }
    }
  }

  lemma SlotsBelow(bufs: seq<seq<nat>>, files: seq<nat>, depth: nat, base: nat, padded: nat, t: nat, i: nat)
    requires InSlots(bufs, files, depth, base, padded) && |bufs| == |files|
    requires t < |bufs| && i < |bufs[t]|
    ensures base <= bufs[t][i] && bufs[t][i] + padded <= base + First(files, depth, |files|) * padded
  {
    FirstGrows(files, depth, t, |files|);
    Scaled(Slot(files, depth, t, i), First(files, depth, |files|), padded);
  }

  lemma AlignedSteps(base: nat, m: nat, padded: nat, n: nat)
    requires n > 0 && base % n == 0 && padded % n == 0
    ensures (base + m * padded) % n == 0
  {
    var a, b := base / n, padded / n;
    assert base == a * n && padded == b * n;
    assert base + m * padded == (a + m * b) * n;
    WholePages(a + m * b, n);
  }

  lemma AlignedAll(bufs: seq<seq<nat>>, files: seq<nat>, depth: nat, base: nat, padded: nat, n: nat)
    requires InSlots(bufs, files, depth, base, padded) && n > 0 && base % n == 0 && padded % n == 0
    ensures AllAligned(bufs, n) && (base + First(files, depth, |files|) * padded) % n == 0
  {
    AlignedSteps(base, First(files, depth, |files|), padded, n);
    forall t, i | 0 <= t < |bufs| && 0 <= i < |bufs[t]|
      ensures bufs[t][i] % n == 0
    {
      AlignedSteps(base, Slot(files, depth, t, i), padded, n);
    }
  }

  /** setup_ious for every thread in turn. */
  method HandOut(b: Buffers, files: seq<nat>, verify: bool) returns (bufs: seq<seq<nat>>)
    modifies b`alignedBuffer, b`verifyBuf
    ensures |bufs| == |files| && InSlots(bufs, files, b.depth, old(b.alignedBuffer), b.paddedReclen)
    ensures b.alignedBuffer == old(b.alignedBuffer) + First(files, b.depth, |files|) * b.paddedReclen
    ensures files != [] && verify ==> b.verifyBuf == b.alignedBuffer
  {
    ghost var base := b.alignedBuffer;
    bufs := [];
    for t := 0 to |files|
      invariant |bufs| == t && InSlots(bufs, files, b.depth, base, b.paddedReclen)
      invariant b.alignedBuffer == base + First(files, b.depth, t) * b.paddedReclen
      invariant t > 0 && verify ==> b.verifyBuf == b.alignedBuffer
    {
      ghost var before := bufs;
      var next := b.SetupIous(files[t], verify);
      bufs := bufs + [next];
      NextSlots(before, next, files, b.depth, base, b.paddedReclen);
    }
  }

  lemma NextSlots(bufs: seq<seq<nat>>, next: seq<nat>, files: seq<nat>, depth: nat, base: nat, padded: nat)
    requires InSlots(bufs, files, depth, base, padded) && |bufs| < |files| && |next| == depth * files[|bufs|]
    requires forall i :: 0 <= i < |next| ==> next[i] == base + First(files, depth, |bufs|) * padded + i * padded
    ensures InSlots(bufs + [next], files, depth, base, padded)
    ensures First(files, depth, |bufs| + 1) * padded == First(files, depth, |bufs|) * padded + |next| * padded
  {
    Distributes(First(files, depth, |bufs|), |next|, padded);
    forall t, i | 0 <= t < |bufs + [next]| && 0 <= i < |(bufs + [next])[t]|
      ensures (bufs + [next])[t][i] == base + Slot(files, depth, t, i) * padded
    {
      if t == |bufs| {
        Distributes(First(files, depth, t), i, padded);
      }
    }
  }

  lemma Distributes(a: nat, b: nat, n: nat)
    ensures (a + b) * n == a * n + b * n
  {
  }

  datatype Layout = Overflows | Placed(bufs: seq<seq<nat>>, verifyBuf: nat, size: nat)

  /** setup_shared_mem and then setup_ious for every thread, in a block at p of
      the size that is asked of malloc. The size is what it should be, and all
      buffers have their place in the block, exactly if it can be computed in int. */
  method Setup(mask: nat, reclen: nat, depth: nat, files: seq<nat>, verify: bool, p: nat) returns (r: Layout)
    ensures r == Overflows <==> !Computable(depth * Sum(files, |files|), Padded(reclen, mask), |files|)
    ensures r.Placed? ==>
              && r.size == (depth * Sum(files, |files|) + if verify then 1 else 0) * Padded(reclen, mask) + |files| + mask
              && |r.bufs| == |files| && (forall t :: 0 <= t < |files| ==> |r.bufs[t]| == depth * files[t])
              && AllApart(r.bufs, reclen)
              && AllInside(r.bufs, p, p + r.size, reclen)
              && (verify && files != [] ==>
                    && AllApartFrom(r.bufs, r.verifyBuf, reclen)
                    && p <= r.verifyBuf && r.verifyBuf + reclen <= p + r.size)
              && (forall k: nat :: mask == Pow2(k) - 1 ==>
                    AllAligned(r.bufs, mask + 1) && (verify && files != [] ==> r.verifyBuf % (mask + 1) == 0))
  {
    hide AllApart, AllInside, AllApartFrom, AllAligned, Padded, Sum, First, AndNot, Computable, InSlots;
    var b := new Buffers(mask, reclen, depth);
    var overflows, totalRam := b.SetupSharedMem(|files|, Sum(files, |files|), verify, p);
    if overflows {
      return Overflows;
    }
    var bufs := HandOut(b, files, verify);
    r := Placed(bufs, b.verifyBuf, totalRam + mask);
    InBlock(bufs, files, mask, reclen, depth, p, AndNot(p + mask, mask), Padded(reclen, mask), r.size,
            if verify then 1 else 0);
    forall k: nat | mask == Pow2(k) - 1
      ensures AllAligned(bufs, mask + 1) && (verify && files != [] ==> r.verifyBuf % (mask + 1) == 0)
    {
      AlignedInBlock(bufs, files, reclen, depth, p, k);
    }
  }

  /** The slots from the aligned start on lie in the block, and so does the one
      behind them, if there is one more. */
  lemma InBlock(bufs: seq<seq<nat>>, files: seq<nat>, mask: nat, reclen: nat, depth: nat, p: nat,
                base: nat, padded: nat, size: nat, more: nat)
    requires InSlots(bufs, files, depth, base, padded) && |bufs| == |files|
    requires base == AndNot(p + mask, mask) && padded == Padded(reclen, mask)
    requires size == (depth * Sum(files, |files|) + more) * padded + |files| + mask
    ensures forall t :: 0 <= t < |files| ==> |bufs[t]| == depth * files[t]
    ensures AllApart(bufs, reclen) && AllInside(bufs, p, p + size, reclen)
    ensures var behind := base + First(files, depth, |files|) * padded;
            AllApartFrom(bufs, behind, reclen) && p <= behind && (more > 0 ==> behind + reclen <= p + size)
  {
    hide AllApart, AllInside, AllApartFrom, Padded, Sum, First, AndNot, InSlots;
    PaddedFits(reclen, mask);
    AndNotBounds(p + mask, mask);
    SlotSizes(bufs, files, depth, base, padded);
    SlotsAllApart(bufs, files, depth, base, padded, reclen);
    SlotsAllInside(bufs, files, depth, base, padded, reclen);
    FirstIsSum(files, depth, |files|);
    RoomBehind(First(files, depth, |files|), more, padded);
    Widen(bufs, base, base + First(files, depth, |files|) * padded, p, p + size, reclen);
  }

  lemma SlotSizes(bufs: seq<seq<nat>>, files: seq<nat>, depth: nat, base: nat, padded: nat)
    requires InSlots(bufs, files, depth, base, padded) && |bufs| == |files|
    ensures forall t :: 0 <= t < |files| ==> |bufs[t]| == depth * files[t]
  {
  }

  lemma RoomBehind(units: nat, more: nat, padded: nat)
    ensures units * padded <= (units + more) * padded
    ensures more > 0 ==> units * padded + padded <= (units + more) * padded
  {
    Distributes(units, more, padded);
    if more > 0 {
      Scaled(0, more, padded);
    }
  }

  lemma AlignedInBlock(bufs: seq<seq<nat>>, files: seq<nat>, reclen: nat, depth: nat, p: nat, k: nat)
    requires InSlots(bufs, files, depth, AndNot(p + (Pow2(k) - 1), Pow2(k) - 1), Padded(reclen, Pow2(k) - 1))
    ensures AllAligned(bufs, Pow2(k))
    ensures var base, padded := AndNot(p + (Pow2(k) - 1), Pow2(k) - 1), Padded(reclen, Pow2(k) - 1);
            (base + First(files, depth, |files|) * padded) % Pow2(k) == 0
  {
    hide AllAligned, Padded, First, AndNot, InSlots, Pow2;
    AlignedBase(p, k);
    PaddedFits(reclen, Pow2(k) - 1);
    AlignedAll(bufs, files, depth, AndNot(p + (Pow2(k) - 1), Pow2(k) - 1), Padded(reclen, Pow2(k) - 1), Pow2(k));
  }

  /** What the products and the sum make of it when they wrap around. */
  function Wrapped(numFiles: nat, depth: nat, padded: nat, numThreads: nat): int {
    ToInt(ToInt(ToInt(numFiles * depth) * padded) + numThreads)
  }

  lemma ToIntIs(n: int, r: int, k: int)
    requires n == r + k * 0x1_0000_0000 && -0x8000_0000 <= r <= INT_MAX
    ensures ToInt(n) == r
  {
  }

  lemma ToIntShifts(n: int) returns (k: int)
    ensures n == ToInt(n) + k * 0x1_0000_0000
  {
    k := (n + 0x8000_0000) / 0x1_0000_0000;
  }

  /** Wrapping in between makes no difference. */
  lemma WrapsOnce(numFiles: nat, depth: nat, padded: nat, numThreads: nat)
    ensures Wrapped(numFiles, depth, padded, numThreads) == ToInt(numFiles * depth * padded + numThreads)
  {
    hide ToInt;
    var units := numFiles * depth;
    var k := ToIntShifts(units);
    Shifted(units, ToInt(units), k, padded);
    SameWrapped(units * padded, ToInt(units) * padded, k * padded, numThreads);
  }

  lemma Shifted(n: int, r: int, k: int, padded: nat)
    requires n == r + k * 0x1_0000_0000
    ensures n * padded == r * padded + k * padded * 0x1_0000_0000
  {
    assert k * padded * 0x1_0000_0000 == k * 0x1_0000_0000 * padded;
  }

  lemma SameWrapped(n: int, r: int, k: int, numThreads: nat)
    requires n == r + k * 0x1_0000_0000
    ensures ToInt(ToInt(r) + numThreads) == ToInt(n + numThreads)
  {
    hide ToInt;
    var l := ToIntShifts(r);
    var m := ToIntShifts(ToInt(r) + numThreads);
    ToIntIs(n + numThreads, ToInt(ToInt(r) + numThreads), k + l + m);
  }

  /** The length that wraps around is negative, so that malloc fails, or the last
      buffer does not fit the block. */
  lemma WrappedIsTooSmall(mask: nat, reclen: nat, depth: nat, numFiles: nat, numThreads: nat, verify: bool, p: nat)
    requires 1 <= reclen && Padded(reclen, mask) <= INT_MAX && numThreads <= INT_MAX
    requires numThreads + 2 * mask < 0x1_0000_0000
    requires !Computable(depth * numFiles, Padded(reclen, mask), numThreads)
    ensures var padded, more := Padded(reclen, mask), if verify then 1 else 0;
            var ram := Wrapped(numFiles, depth, padded, numThreads);
            && (verify || depth * numFiles > 0)
            && (ram < 0 ||
                AndNot(p + mask, mask) + (depth * numFiles + more - 1) * padded + reclen
                > p + (ram + more * padded + mask))
  {
    hide Padded, AndNot, ToInt, Wrapped, Computable;
    var padded, units := Padded(reclen, mask), depth * numFiles;
    PaddedFits(reclen, mask);
    AndNotBounds(p + mask, mask);
    assert units == numFiles * depth;
    WrapsOnce(numFiles, depth, padded, numThreads);
    TooMuch(units, padded, numThreads);
    WrapsBelow(units * padded + numThreads);
    OneLess(units, if verify then 1 else 0, padded);
  }

  lemma TooMuch(units: nat, padded: nat, numThreads: nat)
    requires 1 <= padded <= INT_MAX && numThreads <= INT_MAX && !Computable(units, padded, numThreads)
    ensures units > 0 && units * padded + numThreads > INT_MAX
  {
    AtLeast(units, padded);
  }

  lemma WrapsBelow(n: int)
    requires n > INT_MAX
    ensures ToInt(n) <= n - 0x1_0000_0000
  {
    hide ToInt;
    var k := ToIntShifts(n);
  }

  lemma OneLess(units: nat, more: nat, padded: nat)
    requires units + more > 0
    ensures (units + more - 1) * padded == units * padded + more * padded - padded
  {
  }

  lemma AtLeast(units: nat, padded: nat)
    requires padded > 0
    ensures units <= units * padded
  {
  }

  /** 64 contexts of one file, 64 records of a megabyte each: the product is 2^32,
      and malloc is asked for a page. */
  lemma FourGigabytes(p: nat)
    ensures !Computable(64 * Sum([64], 1), Padded(0x10_0000, 0xfff), 1)
    ensures Wrapped(64, 64, Padded(0x10_0000, 0xfff), 1) + 0xfff == 0x1000
  {
    assert Sum([64], 1) == Sum([64], 0) + 64;
    assert Padded(0x10_0000, 0xfff) == 0x10_0000;
  }

  lemma AlignedBase(p: nat, k: nat)
    ensures AndNot(p + (Pow2(k) - 1), Pow2(k) - 1) % Pow2(k) == 0
  {
    hide Pow2, AndNot;
    AndNotMask(p + (Pow2(k) - 1), k);
    DownToMultiple(p + (Pow2(k) - 1), Pow2(k));
  }

  lemma DownToMultiple(x: nat, n: nat)
    requires n > 0
    ensures (x - x % n) % n == 0
  {
    assert x - x % n == x / n * n;
    WholePages(x / n, n);
  }

  lemma SlotsAllInside(bufs: seq<seq<nat>>, files: seq<nat>, depth: nat, base: nat, padded: nat, reclen: nat)
    requires InSlots(bufs, files, depth, base, padded) && |bufs| == |files| && reclen <= padded
    ensures AllInside(bufs, base, base + First(files, depth, |files|) * padded, reclen)
    ensures AllApartFrom(bufs, base + First(files, depth, |files|) * padded, reclen)
  {
    hide First, InSlots;
    forall t, i | 0 <= t < |bufs| && 0 <= i < |bufs[t]|
      ensures base <= bufs[t][i] && bufs[t][i] + reclen <= base + First(files, depth, |files|) * padded
    {
      SlotsBelow(bufs, files, depth, base, padded, t, i);
    }
  }

  lemma Widen(bufs: seq<seq<nat>>, low: nat, high: nat, low': nat, high': nat, reclen: nat)
    requires AllInside(bufs, low, high, reclen) && low' <= low && high <= high'
    ensures AllInside(bufs, low', high', reclen)
  {
  }
}
