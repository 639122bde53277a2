// Where the random stages of aio-stress put their requests, and when these stay
// inside the context they belong to.
module RandomOffset {
  import opened Arithmetic
  import opened Bits

  const MB: nat := 0x10_0000
  const RAND_MAX: nat := 0x7fff_ffff

  /** Whole megabytes, as C divides. */
  function Megabytes(d: int): int {
    if d >= 0 then d / MB else -((-d) / MB)
  }

  /** The alignment in megabytes, at least one. */
  function Unit(mask: nat): nat {
    if mask + 1 > MB then (mask + 1) / MB else 1
  }

  function Range(start: int, end: int, mask: nat): nat {
    var range := Megabytes(end - start);
    if range < Unit(mask) then 0 else range - Unit(mask)
  }

  /** A draw scaled to 0..n-1. */
  function Scaled(n: nat, draw: nat): nat {
    n * draw / (RAND_MAX + 1)
  }

  /** random_byte_offset before its last adjustment, for two draws of rand(). */
  function RandomByte(start: int, end: int, mask: nat, draw1: nat, draw2: nat): int {
    start + (1 + Scaled(Range(start, end, mask), draw1)) * MB + AndNot(1 + Scaled(MB, draw2) + mask, mask)
  }

  /** random_byte_offset. */
  function RandomByteOffset(start: int, end: int, reclen: int, mask: nat, draw1: nat, draw2: nat): int {
    var randByte := RandomByte(start, end, mask, draw1, draw2);
    if randByte + reclen > end then randByte - reclen else randByte
  }

  // --- bounds of the parts ------------------------------------------------------

  lemma ScaledBelow(n: nat, draw: nat)
    requires n > 0 && draw <= RAND_MAX
    ensures Scaled(n, draw) < n
  {
    assert n * draw <= n * RAND_MAX;
    assert n * draw < n * (RAND_MAX + 1);
    QuotientBelow(n * draw, n, RAND_MAX + 1);
  }

  lemma QuotientBelow(x: nat, n: nat, d: nat)
    requires d > 0 && x < n * d
    ensures x / d < n
  {
  }

  lemma LargestDraw()
    ensures Scaled(MB, RAND_MAX) == MB - 1
  {
  }

  lemma {:induction false} PowersDivide(k: nat, l: nat)
    requires k <= l
    ensures Pow2(l) % Pow2(k) == 0
    decreases l
  {
    if k < l {
      PowersDivide(k, l - 1);
      var q := Pow2(l - 1) / Pow2(k);
      assert Pow2(l - 1) == q * Pow2(k);
      assert Pow2(l) == (2 * q) * Pow2(k) + 0;
      RemainderIs(Pow2(l), Pow2(k), 2 * q, 0);
    } else {
      RemainderIs(Pow2(l), Pow2(k), 1, 0);
    }
  }

  lemma MegabyteIsPower()
    ensures MB == Pow2(20)
  {
    assert Pow2(4) == 16;
    assert Pow2(8) == 256;
    assert Pow2(12) == 0x1000;
    assert Pow2(16) == 0x1_0000;
  }

  /** The alignment and the megabyte divide one another, one way or the other. */
  lemma UnitAligned(k: nat)
    ensures Unit(Pow2(k) - 1) * MB % Pow2(k) == 0
    ensures MB <= Unit(Pow2(k) - 1) * MB && (Pow2(k) <= MB || Unit(Pow2(k) - 1) * MB == Pow2(k))
  {
    MegabyteIsPower();
    if Pow2(k) > MB {
      if k < 20 {
        PowersGrow(k, 20);
      }
      PowersDivide(20, k);
      RemainderIs(Pow2(k), Pow2(k), 1, 0);
    } else {
      if k > 20 {
        PowersGrow(20, k);
      }
      PowersDivide(k, 20);
    }
  }

  lemma {:induction false} PowersGrow(k: nat, l: nat)
    requires k < l
    ensures Pow2(k) < Pow2(l)
    decreases l
  {
    if k + 1 < l {
      PowersGrow(k, l - 1);
    }
  }

  /** Rounding up to a multiple of n does not pass a multiple. */
  lemma RoundUpWithin(x: nat, n: nat, m: nat)
    requires n > 0 && x <= m && m % n == 0
    ensures x <= x + (n - 1) - (x + (n - 1)) % n <= m
  {
    var y := x + (n - 1);
    var a, b := y / n, m / n;
    assert y == a * n + y % n && m == b * n;
    if a > b {
      AtLeastOnce(n, a - b);
    } else {
      Monotone(a, b, n);
    }
  }

  lemma Monotone(a: nat, b: nat, n: nat)
    requires a <= b
    ensures a * n <= b * n
  {
  }

  /** The byte within its megabyte: at least one, at most a unit, and that with
      the largest draw. */
  lemma AlignedByte(k: nat, draw: nat)
    requires draw <= RAND_MAX
    ensures var b := AndNot(1 + Scaled(MB, draw) + (Pow2(k) - 1), Pow2(k) - 1);
            && 1 <= b <= Unit(Pow2(k) - 1) * MB
            && (draw == RAND_MAX ==> b == Unit(Pow2(k) - 1) * MB)
  {
    var x := 1 + Scaled(MB, draw);
    ScaledBelow(MB, draw);
    UnitAligned(k);
    AndNotMask(x + (Pow2(k) - 1), k);
    RoundUpWithin(x, Pow2(k), Unit(Pow2(k) - 1) * MB);
    if draw == RAND_MAX {
      LargestDraw();
      WholeUnit(x, Pow2(k), Unit(Pow2(k) - 1) * MB);
    }
  }

  lemma WholeUnit(x: nat, n: nat, m: nat)
    requires n > 0 && m % n == 0 && x == MB && (m == x || m == n) && x <= m
    ensures x + (n - 1) - (x + (n - 1)) % n == m
  {
    var q := m / n;
    assert m == q * n;
    RemainderIs(x + (n - 1), n, q, x + (n - 1) - m);
  }

  // --- inside the context ----------------------------------------------------------

  predicate Draws(draw1: nat, draw2: nat) {
    draw1 <= RAND_MAX && draw2 <= RAND_MAX
  }

  /** Whether every draw gives a request that ends inside the context. */
  ghost predicate EndsInside(start: int, end: int, reclen: int, mask: nat) {
    forall draw1, draw2 :: Draws(draw1, draw2) ==>
      RandomByteOffset(start, end, reclen, mask, draw1, draw2) + reclen <= end
  }

  lemma RoomForAll(start: int, end: int, reclen: int, k: nat, draw1: nat, draw2: nat)
    requires reclen > 0 && Megabytes(end - start) > Unit(Pow2(k) - 1) && Draws(draw1, draw2)
    ensures RandomByteOffset(start, end, reclen, Pow2(k) - 1, draw1, draw2) + reclen <= end
  {
    hide Scaled, Unit, AndNot, Pow2;
    var range := Range(start, end, Pow2(k) - 1);
    AlignedByte(k, draw2);
    ScaledBelow(range, draw1);
    assert (1 + Scaled(range, draw1)) * MB <= range * MB;
    assert range * MB + Unit(Pow2(k) - 1) * MB == Megabytes(end - start) * MB <= end - start;
  }

  /** In a context of no more megabytes than the alignment has, the largest
      second draw runs past the end. */
  lemma NoRoom(start: int, end: int, reclen: int, k: nat)
    requires reclen > 0 && Megabytes(end - start) <= Unit(Pow2(k) - 1)
    ensures Draws(0, RAND_MAX)
    ensures RandomByteOffset(start, end, reclen, Pow2(k) - 1, 0, RAND_MAX) + reclen > end
  {
    hide Unit, AndNot, Pow2;
    AlignedByte(k, RAND_MAX);
  }

  /** Random requests end inside their context, whatever is drawn, exactly if
      the context has more whole megabytes than the alignment, or than one. */
  lemma EndsInsideIff(start: int, end: int, reclen: int, k: nat)
    requires reclen > 0
    ensures EndsInside(start, end, reclen, Pow2(k) - 1) <==> Megabytes(end - start) > Unit(Pow2(k) - 1)
  {
    hide Unit, AndNot, Pow2, RandomByteOffset, Megabytes;
    if Megabytes(end - start) > Unit(Pow2(k) - 1) {
      forall draw1, draw2 | Draws(draw1, draw2)
        ensures RandomByteOffset(start, end, reclen, Pow2(k) - 1, draw1, draw2) + reclen <= end
      {
        RoomForAll(start, end, reclen, k, draw1, draw2);
      }
    } else {
      NoRoom(start, end, reclen, k);
    }
  }

  /** A request may begin before its context: the adjustment takes a whole record
      back. */
  lemma LargeRecordBeginsBefore()
    ensures RandomByteOffset(0, 3 * MB, 3 * MB, 0, 0, 0) < 0
    ensures Megabytes(3 * MB) > Unit(0)
  {
    assert Pow2(0) == 1;
    AlignedByte(0, 0);
  }

  // --- exactly which bytes are drawn -------------------------------------------------

  /** The largest first part of a draw, in megabytes. */
  function Most(start: int, end: int, mask: nat): (m: nat)
    ensures m >= 1
  {
    if Range(start, end, mask) > 0 then Range(start, end, mask) else 1
  }

  /** The second part, for the byte n of 1..MB. */
  function Aligned(n: nat, mask: nat): nat { AndNot(n + mask, mask) }

  /** Scaling reaches every value, as far as the cast to int goes. */
  lemma ScaledOnto(n: nat, t: nat) returns (draw: nat)
    requires t < n <= RAND_MAX + 1
    ensures draw <= RAND_MAX && Scaled(n, draw) == t
  {
    var d := RAND_MAX + 1;
    draw := (t * d + (n - 1)) / n;
    assert draw * n <= t * d + (n - 1) < draw * n + n;
    RemainderIs(draw * n, d, t, draw * n - t * d);
    assert (t + 1) * d == t * d + d;
    Monotone(t + 1, n, d);
    if draw >= d {
      Monotone(d, draw, n);
    }
  }

  ghost predicate Drawable(start: int, end: int, mask: nat, x: int) {
    exists draw1, draw2 :: Draws(draw1, draw2) && RandomByte(start, end, mask, draw1, draw2) == start + x
  }

  lemma DrawnParts(start: int, end: int, mask: nat, draw1: nat, draw2: nat) returns (m: nat, n: nat)
    requires Draws(draw1, draw2)
    ensures 1 <= m <= Most(start, end, mask) && 1 <= n <= MB
    ensures RandomByte(start, end, mask, draw1, draw2) == start + m * MB + Aligned(n, mask)
  {
    hide Range;
    m, n := 1 + Scaled(Range(start, end, mask), draw1), 1 + Scaled(MB, draw2);
    ScaledBelow(MB, draw2);
    if Range(start, end, mask) > 0 {
      ScaledBelow(Range(start, end, mask), draw1);
    }
  }

  lemma PartsDrawn(start: int, end: int, mask: nat, m: nat, n: nat)
    requires Range(start, end, mask) <= RAND_MAX + 1
    requires 1 <= m <= Most(start, end, mask) && 1 <= n <= MB
    ensures Drawable(start, end, mask, m * MB + Aligned(n, mask))
  {
    hide Range, Scaled;
    var draw1 := 0;
    if Range(start, end, mask) > 0 {
      draw1 := ScaledOnto(Range(start, end, mask), m - 1);
    } else {
      NothingToScale();
    }
    var draw2 := ScaledOnto(MB, n - 1);
    assert Draws(draw1, draw2);
    assert RandomByte(start, end, mask, draw1, draw2) == start + (m * MB + Aligned(n, mask));
  }

  lemma NothingToScale()
    ensures Scaled(0, 0) == 0
  {
  }

  // --- the far end, for any mask ---------------------------------------------------------

  /** The largest second part of a draw. */
  function Largest(mask: nat, upTo: nat): nat {
    if upTo == 0 then 0
    else if Aligned(upTo, mask) > Largest(mask, upTo - 1) then Aligned(upTo, mask)
    else Largest(mask, upTo - 1)
  }

  lemma {:induction false} LargestIsLargest(mask: nat, upTo: nat) returns (at: nat)
    ensures forall n :: 1 <= n <= upTo ==> Aligned(n, mask) <= Largest(mask, upTo)
    ensures upTo > 0 ==> 1 <= at <= upTo && (Largest(mask, upTo) == Aligned(at, mask) || Largest(mask, upTo) == 0)
  {
    hide Aligned;
    at := 1;
    if upTo > 0 {
      var before := LargestIsLargest(mask, upTo - 1);
      at := if Aligned(upTo, mask) > Largest(mask, upTo - 1) then upTo else if upTo > 1 then before else 1;
    }
  }

  /** Whatever the alignment: every random request ends inside the context
      exactly if the largest parts that are drawn lead to no byte behind it. */
  lemma EndsInsideAnyMask(start: int, end: int, reclen: int, mask: nat)
    requires reclen > 0 && Range(start, end, mask) <= RAND_MAX + 1
    ensures EndsInside(start, end, reclen, mask)
            <==> Most(start, end, mask) * MB + Largest(mask, MB) <= end - start
  {
    hide Range, Aligned, Largest, RandomByte, Most;
    var most := Most(start, end, mask);
    var at := LargestIsLargest(mask, MB);
    if most * MB + Largest(mask, MB) <= end - start {
      forall draw1, draw2 | Draws(draw1, draw2)
        ensures RandomByte(start, end, mask, draw1, draw2) <= end
      {
        var m, n := DrawnParts(start, end, mask, draw1, draw2);
        Monotone(m, most, MB);
      }
    } else {
      LargestPositive(mask);
      PartsDrawn(start, end, mask, most, at);
      var draw1, draw2 :| Draws(draw1, draw2)
                          && RandomByte(start, end, mask, draw1, draw2) == start + (most * MB + Aligned(at, mask));
      assert RandomByteOffset(start, end, reclen, mask, draw1, draw2) + reclen > end;
    }
  }

  /** Some second part is not zero. */
  lemma LargestPositive(mask: nat)
    ensures Largest(mask, MB) > 0
  {
    hide Largest;
    var at := LargestIsLargest(mask, MB);
    AlignedPositive(mask);
  }

  /** A byte in 1..MB that the mask does not clear. */
  lemma AlignedPositive(mask: nat)
    ensures Aligned(1, mask) > 0
  {
    NextBitStays(mask);
  }

  lemma {:induction false} NextBitStays(mask: nat)
    ensures AndNot(1 + mask, mask) > 0
  {
    if mask % 2 == 1 {
      NextBitStays(mask / 2);
      assert (1 + mask) / 2 == 1 + mask / 2;
    }
  }

  // --- the near end --------------------------------------------------------------------------

  /** The bytes drawn lie on a grid: the alignment, but at most a megabyte. */
  function Grid(mask: nat): (g: nat)
    ensures g >= 1
  {
    if mask + 1 <= MB then mask + 1 else MB
  }

  function Highest(start: int, end: int, mask: nat): nat {
    Most(start, end, mask) * MB + Unit(mask) * MB
  }

  /** The first byte on the grid that is drawn and from which a record would
      pass the end. */
  function FirstOver(d: nat, reclen: nat, mask: nat): nat
    requires reclen <= d
  {
    var below := MB + (mask + 1) - Grid(mask);
    var from := if d - reclen >= below then d - reclen else below;
    (from / Grid(mask) + 1) * Grid(mask)
  }

  lemma MultipleSum(a: nat, b: nat, n: nat)
    requires n > 0 && a % n == 0 && b % n == 0
    ensures (a + b) % n == 0 && (a >= b ==> (a - b) % n == 0)
  {
    var p, q := a / n, b / n;
    assert a == p * n && b == q * n;
    RemainderIs(a + b, n, p + q, 0);
    if a >= b {
      assert a - b == (p - q) * n;
      if p < q {
        AtLeastOnce(n, q - p);
      } else {
        RemainderIs(a - b, n, p - q, 0);
      }
    }
  }

  lemma MultipleTimes(m: nat, b: nat, n: nat)
    requires n > 0 && b % n == 0
    ensures m * b % n == 0
  {
    var q := b / n;
    assert b == q * n;
    assert m * b == (m * q) * n;
    RemainderIs(m * b, n, m * q, 0);
  }

  /** A power of two, its grid and its unit. */
  lemma GridOf(k: nat)
    ensures var a, g := Pow2(k), Grid(Pow2(k) - 1);
            && a % g == 0 && MB % g == 0
            && (a <= MB ==> g == a && Unit(a - 1) == 1)
            && (a > MB ==> g == MB && Unit(a - 1) * MB == a)
  {
    UnitAligned(k);
    MegabyteIsPower();
    RemainderIs(MB, MB, 1, 0);
    if Pow2(k) <= MB {
      if k > 20 {
        PowersGrow(20, k);
      }
      PowersDivide(k, 20);
      RemainderIs(Pow2(k), Pow2(k), 1, 0);
    } else {
      if k < 20 {
        PowersGrow(k, 20);
      }
      PowersDivide(20, k);
    }
  }

  lemma DownToMultiple(y: nat, p: nat)
    requires p > 0
    ensures (y - y % p) % p == 0 && (y >= p ==> y - y % p >= p)
  {
    var q := y / p;
    assert y == q * p + y % p;
    RemainderIs(q * p, p, q, 0);
    if y >= p && q > 0 {
      AtLeastOnce(p, q);
    }
  }

  lemma UpFromMultiple(n: nat, p: nat)
    requires p > 0 && n % p == 0
    ensures (n + (p - 1)) % p == p - 1
  {
    var q := n / p;
    assert n == q * p;
    RemainderIs(n + (p - 1), p, q, p - 1);
  }

  /** Second parts are multiples of the alignment, from one to a unit. */
  lemma AlignedOnGrid(k: nat, n: nat)
    requires 1 <= n <= MB
    ensures var a := Aligned(n, Pow2(k) - 1);
            a % Pow2(k) == 0 && Pow2(k) <= a <= Unit(Pow2(k) - 1) * MB
  {
    hide Pow2, AndNot, Unit;
    UnitAligned(k);
    AndNotMask(n + (Pow2(k) - 1), k);
    RoundUpWithin(n, Pow2(k), Unit(Pow2(k) - 1) * MB);
    DownToMultiple(n + (Pow2(k) - 1), Pow2(k));
  }

  lemma AlignedFixed(k: nat, n: nat)
    requires n >= 1 && n % Pow2(k) == 0
    ensures Aligned(n, Pow2(k) - 1) == n
  {
    hide Pow2, AndNot;
    AndNotMask(n + (Pow2(k) - 1), k);
    UpFromMultiple(n, Pow2(k));
  }

  lemma DrawnOnGrid(start: int, end: int, k: nat, m: nat, n: nat)
    requires 1 <= m <= Most(start, end, Pow2(k) - 1) && 1 <= n <= MB
    ensures var x := m * MB + Aligned(n, Pow2(k) - 1);
            x % Grid(Pow2(k) - 1) == 0 && MB + Pow2(k) <= x <= Highest(start, end, Pow2(k) - 1)
  {
    hide Pow2, Aligned, Unit, Grid, Most;
    var g, a := Grid(Pow2(k) - 1), Aligned(n, Pow2(k) - 1);
    GridOf(k);
    AlignedOnGrid(k, n);
    Monotone(m, Most(start, end, Pow2(k) - 1), MB);
    MultipleTimes(m, MB, g);
    MultipleTimes(a / Pow2(k), Pow2(k), g);
    assert a == a / Pow2(k) * Pow2(k);
    MultipleSum(m * MB, a, g);
  }

  lemma StepBelow(r: nat, m: nat, n: nat)
    requires n > 0 && r % n == 0 && m % n == 0 && r < m
    ensures r + n <= m
  {
    var p, q := r / n, m / n;
    assert r == p * n && m == q * n;
    if q <= p {
      Monotone(q, p, n);
    } else {
      Monotone(p + 1, q, n);
      assert (p + 1) * n == p * n + n;
    }
  }

  /** Any number a multiple of n from n up to m, plus whole m's. */
  lemma SplitOnGrid(y: nat, m: nat, n: nat)
    requires 0 < n <= m && y % n == 0 && m % n == 0
    ensures y == y / m * m + y % m && (n + y % m) % n == 0 && n + y % m <= m
  {
    var q, r := y / m, y % m;
    assert y == q * m + r;
    MultipleTimes(q, m, n);
    MultipleSum(y, q * m, n);
    OnGridFrom(r, m, n);
  }

  lemma OnGridFrom(r: nat, m: nat, n: nat)
    requires 0 < n && r % n == 0 && m % n == 0 && r < m
    ensures (n + r) % n == 0 && n + r <= m
  {
    StepBelow(r, m, n);
    RemainderIs(n, n, 1, 0);
    MultipleSum(n, r, n);
  }

  lemma FineGridDrawn(start: int, end: int, k: nat, x: nat) returns (m: nat, n: nat)
    requires Pow2(k) <= MB && MB % Pow2(k) == 0 && Unit(Pow2(k) - 1) == 1
    requires x % Pow2(k) == 0 && MB + Pow2(k) <= x <= Highest(start, end, Pow2(k) - 1)
    ensures 1 <= m <= Most(start, end, Pow2(k) - 1) && 1 <= n <= MB && x == m * MB + Aligned(n, Pow2(k) - 1)
  {
    hide Pow2, Aligned, Unit, Most;
    var a, most := Pow2(k), Most(start, end, Pow2(k) - 1);
    RemainderIs(a, a, 1, 0);
    MultipleSum(x, a, a);
    SplitOnGrid(x - a, MB, a);
    m, n := (x - a) / MB, a + (x - a) % MB;
    AlignedFixed(k, n);
    assert (most + 1) * MB == most * MB + MB;
    QuotientBelow(x - a, most + 1, MB);
  }

  lemma CoarseGridDrawn(start: int, end: int, k: nat, x: nat) returns (m: nat, n: nat)
    requires Pow2(k) > MB && Pow2(k) % MB == 0 && Unit(Pow2(k) - 1) * MB == Pow2(k)
    requires x % MB == 0 && MB + Pow2(k) <= x <= Highest(start, end, Pow2(k) - 1)
    ensures 1 <= m <= Most(start, end, Pow2(k) - 1) && 1 <= n <= MB && x == m * MB + Aligned(n, Pow2(k) - 1)
  {
    hide Pow2, Aligned, Unit, Most;
    var a, most := Pow2(k), Most(start, end, Pow2(k) - 1);
    MultipleSum(x, a, MB);
    AlignedOnGrid(k, 1);
    m, n := (x - a) / MB, 1;
    assert (most + 1) * MB == most * MB + MB;
    QuotientBelow(x - a, most + 1, MB);
  }

  /** Exactly the points of the grid between the lowest and the highest are drawn. */
  lemma DrawableIff(start: int, end: int, k: nat, x: int)
    requires Range(start, end, Pow2(k) - 1) <= RAND_MAX + 1
    ensures Drawable(start, end, Pow2(k) - 1, x)
            <==> MB + Pow2(k) <= x <= Highest(start, end, Pow2(k) - 1) && x % Grid(Pow2(k) - 1) == 0
  {
    hide Pow2, Aligned, Unit, Most, Range, RandomByte, Grid, Highest;
    GridOf(k);
    if Drawable(start, end, Pow2(k) - 1, x) {
      var draw1, draw2 :| Draws(draw1, draw2) && RandomByte(start, end, Pow2(k) - 1, draw1, draw2) == start + x;
      var m, n := DrawnParts(start, end, Pow2(k) - 1, draw1, draw2);
      DrawnOnGrid(start, end, k, m, n);
    }
    if MB + Pow2(k) <= x <= Highest(start, end, Pow2(k) - 1) && x % Grid(Pow2(k) - 1) == 0 {
      var m, n;
      if Pow2(k) <= MB {
        m, n := FineGridDrawn(start, end, k, x);
      } else {
        m, n := CoarseGridDrawn(start, end, k, x);
      }
      PartsDrawn(start, end, Pow2(k) - 1, m, n);
    }
  }

  /** Byte x of a context of d bytes is drawn: it lies in the second megabyte or
      later, on a grid of the alignment a or of megabytes. */
  predicate IsDrawn(d: nat, a: nat, x: int)
    requires a > 0
  {
    var unit := if a > 0x10_0000 then a / 0x10_0000 else 1;
    var most := if d / 0x10_0000 > unit then d / 0x10_0000 - unit else 1;
    var grid := if a < 0x10_0000 then a else 0x10_0000;
    0x10_0000 + a <= x <= (most + unit) * 0x10_0000 && x % grid == 0
  }

  lemma IsDrawnIff(start: int, end: int, k: nat, x: int)
    requires start <= end && Range(start, end, Pow2(k) - 1) <= RAND_MAX + 1
    ensures Drawable(start, end, Pow2(k) - 1, x) <==> IsDrawn(end - start, Pow2(k), x)
  {
    hide Pow2, Drawable;
    DrawableIff(start, end, k, x);
    var m, u := Most(start, end, Pow2(k) - 1), Unit(Pow2(k) - 1);
    assert (m + u) * MB == m * MB + u * MB;
  }

  /** Random requests go exactly to the bytes drawn that leave room for a record,
      and from the others a record back. */
  lemma RequestedIff(start: int, end: int, reclen: int, k: nat, x: int)
    requires start <= end && Range(start, end, Pow2(k) - 1) <= RAND_MAX + 1
    ensures (exists draw1, draw2 ::
               Draws(draw1, draw2) && RandomByteOffset(start, end, reclen, Pow2(k) - 1, draw1, draw2) == start + x)
            <==> || (IsDrawn(end - start, Pow2(k), x) && start + x + reclen <= end)
                 || (IsDrawn(end - start, Pow2(k), x + reclen) && start + x + reclen + reclen > end)
  {
    hide Pow2, Range, RandomByte, IsDrawn;
    var mask := Pow2(k) - 1;
    IsDrawnIff(start, end, k, x);
    IsDrawnIff(start, end, k, x + reclen);
    if draw1, draw2 :| Draws(draw1, draw2) && RandomByteOffset(start, end, reclen, mask, draw1, draw2) == start + x {
      var y := RandomByte(start, end, mask, draw1, draw2) - start;
      assert Drawable(start, end, mask, y);
    }
    if Drawable(start, end, mask, x) && start + x + reclen <= end {
      var draw1, draw2 :| Draws(draw1, draw2) && RandomByte(start, end, mask, draw1, draw2) == start + x;
      assert RandomByteOffset(start, end, reclen, mask, draw1, draw2) == start + x;
    }
    if Drawable(start, end, mask, x + reclen) && start + x + reclen + reclen > end {
      var draw1, draw2 :| Draws(draw1, draw2) && RandomByte(start, end, mask, draw1, draw2) == start + (x + reclen);
      assert RandomByteOffset(start, end, reclen, mask, draw1, draw2) == start + x;
    }
  }

  lemma NextOnGrid(from: nat, g: nat)
    requires g > 0
    ensures var x := (from / g + 1) * g;
            x % g == 0 && from < x <= from + g && forall y: nat :: from < y && y % g == 0 ==> x <= y
  {
    var q := from / g;
    var x := (q + 1) * g;
    assert x == q * g + g && from == q * g + from % g;
    RemainderIs(x, g, q + 1, 0);
    RemainderIs(q * g, g, q, 0);
    forall y: nat | from < y && y % g == 0
      ensures x <= y
    {
      if y < x {
        StepBelow(q * g, y, g);
      }
    }
  }

  /** FirstOver is the first point of the grid that is drawn, if not beyond the
      highest, and from which a record passes the end. */
  lemma FirstOverIsFirst(d: nat, reclen: nat, k: nat)
    requires reclen <= d
    ensures var g, x := Grid(Pow2(k) - 1), FirstOver(d, reclen, Pow2(k) - 1);
            && x % g == 0 && MB + Pow2(k) <= x && x + reclen > d
            && forall y: nat :: y % g == 0 && MB + Pow2(k) <= y && y + reclen > d ==> x <= y
  {
    hide Pow2, Grid;
    GridOf(k);
    var g, a := Grid(Pow2(k) - 1), Pow2(k);
    var below := MB + a - g;
    var from := if d - reclen >= below then d - reclen else below;
    NextOnGrid(from, g);
    var x := (from / g + 1) * g;
    MultipleSum(MB, a, g);
    RemainderIs(g, g, 1, 0);
    MultipleSum(MB + a, g, g);
    StepBelow(below, x, g);
  }

  /** Random requests begin inside their context, whatever is drawn, exactly if
      the first byte from which a record passes the end leaves room for a record
      before it, or is not drawn. */
  lemma BeginsInsideIff(start: int, end: int, reclen: int, k: nat)
    requires 0 < reclen <= end - start && Range(start, end, Pow2(k) - 1) <= RAND_MAX + 1
    ensures BeginsAllInside(start, end, reclen, Pow2(k) - 1)
            <==> var x := FirstOver(end - start, reclen, Pow2(k) - 1);
                 reclen <= x || Highest(start, end, Pow2(k) - 1) < x
  {
    hide Pow2, Unit, Most, Range, RandomByte, Grid, Highest, FirstOver;
    var mask := Pow2(k) - 1;
    var x := FirstOver(end - start, reclen, mask);
    FirstOverIsFirst(end - start, reclen, k);
    if x < reclen && x <= Highest(start, end, mask) {
      DrawableIff(start, end, k, x);
      var draw1, draw2 :| Draws(draw1, draw2) && RandomByte(start, end, mask, draw1, draw2) == start + x;
      assert RandomByteOffset(start, end, reclen, mask, draw1, draw2) < start;
    } else {
      forall draw1, draw2 | Draws(draw1, draw2)
        ensures start <= RandomByteOffset(start, end, reclen, mask, draw1, draw2)
      {
        var y := RandomByte(start, end, mask, draw1, draw2) - start;
        DrawableIff(start, end, k, y);
        assert Drawable(start, end, mask, y);
      }
    }
  }

  /** The fewest megabytes, for a second part a, from which a record passes the end. */
  function FirstMegabyteOver(d: nat, reclen: nat, a: nat): (m: nat)
    requires reclen <= d
    ensures 1 <= m && m * MB + a + reclen > d
    ensures forall l: nat :: 1 <= l && l * MB + a + reclen > d ==> m <= l
  {
    if d - reclen < MB + a then 1 else (d - reclen - a) / MB + 1
  }

  /** The same for alignments that are no power of two: one test for each second
      part. */
  lemma BeginsInsideAnyMask(start: int, end: int, reclen: int, mask: nat)
    requires 0 < reclen <= end - start && Range(start, end, mask) <= RAND_MAX + 1
    ensures BeginsAllInside(start, end, reclen, mask)
            <==> forall n: nat :: 1 <= n <= MB ==> FitsBefore(start, end, reclen, mask, Aligned(n, mask))
  {
    hide Most, Range, RandomByte, Aligned, FirstMegabyteOver;
    if BeginsAllInside(start, end, reclen, mask) {
      forall n: nat | 1 <= n <= MB
        ensures FitsBefore(start, end, reclen, mask, Aligned(n, mask))
      {
        var a := Aligned(n, mask);
        var m := FirstMegabyteOver(end - start, reclen, a);
        if m <= Most(start, end, mask) {
          PartsDrawn(start, end, mask, m, n);
          var draw1, draw2 :| Draws(draw1, draw2) && RandomByte(start, end, mask, draw1, draw2) == start + (m * MB + a);
          assert start <= RandomByteOffset(start, end, reclen, mask, draw1, draw2);
        }
      }
    }
    if forall n: nat :: 1 <= n <= MB ==> FitsBefore(start, end, reclen, mask, Aligned(n, mask)) {
      forall draw1, draw2 | Draws(draw1, draw2)
        ensures start <= RandomByteOffset(start, end, reclen, mask, draw1, draw2)
      {
        var m, n := DrawnParts(start, end, mask, draw1, draw2);
        assert FitsBefore(start, end, reclen, mask, Aligned(n, mask));
        var first := FirstMegabyteOver(end - start, reclen, Aligned(n, mask));
        if m * MB + Aligned(n, mask) + reclen > end - start {
          Monotone(first, m, MB);
        }
      }
    }
  }

  predicate FitsBefore(start: int, end: int, reclen: int, mask: nat, a: nat)
    requires 0 < reclen <= end - start
  {
    var m := FirstMegabyteOver(end - start, reclen, a);
    Most(start, end, mask) < m || reclen <= m * MB + a
  }

  ghost predicate BeginsAllInside(start: int, end: int, reclen: int, mask: nat) {
    forall draw1, draw2 :: Draws(draw1, draw2) ==>
      start <= RandomByteOffset(start, end, reclen, mask, draw1, draw2)
  }

  /** Every random request lies inside its context, whatever is drawn, exactly
      under both conditions. */
  lemma InsideIff(start: int, end: int, reclen: int, k: nat)
    requires 0 < reclen <= end - start && Range(start, end, Pow2(k) - 1) <= RAND_MAX + 1
    ensures (forall draw1, draw2 :: Draws(draw1, draw2) ==>
               var offset := RandomByteOffset(start, end, reclen, Pow2(k) - 1, draw1, draw2);
               start <= offset && offset + reclen <= end)
            <==> RoomAtBothEnds(start, end, reclen, Pow2(k) - 1)
  {
    hide RandomByteOffset, Megabytes, Unit, FirstOver, Highest, Range, Pow2;
    EndsInsideIff(start, end, reclen, k);
    BeginsInsideIff(start, end, reclen, k);
  }

  predicate RoomAtBothEnds(start: int, end: int, reclen: int, mask: nat)
    requires 0 < reclen <= end - start
  {
    && Megabytes(end - start) > Unit(mask)
    && (reclen <= FirstOver(end - start, reclen, mask) || Highest(start, end, mask) < FirstOver(end - start, reclen, mask))
  }
}
