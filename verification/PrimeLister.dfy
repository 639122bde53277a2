// The program around the sieve: reading survivors a word at a time, reporting
// them with the gap statistics, and the loop over windows.
module PrimeLister {
  import opened Arithmetic
  import opened NumberTheory
  import opened PrimeList
  import opened PrimeSieve

  const ULONG: nat := 0x1_0000_0000_0000_0000

  // --- report and its statistics -------------------------------------------

  /** mpz_get_ui, and unsigned long arithmetic. */
  function LowWord(n: int): nat { n % 0x1_0000_0000_0000_0000 }

  datatype GapState = GapState(prevLow: nat, maxgap: nat)

  /** One call of report with the -g flag, on unsigned long words; a previous
      word of 0 means that nothing was reported yet. */
  function GapStep(g: GapState, prime: int): GapState {
    var low := LowWord(prime);
    var gap := LowWord(low - g.prevLow);
    GapState(low, if g.prevLow != 0 && g.maxgap < gap then gap else g.maxgap)
  }

  function GapsOf(log: seq<int>): GapState {
    if log == [] then GapState(0, 0) else GapStep(GapsOf(log[..|log| - 1]), log[|log| - 1])
  }

  class Reporter {
    const flagMaxgap: bool
    var log: seq<int>
    var totalPrimes: nat
    var gaps: GapState

    ghost predicate Valid()
      reads this
    {
      totalPrimes == LowWord(|log|) && (flagMaxgap ==> gaps == GapsOf(log))
    }

    constructor (flagMaxgap: bool)
      ensures Valid() && log == [] && this.flagMaxgap == flagMaxgap
    {
      this.flagMaxgap := flagMaxgap;
      log, totalPrimes, gaps := [], 0, GapState(0, 0);
    }

    method Report(prime: int)
      requires Valid()
      modifies this
      ensures Valid() && log == old(log) + [prime]
    {
      totalPrimes := LowWord(totalPrimes + 1);
      if flagMaxgap {
        gaps := GapStep(gaps, prime);
      }
      log := log + [prime];
      assert log[..|log| - 1] == old(log);
    }
  }

  ghost function GapAt(log: seq<int>, i: nat): int
    requires i + 1 < |log|
  {
    log[i + 1] - log[i]
  }

  ghost predicate GapsFit(log: seq<int>) {
    forall i: nat :: i + 1 < |log| ==> 0 < GapAt(log, i) < ULONG
  }

  ghost predicate LargestGap(log: seq<int>, g: int) {
    && (forall i: nat :: i + 1 < |log| ==> GapAt(log, i) <= g)
    && (if |log| < 2 then g == 0 else exists i: nat :: i + 1 < |log| && GapAt(log, i) == g)
  }

  ghost predicate OddOrTwo(log: seq<int>) {
    forall i :: 0 <= i < |log| ==> log[i] == 2 || log[i] % 2 == 1
  }

  lemma LowWordNonzero(n: int)
    requires n == 2 || n % 2 == 1
    ensures LowWord(n) != 0
  {
  }

  lemma LowWordGap(a: int, b: int)
    requires a < b < a + ULONG
    ensures LowWord(LowWord(b) - LowWord(a)) == b - a
  {
  }

  lemma GapStepTakesDifference(g: GapState, prev: int, last: int)
    requires g.prevLow == LowWord(prev) != 0 && prev < last < prev + ULONG
    ensures GapStep(g, last).maxgap == if g.maxgap < last - prev then last - prev else g.maxgap
  {
    LowWordGap(prev, last);
  }

  lemma {:induction false} PrevLowIsLast(log: seq<int>)
    requires OddOrTwo(log) && log != []
    ensures GapsOf(log).prevLow == LowWord(log[|log| - 1]) != 0
  {
    LowWordNonzero(log[|log| - 1]);
  }

  lemma MaxgapStep(front: seq<int>, last: int)
    requires OddOrTwo(front) && front != [] && 0 < last - front[|front| - 1] < ULONG
    requires LargestGap(front, GapsOf(front).maxgap)
    ensures LargestGap(front + [last], GapStep(GapsOf(front), last).maxgap)
  {
    PrevLowIsLast(front);
    GapStepTakesDifference(GapsOf(front), front[|front| - 1], last);
    LargestGapExtends(front, last, GapsOf(front).maxgap);
  }

  /** Although only low words are kept, and 0 doubles as "none yet", maxgap is
      the largest difference of neighbours in whatever list was reported. */
  lemma {:induction false} MaxgapIsLargestGap(log: seq<int>)
    requires OddOrTwo(log) && GapsFit(log)
    ensures LargestGap(log, GapsOf(log).maxgap)
  {
    if log != [] {
      var front, last := log[..|log| - 1], log[|log| - 1];
      forall i: nat | i + 1 < |front|
        ensures GapAt(front, i) == GapAt(log, i)
      {
      }
      MaxgapIsLargestGap(front);
      if front != [] {
        assert GapAt(log, |front| - 1) == last - front[|front| - 1];
        MaxgapStep(front, last);
        assert log == front + [last];
      }
    }
  }

  lemma LargestGapExtends(front: seq<int>, last: int, g: int)
    requires front != [] && LargestGap(front, g) && front[|front| - 1] < last
    ensures var d := last - front[|front| - 1]; LargestGap(front + [last], if g < d then d else g)
  {
    var log := front + [last];
    var d := last - front[|front| - 1];
    assert GapAt(log, |front| - 1) == d;
    forall i: nat | i + 1 < |front|
      ensures GapAt(log, i) == GapAt(front, i)
    {
    }
    if |front| >= 2 && d <= g {
      var i: nat :| i + 1 < |front| && GapAt(front, i) == g;
      assert GapAt(log, i) == g;
    }
  }

  // --- reading the survivors -------------------------------------------------

  /** The plain byte-by-byte reading of the first k cells. */
  ghost function PlainScan(s: seq<Byte>, fr: nat, k: nat, lim2: nat, probab: int -> bool): seq<int>
    requires k <= |s|
  {
    if k == 0 then []
    else
      var n := fr + 2 * (k - 1);
      PlainScan(s, fr, k - 1, lim2, probab)
      + (if s[k - 1] != 0 && (n < lim2 || probab(n)) then [n] else [])
  }

  lemma {:induction false} PlainScanZeros(s: seq<Byte>, fr: nat, a: nat, b: nat, lim2: nat, probab: int -> bool)
    requires a <= b <= |s|
    requires forall j :: a <= j < b ==> s[j] == 0
    ensures PlainScan(s, fr, b, lim2, probab) == PlainScan(s, fr, a, lim2, probab)
    decreases b
  {
    if a < b {
      PlainScanZeros(s, fr, a, b - 1, lim2, probab);
    }
  }

  /** find_primes: looks at whole words and skips those that are zero, yet
      reports exactly what a byte-by-byte scan of the first ssize cells would,
      whatever the padding of the last word holds. */
  method FindPrimes(s: array<Byte>, fr: nat, ssize: nat, lim2: nat, word: nat, probab: int -> bool, out: Reporter)
    requires word > 0 && ssize <= s.Length && Divides(word, s.Length) && out.Valid()
    modifies out
    ensures out.Valid() && out.log == old(out.log) + PlainScan(s[..], fr, ssize, lim2, probab)
  {
    ghost var cells := s[..];
    var end := RoundUp(ssize, word);
    RoundedUpFits(ssize, end, s.Length, word);
    var base := 0;
    while base < end
      invariant 0 <= base <= end && Divides(word, base) && out.Valid()
      invariant out.log == old(out.log) + PlainScan(cells, fr, Min(base, ssize), lim2, probab)
    {
      NextMultiple(word, base);
      if exists b | base <= b < base + word :: s[b] != 0 {
        var done := ReadWord(s, fr, base, ssize, lim2, word, probab, out, old(out.log));
        if done {
          return;
        }
      } else {
        PlainScanZeros(cells, fr, Min(base, ssize), Min(base + word, ssize), lim2, probab);
      }
      base := base + word;
    }
  }

  /** The inner loop of find_primes over the bytes of one word; done is the
      jump out past the end of the window. */
  method ReadWord(s: array<Byte>, fr: nat, base: nat, ssize: nat, lim2: nat, word: nat,
                  probab: int -> bool, out: Reporter, ghost front: seq<int>) returns (done: bool)
    requires base + word <= s.Length && ssize <= s.Length && out.Valid()
    requires out.log == front + PlainScan(s[..], fr, Min(base, ssize), lim2, probab)
    modifies out
    ensures out.Valid()
    ensures out.log == front + PlainScan(s[..], fr, if done then ssize else Min(base + word, ssize), lim2, probab)
  {
    ghost var cells := s[..];
    var ij := 0;
    while ij < word
      invariant 0 <= ij <= word && out.Valid()
      invariant out.log == front + PlainScan(cells, fr, Min(base + ij, ssize), lim2, probab)
    {
      if s[base + ij] != 0 {
        if base + ij >= ssize {
          return true;
        }
        var n := fr + (base + ij) * 2;
        if n < lim2 || probab(n) {
          out.Report(n);
        }
      }
      ij := ij + 1;
    }
    return false;
  }

  // --- which numbers are reported --------------------------------------------

  ghost predicate NoFactorUpTo(n: int, lim: int) {
    forall p :: IsOddPrime(p) && p <= lim ==> !Crossed(n, p)
  }

  /** The numbers the program reports as odd primes, in terms of the sieve limit
      and the probabilistic test used beyond its square. */
  ghost predicate Accepts(n: int, lim: nat, probab: int -> bool) {
    n % 2 == 1 && NoFactorUpTo(n, lim) && (n < Square(lim + 1) || probab(n))
  }

  ghost function Accepted(lo: nat, hi: nat, lim: nat, probab: int -> bool): seq<int> {
    if hi <= lo then []
    else Accepted(lo, hi - 1, lim, probab) + (if Accepts(hi - 1, lim, probab) then [hi - 1] else [])
  }

  /** The primes p with lo <= p < hi, in increasing order. */
  ghost function PrimesIn(lo: int, hi: int): seq<int>
    decreases hi - lo
  {
    if hi <= lo then []
    else PrimesIn(lo, hi - 1) + (if IsPrime(hi - 1) then [hi - 1] else [])
  }

  lemma {:induction false} AcceptedSplit(lo: nat, mid: nat, hi: nat, lim: nat, probab: int -> bool)
    requires lo <= mid <= hi
    ensures Accepted(lo, hi, lim, probab) == Accepted(lo, mid, lim, probab) + Accepted(mid, hi, lim, probab)
    decreases hi
  {
    if mid < hi {
      AcceptedSplit(lo, mid, hi - 1, lim, probab);
    }
  }

  /** With a base list, surviving the window means having no small factor; the
      possible extra entry, a square, adds nothing. */
  lemma SurvivesIffNoFactor(n: int, ps: seq<int>, lim: int)
    requires IsBaseList(ps, lim)
    ensures CrossedBySome(n, ps) <==> !NoFactorUpTo(n, lim)
  {
    if CrossedBySome(n, ps) {
      var i :| 0 <= i < |ps| && Crossed(n, ps[i]);
      if !IsOddPrime(ps[i]) {
        var p :| IsOddPrime(p) && lim == Square(p);
        SquareAtLeast(p);
        OddSquare(p);
        SquareMonotone(p, lim);
        DividesTransitive(p, lim, n);
        assert Crossed(n, p);
      }
    }
    if !NoFactorUpTo(n, lim) {
      var p :| IsOddPrime(p) && p <= lim && Crossed(n, p);
      assert p in ps;
    }
  }

  lemma {:induction false} ScanIsAccepted(s: seq<Byte>, fr: nat, k: nat, ps: seq<int>, lim: nat, probab: int -> bool)
    requires k <= |s| && fr % 2 == 1 && IsBaseList(ps, lim)
    requires WindowSieved(s, fr, k, ps)
    ensures PlainScan(s, fr, k, Square(lim + 1), probab) == Accepted(fr, fr + 2 * k, lim, probab)
  {
    hide CrossedBySome, NoFactorUpTo, Accepts, Square;
    if k > 0 {
      ScanIsAccepted(s, fr, k - 1, ps, lim, probab);
      var n := fr + 2 * (k - 1);
      SurvivesIffNoFactor(n, ps, lim);
      assert s[k - 1] == 0 <==> CrossedBySome(n, ps);
      OddPlusEven(fr, 2 * (k - 1));
      AcceptedTwoMore(fr, n, lim, probab);
      assert fr + 2 * k == n + 2;
    }
  }

  lemma AcceptedTwoMore(lo: nat, n: nat, lim: nat, probab: int -> bool)
    requires lo <= n && n % 2 == 1
    ensures Accepted(lo, n + 2, lim, probab)
            == Accepted(lo, n, lim, probab)
               + if NoFactorUpTo(n, lim) && (n < Square(lim + 1) || probab(n)) then [n] else []
  {
    assert !Accepts(n + 1, lim, probab);
  }

  /** Sieving to lim decides primality below the square of lim+1. */
  lemma NoFactorMeansPrime(n: int, lim: nat)
    requires 3 <= n < Square(lim + 1) && n % 2 == 1
    ensures NoFactorUpTo(n, lim) <==> IsPrime(n)
  {
    if !IsPrime(n) {
      var p := OddPrimeFactorBelowRoot(n);
      SquareMonotone(lim + 1, p);
      assert Crossed(n, p);
    } else {
      PrimeHasNoFactor(n, lim);
    }
  }

  lemma PrimeHasNoFactor(n: int, lim: nat)
    requires IsPrime(n)
    ensures NoFactorUpTo(n, lim)
  {
    forall p | IsOddPrime(p)
      ensures !Crossed(n, p)
    {
      PrimeNotCrossed(n, p);
    }
  }

  ghost predicate ExactTest(probab: int -> bool) {
    forall n :: probab(n) <==> IsPrime(n)
  }

  lemma AcceptsIffPrime(n: int, lim: nat, probab: int -> bool)
    requires 3 <= n
    requires n < Square(lim + 1) || ExactTest(probab)
    ensures Accepts(n, lim, probab) <==> IsPrime(n)
  {
    DividesIsRemainderZero(2, n);
    if n % 2 == 1 {
      if n < Square(lim + 1) {
        NoFactorMeansPrime(n, lim);
      } else if IsPrime(n) {
        PrimeHasNoFactor(n, lim);
      }
    }
  }

  lemma {:induction false} AcceptedArePrimes(lo: nat, hi: nat, lim: nat, probab: int -> bool)
    requires 3 <= lo
    requires hi <= Square(lim + 1) || ExactTest(probab)
    ensures Accepted(lo, hi, lim, probab) == PrimesIn(lo, hi)
    decreases hi
  {
    if lo < hi {
      AcceptedArePrimes(lo, hi - 1, lim, probab);
      AcceptsIffPrime(hi - 1, lim, probab);
    }
  }

  lemma {:induction false} PrimesInSplit(lo: int, mid: int, hi: int)
    requires lo <= mid <= hi
    ensures PrimesIn(lo, hi) == PrimesIn(lo, mid) + PrimesIn(mid, hi)
    decreases hi - mid
  {
    if mid < hi {
      PrimesInSplit(lo, mid, hi - 1);
    }
  }

  lemma {:induction false} NoPrimesBelowTwo(lo: int, hi: int)
    requires hi <= 2
    ensures PrimesIn(lo, hi) == []
    decreases hi - lo
  {
    if lo < hi {
      NoPrimesBelowTwo(lo, hi - 1);
    }
  }

  lemma EvenIsNotPrime(n: int)
    requires n % 2 == 0 && n != 2
    ensures !IsPrime(n)
  {
    DividesIsRemainderZero(2, n);
  }

  // --- the program -------------------------------------------------------------

  function ISqrt(n: nat): (r: nat)
    ensures Square(r) <= n < Square(r + 1)
  {
    if n == 0 then 0
    else
      var r := ISqrt(n - 1);
      if Square(r + 1) <= n then r + 1 else r
  }

  /** Setting bit 0. */
  function MakeOdd(n: int): int { if n % 2 == 0 then n + 1 else n }

  function First(from: int): int { MakeOdd(if from < 3 then 3 else from) }

  function Last(to: int): int { MakeOdd(to - 1) }

  /** The limit up to which the base list is made. */
  function SieveLimit(from: int, to: int, maxLimit: nat): nat
    requires 0 <= Last(to)
  {
    var root := ISqrt(Last(to));
    if root < maxLimit then root
    else if Last(to) - First(from) < maxLimit then LowWord(Abs(Last(to) - First(from)))
    else maxLimit
  }

  /** make_primelist reads past the front of its list unless the limit is at
      least 2, and the entries of the list are unsigned ints; before that, the
      square root of a negative number has no value. */
  predicate WellDefined(from: int, to: int, maxLimit: nat) {
    0 <= Last(to) && 2 <= SieveLimit(from, to, maxLimit) <= UINT_MAX
  }

  /** Exactly when a run is well defined: not for tops below 5, and not when,
      beyond the square of the largest limit, the upper end does not lie above
      the lower and the low word of the distance is 0 or no unsigned int. */
  lemma WellDefinedIff(from: int, to: int, maxLimit: nat)
    requires 2 <= maxLimit <= INT_MAX
    ensures WellDefined(from, to, maxLimit)
            <==> && 5 <= to
                 && !(Square(maxLimit) <= Last(to) <= First(from)
                      && (LowWord(First(from) - Last(to)) == 0 || LowWord(First(from) - Last(to)) > UINT_MAX))
  {
    hide ISqrt, First, Last;
    EndsOfRange(from, to);
    if 0 <= Last(to) {
      var top := Last(to);
      RootBelow(top, maxLimit);
      RootBelow(top, 2);
      CandidateDistance(from, to);
    }
  }

  /** For a range that is one, this is the case of a single odd candidate. */
  lemma WellDefinedRange(from: int, to: int, maxLimit: nat)
    requires from <= to && 2 <= maxLimit <= INT_MAX
    ensures WellDefined(from, to, maxLimit)
            <==> 5 <= to && !(First(from) == Last(to) && Square(maxLimit) <= Last(to))
  {
    WellDefinedIff(from, to, maxLimit);
    if 0 <= Last(to) {
      CandidateDistance(from, to);
    }
  }

  lemma EndsOfRange(from: int, to: int)
    ensures 3 <= First(from) && (4 <= Last(to) <==> 5 <= to)
    ensures Square(2) == 4
  {
  }

  lemma CandidateDistance(from: int, to: int)
    requires 0 <= Last(to)
    ensures var d := Last(to) - First(from);
            && (LowWord(Abs(d)) == 0 || 2 <= LowWord(Abs(d)))
            && (Abs(d) < 0x1_0000_0000_0000_0000 ==> LowWord(Abs(d)) == Abs(d))
            && (from <= to ==> -2 <= d)
  {
    var h, l := First(from) / 2, Last(to) / 2;
    assert First(from) == 2 * h + 1;
    assert Last(to) == 2 * l + 1;
    EvenLowWord(Abs(l - h));
    assert Abs(Last(to) - First(from)) == 2 * Abs(l - h);
  }

  lemma EvenLowWord(n: nat)
    ensures LowWord(2 * n) % 2 == 0
  {
    var q, r := 2 * n / 0x1_0000_0000_0000_0000, 2 * n % 0x1_0000_0000_0000_0000;
    assert 2 * n == q * 0x1_0000_0000_0000_0000 + r;
  }

  lemma RootBelow(n: nat, b: nat)
    ensures ISqrt(n) < b <==> n < Square(b)
  {
    SquareMonotone(b, ISqrt(n));
    SquareMonotone(ISqrt(n) + 1, b);
  }

  datatype Outcome = Undefined | Finished

  /** One window: sieve it, read it, and leave the list carried to the next. */
  method OneWindow(s: array<Byte>, fr2: nat, rsize: nat, word: nat, lim: nat, probab: int -> bool,
                   prime: array<int>, rem: array<int>, nPrimes: nat, out: Reporter, ghost ps: seq<int>,
                   ghost head: seq<int>, ghost front: seq<int>)
    requires word > 0 && fr2 % 2 == 1 && rsize % 2 == 0 && out.Valid()
    requires rsize / 2 <= s.Length && Divides(word, s.Length)
    requires nPrimes <= prime.Length == rem.Length && prime != rem
    requires ps == prime[..nPrimes] && IsBaseList(ps, lim) && Carried(ps, rem[..nPrimes], fr2)
    requires out.log == head + front
    modifies s, rem, out
    ensures out.Valid() && out.log == head + (front + Accepted(fr2, fr2 + rsize, lim, probab))
    ensures ps == prime[..nPrimes] && Carried(ps, rem[..nPrimes], fr2 + rsize)
  {
    SieveRegion(s, prime, rem, nPrimes, fr2, rsize, word);
    var lim2 := Squared(lim + 1);
    FindPrimes(s, fr2, rsize / 2, lim2, word, probab, out);
    ScanIsAccepted(s[..], fr2, rsize / 2, ps, lim, probab);
    ConcatAssociative(head, front, Accepted(fr2, fr2 + rsize, lim, probab));
  }

  lemma ConcatAssociative(a: seq<int>, b: seq<int>, c: seq<int>)
    ensures (a + b) + c == a + (b + c)
  {
  }

  /** How far the candidates have been dealt with when the loop stands at fr2. */
  ghost function Covered(first: nat, fr2: nat, to2: int): nat {
    if fr2 <= to2 then fr2 else if first <= to2 then to2 + 2 else first
  }

  /** How much of the range the window at fr2 covers: the last one is clipped. */
  function RegionSize(fr2: nat, to2: int, window: nat): nat {
    if fr2 + window > to2 && fr2 <= to2 then to2 - fr2 + 2 else window
  }

  lemma CoveredNext(first: nat, fr2: nat, to2: int, window: nat, lim: nat, probab: int -> bool)
    requires first <= fr2 <= to2 && window > 0
    ensures Accepted(first, Covered(first, fr2 + window, to2), lim, probab)
            == Accepted(first, fr2, lim, probab)
               + Accepted(fr2, fr2 + RegionSize(fr2, to2, window), lim, probab)
  {
    AcceptedSplit(first, fr2, fr2 + RegionSize(fr2, to2, window), lim, probab);
  }

  /** The window loop of main: over any number of windows, what is reported is
      what a single pass over all candidates would accept. */
  method SieveWindows(first: nat, to2: int, window: nat, word: nat, lim: nat, probab: int -> bool,
                      prime: array<int>, rem: array<int>, nPrimes: nat, out: Reporter)
    requires word > 0 && window > 0 && window % 2 == 0 && Divides(word, window / 2)
    requires first % 2 == 1 && to2 % 2 == 1 && out.Valid()
    requires nPrimes <= prime.Length == rem.Length && prime != rem
    requires IsBaseList(prime[..nPrimes], lim)
    requires forall i :: 0 <= i < nPrimes ==> rem[i] == -1
    modifies out, rem
    ensures out.Valid()
    ensures out.log == old(out.log) + if first <= to2 then Accepted(first, to2 + 1, lim, probab) else []
  {
    hide Accepted, Covered, Carried, Positioned, IsBaseList, Square, RegionSize;
    var s := new Byte[window / 2];
    ghost var ps := prime[..nPrimes];
    NoneCarried(ps, rem[..nPrimes], first, lim);
    var fr2 := first;
    CoveredNone(first, to2, lim, probab);
    while fr2 <= to2
      invariant fr2 % 2 == 1 && first <= fr2 && out.Valid()
      invariant prime[..nPrimes] == ps
      invariant fr2 <= to2 ==> Carried(ps, rem[..nPrimes], fr2)
      invariant out.log == old(out.log) + Accepted(first, Covered(first, fr2, to2), lim, probab)
      decreases to2 - fr2
    {
      var rsize := RegionSize(fr2, to2, window);
      RegionFits(first, fr2, to2, window);
      OneWindow(s, fr2, rsize, word, lim, probab, prime, rem, nPrimes, out, ps,
                old(out.log), Accepted(first, fr2, lim, probab));
      CoveredNext(first, fr2, to2, window, lim, probab);
      OddPlusEven(fr2, window);
      fr2 := fr2 + window;
    }
    CoveredAll(first, fr2, to2, lim, probab);
  }

  lemma NoneCarried(ps: seq<int>, rs: seq<int>, fr: int, lim: int)
    requires IsBaseList(ps, lim) && |rs| == |ps| && forall i :: 0 <= i < |rs| ==> rs[i] == -1
    ensures Carried(ps, rs, fr)
  {
  }

  lemma CoveredNone(first: nat, to2: int, lim: nat, probab: int -> bool)
    ensures Accepted(first, Covered(first, first, to2), lim, probab) == []
  {
  }

  lemma RegionFits(first: nat, fr2: nat, to2: int, window: nat)
    requires first <= fr2 <= to2 && fr2 % 2 == 1 && to2 % 2 == 1 && window % 2 == 0
    ensures var r := RegionSize(fr2, to2, window);
            r % 2 == 0 && r <= window + 1 && r / 2 <= window / 2 && Covered(first, fr2, to2) == fr2
            && (fr2 + window <= to2 ==> r == window)
  {
  }

  lemma CoveredAll(first: nat, fr2: nat, to2: int, lim: nat, probab: int -> bool)
    requires to2 < fr2 && to2 % 2 == 1
    ensures Accepted(first, Covered(first, fr2, to2), lim, probab)
            == if first <= to2 then Accepted(first, to2 + 1, lim, probab) else []
  {
    if first <= to2 {
      assert !Accepts(to2 + 1, lim, probab);
    }
  }

  lemma OddPlusEven(a: int, b: int)
    requires a % 2 == 1 && b % 2 == 0
    ensures (a + b) % 2 == 1
  {
  }

  /** The program. Where it is defined, it reports, over any number of windows,
      exactly the accepted numbers; and these are exactly the primes of
      [from, to] when the sieve limit is the root of the top or the
      probabilistic test is exact. */
  method ListPrimes(from: int, to: int, window: nat, word: nat, maxLimit: nat,
                    probab: int -> bool, out: Reporter) returns (r: Outcome)
    requires word > 0 && window > 0 && window % 2 == 0 && Divides(word, window / 2)
    requires 2 <= maxLimit <= INT_MAX && out.Valid() && out.log == []
    modifies out
    ensures out.Valid()
    ensures r == Undefined <==> !WellDefined(from, to, maxLimit)
    ensures r == Finished ==> out.log == Reported(from, to, maxLimit, probab)
    ensures r == Finished && (Last(to) < Square(maxLimit) || ExactTest(probab))
            ==> out.log == PrimesIn(from, to + 1)
    ensures r == Finished ==>
              StrictlyIncreasing(out.log) && ListedBeyond(out.log, from, to, maxLimit, probab)
    ensures r == Finished && out.flagMaxgap && to - (if from < 2 then 2 else from) < ULONG
            ==> LargestGap(out.log, out.gaps.maxgap)
  {
    hide Accepted, SieveLimit, WellDefined, Square, PrimesIn, ExactTest, MakeOdd, IsBaseList, LargestGap, Reporter.Valid,
         ListedBeyond, StrictlyIncreasing;
    if !WellDefined(from, to, maxLimit) {
      return Undefined;
    }
    EndsAreOdd(from, to, maxLimit);
    if from < 3 {
      out.Report(2);
    }
    var lim := SieveLimit(from, to, maxLimit);
    var prime, rem, nPrimes := MakePrimelist(lim);
    SieveWindows(First(from), Last(to), window, word, lim, probab, prime, rem, nPrimes, out);
    if Last(to) < Square(maxLimit) || ExactTest(probab) {
      ReportedArePrimes(from, to, maxLimit, probab);
    }
    ReportedOrdered(from, to, maxLimit, probab);
    ReportedIsListed(from, to, maxLimit, probab);
    GapIsReported(from, to, maxLimit, probab, out);
    return Finished;
  }

  lemma GapIsReported(from: int, to: int, maxLimit: nat, probab: int -> bool, out: Reporter)
    requires WellDefined(from, to, maxLimit) && out.Valid() && out.log == Reported(from, to, maxLimit, probab)
    ensures out.flagMaxgap && to - (if from < 2 then 2 else from) < ULONG ==> LargestGap(out.log, out.gaps.maxgap)
  {
    if out.flagMaxgap && to - (if from < 2 then 2 else from) < ULONG {
      ReportedGapsFit(from, to, maxLimit, probab);
      MaxgapIsLargestGap(out.log);
    }
  }

  lemma EndsAreOdd(from: int, to: int, maxLimit: nat)
    requires WellDefined(from, to, maxLimit)
    ensures 3 <= First(from) && First(from) % 2 == 1 && 0 <= Last(to) && Last(to) % 2 == 1
    ensures 2 <= SieveLimit(from, to, maxLimit)
  {
  }

  ghost function Reported(from: int, to: int, maxLimit: nat, probab: int -> bool): seq<int>
    requires WellDefined(from, to, maxLimit)
  {
    (if from < 3 then [2] else []) +
    (if First(from) <= Last(to)
     then Accepted(First(from), Last(to) + 1, SieveLimit(from, to, maxLimit), probab) else [])
  }

  lemma ReportedArePrimes(from: int, to: int, maxLimit: nat, probab: int -> bool)
    requires 2 <= maxLimit <= INT_MAX && WellDefined(from, to, maxLimit)
    requires Last(to) < Square(maxLimit) || ExactTest(probab)
    ensures Reported(from, to, maxLimit, probab) == PrimesIn(from, to + 1)
  {
    var fr2, to2 := First(from), Last(to);
    var lim := SieveLimit(from, to, maxLimit);
    RootLimitSuffices(from, to, maxLimit);
    AcceptedArePrimes(fr2, to2 + 1, lim, probab);
    if from <= to {
      PrimesFromFirst(from, to);
    }
  }

  lemma RootLimitSuffices(from: int, to: int, maxLimit: nat)
    requires 2 <= maxLimit <= INT_MAX && WellDefined(from, to, maxLimit)
    ensures 5 <= to
    ensures Last(to) < Square(maxLimit) ==> Last(to) + 1 <= Square(SieveLimit(from, to, maxLimit) + 1)
  {
    WellDefinedIff(from, to, maxLimit);
    RootBelow(Last(to), maxLimit);
  }

  lemma PrimesFromFirst(from: int, to: int)
    requires from <= to && 5 <= to
    ensures PrimesIn(from, to + 1)
            == (if from < 3 then [2] else [])
               + if First(from) <= Last(to) then PrimesIn(First(from), Last(to) + 1) else []
  {
    if from < 3 {
      TwoThenOdd(from, to + 1);
    } else {
      SkipEvenFirst(from, to + 1);
    }
    SkipEvenLast(First(from), to);
  }

  lemma TwoThenOdd(from: int, hi: int)
    requires from < 3 <= hi
    ensures PrimesIn(from, hi) == [2] + PrimesIn(3, hi)
  {
    PrimesInSplit(from, 3, hi);
    PrimesInSplit(from, 2, 3);
    NoPrimesBelowTwo(from, 2);
    assert PrimesIn(2, 2) == [];
  }

  lemma SkipEvenFirst(from: int, hi: int)
    requires 3 <= from < hi
    ensures PrimesIn(from, hi) == PrimesIn(First(from), hi)
  {
    if from % 2 == 0 {
      EvenIsNotPrime(from);
      PrimesInSplit(from, from + 1, hi);
      assert PrimesIn(from, from) == [];
    }
  }

  lemma SkipEvenLast(fr2: int, to: int)
    requires 3 <= fr2 <= to + 1 && 3 <= to
    ensures PrimesIn(fr2, to + 1) == if fr2 <= Last(to) then PrimesIn(fr2, Last(to) + 1) else []
  {
    if to % 2 == 0 {
      EvenIsNotPrime(to);
    }
  }

  // --- what holds with any probabilistic test ----------------------------------

  ghost predicate StrictlyIncreasing(log: seq<int>) {
    forall i, j :: 0 <= i < j < |log| ==> log[i] < log[j]
  }

  lemma {:induction false} AcceptedMembers(lo: nat, hi: nat, lim: nat, probab: int -> bool, n: int)
    ensures n in Accepted(lo, hi, lim, probab) <==> lo <= n < hi && Accepts(n, lim, probab)
    decreases hi
  {
    if lo < hi {
      AcceptedMembers(lo, hi - 1, lim, probab, n);
    }
  }

  lemma {:induction false} AcceptedOrdered(lo: nat, hi: nat, lim: nat, probab: int -> bool)
    ensures StrictlyIncreasing(Accepted(lo, hi, lim, probab))
    ensures forall i :: 0 <= i < |Accepted(lo, hi, lim, probab)| ==>
              lo <= Accepted(lo, hi, lim, probab)[i] < hi && Accepted(lo, hi, lim, probab)[i] % 2 == 1
    decreases hi
  {
    if lo < hi {
      AcceptedOrdered(lo, hi - 1, lim, probab);
    }
  }

  /** Whatever the test answers, the report is increasing, each number once, so
      the gap statistics are right; and a composite can only be reported if it
      lies beyond the square of the sieve limit and the test let it through. */
  lemma ReportedWithAnyTest(from: int, to: int, maxLimit: nat, probab: int -> bool, n: int)
    requires WellDefined(from, to, maxLimit)
    ensures var log := Reported(from, to, maxLimit, probab);
            var lim := SieveLimit(from, to, maxLimit);
            && StrictlyIncreasing(log)
            && OddOrTwo(log)
            && (n in log && !IsPrime(n) ==>
                  Square(lim + 1) <= n && probab(n) && NoFactorUpTo(n, lim))
            && (First(from) <= n <= Last(to) && IsPrime(n) ==>
                  (n in log <==> n < Square(lim + 1) || probab(n)))
  {
    hide SieveLimit, WellDefined, Accepted, IsPrime, NoFactorUpTo, First, Last, Square;
    EndsAreOdd(from, to, maxLimit);
    var lim := SieveLimit(from, to, maxLimit);
    ReportedOrdered(from, to, maxLimit, probab);
    if First(from) <= Last(to) {
      AcceptedMembers(First(from), Last(to) + 1, lim, probab, n);
    }
    TwoIsPrime();
    if First(from) <= n {
      AcceptedOrNot(n, lim, probab);
    }
  }

  lemma TwoIsPrime()
    ensures IsPrime(2)
  {
  }

  lemma ReportedOrdered(from: int, to: int, maxLimit: nat, probab: int -> bool)
    requires WellDefined(from, to, maxLimit)
    ensures StrictlyIncreasing(Reported(from, to, maxLimit, probab)) && OddOrTwo(Reported(from, to, maxLimit, probab))
  {
    hide SieveLimit, WellDefined, Accepted;
    EndsAreOdd(from, to, maxLimit);
    if First(from) <= Last(to) {
      AcceptedOrdered(First(from), Last(to) + 1, SieveLimit(from, to, maxLimit), probab);
    }
  }

  /** What is accepted, of primes and of other numbers. */
  lemma AcceptedOrNot(n: int, lim: nat, probab: int -> bool)
    requires 3 <= n && 2 <= lim
    ensures IsPrime(n) ==> (Accepts(n, lim, probab) <==> n < Square(lim + 1) || probab(n))
    ensures !IsPrime(n) && Accepts(n, lim, probab) ==> Square(lim + 1) <= n && probab(n) && NoFactorUpTo(n, lim)
  {
    hide IsPrime, NoFactorUpTo, Square;
    if n % 2 == 0 {
      EvenIsNotPrime(n);
    } else if n < Square(lim + 1) {
      NoFactorMeansPrime(n, lim);
    }
    if IsPrime(n) {
      PrimeHasNoFactor(n, lim);
    }
  }

  /** An odd prime up to a bound that divides n, with its square not beyond n. */
  ghost predicate HasSmallFactor(n: int, bound: int) {
    exists p :: IsPrime(p) && p % 2 == 1 && p <= bound && p * p <= n && Divides(p, n)
  }

  /** What is listed beyond the square of the largest limit, from the ends alone:
      2 if it is asked for, and the odd numbers of the range that have no odd
      prime factor up to the limit, or up to the distance of the first and the
      last odd number if that is less; those at or beyond the square of one more
      have to pass the test. */
  ghost predicate ListedBeyond(log: seq<int>, from: int, to: int, maxLimit: nat, probab: int -> bool) {
    var low := if from < 3 then 3 else from;
    var lo := low + (1 - low % 2);
    var hi := to - (1 - to % 2);
    var bound := if hi - lo < maxLimit then hi - lo else maxLimit;
    maxLimit * maxLimit <= hi ==>
      forall n :: n in log <==>
                    || (n == 2 && from < 3)
                    || (lo <= n <= hi && n % 2 == 1 && !HasSmallFactor(n, bound)
                        && (n < (bound + 1) * (bound + 1) || probab(n)))
  }

  lemma FactorsByProduct(n: int, lim: nat)
    ensures NoFactorUpTo(n, lim) <==> !HasSmallFactor(n, lim)
  {
    forall p | IsOddPrime(p)
      ensures Square(p) == p * p && (Crossed(n, p) <==> p * p <= n && Divides(p, n))
    {
      SquareIsProduct(p);
    }
    if !NoFactorUpTo(n, lim) {
      var p :| IsOddPrime(p) && p <= lim && Crossed(n, p);
      assert p * p <= n && Divides(p, n);
    }
    if HasSmallFactor(n, lim) {
      var p :| IsPrime(p) && p % 2 == 1 && p <= lim && p * p <= n && Divides(p, n);
      assert IsOddPrime(p);
    }
  }

  /** The limit is the largest one, or the distance of the ends. */
  lemma LimitBeyond(from: int, to: int, maxLimit: nat)
    requires 2 <= maxLimit <= INT_MAX && WellDefined(from, to, maxLimit) && First(from) <= Last(to)
    requires Square(maxLimit) <= Last(to)
    ensures var d := Last(to) - First(from);
            SieveLimit(from, to, maxLimit) == if d < maxLimit then d else maxLimit
  {
    hide ISqrt, First, Last;
    RootBelow(Last(to), maxLimit);
  }

  lemma OddEnds(from: int, to: int)
    ensures var low := if from < 3 then 3 else from;
            First(from) == low + (1 - low % 2) && Last(to) == to - (1 - to % 2)
    ensures First(from) % 2 == 1 && 3 <= First(from)
  {
  }

  lemma IsReported(from: int, to: int, maxLimit: nat, probab: int -> bool, n: int)
    requires 2 <= maxLimit <= INT_MAX && WellDefined(from, to, maxLimit) && Square(maxLimit) <= Last(to)
    ensures var d := Last(to) - First(from);
            var bound := if d < maxLimit then d else maxLimit;
            n in Reported(from, to, maxLimit, probab) <==>
              || (n == 2 && from < 3)
              || (First(from) <= n <= Last(to) && n % 2 == 1 && !HasSmallFactor(n, bound)
                  && (n < (bound + 1) * (bound + 1) || probab(n)))
  {
    hide Accepted, SieveLimit, WellDefined, First, Last, HasSmallFactor, NoFactorUpTo, Square;
    EndsAreOdd(from, to, maxLimit);
    if First(from) <= Last(to) {
      LimitBeyond(from, to, maxLimit);
      var lim := SieveLimit(from, to, maxLimit);
      SquareIsProduct(lim + 1);
      FactorsByProduct(n, lim);
      AcceptedMembers(First(from), Last(to) + 1, lim, probab, n);
    }
  }

  lemma ReportedIsListed(from: int, to: int, maxLimit: nat, probab: int -> bool)
    requires 2 <= maxLimit <= INT_MAX && WellDefined(from, to, maxLimit)
    ensures ListedBeyond(Reported(from, to, maxLimit, probab), from, to, maxLimit, probab)
  {
    hide Reported, SieveLimit, WellDefined, First, Last, HasSmallFactor, Square;
    OddEnds(from, to);
    SquareIsProduct(maxLimit);
    if maxLimit * maxLimit <= Last(to) {
      forall n
        ensures var d := Last(to) - First(from);
                var bound := if d < maxLimit then d else maxLimit;
                n in Reported(from, to, maxLimit, probab) <==>
                  || (n == 2 && from < 3)
                  || (First(from) <= n <= Last(to) && n % 2 == 1 && !HasSmallFactor(n, bound)
                      && (n < (bound + 1) * (bound + 1) || probab(n)))
      {
        IsReported(from, to, maxLimit, probab, n);
      }
    }
  }

  lemma ReportedGapsFit(from: int, to: int, maxLimit: nat, probab: int -> bool)
    requires WellDefined(from, to, maxLimit) && to - (if from < 2 then 2 else from) < ULONG
    ensures OddOrTwo(Reported(from, to, maxLimit, probab)) && GapsFit(Reported(from, to, maxLimit, probab))
  {
    hide Accepted, SieveLimit;
    var log := Reported(from, to, maxLimit, probab);
    ReportedWithAnyTest(from, to, maxLimit, probab, 0);
    if First(from) <= Last(to) {
      AcceptedOrdered(First(from), Last(to) + 1, SieveLimit(from, to, maxLimit), probab);
    }
    forall i: nat | i + 1 < |log|
      ensures 0 < GapAt(log, i) < ULONG
    {
      assert log[i] < log[i + 1];
    }
  }
}
