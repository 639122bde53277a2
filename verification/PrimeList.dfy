// The base list of odd primes that the segmented sieve crosses out with.
module PrimeList {
  import opened Arithmetic
  import opened NumberTheory

  ghost predicate OddEntries(ps: seq<int>) {
    forall i :: 0 <= i < |ps| ==> 3 <= ps[i] && ps[i] % 2 == 1
  }

  ghost predicate Increasing(ps: seq<int>) {
    forall i, j :: 0 <= i < j < |ps| ==> ps[i] < ps[j]
  }

  ghost predicate SquareOfOddPrime(n: int) {
    exists p :: IsOddPrime(p) && n == Square(p)
  }

  /** What the base list is good for: all odd primes up to the limit, in order.
      One more entry is possible: the limit itself, when it is the square of an
      odd prime. */
  ghost predicate IsBaseList(ps: seq<int>, limit: int) {
    && OddEntries(ps)
    && Increasing(ps)
    && (forall p :: IsOddPrime(p) && p <= limit ==> p in ps)
    && (forall i :: 0 <= i < |ps| ==>
          (ps[i] <= limit && IsOddPrime(ps[i])) || (ps[i] == limit && SquareOfOddPrime(limit)))
  }

  /** Zeroes every step-th cell of s below end, from start on, counting k up
      from start-end to 0 as the sieve does; k is left where it stopped. */
  method CrossOut(s: array<Byte>, start: nat, end: nat, step: nat) returns (k: int)
    requires end <= s.Length && step > 0
    modifies s
    ensures forall j :: 0 <= j < s.Length ==>
              s[j] == if start <= j < end && Divides(step, j - start) then 0 else old(s[j])
    ensures 0 <= k && start <= k + end && Divides(step, k + end - start)
    ensures k + end == start || k < step
  {
    k := start - end;
    while k < 0
      invariant start <= k + end && Divides(step, k + end - start)
      invariant k + end == start || k < step
      invariant forall j :: 0 <= j < s.Length ==>
                  s[j] == if start <= j < k + end && j < end && Divides(step, j - start) then 0 else old(s[j])
    {
      NextMultiple(step, k + end - start);
      s[end + k] := 0;
      k := k + step;
    }
  }

  lemma NextMultiple(d: int, n: int)
    requires d > 0 && Divides(d, n)
    ensures Divides(d, n + d)
    ensures forall m :: n < m < n + d ==> !Divides(d, m)
  {
    MultipleIsDivisible(d, 1);
    DividesSum(d, d, n);
    forall m | n < m < n + d
      ensures !Divides(d, m)
    {
      DividesSum(d, n, m - n);
      SmallMultiple(d, m - n);
    }
  }

  ghost predicate CrossedByPrimeBelow(v: int, b: int) {
    exists p :: IsOddPrime(p) && p < b && Crossed(v, p)
  }

  ghost predicate CrossedWithinRoot(v: int, maxprime: int) {
    exists p :: IsOddPrime(p) && Square(p) < maxprime && Crossed(v, p)
  }

  /** The sieve's test on the cell of i*i: it has been crossed out by a smaller
      prime exactly when i is composite. */
  lemma SquareCellTest(i: int)
    requires 3 <= i && i % 2 == 1
    ensures CrossedByPrimeBelow(Square(i), i) <==> !IsPrime(i)
  {
    OddSquare(i);
    if !IsPrime(i) {
      var p := OddPrimeFactorBelowRoot(i);
      DividesTransitive(p, i, Square(i));
      assert Crossed(Square(i), p);
    }
    if CrossedByPrimeBelow(Square(i), i) {
      var p :| IsOddPrime(p) && p < i && Crossed(Square(i), p);
      SquareIsProduct(i);
      EuclidsLemma(p, i, i);
    }
  }

  lemma CrossedStep(v: int, i: int)
    requires 3 <= i && i % 2 == 1
    ensures CrossedByPrimeBelow(v, i + 2)
            <==> CrossedByPrimeBelow(v, i) || (IsPrime(i) && Crossed(v, i))
  {
    if CrossedByPrimeBelow(v, i + 2) {
      var p :| IsOddPrime(p) && p < i + 2 && Crossed(v, p);
      assert p == i || p < i;
    }
    if IsPrime(i) && Crossed(v, i) {
      assert IsOddPrime(i);
    }
  }

  /** The cells that i crosses out, in terms of the numbers they stand for. */
  lemma CrossedCell(i: int, j: nat)
    requires 3 <= i && i % 2 == 1
    ensures var start := Square(i) / 2 - 1;
            0 <= start &&
            (Crossed(2 * j + 3, i) <==> start <= j && Divides(i, j - start))
  {
    var start := Square(i) / 2 - 1;
    OddSquare(i);
    CrossedAlong(3, i, start, j);
  }

  lemma OddSquare(i: int)
    requires 3 <= i && i % 2 == 1
    ensures Square(i) % 2 == 1 && 9 <= Square(i) && i < Square(i)
    ensures 3 + 2 * (Square(i) / 2 - 1) == Square(i)
    ensures Divides(i, Square(i))
  {
    SquareAtLeast(i);
    SquareIsProduct(i);
    MultipleIsDivisible(i, i);
  }

  ghost predicate SievedBelow(s: seq<Byte>, b: int) {
    forall j :: 0 <= j < |s| ==> (s[j] == 0 <==> CrossedByPrimeBelow(2 * j + 3, b))
  }

  lemma SieveStep(before: seq<Byte>, after: seq<Byte>, i: int, crossed: bool)
    requires 3 <= i && i % 2 == 1 && |before| == |after| && SievedBelow(before, i)
    requires crossed <==> IsPrime(i)
    requires var start := Square(i) / 2 - 1;
             forall j :: 0 <= j < |after| ==>
               after[j] == if crossed && start <= j && Divides(i, j - start) then 0 else before[j]
    ensures SievedBelow(after, i + 2)
  {
    forall j | 0 <= j < |after|
      ensures after[j] == 0 <==> CrossedByPrimeBelow(2 * j + 3, i + 2)
    {
      CrossedStep(2 * j + 3, i);
      CrossedCell(i, j);
    }
  }

  ghost predicate CellsSieved(s: seq<Byte>, maxprime: int) {
    |s| == maxprime / 2 &&
    forall j :: 0 <= j < |s| ==> (s[j] == 0 <==> CrossedWithinRoot(2 * j + 3, maxprime))
  }

  /** The crossing-out half of make_primelist. */
  method CrossOutComposites(s: array<Byte>, maxprime: nat)
    requires s.Length == maxprime / 2
    requires forall j :: 0 <= j < s.Length ==> s[j] != 0
    modifies s
    ensures CellsSieved(s[..], maxprime)
  {
    var i := 3;
    while true
      invariant 3 <= i && i % 2 == 1
      invariant i == 3 || Square(i - 2) < maxprime
      invariant SievedBelow(s[..], i)
      decreases maxprime - i
    {
      var isqr := Squared(i);
      if isqr >= maxprime {
        break;
      }
      OddSquare(i);
      SquareCellTest(i);
      ghost var before := s[..];
      assert 2 * (isqr / 2 - 1) + 3 == isqr;
      var isPrime := s[isqr / 2 - 1] != 0;
      if isPrime {
        var _ := CrossOut(s, isqr / 2 - 1, s.Length, i);
      }
      SieveStep(before, s[..], i, isPrime);
      i := i + 2;
    }
    forall j | 0 <= j < s.Length
      ensures s[j] == 0 <==> CrossedWithinRoot(2 * j + 3, maxprime)
    {
      PrimesWithinRoot(2 * j + 3, i, maxprime);
    }
  }

  lemma PrimesWithinRoot(v: int, i: int, maxprime: int)
    requires 3 <= i && i % 2 == 1 && maxprime <= Square(i)
    requires i == 3 || Square(i - 2) < maxprime
    ensures CrossedByPrimeBelow(v, i) <==> CrossedWithinRoot(v, maxprime)
  {
    if CrossedByPrimeBelow(v, i) {
      var p :| IsOddPrime(p) && p < i && Crossed(v, p);
      SquareMonotone(p, i - 2);
    }
    if CrossedWithinRoot(v, maxprime) {
      var p :| IsOddPrime(p) && Square(p) < maxprime && Crossed(v, p);
      SquareMonotone(i, p);
    }
  }

  /** The numbers whose cells among the first k are still set. */
  ghost function Survivors(s: seq<Byte>, k: nat): seq<int>
    requires k <= |s|
  {
    if k == 0 then []
    else if s[k - 1] != 0 then Survivors(s, k - 1) + [2 * k + 1]
    else Survivors(s, k - 1)
  }

  lemma {:induction false} SurvivorsOrdered(s: seq<Byte>, k: nat)
    requires k <= |s|
    ensures OddEntries(Survivors(s, k)) && Increasing(Survivors(s, k))
    ensures forall i :: 0 <= i < |Survivors(s, k)| ==> Survivors(s, k)[i] <= 2 * k + 1
  {
    if k > 0 {
      SurvivorsOrdered(s, k - 1);
    }
  }

  lemma {:induction false} SurvivorsMember(s: seq<Byte>, k: nat, j: nat)
    requires k <= |s|
    ensures 2 * j + 3 in Survivors(s, k) <==> j < k && s[j] != 0
  {
    if k > 0 {
      SurvivorsMember(s, k - 1, j);
    }
  }

  /** The collecting half of make_primelist: primes[] and the -1 marks. */
  method CollectPrimes(s: array<Byte>) returns (prime: array<int>, rem: array<int>, nPrimes: nat)
    ensures fresh(prime) && fresh(rem) && prime != rem
    ensures prime.Length == rem.Length == s.Length && nPrimes <= s.Length
    ensures prime[..nPrimes] == Survivors(s[..], s.Length)
    ensures forall i :: 0 <= i < nPrimes ==> rem[i] == -1
  {
    prime := new int[s.Length];
    rem := new int[s.Length];
    nPrimes := 0;
    for j := 0 to s.Length
      invariant nPrimes <= j
      invariant prime[..nPrimes] == Survivors(s[..], j)
      invariant forall i :: 0 <= i < nPrimes ==> rem[i] == -1
    {
      if s[j] != 0 {
        prime[nPrimes] := j * 2 + 3;
        rem[nPrimes] := -1;
        nPrimes := nPrimes + 1;
      }
    }
  }

  /** make_primelist: the list is exactly the odd primes up to maxprime, except
      that the fencepost lets maxprime through when it is a prime's square. */
  method MakePrimelist(maxprime: nat) returns (prime: array<int>, rem: array<int>, nPrimes: nat)
    requires maxprime >= 2
    ensures fresh(prime) && fresh(rem) && prime != rem
    ensures prime.Length == rem.Length && nPrimes <= prime.Length
    ensures IsBaseList(prime[..nPrimes], maxprime)
    ensures forall i :: 0 <= i < nPrimes ==> rem[i] == -1
  {
    hide CellsSieved, Survivors, IsBaseList;
    var s := new Byte[maxprime / 2](_ => 255);
    CrossOutComposites(s, maxprime);
    prime, rem, nPrimes := CollectPrimes(s);
    ghost var ps, cells := prime[..nPrimes], s[..];
    ThreeSurvives(cells, maxprime);
    BaseListFromCells(cells, maxprime);
    if prime[nPrimes - 1] > maxprime {
      nPrimes := nPrimes - 1;
      assert prime[..nPrimes] == ps[..|ps| - 1];
    }
  }

  lemma ThreeSurvives(s: seq<Byte>, maxprime: int)
    requires maxprime >= 2 && CellsSieved(s, maxprime)
    ensures Survivors(s, |s|) != []
  {
    NineIsTheFirst(maxprime);
    SurvivorsMember(s, |s|, 0);
  }

  lemma NineIsTheFirst(maxprime: int)
    ensures !CrossedWithinRoot(3, maxprime)
  {
    forall p | IsOddPrime(p)
      ensures !Crossed(3, p)
    {
      SquareAtLeast(p);
    }
  }

  /** The list after the FIXME adjustment for an overshooting last entry. */
  ghost function Trimmed(ps: seq<int>, maxprime: int): seq<int> {
    if |ps| > 0 && ps[|ps| - 1] > maxprime then ps[..|ps| - 1] else ps
  }

  lemma BaseListFromCells(s: seq<Byte>, maxprime: int)
    requires maxprime >= 2 && CellsSieved(s, maxprime)
    ensures IsBaseList(Trimmed(Survivors(s, |s|), maxprime), maxprime)
  {
    var ps := Survivors(s, |s|);
    var kept := Trimmed(ps, maxprime);
    SurvivorsOrdered(s, |s|);
    forall p | IsOddPrime(p) && p <= maxprime
      ensures p in kept
    {
      PrimeSurvives(p, s, maxprime);
    }
    forall i | 0 <= i < |kept|
      ensures (kept[i] <= maxprime && IsOddPrime(kept[i])) || (kept[i] == maxprime && SquareOfOddPrime(maxprime))
    {
      EntryIsPrime(s, maxprime, i);
    }
  }

  lemma EntryIsPrime(s: seq<Byte>, maxprime: int, i: nat)
    requires maxprime >= 2 && CellsSieved(s, maxprime)
    requires i < |Trimmed(Survivors(s, |s|), maxprime)|
    ensures var n := Trimmed(Survivors(s, |s|), maxprime)[i];
            (n <= maxprime && IsOddPrime(n)) || (n == maxprime && SquareOfOddPrime(maxprime))
  {
    var ps := Survivors(s, |s|);
    SurvivorsOrdered(s, |s|);
    var n := ps[i];
    var j := n / 2 - 1;
    assert n == 2 * j + 3;
    assert n in ps;
    SurvivorsMember(s, |s|, j);
    assert n <= maxprime;
    if !IsPrime(n) {
      var p := OddPrimeFactorBelowRoot(n);
      assert Crossed(n, p);
      assert Square(p) == maxprime;
    }
  }

  lemma PrimeSurvives(n: int, s: seq<Byte>, maxprime: int)
    requires CellsSieved(s, maxprime) && IsOddPrime(n) && n <= maxprime
    ensures n in Trimmed(Survivors(s, |s|), maxprime)
  {
    var ps := Survivors(s, |s|);
    var j := n / 2 - 1;
    assert 2 * j + 3 == n;
    forall p | IsOddPrime(p)
      ensures !Crossed(n, p)
    {
      PrimeNotCrossed(n, p);
    }
    SurvivorsMember(s, |s|, j);
    var i :| 0 <= i < |ps| && ps[i] == n;
    assert Trimmed(ps, maxprime)[i] == n;
  }

  /** Crossing out never removes a prime: not by primes, not by their squares. */
  lemma PrimeNotCrossed(n: int, q: int)
    requires IsPrime(n) && q >= 2
    ensures !Crossed(n, q)
  {
    SquareAtLeast(q);
  }
}
