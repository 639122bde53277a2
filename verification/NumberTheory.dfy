// The number theory the segmented sieve rests on: primes, the square bound on
// the smallest factor, Euclid's lemma, and residues along an odd step.
module NumberTheory {

  /** d divides n, by counting down to the remainder in steps of d.
      DividesIsRemainderZero ties it to %. */
  ghost predicate Divides(d: int, n: int)
    requires d > 0
    decreases if n < 0 then d - n else n
  {
    if n < 0 then Divides(d, n + d)
    else if n < d then n == 0
    else Divides(d, n - d)
  }

  ghost predicate IsPrime(n: int) {
    2 <= n && forall d :: 2 <= d < n ==> !Divides(d, n)
  }

  ghost predicate IsOddPrime(n: int) {
    3 <= n && n % 2 == 1 && IsPrime(n)
  }

  // --- divisibility ------------------------------------------------------

  lemma ProductBounds(x: int, d: int)
    requires d > 0
    ensures 1 <= x ==> d <= x * d
    ensures x <= 0 ==> x * d <= 0
    ensures x <= -1 ==> x * d <= -d
  {
    if 1 <= x {
      assert x * d == (x - 1) * d + d;
    } else {
      assert x * d == -((-x) * d);
    }
  }

  lemma {:induction false} MultipleIsDivisible(d: int, k: int)
    requires d > 0
    ensures Divides(d, k * d)
    decreases if k < 0 then -k else k
  {
    ProductBounds(k, d);
    if k > 0 {
      assert k * d - d == (k - 1) * d;
      MultipleIsDivisible(d, k - 1);
    } else if k < 0 {
      assert k * d + d == (k + 1) * d;
      MultipleIsDivisible(d, k + 1);
    }
  }

  lemma {:induction false} Quotient(d: int, n: int) returns (k: int)
    requires d > 0 && Divides(d, n)
    ensures n == k * d
    decreases if n < 0 then d - n else n
  {
    if n < 0 {
      k := Quotient(d, n + d);
      k := k - 1;
    } else if n < d {
      k := 0;
    } else {
      k := Quotient(d, n - d);
      k := k + 1;
    }
  }

  lemma DividesIsRemainderZero(d: int, n: int)
    requires d > 0
    ensures Divides(d, n) <==> n % d == 0
  {
    var k, r := n / d, n % d;
    MultipleIsDivisible(d, k);
    DividesSum(d, k * d, r);
    assert k * d + r == n;
  }

  lemma DividesCombination(d: int, a: int, b: int, x: int, y: int)
    requires d > 0 && Divides(d, a) && Divides(d, b)
    ensures Divides(d, x * a + y * b)
  {
    var k := Quotient(d, a);
    var l := Quotient(d, b);
    assert x * a + y * b == (x * k + y * l) * d by {
      assert x * a == (x * k) * d;
      assert y * b == (y * l) * d;
    }
    MultipleIsDivisible(d, x * k + y * l);
  }

  lemma DividesSum(d: int, a: int, b: int)
    requires d > 0 && Divides(d, a)
    ensures Divides(d, a + b) <==> Divides(d, b)
  {
    if Divides(d, b) {
      DividesCombination(d, a, b, 1, 1);
    }
    if Divides(d, a + b) {
      DividesCombination(d, a, a + b, -1, 1);
    }
  }

  lemma DividesProduct(d: int, a: int, b: int)
    requires d > 0 && Divides(d, a)
    ensures Divides(d, a * b) && Divides(d, b * a)
  {
    var k := Quotient(d, a);
    MultipleIsDivisible(d, k * b);
    assert (k * b) * d == a * b == b * a;
  }

  lemma DividesTransitive(d: int, e: int, n: int)
    requires d > 0 && e > 0 && Divides(d, e) && Divides(e, n)
    ensures Divides(d, n)
  {
    var k := Quotient(e, n);
    DividesProduct(d, e, k);
    assert e * k == n;
  }

  lemma SmallMultiple(d: int, n: int)
    requires 0 < n < d
    ensures !Divides(d, n)
  {
  }

  /** An odd number that divides 2*m divides m. */
  lemma OddDividesHalf(q: int, m: int)
    requires q > 0 && q % 2 == 1
    ensures Divides(q, 2 * m) <==> Divides(q, m)
  {
    hide *;
    var h := q / 2;
    if Divides(q, m) {
      DividesCombination(q, m, m, 1, 1);
    }
    if Divides(q, 2 * m) {
      MultipleIsDivisible(q, m);
      DividesCombination(q, m * q, 2 * m, 1, -h);
      HalvesCancel(q, h, m);
    }
  }

  lemma HalvesCancel(q: int, h: int, m: int)
    requires q == 2 * h + 1
    ensures 1 * (m * q) + -h * (2 * m) == m
  {
    assert m * q == m * (2 * h) + m;
  }

  /** n squared, as a sum of odd numbers; SquareIsProduct ties it to n*n. */
  function Square(n: int): nat
    decreases if n < 0 then 0 else n
  {
    if n <= 0 then 0 else Square(n - 1) + 2 * n - 1
  }

  lemma {:induction false} SquareIsProduct(n: nat)
    ensures Square(n) == n * n
  {
    if n > 0 {
      SquareIsProduct(n - 1);
      assert n * n == (n - 1) * (n - 1) + 2 * n - 1;
    }
  }

  method Squared(n: nat) returns (s: nat)
    ensures s == Square(n)
  {
    s := n * n;
    SquareIsProduct(n);
  }

  lemma {:induction false} SquareMonotone(a: int, b: int)
    requires 0 <= a && 0 <= b
    ensures a <= b ==> Square(a) <= Square(b)
    ensures a < b ==> Square(a) < Square(b)
    decreases a + b
  {
    if 0 < a && 0 < b {
      SquareMonotone(a - 1, b - 1);
    } else if 0 < b {
      SquareMonotone(0, b - 1);
    } else if 0 < a {
      SquareMonotone(a - 1, 0);
    }
  }

  lemma {:induction false} SquareAtLeast(n: int)
    requires 0 <= n
    ensures n <= Square(n)
    ensures 2 <= n ==> n < Square(n)
    ensures 3 <= n ==> 9 <= Square(n)
    ensures Square(n) % 2 == n % 2
  {
    if 0 < n {
      SquareAtLeast(n - 1);
      OddStep(Square(n - 1), n);
    }
  }

  lemma OddStep(s: int, n: int)
    requires s % 2 == (n - 1) % 2
    ensures (s + 2 * n - 1) % 2 == n % 2
  {
  }

  // --- smallest factors --------------------------------------------------

  lemma SmallestFactorFrom(n: int, a: int) returns (p: int)
    requires 2 <= a <= n
    requires forall d :: 2 <= d < a ==> !Divides(d, n)
    ensures 2 <= p <= n && Divides(p, n)
    ensures forall d :: 2 <= d < p ==> !Divides(d, n)
    decreases n - a
  {
    if a == n || Divides(a, n) {
      p := a;
    } else {
      p := SmallestFactorFrom(n, a + 1);
    }
  }

  lemma CofactorAtLeast(p: int, n: int)
    requires 2 <= p < n && Divides(p, n)
    requires forall d :: 2 <= d < p ==> !Divides(d, n)
    ensures Square(p) <= n
  {
    var k := Quotient(p, n);
    ProductBounds(k, p);
    assert 1 < k;
    MultipleIsDivisible(k, p);
    assert p * k == n;
    assert p <= k;
    ProductBounds(k - p, p);
    assert (k - p) * p == n - p * p;
    SquareIsProduct(p);
  }

  /** A composite has a prime factor whose square does not exceed it. */
  lemma PrimeFactorBelowRoot(n: int) returns (p: int)
    requires 2 <= n && !IsPrime(n)
    ensures IsPrime(p) && p < n && Divides(p, n) && Square(p) <= n
  {
    p := SmallestFactorFrom(n, 2);
    forall d | 2 <= d < p
      ensures !Divides(d, p)
    {
      if Divides(d, p) {
        DividesTransitive(d, p, n);
      }
    }
    CofactorAtLeast(p, n);
  }

  /** An odd composite is at least the square of an odd prime factor. */
  lemma OddPrimeFactorBelowRoot(n: int) returns (p: int)
    requires 3 <= n && n % 2 == 1 && !IsPrime(n)
    ensures IsOddPrime(p) && p < n && Divides(p, n) && Square(p) <= n
  {
    p := PrimeFactorBelowRoot(n);
    if p % 2 == 0 {
      DividesIsRemainderZero(2, p);
      DividesTransitive(2, p, n);
      DividesIsRemainderZero(2, n);
      assert false;
    }
  }

  // --- Euclid's lemma ----------------------------------------------------

  lemma LeastMultiplierFrom(p: int, b: int, a: int) returns (d: int)
    requires 1 <= a <= p && p > 0
    requires forall e :: 1 <= e < a ==> !Divides(p, e * b)
    ensures 1 <= d <= p && Divides(p, d * b)
    ensures forall e :: 1 <= e < d ==> !Divides(p, e * b)
    decreases p - a
  {
    if Divides(p, a * b) {
      d := a;
    } else if a == p {
      DividesProduct(p, p, b);
      assert false;
    } else {
      d := LeastMultiplierFrom(p, b, a + 1);
    }
  }

  lemma {:induction false} LeastMultiplierDivides(p: int, b: int, d: int, a: int)
    requires p > 0 && 1 <= d && 0 <= a && Divides(p, d * b) && Divides(p, a * b)
    requires forall e :: 1 <= e < d ==> !Divides(p, e * b)
    ensures Divides(d, a)
    decreases a
  {
    if a >= d {
      DividesCombination(p, a * b, d * b, 1, -1);
      assert 1 * (a * b) + -1 * (d * b) == (a - d) * b;
      LeastMultiplierDivides(p, b, d, a - d);
    }
  }

  lemma EuclidsLemma(p: int, a: nat, b: int)
    requires IsPrime(p) && Divides(p, a * b)
    ensures Divides(p, a) || Divides(p, b)
  {
    var d := LeastMultiplierFrom(p, b, 1);
    DividesProduct(p, p, b);
    LeastMultiplierDivides(p, b, d, p);
    LeastMultiplierDivides(p, b, d, a);
    assert d == 1 || d == p;
    if d == 1 {
      assert 1 * b == b;
    }
  }

  // --- crossing out --------------------------------------------------------

  /** What sieving by q removes: the multiples of q from q*q on. */
  ghost predicate Crossed(v: int, q: int)
    requires q > 0
  {
    Square(q) <= v && Divides(q, v)
  }

  /** Along the odd numbers fr, fr+2, ..., if fr+2*r is the first number at or
      after fr that q crosses out, exactly every q-th one from there on is
      crossed out. */
  lemma CrossedAlong(fr: int, q: int, r: nat, j: nat)
    requires q > 0 && q % 2 == 1
    requires Crossed(fr + 2 * r, q)
    requires fr + 2 * r == Square(q) || r < q
    ensures Crossed(fr + 2 * j, q) <==> r <= j && Divides(q, j - r)
  {
    var a := fr + 2 * r;
    DividesSum(q, a, 2 * (j - r));
    assert a + 2 * (j - r) == fr + 2 * j;
    OddDividesHalf(q, j - r);
    if j < r < q {
      assert !Divides(q, j - r + q);
    }
  }
}
