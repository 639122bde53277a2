// Masks of the form 2^k - 1 on nonnegative integers, bit by bit.
module Bits {

  function Pow2(k: nat): (r: nat)
    ensures r >= 1
  {
    if k == 0 then 1 else 2 * Pow2(k - 1)
  }

  /** x & m */
  function And(x: nat, m: nat): nat {
    if x == 0 || m == 0 then 0
    else 2 * And(x / 2, m / 2) + if x % 2 == 1 && m % 2 == 1 then 1 else 0
  }

  /** x & ~m */
  function AndNot(x: nat, m: nat): nat {
    if x == 0 then 0
    else 2 * AndNot(x / 2, m / 2) + if x % 2 == 1 && m % 2 == 0 then 1 else 0
  }

  lemma HalfRemainder(x: nat, n: nat)
    requires n > 0
    ensures x % (2 * n) == 2 * ((x / 2) % n) + x % 2
    ensures x - x % (2 * n) == 2 * (x / 2 - (x / 2) % n)
  {
    var q, r := (x / 2) / n, (x / 2) % n;
    assert x == 2 * (q * n + r) + x % 2;
    assert x == q * (2 * n) + (2 * r + x % 2);
    RemainderIs(x, 2 * n, q, 2 * r + x % 2);
  }

  lemma RemainderIs(x: nat, n: nat, q: nat, r: nat)
    requires n > 0 && x == q * n + r && r < n
    ensures x % n == r && x / n == q
  {
    var p, s := x / n, x % n;
    assert x == p * n + s;
    QuotientOnce(n, p, s, q, r);
  }

  lemma QuotientOnce(n: nat, p: nat, s: nat, q: nat, r: nat)
    requires p * n + s == q * n + r && s < n && r < n
    ensures p == q && s == r
  {
    if p < q {
      AtLeastOnce(n, q - p);
    } else if q < p {
      AtLeastOnce(n, p - q);
    }
  }

  lemma AtLeastOnce(n: nat, d: nat)
    requires d >= 1
    ensures d * n >= n
  {
  }

  lemma {:induction false} AndStep(x: nat, h: nat)
    ensures And(x, 2 * h + 1) == 2 * And(x / 2, h) + x % 2
    ensures AndNot(x, 2 * h + 1) == 2 * AndNot(x / 2, h)
  {
    assert (2 * h + 1) / 2 == h && (2 * h + 1) % 2 == 1;
  }

  lemma PowerStep(k: nat)
    ensures k == 0 ==> Pow2(k) == 1
    ensures k > 0 ==> Pow2(k) == 2 * Pow2(k - 1)
  {
  }

  /** Masking with 2^k - 1 takes the remainder. */
  lemma {:induction false} AndMask(x: nat, k: nat)
    ensures And(x, Pow2(k) - 1) == x % Pow2(k)
  {
    hide And, Pow2;
    PowerStep(k);
    if k == 0 {
      AndZero(x);
    } else {
      AndMask(x / 2, k - 1);
      AndStep(x, Pow2(k - 1) - 1);
      HalfRemainder(x, Pow2(k - 1));
    }
  }

  lemma AndZero(x: nat)
    ensures And(x, 0) == 0
  {
  }

  /** Masking it out rounds down to a multiple. */
  lemma {:induction false} AndNotMask(x: nat, k: nat)
    ensures AndNot(x, Pow2(k) - 1) == x - x % Pow2(k)
  {
    hide AndNot, Pow2;
    PowerStep(k);
    if k == 0 {
      AndNotZero(x);
    } else {
      AndNotMask(x / 2, k - 1);
      AndStep(x, Pow2(k - 1) - 1);
      HalfRemainder(x, Pow2(k - 1));
    }
  }

  /** Whatever the mask, clearing its bits takes at most the mask away. */
  lemma {:induction false} AndNotBounds(x: nat, m: nat)
    ensures x - m <= AndNot(x, m) <= x
  {
    if x > 0 {
      AndNotBounds(x / 2, m / 2);
    }
  }

  lemma {:induction false} AndNotZero(x: nat)
    ensures AndNot(x, 0) == x
  {
    if x > 0 {
      AndNotZero(x / 2);
    }
  }
}
