// Small things that several of the models share.
module Arithmetic {

  newtype Byte = x: int | 0 <= x < 256

  /** The ranges of int and unsigned int, and what they make of a number. */
  const INT_MAX: int := 0x7fff_ffff
  const UINT_MAX: nat := 0xffff_ffff

  function ToUnsigned(n: nat): (r: nat)
    ensures r <= UINT_MAX && (n - r) % 0x1_0000_0000 == 0
  {
    n % 0x1_0000_0000
  }

  function ToInt(n: int): (r: int)
    ensures -0x8000_0000 <= r <= INT_MAX
    ensures -0x8000_0000 <= n <= INT_MAX ==> r == n
    ensures (n - r) % 0x1_0000_0000 == 0
  {
    (n + 0x8000_0000) % 0x1_0000_0000 - 0x8000_0000
  }

  function Abs(n: int): nat { if n < 0 then -n else n }

  function Min(a: nat, b: nat): nat { if a < b then a else b }

  /** k times size, by addition. */
  function Times(k: nat, size: nat): nat {
    if k == 0 then 0 else Times(k - 1, size) + size
  }

  lemma {:induction false} TimesIsProduct(k: nat, size: nat)
    ensures Times(k, size) == k * size
  {
    if k > 0 {
      TimesIsProduct(k - 1, size);
      assert k * size == (k - 1) * size + size;
    }
  }

  lemma {:induction false} TimesMonotone(k: nat, l: nat, size: nat)
    requires k <= l
    ensures Times(k, size) <= Times(l, size)
    ensures k < l ==> Times(k, size) + size <= Times(l, size)
    decreases l
  {
    if k < l {
      TimesMonotone(k, l - 1, size);
    }
  }

  lemma {:induction false} TimesSum(k: nat, l: nat, size: nat)
    ensures Times(k + l, size) == Times(k, size) + Times(l, size)
    decreases l
  {
    if l > 0 {
      TimesSum(k, l - 1, size);
    }
  }

  lemma {:induction false} TimesTimes(a: nat, b: nat, size: nat)
    ensures Times(a, Times(b, size)) == Times(a * b, size)
    decreases a
  {
    if a > 0 {
      var c := (a - 1) * b;
      assert a * b == c + b;
      TimesTimes(a - 1, b, size);
      TimesSum(c, b, size);
    }
  }

  lemma {:induction false} TimesGrow(k: nat, l: nat, m: nat)
    requires l <= m
    ensures Times(k, l) <= Times(k, m)
  {
    if k > 0 {
      TimesGrow(k - 1, l, m);
    }
  }
}
