// Integers as the text in the files under /proc/sys/kernel: what snprintf
// writes with "%d\n", strtol with base 0 reads back.
module DecimalText {

  newtype Int32 = x: int | -0x8000_0000 <= x < 0x8000_0000

  // --- snprintf -----------------------------------------------------------------

  function Digit(d: nat): char
    requires d < 10
  {
    ['0', '1', '2', '3', '4', '5', '6', '7', '8', '9'][d]
  }

  function Digits(n: nat): (s: string)
    ensures s != []
  {
    if n < 10 then [Digit(n)] else Digits(n / 10) + [Digit(n % 10)]
  }

  /** "%d\n" */
  function Format(v: int): string {
    (if v < 0 then "-" + Digits(-v) else Digits(v)) + "\n"
  }

  // --- strtol --------------------------------------------------------------------

  predicate IsSpace(c: char) { c == ' ' || '\t' <= c <= '\r' }

  /** The value of a digit, or 36 for a character that is none. */
  function DigitValue(c: char): nat {
    if '0' <= c <= '9' then c as int - '0' as int
    else if 'a' <= c <= 'z' then c as int - 'a' as int + 10
    else if 'A' <= c <= 'Z' then c as int - 'A' as int + 10
    else 36
  }

  /** The end of the digits from i on. */
  function DigitsEnd(s: string, i: nat, base: nat): (j: nat)
    requires i <= |s|
    ensures i <= j <= |s|
    decreases |s| - i
  {
    if i < |s| && DigitValue(s[i]) < base then DigitsEnd(s, i + 1, base) else i
  }

  /** The value of the digits from i up to j. */
  function DigitsValue(s: string, i: nat, j: nat, base: nat): nat
    requires i <= j <= |s|
    decreases j
  {
    if i == j then 0 else base * DigitsValue(s, i, j - 1, base) + DigitValue(s[j - 1])
  }

  function SkipSpace(s: string, i: nat): (j: nat)
    requires i <= |s|
    ensures i <= j <= |s|
    decreases |s| - i
  {
    if i < |s| && IsSpace(s[i]) then SkipSpace(s, i + 1) else i
  }

  /** The number at q, hexadecimal, octal or decimal by its prefix, and its end. */
  function Unsigned(s: string, q: nat): (nat, nat)
    requires q <= |s|
  {
    var hex := q + 2 < |s| && s[q] == '0' && (s[q + 1] == 'x' || s[q + 1] == 'X') && DigitValue(s[q + 2]) < 16;
    var base := if hex then 16 else if q < |s| && s[q] == '0' then 8 else 10;
    var from := if hex then q + 2 else q;
    var end := DigitsEnd(s, from, base);
    (DigitsValue(s, from, end, base), end)
  }

  /** strtol(s, &endptr, 0): the value, and how much of s was used. */
  function Strtol(s: string): (r: (int, nat)) {
    var p := SkipSpace(s, 0);
    var q := if p < |s| && (s[p] == '-' || s[p] == '+') then p + 1 else p;
    var (n, end) := Unsigned(s, q);
    var value: int := n;
    if end == q then (0, 0) else (if p < |s| && s[p] == '-' then -value else value, end)
  }

  // --- the round trip ----------------------------------------------------------------

  lemma DigitRead(d: nat)
    requires d < 10
    ensures DigitValue(Digit(d)) == d && !IsSpace(Digit(d)) && Digit(d) != '-' && Digit(d) != '+'
    ensures Digit(d) == '0' <==> d == 0
  {
  }

  /** All characters are digits, and the first is a zero only for zero. */
  lemma {:induction false} DigitsAreDigits(n: nat)
    ensures forall i :: 0 <= i < |Digits(n)| ==>
              DigitValue(Digits(n)[i]) < 10 && !IsSpace(Digits(n)[i]) && Digits(n)[i] != '-' && Digits(n)[i] != '+'
    ensures Digits(n)[0] == '0' ==> n == 0
  {
    DigitRead(n % 10);
    if n >= 10 {
      DigitsAreDigits(n / 10);
    }
  }

  /** Digits within any text are read as their number. */
  lemma {:induction false} DigitsRead(s: string, i: nat, n: nat)
    requires i + |Digits(n)| <= |s| && forall k :: 0 <= k < |Digits(n)| ==> s[i + k] == Digits(n)[k]
    ensures DigitsValue(s, i, i + |Digits(n)|, 10) == n
    decreases n
  {
    var m := |Digits(n)| - 1;
    DigitRead(n % 10);
    assert s[i + m] == Digits(n)[m];
    if n >= 10 {
      forall k | 0 <= k < m
        ensures s[i + k] == Digits(n / 10)[k]
      {
        assert s[i + k] == Digits(n)[k];
      }
      DigitsRead(s, i, n / 10);
    } else {
      assert DigitsValue(s, i, i, 10) == 0;
    }
  }

  lemma {:induction false} EndsBehindDigits(s: string, i: nat, j: nat, base: nat)
    requires i <= j < |s| && DigitValue(s[j]) >= base
    requires forall k :: i <= k < j ==> DigitValue(s[k]) < base
    ensures DigitsEnd(s, i, base) == j
    decreases j - i
  {
    if i < j {
      EndsBehindDigits(s, i + 1, j, base);
    }
  }

  /** Digits at the end of a line are read as their number, never as octal. */
  lemma UnsignedRead(s: string, q: nat, n: nat)
    requires |s| == q + |Digits(n)| + 1 && s[|s| - 1] == '\n'
    requires forall k :: 0 <= k < |Digits(n)| ==> s[q + k] == Digits(n)[k]
    ensures Unsigned(s, q) == (n, |s| - 1)
  {
    var end := |s| - 1;
    DigitsAreDigits(n);
    assert s[q] == Digits(n)[0];
    if n == 0 {
      EndsBehindDigits(s, q, end, 8);
      assert DigitsValue(s, q, q, 8) == 0;
    } else {
      DigitsRead(s, q, n);
      assert forall k :: q <= k < end ==> s[k] == Digits(n)[k - q];
      EndsBehindDigits(s, q, end, 10);
    }
  }

  /** What was written is read back. */
  lemma FormatRead(v: int)
    ensures Strtol(Format(v)) == (v, |Format(v)| - 1)
  {
    hide Unsigned, Digits;
    var s := Format(v);
    var n := if v < 0 then -v else v;
    DigitsAreDigits(n);
    if v < 0 {
      UnsignedRead(s, 1, n);
    } else {
      assert s[0] == Digits(n)[0];
      UnsignedRead(s, 0, n);
    }
  }

  function Pow10(k: nat): nat { if k == 0 then 1 else 10 * Pow10(k - 1) }

  lemma {:induction false} DigitsShort(n: nat, k: nat)
    requires k > 0 && n < Pow10(k)
    ensures |Digits(n)| <= k
  {
    if n >= 10 {
      DigitsShort(n / 10, k - 1);
    }
  }

  /** And it fits the buffer of 32 bytes with its terminator. */
  lemma FormatFits(v: Int32)
    ensures |Format(v as int)| < 32
  {
    var n := if v < 0 then -(v as int) else v as int;
    assert Pow10(5) == 100_000;
    assert Pow10(10) == 10_000_000_000;
    DigitsShort(n, 10);
  }
}
