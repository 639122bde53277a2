// The segmented sieve: windows of odd numbers, each crossed out with the base
// list, carrying every prime's next offset from one window to the next.
module PrimeSieve {
  import opened Arithmetic
  import opened NumberTheory
  import opened PrimeList

  // --- one window ----------------------------------------------------------

  ghost predicate CrossedBySome(v: int, ps: seq<int>)
    requires OddEntries(ps)
  {
    exists i :: 0 <= i < |ps| && Crossed(v, ps[i])
  }

  /** rem == r is q's next offset for a window starting at fr: fr+2*r is the
      first number of the window, or of those after it, that q crosses out. */
  ghost predicate Positioned(q: int, r: int, fr: int)
    requires q > 0
  {
    0 <= r && Crossed(fr + 2 * r, q) && (fr + 2 * r == Square(q) || r < q)
  }

  /** The invariant between windows: a prefix of the list is positioned for the
      window at fr, the rest still carries the mark -1. */
  ghost predicate Carried(ps: seq<int>, rs: seq<int>, fr: int) {
    && |ps| == |rs|
    && OddEntries(ps)
    && (forall i :: 0 <= i < |rs| ==> rs[i] == -1 || Positioned(ps[i], rs[i], fr))
    && (forall i, j :: 0 <= i < j < |rs| && rs[i] == -1 ==> rs[j] == -1)
  }

  /** n rounded up to a whole number of words. */
  method RoundUp(n: nat, word: nat) returns (r: nat)
    requires word > 0
    ensures n <= r < n + word && Divides(word, r)
  {
    var k := (n + word - 1) / word;
    r := k * word;
    assert r + (n + word - 1) % word == n + word - 1;
    MultipleIsDivisible(word, k);
  }

  /** An array of whole words that holds n cells holds n rounded up. */
  lemma RoundedUpFits(n: nat, r: nat, length: nat, word: nat)
    requires word > 0 && n <= r < n + word && Divides(word, r)
    requires n <= length && Divides(word, length)
    ensures r <= length
  {
    if length < r {
      NextMultiple(word, length);
      assert false;
    }
  }

  /** Half the distance to the first odd multiple, given the distance to the
      first multiple. */
  function OddMultipleOffset(start: nat, q: nat): nat {
    (if start % 2 != 0 then start + q else start) / 2
  }

  lemma OddMultiplePositioned(fr: nat, q: nat, start: nat)
    requires 3 <= q && q % 2 == 1 && fr % 2 == 1 && Square(q) < fr
    requires start < q && Divides(q, fr + start)
    ensures Positioned(q, OddMultipleOffset(start, q), fr)
  {
    assert Divides(q, fr + start + q);
  }

  lemma RemainderOf(n: nat, k: nat, q: nat, r: nat)
    requires r < q && n == k * q + r
    ensures n % q == r
  {
    var l, t := n / q, n % q;
    assert n == l * q + t;
    ProductBounds(k - l, q);
    ProductBounds(l - k, q);
    assert (k - l) * q == t - r;
    assert (l - k) * q == r - t;
  }

  /** The distance to the next multiple of q. */
  method ComplementOfRemainder(fr: nat, q: nat) returns (start: nat)
    requires q > 0
    ensures start < q && Divides(q, fr + start)
  {
    start := (q - fr % q) % q;
    ghost var k, r := fr / q, fr % q;
    assert fr == k * q + r;
    if r == 0 {
      RemainderOf(q, 1, q, 0);
      MultipleIsDivisible(q, k);
    } else {
      RemainderOf(q - r, 0, q, q - r);
      MultipleIsDivisible(q, k + 1);
      assert (k + 1) * q == fr + (q - r);
    }
  }

  /** Where to start crossing out with a list entry: at its stored position,
      or, when it carries none yet, at its square or its first odd multiple.
      past means that its square lies beyond the window. */
  method StartOffset(fr: nat, q: nat, rem: int, ssize: nat) returns (past: bool, start2: nat)
    requires 3 <= q && q % 2 == 1 && fr % 2 == 1
    requires rem == -1 || Positioned(q, rem, fr)
    ensures past ==> rem == -1 && fr + 2 * ssize < Square(q)
    ensures !past ==> Positioned(q, start2, fr)
  {
    past, start2 := false, 0;
    if rem >= 0 {
      return false, rem;
    }
    var sq := Squared(q);
    if fr <= sq {
      var start := sq - fr;
      if start > 2 * ssize {
        return true, 0;
      }
      StartAtSquarePositioned(fr, q);
      start2 := start / 2;
    } else {
      var start := ComplementOfRemainder(fr, q);
      OddMultiplePositioned(fr, q, start);
      start2 := OddMultipleOffset(start, q);
    }
  }

  lemma StartAtSquarePositioned(fr: nat, q: nat)
    requires 3 <= q && q % 2 == 1 && fr % 2 == 1 && fr <= Square(q)
    ensures Positioned(q, (Square(q) - fr) / 2, fr)
  {
    OddSquare(q);
    var f, h := fr / 2, Square(q) / 2;
    assert fr == 2 * f + 1 && Square(q) == 2 * h + 1;
    assert (Square(q) - fr) / 2 == h - f;
  }

  /** Moving the window: the offset left over by crossing out positions q for
      the window that starts where this one ends. */
  lemma PositionedNext(q: int, start: nat, fr: int, ssize: nat, k: nat)
    requires 3 <= q && q % 2 == 1
    requires Positioned(q, start, fr)
    requires start <= k + ssize && Divides(q, k + ssize - start)
    requires k + ssize == start || k < q
    ensures Positioned(q, k, fr + 2 * ssize)
  {
    CrossedAlong(fr, q, start, k + ssize);
    assert fr + 2 * ssize + 2 * k == fr + 2 * (k + ssize);
  }

  lemma CrossedBySomeStep(v: int, ps: seq<int>, i: nat)
    requires i < |ps| && OddEntries(ps)
    ensures CrossedBySome(v, ps[..i + 1]) <==> CrossedBySome(v, ps[..i]) || Crossed(v, ps[i])
  {
    var qs := ps[..i + 1];
    assert forall k :: 0 <= k < i ==> ps[..i][k] == qs[k];
    if Crossed(v, ps[i]) {
      assert qs[i] == ps[i];
    }
  }

  /** The early break loses nothing: from the first unpositioned entry whose
      square lies past the window on, no entry crosses anything in it. */
  lemma BreakLosesNothing(ps: seq<int>, i: nat, v: int)
    requires i < |ps| && OddEntries(ps) && Increasing(ps) && v < Square(ps[i])
    ensures CrossedBySome(v, ps) <==> CrossedBySome(v, ps[..i])
  {
    forall j | i <= j < |ps|
      ensures !Crossed(v, ps[j])
    {
      SquareMonotone(ps[i], ps[j]);
    }
    assert forall k :: 0 <= k < i ==> ps[..i][k] == ps[k];
  }

  ghost predicate WindowSieved(s: seq<Byte>, fr: int, ssize: nat, ps: seq<int>)
    requires OddEntries(ps) && ssize <= |s|
  {
    forall j :: 0 <= j < ssize ==> (s[j] == 0 <==> CrossedBySome(fr + 2 * j, ps))
  }

  /** Sets the cells of the window, and the padding of its last word. */
  method FillWindow(s: array<Byte>, ssize: nat, word: nat)
    requires word > 0 && ssize <= s.Length && Divides(word, s.Length)
    modifies s
    ensures forall j :: 0 <= j < ssize ==> s[j] == 255
  {
    var se := RoundUp(ssize, word);
    RoundedUpFits(ssize, se, s.Length, word);
    for j := 0 to se
      invariant forall i :: 0 <= i < j ==> s[i] == 255
    {
      s[j] := 255;
    }
  }

  /** Crosses one entry out of the window and stores its next offset. */
  method CrossOutEntry(s: array<Byte>, q: nat, start: nat, fr: int, ssize: nat, ghost ps: seq<int>, ghost i: nat)
    returns (k: int)
    requires ssize <= s.Length && OddEntries(ps) && i < |ps| && ps[i] == q
    requires Positioned(q, start, fr)
    requires WindowSieved(s[..], fr, ssize, ps[..i])
    modifies s
    ensures WindowSieved(s[..], fr, ssize, ps[..i + 1])
    ensures Positioned(q, k, fr + 2 * ssize)
  {
    k := CrossOut(s, start, ssize, q);
    PositionedNext(q, start, fr, ssize, k);
    forall j | 0 <= j < ssize
      ensures s[j] == 0 <==> CrossedBySome(fr + 2 * j, ps[..i + 1])
    {
      CrossedAlong(fr, q, start, j);
      CrossedBySomeStep(fr + 2 * j, ps, i);
      assert old(s[..])[j] == old(s[j]);
    }
  }

  ghost predicate PositionedUpTo(ps: seq<int>, rs: seq<int>, i: nat, fr: int)
    requires OddEntries(ps) && i <= |ps| == |rs|
  {
    forall j :: 0 <= j < i ==> Positioned(ps[j], rs[j], fr)
  }

  lemma CarriedForward(ps: seq<int>, rs: seq<int>, after: seq<int>, i: nat, fr: int, next: int)
    requires Carried(ps, rs, fr) && |after| == |rs| && i <= |ps|
    requires PositionedUpTo(ps, after, i, next)
    requires forall j :: i <= j < |rs| ==> after[j] == rs[j]
    requires i < |ps| ==> rs[i] == -1
    ensures Carried(ps, after, next)
  {
    forall j | i <= j < |ps|
      ensures after[j] == -1
    {
      assert after[j] == rs[j];
    }
  }

  lemma WindowDone(s: seq<Byte>, fr: int, ssize: nat, ps: seq<int>, i: nat)
    requires OddEntries(ps) && Increasing(ps) && i <= |ps| && ssize <= |s|
    requires WindowSieved(s, fr, ssize, ps[..i])
    requires i < |ps| ==> fr + 2 * ssize < Square(ps[i])
    ensures WindowSieved(s, fr, ssize, ps)
  {
    if i < |ps| {
      forall j | 0 <= j < ssize
        ensures CrossedBySome(fr + 2 * j, ps) <==> CrossedBySome(fr + 2 * j, ps[..i])
      {
        BreakLosesNothing(ps, i, fr + 2 * j);
      }
    } else {
      assert ps[..i] == ps;
    }
  }

  lemma NothingCrossed(s: seq<Byte>, fr: int, ssize: nat, ps: seq<int>, rs: seq<int>)
    requires OddEntries(ps) && ssize <= |s| && |rs| == |ps| && forall j :: 0 <= j < ssize ==> s[j] == 255
    ensures WindowSieved(s, fr, ssize, ps[..0]) && PositionedUpTo(ps, rs, 0, fr + 2 * ssize)
  {
  }

  /** One turn of sieve_region's loop: past is the early break. */
  method SieveEntry(s: array<Byte>, prime: array<int>, rem: array<int>, i: nat, fr: nat, ssize: nat,
                    ghost ps: seq<int>, ghost rs: seq<int>) returns (past: bool)
    requires fr % 2 == 1 && ssize <= s.Length && prime != rem
    requires i < |ps| == |rs| <= prime.Length == rem.Length && prime[..|ps|] == ps
    requires Carried(ps, rs, fr)
    requires WindowSieved(s[..], fr, ssize, ps[..i])
    requires PositionedUpTo(ps, rem[..|ps|], i, fr + 2 * ssize)
    requires forall j :: i <= j < |ps| ==> rem[j] == rs[j]
    modifies s, rem
    ensures prime[..|ps|] == ps
    ensures past ==> rs[i] == -1 && fr + 2 * ssize < Square(ps[i])
    ensures past ==> s[..] == old(s[..]) && rem[..] == old(rem[..])
    ensures !past ==> WindowSieved(s[..], fr, ssize, ps[..i + 1])
    ensures !past ==> PositionedUpTo(ps, rem[..|ps|], i + 1, fr + 2 * ssize)
    ensures forall j :: i < j < |ps| ==> rem[j] == rs[j]
  {
    assert prime[i] == ps[i] && rem[i] == rs[i];
    var start2;
    past, start2 := StartOffset(fr, prime[i], rem[i], ssize);
    if !past {
      var k := CrossOutEntry(s, prime[i], start2, fr, ssize, ps, i);
      ghost var before := rem[..|ps|];
      rem[i] := k;
      assert rem[..|ps|] == before[i := k];
    }
  }

  /** sieve_region: afterwards cell j is zero iff some list entry q divides
      fr+2*j and q*q <= fr+2*j, and the list is carried over to the adjacent
      window. */
  method SieveRegion(s: array<Byte>, prime: array<int>, rem: array<int>, nPrimes: nat,
                     fr: nat, rsize: nat, word: nat)
    requires word > 0 && fr % 2 == 1 && rsize % 2 == 0
    requires rsize / 2 <= s.Length && Divides(word, s.Length)
    requires nPrimes <= prime.Length == rem.Length && prime != rem
    requires Increasing(prime[..nPrimes]) && Carried(prime[..nPrimes], rem[..nPrimes], fr)
    modifies s, rem
    ensures OddEntries(prime[..nPrimes])
    ensures WindowSieved(s[..], fr, rsize / 2, prime[..nPrimes])
    ensures Carried(prime[..nPrimes], rem[..nPrimes], fr + rsize)
  {
    hide CrossedBySome, Positioned, WindowSieved, PositionedUpTo, Increasing;
    var ssize := rsize / 2;
    FillWindow(s, ssize, word);
    ghost var ps, rs := prime[..nPrimes], rem[..nPrimes];
    NothingCrossed(s[..], fr, ssize, ps, rs);
    var i := 0;
    while i < nPrimes
      invariant 0 <= i <= nPrimes
      invariant prime[..nPrimes] == ps
      invariant WindowSieved(s[..], fr, ssize, ps[..i])
      invariant PositionedUpTo(ps, rem[..nPrimes], i, fr + 2 * ssize)
      invariant forall j :: i <= j < nPrimes ==> rem[j] == rs[j]
    {
      var past := SieveEntry(s, prime, rem, i, fr, ssize, ps, rs);
      if past {
        break;
      }
      i := i + 1;
    }
    WindowDone(s[..], fr, ssize, ps, i);
    CarriedForward(ps, rs, rem[..nPrimes], i, fr, fr + 2 * ssize);
  }
}
