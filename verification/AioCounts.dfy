// The counters of an operation, which are ints: how many requests it has, how
// many it gets in a round, and when counting them does not overflow.
module AioCounts {
  import opened Arithmetic
  import opened Bits

  /** total_ios, which loses what does not fit an int. */
  function TotalIos(start: int, end: int, reclen: int): int
    requires reclen > 0 && start <= end
  {
    ToInt((end - start) / reclen)
  }

  /** build_oper: the requests that an operation gets in a round, of those it has
      left. */
  function Chunk(ioIter: nat, left: int): int { if ioIter <= left then ioIter else left }

  /** n requests rounded up to whole rounds of ioIter. */
  function RoundedUp(n: nat, ioIter: nat): nat
    requires 1 <= ioIter
  {
    (n + ioIter - 1) / ioIter * ioIter
  }

  lemma RoundedUpBounds(n: nat, ioIter: nat)
    requires 1 <= ioIter
    ensures n <= RoundedUp(n, ioIter) < n + ioIter
    ensures n > 0 ==> ioIter <= RoundedUp(n, ioIter)
  {
    var m := n + ioIter - 1;
    assert m == m / ioIter * ioIter + m % ioIter;
    if n > 0 {
      AtLeastOnce(ioIter, m / ioIter);
    }
  }

  lemma RoundedUpStep(n: nat, ioIter: nat)
    requires 1 <= ioIter
    ensures RoundedUp(n + ioIter, ioIter) == RoundedUp(n, ioIter) + ioIter
  {
    var m := n + ioIter - 1;
    var q := m / ioIter;
    assert m == q * ioIter + m % ioIter;
    assert m + ioIter == (q + 1) * ioIter + m % ioIter;
    RemainderIs(m + ioIter, ioIter, q + 1, m % ioIter);
  }

  lemma RoundedUpGrows(m: nat, n: nat, ioIter: nat)
    requires 1 <= ioIter && m <= n
    ensures RoundedUp(m, ioIter) <= RoundedUp(n, ioIter)
  {
    hide RoundedUp;
    RoundedUpBounds(m, ioIter);
    RoundedUpBounds(n, ioIter);
    RoundedUpApart(m, n, ioIter);
  }

  lemma RoundedUpApart(m: nat, n: nat, ioIter: nat)
    requires 1 <= ioIter
    ensures RoundedUp(n, ioIter) < RoundedUp(m, ioIter) ==> RoundedUp(n, ioIter) + ioIter <= RoundedUp(m, ioIter)
  {
    Multiples((m + ioIter - 1) / ioIter, (n + ioIter - 1) / ioIter, ioIter);
  }

  lemma Multiples(p: nat, q: nat, d: nat)
    ensures q < p ==> q * d + d <= p * d
    ensures p <= q ==> p * d <= q * d
  {
    if q < p {
      AtLeastNone(p - q - 1, d);
      assert p * d == q * d + d + (p - q - 1) * d;
    } else {
      AtLeastNone(q - p, d);
      assert q * d == p * d + (q - p) * d;
    }
  }

  lemma AtLeastNone(n: nat, d: nat)
    ensures 0 <= n * d
  {
  }

  /** An operation has started whole rounds, or all it has, and counting to the
      end of its last round does not overflow. */
  predicate Room(started: nat, total: int, ioIter: nat) {
    && 1 <= ioIter && started <= total && RoundedUp(total, ioIter) <= INT_MAX
    && (started < total ==> started + RoundedUp(total - started, ioIter) == RoundedUp(total, ioIter))
  }

  lemma RoomToCount(started: nat, total: int, ioIter: nat)
    requires Room(started, total, ioIter) && started < total
    ensures started + ioIter <= INT_MAX
  {
    hide RoundedUp;
    RoundedUpBounds(total - started, ioIter);
  }

  lemma RoomNext(started: nat, total: int, ioIter: nat)
    requires Room(started, total, ioIter) && started < total
    ensures Chunk(ioIter, total - started) > 0
    ensures Room(started + Chunk(ioIter, total - started), total, ioIter)
  {
    hide RoundedUp;
    if started + ioIter < total {
      RoundedUpStep(total - started - ioIter, ioIter);
    }
  }

  lemma RoomAgain(started: nat, total: int, ioIter: nat)
    requires Room(started, total, ioIter)
    ensures Room(0, total, ioIter)
  {
  }
}
