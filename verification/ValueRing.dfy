// The ring buffer of cyclictest: the timer thread counts a cycle and then
// stores its latency, the main thread prints what it has not printed yet, and
// nothing synchronises the two.
module ValueRing {
  import opened Bits

  /** Where the timer thread is: before counting a cycle or before storing. */
  datatype Writer = Counting | Storing

  /** Where print_stat is in its loop. */
  datatype Reader = Testing | Loading | Printing(diff: int, behind: nat) | Bumping

  /** A printed line, and how many cycles the timer thread had stored after this
      one when its value was loaded. */
  datatype Line = Line(cycle: nat, value: int, behind: nat)

  /** diffs[c - 1] is the latency measured for cycle c. */
  datatype State = State(bufmsk: nat, cycles: nat, values: seq<int>, writer: Writer, diffs: seq<int>,
                         cyclesread: nat, reader: Reader, lines: seq<Line>)

  /** One statement of either thread; the timer thread measured diff. */
  datatype Event = Write(diff: int) | Read

  /** main: calloc'ed values, and the mask for 2^k of them; there is no ring if
      the mask is zero. */
  function Start(k: nat): State {
    State(Pow2(k) - 1, 0, seq(Pow2(k), _ => 0), Counting, [], 0, Testing, [])
  }

  /** The last cycle whose latency is in the ring. */
  function Stored(s: State): int {
    if s.writer == Counting then s.cycles else s.cycles - 1
  }

  function WriterStep(s: State, diff: int): State
    requires s.writer == Storing ==> And(s.cycles, s.bufmsk) < |s.values| && s.diffs != []
  {
    match s.writer
    case Counting => s.(cycles := s.cycles + 1, diffs := s.diffs + [diff], writer := Storing)
    case Storing =>
      if s.bufmsk != 0 then
        s.(values := s.values[And(s.cycles, s.bufmsk) := s.diffs[|s.diffs| - 1]], writer := Counting)
      else
        s.(writer := Counting)
  }

  function ReaderStep(s: State): State
    requires And(s.cyclesread, s.bufmsk) < |s.values|
    requires s.reader.Loading? ==> s.cyclesread <= Stored(s)
  {
    match s.reader
    case Testing => if s.cycles != s.cyclesread then s.(reader := Loading) else s
    case Loading => s.(reader := Printing(s.values[And(s.cyclesread, s.bufmsk)], Stored(s) - s.cyclesread))
    case Printing(diff, behind) => s.(lines := s.lines + [Line(s.cyclesread, diff, behind)], reader := Bumping)
    case Bumping => s.(cyclesread := s.cyclesread + 1, reader := Testing)
  }

  // --- what is in the ring ---------------------------------------------------------

  /** The latency of a cycle; there is none for cycle 0. */
  function Latency(diffs: seq<int>, c: nat): int
    requires c <= |diffs|
  {
    if c == 0 then 0 else diffs[c - 1]
  }

  /** The cycle whose value a line shows: as many whole rounds later than its own
      as the timer thread was ahead. */
  function Shown(cycle: nat, behind: nat, size: nat): (r: nat)
    requires size > 0
    ensures cycle <= r <= cycle + behind
    ensures r == cycle <==> behind < size
  {
    RoundsDown(behind, size);
    cycle + (behind - behind % size)
  }

  lemma RoundsDown(x: nat, n: nat)
    requires n > 0
    ensures x % n <= x && (x - x % n == 0 <==> x < n)
  {
    if x < n {
      RemainderIs(x, n, 0, x);
    }
  }

  /** A slot holds the latency of the last cycle stored in it, or still zero. */
  ghost predicate RingOk(diffs: seq<int>, stored: nat, values: seq<int>)
    requires stored <= |diffs|
  {
    && |values| > 0
    && forall c: nat :: c <= stored < c + |values| ==> values[c % |values|] == Latency(diffs, c)
  }

  lemma SameSlot(a: nat, b: nat, n: nat)
    requires n > 0 && a <= b < a + n && a % n == b % n
    ensures a == b
  {
    assert (b / n - a / n) * n == b - a;
    if b / n > a / n {
      AtLeastOnce(n, b / n - a / n);
    }
  }

  lemma StoreKeepsRing(diffs: seq<int>, stored: nat, values: seq<int>)
    requires stored < |diffs| && RingOk(diffs, stored, values)
    ensures RingOk(diffs, stored + 1, values[(stored + 1) % |values| := diffs[stored]])
  {
    var n := |values|;
    var after := values[(stored + 1) % n := diffs[stored]];
    forall c: nat | c <= stored + 1 < c + n
      ensures after[c % n] == Latency(diffs, c)
    {
      if c % n == (stored + 1) % n {
        SameSlot(c, stored + 1, n);
      }
    }
  }

  /** So a slot read for any cycle up to the last stored one shows the cycle that
      is whole rounds later. */
  lemma SlotShows(diffs: seq<int>, stored: nat, values: seq<int>, r: nat)
    requires stored <= |diffs| && RingOk(diffs, stored, values) && r <= stored
    ensures values[r % |values|] == Latency(diffs, Shown(r, stored - r, |values|))
  {
    var n := |values|;
    var d := stored - r;
    var c := Shown(r, d, n);
    assert d == d / n * n + d % n;
    assert c == r + d / n * n;
    SameRemainder(r, d / n, n);
  }

  lemma SameRemainder(r: nat, q: nat, n: nat)
    requires n > 0
    ensures (r + q * n) % n == r % n
  {
    assert r + q * n == (r / n + q) * n + r % n;
    RemainderIs(r + q * n, n, r / n + q, r % n);
  }

  // --- every interleaving ------------------------------------------------------------

  ghost predicate Inv(s: State, k: nat) {
    && s.bufmsk == Pow2(k) - 1 && s.bufmsk != 0 && |s.values| == Pow2(k)
    && s.cycles == |s.diffs| && (s.writer == Storing ==> s.cycles > 0)
    && RingOk(s.diffs, Stored(s), s.values)
    && s.cyclesread <= s.cycles
    && (s.reader != Testing ==> s.cyclesread < s.cycles)
    && |s.lines| == s.cyclesread + (if s.reader == Bumping then 1 else 0)
    && (s.reader.Printing? ==> LineOk(s, Line(s.cyclesread, s.reader.diff, s.reader.behind), k))
    && forall i :: 0 <= i < |s.lines| ==> s.lines[i].cycle == i && LineOk(s, s.lines[i], k)
  }

  /** The value of a line is a latency already measured: its own cycle's exactly
      if less than a ringful had been stored after it. */
  ghost predicate LineOk(s: State, l: Line, k: nat) {
    && l.cycle + l.behind <= |s.diffs|
    && l.value == Latency(s.diffs, Shown(l.cycle, l.behind, Pow2(k)))
  }

  lemma LineStays(s: State, t: State, l: Line, k: nat)
    requires s.diffs <= t.diffs
    ensures LineOk(s, l, k) ==> LineOk(t, l, k)
  {
  }

  function Step(s: State, e: Event): State
    requires s.writer == Storing ==> And(s.cycles, s.bufmsk) < |s.values| && s.diffs != []
    requires And(s.cyclesread, s.bufmsk) < |s.values|
    requires s.reader.Loading? ==> s.cyclesread <= Stored(s)
  {
    match e
    case Write(diff) => WriterStep(s, diff)
    case Read => ReaderStep(s)
  }

  lemma CanStep(s: State, k: nat)
    requires Inv(s, k)
    ensures s.writer == Storing ==> And(s.cycles, s.bufmsk) < |s.values| && s.diffs != []
    ensures And(s.cyclesread, s.bufmsk) < |s.values|
    ensures s.reader.Loading? ==> s.cyclesread <= Stored(s)
    ensures And(s.cycles, s.bufmsk) == s.cycles % |s.values| && And(s.cyclesread, s.bufmsk) == s.cyclesread % |s.values|
  {
    AndMask(s.cycles, k);
    AndMask(s.cyclesread, k);
  }

  lemma WriterKeepsInv(s: State, diff: int, k: nat)
    requires Inv(s, k)
    ensures s.writer == Storing ==> And(s.cycles, s.bufmsk) < |s.values| && s.diffs != []
    ensures Inv(WriterStep(s, diff), k)
  {
    hide And, Pow2, LineOk;
    CanStep(s, k);
    var t := WriterStep(s, diff);
    if s.writer == Storing {
      StoreKeepsRing(s.diffs, Stored(s), s.values);
    }
    if s.reader.Printing? {
      LineStays(s, t, Line(s.cyclesread, s.reader.diff, s.reader.behind), k);
    }
    forall i | 0 <= i < |s.lines|
      ensures LineOk(t, s.lines[i], k)
    {
      LineStays(s, t, s.lines[i], k);
    }
  }

  lemma ReaderKeepsInv(s: State, k: nat)
    requires Inv(s, k)
    ensures And(s.cyclesread, s.bufmsk) < |s.values| && (s.reader.Loading? ==> s.cyclesread <= Stored(s))
    ensures Inv(ReaderStep(s), k)
  {
    hide And, Pow2, RingOk;
    CanStep(s, k);
    if s.reader == Loading {
      SlotShows(s.diffs, Stored(s), s.values, s.cyclesread);
    }
  }

  lemma StepKeepsInv(s: State, e: Event, k: nat)
    requires Inv(s, k)
    ensures s.writer == Storing ==> And(s.cycles, s.bufmsk) < |s.values| && s.diffs != []
    ensures And(s.cyclesread, s.bufmsk) < |s.values|
    ensures s.reader.Loading? ==> s.cyclesread <= Stored(s)
    ensures Inv(Step(s, e), k)
  {
    hide Inv;
    CanStep(s, k);
    match e
    case Write(diff) => WriterKeepsInv(s, diff, k);
    case Read => ReaderKeepsInv(s, k);
  }

  lemma StartOk(k: nat)
    requires k >= 1
    ensures Inv(Start(k), k)
  {
  }

  /** The state after the two threads' statements in any order. */
  ghost function After(k: nat, events: seq<Event>): (s: State)
    requires k >= 1
    ensures Inv(s, k)
    decreases |events|
  {
    if events == [] then
      StartOk(k);
      Start(k)
    else
      var n := |events| - 1;
      var s := After(k, events[..n]);
      StepKeepsInv(s, events[n], k);
      Step(s, events[n])
  }

  /** How many statements of the timer thread are among the events. */
  function Writes(events: seq<Event>): nat
    decreases |events|
  {
    if events == [] then 0
    else
      var n := |events| - 1;
      Writes(events[..n]) + if events[n].Write? then 1 else 0
  }

  /** What was measured: every other statement of the timer thread, from the first
      one on, counts a cycle. */
  function Measured(events: seq<Event>): seq<int>
    decreases |events|
  {
    if events == [] then []
    else
      var n := |events| - 1;
      Measured(events[..n]) +
      if events[n].Write? && Writes(events[..n]) % 2 == 0 then [events[n].diff] else []
  }

  /** The timer thread knows nothing of the main thread. */
  lemma {:induction false} WriterAlone(k: nat, events: seq<Event>)
    requires k >= 1
    ensures var s := After(k, events);
            && s.diffs == Measured(events) && s.cycles == |Measured(events)| == (Writes(events) + 1) / 2
            && Stored(s) == Writes(events) / 2 && (s.writer == Counting <==> Writes(events) % 2 == 0)
    decreases |events|
  {
    hide Inv, And, Pow2;
    if events != [] {
      var n := |events| - 1;
      WriterAlone(k, events[..n]);
      AfterOne(k, events[..n], events[n]);
      assert events == events[..n] + [events[n]];
    } else {
      AfterNone(k);
    }
  }

  /** A value was loaded by one of the events, when so many cycles after its own
      were stored. */
  ghost predicate LoadedAt(events: seq<Event>, cycle: nat, behind: nat, n: nat) {
    n < |events| && events[n].Read? && cycle + behind == Writes(events[..n]) / 2
  }

  ghost predicate Loaded(events: seq<Event>, cycle: nat, behind: nat) {
    exists n: nat :: LoadedAt(events, cycle, behind, n)
  }

  lemma LoadedBefore(events: seq<Event>, m: nat, cycle: nat, behind: nat)
    requires m <= |events| && Loaded(events[..m], cycle, behind)
    ensures Loaded(events, cycle, behind)
  {
    var n: nat :| LoadedAt(events[..m], cycle, behind, n);
    assert events[..m][..n] == events[..n];
    assert LoadedAt(events, cycle, behind, n);
  }

  lemma {:induction false} AllLoaded(k: nat, events: seq<Event>)
    requires k >= 1
    ensures var s := After(k, events);
            && (forall i :: 0 <= i < |s.lines| ==> Loaded(events, s.lines[i].cycle, s.lines[i].behind))
            && (s.reader.Printing? ==> Loaded(events, s.cyclesread, s.reader.behind))
    decreases |events|
  {
    hide Inv, And, Pow2, Loaded, Writes;
    if events == [] {
      AfterNone(k);
    } else {
      var n := |events| - 1;
      var s, t := After(k, events[..n]), After(k, events);
      AllLoaded(k, events[..n]);
      AfterOne(k, events[..n], events[n]);
      assert events == events[..n] + [events[n]];
      forall i | 0 <= i < |t.lines|
        ensures Loaded(events, t.lines[i].cycle, t.lines[i].behind)
      {
        LoadedBefore(events, n, t.lines[i].cycle, t.lines[i].behind);
      }
      if t.reader.Printing? && s.reader.Printing? {
        LoadedBefore(events, n, t.cyclesread, t.reader.behind);
      } else if t.reader.Printing? {
        LoadedNow(k, events);
      }
    }
  }

  lemma LoadedNow(k: nat, events: seq<Event>)
    requires k >= 1 && events != [] && events[|events| - 1].Read?
    requires After(k, events[..|events| - 1]).reader == Loading && After(k, events).reader.Printing?
    ensures Loaded(events, After(k, events).cyclesread, After(k, events).reader.behind)
  {
    hide Inv, And, Pow2, Writes;
    var n := |events| - 1;
    AfterOne(k, events[..n], events[n]);
    assert events == events[..n] + [events[n]];
    WriterAlone(k, events[..n]);
    assert LoadedAt(events, After(k, events).cyclesread, After(k, events).reader.behind, n);
  }

  /** Line i shows what was measured for its own cycle if less than a ringful was
      stored after it; else for the cycle as many whole rounds later. */
  predicate LineShows(l: Line, i: nat, diffs: seq<int>, size: nat)
    requires size > 0
  {
    var c := i + l.behind / size * size;
    && l.cycle == i && 0 <= c <= |diffs|
    && l.value == (if c == 0 then 0 else diffs[c - 1])
    && (c == i <==> l.behind < size)
  }

  lemma ShownLine(diffs: seq<int>, l: Line, size: nat)
    requires size > 0 && l.cycle + l.behind <= |diffs|
    requires l.value == Latency(diffs, Shown(l.cycle, l.behind, size))
    ensures LineShows(l, l.cycle, diffs, size)
  {
    assert l.behind == l.behind / size * size + l.behind % size;
    var c := Shown(l.cycle, l.behind, size);
    assert c == l.cycle + l.behind / size * size;
  }

  /** In every interleaving the lines count 0, 1, 2, ..., each shows a latency that
      was measured, and which one depends on how much was stored when it was
      loaded. */
  lemma LinesAreLatencies(k: nat, events: seq<Event>)
    requires k >= 1
    ensures var s, diffs := After(k, events), Measured(events);
            && |s.lines| <= s.cycles == |diffs|
            && forall i :: 0 <= i < |s.lines| ==>
                 LineShows(s.lines[i], i, diffs, Pow2(k)) && Loaded(events, i, s.lines[i].behind)
  {
    hide RingOk, Loaded, Measured, Pow2, LineShows, Latency, Shown;
    var s := After(k, events);
    WriterAlone(k, events);
    AllLoaded(k, events);
    forall i: nat | i < |s.lines|
      ensures LineShows(s.lines[i], i, s.diffs, Pow2(k)) && Loaded(events, i, s.lines[i].behind)
    {
      assert s.lines[i].cycle == i && LineOk(s, s.lines[i], k);
      ShownLine(s.diffs, s.lines[i], Pow2(k));
    }
  }

  /** Nothing printed or measured is ever taken back. */
  lemma {:induction false} LinesOnlyGrow(k: nat, events: seq<Event>, n: nat)
    requires k >= 1 && n <= |events|
    ensures After(k, events[..n]).lines <= After(k, events).lines
    ensures After(k, events[..n]).diffs <= After(k, events).diffs
    decreases |events|
  {
    hide Inv;
    var m := |events| - 1;
    if n == |events| {
      assert events[..n] == events;
    } else {
      assert events[..m][..n] == events[..n];
      LinesOnlyGrow(k, events[..m], n);
      var s, t := After(k, events[..m]), After(k, events);
      StepKeepsInv(s, events[m], k);
      assert t == Step(s, events[m]);
      assert s.lines <= t.lines && s.diffs <= t.diffs;
    }
  }

  /** n statements of print_stat with the timer thread at rest. */
  ghost function Alone(s: State, k: nat, n: nat): (t: State)
    requires Inv(s, k)
    ensures Inv(t, k)
    decreases n
  {
    if n == 0 then s
    else
      ReaderKeepsInv(s, k);
      Alone(ReaderStep(s), k, n - 1)
  }

  /** print_stat does not return before every cycle counted so far but the last
      has its line, cycle 0 being none. */
  lemma {:induction false} CatchesUp(s: State, k: nat)
    requires Inv(s, k) && s.reader == Testing
    ensures var t := Alone(s, k, 4 * (s.cycles - s.cyclesread));
            t.reader == Testing && t.cyclesread == t.cycles == s.cycles && |t.lines| == s.cycles
    decreases s.cycles - s.cyclesread
  {
    if s.cyclesread < s.cycles {
      var n := 4 * (s.cycles - s.cyclesread);
      var next := Alone(s, k, 4);
      FourSteps(s, k);
      CatchesUp(next, k);
      AloneSplits(s, k, 4, n - 4);
    }
  }

  lemma FourSteps(s: State, k: nat)
    requires Inv(s, k) && s.reader == Testing && s.cyclesread < s.cycles
    ensures var t := Alone(s, k, 4);
            t.reader == Testing && t.cyclesread == s.cyclesread + 1 && t.cycles == s.cycles
  {
    hide Inv;
    var s1 := Alone(s, k, 1);
    AloneSplits(s, k, 1, 3);
    AloneSplits(s1, k, 1, 2);
    AloneSplits(Alone(s1, k, 1), k, 1, 1);
    OneStep(s, k);
    OneStep(s1, k);
    OneStep(Alone(s1, k, 1), k);
    OneStep(Alone(Alone(s1, k, 1), k, 1), k);
  }

  lemma OneStep(s: State, k: nat)
    requires Inv(s, k)
    ensures And(s.cyclesread, s.bufmsk) < |s.values| && (s.reader.Loading? ==> s.cyclesread <= Stored(s))
    ensures Alone(s, k, 1) == ReaderStep(s)
  {
    hide Inv;
    ReaderKeepsInv(s, k);
    assert Alone(ReaderStep(s), k, 0) == ReaderStep(s);
  }

  lemma {:induction false} AloneSplits(s: State, k: nat, m: nat, n: nat)
    requires Inv(s, k)
    ensures Alone(s, k, m + n) == Alone(Alone(s, k, m), k, n)
    decreases m
  {
    hide Inv;
    if m > 0 {
      ReaderKeepsInv(s, k);
      AloneSplits(ReaderStep(s), k, m - 1, n);
    }
  }

  lemma AfterOne(k: nat, events: seq<Event>, e: Event)
    requires k >= 1
    ensures var s := After(k, events);
            && (s.writer == Storing ==> And(s.cycles, s.bufmsk) < |s.values| && s.diffs != [])
            && And(s.cyclesread, s.bufmsk) < |s.values|
            && (s.reader.Loading? ==> s.cyclesread <= Stored(s))
            && After(k, events + [e]) == Step(s, e)
  {
    hide Inv;
    StepKeepsInv(After(k, events), e, k);
    assert (events + [e])[..|events|] == events;
  }

  lemma AfterNone(k: nat)
    requires k >= 1
    ensures After(k, []) == Start(k)
  {
  }

  /** The timer thread running through whole cycles. */
  function Cycles(diffs: seq<int>): seq<Event> {
    if diffs == [] then []
    else
      var n := |diffs| - 1;
      Cycles(diffs[..n]) + [Write(diffs[n])] + [Write(diffs[n])]
  }

  lemma {:induction false} AfterCycles(k: nat, diffs: seq<int>)
    requires k >= 1
    ensures var s := After(k, Cycles(diffs));
            && s.cycles == |diffs| && s.diffs == diffs && s.writer == Counting
            && s.reader == Testing && s.cyclesread == 0 && s.lines == []
    decreases |diffs|
  {
    hide Inv, And, Pow2, After;
    AfterNone(k);
    if diffs != [] {
      var n := |diffs| - 1;
      AfterCycles(k, diffs[..n]);
      AfterOne(k, Cycles(diffs[..n]), Write(diffs[n]));
      AfterOne(k, Cycles(diffs[..n]) + [Write(diffs[n])], Write(diffs[n]));
      assert diffs == diffs[..n] + [diffs[n]];
    }
  }

  /** Once a full ring of cycles goes by unread, the very first line is wrong:
      with 2^k latencies stored it shows that of cycle 2^k, not the zero that
      belongs to cycle 0. */
  lemma Overrun(k: nat, diffs: seq<int>)
    requires k >= 1 && |diffs| > 0
    ensures var lines := After(k, Cycles(diffs) + [Read] + [Read] + [Read]).lines;
            && |lines| == 1 && lines[0].behind == |diffs| && LineShows(lines[0], 0, diffs, Pow2(k))
            && (|diffs| == Pow2(k) ==> lines == [Line(0, diffs[|diffs| - 1], |diffs|)])
  {
    hide Inv, And, Pow2, Cycles, After, LineShows;
    var e := Cycles(diffs);
    AfterCycles(k, diffs);
    AfterOne(k, e, Read);
    AfterOne(k, e + [Read], Read);
    AfterOne(k, e + [Read] + [Read], Read);
    var s := After(k, e + [Read] + [Read] + [Read]);
    assert |s.lines| == 1 && s.lines[0].cycle == 0 && s.lines[0].behind == |diffs| && s.diffs == diffs;
    InvLine(s, k);
    ShownLine(diffs, s.lines[0], Pow2(k));
    if |diffs| == Pow2(k) {
      FullRound(s.lines[0], diffs);
    }
  }

  lemma FullRound(l: Line, diffs: seq<int>)
    requires |diffs| > 0 && l.behind == |diffs| && LineShows(l, 0, diffs, |diffs|)
    ensures l == Line(0, diffs[|diffs| - 1], |diffs|)
  {
    RemainderIs(|diffs|, |diffs|, 1, 0);
  }

  lemma InvLine(s: State, k: nat)
    requires Inv(s, k) && |s.lines| > 0
    ensures LineOk(s, s.lines[0], k)
  {
  }
}
