// The stages an aio-stress operation goes through, and what it leaves behind
// in each.
module AioStages {
  import opened AioModel
  import opened Bits
  import RandomOffset

  /** What an operation did in one stage: the offsets it submitted, and whether
      it was cut off by stonewalling. */
  datatype StageRun = StageRun(rw: nat, sent: seq<int>, stonewalled: bool)

  /** The stages that are run when none is asked for. */
  function Effective(asked: set<nat>): set<nat> {
    if asked == {} then {WRITE, READ, RWRITE, RREAD} else asked
  }

  function LeastFrom(stages: set<nat>, i: nat): nat
    decreases 4 - i
  {
    if i >= 4 then WRITE else if i in stages then i else LeastFrom(stages, i + 1)
  }

  /** first_stage. */
  function FirstStage(asked: set<nat>): nat {
    if asked == {} then WRITE else LeastFrom(asked, 0)
  }

  /** The switch of restart_oper with its fall-throughs; 0 means none. */
  function NextRw(stages: set<nat>, rw: nat): nat {
    var afterWrite := if rw == WRITE && READ in stages then READ else 0;
    var afterRead := if rw <= READ && afterWrite == 0 && RWRITE in stages then RWRITE else afterWrite;
    if rw <= RWRITE && afterRead == 0 && RREAD in stages then RREAD else afterRead
  }

  /** The selected stages from lo up to hi, in increasing order. */
  function Selected(stages: set<nat>, lo: nat, hi: nat): seq<nat>
    decreases hi
  {
    if hi <= lo then []
    else Selected(stages, lo, hi - 1) + if hi - 1 in stages then [hi - 1] else []
  }

  lemma {:induction false} SelectedNone(stages: set<nat>, lo: nat, mid: nat, hi: nat)
    requires lo <= mid <= hi && forall r :: mid <= r < hi ==> r !in stages
    ensures Selected(stages, lo, hi) == Selected(stages, lo, mid)
    decreases hi
  {
    if mid < hi {
      SelectedNone(stages, lo, mid, hi - 1);
    }
  }

  /** The switch picks the next selected stage, and none only after the last. */
  lemma NextRwIsNext(stages: set<nat>, rw: nat)
    requires rw < 4
    ensures var next := NextRw(stages, rw);
            if next == 0 then forall r :: rw < r < 4 ==> r !in stages
            else rw < next < 4 && next in stages && forall r :: rw < r < next ==> r !in stages
  {
  }

  /** The numbers of the stages of a record. */
  ghost function Numbers(runs: seq<StageRun>): seq<nat> {
    seq(|runs|, i requires 0 <= i < |runs| => runs[i].rw)
  }

  /** The stages up to rw when the first one is first. */
  function Trail(stages: set<nat>, first: nat, rw: nat): seq<nat> {
    [first] + Selected(stages, first + 1, rw + 1)
  }

  lemma TrailGrows(stages: set<nat>, first: nat, rw: nat)
    requires first <= rw < 4 && NextRw(stages, rw) != 0
    ensures Trail(stages, first, NextRw(stages, rw)) == Trail(stages, first, rw) + [NextRw(stages, rw)]
  {
    var next := NextRw(stages, rw);
    NextRwIsNext(stages, rw);
    SelectedNone(stages, first + 1, rw + 1, next);
  }

  /** All the stages that will be visited: those selected, in order, or just the
      write stage if what was asked for names no stage. */
  function Plan(asked: set<nat>): seq<nat> {
    if forall r :: 0 <= r < 4 ==> r !in Effective(asked) then [WRITE] else Selected(Effective(asked), 0, 4)
  }

  lemma {:induction false} LeastFromIsLeast(stages: set<nat>, i: nat)
    requires i <= 4
    ensures var f := LeastFrom(stages, i);
            if exists r :: i <= r < 4 && r in stages
            then i <= f < 4 && f in stages && forall r :: i <= r < f ==> r !in stages
            else f == WRITE
    decreases 4 - i
  {
    if i < 4 && i !in stages {
      LeastFromIsLeast(stages, i + 1);
    }
  }

  lemma {:induction false} SelectedFromLeast(stages: set<nat>, f: nat, hi: nat)
    requires f < hi && f in stages && forall r :: 0 <= r < f ==> r !in stages
    ensures Selected(stages, 0, hi) == [f] + Selected(stages, f + 1, hi)
    decreases hi
  {
    if f + 1 < hi {
      SelectedFromLeast(stages, f, hi - 1);
    } else {
      SelectedNone(stages, 0, 0, f);
    }
  }

  /** The trail that ends where restart_oper finds nothing more is the plan. */
  lemma TrailIsPlan(asked: set<nat>, rw: nat)
    requires FirstStage(asked) <= rw < 4 && NextRw(Effective(asked), rw) == 0
    ensures Trail(Effective(asked), FirstStage(asked), rw) == Plan(asked)
  {
    var stages, f := Effective(asked), FirstStage(asked);
    NextRwIsNext(stages, rw);
    SelectedNone(stages, f + 1, rw + 1, 4);
    LeastFromIsLeast(stages, 0);
    if f in stages {
      SelectedFromLeast(stages, f, 4);
    } else {
      SelectedNone(stages, f + 1, f + 1, 4);
    }
  }

  lemma SelectedStages(stages: set<nat>)
    ensures Selected(stages, 0, 4)
            == (if 0 in stages then [0] else []) + (if 1 in stages then [1] else [])
               + (if 2 in stages then [2] else []) + (if 3 in stages then [3] else [])
  {
    assert Selected(stages, 0, 1) == if 0 in stages then [0] else [];
    assert Selected(stages, 0, 2) == Selected(stages, 0, 1) + if 1 in stages then [1] else [];
    assert Selected(stages, 0, 3) == Selected(stages, 0, 2) + if 2 in stages then [2] else [];
  }

  /** The stages visited for what the options ask for: all four, in order, if
      nothing is asked for; else those asked for, in order; and the write stage if
      only numbers were asked for that name no stage. */
  ghost predicate AsAsked(asked: set<nat>, visited: seq<nat>) {
    if asked == {} then visited == [0, 1, 2, 3]
    else if forall r :: 0 <= r < 4 ==> r !in asked then visited == [0]
    else (forall i, j :: 0 <= i < j < |visited| ==> visited[i] < visited[j])
         && (forall r :: r in visited <==> r < 4 && r in asked)
  }

  lemma PlanIsAsAsked(asked: set<nat>)
    ensures AsAsked(asked, Plan(asked))
  {
    hide Selected;
    SelectedStages(Effective(asked));
  }

  // --- one operation's record --------------------------------------------------------

  /** A stage is complete unless stonewalled; a sequential one has run through
      start, start+reclen, ... without a gap or a repetition, and a random one
      has requested only what can be drawn. */
  ghost predicate RunOk(mask: nat, op: Oper, r: StageRun) {
    && |r.sent| <= op.total
    && (!r.stonewalled ==> |r.sent| == op.total)
    && (IsSequential(r.rw) ==> r.sent == Sequential(op.start, op.reclen, |r.sent|))
    && (!IsSequential(r.rw) ==> forall i :: 0 <= i < |r.sent| ==> Drawn(op, mask, r.sent[i]))
  }

  /** A complete sequential stage of a created operation requests the whole
      records of its context, each once and in order, and nothing outside. */
  lemma StageCoversContext(mask: nat, op: Oper, r: StageRun)
    requires op.reclen > 0 && op.start + op.reclen <= op.end
    requires op.total == (op.end - op.start) / op.reclen
    requires RunOk(mask, op, r) && IsSequential(r.rw) && !r.stonewalled
    ensures |r.sent| == op.total && op.end - (op.start + op.reclen * op.total) < op.reclen
    ensures forall i :: 0 <= i < |r.sent| ==> r.sent[i] == op.start + op.reclen * i
    ensures forall i :: 0 <= i < |r.sent| ==> op.start <= r.sent[i] && r.sent[i] + op.reclen <= op.end
  {
    WholeRecords(op.end - op.start, op.reclen);
    AdvanceNonnegative(op.reclen, op.total);
    forall i | 0 <= i < |r.sent|
      ensures r.sent[i] == op.start + op.reclen * i
      ensures op.start <= r.sent[i] && r.sent[i] + op.reclen <= op.end
    {
      SequentialInside(op.start, op.end, op.reclen, op.total, i);
      AdvanceNonnegative(op.reclen, i);
    }
  }

  lemma WholeRecords(n: int, reclen: int)
    requires 0 < reclen <= n
    ensures 1 <= n / reclen && reclen * (n / reclen) <= n < reclen * (n / reclen) + reclen
  {
  }

  /** Whatever a random stage requests lies inside the context, exactly if there
      is room for a record at both ends. */
  lemma RandomStageInside(k: nat, op: Oper)
    requires 0 < op.reclen <= op.end - op.start && 0 < op.total
    requires RandomOffset.Range(op.start, op.end, Pow2(k) - 1) <= RandomOffset.RAND_MAX + 1
    ensures (forall r: StageRun, i :: RunOk(Pow2(k) - 1, op, r) && !IsSequential(r.rw) && 0 <= i < |r.sent| ==>
               op.start <= r.sent[i] && r.sent[i] + op.reclen <= op.end)
            <==> RandomOffset.RoomAtBothEnds(op.start, op.end, op.reclen, Pow2(k) - 1)
  {
    hide RandomOffset.RandomByteOffset, RandomOffset.RoomAtBothEnds, RandomOffset.Range, Pow2;
    RandomOffset.InsideIff(op.start, op.end, op.reclen, k);
    if RandomOffset.RoomAtBothEnds(op.start, op.end, op.reclen, Pow2(k) - 1) {
      forall r: StageRun, i | RunOk(Pow2(k) - 1, op, r) && !IsSequential(r.rw) && 0 <= i < |r.sent|
        ensures op.start <= r.sent[i] && r.sent[i] + op.reclen <= op.end
      {
        assert Drawn(op, Pow2(k) - 1, r.sent[i]);
      }
    } else {
      var draw1, draw2 :| RandomOffset.Draws(draw1, draw2)
                          && var offset := RandomOffset.RandomByteOffset(op.start, op.end, op.reclen, Pow2(k) - 1, draw1, draw2);
                             !(op.start <= offset && offset + op.reclen <= op.end);
      var offset := RandomOffset.RandomByteOffset(op.start, op.end, op.reclen, Pow2(k) - 1, draw1, draw2);
      var r := StageRun(RREAD, [offset], true);
      assert Drawn(op, Pow2(k) - 1, offset);
      assert RunOk(Pow2(k) - 1, op, r) && r.sent[0] == offset;
    }
  }

  ghost predicate RecordOk(stages: set<nat>, first: nat, mask: nat, op: Oper, past: seq<StageRun>) {
    && 1 <= op.total && first <= op.rw < 4
    && (forall i :: 0 <= i < |past| ==> RunOk(mask, op, past[i]))
    && Numbers(past) + [op.rw] == Trail(stages, first, op.rw)
  }

  lemma RecordRestarted(stages: set<nat>, first: nat, mask: nat, op: Oper, past: seq<StageRun>, r: StageRun)
    requires RecordOk(stages, first, mask, op, past) && NextRw(stages, op.rw) != 0
    requires r.rw == op.rw && RunOk(mask, op, r)
    ensures RecordOk(stages, first, mask, Restarted(op, NextRw(stages, op.rw)), past + [r])
  {
    TrailGrows(stages, first, op.rw);
    NextRwIsNext(stages, op.rw);
    assert Numbers(past + [r]) == Numbers(past) + [op.rw];
    forall i | 0 <= i < |past + [r]|
      ensures RunOk(mask, Restarted(op, NextRw(stages, op.rw)), (past + [r])[i])
    {
      assert (past + [r])[i] == if i < |past| then past[i] else r;
    }
  }

  // --- the three lists -----------------------------------------------------------------

  /** Every operation is on exactly one of the lists, once. */
  ghost predicate OperLists(active: seq<nat>, built: seq<nat>, finished: seq<nat>, n: nat) {
    && |active| + |built| + |finished| == n
    && (forall o :: o in active || o in built || o in finished ==> o < n)
    && (forall o: nat :: o < n ==> multiset(active)[o] + multiset(built)[o] + multiset(finished)[o] == 1)
  }

  function Without(s: seq<nat>, i: nat): seq<nat>
    requires i < |s|
  {
    s[..i] + s[i + 1..]
  }

  lemma WithoutIsRemoval(s: seq<nat>, i: nat)
    requires i < |s|
    ensures multiset(Without(s, i)) == multiset(s) - multiset{s[i]}
    ensures |Without(s, i)| == |s| - 1
    ensures forall o :: o in Without(s, i) ==> o in s
  {
    assert s == s[..i] + [s[i]] + s[i + 1..];
  }

  /** Moving an operation from one list to another keeps the lists in order. */
  lemma ActiveToBuilt(active: seq<nat>, built: seq<nat>, finished: seq<nat>, n: nat, i: nat)
    requires OperLists(active, built, finished, n) && i < |active|
    ensures OperLists(Without(active, i), built + [active[i]], finished, n)
    ensures active[i] !in Without(active, i) && active[i] !in built && active[i] !in finished && active[i] < n
  {
    WithoutIsRemoval(active, i);
    var o := active[i];
    assert o in active && multiset(active)[o] >= 1;
  }

  lemma BuiltToActive(active: seq<nat>, built: seq<nat>, finished: seq<nat>, n: nat)
    requires OperLists(active, built, finished, n) && built != []
    ensures OperLists(active + [built[0]], built[1..], finished, n)
    ensures built[0] !in active && built[0] !in built[1..] && built[0] !in finished && built[0] < n
  {
    assert built == [built[0]] + built[1..];
    assert built[0] in built && multiset(built)[built[0]] >= 1;
    assert forall o :: o in built[1..] ==> o in built;
  }

  lemma ActiveToFinished(active: seq<nat>, built: seq<nat>, finished: seq<nat>, n: nat, i: nat)
    requires OperLists(active, built, finished, n) && i < |active|
    ensures OperLists(Without(active, i), built, finished + [active[i]], n)
    ensures active[i] !in Without(active, i) && active[i] !in built && active[i] !in finished && active[i] < n
  {
    WithoutIsRemoval(active, i);
    var o := active[i];
    assert o in active && multiset(active)[o] >= 1;
  }

  lemma FinishedToActive(active: seq<nat>, finished: seq<nat>, n: nat, i: nat)
    requires OperLists(active, [], finished, n) && i < |finished|
    ensures OperLists(active + [finished[i]], [], Without(finished, i), n)
    ensures finished[i] !in Without(finished, i) && finished[i] !in active && finished[i] < n
  {
    WithoutIsRemoval(finished, i);
    var o := finished[i];
    assert o in finished && multiset(finished)[o] >= 1;
  }
}
