// All threads of aio-stress together: each has its own operations, and they share
// the files, the barrier, and whoever is done first cuts off the others. When they
// all get through.
module AioTeam {
  import opened AioFiles
  import opened AioModel
  import opened AioStages
  import B = StageBarrier

  /** The stages asked for, whether threads are cut off, how many there are, the
      operations main creates and the thread of each. */
  datatype Team = Team(asked: set<nat>, stonewall: bool, threads: nat, opers: seq<Oper>, owner: seq<nat>) {
    ghost predicate Valid() {
      && 2 <= threads && |owner| == |opers| && Covered(opers)
      && (forall o: nat :: o < |opers| ==>
            owner[o] < threads && Untouched(opers[o]) && 0 < opers[o].reclen && 0 < opers[o].total
            && opers[o].rw == FirstStage(asked))
      && (forall i: nat :: i < threads ==> HasWork(i))
    }

    ghost predicate HasWork(i: nat) {
      exists o: nat :: o < |owner| && owner[o] == i
    }

    /** Every thread goes through all stages of the plan. */
    function Barrier(): B.Config { B.Config(seq(threads, _ => |Plan(asked)|)) }
  }

  /** waiting holds the requests in flight that are not performed, by operation
      and number. */
  datatype State = State(barrier: B.State, files: seq<File>, opers: seq<Oper>, waiting: set<(nat, nat)>)

  // --- the steps ------------------------------------------------------------------------

  /** A step of the barrier; a thread starts requests of an operation; the kernel
      performs one, by which a write of a random stage reaches any byte; a thread
      cuts off one of its operations. */
  datatype Label = Meet(l: B.Label) | Start(o: nat, n: nat) | Perform(o: nat, r: nat, upTo: int) | Cut(o: nat)

  predicate Shape(c: Team, s: State) {
    && |s.barrier.place| == |s.barrier.done| == c.threads && |s.opers| == |c.opers| == |c.owner|
    && (forall o: nat :: o < |s.opers| ==> c.owner[o] < c.threads && s.opers[o].file < |s.files|)
  }

  predicate Active(op: Oper) { op.started < op.total && !op.stonewalled }

  predicate Works(s: State, i: nat) {
    i < |s.barrier.place| && s.barrier.place[i].Working?
  }

  /** Nothing of the thread is active, and nothing is in flight. */
  ghost predicate ThreadDone(c: Team, s: State, i: nat)
    requires Shape(c, s)
  {
    && (forall o: nat :: o < |s.opers| && c.owner[o] == i ==> !Active(s.opers[o]))
    && (forall w :: w in s.waiting ==> w.0 < |s.opers| && c.owner[w.0] != i)
  }

  ghost predicate Enabled(c: Team, s: State, l: Label) {
    Shape(c, s) &&
    match l
    case Meet(m) => B.Enabled(c.Barrier(), s.barrier, m) && (m.ArriveEnd? ==> ThreadDone(c, s, m.i))
    case Start(o, n) =>
      && o < |s.opers| && Works(s, c.owner[o]) && Active(s.opers[o])
      && Allowed(s.files, s.opers[o], s.opers[o].started) && 1 <= n <= s.opers[o].total - s.opers[o].started
    case Perform(o, r, upTo) =>
      && o < |s.opers| && (o, r) in s.waiting
      && (s.opers[o].rw == WRITE ==> upTo == s.opers[o].start + Advance(s.opers[o].reclen, r + 1))
    case Cut(o) =>
      && c.stonewall && s.barrier.ending > 0
      && o < |s.opers| && Works(s, c.owner[o]) && Active(s.opers[o])
  }

  /** restart_oper for all operations of a thread. */
  function RestartedOf(c: Team, opers: seq<Oper>, i: nat): (r: seq<Oper>)
    requires |opers| == |c.owner|
    ensures |r| == |opers|
  {
    seq(|opers|, o requires 0 <= o < |opers| =>
      if c.owner[o] == i && NextRw(Effective(c.asked), opers[o].rw) != 0
      then Restarted(opers[o], NextRw(Effective(c.asked), opers[o].rw)) else opers[o])
  }

  function Requests(o: nat, from: nat, n: nat): set<(nat, nat)> {
    set r | from <= r < from + n :: (o, r)
  }

  ghost function Apply(c: Team, s: State, l: Label): State
    requires Enabled(c, s, l)
  {
    match l
    case Meet(m) =>
      s.(barrier := B.Apply(c.Barrier(), s.barrier, m),
         opers := if m.ArriveEnd? then RestartedOf(c, s.opers, m.i) else s.opers)
    case Start(o, n) =>
      s.(opers := s.opers[o := s.opers[o].(started := s.opers[o].started + n)],
         waiting := s.waiting + Requests(o, s.opers[o].started, n))
    case Perform(o, r, upTo) =>
      var f := s.opers[o].file;
      s.(waiting := s.waiting - {(o, r)},
         files := if IsWrite(s.opers[o].rw) then s.files[f := AfterWrite(s.files[f], upTo)] else s.files)
    case Cut(o) => s.(opers := s.opers[o := s.opers[o].(stonewalled := true)])
  }

  function Init(c: Team, files: seq<File>): State {
    State(B.Init(c.Barrier()), files, c.opers, {})
  }

  ghost predicate Path(c: Team, s: State, ls: seq<Label>, t: State)
    decreases |ls|
  {
    if ls == [] then s == t
    else Enabled(c, s, ls[0]) && Path(c, Apply(c, s, ls[0]), ls[1..], t)
  }

  // --- the plan, step by step -----------------------------------------------------------

  /** restart_oper takes an operation through the plan and then stops. */
  lemma PlanSteps(asked: set<nat>, k: nat)
    ensures |Plan(asked)| > 0 && Plan(asked)[0] == FirstStage(asked)
    ensures k < |Plan(asked)| ==> Plan(asked)[k] < 4
    ensures k < |Plan(asked)| ==>
              NextRw(Effective(asked), Plan(asked)[k]) == if k + 1 < |Plan(asked)| then Plan(asked)[k + 1] else 0
    ensures 0 < k < |Plan(asked)| ==> Plan(asked)[k] != WRITE
  {
    hide Selected;
    SelectedStages(Effective(asked));
    assert LeastFrom(asked, 4) == WRITE;
  }

  // --- the invariant ----------------------------------------------------------------------

  /** How many stages a thread has behind it; restarting comes before the end
      rendezvous. */
  function Pos(s: State, i: nat): nat
    requires i < |s.barrier.place| == |s.barrier.done|
  {
    s.barrier.done[i] + if s.barrier.place[i].InEnd? then 1 else 0
  }

  /** A write of the write stage is on disk or still to be performed. */
  ghost predicate Kept(s: State, o: nat, r: nat)
    requires o < |s.opers| && s.opers[o].file < |s.files|
  {
    || (o, r) in s.waiting
    || OnDisk(s.files[s.opers[o].file], s.opers[o].start + Advance(s.opers[o].reclen, r + 1))
  }

  ghost predicate InWork(c: Team, s: State, o: nat)
    requires o < |s.opers| && s.opers[o].file < |s.files|
  {
    && s.opers[o].started <= s.opers[o].total
    && (s.opers[o].stonewalled ==> c.stonewall && s.barrier.ending > 0)
    && (s.opers[o].rw == WRITE ==> forall r: nat :: r < s.opers[o].started ==> Kept(s, o, r))
  }

  /** Operations are in the stage their thread is at, and fresh while it does not
      work. */
  ghost predicate OperOk(c: Team, s: State, o: nat)
    requires Shape(c, s) && o < |s.opers|
  {
    var i, op := c.owner[o], s.opers[o];
    Pos(s, i) < |Plan(c.asked)| ==>
      && op.rw == Plan(c.asked)[Pos(s, i)]
      && if Works(s, i) then InWork(c, s, o) else op.started == 0 && !op.stonewalled
  }

  ghost predicate WaitingOk(c: Team, s: State)
    requires Shape(c, s)
  {
    forall w :: w in s.waiting ==> w.0 < |s.opers| && Works(s, c.owner[w.0]) && w.1 < s.opers[w.0].started
  }

  /** All files of the thread's contexts are long enough for them to start. */
  ghost predicate FedThread(c: Team, files: seq<File>, i: nat) {
    forall o: nat :: o < |c.opers| && o < |c.owner| && c.owner[o] == i ==>
      c.opers[o].file < |files| && !TooShort(files[c.opers[o].file], c.opers[o].start)
  }

  /** What the threads together need to read: with stonewalling one of them, and
      without it all. */
  ghost predicate TeamFed(c: Team, files: seq<File>) {
    if c.stonewall then exists i: nat :: i < c.threads && FedThread(c, files, i)
    else forall i: nat :: i < c.threads ==> FedThread(c, files, i)
  }

  /** The thread's contexts are on disk as far as they have whole records. */
  ghost predicate Filled(c: Team, files: seq<File>, i: nat) {
    forall o: nat :: o < |c.opers| && o < |c.owner| && c.owner[o] == i ==>
      c.opers[o].file < |files| && 0 < c.opers[o].total
      && OnDisk(files[c.opers[o].file], c.opers[o].start + Advance(c.opers[o].reclen, c.opers[o].total))
  }

  /** Whoever has the write stage behind it has filled its files, or was cut off by
      one that has. */
  ghost predicate WritersFed(c: Team, s: State)
    requires Shape(c, s)
  {
    forall i: nat :: i < c.threads && Pos(s, i) > 0 ==> if c.stonewall then TeamFed(c, s.files) else Filled(c, s.files, i)
  }

  ghost predicate TeamInv(c: Team, s: State, k: nat) {
    && c.Valid() && Shape(c, s) && B.Inv(c.Barrier(), s.barrier, k) && SameContexts(c.opers, s.opers)
    && (forall o: nat :: o < |s.opers| ==> OperOk(c, s, o))
    && WaitingOk(c, s) && NoneEarly(s.opers, s.files)
    && (FirstStage(c.asked) == WRITE ==> WritersFed(c, s))
  }

  /** They get through exactly if they do not start by reading, or are fed. */
  ghost predicate GetsThrough(c: Team, files: seq<File>) {
    FirstStage(c.asked) != READ || TeamFed(c, files)
  }

  // --- every step keeps it ------------------------------------------------------------------

  /** What a step of the barrier does to the places. */
  lemma BarrierMoves(c: B.Config, s: B.State, k: nat, l: B.Label, j: nat)
    requires B.Inv(c, s, k) && B.Enabled(c, s, l) && j < c.Threads()
    ensures var t := B.Apply(c, s, l);
            && |t.place| == |t.done| == c.Threads()
            && t.done[j] + (if t.place[j].InEnd? then 1 else 0)
               == s.done[j] + (if s.place[j].InEnd? then 1 else 0) + (if l == B.ArriveEnd(j) then 1 else 0)
            && (s.place[j].Working? && l != B.ArriveEnd(j) ==> t.place[j].Working? && t.ending >= s.ending)
            && (t.place[j].Working? ==>
                  l != B.ArriveEnd(j) && (s.place[j].Working? || s.place[j].AtStart? || s.place[j].InStart?))
  {
    if s.starting == c.Threads() {
      assert B.InStage(c, s, k, j) && B.InStage(c, s, k, l.i);
    } else {
      assert B.Gathering(c, s, k, j) && B.Gathering(c, s, k, l.i);
    }
  }

  /** A thread that comes to the end of its stage leaves its operations fresh for
      the next one; for the others a step of the barrier makes no difference. */
  lemma MeetKeepsOper(c: Team, s: State, k: nat, m: B.Label, o: nat)
    requires TeamInv(c, s, k) && Enabled(c, s, Meet(m)) && o < |s.opers|
    ensures Shape(c, Apply(c, s, Meet(m))) && OperOk(c, Apply(c, s, Meet(m)), o)
  {
    hide B.Inv, B.Enabled, B.Apply, Plan, NextRw, Effective, ThreadDone, WaitingOk, WritersFed, Covered, Kept;
    MeetShape(c, s, k, m);
    var i := c.owner[o];
    BarrierMoves(c.Barrier(), s.barrier, k, m, i);
    PlanSteps(c.asked, Pos(s, i));
    PlanSteps(c.asked, Pos(s, i) + 1);
    assert OperOk(c, s, o);
    var t := Apply(c, s, Meet(m));
    if s.barrier.place[i].Working? && m != B.ArriveEnd(i) && Pos(s, i) < |Plan(c.asked)| {
      KeptStays(c, s, t, o);
    }
  }

  lemma MeetShape(c: Team, s: State, k: nat, m: B.Label)
    requires TeamInv(c, s, k) && Enabled(c, s, Meet(m))
    ensures Shape(c, Apply(c, s, Meet(m)))
    ensures SameContexts(c.opers, Apply(c, s, Meet(m)).opers)
    ensures forall o: nat :: o < |s.opers| && m != B.ArriveEnd(c.owner[o]) ==> Apply(c, s, Meet(m)).opers[o] == s.opers[o]
  {
    hide B.Inv, Plan, NextRw, Effective, ThreadDone, WaitingOk, WritersFed, Covered, OperOk;
  }

  lemma KeptStays(c: Team, s: State, t: State, o: nat)
    requires o < |s.opers| == |t.opers| && s.opers[o].file < |s.files| && t.opers[o] == s.opers[o]
    requires s.files == t.files && s.waiting == t.waiting && s.barrier.ending <= t.barrier.ending && InWork(c, s, o)
    ensures InWork(c, t, o)
  {
    assert forall r: nat :: Kept(s, o, r) ==> Kept(t, o, r);
  }

  lemma MeetKeepsWaiting(c: Team, s: State, k: nat, m: B.Label)
    requires TeamInv(c, s, k) && Enabled(c, s, Meet(m))
    ensures Shape(c, Apply(c, s, Meet(m))) && WaitingOk(c, Apply(c, s, Meet(m)))
  {
    hide B.Inv, B.Enabled, B.Apply, Plan, NextRw, Effective, WritersFed, Covered, OperOk;
    MeetShape(c, s, k, m);
    var t := Apply(c, s, Meet(m));
    forall w | w in t.waiting
      ensures w.0 < |t.opers| && Works(t, c.owner[w.0]) && w.1 < t.opers[w.0].started
    {
      BarrierMoves(c.Barrier(), s.barrier, k, m, c.owner[w.0]);
    }
  }

  /** A thread that nobody cut off has filled its files. */
  lemma FilledByItself(c: Team, s: State, k: nat, i: nat)
    requires TeamInv(c, s, k) && i < c.threads && Works(s, i) && ThreadDone(c, s, i)
    requires Pos(s, i) == 0 && FirstStage(c.asked) == WRITE && !(c.stonewall && s.barrier.ending > 0)
    ensures Filled(c, s.files, i)
  {
    hide B.Inv, Plan, WritersFed, Covered, Advance;
    PlanSteps(c.asked, 0);
    forall o: nat | o < |c.opers| && c.owner[o] == i
      ensures c.opers[o].file < |s.files| && 0 < c.opers[o].total
      ensures OnDisk(s.files[c.opers[o].file], c.opers[o].start + Advance(c.opers[o].reclen, c.opers[o].total))
    {
      assert OperOk(c, s, o);
      assert Kept(s, o, s.opers[o].total - 1);
    }
  }

  lemma FilledIsFed(c: Team, files: seq<File>, i: nat)
    requires c.Valid() && i < c.threads && Filled(c, files, i)
    ensures FedThread(c, files, i) && (c.stonewall ==> TeamFed(c, files))
  {
    hide Covered, Advance;
    forall o: nat | o < |c.opers| && c.owner[o] == i
      ensures c.opers[o].file < |files| && !TooShort(files[c.opers[o].file], c.opers[o].start)
    {
      AdvanceNonnegative(c.opers[o].reclen, c.opers[o].total);
    }
  }

  lemma SomeoneAhead(c: Team, s: State, k: nat, i: nat) returns (j: nat)
    requires TeamInv(c, s, k) && Works(s, i) && s.barrier.ending > 0
    ensures j < c.threads && Pos(s, j) > 0
  {
    hide Plan, WritersFed, Covered, OperOk, WaitingOk;
    B.CountBounds(s.barrier.place, c.threads);
    assert s.barrier.starting == c.threads by {
      assert s.barrier.starting != c.threads ==> B.Gathering(c.Barrier(), s.barrier, k, i);
    }
    j :| j < c.threads && s.barrier.place[j].InEnd?;
  }

  lemma MeetKeepsFed(c: Team, s: State, k: nat, m: B.Label)
    requires TeamInv(c, s, k) && Enabled(c, s, Meet(m)) && FirstStage(c.asked) == WRITE
    ensures Shape(c, Apply(c, s, Meet(m))) && WritersFed(c, Apply(c, s, Meet(m)))
  {
    hide B.Inv, B.Apply, Plan, NextRw, Effective, Covered, OperOk, WaitingOk, FedThread, Filled, ThreadDone, TeamFed;
    MeetShape(c, s, k, m);
    var t := Apply(c, s, Meet(m));
    forall i: nat | i < c.threads && Pos(t, i) > 0
      ensures if c.stonewall then TeamFed(c, t.files) else Filled(c, t.files, i)
    {
      BarrierMoves(c.Barrier(), s.barrier, k, m, i);
      if Pos(s, i) == 0 {
        if c.stonewall && s.barrier.ending > 0 {
          var j := SomeoneAhead(c, s, k, i);
        } else {
          FilledByItself(c, s, k, i);
          FilledIsFed(c, s.files, i);
        }
      }
    }
  }

  lemma WorkShape(c: Team, s: State, k: nat, l: Label)
    requires TeamInv(c, s, k) && Enabled(c, s, l) && !l.Meet?
    ensures var t := Apply(c, s, l);
            Shape(c, t) && t.barrier == s.barrier && SameContexts(c.opers, t.opers) && Grown(s.files, t.files)
  {
    hide B.Inv, Plan, WaitingOk, WritersFed, Covered, OperOk, Advance;
  }

  lemma WorkKeepsWrites(c: Team, s: State, k: nat, l: Label, o: nat, r: nat)
    requires TeamInv(c, s, k) && Enabled(c, s, l) && !l.Meet?
    requires o < |s.opers| && s.opers[o].rw == WRITE && Kept(s, o, r)
    ensures Shape(c, Apply(c, s, l)) && Kept(Apply(c, s, l), o, r)
  {
    hide B.Inv, Plan, WaitingOk, WritersFed, Covered, OperOk, Advance;
    WorkShape(c, s, k, l);
  }

  lemma WorkKeepsOper(c: Team, s: State, k: nat, l: Label, o: nat)
    requires TeamInv(c, s, k) && Enabled(c, s, l) && !l.Meet? && o < |s.opers|
    ensures Shape(c, Apply(c, s, l)) && OperOk(c, Apply(c, s, l), o)
  {
    hide B.Inv, Plan, WaitingOk, WritersFed, Covered, Kept, Allowed, Advance;
    WorkShape(c, s, k, l);
    var t := Apply(c, s, l);
    assert OperOk(c, s, o);
    if Works(s, c.owner[o]) && s.opers[o].rw == WRITE && Pos(s, c.owner[o]) < |Plan(c.asked)| {
      forall r: nat | r < t.opers[o].started
        ensures Kept(t, o, r)
      {
        if r < s.opers[o].started {
          WorkKeepsWrites(c, s, k, l, o, r);
        } else {
          StartedIsWaiting(t, s, o, r, l.n);
        }
      }
    }
  }

  lemma StartedIsWaiting(t: State, s: State, o: nat, r: nat, n: nat)
    requires o < |s.opers| && o < |t.opers| && t.opers[o].file < |t.files|
    requires t.waiting == s.waiting + Requests(o, s.opers[o].started, n)
    requires s.opers[o].started <= r < s.opers[o].started + n
    ensures Kept(t, o, r)
  {
    assert (o, r) in Requests(o, s.opers[o].started, n);
  }

  lemma WorkKeepsWaiting(c: Team, s: State, k: nat, l: Label)
    requires TeamInv(c, s, k) && Enabled(c, s, l) && !l.Meet?
    ensures Shape(c, Apply(c, s, l)) && WaitingOk(c, Apply(c, s, l))
  {
    hide B.Inv, Plan, WritersFed, Covered, OperOk, Advance, Allowed;
    WorkShape(c, s, k, l);
  }

  lemma FedGrows(c: Team, files: seq<File>, grown: seq<File>, i: nat)
    requires Grown(files, grown)
    ensures Filled(c, files, i) ==> Filled(c, grown, i)
    ensures TeamFed(c, files) ==> TeamFed(c, grown)
  {
    assert forall j: nat :: FedThread(c, files, j) ==> FedThread(c, grown, j);
  }

  lemma WorkKeepsFed(c: Team, s: State, k: nat, l: Label)
    requires TeamInv(c, s, k) && Enabled(c, s, l) && !l.Meet? && WritersFed(c, s)
    ensures Shape(c, Apply(c, s, l)) && WritersFed(c, Apply(c, s, l))
  {
    hide B.Inv, Plan, WaitingOk, Covered, OperOk, TeamFed, FedThread, Filled, Enabled, Apply;
    WorkShape(c, s, k, l);
    var t := Apply(c, s, l);
    forall i: nat | i < c.threads && Pos(t, i) > 0
      ensures if c.stonewall then TeamFed(c, t.files) else Filled(c, t.files, i)
    {
      assert Pos(s, i) > 0;
      FedGrows(c, s.files, t.files, i);
    }
  }

  /** The stage the barrier is at after a step. */
  function NextStage(c: Team, s: State, l: Label, k: nat): nat {
    if l.Meet? then B.NextStage(c.Barrier(), s.barrier, l.l, k) else k
  }

  lemma StepKeepsInv(c: Team, s: State, k: nat, l: Label)
    requires TeamInv(c, s, k) && Enabled(c, s, l)
    ensures TeamInv(c, Apply(c, s, l), NextStage(c, s, l, k))
  {
    hide B.Inv, B.Enabled, B.Apply, B.NextStage, Plan, WaitingOk, WritersFed, Covered, OperOk, SameContexts;
    if l.Meet? {
      MeetShape(c, s, k, l.l);
      MeetKeepsWaiting(c, s, k, l.l);
      B.StepKeepsInv(c.Barrier(), s.barrier, k, l.l);
      if FirstStage(c.asked) == WRITE {
        MeetKeepsFed(c, s, k, l.l);
      }
    } else {
      WorkShape(c, s, k, l);
      WorkKeepsWaiting(c, s, k, l);
      if FirstStage(c.asked) == WRITE {
        WorkKeepsFed(c, s, k, l);
      }
    }
    forall o: nat | o < |s.opers|
      ensures OperOk(c, Apply(c, s, l), o)
    {
      if l.Meet? {
        MeetKeepsOper(c, s, k, l.l, o);
      } else {
        WorkKeepsOper(c, s, k, l, o);
      }
    }
  }

  lemma {:induction false} PathKeepsInv(c: Team, s: State, k: nat, ls: seq<Label>, t: State) returns (k': nat)
    requires TeamInv(c, s, k) && Path(c, s, ls, t)
    ensures TeamInv(c, t, k')
    decreases |ls|
  {
    hide TeamInv, Enabled, Apply;
    k' := k;
    if ls != [] {
      StepKeepsInv(c, s, k, ls[0]);
      k' := PathKeepsInv(c, Apply(c, s, ls[0]), NextStage(c, s, ls[0], k), ls[1..], t);
    }
  }

  predicate Named(c: Team, files: seq<File>) {
    forall o :: 0 <= o < |c.opers| ==> c.opers[o].file < |files|
  }

  lemma InitInv(c: Team, files: seq<File>)
    requires c.Valid() && Named(c, files)
    ensures TeamInv(c, Init(c, files), 0)
  {
    hide B.Inv, Plan, Covered;
    PlanSteps(c.asked, 0);
    B.InitInv(c.Barrier());
  }

  /** In every run, what has started something in the write or the read stage found
      its file as long as its start. */
  lemma NobodyEarly(c: Team, files: seq<File>, ls: seq<Label>, s: State, o: nat)
    requires c.Valid() && Named(c, files) && Path(c, Init(c, files), ls, s)
    requires o < |s.opers| && s.opers[o].rw < 2 && s.opers[o].started > 0
    ensures s.opers[o].file < |s.files|
    ensures s.files[s.opers[o].file].regular ==> s.opers[o].start <= s.files[s.opers[o].file].size
  {
    hide B.Inv, Plan, Covered, OperOk, WaitingOk, WritersFed, SameContexts, Path;
    InitInv(c, files);
    var k := PathKeepsInv(c, Init(c, files), 0, ls, s);
  }

  /** The steps of the barrier among those of a run. */
  function Meets(ls: seq<Label>): seq<B.Label>
    decreases |ls|
  {
    if ls == [] then [] else (if ls[0].Meet? then [ls[0].l] else []) + Meets(ls[1..])
  }

  lemma {:induction false} MeetsArePath(c: Team, s: State, ls: seq<Label>, t: State)
    requires Path(c, s, ls, t)
    ensures B.Path(c.Barrier(), s.barrier, Meets(ls), t.barrier)
    decreases |ls|
  {
    hide B.Enabled, B.Apply, ThreadDone, Plan, Allowed, Advance;
    if ls != [] {
      var rest := Meets(ls[1..]);
      MeetsArePath(c, Apply(c, s, ls[0]), ls[1..], t);
      if ls[0].Meet? {
        assert Meets(ls) == [ls[0].l] + rest && Meets(ls)[0] == ls[0].l && Meets(ls)[1..] == rest;
      } else {
        assert Meets(ls) == rest;
      }
    }
  }

  /** In every run, nobody cuts off an operation before some thread is through with
      the very stage it is in. */
  lemma CutByFinisher(c: Team, files: seq<File>, ls: seq<Label>, s: State, o: nat)
    requires c.Valid() && Path(c, Init(c, files), ls, s) && Enabled(c, s, Cut(o))
    ensures exists j: nat :: j < c.threads && s.barrier.place[j].InEnd? && s.barrier.done[j] == s.barrier.done[c.owner[o]]
  {
    hide B.Enabled, B.Apply, ThreadDone, Plan, Allowed, Advance, Path, B.Path, Covered;
    PlanSteps(c.asked, 0);
    MeetsArePath(c, Init(c, files), ls, s);
    B.OneStageAtATime(c.Barrier(), Meets(ls), s.barrier, c.owner[o]);
  }
}
