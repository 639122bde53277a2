// Until all threads of a team are through, one of them can go on, unless they read
// with nobody fed; and each such step comes nearer to the end.
module TeamProgress {
  import opened AioFiles
  import opened AioModel
  import opened AioStages
  import opened AioTeam
  import B = StageBarrier

  /** A step that takes the threads on: one within their work, or one of the
      barrier that is no wake-up without cause and no falling asleep again. */
  ghost predicate Progresses(c: Team, s: State, l: Label) {
    Enabled(c, s, l) && (l.Meet? ==> BarrierProgresses(c, s, l.l))
  }

  ghost predicate BarrierProgresses(c: Team, s: State, m: B.Label)
    requires B.Enabled(c.Barrier(), s.barrier, m)
  {
    B.Progress(s.barrier, c.threads) < B.Progress(B.Apply(c.Barrier(), s.barrier, m), c.threads)
  }

  /** What a stage in which threads read needs. */
  ghost predicate Course(c: Team, s: State) {
    FirstStage(c.asked) == READ ==> TeamFed(c, s.files)
  }

  lemma ReadingIsFed(c: Team, s: State, k: nat, i: nat)
    requires TeamInv(c, s, k) && Course(c, s) && s.barrier.starting == c.threads
    requires i < c.threads && Pos(s, i) < |Plan(c.asked)| && Plan(c.asked)[Pos(s, i)] == READ && Works(s, i)
    ensures TeamFed(c, s.files)
  {
    hide Plan, WaitingOk, Covered, OperOk, FedThread, Filled;
    assert B.InStage(c.Barrier(), s.barrier, k, i);
    PlanSteps(c.asked, 0);
    if k > 0 && FirstStage(c.asked) != READ {
      PlanSteps(c.asked, k - 1);
      NextRwIsNext(Effective(c.asked), Plan(c.asked)[k - 1]);
      forall j: nat | j < c.threads
        ensures Pos(s, j) > 0
      {
        assert B.InStage(c.Barrier(), s.barrier, k, j);
      }
      if !c.stonewall {
        AllFilled(c, s.files);
      }
    }
  }

  lemma AllFilled(c: Team, files: seq<File>)
    requires c.Valid() && !c.stonewall && forall i: nat :: i < c.threads ==> Filled(c, files, i)
    ensures TeamFed(c, files)
  {
    forall i: nat | i < c.threads
      ensures FedThread(c, files, i)
    {
      FilledIsFed(c, files, i);
    }
  }

  /** A thread in its stage goes on when its operations may start, or when it may
      cut them off. */
  lemma ThreadGoesOn(c: Team, s: State, k: nat, i: nat) returns (l: Label)
    requires TeamInv(c, s, k) && s.barrier.starting == c.threads && s.waiting == {}
    requires i < c.threads && !s.barrier.place[i].InEnd?
    requires forall o: nat :: o < |s.opers| && c.owner[o] == i && Works(s, i) && Active(s.opers[o]) ==>
               Allowed(s.files, s.opers[o], s.opers[o].started) || (c.stonewall && s.barrier.ending > 0)
    ensures Progresses(c, s, l)
  {
    hide Plan, WaitingOk, Covered, OperOk, WritersFed, Allowed, SameContexts;
    assert B.InStage(c.Barrier(), s.barrier, k, i);
    if !Works(s, i) {
      l := Meet(B.CheckStart(i));
      B.ProgressGrows(s.barrier, B.Apply(c.Barrier(), s.barrier, l.l), i, c.threads);
    } else if o: nat :| o < |s.opers| && c.owner[o] == i && Active(s.opers[o]) {
      l := if Allowed(s.files, s.opers[o], s.opers[o].started) then Start(o, 1) else Cut(o);
    } else {
      l := Meet(B.ArriveEnd(i));
      B.ProgressGrows(s.barrier, B.Apply(c.Barrier(), s.barrier, l.l), i, c.threads);
    }
  }

  lemma CoverOf(c: Team, o: nat) returns (b: nat)
    requires c.Valid() && o < |c.opers|
    ensures b < |c.opers| && Covers(c.opers[b], c.opers[o])
  {
    hide Advance;
    assert CoveredAt(c.opers, o);
    b :| b < |c.opers| && Covers(c.opers[b], c.opers[o]);
  }

  /** While writing with nobody cut off, a context that covers another is on disk,
      or its thread goes on. */
  lemma CoverGoesOn(c: Team, s: State, k: nat, b: nat) returns (l: Label)
    requires TeamInv(c, s, k) && s.barrier.starting == c.threads && s.waiting == {}
    requires !(c.stonewall && s.barrier.ending > 0)
    requires FirstStage(c.asked) == WRITE && k == 0 && b < |c.opers| && c.opers[b].start == 0
    ensures c.opers[b].file < |s.files|
    ensures OnDisk(s.files[c.opers[b].file], Advance(c.opers[b].reclen, c.opers[b].total)) || Progresses(c, s, l)
  {
    hide Plan, WaitingOk, Covered, Advance;
    var i := c.owner[b];
    assert B.InStage(c.Barrier(), s.barrier, k, i) && OperOk(c, s, b);
    PlanSteps(c.asked, 0);
    l := Start(b, 1);
    if Works(s, i) {
      if s.opers[b].started == s.opers[b].total {
        assert Kept(s, b, s.opers[b].total - 1);
      }
    } else if s.barrier.place[i].InEnd? {
      B.CountBounds(s.barrier.place, c.threads);
      assert Filled(c, s.files, i);
    } else {
      l := ThreadGoesOn(c, s, k, i);
    }
  }

  lemma WriterGoesOn(c: Team, s: State, k: nat, o: nat) returns (l: Label)
    requires TeamInv(c, s, k) && s.barrier.starting == c.threads && s.waiting == {}
    requires !(c.stonewall && s.barrier.ending > 0)
    requires FirstStage(c.asked) == WRITE && k == 0 && o < |s.opers|
    ensures Allowed(s.files, s.opers[o], s.opers[o].started) || Progresses(c, s, l)
  {
    hide Plan, WaitingOk, Covered, OperOk, WritersFed, B.Inv, Progresses, Advance;
    var b := CoverOf(c, o);
    l := CoverGoesOn(c, s, k, b);
  }

  lemma ReaderGoesOn(c: Team, s: State, k: nat, o: nat) returns (l: Label)
    requires TeamInv(c, s, k) && s.barrier.starting == c.threads && s.waiting == {}
    requires !(c.stonewall && s.barrier.ending > 0)
    requires TeamFed(c, s.files) && o < |s.opers|
    ensures Allowed(s.files, s.opers[o], s.opers[o].started) || Progresses(c, s, l)
  {
    hide Plan, WaitingOk, Covered, OperOk, WritersFed, Progresses;
    if c.stonewall {
      var j: nat :| j < c.threads && FedThread(c, s.files, j);
      assert B.InStage(c.Barrier(), s.barrier, k, j);
      B.CountBounds(s.barrier.place, c.threads);
      FedIsAllowed(c, s, j);
      l := ThreadGoesOn(c, s, k, j);
    } else {
      l := Cut(o);
      FedIsAllowed(c, s, c.owner[o]);
    }
  }

  lemma FedIsAllowed(c: Team, s: State, i: nat)
    requires Shape(c, s) && SameContexts(c.opers, s.opers) && FedThread(c, s.files, i)
    ensures forall o: nat :: o < |s.opers| && c.owner[o] == i ==> Allowed(s.files, s.opers[o], s.opers[o].started)
  {
  }

  /** An operation of a working thread may start, or somebody else can go on. */
  lemma OperGoesOn(c: Team, s: State, k: nat, o: nat) returns (l: Label)
    requires TeamInv(c, s, k) && Course(c, s) && s.barrier.starting == c.threads && s.waiting == {}
    requires !(c.stonewall && s.barrier.ending > 0) && o < |s.opers| && Works(s, c.owner[o])
    ensures Allowed(s.files, s.opers[o], s.opers[o].started) || Progresses(c, s, l)
  {
    hide Plan, WaitingOk, Covered, WritersFed, Progresses, TeamFed;
    var i := c.owner[o];
    assert B.InStage(c.Barrier(), s.barrier, k, i) && OperOk(c, s, o);
    PlanSteps(c.asked, k);
    l := Cut(o);
    if s.opers[o].rw == WRITE {
      PlanSteps(c.asked, 0);
      l := WriterGoesOn(c, s, k, o);
    } else if s.opers[o].rw == READ {
      ReadingIsFed(c, s, k, i);
      l := ReaderGoesOn(c, s, k, o);
    }
  }

  lemma StageGoesOn(c: Team, s: State, k: nat) returns (l: Label)
    requires TeamInv(c, s, k) && Course(c, s) && s.barrier.starting == c.threads
    ensures Progresses(c, s, l)
  {
    hide Plan, Covered, OperOk, WritersFed, Course, Allowed, SameContexts;
    B.CountBounds(s.barrier.place, c.threads);
    if w :| w in s.waiting {
      l := Perform(w.0, w.1, s.opers[w.0].start + Advance(s.opers[w.0].reclen, w.1 + 1));
    } else {
      var i: nat :| i < c.threads && !s.barrier.place[i].InEnd?;
      if o: nat :| o < |s.opers| && c.owner[o] == i && Works(s, i) && !Allowed(s.files, s.opers[o], s.opers[o].started)
                   && !(c.stonewall && s.barrier.ending > 0) {
        l := OperGoesOn(c, s, k, o);
      } else {
        l := ThreadGoesOn(c, s, k, i);
      }
    }
  }

  /** On its course, the team can go on until everybody is through. */
  lemma SomeoneCanGoOn(c: Team, s: State, k: nat) returns (l: Label)
    requires TeamInv(c, s, k) && Course(c, s) && !B.AllGone(c.Barrier(), s.barrier)
    ensures Progresses(c, s, l)
  {
    hide Plan, Covered, OperOk, WritersFed, WaitingOk, Course, SameContexts;
    if s.barrier.starting == c.threads {
      l := StageGoesOn(c, s, k);
    } else {
      var i := B.SomeoneOutside(c.Barrier(), s.barrier, k);
      assert B.Gathering(c.Barrier(), s.barrier, k, i);
      l := Meet(if s.barrier.place[i].AtStart? then B.ArriveStart(i) else B.CheckEnd(i));
      B.ProgressGrows(s.barrier, B.Apply(c.Barrier(), s.barrier, l.l), i, c.threads);
    }
  }

  // --- to the end -------------------------------------------------------------------------------

  function ToDo(op: Oper): nat {
    (if op.started < op.total then 2 * (op.total - op.started) else 0) + if op.stonewalled then 0 else 1
  }

  ghost function Undone(opers: seq<Oper>, m: nat): nat
    requires m <= |opers|
  {
    if m == 0 then 0 else Undone(opers, m - 1) + ToDo(opers[m - 1])
  }

  lemma {:induction false} UndoneUpdate(opers: seq<Oper>, o: nat, op: Oper, m: nat)
    requires o < |opers| && m <= |opers|
    ensures Undone(opers[o := op], m) == Undone(opers, m) + if o < m then ToDo(op) - ToDo(opers[o]) else 0
  {
    if m > 0 {
      UndoneUpdate(opers, o, op, m - 1);
    }
  }

  lemma {:induction false} RequestsSize(o: nat, from: nat, n: nat)
    ensures |Requests(o, from, n)| <= n
  {
    if n > 0 {
      RequestsSize(o, from, n - 1);
      assert Requests(o, from, n) == Requests(o, from, n - 1) + {(o, from + n - 1)};
    } else {
      assert Requests(o, from, 0) == {};
    }
  }

  /** What is left to do in this stage. */
  ghost function Work(s: State): nat { Undone(s.opers, |s.opers|) + |s.waiting| }

  lemma WorkDecreases(c: Team, s: State, l: Label)
    requires Enabled(c, s, l) && !l.Meet?
    ensures Work(Apply(c, s, l)) < Work(s)
  {
    hide Undone, Advance, Allowed, Requests;
    if !l.Perform? {
      UndoneUpdate(s.opers, l.o, Apply(c, s, l).opers[l.o], |s.opers|);
    }
    if l.Start? {
      RequestsSize(l.o, s.opers[l.o].started, l.n);
    }
  }

  /** The steps that take the threads on are few: each comes nearer to the end
      of all stages, or of the work in this one; the others change nothing but who
      is asleep. */
  lemma StepsAreFew(c: Team, s: State, k: nat, l: Label)
    requires TeamInv(c, s, k) && Enabled(c, s, l)
    ensures var t := Apply(c, s, l);
            && |s.barrier.place| == |s.barrier.done| == |t.barrier.place| == |t.barrier.done| == c.threads
            && B.Progress(t.barrier, c.threads) <= B.Goal(c.Barrier(), c.threads)
            && if !Progresses(c, s, l) then
                 t == s.(barrier := t.barrier) && t.barrier.done == s.barrier.done
                 && B.Progress(s.barrier, c.threads) == B.Progress(t.barrier, c.threads)
               else
                 || B.Progress(s.barrier, c.threads) < B.Progress(t.barrier, c.threads)
                 || (t.barrier == s.barrier && Work(t) < Work(s))
  {
    hide Plan, Covered, OperOk, WritersFed, WaitingOk, Work, Allowed, SameContexts;
    StepKeepsInv(c, s, k, l);
    B.ProgressBounded(c.Barrier(), Apply(c, s, l).barrier, NextStage(c, s, l, k), c.threads);
    if l.Meet? {
      MeetCounts(c, s, k, l.l);
    } else {
      WorkDecreases(c, s, l);
    }
  }

  lemma MeetCounts(c: Team, s: State, k: nat, m: B.Label)
    requires TeamInv(c, s, k) && B.Enabled(c.Barrier(), s.barrier, m)
    ensures |s.barrier.place| == |s.barrier.done| == c.threads
    ensures !BarrierProgresses(c, s, m) ==>
              !m.ArriveEnd? && B.Apply(c.Barrier(), s.barrier, m).done == s.barrier.done
              && B.Progress(s.barrier, c.threads) == B.Progress(B.Apply(c.Barrier(), s.barrier, m), c.threads)
  {
    hide Plan, Covered, OperOk, WritersFed, WaitingOk, Work, SameContexts;
    var t := B.Apply(c.Barrier(), s.barrier, m);
    if s.barrier.starting == c.threads {
      assert B.InStage(c.Barrier(), s.barrier, k, m.i);
    } else {
      assert B.Gathering(c.Barrier(), s.barrier, k, m.i);
    }
    if 4 * s.barrier.done[m.i] + B.PlaceRank(s.barrier.place[m.i]) < 4 * t.done[m.i] + B.PlaceRank(t.place[m.i]) {
      B.ProgressGrows(s.barrier, t, m.i, c.threads);
    } else {
      SameProgress(s.barrier, t, c.threads);
    }
  }

  lemma {:induction false} SameProgress(s: B.State, t: B.State, m: nat)
    requires m <= |s.place| == |s.done| == |t.place| == |t.done| && s.done == t.done
    requires forall j :: 0 <= j < m ==> B.PlaceRank(t.place[j]) == B.PlaceRank(s.place[j])
    ensures B.Progress(s, m) == B.Progress(t, m)
  {
    if m > 0 {
      SameProgress(s, t, m - 1);
    }
  }

  lemma CourseStays(c: Team, s: State, k: nat, l: Label)
    requires TeamInv(c, s, k) && Course(c, s) && Enabled(c, s, l)
    ensures Course(c, Apply(c, s, l))
  {
    hide TeamInv, Enabled, Apply, TeamFed;
    FilesGrow(c, s, k, l);
    FedGrows(c, s.files, Apply(c, s, l).files, 0);
  }

  lemma FilesGrow(c: Team, s: State, k: nat, l: Label)
    requires TeamInv(c, s, k) && Enabled(c, s, l)
    ensures Grown(s.files, Apply(c, s, l).files)
  {
    hide TeamInv, B.Apply, B.Enabled;
    if !l.Meet? {
      WorkShape(c, s, k, l);
    }
  }

  lemma {:induction false} CanFinish(c: Team, s: State, k: nat) returns (ls: seq<Label>, t: State)
    requires TeamInv(c, s, k) && Course(c, s) && |s.barrier.place| == |s.barrier.done| == c.threads
    ensures Path(c, s, ls, t) && B.AllGone(c.Barrier(), t.barrier)
    decreases B.Goal(c.Barrier(), c.threads) - B.Progress(s.barrier, c.threads), Work(s)
  {
    hide TeamInv, Course, Enabled, Apply, Work, B.AllGone, B.Goal, B.Progress;
    ls, t := [], s;
    if !B.AllGone(c.Barrier(), s.barrier) {
      var l := SomeoneCanGoOn(c, s, k);
      StepKeepsInv(c, s, k, l);
      StepsAreFew(c, s, k, l);
      CourseStays(c, s, k, l);
      var rest;
      rest, t := CanFinish(c, Apply(c, s, l), NextStage(c, s, l, k));
      ls := [l] + rest;
      assert ls[1..] == rest;
    }
  }

  lemma {:induction false} CourseKept(c: Team, s: State, k: nat, ls: seq<Label>, t: State)
    requires TeamInv(c, s, k) && Course(c, s) && Path(c, s, ls, t)
    ensures Course(c, t)
    decreases |ls|
  {
    hide TeamInv, Course, Enabled, Apply;
    if ls != [] {
      StepKeepsInv(c, s, k, ls[0]);
      CourseStays(c, s, k, ls[0]);
      CourseKept(c, Apply(c, s, ls[0]), NextStage(c, s, ls[0], k), ls[1..], t);
    }
  }

  /** From every state a team can come to all its threads can still get through. */
  lemma NeverStarved(c: Team, files: seq<File>, ls: seq<Label>, s: State) returns (rest: seq<Label>, t: State)
    requires c.Valid() && Named(c, files) && GetsThrough(c, files) && Path(c, Init(c, files), ls, s)
    ensures Path(c, s, rest, t) && B.AllGone(c.Barrier(), t.barrier)
  {
    hide TeamInv, Path, TeamFed;
    InitInv(c, files);
    var k := PathKeepsInv(c, Init(c, files), 0, ls, s);
    CourseKept(c, Init(c, files), 0, ls, s);
    assert |s.barrier.place| == |s.barrier.done| == c.threads by { InvShape(c, s, k); }
    rest, t := CanFinish(c, s, k);
  }

  lemma InvShape(c: Team, s: State, k: nat)
    requires TeamInv(c, s, k)
    ensures Shape(c, s)
  {
  }
}
