// A team that reads first with nobody fed never gets through; so it does exactly if
// it is fed or does not read first.
module TeamStarving {
  import opened AioFiles
  import opened AioModel
  import opened AioStages
  import opened AioTeam
  import B = StageBarrier
  import opened TeamProgress

  /** A context that may not start to read. */
  predicate Hungry(c: Team, files: seq<File>, o: nat) {
    o < |c.opers| && c.opers[o].file < |files| && TooShort(files[c.opers[o].file], c.opers[o].start)
  }

  /** Nobody has written, and no thread with a hungry context is done with the
      read stage, which is the first. */
  ghost predicate Starving(c: Team, files: seq<File>, s: State) {
    && TeamInv(c, s, 0) && s.files == files && FirstStage(c.asked) == READ
    && (forall o: nat :: Hungry(c, files, o) ==>
          Pos(s, c.owner[o]) == 0 && s.opers[o].started == 0 && !s.opers[o].stonewalled)
  }

  lemma HungryOf(c: Team, files: seq<File>, i: nat) returns (h: nat)
    requires Named(c, files) && !FedThread(c, files, i)
    ensures h < |c.owner| && c.owner[h] == i && Hungry(c, files, h)
  {
    h :| h < |c.opers| && h < |c.owner| && c.owner[h] == i && Hungry(c, files, h);
  }

  lemma {:induction false} NobodyThere(place: seq<B.Place>, m: nat)
    requires m <= |place| && forall i :: 0 <= i < m ==> !place[i].InEnd?
    ensures B.CountEnd(place, m) == 0
  {
    if m > 0 {
      NobodyThere(place, m - 1);
    }
  }

  lemma NobodyCuts(c: Team, files: seq<File>, s: State, o: nat)
    requires Starving(c, files, s) && !TeamFed(c, files) && c.stonewall && o < |s.opers| && Works(s, c.owner[o])
    ensures s.barrier.ending == 0
  {
    hide Plan, Covered, OperOk, WritersFed, WaitingOk;
    forall i: nat | i < c.threads
      ensures !s.barrier.place[i].InEnd?
    {
      assert !FedThread(c, files, i);
      var h := HungryOf(c, files, i);
    }
    NobodyThere(s.barrier.place, c.threads);
    assert s.barrier.starting == c.threads by {
      assert s.barrier.starting != c.threads ==> B.Gathering(c.Barrier(), s.barrier, 0, c.owner[o]);
    }
  }

  lemma FilesStay(c: Team, files: seq<File>, s: State, l: Label)
    requires Starving(c, files, s) && Enabled(c, s, l)
    ensures Apply(c, s, l).files == files
  {
    hide Plan, Covered, WritersFed, B.Inv, B.Apply, B.Enabled, Advance;
    if l.Perform? {
      assert OperOk(c, s, l.o);
      assert (l.o, l.r) in s.waiting;
      PlanSteps(c.asked, 0);
      WorkingIsFirst(c, s, c.owner[l.o]);
    }
  }

  lemma WorkingIsFirst(c: Team, s: State, i: nat)
    requires TeamInv(c, s, 0) && i < c.threads && Works(s, i)
    ensures Pos(s, i) == 0
  {
    hide Plan, Covered, WritersFed, OperOk, WaitingOk;
    if s.barrier.starting == c.threads {
      assert B.InStage(c.Barrier(), s.barrier, 0, i);
    } else {
      assert B.Gathering(c.Barrier(), s.barrier, 0, i);
    }
  }

  /** The stage does not end while somebody is hungry in it. */
  lemma StillFirst(c: Team, files: seq<File>, s: State, l: Label, h: nat)
    requires Starving(c, files, s) && Enabled(c, s, l) && Hungry(c, files, h)
    ensures l != Meet(B.ArriveEnd(c.owner[h])) && NextStage(c, s, l, 0) == 0
  {
    hide Plan, Covered, WritersFed, OperOk, WaitingOk;
    assert c.owner[h] < c.threads && Active(s.opers[h]);
    if l.Meet? && l.l.ArriveEnd? {
      B.AllButOne(s.barrier.place, l.l.i);
      WorkingIsFirst(c, s, l.l.i);
      if s.barrier.starting == c.threads {
        assert B.InStage(c.Barrier(), s.barrier, 0, l.l.i);
      } else {
        assert B.Gathering(c.Barrier(), s.barrier, 0, l.l.i);
      }
    }
  }

  lemma StarvingStays(c: Team, files: seq<File>, s: State, l: Label, h: nat)
    requires Starving(c, files, s) && Enabled(c, s, l) && Hungry(c, files, h) && !TeamFed(c, files)
    ensures Starving(c, files, Apply(c, s, l))
  {
    hide Plan, Covered, WritersFed, OperOk, WaitingOk, B.Inv, B.Apply, B.Enabled, TeamFed, FedThread;
    StillFirst(c, files, s, l, h);
    StepKeepsInv(c, s, 0, l);
    FilesStay(c, files, s, l);
    var t := Apply(c, s, l);
    forall o: nat | Hungry(c, files, o)
      ensures Pos(t, c.owner[o]) == 0 && t.opers[o].started == 0 && !t.opers[o].stonewalled
    {
      StillFirst(c, files, s, l, o);
      if l.Meet? {
        MeetShape(c, s, 0, l.l);
        BarrierMoves(c.Barrier(), s.barrier, 0, l.l, c.owner[o]);
      } else if l.Cut? {
        NobodyCuts(c, files, s, l.o);
      } else if l.Start? && l.o == o {
        HungryWaits(c, files, s, o);
      }
    }
  }

  lemma HungryWaits(c: Team, files: seq<File>, s: State, o: nat)
    requires Starving(c, files, s) && Hungry(c, files, o) && Works(s, c.owner[o])
    ensures !Allowed(s.files, s.opers[o], s.opers[o].started)
  {
    hide Plan, Covered, WritersFed, B.Inv;
    assert OperOk(c, s, o);
    PlanSteps(c.asked, 0);
  }

  lemma {:induction false} StarvingKept(c: Team, files: seq<File>, s: State, ls: seq<Label>, t: State, h: nat)
    requires Starving(c, files, s) && Path(c, s, ls, t) && Hungry(c, files, h) && !TeamFed(c, files)
    ensures Starving(c, files, t)
    decreases |ls|
  {
    hide Starving, Enabled, Apply, Hungry, TeamFed;
    if ls != [] {
      StarvingStays(c, files, s, ls[0], h);
      StarvingKept(c, files, Apply(c, s, ls[0]), ls[1..], t, h);
    }
  }

  lemma SomeoneHungry(c: Team, files: seq<File>) returns (h: nat)
    requires c.Valid() && Named(c, files) && !TeamFed(c, files)
    ensures Hungry(c, files, h)
  {
    hide Covered;
    var i: nat :| i < c.threads && !FedThread(c, files, i);
    h := HungryOf(c, files, i);
  }

  lemma StarvingIsNotGone(c: Team, files: seq<File>, s: State, h: nat)
    requires Starving(c, files, s) && Hungry(c, files, h)
    ensures !B.AllGone(c.Barrier(), s.barrier)
  {
    hide Plan, Covered, WritersFed, OperOk, WaitingOk;
    PlanSteps(c.asked, 0);
    var i := c.owner[h];
    if s.barrier.starting == c.threads {
      assert B.InStage(c.Barrier(), s.barrier, 0, i);
    } else {
      assert B.Gathering(c.Barrier(), s.barrier, 0, i);
    }
  }

  /** Exactly when the threads all get through: when they do not start by reading,
      or when with stonewalling one of them, and without it all of them, have only
      contexts whose files are long enough. */
  lemma GetsThroughIff(c: Team, files: seq<File>)
    requires c.Valid() && Named(c, files)
    ensures (exists ls, t :: Path(c, Init(c, files), ls, t) && B.AllGone(c.Barrier(), t.barrier))
            <==> GetsThrough(c, files)
  {
    hide TeamInv, TeamFed, Hungry, B.AllGone, Starving, Enabled, Apply, Team.Valid;
    if GetsThrough(c, files) {
      assert Path(c, Init(c, files), [], Init(c, files));
      var ls, t := NeverStarved(c, files, [], Init(c, files));
    } else if exists ls, t :: Path(c, Init(c, files), ls, t) && B.AllGone(c.Barrier(), t.barrier) {
      var ls, t :| Path(c, Init(c, files), ls, t) && B.AllGone(c.Barrier(), t.barrier);
      var h := SomeoneHungry(c, files);
      StartsStarving(c, files);
      StarvingKept(c, files, Init(c, files), ls, t, h);
      StarvingIsNotGone(c, files, t, h);
    }
  }

  lemma StartsStarving(c: Team, files: seq<File>)
    requires c.Valid() && Named(c, files) && FirstStage(c.asked) == READ
    ensures Starving(c, files, Init(c, files))
  {
    hide TeamInv, Covered, FirstStage;
    InitInv(c, files);
  }
}
