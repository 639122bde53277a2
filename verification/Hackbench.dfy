// The whole of hackbench as steps on shared state: main creating, collecting,
// waking and reaping its workers, and the workers of every group.
module Hackbench {
  import opened Arithmetic
  import opened HackbenchGroup

  /** numGroups groups, a ready pipe of bounded capacity, and process or thread
      mode, which differ in how workers are reaped. */
  datatype Config = Config(p: Params, numGroups: nat, readyCap: nat, processMode: bool) {
    ghost predicate Valid() {
      p.Valid() && numGroups >= 1 && readyCap >= 1
    }

    function Size(): nat { 2 * p.n }

    /** total_children. */
    function Total(): nat { Times(numGroups, Size()) }
  }

  /** Waiting: the ready byte is written, the wake byte not yet seen. Killed: a
      sender process that wrote to a pipe nobody can read any more. */
  datatype Phase = Unborn | Born | Waiting | Running | Exited | Killed

  datatype Main = Creating(made: nat) | Collecting(got: nat) | Waking | Reaping(count: nat) | Finished | Failed

  datatype System = System(main: Main, phase: seq<Phase>, ready: nat, wake: bool, groups: seq<Group>)

  // --- which worker is which -------------------------------------------------------

  /** Workers are numbered as they are created: group by group, n receivers and
      then n senders. */
  function Locate(w: nat, size: nat): (nat, nat)
    requires size > 0
  {
    if w < size then (0, w)
    else
      var (g, r) := Locate(w - size, size);
      (g + 1, r)
  }

  lemma {:induction false} LocateBounds(w: nat, size: nat, groups: nat)
    requires size > 0 && w < Times(groups, size)
    ensures Locate(w, size).0 < groups && Locate(w, size).1 < size
    decreases w
  {
    if w >= size {
      LocateBounds(w - size, size, groups - 1);
    }
  }

  lemma {:induction false} LocateIndex(g: nat, r: nat, size: nat, groups: nat)
    requires r < size && g < groups
    ensures Times(g, size) + r < Times(groups, size)
    ensures Locate(Times(g, size) + r, size) == (g, r)
    decreases g
  {
    TimesMonotone(g, groups, size);
    if g > 0 {
      LocateIndex(g - 1, r, size, groups);
    }
  }

  // --- counting ---------------------------------------------------------------------

  predicate Announced(ph: Phase) { ph.Waiting? || ph.Running? || ph.Exited? || ph.Killed? }

  ghost function CountAnnounced(phase: seq<Phase>, m: nat): nat
    requires m <= |phase|
  {
    if m == 0 then 0 else CountAnnounced(phase, m - 1) + if Announced(phase[m - 1]) then 1 else 0
  }

  ghost function CountExited(phase: seq<Phase>, m: nat): nat
    requires m <= |phase|
  {
    if m == 0 then 0 else CountExited(phase, m - 1) + if phase[m - 1].Exited? then 1 else 0
  }

  lemma {:induction false} CountUpdate(phase: seq<Phase>, w: nat, ph: Phase, m: nat)
    requires w < |phase| && m <= |phase|
    ensures CountAnnounced(phase[w := ph], m)
            == CountAnnounced(phase, m) +
               if w < m then (if Announced(ph) then 1 else 0) - (if Announced(phase[w]) then 1 else 0) else 0
    ensures CountExited(phase[w := ph], m)
            == CountExited(phase, m) +
               if w < m then (if ph.Exited? then 1 else 0) - (if phase[w].Exited? then 1 else 0) else 0
  {
    if m > 0 {
      CountUpdate(phase, w, ph, m - 1);
    }
  }

  lemma {:induction false} CountFull(phase: seq<Phase>, m: nat)
    requires m <= |phase|
    ensures CountAnnounced(phase, m) <= m && CountExited(phase, m) <= m
    ensures CountAnnounced(phase, m) == m <==> forall w :: 0 <= w < m ==> Announced(phase[w])
    ensures CountExited(phase, m) == m <==> forall w :: 0 <= w < m ==> phase[w].Exited?
  {
    if m > 0 {
      CountFull(phase, m - 1);
    }
  }

  // --- the steps -----------------------------------------------------------------------

  datatype Label =
    | Create
    | Announce(w: nat)
    | Collect
    | Wake
    | Go(w: nat)
    | DoWrite(w: nat, len: nat)
    | DoRead(w: nat, len: nat)
    | Die(w: nat)
    | Exit(w: nat)
    | Reap
    | Fail

  predicate Shape(c: Config, s: System) {
    c.p.n >= 1 && |s.phase| == c.Total() && |s.groups| == c.numGroups
  }

  /** Whether a worker has come to the end of its loops. */
  predicate WorkerDone(c: Config, s: System, w: nat)
    requires c.p.n >= 1
  {
    var (g, r) := Locate(w, c.Size());
    g < |s.groups| &&
    if r < c.p.n then r < |s.groups[g].receivers| && ReceiverDone(c.p, s.groups[g].receivers[r])
    else r - c.p.n < |s.groups[g].senders| && SenderDone(c.p, s.groups[g].senders[r - c.p.n])
  }

  predicate InPhase(s: System, w: nat, ph: Phase) {
    w < |s.phase| && s.phase[w] == ph
  }

  /** In process mode only the receiver has its pipe open for reading. */
  predicate ReaderGone(c: Config, s: System, g: nat, j: nat) {
    c.processMode && InPhase(s, Times(g, c.Size()) + j, Exited)
  }

  /** A sender with something left to write, in the role of worker w. */
  predicate WantsToWrite(c: Config, s: System, g: nat, r: nat) {
    && g < |s.groups| && c.p.n <= r && r - c.p.n < |s.groups[g].senders|
    && !SenderDone(c.p, s.groups[g].senders[r - c.p.n])
  }

  ghost predicate Enabled(c: Config, s: System, l: Label) {
    Shape(c, s) &&
    match l
    case Create => s.main.Creating? && InPhase(s, s.main.made, Unborn)
    case Announce(w) => InPhase(s, w, Born) && s.ready < c.readyCap
    case Collect => s.main.Collecting? && s.ready > 0
    case Wake => s.main == Waking
    case Go(w) => InPhase(s, w, Waiting) && s.wake
    case DoWrite(w, len) =>
      var (g, r) := Locate(w, c.Size());
      InPhase(s, w, Running) && WantsToWrite(c, s, g, r) && CanWrite(c.p, s.groups[g], r - c.p.n, len)
      && !ReaderGone(c, s, g, s.groups[g].senders[r - c.p.n].j)
    case DoRead(w, len) =>
      var (g, r) := Locate(w, c.Size());
      InPhase(s, w, Running) && g < |s.groups| && r < c.p.n && CanRead(c.p, s.groups[g], r, len)
    case Die(w) =>
      var (g, r) := Locate(w, c.Size());
      InPhase(s, w, Running) && WantsToWrite(c, s, g, r)
      && ReaderGone(c, s, g, s.groups[g].senders[r - c.p.n].j)
    case Exit(w) => InPhase(s, w, Running) && WorkerDone(c, s, w)
    case Reap => s.main.Reaping? && ReapReady(c, s, s.main.count)
    case Fail => s.main.Reaping? && exists w: nat :: InPhase(s, w, Killed)
  }

  /** wait() takes any child that has exited and was not waited for;
      pthread_join waits for the worker in turn. */
  ghost predicate ReapReady(c: Config, s: System, count: nat)
    requires |s.phase| == c.Total()
  {
    if c.processMode then count < CountExited(s.phase, |s.phase|) else InPhase(s, count, Exited)
  }

  ghost function Apply(c: Config, s: System, l: Label): System
    requires Enabled(c, s, l)
  {
    match l
    case Create =>
      s.(phase := s.phase[s.main.made := Born],
         main := if s.main.made + 1 == c.Total() then Collecting(0) else Creating(s.main.made + 1))
    case Announce(w) => s.(phase := s.phase[w := Waiting], ready := s.ready + 1)
    case Collect =>
      s.(ready := s.ready - 1,
         main := if s.main.got + 1 == c.Total() then Waking else Collecting(s.main.got + 1))
    case Wake => s.(wake := true, main := Reaping(0))
    case Go(w) => s.(phase := s.phase[w := Running])
    case DoWrite(w, len) =>
      var (g, r) := Locate(w, c.Size());
      s.(groups := s.groups[g := Write(c.p, s.groups[g], r - c.p.n, len)])
    case DoRead(w, len) =>
      var (g, r) := Locate(w, c.Size());
      s.(groups := s.groups[g := Read(c.p, s.groups[g], r, len)])
    case Die(w) => s.(phase := s.phase[w := Killed])
    case Exit(w) => s.(phase := s.phase[w := Exited])
    case Fail => s.(main := Failed)
    case Reap =>
      s.(main := if s.main.count + 1 == c.Total() then Finished else Reaping(s.main.count + 1))
  }

  function Init(c: Config): System {
    System(Creating(0), seq(c.Total(), _ => Unborn), 0, false, seq(c.numGroups, _ => Start(c.p)))
  }

  // --- the invariant -----------------------------------------------------------------------

  /** How many ready bytes main has taken. */
  function Got(c: Config, m: Main): nat {
    match m
    case Creating(_) => 0
    case Collecting(got) => got
    case _ => c.Total()
  }

  ghost predicate MainOk(c: Config, s: System)
    requires |s.phase| == c.Total()
  {
    match s.main
    case Creating(made) =>
      made < c.Total() && forall w :: 0 <= w < c.Total() ==> (s.phase[w].Unborn? <==> made <= w)
    case Collecting(got) => got < c.Total()
    case Waking => true
    case Reaping(count) =>
      && count < c.Total()
      && (c.processMode ==> count <= CountExited(s.phase, |s.phase|))
      && (!c.processMode ==> forall w :: 0 <= w < count ==> s.phase[w].Exited?)
    case Finished => forall w :: 0 <= w < c.Total() ==> s.phase[w].Exited?
    case Failed => exists w: nat :: InPhase(s, w, Killed)
  }

  ghost predicate GateOk(c: Config, s: System)
    requires |s.phase| == c.Total()
  {
    && CountAnnounced(s.phase, |s.phase|) == s.ready + Got(c, s.main)
    && (!s.main.Creating? ==> forall w :: 0 <= w < |s.phase| ==> !s.phase[w].Unborn?)
    && (s.wake <==> s.main.Reaping? || s.main.Finished? || s.main.Failed?)
    && (!s.wake ==> forall w :: 0 <= w < |s.phase| ==> s.phase[w].Unborn? || s.phase[w].Born? || s.phase[w].Waiting?)
    && (!s.wake ==> forall g :: 0 <= g < |s.groups| ==> s.groups[g] == Start(c.p))
  }

  ghost predicate WorkOk(c: Config, s: System)
    requires Shape(c, s)
  {
    && (forall g :: 0 <= g < |s.groups| ==> Inv(c.p, s.groups[g]))
    && (forall w: nat :: w < |s.phase| && s.phase[w].Exited? ==> WorkerDone(c, s, w))
    && (forall w: nat :: w < |s.phase| && s.phase[w].Killed? ==> c.processMode && c.p.Messages() > UINT_MAX)
  }

  ghost predicate SystemInv(c: Config, s: System) {
    c.Valid() && Shape(c, s) && MainOk(c, s) && GateOk(c, s) && WorkOk(c, s)
  }

  lemma {:induction false} NoneAnnounced(phase: seq<Phase>, m: nat)
    requires m <= |phase| && forall w :: 0 <= w < |phase| ==> phase[w].Unborn?
    ensures CountAnnounced(phase, m) == 0
  {
    if m > 0 {
      NoneAnnounced(phase, m - 1);
    }
  }

  lemma SomeWorkers(c: Config)
    requires c.Valid()
    ensures c.Total() >= 1
  {
    TimesMonotone(1, c.numGroups, c.Size());
    assert Times(1, c.Size()) == Times(0, c.Size()) + c.Size();
  }

  lemma InitInv(c: Config)
    requires c.Valid()
    ensures SystemInv(c, Init(c))
  {
    var s := Init(c);
    NoneAnnounced(s.phase, |s.phase|);
    SomeWorkers(c);
    StartInv(c.p);
  }

  /** Once the wake byte is written, every worker has announced itself. */
  lemma AwakeMeansAllReady(c: Config, s: System)
    requires SystemInv(c, s) && s.wake
    ensures forall w :: 0 <= w < |s.phase| ==> Announced(s.phase[w])
    ensures s.ready == 0
  {
    CountFull(s.phase, |s.phase|);
  }

  /** A step that leaves the groups alone: whoever newly exits is done, and
      whoever is newly killed was right to be. */
  lemma WorkCarriesOver(c: Config, s: System, t: System)
    requires Shape(c, s) && WorkOk(c, s) && Shape(c, t) && t.groups == s.groups
    requires forall w: nat :: w < |t.phase| && t.phase[w].Exited? ==> s.phase[w].Exited? || WorkerDone(c, s, w)
    requires forall w: nat :: w < |t.phase| && t.phase[w].Killed? ==>
               s.phase[w].Killed? || (c.processMode && c.p.Messages() > UINT_MAX)
    ensures WorkOk(c, t)
  {
    hide Inv, Times, Start, Params.Messages;
    forall w: nat | w < |t.phase| && t.phase[w].Exited?
      ensures WorkerDone(c, t, w)
    {
      assert WorkerDone(c, s, w);
    }
  }

  /** Who was killed stays killed, which is what main has seen when it fails. */
  lemma KilledStay(s: System, t: System)
    requires |s.phase| <= |t.phase| && forall w: nat :: w < |s.phase| && s.phase[w].Killed? ==> t.phase[w].Killed?
    ensures (exists w: nat :: InPhase(s, w, Killed)) ==> exists w: nat :: InPhase(t, w, Killed)
  {
    if w: nat :| InPhase(s, w, Killed) {
      assert InPhase(t, w, Killed);
    }
  }

  lemma MainStepKeepsMain(c: Config, s: System, l: Label)
    requires SystemInv(c, s) && Enabled(c, s, l) && (l.Create? || l.Collect? || l.Wake? || l.Reap? || l.Fail?)
    ensures MainOk(c, Apply(c, s, l))
  {
    hide GateOk, WorkOk, Times, Start;
    SomeWorkers(c);
    CountFull(s.phase, |s.phase|);
    KilledStay(s, Apply(c, s, l));
  }

  lemma MainStepKeepsGate(c: Config, s: System, l: Label)
    requires SystemInv(c, s) && Enabled(c, s, l) && (l.Create? || l.Collect? || l.Wake? || l.Reap? || l.Fail?)
    ensures GateOk(c, Apply(c, s, l))
  {
    hide WorkOk, Times, Start, CountAnnounced, CountExited;
    if l.Create? {
      CountUpdate(s.phase, s.main.made, Born, |s.phase|);
    }
  }

  lemma MainStepKeepsInv(c: Config, s: System, l: Label)
    requires SystemInv(c, s) && Enabled(c, s, l) && (l.Create? || l.Collect? || l.Wake? || l.Reap? || l.Fail?)
    ensures SystemInv(c, Apply(c, s, l))
  {
    hide MainOk, GateOk, WorkOk, Times;
    MainStepKeepsMain(c, s, l);
    MainStepKeepsGate(c, s, l);
    WorkCarriesOver(c, s, Apply(c, s, l));
  }

  /** The receiver that has left was through with its count. */
  lemma GoneIsDone(c: Config, s: System, g: nat, j: nat)
    requires SystemInv(c, s) && g < |s.groups| && j < c.p.n && ReaderGone(c, s, g, j)
    ensures j < |s.groups[g].receivers| && ReceiverDone(c.p, s.groups[g].receivers[j])
  {
    hide MainOk, GateOk;
    LocateIndex(g, j, c.Size(), c.numGroups);
    assert WorkerDone(c, s, Times(g, c.Size()) + j);
  }

  /** So nobody is killed unless the receivers have miscounted. */
  lemma KilledMeansMiscounted(c: Config, s: System, w: nat)
    requires SystemInv(c, s) && Enabled(c, s, Die(w))
    ensures c.processMode && c.p.Messages() > UINT_MAX
  {
    hide MainOk, GateOk;
    var (g, r) := Locate(w, c.Size());
    var k := r - c.p.n;
    assert SenderOk(c.p, s.groups[g].senders[k]);
    GoneIsDone(c, s, g, s.groups[g].senders[k].j);
    LeftEarly(c.p, s.groups[g], k);
  }

  lemma PhaseStepKeepsMain(c: Config, s: System, l: Label)
    requires SystemInv(c, s) && Enabled(c, s, l) && (l.Announce? || l.Go? || l.Exit? || l.Die?)
    ensures MainOk(c, Apply(c, s, l))
  {
    hide GateOk, WorkOk, Times, Start, CountExited, CountAnnounced, WorkerDone, ReaderGone;
    var t := Apply(c, s, l);
    CountUpdate(s.phase, l.w, t.phase[l.w], |s.phase|);
    KilledStay(s, t);
  }

  lemma PhaseStepKeepsGate(c: Config, s: System, l: Label)
    requires SystemInv(c, s) && Enabled(c, s, l) && (l.Announce? || l.Go? || l.Exit? || l.Die?)
    ensures GateOk(c, Apply(c, s, l))
  {
    hide MainOk, WorkOk, Times, Start, CountExited, CountAnnounced, WorkerDone, ReaderGone;
    CountUpdate(s.phase, l.w, Apply(c, s, l).phase[l.w], |s.phase|);
  }

  lemma PhaseStepKeepsInv(c: Config, s: System, l: Label)
    requires SystemInv(c, s) && Enabled(c, s, l) && (l.Announce? || l.Go? || l.Exit? || l.Die?)
    ensures SystemInv(c, Apply(c, s, l))
  {
    hide MainOk, GateOk, WorkOk, Times, Params.Messages, WorkerDone, ReaderGone;
    if l.Die? {
      KilledMeansMiscounted(c, s, l.w);
    }
    PhaseStepKeepsMain(c, s, l);
    PhaseStepKeepsGate(c, s, l);
    WorkCarriesOver(c, s, Apply(c, s, l));
  }

  /** A write or a read of one worker undoes nobody's being done. */
  lemma WorkKeepsDone(c: Config, s: System, l: Label, w: nat)
    requires SystemInv(c, s) && Enabled(c, s, l) && (l.DoWrite? || l.DoRead?)
    requires WorkerDone(c, s, w)
    ensures WorkerDone(c, Apply(c, s, l), w)
  {
    hide Inv, Times, Start, MainOk, GateOk;
  }

  lemma WorkStepKeepsInv(c: Config, s: System, l: Label)
    requires SystemInv(c, s) && Enabled(c, s, l) && (l.DoWrite? || l.DoRead?)
    ensures SystemInv(c, Apply(c, s, l))
  {
    hide Inv, Times, Start;
    var t := Apply(c, s, l);
    KilledStay(s, t);
    var (g, r) := Locate(l.w, c.Size());
    if l.DoWrite? {
      WriteKeepsInv(c.p, s.groups[g], r - c.p.n, l.len);
    } else {
      ReadKeepsInv(c.p, s.groups[g], r, l.len);
    }
    forall w: nat | w < |t.phase| && t.phase[w].Exited?
      ensures WorkerDone(c, t, w)
    {
      WorkKeepsDone(c, s, l, w);
    }
  }

  lemma StepKeepsInv(c: Config, s: System, l: Label)
    requires SystemInv(c, s) && Enabled(c, s, l)
    ensures SystemInv(c, Apply(c, s, l))
  {
    hide *;
    match l
    case Create => MainStepKeepsInv(c, s, l);
    case Collect => MainStepKeepsInv(c, s, l);
    case Wake => MainStepKeepsInv(c, s, l);
    case Reap => MainStepKeepsInv(c, s, l);
    case Fail => MainStepKeepsInv(c, s, l);
    case Announce(_) => PhaseStepKeepsInv(c, s, l);
    case Go(_) => PhaseStepKeepsInv(c, s, l);
    case Exit(_) => PhaseStepKeepsInv(c, s, l);
    case Die(_) => PhaseStepKeepsInv(c, s, l);
    case DoWrite(_, _) => WorkStepKeepsInv(c, s, l);
    case DoRead(_, _) => WorkStepKeepsInv(c, s, l);
  }

  // --- whole runs -----------------------------------------------------------------------------

  /** From s, the steps ls can be taken one after the other and end in t. */
  ghost predicate Path(c: Config, s: System, ls: seq<Label>, t: System)
    decreases |ls|
  {
    if ls == [] then s == t
    else Enabled(c, s, ls[0]) && Path(c, Apply(c, s, ls[0]), ls[1..], t)
  }

  lemma {:induction false} PathKeepsInv(c: Config, s: System, ls: seq<Label>, t: System)
    requires SystemInv(c, s) && Path(c, s, ls, t)
    ensures SystemInv(c, t)
    decreases |ls|
  {
    if ls != [] {
      StepKeepsInv(c, s, ls[0]);
      PathKeepsInv(c, Apply(c, s, ls[0]), ls[1..], t);
    }
  }

  /** The start gate: if any worker runs, or any byte was ever sent in any
      group, then every worker of every group has announced itself. */
  lemma NothingSentBeforeAllReady(c: Config, ls: seq<Label>, t: System)
    requires c.Valid() && Path(c, Init(c), ls, t)
    requires (exists w :: 0 <= w < |t.phase| && (t.phase[w].Running? || t.phase[w].Exited? || t.phase[w].Killed?))
             || (exists g, j :: 0 <= g < |t.groups| && 0 <= j < |t.groups[g].pipes| && t.groups[g].pipes[j].log != [])
    ensures |t.phase| == c.Total() && forall w :: 0 <= w < |t.phase| ==> Announced(t.phase[w])
  {
    InitInv(c);
    PathKeepsInv(c, Init(c), ls, t);
    assert t.wake;
    AwakeMeansAllReady(c, t);
  }

  // --- nobody is stuck --------------------------------------------------------------------------

  /** A worker that is still alive can go on when it is through, when there is
      something to read, or when there is room to write or nobody to read. */
  lemma WorkerCanStep(c: Config, s: System, w: nat, g: nat, r: nat)
    requires SystemInv(c, s) && s.wake && w < |s.phase| && !s.phase[w].Exited? && !s.phase[w].Killed?
    requires Locate(w, c.Size()) == (g, r) && g < |s.groups| && r < c.Size()
    requires WorkerDone(c, s, w) || CanGoOn(c, s, g, r)
    ensures exists l :: Enabled(c, s, l)
  {
    hide SystemInv, CanRead, CanWrite, WorkerDone, ReaderGone;
    AwakeMeansAllReady(c, s);
    assert Announced(s.phase[w]);
    ShapeOf(c, s);
    if s.phase[w].Waiting? {
      assert Enabled(c, s, Go(w));
    } else if WorkerDone(c, s, w) {
      assert Enabled(c, s, Exit(w));
    } else if r < c.p.n {
      assert Enabled(c, s, DoRead(w, 1));
    } else if ReaderGone(c, s, g, s.groups[g].senders[r - c.p.n].j) {
      assert Enabled(c, s, Die(w));
    } else {
      assert Enabled(c, s, DoWrite(w, 1));
    }
  }

  predicate CanGoOn(c: Config, s: System, g: nat, r: nat)
    requires g < |s.groups|
  {
    if r < c.p.n then CanRead(c.p, s.groups[g], r, 1)
    else
      WantsToWrite(c, s, g, r) &&
      (CanWrite(c.p, s.groups[g], r - c.p.n, 1) || ReaderGone(c, s, g, s.groups[g].senders[r - c.p.n].j))
  }

  lemma ShapeOf(c: Config, s: System)
    requires SystemInv(c, s)
    ensures Shape(c, s)
  {
  }

  /** The worker with role r of group g. */
  lemma WorkerNumber(c: Config, g: nat, r: nat) returns (w: nat)
    requires c.Valid() && g < c.numGroups && r < c.Size()
    ensures w < c.Total() && Locate(w, c.Size()) == (g, r)
  {
    w := Times(g, c.Size()) + r;
    LocateIndex(g, r, c.Size(), c.numGroups);
  }

  ghost predicate NobodyKilled(s: System) {
    forall w :: 0 <= w < |s.phase| ==> !s.phase[w].Killed?
  }

  lemma ReceiverCanStep(c: Config, s: System, g: nat, j: nat)
    requires SystemInv(c, s) && s.wake && NobodyKilled(s) && g < |s.groups| && j < c.p.n
    requires CanRead(c.p, s.groups[g], j, 1)
    ensures exists l :: Enabled(c, s, l)
  {
    hide Inv, MainOk, GateOk;
    var w := WorkerNumber(c, g, j);
    WorkerCanStep(c, s, w, g, j);
  }

  /** A receiver that is through exits, or has exited and its process is gone. */
  lemma DoneReceiverCanStep(c: Config, s: System, g: nat, j: nat)
    requires SystemInv(c, s) && s.wake && NobodyKilled(s) && g < |s.groups| && j < c.p.n && c.processMode
    requires j < |s.groups[g].receivers| && ReceiverDone(c.p, s.groups[g].receivers[j])
    ensures ReaderGone(c, s, g, j) || exists l :: Enabled(c, s, l)
  {
    hide Inv, MainOk, GateOk;
    LocateIndex(g, j, c.Size(), c.numGroups);
    var w := Times(g, c.Size()) + j;
    if !s.phase[w].Exited? {
      WorkerCanStep(c, s, w, g, j);
    }
  }

  lemma SenderCanStep(c: Config, s: System, g: nat, k: nat)
    requires SystemInv(c, s) && s.wake && NobodyKilled(s) && (c.processMode || c.p.Fits())
    requires g < |s.groups| && k < c.p.n && !SenderDone(c.p, s.groups[g].senders[k])
    ensures exists l :: Enabled(c, s, l)
  {
    hide MainOk, GateOk;
    SenderNotStuck(c.p, s.groups[g], k);
    var j := s.groups[g].senders[k].j;
    if CanRead(c.p, s.groups[g], j, 1) {
      ReceiverCanStep(c, s, g, j);
    } else {
      if !CanWrite(c.p, s.groups[g], k, 1) {
        DoneReceiverCanStep(c, s, g, j);
      }
      if CanWrite(c.p, s.groups[g], k, 1) || ReaderGone(c, s, g, j) {
        var w := WorkerNumber(c, g, c.p.n + k);
        WorkerCanStep(c, s, w, g, c.p.n + k);
      }
    }
  }

  lemma UnfinishedCanStep(c: Config, s: System, w: nat)
    requires SystemInv(c, s) && s.wake && NobodyKilled(s) && (c.processMode || c.p.Fits())
    requires w < |s.phase| && !s.phase[w].Exited?
    ensures exists l :: Enabled(c, s, l)
  {
    hide MainOk, GateOk;
    LocateBounds(w, c.Size(), c.numGroups);
    var (g, r) := Locate(w, c.Size());
    if WorkerDone(c, s, w) {
      WorkerCanStep(c, s, w, g, r);
    } else if r < c.p.n {
      ReceiverNotStuck(c.p, s.groups[g], r);
      if CanRead(c.p, s.groups[g], r, 1) {
        ReceiverCanStep(c, s, g, r);
      } else {
        var k: nat :| k < c.p.n && !SenderDone(c.p, s.groups[g].senders[k]);
        SenderCanStep(c, s, g, k);
      }
    } else {
      SenderCanStep(c, s, g, r - c.p.n);
    }
  }

  /** Before everybody is ready: main can go on, or some worker can announce
      itself. */
  lemma GateNotStuck(c: Config, s: System)
    requires SystemInv(c, s) && !s.wake
    ensures exists l :: Enabled(c, s, l)
  {
    hide WorkOk;
    if s.main.Creating? {
      assert Enabled(c, s, Create);
    } else if s.main == Waking {
      assert Enabled(c, s, Wake);
    } else if s.ready > 0 {
      assert Enabled(c, s, Collect);
    } else {
      CountFull(s.phase, |s.phase|);
      var w: nat :| w < |s.phase| && !Announced(s.phase[w]);
      assert Enabled(c, s, Announce(w));
    }
  }

  /** No reachable state short of the end is stuck, in process mode, or if what
      the receivers leave behind fits their pipes; in particular if they leave
      nothing. */
  lemma NotStuck(c: Config, ls: seq<Label>, t: System)
    requires c.Valid() && Path(c, Init(c), ls, t) && t.main != Finished && t.main != Failed
    requires c.processMode || c.p.Fits()
    ensures exists l :: Enabled(c, t, l)
  {
    hide WorkOk, Inv, Path, Params.Fits;
    InitInv(c);
    PathKeepsInv(c, Init(c), ls, t);
    if !t.wake {
      GateNotStuck(c, t);
    } else if w: nat :| InPhase(t, w, Killed) {
      assert Enabled(c, t, Fail);
    } else {
      assert NobodyKilled(t) by {
        assert forall w: nat :: w < |t.phase| && t.phase[w].Killed? ==> InPhase(t, w, Killed);
      }
      if w: nat :| w < |t.phase| && !t.phase[w].Exited? {
        UnfinishedCanStep(c, t, w);
      } else {
        CountFull(t.phase, |t.phase|);
        assert Enabled(c, t, Reap);
      }
    }
  }

  // --- every run ends ----------------------------------------------------------------------------

  function MainRank(c: Config, m: Main): int {
    match m
    case Creating(made) => 3 * c.Total() + 3 - made
    case Collecting(got) => 2 * c.Total() + 2 - got
    case Waking => c.Total() + 2
    case Reaping(count) => c.Total() + 1 - count
    case Finished => 0
    case Failed => 0
  }

  function PhaseRank(ph: Phase): nat {
    match ph
    case Unborn => 4
    case Born => 3
    case Waiting => 2
    case Running => 1
    case Exited => 0
    case Killed => 0
  }

  ghost function PhaseSum(phase: seq<Phase>, m: nat): nat
    requires m <= |phase|
  {
    if m == 0 then 0 else PhaseSum(phase, m - 1) + PhaseRank(phase[m - 1])
  }

  ghost function WorkSum(p: Params, groups: seq<Group>, m: nat): int
    requires m <= |groups|
  {
    if m == 0 then 0 else WorkSum(p, groups, m - 1) + Measure(p, groups[m - 1])
  }

  ghost function Rank(c: Config, s: System): int {
    MainRank(c, s.main) + PhaseSum(s.phase, |s.phase|) + WorkSum(c.p, s.groups, |s.groups|)
  }

  lemma {:induction false} PhaseSumUpdate(phase: seq<Phase>, w: nat, ph: Phase, m: nat)
    requires w < |phase| && m <= |phase|
    ensures PhaseSum(phase[w := ph], m)
            == PhaseSum(phase, m) + if w < m then PhaseRank(ph) - PhaseRank(phase[w]) else 0
  {
    if m > 0 {
      PhaseSumUpdate(phase, w, ph, m - 1);
    }
  }

  lemma {:induction false} WorkSumUpdate(p: Params, groups: seq<Group>, g: nat, h: Group, m: nat)
    requires g < |groups| && m <= |groups|
    ensures WorkSum(p, groups[g := h], m)
            == WorkSum(p, groups, m) + if g < m then Measure(p, h) - Measure(p, groups[g]) else 0
  {
    if m > 0 {
      WorkSumUpdate(p, groups, g, h, m - 1);
    }
  }

  lemma {:induction false} WorkSumNat(c: Config, s: System, m: nat)
    requires SystemInv(c, s) && m <= |s.groups|
    ensures 0 <= WorkSum(c.p, s.groups, m)
  {
    if m > 0 {
      WorkSumNat(c, s, m - 1);
      RemainingNat(c.p, s.groups[m - 1], c.p.n);
    }
  }

  lemma RankNat(c: Config, s: System)
    requires SystemInv(c, s)
    ensures 0 <= Rank(c, s)
  {
    hide Inv, WorkerDone, Times;
    WorkSumNat(c, s, |s.groups|);
  }

  lemma WorkDecreasesRank(c: Config, s: System, l: Label)
    requires Enabled(c, s, l) && (l.DoWrite? || l.DoRead?)
    ensures Rank(c, Apply(c, s, l)) < Rank(c, s)
  {
    hide WorkerDone, Times, Measure, Write, Read, CanWrite, CanRead, ReaderGone, PhaseSum, MainRank;
    var (g, r) := Locate(l.w, c.Size());
    var k := if l.DoWrite? then r - c.p.n else r;
    WorkSumUpdate(c.p, s.groups, g, Apply(c, s, l).groups[g], |s.groups|);
    StepsDecrease(c.p, s.groups[g], k, l.len);
    FragmentsAreNonempty(c.p, s.groups[g], k, l.len);
  }

  lemma StepDecreasesRank(c: Config, s: System, l: Label)
    requires SystemInv(c, s) && Enabled(c, s, l)
    ensures Rank(c, Apply(c, s, l)) < Rank(c, s)
  {
    hide GateOk, WorkOk, ReapReady, ReaderGone, WorkerDone, Times, CanWrite, CanRead, WorkSum;
    match l
    case Create =>
      PhaseSumUpdate(s.phase, s.main.made, Born, |s.phase|);
    case Announce(w) =>
      PhaseSumUpdate(s.phase, w, Waiting, |s.phase|);
    case Go(w) =>
      PhaseSumUpdate(s.phase, w, Running, |s.phase|);
    case Exit(w) =>
      PhaseSumUpdate(s.phase, w, Exited, |s.phase|);
    case Die(w) =>
      PhaseSumUpdate(s.phase, w, Killed, |s.phase|);
    case DoWrite(_, _) =>
      WorkDecreasesRank(c, s, l);
    case DoRead(_, _) =>
      WorkDecreasesRank(c, s, l);
    case Collect =>
    case Wake =>
    case Reap =>
    case Fail =>
  }

  lemma FragmentsAreNonempty(p: Params, g: Group, k: nat, len: nat)
    ensures CanWrite(p, g, k, len) || CanRead(p, g, k, len) ==> len > 0
  {
  }

  lemma {:induction false} PathDecreasesRank(c: Config, s: System, ls: seq<Label>, t: System)
    requires SystemInv(c, s) && Path(c, s, ls, t)
    ensures |ls| + Rank(c, t) <= Rank(c, s) && 0 <= Rank(c, t)
    decreases |ls|
  {
    hide SystemInv, Rank, Enabled, Apply;
    if ls != [] {
      StepKeepsInv(c, s, ls[0]);
      StepDecreasesRank(c, s, ls[0]);
      PathDecreasesRank(c, Apply(c, s, ls[0]), ls[1..], t);
    } else {
      RankNat(c, s);
    }
  }

  /** Every run is finite: no schedule takes more steps than the initial rank. */
  lemma EveryRunEnds(c: Config, ls: seq<Label>, t: System)
    requires c.Valid() && Path(c, Init(c), ls, t)
    ensures |ls| <= Rank(c, Init(c))
  {
    InitInv(c);
    PathDecreasesRank(c, Init(c), ls, t);
  }

  /** Pipe j has carried each sender's bytes exactly once and in order, and all
      of them were read. */
  ghost predicate DeliveredTo(p: Params, g: Group, j: nat) {
    && j < |g.pipes|
    && g.pipes[j].taken == |g.pipes[j].log| == p.n * p.loops * p.size
    && forall k: nat :: k < p.n ==> Project(g.pipes[j].log, k) == Upto(p.loops * p.size)
  }

  ghost predicate Delivered(c: Config, t: System) {
    && t.main == Finished && |t.groups| == c.numGroups
    && forall g, j: nat :: 0 <= g < c.numGroups && j < c.p.n ==> DeliveredTo(c.p, t.groups[g], j)
  }

  /** When main has reaped its workers, all of them are through. */
  lemma FinishedMeansDone(c: Config, t: System, g: nat)
    requires SystemInv(c, t) && t.main == Finished && g < c.numGroups
    ensures Inv(c.p, t.groups[g])
    ensures forall k: nat :: k < c.p.n ==> SenderDone(c.p, t.groups[g].senders[k])
    ensures forall j: nat :: j < c.p.n ==> ReceiverDone(c.p, t.groups[g].receivers[j])
  {
    hide GateOk, Inv;
    assert Inv(c.p, t.groups[g]);
    ShapeOfGroup(c.p, t.groups[g]);
    forall k: nat | k < c.p.n
      ensures SenderDone(c.p, t.groups[g].senders[k])
    {
      var w := WorkerNumber(c, g, c.p.n + k);
      assert t.phase[w].Exited?;
    }
    forall j: nat | j < c.p.n
      ensures ReceiverDone(c.p, t.groups[g].receivers[j])
    {
      var w := WorkerNumber(c, g, j);
      assert t.phase[w].Exited?;
    }
  }

  lemma ShapeOfGroup(p: Params, g: Group)
    requires Inv(p, g)
    ensures |g.senders| == |g.receivers| == |g.pipes| == p.n
  {
  }

  /** When main has reaped its workers, every receiver of every group has read
      as many messages as it counts, every pipe has carried each sender's bytes
      exactly once and in order, and what was not read fits the pipe. */
  lemma FinishedMeansCounted(c: Config, t: System, g: nat, j: nat)
    requires SystemInv(c, t) && t.main == Finished && g < c.numGroups && j < c.p.n
    ensures |t.groups[g].pipes| == |t.groups[g].receivers| == c.p.n
    ensures t.groups[g].receivers[j] == Receiver(c.p.Packets(), 0)
    ensures var pipe := t.groups[g].pipes[j];
            && pipe.taken == c.p.Packets() * c.p.size && |pipe.log| == c.p.n * c.p.loops * c.p.size
            && forall k: nat :: k < c.p.n ==> Project(pipe.log, k) == Upto(c.p.loops * c.p.size)
    ensures c.p.Fits()
  {
    hide SystemInv, Inv, Project, Upto, Params.Packets, Params.Fits, Times;
    ShapeOf(c, t);
    FinishedMeansDone(c, t, g);
    ShapeOfGroup(c.p, t.groups[g]);
    AllDelivered(c.p, t.groups[g], j);
    TimesIsProduct(c.p.Packets(), c.p.size);
    TimesIsProduct(c.p.Messages(), c.p.size);
    TimesIsProduct(c.p.loops, c.p.size);
  }

  lemma FinishedDelivers(c: Config, t: System)
    requires SystemInv(c, t) && t.main == Finished
    ensures Delivered(c, t) <==> c.p.n * c.p.loops <= UINT_MAX
  {
    hide Inv, Project, Upto, Params.Packets, Params.Fits, Times, MainOk, GateOk, WorkOk;
    forall g, j: nat | 0 <= g < c.numGroups && j < c.p.n
      ensures DeliveredTo(c.p, t.groups[g], j) <==> c.p.n * c.p.loops <= UINT_MAX
    {
      FinishedMeansCounted(c, t, g, j);
      FewerPackets(c.p);
    }
    if Delivered(c, t) {
      assert DeliveredTo(c.p, t.groups[0], 0);
    }
  }

  lemma FewerPackets(p: Params)
    requires p.Valid()
    ensures p.Packets() * p.size == p.n * p.loops * p.size <==> p.n * p.loops <= UINT_MAX
  {
    hide Params.Packets, Times;
    TimesIsProduct(p.Packets(), p.size);
    TimesIsProduct(p.Messages(), p.size);
    TimesMonotone(p.Packets(), p.Messages(), p.size);
  }

  /** A run to its very end: no step is left to take. */
  ghost predicate EndsIn(c: Config, ls: seq<Label>, t: System) {
    Path(c, Init(c), ls, t) && forall l :: !Enabled(c, t, l)
  }

  /** Whatever the schedule, a run to its end delivers all messages of all groups
      exactly if the number of messages per receiver fits its unsigned counter. */
  lemma DeliversIff(c: Config, ls: seq<Label>, t: System)
    requires c.Valid() && EndsIn(c, ls, t)
    ensures Delivered(c, t) <==> c.p.n * c.p.loops <= UINT_MAX
  {
    hide SystemInv, Enabled, Path, DeliveredTo, Params.Packets;
    InitInv(c);
    PathKeepsInv(c, Init(c), ls, t);
    if t.main == Finished {
      FinishedDelivers(c, t);
    } else if c.p.n * c.p.loops <= UINT_MAX {
      CountsFit(c, t);
      NotStuck(c, ls, t);
    }
  }

  /** As long as the counter has room for all messages, nothing is left behind
      and nobody is killed. */
  lemma CountsFit(c: Config, t: System)
    requires SystemInv(c, t) && c.p.Messages() <= UINT_MAX
    ensures c.p.Fits() && t.main != Failed
  {
  }

  lemma OnlyProcessesFail(c: Config, t: System)
    requires SystemInv(c, t) && t.main == Failed
    ensures c.processMode
  {
  }

  /** Threads come to their end exactly if what the receivers leave behind fits
      the pipes; otherwise every run gets stuck before that. */
  lemma ThreadsFinishIff(c: Config, ls: seq<Label>, t: System)
    requires c.Valid() && EndsIn(c, ls, t) && !c.processMode
    ensures t.main == Finished <==> c.p.Fits()
  {
    hide SystemInv, Enabled, Path, Params.Fits;
    InitInv(c);
    PathKeepsInv(c, Init(c), ls, t);
    if t.main == Finished {
      FinishedMeansCounted(c, t, 0, 0);
    } else if c.p.Fits() {
      if t.main == Failed {
        OnlyProcessesFail(c, t);
      }
      NotStuck(c, ls, t);
    }
  }

  /** Processes always do: main reaps them all, or finds one killed by a signal. */
  lemma ProcessesEnd(c: Config, ls: seq<Label>, t: System)
    requires c.Valid() && EndsIn(c, ls, t) && c.processMode
    ensures t.main == Finished || t.main == Failed
    ensures t.main == Failed ==> c.p.n * c.p.loops > UINT_MAX
  {
    hide SystemInv, Enabled, Path, Params.Fits;
    InitInv(c);
    PathKeepsInv(c, Init(c), ls, t);
    if t.main == Failed && c.p.Messages() <= UINT_MAX {
      CountsFit(c, t);
    }
    if t.main != Finished && t.main != Failed {
      NotStuck(c, ls, t);
    }
  }

  /** From every state that can be reached the run can be taken to an end. */
  lemma {:induction false} CanEnd(c: Config, s: System) returns (ls: seq<Label>, t: System)
    requires SystemInv(c, s)
    ensures Path(c, s, ls, t) && forall l :: !Enabled(c, t, l)
    decreases Rank(c, s)
  {
    hide SystemInv, Rank, Enabled, Apply;
    if l :| Enabled(c, s, l) {
      StepKeepsInv(c, s, l);
      StepDecreasesRank(c, s, l);
      RankNat(c, s);
      ls, t := CanEnd(c, Apply(c, s, l));
      ls := [l] + ls;
      assert ls[1..] == ls[1..];
    } else {
      ls, t := [], s;
    }
  }

  /** 214748365 loops of 20 senders: 2^32 + 4 messages for each receiver, of
      which it reads 4. All runs of threads get stuck, unless a pipe holds the
      other 2^32 messages. */
  lemma TooManyLoops(c: Config, ls: seq<Label>, t: System)
    requires c.Valid() && EndsIn(c, ls, t)
    requires c.p.n == 20 && c.p.loops == 214748365 && c.p.size == 100
    ensures c.p.Packets() == 4 && !Delivered(c, t)
    ensures !c.processMode && c.p.cap < 0x1_0000_0000 * 100 ==> t.main != Finished
  {
    DeliversIff(c, ls, t);
    TimesIsProduct(c.p.Messages(), c.p.size);
    TimesIsProduct(c.p.Packets(), c.p.size);
    if !c.processMode {
      ThreadsFinishIff(c, ls, t);
    }
  }

  /** In process mode a read of an empty pipe with no writer left returns 0 and
      the receiver would ask again forever; no reachable state is one of these. */
  lemma NeverReadsEndOfFile(c: Config, ls: seq<Label>, t: System, g: nat, j: nat)
    requires c.Valid() && Path(c, Init(c), ls, t)
    requires g < c.numGroups && j < c.p.n
    requires |t.groups| == c.numGroups && |t.groups[g].receivers| == |t.groups[g].senders| == |t.groups[g].pipes| == c.p.n
    requires !ReceiverDone(c.p, t.groups[g].receivers[j])
    requires forall k: nat :: k < c.p.n ==> SenderDone(c.p, t.groups[g].senders[k])
    ensures t.groups[g].pipes[j].taken < |t.groups[g].pipes[j].log|
  {
    InitInv(c);
    PathKeepsInv(c, Init(c), ls, t);
    ReceiverNotStuck(c.p, t.groups[g], j);
  }
}
