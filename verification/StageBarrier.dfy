// The two-counter barrier that keeps the worker threads of aio-stress in step:
// every thread passes a start and an end rendezvous in each of its stages.
module StageBarrier {

  /** Where a thread is: before the start rendezvous, inside it (asleep in
      pthread_cond_wait or awake again), at its I/O, inside the end rendezvous,
      or past its last stage. */
  datatype Place = AtStart | InStart(asleep: bool) | Working | InEnd(asleep: bool) | Gone

  /** The shared counters, and each thread's place and number of stages done. */
  datatype State = State(starting: nat, ending: nat, place: seq<Place>, done: seq<nat>)

  /** How many stages each thread runs before it finds nothing to restart. */
  datatype Config = Config(stages: seq<nat>) {
    function Threads(): nat { |stages| }

    ghost predicate Valid() {
      2 <= |stages| && forall i :: 0 <= i < |stages| ==> 1 <= stages[i]
    }

    ghost predicate SameStages() {
      forall i, j :: 0 <= i < |stages| && 0 <= j < |stages| ==> stages[i] == stages[j]
    }
  }

  // --- the steps -----------------------------------------------------------------

  /** ArriveStart and ArriveEnd run from taking the mutex to leaving the wait
      loop or falling asleep in it; CheckStart and CheckEnd are one more turn of
      the loop after a wake-up; Spurious is a wake-up without a broadcast. */
  datatype Label =
    | ArriveStart(i: nat)
    | CheckStart(i: nat)
    | ArriveEnd(i: nat)
    | CheckEnd(i: nat)
    | Spurious(i: nat)

  function Wake(p: Place): Place {
    match p
    case InStart(_) => InStart(false)
    case InEnd(_) => InEnd(false)
    case _ => p
  }

  function Broadcast(place: seq<Place>): (r: seq<Place>)
    ensures |r| == |place| && forall i :: 0 <= i < |place| ==> r[i] == Wake(place[i])
  {
    seq(|place|, i requires 0 <= i < |place| => Wake(place[i]))
  }

  predicate Shape(c: Config, s: State) {
    |s.place| == |s.done| == c.Threads()
  }

  predicate Enabled(c: Config, s: State, l: Label) {
    Shape(c, s) && l.i < c.Threads() &&
    match l
    case ArriveStart(i) => s.place[i] == AtStart
    case CheckStart(i) => s.place[i] == InStart(false)
    case ArriveEnd(i) => s.place[i] == Working
    case CheckEnd(i) => s.place[i] == InEnd(false)
    case Spurious(i) => s.place[i].InStart? || s.place[i].InEnd?
  }

  /** Leaving the end rendezvous: the stage is done, and the thread starts over
      or is through. */
  function Leave(c: Config, s: State, i: nat): State
    requires Shape(c, s) && i < c.Threads()
  {
    s.(done := s.done[i := s.done[i] + 1],
       place := s.place[i := if s.done[i] + 1 < c.stages[i] then AtStart else Gone])
  }

  function Apply(c: Config, s: State, l: Label): State
    requires Enabled(c, s, l)
  {
    match l
    case ArriveStart(i) =>
      if s.starting + 1 == c.Threads() then
        State(s.starting + 1, 0, Broadcast(s.place)[i := Working], s.done)
      else
        s.(starting := s.starting + 1, place := s.place[i := InStart(true)])
    case CheckStart(i) =>
      s.(place := s.place[i := if s.starting == c.Threads() then Working else InStart(true)])
    case ArriveEnd(i) =>
      if s.ending + 1 == c.Threads() then
        Leave(c, State(0, s.ending + 1, Broadcast(s.place), s.done), i)
      else
        s.(ending := s.ending + 1, place := s.place[i := InEnd(true)])
    case CheckEnd(i) =>
      if s.ending == c.Threads() then Leave(c, s, i)
      else s.(place := s.place[i := InEnd(true)])
    case Spurious(i) => s.(place := s.place[i := Wake(s.place[i])])
  }

  function Init(c: Config): State {
    State(0, 0, seq(c.Threads(), _ => AtStart), seq(c.Threads(), _ => 0))
  }

  /** Nobody waits busily: a thread that stays in a rendezvous is asleep, and can only
      be woken. */
  lemma WaitsAsleep(c: Config, s: State, l: Label, m: Label)
    requires Enabled(c, s, l) && !l.Spurious?
    ensures var t := Apply(c, s, l);
            (t.place[l.i].InStart? || t.place[l.i].InEnd?) && m.i == l.i && Enabled(c, t, m) ==> m.Spurious?
  {
  }

  // --- counting --------------------------------------------------------------------

  ghost function CountStart(place: seq<Place>, m: nat): nat
    requires m <= |place|
  {
    if m == 0 then 0 else CountStart(place, m - 1) + if place[m - 1].InStart? then 1 else 0
  }

  ghost function CountEnd(place: seq<Place>, m: nat): nat
    requires m <= |place|
  {
    if m == 0 then 0 else CountEnd(place, m - 1) + if place[m - 1].InEnd? then 1 else 0
  }

  lemma {:induction false} CountUpdate(place: seq<Place>, i: nat, p: Place, m: nat)
    requires i < |place| && m <= |place|
    ensures CountStart(place[i := p], m)
            == CountStart(place, m) +
               if i < m then (if p.InStart? then 1 else 0) - (if place[i].InStart? then 1 else 0) else 0
    ensures CountEnd(place[i := p], m)
            == CountEnd(place, m) +
               if i < m then (if p.InEnd? then 1 else 0) - (if place[i].InEnd? then 1 else 0) else 0
  {
    if m > 0 {
      CountUpdate(place, i, p, m - 1);
    }
  }

  lemma {:induction false} CountBounds(place: seq<Place>, m: nat)
    requires m <= |place|
    ensures CountStart(place, m) <= m && CountEnd(place, m) <= m
    ensures CountStart(place, m) == m <==> forall i :: 0 <= i < m ==> place[i].InStart?
    ensures CountEnd(place, m) == m <==> forall i :: 0 <= i < m ==> place[i].InEnd?
    ensures CountEnd(place, m) == 0 <==> forall i :: 0 <= i < m ==> !place[i].InEnd?
    ensures CountStart(place, m) == 0 <==> forall i :: 0 <= i < m ==> !place[i].InStart?
  {
    if m > 0 {
      CountBounds(place, m - 1);
    }
  }

  /** If all but one are counted and that one is not, the others all are. */
  lemma AllButOne(place: seq<Place>, i: nat)
    requires i < |place|
    ensures !place[i].InStart? && CountStart(place, |place|) + 1 == |place| ==>
              forall j :: 0 <= j < |place| && j != i ==> place[j].InStart?
    ensures !place[i].InEnd? && CountEnd(place, |place|) + 1 == |place| ==>
              forall j :: 0 <= j < |place| && j != i ==> place[j].InEnd?
  {
    var n := |place|;
    CountUpdate(place, i, InStart(true), n);
    CountUpdate(place, i, InEnd(true), n);
    CountBounds(place[i := InStart(true)], n);
    CountBounds(place[i := InEnd(true)], n);
    forall j | 0 <= j < n && j != i
      ensures place[i := InStart(true)][j] == place[j] == place[i := InEnd(true)][j]
    {
    }
  }

  // --- the invariant -----------------------------------------------------------------

  /** Gathering for stage k: a thread waits at or in the start rendezvous of
      stage k, or is about to leave the end rendezvous of the stage before, or
      has run all its stages. */
  ghost predicate Gathering(c: Config, s: State, k: nat, i: nat)
    requires Shape(c, s) && i < c.Threads()
  {
    || ((s.place[i].AtStart? || s.place[i].InStart?) && s.done[i] == k < c.stages[i])
    || (s.place[i] == InEnd(false) && s.done[i] + 1 == k <= c.stages[i])
    || (s.place[i] == Gone && s.done[i] == k == c.stages[i])
  }

  /** Running stage k: a thread is about to leave the start rendezvous, works,
      or is in the end rendezvous. */
  ghost predicate InStage(c: Config, s: State, k: nat, i: nat)
    requires Shape(c, s) && i < c.Threads()
  {
    && s.done[i] == k < c.stages[i]
    && (s.place[i] == InStart(false) || s.place[i].Working? || s.place[i].InEnd?)
  }

  ghost predicate Inv(c: Config, s: State, k: nat) {
    && c.Valid() && Shape(c, s)
    && if s.starting == c.Threads() then
         && s.ending == CountEnd(s.place, c.Threads()) < c.Threads()
         && forall i: nat :: i < c.Threads() ==> InStage(c, s, k, i)
       else
         && s.starting == CountStart(s.place, c.Threads()) < c.Threads()
         && s.ending == (if k == 0 then 0 else c.Threads())
         && forall i: nat :: i < c.Threads() ==> Gathering(c, s, k, i)
  }

  lemma {:induction false} InitCount(c: Config, m: nat)
    requires m <= c.Threads()
    ensures CountStart(Init(c).place, m) == 0
  {
    if m > 0 {
      InitCount(c, m - 1);
    }
  }

  lemma InitInv(c: Config)
    requires c.Valid()
    ensures Inv(c, Init(c), 0)
  {
    InitCount(c, c.Threads());
  }

  /** The stage after a step: only the last arrival at the end moves it on. */
  function NextStage(c: Config, s: State, l: Label, k: nat): nat {
    if l.ArriveEnd? && s.ending + 1 == c.Threads() then k + 1 else k
  }

  lemma ArriveStartKeepsInv(c: Config, s: State, k: nat, i: nat)
    requires Inv(c, s, k) && Enabled(c, s, ArriveStart(i))
    ensures Inv(c, Apply(c, s, ArriveStart(i)), k)
  {
    assert s.starting != c.Threads() by {
      assert s.starting == c.Threads() ==> InStage(c, s, k, i);
    }
    assert Gathering(c, s, k, i);
    CountUpdate(s.place, i, InStart(true), c.Threads());
    AllButOne(s.place, i);
    var t := Apply(c, s, ArriveStart(i));
    if s.starting + 1 == c.Threads() {
      forall j: nat | j < c.Threads()
        ensures InStage(c, t, k, j) && !t.place[j].InEnd?
      {
        assert Gathering(c, s, k, j);
      }
      CountBounds(t.place, c.Threads());
    } else {
      forall j: nat | j < c.Threads()
        ensures Gathering(c, t, k, j)
      {
        assert Gathering(c, s, k, j);
      }
    }
  }

  lemma ArriveEndKeepsInv(c: Config, s: State, k: nat, i: nat)
    requires Inv(c, s, k) && Enabled(c, s, ArriveEnd(i))
    ensures Inv(c, Apply(c, s, ArriveEnd(i)), NextStage(c, s, ArriveEnd(i), k))
  {
    assert s.starting == c.Threads() by {
      assert s.starting != c.Threads() ==> Gathering(c, s, k, i);
    }
    assert InStage(c, s, k, i);
    CountUpdate(s.place, i, InEnd(true), c.Threads());
    AllButOne(s.place, i);
    var t := Apply(c, s, ArriveEnd(i));
    if s.ending + 1 == c.Threads() {
      forall j: nat | j < c.Threads()
        ensures Gathering(c, t, k + 1, j) && !t.place[j].InStart?
      {
        assert InStage(c, s, k, j);
      }
      CountBounds(t.place, c.Threads());
    } else {
      forall j: nat | j < c.Threads()
        ensures InStage(c, t, k, j)
      {
        assert InStage(c, s, k, j);
      }
    }
  }

  lemma CheckKeepsInv(c: Config, s: State, k: nat, l: Label)
    requires Inv(c, s, k) && Enabled(c, s, l) && (l.CheckStart? || l.CheckEnd? || l.Spurious?)
    ensures Inv(c, Apply(c, s, l), k)
  {
    var t := Apply(c, s, l);
    CountUpdate(s.place, l.i, t.place[l.i], c.Threads());
    CountBounds(s.place, c.Threads());
    if s.starting == c.Threads() {
      assert InStage(c, s, k, l.i);
      forall j: nat | j < c.Threads() ensures InStage(c, t, k, j) {
        assert InStage(c, s, k, j);
      }
    } else {
      assert Gathering(c, s, k, l.i);
      forall j: nat | j < c.Threads() ensures Gathering(c, t, k, j) {
        assert Gathering(c, s, k, j);
      }
    }
  }

  lemma StepKeepsInv(c: Config, s: State, k: nat, l: Label)
    requires Inv(c, s, k) && Enabled(c, s, l)
    ensures Inv(c, Apply(c, s, l), NextStage(c, s, l, k))
  {
    hide Inv, Enabled, Apply;
    match l
    case ArriveStart(i) => ArriveStartKeepsInv(c, s, k, i);
    case ArriveEnd(i) => ArriveEndKeepsInv(c, s, k, i);
    case CheckStart(_) => CheckKeepsInv(c, s, k, l);
    case CheckEnd(_) => CheckKeepsInv(c, s, k, l);
    case Spurious(_) => CheckKeepsInv(c, s, k, l);
  }

  // --- whole runs ----------------------------------------------------------------------

  ghost predicate Path(c: Config, s: State, ls: seq<Label>, t: State)
    decreases |ls|
  {
    if ls == [] then s == t
    else Enabled(c, s, ls[0]) && Path(c, Apply(c, s, ls[0]), ls[1..], t)
  }

  lemma {:induction false} PathKeepsInv(c: Config, s: State, k: nat, ls: seq<Label>, t: State) returns (k': nat)
    requires Inv(c, s, k) && Path(c, s, ls, t)
    ensures Inv(c, t, k')
    decreases |ls|
  {
    hide Inv, Enabled, Apply;
    k' := k;
    if ls != [] {
      StepKeepsInv(c, s, k, ls[0]);
      k' := PathKeepsInv(c, Apply(c, s, ls[0]), NextStage(c, s, ls[0], k), ls[1..], t);
    }
  }

  /** In every interleaving, while a thread works on a stage no thread is in any
      other stage: none has gone ahead and none has stayed behind. And the
      threads_ending it sees is the number of threads done with this stage, so
      that being stonewalled needs one that has finished. */
  lemma OneStageAtATime(c: Config, ls: seq<Label>, t: State, i: nat)
    requires c.Valid() && Path(c, Init(c), ls, t)
    requires i < c.Threads() && Shape(c, t) && t.place[i].Working?
    ensures forall j: nat :: j < c.Threads() ==>
              t.done[j] == t.done[i] && (t.place[j] == InStart(false) || t.place[j].Working? || t.place[j].InEnd?)
    ensures t.ending == CountEnd(t.place, c.Threads())
    ensures t.ending > 0 <==> exists j: nat :: j < c.Threads() && t.place[j].InEnd?
  {
    InitInv(c);
    var k := PathKeepsInv(c, Init(c), 0, ls, t);
    assert t.starting == c.Threads() by {
      assert t.starting != c.Threads() ==> Gathering(c, t, k, i);
    }
    forall j: nat | j < c.Threads()
      ensures t.done[j] == t.done[i]
      ensures t.place[j] == InStart(false) || t.place[j].Working? || t.place[j].InEnd?
    {
      assert InStage(c, t, k, j) && InStage(c, t, k, i);
    }
    CountBounds(t.place, c.Threads());
  }

  // --- finishing --------------------------------------------------------------------------

  ghost predicate AllGone(c: Config, s: State) {
    Shape(c, s) && forall i :: 0 <= i < c.Threads() ==> s.place[i] == Gone
  }

  /** How far the first m threads have come. */
  ghost function Progress(s: State, m: nat): nat
    requires m <= |s.place| == |s.done|
  {
    if m == 0 then 0 else Progress(s, m - 1) + 4 * s.done[m - 1] + PlaceRank(s.place[m - 1])
  }

  function PlaceRank(p: Place): nat {
    match p
    case AtStart => 0
    case InStart(_) => 1
    case Working => 2
    case InEnd(_) => 3
    case Gone => 0
  }

  ghost function Goal(c: Config, m: nat): nat
    requires m <= |c.stages|
  {
    if m == 0 then 0 else Goal(c, m - 1) + 4 * c.stages[m - 1]
  }

  lemma {:induction false} ProgressBounded(c: Config, s: State, k: nat, m: nat)
    requires Inv(c, s, k) && m <= c.Threads()
    ensures Progress(s, m) <= Goal(c, m)
  {
    if m > 0 {
      ProgressBounded(c, s, k, m - 1);
      assert InStage(c, s, k, m - 1) || Gathering(c, s, k, m - 1);
    }
  }

  /** A step that takes one thread on and none back is progress. */
  lemma {:induction false} ProgressGrows(s: State, t: State, i: nat, m: nat)
    requires m <= |s.place| == |s.done| == |t.place| == |t.done|
    requires forall j :: 0 <= j < m && j != i ==> t.done[j] == s.done[j] && PlaceRank(t.place[j]) == PlaceRank(s.place[j])
    requires i < m ==> 4 * s.done[i] + PlaceRank(s.place[i]) < 4 * t.done[i] + PlaceRank(t.place[i])
    ensures if i < m then Progress(s, m) < Progress(t, m) else Progress(s, m) == Progress(t, m)
  {
    if m > 0 {
      ProgressGrows(s, t, i, m - 1);
    }
  }

  /** While the threads gather, one that is neither waiting nor through. */
  lemma SomeoneOutside(c: Config, s: State, k: nat) returns (i: nat)
    requires Inv(c, s, k) && c.SameStages() && !AllGone(c, s) && s.starting != c.Threads()
    ensures i < c.Threads() && !s.place[i].InStart? && s.place[i] != Gone
  {
    CountBounds(s.place, c.Threads());
    i :| i < c.Threads() && !s.place[i].InStart?;
    if s.place[i] == Gone {
      assert Gathering(c, s, k, i);
      var j: nat :| j < c.Threads() && s.place[j] != Gone;
      assert Gathering(c, s, k, j);
      i := j;
    }
  }

  /** While a stage runs, a thread that is not at its end can go on. */
  lemma SomeoneInside(c: Config, s: State, k: nat) returns (l: Label)
    requires Inv(c, s, k) && s.starting == c.Threads()
    ensures Enabled(c, s, l) && Progress(s, c.Threads()) < Progress(Apply(c, s, l), c.Threads())
  {
    CountBounds(s.place, c.Threads());
    var i: nat :| i < c.Threads() && !s.place[i].InEnd?;
    assert InStage(c, s, k, i);
    l := if s.place[i].Working? then ArriveEnd(i) else CheckStart(i);
    ProgressGrows(s, Apply(c, s, l), i, c.Threads());
  }

  /** With equal numbers of stages, some thread can go on until all are through. */
  lemma SomeoneCanGoOn(c: Config, s: State, k: nat) returns (l: Label)
    requires Inv(c, s, k) && c.SameStages() && !AllGone(c, s)
    ensures Enabled(c, s, l) && Progress(s, c.Threads()) < Progress(Apply(c, s, l), c.Threads())
  {
    if s.starting == c.Threads() {
      l := SomeoneInside(c, s, k);
    } else {
      var i := SomeoneOutside(c, s, k);
      assert Gathering(c, s, k, i);
      l := if s.place[i].AtStart? then ArriveStart(i) else CheckEnd(i);
      ProgressGrows(s, Apply(c, s, l), i, c.Threads());
    }
  }

  lemma {:induction false} CanFinish(c: Config, s: State, k: nat) returns (ls: seq<Label>, t: State)
    requires Inv(c, s, k) && c.SameStages()
    ensures Path(c, s, ls, t) && AllGone(c, t)
    decreases Goal(c, c.Threads()) - Progress(s, c.Threads())
  {
    ls, t := [], s;
    if !AllGone(c, s) {
      var l := SomeoneCanGoOn(c, s, k);
      var s' := Apply(c, s, l);
      StepKeepsInv(c, s, k, l);
      ProgressBounded(c, s', NextStage(c, s, l, k), c.Threads());
      var rest;
      rest, t := CanFinish(c, s', NextStage(c, s, l, k));
      ls := [l] + rest;
      assert ls[1..] == rest;
    }
  }

  /** From every reachable state all threads can still get through. */
  lemma NeverDeadlocked(c: Config, ls: seq<Label>, s: State) returns (rest: seq<Label>, t: State)
    requires c.Valid() && c.SameStages() && Path(c, Init(c), ls, s)
    ensures Path(c, s, rest, t) && AllGone(c, t)
  {
    InitInv(c);
    var k := PathKeepsInv(c, Init(c), 0, ls, s);
    rest, t := CanFinish(c, s, k);
  }

  /** Exactly when the threads can all get through: when they run the same
      number of stages. Otherwise the others wait forever for one that left. */
  lemma FinishIffSameStages(c: Config)
    requires c.Valid()
    ensures (exists ls, t :: Path(c, Init(c), ls, t) && AllGone(c, t)) <==> c.SameStages()
  {
    InitInv(c);
    if c.SameStages() {
      var ls, t := CanFinish(c, Init(c), 0);
    }
    if exists ls, t :: Path(c, Init(c), ls, t) && AllGone(c, t) {
      var ls, t :| Path(c, Init(c), ls, t) && AllGone(c, t);
      var k := PathKeepsInv(c, Init(c), 0, ls, t);
      forall i: nat | i < c.Threads()
        ensures c.stages[i] == k
      {
        assert InStage(c, t, k, i) || Gathering(c, t, k, i);
      }
    }
  }
}
