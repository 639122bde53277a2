// The rounds of one aio-stress thread over its operations, and its stages.
module AioWorker {
  import opened AioCounts
  import opened AioFiles
  import opened AioModel
  import opened AioStages
  import opened AioThread
  import opened Arithmetic

  /** Requests still to be started, over the first m operations. */
  ghost function Left(opers: seq<Oper>, m: nat): int
    requires m <= |opers|
  {
    if m == 0 then 0 else Left(opers, m - 1) + opers[m - 1].total - opers[m - 1].started
  }

  lemma {:induction false} LeftShrinks(before: seq<Oper>, after: seq<Oper>, m: nat)
    requires m <= |before| == |after|
    requires forall o :: 0 <= o < |before| ==>
               before[o].total == after[o].total && before[o].started <= after[o].started <= after[o].total
    ensures 0 <= Left(after, m) <= Left(before, m)
    ensures (exists o :: 0 <= o < m && before[o].started < after[o].started) ==> Left(after, m) < Left(before, m)
  {
    if m > 0 {
      LeftShrinks(before, after, m - 1);
    }
  }

  lemma {:induction false} SameLeft(before: seq<Oper>, after: seq<Oper>, m: nat)
    requires m <= |before| == |after|
    requires forall o :: 0 <= o < |before| ==>
               before[o].total == after[o].total && before[o].started == after[o].started
    ensures Left(after, m) == Left(before, m)
  {
    if m > 0 {
      SameLeft(before, after, m - 1);
    }
  }

  lemma CoreContexts(before: seq<Oper>, after: seq<Oper>)
    requires |before| == |after| && Core(before) == Core(after)
    ensures SameContexts(before, after)
  {
    hide Core;
    forall o: nat | o < |before|
      ensures after[o].(pending := 0, started := 0, lastOffset := 0) == before[o].(pending := 0, started := 0, lastOffset := 0)
    {
      CoreMeans(before, o);
      CoreMeans(after, o);
    }
  }

  ghost predicate Uncut(op: Oper, past: seq<StageRun>) {
    !op.stonewalled && forall i :: 0 <= i < |past| ==> !past[i].stonewalled
  }

  ghost predicate ActiveOk(op: Oper) { op.started < op.total && !op.stonewalled }

  ghost predicate FinishedOk(op: Oper) { op.started == op.total || op.stonewalled }

  lemma {:induction false} AllOnce(n: nat)
    ensures OperLists(seq(n, o => o), [], [], n)
  {
    if n > 0 {
      AllOnce(n - 1);
      var front := seq(n - 1, o => o);
      assert seq(n, o => o) == front + [n - 1];
      assert n - 1 !in front;
    }
  }

  lemma FirstTrail(stages: set<nat>, first: nat)
    ensures Trail(stages, first, first) == [first]
    ensures Numbers([]) == []
  {
  }

  /** Every operation has room to count its requests. */
  ghost predicate AllRoom(opers: seq<Oper>, ioIter: nat) {
    forall o: nat :: o < |opers| ==> Room(opers[o].started, opers[o].total, ioIter)
  }

  ghost predicate RoomFrom(core: seq<Oper>, starts: seq<nat>, ioIter: nat) {
    |core| == |starts| && forall o: nat :: o < |core| ==> Room(starts[o], core[o].total, ioIter)
  }

  lemma RoomOfCore(opers: seq<Oper>, ioIter: nat)
    ensures AllRoom(opers, ioIter) <==> RoomFrom(Core(opers), Starts(opers), ioIter)
  {
    hide Room, Core;
    forall o: nat | o < |opers|
      ensures Core(opers)[o].total == opers[o].total
    {
      CoreMeans(opers, o);
    }
    if RoomFrom(Core(opers), Starts(opers), ioIter) {
      forall o: nat | o < |opers|
        ensures Room(opers[o].started, opers[o].total, ioIter)
      {
        assert Room(Starts(opers)[o], Core(opers)[o].total, ioIter);
      }
    }
  }

  lemma RoomBeforeRounds(opers: seq<Oper>, ioIter: nat)
    requires 1 <= ioIter
    requires forall o :: 0 <= o < |opers| ==>
               opers[o].started == 0 <= opers[o].total && RoundedUp(opers[o].total, ioIter) <= INT_MAX
    ensures AllRoom(opers, ioIter)
  {
    hide RoundedUp;
  }

  lemma RoomByChunks(before: seq<Oper>, after: seq<Oper>, ioIter: nat)
    requires AllRoom(before, ioIter) && ByChunks(before, after, ioIter) && SameContexts(before, after)
    ensures AllRoom(after, ioIter)
  {
    hide Room, Chunk;
    forall o: nat | o < |after|
      ensures Room(after[o].started, after[o].total, ioIter)
    {
      assert Room(before[o].started, before[o].total, ioIter);
      RoomAfter(before[o].started, before[o].total, ioIter);
    }
  }

  lemma RoomAfter(started: nat, total: int, ioIter: nat)
    requires Room(started, total, ioIter)
    ensures started + Chunk(ioIter, total - started) >= 0
    ensures Room(started + Chunk(ioIter, total - started), total, ioIter)
  {
    hide RoundedUp;
    if started < total {
      RoomNext(started, total, ioIter);
    }
  }

  lemma RoomUpdate(opers: seq<Oper>, o: nat, op: Oper, ioIter: nat)
    requires AllRoom(opers, ioIter) && o < |opers| && op.total == opers[o].total
    requires op.started == opers[o].started || op.started == 0
    ensures AllRoom(opers[o := op], ioIter)
  {
    hide Room;
    assert Room(opers[o].started, opers[o].total, ioIter);
    RoomAgain(opers[o].started, opers[o].total, ioIter);
  }

  /** While a round is built: who has something built, and who may still. */
  ghost predicate Shares(active: seq<nat>, built: seq<nat>, finished: seq<nat>,
                         core: seq<Oper>, starts: seq<nat>, counts: seq<nat>, ioIter: nat)
  {
    && |core| == |starts| == |counts|
    && OperLists(active, built, finished, |core|)
    && (forall o: nat :: o < |core| && o !in built ==> counts[o] == 0)
    && (forall o: nat :: o in built ==> 0 < counts[o] == Chunk(ioIter, core[o].total - starts[o]))
    && (forall o :: o in active ==> starts[o] < core[o].total)
    && (forall o :: o in active || o in built ==> !core[o].stonewalled)
    && (forall o :: o in finished ==> starts[o] == core[o].total || core[o].stonewalled)
  }

  lemma SharesNext(active: seq<nat>, built: seq<nat>, finished: seq<nat>,
                   core: seq<Oper>, starts: seq<nat>, counts: seq<nat>, ioIter: nat, i: nat, n: nat)
    requires Shares(active, built, finished, core, starts, counts, ioIter) && i < |active|
    requires active[i] < |core| && 0 < n == Chunk(ioIter, core[active[i]].total - starts[active[i]])
    ensures Shares(Without(active, i), built + [active[i]], finished, core, starts, counts[active[i] := n], ioIter)
  {
    hide OperLists, Without;
    ActiveToBuilt(active, built, finished, |core|, i);
    WithoutIsRemoval(active, i);
    assert active[i] in active;
    forall o: nat | o in built + [active[i]]
      ensures o < |core| && !core[o].stonewalled
      ensures 0 < counts[active[i] := n][o] == Chunk(ioIter, core[o].total - starts[o])
    {
      SharesBounded(active, built, finished, core, starts, counts, ioIter);
      assert o in built || o == active[i];
    }
  }

  lemma SharesBounded(active: seq<nat>, built: seq<nat>, finished: seq<nat>,
                      core: seq<Oper>, starts: seq<nat>, counts: seq<nat>, ioIter: nat)
    requires Shares(active, built, finished, core, starts, counts, ioIter)
    ensures |core| == |starts| == |counts| && |active| + |built| <= |core|
    ensures forall i :: 0 <= i < |active| ==> active[i] < |core| && starts[active[i]] < core[active[i]].total
    ensures forall i :: 0 <= i < |active| ==> counts[active[i]] == 0
    ensures forall o :: o in built ==> o < |core|
  {
    forall i | 0 <= i < |active|
      ensures active[i] in active && active[i] !in built
    {
      ActiveToBuilt(active, built, finished, |core|, i);
    }
  }

  /** What of a list is not built, and what of the built ones is complete or not,
      in order. */
  function Others(ops: seq<nat>, built: seq<nat>): seq<nat> {
    if ops == [] then [] else (if ops[0] in built then [] else [ops[0]]) + Others(ops[1..], built)
  }

  predicate IsComplete(opers: seq<Oper>, o: nat) {
    o < |opers| && opers[o].started == opers[o].total
  }

  function Sorted(built: seq<nat>, opers: seq<Oper>, complete: bool): seq<nat> {
    if built == [] then []
    else
      var n := |built| - 1;
      Sorted(built[..n], opers, complete) +
      if IsComplete(opers, built[n]) == complete then [built[n]] else []
  }

  lemma {:induction false} AllOthers(ops: seq<nat>)
    ensures Others(ops, []) == ops
  {
    if ops != [] {
      AllOthers(ops[1..]);
    }
  }

  lemma {:induction false} OthersAre(ops: seq<nat>, built: seq<nat>, o: nat)
    ensures o in Others(ops, built) <==> o in ops && o !in built
  {
    if ops != [] {
      OthersAre(ops[1..], built, o);
    }
  }

  lemma {:induction false} OthersNext(ops: seq<nat>, built: seq<nat>, i: nat)
    requires i < |Others(ops, built)| && Distinct(ops)
    ensures Others(ops, built + [Others(ops, built)[i]]) == Without(Others(ops, built), i)
  {
    var o, rest := Others(ops, built)[i], ops[1..];
    assert ops == [ops[0]] + rest;
    if ops[0] in built {
      OthersNext(rest, built, i);
    } else if i > 0 {
      OthersAre(rest, built, o);
      OthersNext(rest, built, i - 1);
      assert Without(Others(ops, built), i) == [ops[0]] + Without(Others(rest, built), i - 1);
    } else {
      OthersUnchanged(rest, built, o);
    }
  }

  lemma {:induction false} OthersUnchanged(ops: seq<nat>, built: seq<nat>, o: nat)
    requires o !in ops
    ensures Others(ops, built + [o]) == Others(ops, built)
  {
    if ops != [] {
      OthersUnchanged(ops[1..], built, o);
    }
  }

  lemma SortedNone(opers: seq<Oper>)
    ensures Sorted([], opers, true) == Sorted([], opers, false) == []
  {
  }

  lemma SortedNext(built: seq<nat>, opers: seq<Oper>, k: nat)
    requires k < |built|
    ensures Sorted(built[..k + 1], opers, true)
            == Sorted(built[..k], opers, true) + if IsComplete(opers, built[k]) then [built[k]] else []
    ensures Sorted(built[..k + 1], opers, false)
            == Sorted(built[..k], opers, false) + if IsComplete(opers, built[k]) then [] else [built[k]]
  {
    assert built[..k + 1][..k] == built[..k];
  }

  /** Every operation has started its share of a round, or nothing. */
  ghost predicate ByChunks(before: seq<Oper>, after: seq<Oper>, ioIter: nat) {
    && |before| == |after|
    && forall o: nat :: o < |before| ==>
         || after[o].started == before[o].started
         || after[o].started == before[o].started + Chunk(ioIter, before[o].total - before[o].started)
  }

  lemma ClaimedByChunks(before: seq<Oper>, after: seq<Oper>, built: seq<nat>, ioIter: nat)
    requires |before| == |after|
    requires forall o: nat :: o < |before| && o !in built ==> after[o].started == Starts(before)[o]
    requires forall o: nat :: o < |before| && o in built ==>
               after[o].started == Starts(before)[o] + Chunk(ioIter, Core(before)[o].total - Starts(before)[o])
    ensures ByChunks(before, after, ioIter)
  {
  }

  // --- when a single thread ends --------------------------------------------------------

  /** Every file is long enough for all its contexts to start. */
  ghost predicate Fed(files: seq<File>, opers: seq<Oper>) {
    forall o: nat :: o < |opers| ==> opers[o].file < |files| && !TooShort(files[opers[o].file], opers[o].start)
  }

  /** A single thread ends exactly if it does not start by reading from files
      that are too short. */
  ghost predicate Ends(asked: set<nat>, opers: seq<Oper>, files: seq<File>) {
    FirstStage(asked) != READ || Fed(files, opers)
  }

  lemma FedStays(before: seq<Oper>, after: seq<Oper>, files: seq<File>, grown: seq<File>)
    requires Fed(files, before) && SameContexts(before, after) && Grown(files, grown)
    ensures Fed(grown, after)
  {
  }

  lemma CoveredStays(before: seq<Oper>, after: seq<Oper>)
    requires Covered(before) && SameContexts(before, after)
    ensures Covered(after)
  {
    hide Advance;
    forall o: nat | o < |after|
      ensures CoveredAt(after, o)
    {
      assert CoveredAt(before, o);
      var b: nat :| b < |before| && Covers(before[b], before[o]);
      assert Covers(after[b], after[o]);
    }
  }

  datatype Outcome = Ended | Starves

  class Worker {
    const t: Thread
    const asked: set<nat>
    const stonewall: bool
    const maxSubmit: nat

    var active: seq<nat>
    var finished: seq<nat>

    ghost var past: seq<seq<StageRun>>

    /** main and setup_ious for one thread: one operation per context, all at the
        first stage and on the active list, depth units for each, room for
        max_io_submit requests at a time. */
    constructor (asked: set<nat>, stonewall: bool, ops: seq<Oper>, depth: nat, ioIter: nat, maxSubmit: nat, mask: nat,
                 files: seq<File>, alone: bool)
      requires 1 <= ioIter <= maxSubmit && ioIter <= depth
      requires forall o :: 0 <= o < |ops| ==>
                 Untouched(ops[o]) && 1 <= ops[o].total && ops[o].rw == FirstStage(asked) && ops[o].file < |files|
                 && RoundedUp(ops[o].total, ioIter) <= INT_MAX
      ensures Valid() && finished == [] && t.opers[..] == ops && AllAt(FirstStage(asked), 0)
      ensures this.asked == asked && this.stonewall == stonewall && t.alone == alone && t.files == files && t.mask == mask
      ensures fresh(t) && fresh(t.units) && fresh(t.opers) && fresh(t.iocbs)
    {
      this.asked, this.stonewall, this.maxSubmit := asked, stonewall, maxSubmit;
      t := new Thread(Times(|ops|, depth), ops, ioIter, maxSubmit, mask, files, alone);
      active, finished := seq(|ops|, o => o), [];
      past := seq(|ops|, _ => []);
      new;
      AllOnce(|ops|);
      TimesGrow(|ops|, ioIter, depth);
      LeastFromIsLeast(asked, 0);
      RoomBeforeRounds(ops, ioIter);
      forall o: nat | o < t.opers.Length
        ensures RecordOk(Effective(asked), FirstStage(asked), t.mask, t.opers[o], past[o]) && Uncut(t.opers[o], past[o])
      {
        assert t.opers[o] == ops[o];
        FirstTrail(Effective(asked), FirstStage(asked));
      }
      forall o | o in active
        ensures ActiveOk(t.opers[o])
      {
        assert t.opers[o] == ops[o];
      }
    }

    /** With one thread nobody is ever done before it, so that nothing is cut. */
    predicate MayCut() { stonewall && !t.alone }

    /** setup_ious and main: enough units, iocbs and room. */
    ghost predicate Sized() {
      && t.ioIter <= maxSubmit == t.iocbs.Length
      && Times(t.opers.Length, t.ioIter) <= t.units.Length
    }

    ghost predicate Records()
      reads `past, t.opers
    {
      RecordsFit(t.opers[..], past)
    }

    /** Every operation has the stages behind it that lead to where it is, and
        without stonewalling no cut. */
    ghost predicate RecordsFit(opers: seq<Oper>, past: seq<seq<StageRun>>) {
      && |past| == |opers|
      && forall o: nat :: o < |opers| ==>
           RecordOk(Effective(asked), FirstStage(asked), t.mask, opers[o], past[o])
           && (MayCut() || Uncut(opers[o], past[o]))
    }

    lemma RecordsUpdate(opers: seq<Oper>, past: seq<seq<StageRun>>, o: nat, op: Oper, runs: seq<StageRun>)
      requires RecordsFit(opers, past) && o < |opers|
      requires RecordOk(Effective(asked), FirstStage(asked), t.mask, op, runs) && (MayCut() || Uncut(op, runs))
      ensures RecordsFit(opers[o := op], past[o := runs])
    {
      hide RecordOk, Uncut;
    }

    /** Between rounds. */
    ghost predicate Valid()
      reads `active, `finished, `past, t, t.units, t.opers
    {
      && Sized() && t.Valid() && t.built == [] && Records() && AllRoom(t.opers[..], t.ioIter)
      && OperLists(active, [], finished, t.opers.Length)
      && (forall o :: o in active ==> ActiveOk(t.opers[o]))
      && (forall o :: o in finished ==> FinishedOk(t.opers[o]))
      && NoneEarly(t.opers[..], t.files)
    }

    /** oper_runnable, with whatever may happen before it looks at the file. */
    method Runnable(o: nat) returns (r: bool)
      requires t.Valid() && o < t.opers.Length
      modifies t`files, t`performed, t`delay
      ensures t.Valid() && t.DiskMoves() && old(t.performed) <= t.performed
      ensures r <==> Allowed(t.files, t.opers[o], t.opers[o].started)
      ensures var op := t.opers[o];
              op.file < |t.files|
              && (r <==> || op.started > 0 || op.start == 0 || op.rw >= 2
                         || (t.files[op.file].regular ==> op.start <= t.files[op.file].size))
      ensures !r && old(t.inflight != t.performed) ==> Nearer(old(t.Waiting()), old(t.delay))
      ensures old(t.inflight == t.performed) ==>
                t.performed == old(t.performed) && t.delay == old(t.delay) && (t.alone ==> t.files == old(t.files))
    {
      hide Thread.Valid;
      var op := t.opers[o];
      FileIsNamed(o);
      if op.started > 0 || op.start == 0 {
        return true;
      }
      if op.rw >= RWRITE {
        return true;
      }
      t.KernelTurn();
      return !TooShort(t.files[op.file], op.start);
    }

    lemma FileIsNamed(o: nat)
      requires t.Valid() && o < t.opers.Length
      ensures t.opers[o].file < |t.files|
    {
      t.FilesAreNamed(t.View(), t.sent, t.files, t.performed);
      assert t.View().opers[o].file < |t.files|;
    }

    /** The kernel has come nearer to performing everything. */
    ghost predicate Nearer(waiting: nat, delay: nat)
      reads t
    {
      t.Waiting() < waiting || (t.Waiting() == waiting && t.delay < delay)
    }

    /** Nothing on the active list may start, and nothing is in flight that could
        make a file grow. */
    predicate Starved()
      reads `active, t, t.opers
    {
      && active != [] && t.inflight == t.performed
      && forall k :: 0 <= k < |active| ==>
           active[k] < t.opers.Length && !Allowed(t.files, t.opers[active[k]], t.opers[active[k]].started)
    }

    // --- one round: building -------------------------------------------------------

    /** While building: nothing is started yet, the operations on the active list
        have nothing built, those on the built list something. */
    ghost predicate Building(built: seq<nat>, numBuilt: nat, core: seq<Oper>, starts: seq<nat>)
      reads `active, `finished, t, t.units, t.opers, t.iocbs
    {
      && Sized() && t.Valid()
      && Core(t.opers[..]) == core && Starts(t.opers[..]) == starts && RoomFrom(core, starts, t.ioIter)
      && |t.built| == numBuilt <= t.iocbs.Length && (forall i :: 0 <= i < numBuilt ==> t.iocbs[i] == t.built[i])
      && numBuilt <= Times(|built|, t.ioIter)
      && (built != [] ==> numBuilt > 0)
      && Shares(active, built, finished, core, starts, Counts(t.View()), t.ioIter)
    }

    lemma BuildingRoom(built: seq<nat>, numBuilt: nat, core: seq<Oper>, starts: seq<nat>)
      requires Building(built, numBuilt, core, starts) && active != []
      ensures numBuilt + t.ioIter <= t.units.Length
    {
      SharesBounded(active, built, finished, core, starts, Counts(t.View()), t.ioIter);
      TimesMonotone(|built| + 1, t.opers.Length, t.ioIter);
    }

    lemma ListsBounded(active: seq<nat>, built: seq<nat>, finished: seq<nat>, n: nat)
      requires OperLists(active, built, finished, n)
      ensures forall o :: o in active || o in built || o in finished ==> o < n
      ensures |active| + |built| + |finished| == n
    {
    }

    /** One operation of the round: build its requests, move it to the built list. */
    method BuildOne(i: nat, built: seq<nat>, numBuilt: nat, ghost core: seq<Oper>, ghost starts: seq<nat>)
      returns (n: nat)
      requires Building(built, numBuilt, core, starts) && i < |active| && numBuilt + t.ioIter <= maxSubmit
      modifies `active, t, t.units, t.opers, t.iocbs
      ensures Building(built + [old(active)[i]], numBuilt + n, core, starts) && n > 0
      ensures t.sent == old(t.sent) && active == Without(old(active), i)
      ensures finished == old(finished) && past == old(past) && t.DiskMoves()
    {
      hide Thread.Valid, Core, Counts, Shares;
      var o := active[i];
      SharesBounded(active, built, finished, core, starts, Counts(t.View()), t.ioIter);
      ghost var counts := Counts(t.View());
      BuildingRoom(built, numBuilt, core, starts);
      CoreMeans(t.opers[..], o);
      assert Room(starts[o], core[o].total, t.ioIter);
      RoomToCount(starts[o], core[o].total, t.ioIter);
      n := t.BuildOper(o, numBuilt);
      CoreMeans(t.opers[..], o);
      assert starts[o] == t.opers[o].started;
      SharesNext(active, built, finished, core, starts, counts, t.ioIter, i, n);
      active := Without(active, i);
    }

    lemma BuildingStarts()
      requires Valid()
      ensures Building([], 0, Core(t.opers[..]), Starts(t.opers[..]))
    {
      hide Thread.Valid, OperLists;
      ListsBounded(active, [], finished, t.opers.Length);
      NoneBuilt(t.View());
      RoomOfCore(t.opers[..], t.ioIter);
      forall o: nat | o < t.opers.Length
        ensures Core(t.opers[..])[o].total == t.opers[o].total && Core(t.opers[..])[o].stonewalled == t.opers[o].stonewalled
      {
        CoreMeans(t.opers[..], o);
      }
    }

    lemma NoneBuilt(e: Engine)
      requires e.built == []
      ensures forall o: nat :: o < |e.opers| ==> Counts(e)[o] == 0
    {
    }

    /** Nothing was built, and nothing but the kernel and other threads moved. */
    twostate predicate Idle()
      reads this, t, t.units, t.opers
    {
      && active == old(active) && finished == old(finished)
      && t.units[..] == old(t.units[..]) && t.opers[..] == old(t.opers[..]) && t.inflight == old(t.inflight)
    }

    /** None of the first i operations was allowed to start when the round began. */
    ghost predicate NoneAllowed(files: seq<File>, core: seq<Oper>, starts: seq<nat>, ops: seq<nat>, i: nat)
      requires |core| == |starts|
    {
      forall k :: 0 <= k < i && k < |ops| ==> ops[k] < |core| && !Allowed(files, core[ops[k]], starts[ops[k]])
    }

    lemma NobodyYet(files: seq<File>, core: seq<Oper>, starts: seq<nat>, ops: seq<nat>)
      requires |core| == |starts|
      ensures NoneAllowed(files, core, starts, ops, 0) && AllAllowed(files, core, starts, [])
    {
    }

    lemma OneMoreNot(before: seq<File>, after: seq<File>, core: seq<Oper>, starts: seq<nat>, ops: seq<nat>, i: nat)
      requires |core| == |starts| && i < |ops| && ops[i] < |core| && Grown(before, after)
      requires NoneAllowed(before, core, starts, ops, i) && !Allowed(after, core[ops[i]], starts[ops[i]])
      ensures NoneAllowed(before, core, starts, ops, i + 1)
    {
      if Allowed(before, core[ops[i]], starts[ops[i]]) {
        AllowedGrows(before, after, core[ops[i]], starts[ops[i]]);
      }
    }

    /** Every operation for which something is built was allowed to start. */
    ghost predicate AllAllowed(files: seq<File>, core: seq<Oper>, starts: seq<nat>, ops: seq<nat>)
      requires |core| == |starts|
    {
      forall k :: 0 <= k < |ops| ==> ops[k] < |core| && Allowed(files, core[ops[k]], starts[ops[k]])
    }

    lemma AllAllowedGrows(before: seq<File>, after: seq<File>, core: seq<Oper>, starts: seq<nat>, ops: seq<nat>)
      requires |core| == |starts| && AllAllowed(before, core, starts, ops) && Grown(before, after)
      ensures AllAllowed(after, core, starts, ops)
    {
      forall k | 0 <= k < |ops|
        ensures Allowed(after, core[ops[k]], starts[ops[k]])
      {
        AllowedGrows(before, after, core[ops[k]], starts[ops[k]]);
      }
    }

    /** The kernel had nothing to do; only other threads may have written. */
    twostate predicate KernelStill()
      reads t
    {
      t.performed == old(t.performed) && t.delay == old(t.delay) && (t.alone ==> t.files == old(t.files))
    }

    lemma StarvedMeans()
      requires Valid()
      ensures Starved() <==> active != [] && t.inflight == t.performed
                             && NoneAllowed(t.files, Core(t.opers[..]), Starts(t.opers[..]), active, |active|)
    {
      hide Thread.Valid, OperLists, Records, Core, Starts, Allowed;
      ListsBounded(active, [], finished, t.opers.Length);
      forall k | 0 <= k < |active|
        ensures active[k] < t.opers.Length
        ensures Allowed(t.files, Core(t.opers[..])[active[k]], Starts(t.opers[..])[active[k]])
                <==> Allowed(t.files, t.opers[active[k]], t.opers[active[k]].started)
      {
        assert active[k] in active;
        AllowedCore(active[k]);
      }
    }

    /** One turn of the scan: looks whether an operation may start, and if so
        builds for it and moves it to the built list. */
    method LookAndBuild(i: nat, built: seq<nat>, numBuilt: nat, ghost core: seq<Oper>, ghost starts: seq<nat>)
      returns (runnable: bool, n: nat)
      requires Building(built, numBuilt, core, starts) && i < |active| && numBuilt + t.ioIter <= maxSubmit
      requires |core| == |starts| && AllAllowed(t.files, core, starts, built)
      modifies `active, t, t.units, t.opers, t.iocbs
      ensures t.sent == old(t.sent) && t.DiskMoves() && old(active)[i] < |core| && Core(t.opers[..]) == core
      ensures runnable && old(t.inflight == t.performed) && t.alone ==>
                Allowed(old(t.files), core[old(active)[i]], starts[old(active)[i]])
      ensures runnable ==>
                && Building(built + [old(active)[i]], numBuilt + n, core, starts) && active == Without(old(active), i)
                && |active| == |old(active)| - 1
                && AllAllowed(t.files, core, starts, built + [old(active)[i]])
      ensures !runnable ==>
                && Building(built, numBuilt, core, starts) && Idle()
                && AllAllowed(t.files, core, starts, built) && !Allowed(t.files, core[active[i]], starts[active[i]])
      ensures !runnable && old(t.inflight != t.performed) ==> Nearer(old(t.Waiting()), old(t.delay))
      ensures !runnable && old(t.inflight == t.performed) ==> KernelStill()
    {
      hide Shares, Core, Starts, Counts, Allowed, Grown, Thread.Valid, AllAllowed, Thread.Waiting;
      BuildingBounded(built, numBuilt, core, starts);
      BuildingThread(built, numBuilt, core, starts);
      var o := active[i];
      ghost var seen := t.files;
      AllowedCore(o);
      runnable := Runnable(o);
      n := 0;
      AllowedCore(o);
      AllAllowedGrows(seen, t.files, core, starts, built);
      if runnable {
        OneMoreAllowed(t.files, core, starts, built, o);
        ghost var seen' := t.files;
        n := BuildOne(i, built, numBuilt, core, starts);
        AllAllowedGrows(seen', t.files, core, starts, built + [o]);
        GrownTwice(seen, seen', t.files);
      }
    }

    lemma OneMoreAllowed(files: seq<File>, core: seq<Oper>, starts: seq<nat>, ops: seq<nat>, o: nat)
      requires |core| == |starts| && o < |core| && AllAllowed(files, core, starts, ops)
      requires Allowed(files, core[o], starts[o])
      ensures AllAllowed(files, core, starts, ops + [o])
    {
    }

    lemma BuildingThread(built: seq<nat>, numBuilt: nat, core: seq<Oper>, starts: seq<nat>)
      requires Building(built, numBuilt, core, starts)
      ensures t.Valid() && core == Core(t.opers[..]) && starts == Starts(t.opers[..])
    {
    }

    lemma AllowedCore(o: nat)
      requires o < t.opers.Length
      ensures Allowed(t.files, Core(t.opers[..])[o], Starts(t.opers[..])[o])
              <==> Allowed(t.files, t.opers[o], t.opers[o].started)
    {
      CoreMeans(t.opers[..], o);
    }

    /** The building half of run_active_list: passes over operations that cannot
        start yet, and after each build begins again at the head. It builds
        nothing only if it found all files too short. */
    method BuildRound() returns (numBuilt: nat, built: seq<nat>)
      requires Valid() && active != []
      modifies `active, t, t.units, t.opers, t.iocbs
      ensures Building(built, numBuilt, old(Core(t.opers[..])), old(Starts(t.opers[..])))
      ensures t.sent == old(t.sent) && t.DiskMoves()
      ensures AllAllowed(t.files, old(Core(t.opers[..])), old(Starts(t.opers[..])), built)
      ensures numBuilt + t.ioIter > maxSubmit
              || NoneAllowed(old(t.files), old(Core(t.opers[..])), old(Starts(t.opers[..])), active, |active|)
      ensures active == Others(old(active), built) && finished == old(finished)
      ensures built == [] ==> Idle() && numBuilt + t.ioIter <= maxSubmit
      ensures built == [] && old(t.inflight != t.performed) ==> Nearer(old(t.Waiting()), old(t.delay))
      ensures built == [] && old(t.inflight == t.performed) ==> KernelStill()
      ensures old(Starved()) && t.alone ==> built == []
    {
      hide Valid, Building, Core, Starts, Counts, Allowed, Grown, Thread.Valid, AllAllowed, Thread.Waiting, Starved,
           Others, Without, Distinct;
      BuildingStarts();
      MeansSized();
      ghost var core, starts := Core(t.opers[..]), Starts(t.opers[..]);
      numBuilt, built := 0, [];
      var i := 0;
      NobodyYet(t.files, core, starts, active);
      t.FilesStay();
      StarvedMeans();
      AllOthers(active);
      ActiveOnce();
      while i < |active|
        invariant i <= |active| && Building(built, numBuilt, core, starts)
        invariant numBuilt + t.ioIter <= maxSubmit && t.sent == old(t.sent) && t.DiskMoves() && Core(t.opers[..]) == core
        invariant old(Starved()) && t.alone ==> built == []
        invariant AllAllowed(t.files, core, starts, built) && NoneAllowed(old(t.files), core, starts, active, i)
        invariant active == Others(old(active), built) && finished == old(finished)
        invariant built == [] ==> Idle()
        invariant built == [] && i > 0 && old(t.inflight != t.performed) ==> Nearer(old(t.Waiting()), old(t.delay))
        invariant built == [] && (i == 0 || old(t.inflight == t.performed)) ==> KernelStill()
        decreases |active|, |active| - i
      {
        var o := active[i];
        ghost var seen := t.files;
        var looked, n := LookAndBuild(i, built, numBuilt, core, starts);
        GrownTwice(old(t.files), seen, t.files);
        if looked {
          OthersNext(old(active), built, i);
          built := built + [o];
          numBuilt := numBuilt + n;
          NobodyYet(old(t.files), core, starts, active);
          i := 0;
          if numBuilt + t.ioIter > maxSubmit {
            break;
          }
        } else {
          OneMoreNot(old(t.files), t.files, core, starts, active, i);
          i := i + 1;
        }
      }
    }

    lemma ActiveOnce()
      requires Valid()
      ensures Distinct(active)
    {
      hide Thread.Valid, Records;
      forall i, j | 0 <= i < j < |active|
        ensures active[i] != active[j]
      {
        ActiveToBuilt(active, [], finished, t.opers.Length, i);
        assert Without(active, i)[j - 1] == active[j];
      }
    }

    lemma MeansSized()
      requires Valid()
      ensures t.ioIter <= maxSubmit
    {
    }

    lemma BuildingBounded(built: seq<nat>, numBuilt: nat, core: seq<Oper>, starts: seq<nat>)
      requires Building(built, numBuilt, core, starts)
      ensures forall i :: 0 <= i < |active| ==> active[i] < t.opers.Length
    {
      SharesBounded(active, built, finished, core, starts, Counts(t.View()), t.ioIter);
    }

    // --- one round: submitting and sorting ---------------------------------------------

    /** After submission, while the built operations go back to the active list
        or on to the finished one. */
    ghost predicate Sorting(built: seq<nat>)
      reads `active, `finished, t, t.units, t.opers
    {
      && Sized() && t.Valid() && t.built == []
      && OperLists(active, built, finished, t.opers.Length)
      && (forall o :: o in active ==> ActiveOk(t.opers[o]))
      && (forall o :: o in finished ==> FinishedOk(t.opers[o]))
      && (forall o :: o in built ==> t.opers[o].started <= t.opers[o].total && !t.opers[o].stonewalled)
    }

    /** The first built operation goes to the end of the list that its counts decide
        on. */
    method SortOne(o: nat, ghost built: seq<nat>)
      requires Sorting(built) && built != [] && o == built[0]
      modifies `active, `finished
      ensures Sorting(built[1..]) && o < t.opers.Length
      ensures active == old(active) + if t.opers[o].started == t.opers[o].total then [] else [o]
      ensures finished == old(finished) + if t.opers[o].started == t.opers[o].total then [o] else []
    {
      hide Thread.Valid, OperLists;
      ListsBounded(active, built, finished, t.opers.Length);
      BuiltToActive(active, built, finished, t.opers.Length);
      ghost var before := active;
      active := active + [o];
      if t.opers[o].started == t.opers[o].total {
        ActiveToFinished(active, built[1..], finished, t.opers.Length, |active| - 1);
        active := active[..|active| - 1];
        assert active == before && before == Without(before + [o], |before|);
        finished := finished + [o];
      }
    }

    /** So do they all, in order. */
    method SortBuilt(toSort: seq<nat>)
      requires Sorting(toSort)
      modifies `active, `finished
      ensures Sorting([])
      ensures active == old(active) + Sorted(toSort, t.opers[..], false)
      ensures finished == old(finished) + Sorted(toSort, t.opers[..], true)
    {
      hide Sorting, Sorted;
      SortedNone(t.opers[..]);
      var built := toSort;
      ghost var k := 0;
      while built != []
        invariant k <= |toSort| && built == toSort[k..] && Sorting(built)
        invariant active == old(active) + Sorted(toSort[..k], t.opers[..], false)
        invariant finished == old(finished) + Sorted(toSort[..k], t.opers[..], true)
        decreases |built|
      {
        SortOne(built[0], built);
        SortedNext(toSort, t.opers[..], k);
        built := built[1..];
        k := k + 1;
      }
      assert toSort[..k] == toSort;
    }

    lemma SubmittedSorts(built: seq<nat>, core: seq<Oper>, starts: seq<nat>, claims: seq<nat>)
      requires Sized() && t.Valid() && t.built == []
      requires OperLists(active, built, finished, t.opers.Length)
      requires |starts| == |core| == |claims| == t.opers.Length
      requires Core(t.opers[..]) == core && Claims(t.View()) == claims
      requires forall o: nat :: o < t.opers.Length && o !in built ==> claims[o] == starts[o]
      requires forall o: nat :: o in built ==> o < t.opers.Length && starts[o] < claims[o] <= core[o].total
      requires forall o :: o in active ==> o < t.opers.Length && starts[o] < core[o].total
      requires forall o :: o in active || o in built ==> !core[o].stonewalled
      requires forall o :: o in finished ==> o < t.opers.Length && (starts[o] == core[o].total || core[o].stonewalled)
      ensures Sorting(built)
      ensures forall o: nat :: o < t.opers.Length ==>
                t.opers[o].started == claims[o] && core[o] == t.opers[o].(pending := 0, started := 0, lastOffset := 0)
    {
      hide Thread.Valid;
      NoneBuilt(t.View());
      forall o: nat | o < t.opers.Length
        ensures core[o] == t.opers[o].(pending := 0, started := 0, lastOffset := 0)
        ensures t.opers[o].started == claims[o]
      {
        CoreMeans(t.opers[..], o);
      }
      ListsBounded(active, built, finished, t.opers.Length);
      assert forall o :: o in active ==> o !in built by {
        assert forall o: nat :: o in active && o in built ==> multiset(active)[o] >= 1 && multiset(built)[o] >= 1;
      }
      assert forall o :: o in finished ==> o !in built by {
        assert forall o: nat :: o in finished && o in built ==> multiset(finished)[o] >= 1 && multiset(built)[o] >= 1;
      }
    }

    // --- one round --------------------------------------------------------------------------

    /** What the round has claimed before it is submitted. */
    lemma BuildingClaims(built: seq<nat>, numBuilt: nat, core: seq<Oper>, starts: seq<nat>)
      requires Building(built, numBuilt, core, starts)
      ensures |starts| == |core| == |Claims(t.View())| == t.opers.Length
      ensures OperLists(active, built, finished, t.opers.Length) && (numBuilt > 0 ==> built != [])
      ensures forall o: nat :: o < t.opers.Length && o !in built ==> Claims(t.View())[o] == starts[o]
      ensures forall o: nat :: o in built ==> o < t.opers.Length && starts[o] < Claims(t.View())[o] <= core[o].total
                                              && Claims(t.View())[o] == starts[o] + Chunk(t.ioIter, core[o].total - starts[o])
      ensures forall o :: o in active ==> o < t.opers.Length && starts[o] < core[o].total
      ensures forall o :: o in active || o in built ==> !core[o].stonewalled
      ensures forall o :: o in finished ==> o < t.opers.Length && (starts[o] == core[o].total || core[o].stonewalled)
    {
      hide Thread.Valid, OperLists, Core;
      ListsBounded(active, built, finished, |core|);
    }

    lemma RecordsKept(before: seq<Oper>)
      requires |before| == t.opers.Length == |past| && Core(before) == Core(t.opers[..])
      requires forall o: nat :: o < |before| ==> RecordOk(Effective(asked), FirstStage(asked), t.mask, before[o], past[o])
                                                 && (MayCut() || Uncut(before[o], past[o]))
      ensures Records()
    {
      hide Trail, Numbers;
      forall o: nat | o < |before|
        ensures RecordOk(Effective(asked), FirstStage(asked), t.mask, t.opers[o], past[o])
        ensures MayCut() || Uncut(t.opers[o], past[o])
      {
        CoreMeans(before, o);
        CoreMeans(t.opers[..], o);
        forall i | 0 <= i < |past[o]|
          ensures RunOk(t.mask, t.opers[o], past[o][i])
        {
          assert RunOk(t.mask, before[o], past[o][i]);
        }
      }
    }

    /** If nothing could be built the lists are as they were. */
    lemma NothingBuilt(built: seq<nat>, before: seq<Oper>)
      requires Building(built, 0, Core(before), Starts(before)) && |before| == t.opers.Length
      requires Records() && NoneEarly(t.opers[..], t.files)
      ensures Valid() && built == []
      ensures forall o: nat :: o < t.opers.Length ==> t.opers[o].started == Starts(before)[o]
    {
      hide Thread.Valid, Records, OperLists;
      BuildingClaims(built, 0, Core(before), Starts(before));
      RoomOfCore(t.opers[..], t.ioIter);
      forall o: nat | o < t.opers.Length
        ensures t.opers[o].started == Starts(before)[o]
        ensures Core(before)[o] == t.opers[o].(pending := 0, started := 0, lastOffset := 0)
      {
        CoreMeans(t.opers[..], o);
      }
    }

    /** No operation starts more than its stage has. */
    lemma NeverTooMany(e: Engine, s: seq<seq<int>>)
      requires Good(e, s)
      ensures forall o: nat :: o < |e.opers| ==> e.opers[o].started <= e.opers[o].total
    {
      forall o: nat | o < |e.opers|
        ensures e.opers[o].started <= e.opers[o].total
      {
        assert PlanOk(e, o, s[o]);
      }
    }

    /** What is left of this stage. */
    ghost function Work(): int
      reads t.opers
    {
      Left(t.opers[..], t.opers.Length)
    }

    lemma LessLeft(before: seq<Oper>)
      requires t.Valid() && |before| == t.opers.Length && Core(before) == Core(t.opers[..])
      requires forall o: nat :: o < |before| ==> before[o].started <= t.opers[o].started
      ensures 0 <= Left(t.opers[..], t.opers.Length) <= Left(before, |before|)
      ensures (exists o: nat :: o < |before| && before[o].started < t.opers[o].started) ==>
                Left(t.opers[..], t.opers.Length) < Left(before, |before|)
    {
      hide Core, Left;
      NeverTooMany(t.View(), t.sent);
      forall o: nat | o < |before|
        ensures before[o].total == t.opers[o].total
      {
        CoreMeans(before, o);
        CoreMeans(t.opers[..], o);
      }
      LeftShrinks(before, t.opers[..], |before|);
    }

    /** Only operations that were allowed to start have started something. */
    ghost predicate StartedAllowed(before: seq<Oper>, after: seq<Oper>, files: seq<File>) {
      && |before| == |after|
      && forall o: nat :: o < |before| && after[o].started != before[o].started ==>
           Allowed(files, before[o], before[o].started)
    }

    lemma NothingStarted(before: seq<Oper>)
      requires |before| == t.opers.Length && Core(before) == Core(t.opers[..]) && Starts(before) == Starts(t.opers[..])
      ensures StartedAllowed(before, t.opers[..], t.files)
    {
      hide Core, Starts;
      SameStarts(before);
    }

    /** So none of them was early. */
    lemma EarlyKept(before: seq<Oper>, files: seq<File>)
      requires t.Valid() && |before| == t.opers.Length && Core(before) == Core(t.opers[..])
      requires NoneEarly(before, files) && Grown(files, t.files)
      requires StartedAllowed(before, t.opers[..], t.files)
      ensures NoneEarly(t.opers[..], t.files)
    {
      hide Thread.Valid, Core, NoneEarly, Allowed;
      forall o: nat | o < |before|
        ensures before[o].file < |files|
      {
        FileIsNamed(o);
        CoreMeans(before, o);
        CoreMeans(t.opers[..], o);
      }
      NoneEarlyStays(before, t.opers[..], files, t.files);
    }

    lemma BuiltWereAllowed(before: seq<Oper>, after: seq<Oper>, files: seq<File>, built: seq<nat>)
      requires |before| == |after| && AllAllowed(files, Core(before), Starts(before), built)
      requires forall o: nat :: o < |before| && o !in built ==> after[o].started == Starts(before)[o]
      ensures StartedAllowed(before, after, files)
    {
      forall o: nat | o < |before| && after[o].started != before[o].started
        ensures Allowed(files, before[o], before[o].started)
      {
        assert o in built;
        var k :| 0 <= k < |built| && built[k] == o;
        CoreMeans(before, o);
      }
    }

    /** run_active_list: builds for as many operations as fit, submits it all,
        and sorts the operations, losing none. Unless nothing can ever happen any
        more, it starts some request or the kernel comes nearer to performing
        what is in flight; and if nothing can, it changes nothing. */
    method RunActiveList() returns (ghost built: seq<nat>)
      requires Valid() && active != []
      modifies `active, `finished, t, t.units, t.opers, t.iocbs
      ensures Valid() && Core(t.opers[..]) == old(Core(t.opers[..])) && t.DiskMoves()
      ensures ByChunks(old(t.opers[..]), t.opers[..], t.ioIter)
      ensures StartedAllowed(old(t.opers[..]), t.opers[..], t.files)
      ensures active == Others(old(active), built) + Sorted(built, t.opers[..], false)
      ensures finished == old(finished) + Sorted(built, t.opers[..], true)
      ensures forall o: nat :: o < t.opers.Length && t.opers[o].started != old(t.opers[o].started) ==> o in built
      ensures |active| <= |old(active)| && 0 <= Work() <= old(Work())
      ensures !old(Starved()) ==> Work() < old(Work()) || Nearer(old(t.Waiting()), old(t.delay))
      ensures old(Starved()) && t.alone ==> Idle() && KernelStill()
    {
      hide Thread.Valid, Core, Starts, Counts, Shares, Left, RecordOk, OperLists, ByChunks, AllRoom, Allowed, Grown, Thread.Waiting,
           StartedAllowed, AllAllowed, Starved, NoneEarly, Others, Sorted;
      ghost var before := t.opers[..];
      ghost var core, starts := Core(before), Starts(before);
      ListsBounded(active, [], finished, t.opers.Length);
      StarvedMeans();
      var numBuilt, toSort := BuildRound();
      built := toSort;
      RecordsKept(before);
      if numBuilt > 0 {
        BuildingClaims(built, numBuilt, core, starts);
        ghost var claims, seen := Claims(t.View()), t.files;
        t.RunBuilt(numBuilt);
        GrownTwice(old(t.files), seen, t.files);
        AllAllowedGrows(seen, t.files, core, starts, built);
        SubmittedSorts(built, core, starts, claims);
        SortBuilt(toSort);
        RecordsKept(before);
        assert built[0] in built;
        ClaimedByChunks(before, t.opers[..], built, t.ioIter);
        CoreContexts(before, t.opers[..]);
        RoomByChunks(before, t.opers[..], t.ioIter);
      } else {
        BuildingThread(built, numBuilt, core, starts);
        NothingStarted(before);
        EarlyKept(before, old(t.files));
        NothingBuilt(built, before);
        SortedNone(t.opers[..]);
        ClaimedByChunks(before, t.opers[..], built, t.ioIter);
      }
      BuiltWereAllowed(before, t.opers[..], t.files, built);
      EarlyKept(before, old(t.files));
      ListsBounded(active, [], finished, t.opers.Length);
      LessLeft(before);
    }

    // --- the stages --------------------------------------------------------------------------

    /** All operations are in the same stage, with as many behind them. */
    ghost predicate AllAt(rw: nat, k: nat)
      reads `past, t.opers
    {
      |past| == t.opers.Length && forall o: nat :: o < t.opers.Length ==> t.opers[o].rw == rw && |past[o]| == k
    }

    /** A round keeps everyone in the stage. */
    lemma StillAllAt(before: seq<Oper>, rw: nat, k: nat)
      requires |before| == t.opers.Length == |past| && Core(before) == Core(t.opers[..])
      requires forall o: nat :: o < |before| ==> before[o].rw == rw && |past[o]| == k
      ensures AllAt(rw, k)
    {
      hide Core;
      forall o: nat | o < |before|
        ensures t.opers[o].rw == rw
      {
        CoreMeans(before, o);
        CoreMeans(t.opers[..], o);
      }
    }

    /** Another thread is done with this stage: the head of the active list is cut
        off where it is. */
    method Cut()
      requires Valid() && active != [] && MayCut() && active[0] < t.opers.Length
      modifies `active, `finished, t.opers
      ensures Valid() && Work() == old(Work())
      ensures active == old(active)[1..] && finished == old(finished) + [old(active)[0]]
      ensures t.opers[..] == old(t.opers[..])[old(active)[0] := old(t.opers[active[0]]).(stonewalled := true)]
    {
      hide Thread.Valid, OperLists, RecordOk, Left;
      ghost var before := t.opers[..];
      var o := active[0];
      assert o in active;
      ActiveToFinished(active, [], finished, t.opers.Length, 0);
      t.SetStonewalled(o);
      assert Without(active, 0) == active[1..];
      active := active[1..];
      finished := finished + [o];
      CutKeepsRecord(before[o], past[o]);
      RoomUpdate(before, o, before[o].(stonewalled := true), t.ioIter);
      NoneEarlyUpdate(before, t.files, o, before[o].(stonewalled := true));
      SameLeft(before, t.opers[..], t.opers.Length);
    }

    lemma CutKeepsRecord(op: Oper, runs: seq<StageRun>)
      requires RecordOk(Effective(asked), FirstStage(asked), t.mask, op, runs)
      ensures RecordOk(Effective(asked), FirstStage(asked), t.mask, op.(stonewalled := true), runs)
    {
      forall i | 0 <= i < |runs|
        ensures RunOk(t.mask, op.(stonewalled := true), runs[i])
      {
        assert RunOk(t.mask, op, runs[i]);
      }
    }

    /** Waits until nothing of any finished operation is in flight. */
    method WaitAll()
      requires Valid() && active == []
      modifies t, t.units, t.opers
      ensures Valid() && t.sent == old(t.sent) && t.DiskMoves()
      ensures Quiet() && Core(t.opers[..]) == old(Core(t.opers[..])) && Starts(t.opers[..]) == old(Starts(t.opers[..]))
    {
      hide Thread.Valid, OperLists, RecordOk, Core, Starts, AllRoom;
      ListsBounded(active, [], finished, t.opers.Length);
      AllFinished(finished, t.opers.Length);
      ghost var before := t.opers[..];
      for i := 0 to |finished|
        invariant t.Valid() && t.built == [] && t.sent == old(t.sent) && t.DiskMoves()
        invariant Core(t.opers[..]) == Core(before) && Starts(t.opers[..]) == Starts(before)
        invariant forall k :: 0 <= k < i ==> t.opers[finished[k]].pending == 0
      {
        t.IoOperWait(finished[i]);
      }
      SameStarts(before);
      RecordsKept(before);
      RoomOfCore(before, t.ioIter);
      RoomOfCore(t.opers[..], t.ioIter);
      EarlyKept(before, old(t.files));
      forall o: nat | o < t.opers.Length
        ensures t.opers[o].pending == 0
      {
        assert o in finished;
        var k :| 0 <= k < |finished| && finished[k] == o;
      }
      NothingInFlight();
    }

    ghost predicate Quiet()
      reads t, t.opers
    {
      t.inflight == {} && forall o: nat :: o < t.opers.Length ==> t.opers[o].pending == 0
    }

    lemma SameStarts(before: seq<Oper>)
      requires |before| == t.opers.Length && Core(before) == Core(t.opers[..]) && Starts(before) == Starts(t.opers[..])
      ensures forall o: nat :: o < |before| ==>
                t.opers[o].total == before[o].total && t.opers[o].started == before[o].started
                && t.opers[o].rw == before[o].rw && t.opers[o].stonewalled == before[o].stonewalled
    {
      hide Core;
      forall o: nat | o < |before|
        ensures t.opers[o].total == before[o].total && t.opers[o].started == before[o].started
                && t.opers[o].rw == before[o].rw && t.opers[o].stonewalled == before[o].stonewalled
      {
        CoreMeans(before, o);
        CoreMeans(t.opers[..], o);
        assert Starts(before)[o] == Starts(t.opers[..])[o];
      }
    }

    lemma AllFinished(finished: seq<nat>, n: nat)
      requires OperLists([], [], finished, n)
      ensures forall o: nat :: o < n ==> o in finished
      ensures forall k :: 0 <= k < |finished| ==> finished[k] < n
    {
      var none: seq<nat> := [];
      forall o: nat | o < n
        ensures o in finished
      {
        assert multiset(none)[o] + multiset(none)[o] + multiset(finished)[o] == 1;
      }
      assert forall k :: 0 <= k < |finished| ==> finished[k] in finished;
    }

    lemma NothingInFlight()
      requires t.Valid() && forall o: nat :: o < t.opers.Length ==> t.opers[o].pending == 0
      ensures t.inflight == {}
    {
      forall u | u in t.inflight
        ensures false
      {
        InFlightPending(t.View(), u);
      }
    }

    /** What an operation leaves behind in a stage is as the stage demands. */
    lemma RunIsOk(o: nat)
      requires t.Valid() && t.built == [] && o < t.opers.Length && FinishedOk(t.opers[o])
      ensures |t.sent| == t.opers.Length
      ensures RunOk(t.mask, t.opers[o], StageRun(t.opers[o].rw, t.sent[o], t.opers[o].stonewalled))
    {
      assert PlanOk(t.View(), o, t.sent[o]);
      assert t.sent[o] + [] == t.sent[o];
    }

    /** What an operation has done in all its stages, this one included. */
    ghost function History(o: nat): seq<StageRun>
      reads `past, t`sent, t.opers
      requires o < |past| && o < |t.sent| && o < t.opers.Length
    {
      past[o] + [StageRun(t.opers[o].rw, t.sent[o], t.opers[o].stonewalled)]
    }

    lemma RecordsFitAt(opers: seq<Oper>, past: seq<seq<StageRun>>, o: nat)
      requires RecordsFit(opers, past) && o < |opers|
      ensures |past| == |opers| && RecordOk(Effective(asked), FirstStage(asked), t.mask, opers[o], past[o])
      ensures MayCut() || Uncut(opers[o], past[o])
    {
    }

    lemma UncutRestarted(op: Oper, runs: seq<StageRun>, run: StageRun, rw: nat)
      requires run.stonewalled == op.stonewalled
      ensures Uncut(op, runs) ==> Uncut(Restarted(op, rw), runs + [run])
    {
    }

    /** restart_oper on the i-th finished operation: the next selected stage, if
        there is one, and then it is active again. */
    method RestartOper(i: nat) returns (restarted: bool)
      requires Valid() && Quiet() && i < |finished| && finished[i] < t.opers.Length == |t.sent|
      modifies `active, `finished, `past, t`sent, t.opers
      ensures Valid() && Quiet()
      ensures var o, next := old(finished[i]), NextRw(Effective(asked), old(t.opers[finished[i]].rw));
              && restarted == (next != 0)
              && (restarted ==>
                    && active == old(active) + [o] && finished == Without(old(finished), i)
                    && t.opers[..] == old(t.opers[..])[o := Restarted(old(t.opers[..])[o], next)]
                    && past == old(past)[o := old(History(o))])
              && (!restarted ==>
                    && active == old(active) && finished == old(finished)
                    && t.opers[..] == old(t.opers[..]) && past == old(past))
    {
      hide Thread.Valid, OperLists, NextRw, Effective, Without, Sized, RecordsFit, AllRoom;
      var o := finished[i];
      var next := NextRw(Effective(asked), t.opers[o].rw);
      restarted := next != 0;
      if restarted {
        assert o in finished;
        RestartFits(o);
        ghost var runs := History(o);
        FinishedToActive(active, finished, t.opers.Length, i);
        WithoutIsRemoval(finished, i);
        t.ResetOper(o, next);
        past := past[o := runs];
        finished := Without(finished, i);
        active := active + [o];
      }
    }

    /** What the operation leaves behind joins its record. */
    lemma RestartFits(o: nat)
      requires Valid() && o in finished && o < t.opers.Length == |t.sent|
      requires NextRw(Effective(asked), t.opers[o].rw) != 0
      ensures o < |past|
      ensures var after := t.opers[..][o := Restarted(t.opers[o], NextRw(Effective(asked), t.opers[o].rw))];
              RecordsFit(after, past[o := History(o)]) && AllRoom(after, t.ioIter) && after[o].total > 0
    {
      hide Thread.Valid, OperLists, RecordOk, NextRw, Effective, Uncut, Sized, RecordsFit, AllRoom;
      ghost var op := t.opers[o];
      ghost var next := NextRw(Effective(asked), op.rw);
      RecordsFitAt(t.opers[..], past, o);
      RunIsOk(o);
      ghost var run := StageRun(op.rw, t.sent[o], op.stonewalled);
      RecordRestarted(Effective(asked), FirstStage(asked), t.mask, op, past[o], run);
      UncutRestarted(op, past[o], run, next);
      RecordsUpdate(t.opers[..], past, o, Restarted(op, next), past[o] + [run]);
      RoomUpdate(t.opers[..], o, Restarted(op, next), t.ioIter);
      TotalPositive(op, past[o]);
    }

    lemma TotalPositive(op: Oper, runs: seq<StageRun>)
      requires RecordOk(Effective(asked), FirstStage(asked), t.mask, op, runs)
      ensures op.total > 0
    {
    }

    /** During the restart loop: those active again are in the next stage, the
        others still in this one. */
    ghost predicate Moving(rw: nat, k: nat)
      reads `active, `finished, `past, t.opers
    {
      && |past| == t.opers.Length
      && (NextRw(Effective(asked), rw) == 0 ==> active == [])
      && (forall o :: o in finished ==> o < t.opers.Length && t.opers[o].rw == rw && |past[o]| == k)
      && (forall o :: o in active ==> o < t.opers.Length && t.opers[o].rw == NextRw(Effective(asked), rw) && |past[o]| == k + 1)
    }

    /** One turn of the restart loop. */
    method RestartStep(i: nat, ghost rw: nat, ghost k: nat) returns (restarted: bool)
      requires Valid() && Quiet() && Moving(rw, k) && i < |finished|
      modifies `active, `finished, `past, t`sent, t.opers
      ensures Valid() && Quiet() && Moving(rw, k) && SameContexts(old(t.opers[..]), t.opers[..])
      ensures restarted <==> NextRw(Effective(asked), rw) != 0
      ensures |finished| == if restarted then |old(finished)| - 1 else |old(finished)|
    {
      hide Thread.Valid, OperLists, NextRw, Effective, Without, Records, ActiveOk, FinishedOk, Quiet, AllRoom;
      SentOfAll();
      assert finished[i] in finished;
      FinishedToActive(active, finished, t.opers.Length, i);
      WithoutIsRemoval(finished, i);
      restarted := RestartOper(i);
    }

    /** The restart loop: begins again at the head after every restart. As all
        operations are in the same stage, all are restarted or none. */
    method RestartAll(ghost rw: nat, ghost k: nat)
      requires Valid() && Quiet() && active == [] && AllAt(rw, k)
      modifies `active, `finished, `past, t`sent, t.opers
      ensures Valid() && Quiet() && SameContexts(old(t.opers[..]), t.opers[..])
      ensures var next := NextRw(Effective(asked), rw);
              if next != 0 then finished == [] && AllAt(next, k + 1)
              else active == [] && AllAt(rw, k)
    {
      hide Valid, NextRw, Effective, Quiet, Moving, SameContexts, AllAt;
      NobodyMoved(rw, k);
      ContextsSame(t.opers[..]);
      var i := 0;
      while i < |finished|
        invariant Valid() && Quiet() && i <= |finished| && SameContexts(old(t.opers[..]), t.opers[..])
        invariant Moving(rw, k) && (i > 0 ==> NextRw(Effective(asked), rw) == 0)
        decreases |finished|, |finished| - i
      {
        ghost var before := t.opers[..];
        var restarted := RestartStep(i, rw, k);
        ContextsStay(old(t.opers[..]), before, t.opers[..]);
        if restarted {
          i := 0;
        } else {
          i := i + 1;
        }
      }
      ListsOf();
      MovedAll(rw, k);
    }

    lemma ListsOf()
      requires Valid()
      ensures OperLists(active, [], finished, t.opers.Length)
    {
    }

    lemma NobodyMoved(rw: nat, k: nat)
      requires Valid() && active == [] && AllAt(rw, k)
      ensures Moving(rw, k)
    {
      hide Thread.Valid, OperLists, Records, NextRw, Effective;
      ListsBounded(active, [], finished, t.opers.Length);
    }

    lemma MovedAll(rw: nat, k: nat)
      requires Moving(rw, k) && OperLists(active, [], finished, t.opers.Length)
      requires finished != [] ==> NextRw(Effective(asked), rw) == 0
      ensures var next := NextRw(Effective(asked), rw);
              if next != 0 then finished == [] && AllAt(next, k + 1)
              else active == [] && AllAt(rw, k)
    {
      hide NextRw, Effective;
      var none: seq<nat> := [];
      forall o: nat | o < t.opers.Length
        ensures o in active || o in finished
      {
        assert multiset(active)[o] + multiset(none)[o] + multiset(finished)[o] == 1;
      }
    }

    /** Every selected stage was visited once, in order, and each is complete:
        all its requests were submitted, the sequential ones from start on
        without a gap or a repetition, unless it was cut off. */
    ghost predicate Complete()
      reads `past, t`sent, t.opers
    {
      && |past| == |t.sent| == t.opers.Length
      && forall o: nat :: o < t.opers.Length ==>
           && Numbers(History(o)) == Plan(asked) && AsAsked(asked, Numbers(History(o)))
           && (forall i :: 0 <= i < |History(o)| ==> RunOk(t.mask, t.opers[o], History(o)[i]))
           && (!MayCut() ==> forall i :: 0 <= i < |History(o)| ==> !History(o)[i].stonewalled)
    }

    lemma EndsComplete(rw: nat, k: nat)
      requires Valid() && active == [] && AllAt(rw, k) && NextRw(Effective(asked), rw) == 0
      ensures Complete() && (t.opers.Length > 0 ==> k + 1 == |Plan(asked)|)
    {
      hide Thread.Valid, OperLists, Effective, FirstStage, NextRw, Trail, Plan, RunOk, FinishedOk, AsAsked;
      AllFinished(finished, t.opers.Length);
      SentOfAll();
      PlanIsAsAsked(asked);
      forall o: nat | o < t.opers.Length
        ensures Numbers(History(o)) == Plan(asked) && |History(o)| == k + 1
        ensures forall i :: 0 <= i < |History(o)| ==> RunOk(t.mask, t.opers[o], History(o)[i])
        ensures !MayCut() ==> forall i :: 0 <= i < |History(o)| ==> !History(o)[i].stonewalled
      {
        RunIsOk(o);
        assert o in finished;
        TrailIsPlan(asked, t.opers[o].rw);
        assert Numbers(History(o)) == Numbers(past[o]) + [t.opers[o].rw];
      }
      if t.opers.Length > 0 {
        assert |Numbers(History(0))| == k + 1;
      }
    }

    lemma NobodyActive(rw: nat, k: nat)
      requires Valid() && active == []
      requires if NextRw(Effective(asked), rw) != 0 then finished == [] else AllAt(rw, k)
      ensures Complete() && (t.opers.Length > 0 ==> k + 1 == |Plan(asked)|)
    {
      hide Thread.Valid, OperLists, Effective, NextRw, Plan;
      ListsBounded(active, [], finished, t.opers.Length);
      SentOfAll();
      if NextRw(Effective(asked), rw) == 0 {
        EndsComplete(rw, k);
      }
    }

    lemma SentOfAll()
      requires t.Valid()
      ensures |t.sent| == t.opers.Length
    {
    }

    lemma FirstStageInRange()
      ensures FirstStage(asked) < 4
    {
      LeastFromIsLeast(asked, 0);
    }

    lemma WorkBounded()
      requires Valid()
      ensures 0 <= Work()
    {
      hide Left;
      LessLeft(t.opers[..]);
    }

    // --- starving --------------------------------------------------------------------------------

    /** What a write stage has written, when nothing is left to be performed,
        feeds the contexts behind it. */
    lemma WrittenFeeds(b: nat, o: nat)
      requires t.Valid() && t.built == [] && t.inflight == t.performed
      requires b < t.opers.Length && o < t.opers.Length && Covers(t.opers[b], t.opers[o])
      requires t.opers[b].rw == WRITE && t.opers[b].started == t.opers[b].total > 0
      ensures t.opers[o].file < |t.files| && !TooShort(t.files[t.opers[o].file], t.opers[o].start)
    {
      hide Advance, Good;
      FileIsNamed(o);
      StageOnDisk(t.View(), t.sent, t.files, b);
    }

    lemma FinishedAndUncut(o: nat)
      requires Valid() && !MayCut() && o in finished
      ensures o < t.opers.Length && t.opers[o].started == t.opers[o].total > 0
    {
      ListsBounded(active, [], finished, t.opers.Length);
      RecordsFitAt(t.opers[..], past, o);
    }

    lemma SomewhereOnList(o: nat)
      requires OperLists(active, [], finished, t.opers.Length) && o < t.opers.Length
      ensures o in active || o in finished
    {
      var none: seq<nat> := [];
      assert multiset(active)[o] + multiset(none)[o] + multiset(finished)[o] == 1;
    }

    /** While writing, an operation that covers another is still going on, or has
        fed the other. */
    lemma CoverGoesOn(b: nat, o: nat, k: nat)
      requires Valid() && !MayCut() && AllAt(WRITE, k) && t.inflight == t.performed
      requires b < t.opers.Length && o < t.opers.Length && Covers(t.opers[b], t.opers[o])
      ensures b in active || (t.opers[o].file < |t.files| && !TooShort(t.files[t.opers[o].file], t.opers[o].start))
    {
      hide Thread.Valid, OperLists, Records, Advance, Covers;
      SomewhereOnList(b);
      if b !in active {
        FinishedAndUncut(b);
        WrittenFeeds(b, o);
      }
    }

    lemma CoverOf(o: nat) returns (b: nat)
      requires Covered(t.opers[..]) && o < t.opers.Length
      ensures b < t.opers.Length && Covers(t.opers[b], t.opers[o])
    {
      hide Advance;
      assert CoveredAt(t.opers[..], o);
      b :| b < t.opers.Length && Covers(t.opers[..][b], t.opers[..][o]);
    }

    /** While writing, nobody starves: the first context of each file goes on
        until it has fed the others. */
    lemma NotStarvedWriting(k: nat)
      requires Valid() && !MayCut() && AllAt(WRITE, k) && Covered(t.opers[..])
      ensures !Starved()
    {
      hide Valid, Covered, Advance, AllAt, Starved;
      StarvedNone();
      if active != [] && active[0] < t.opers.Length && t.inflight == t.performed {
        var b := CoverOf(active[0]);
        CoverGoesOn(b, active[0], k);
      }
    }

    lemma StarvedNone()
      ensures Starved() ==>
                && active != [] && active[0] < t.opers.Length && t.inflight == t.performed
                && !Allowed(t.files, t.opers[active[0]], t.opers[active[0]].started)
                && forall o :: o in active ==> o < t.opers.Length && !Allowed(t.files, t.opers[o], t.opers[o].started)
    {
    }

    /** And when the write stage is over, all files are long enough. */
    lemma WritingFeeds(k: nat)
      requires Valid() && !MayCut() && active == [] && Quiet() && AllAt(WRITE, k) && Covered(t.opers[..])
      ensures Fed(t.files, t.opers[..])
    {
      hide Thread.Valid, Covered, AllAt, Covers, TooShort, Records, OperLists;
      NothingPerformed();
      forall o: nat | o < t.opers.Length
        ensures t.opers[o].file < |t.files| && !TooShort(t.files[t.opers[o].file], t.opers[o].start)
      {
        var b := CoverOf(o);
        CoverGoesOn(b, o, k);
      }
    }

    lemma NothingPerformed()
      requires t.Valid() && t.inflight == {}
      ensures t.performed == {}
    {
      t.FilesAreNamed(t.View(), t.sent, t.files, t.performed);
    }

    lemma FedNotStarved()
      requires Fed(t.files, t.opers[..])
      ensures !Starved()
    {
      if active != [] && active[0] < t.opers.Length {
        var op := t.opers[..][active[0]];
        assert Allowed(t.files, op, op.started);
      }
    }

    lemma LateNotStarved(rw: nat, k: nat)
      requires AllAt(rw, k) && rw >= RWRITE
      ensures !Starved()
    {
      if active != [] && active[0] < t.opers.Length {
        assert Allowed(t.files, t.opers[active[0]], t.opers[active[0]].started);
      }
    }

    /** This operation may not start to read, and never will. */
    ghost predicate Hungry(o: nat)
      reads t, t.opers
    {
      && o < t.opers.Length && t.opers[o].rw == READ && t.opers[o].started == 0
      && t.opers[o].file < |t.files| && TooShort(t.files[t.opers[o].file], t.opers[o].start)
    }

    lemma HungryNotFinished(o: nat)
      requires Valid() && !MayCut() && active == []
      ensures !Hungry(o)
    {
      hide Thread.Valid, OperLists, Records;
      if o < t.opers.Length {
        SomewhereOnList(o);
        FinishedAndUncut(o);
      }
    }

    lemma HungryStays(before: seq<Oper>, o: nat)
      requires |before| == t.opers.Length && Core(before) == Core(t.opers[..]) && o < |before|
      requires before[o].rw == READ && before[o].started == 0
      requires before[o].file < |t.files| && TooShort(t.files[before[o].file], before[o].start)
      requires StartedAllowed(before, t.opers[..], t.files)
      ensures Hungry(o)
    {
      CoreMeans(before, o);
      CoreMeans(t.opers[..], o);
    }

    lemma ReadingWritesNothing(k: nat)
      requires AllAt(READ, k)
      ensures NobodyWrites(Core(t.opers[..]))
    {
      t.CoreWrites(t.opers[..]);
    }

    /** What is known of a single thread on its way: its files are long enough
        when it reads, or it started by reading and never will read from one. */
    ghost predicate Course(ends: bool, rw: nat, short: nat)
      reads t, t.opers
    {
      t.alone && Covered(t.opers[..]) ==>
        if ends then rw == READ ==> Fed(t.files, t.opers[..]) else rw == READ && Hungry(short)
    }

    /** One round keeps a thread on its course. */
    method Round(ghost rw: nat, ghost k: nat, ghost ends: bool, ghost short: nat)
      requires Valid() && active != [] && AllAt(rw, k) && Course(ends, rw, short)
      modifies `active, `finished, t, t.units, t.opers, t.iocbs
      ensures Valid() && AllAt(rw, k) && Course(ends, rw, short) && SameContexts(old(t.opers[..]), t.opers[..])
      ensures Core(t.opers[..]) == old(Core(t.opers[..]))
      ensures |active| <= |old(active)| && 0 <= Work() <= old(Work())
      ensures !old(Starved()) ==> Work() < old(Work()) || Nearer(old(t.Waiting()), old(t.delay))
    {
      hide Thread.Valid, OperLists, Records, Left, Core, Starved, StartedAllowed, Nearer, Covered, Grown, TooShort;
      ghost var before, files := t.opers[..], t.files;
      if rw == READ {
        ReadingWritesNothing(k);
      }
      ghost var built := RunActiveList();
      StillAllAt(before, rw, k);
      CoreContexts(before, t.opers[..]);
      CoreContexts(t.opers[..], before);
      if t.alone && Covered(t.opers[..]) {
        CoveredStays(t.opers[..], before);
        if ends && rw == READ {
          FedStays(before, t.opers[..], files, t.files);
        } else if !ends {
          HungryStays(before, short);
        }
      }
    }

    /** Somebody starves only if the thread was never to end. */
    lemma StarvesOnCourse(ends: bool, rw: nat, k: nat, short: nat)
      requires Valid() && AllAt(rw, k) && Course(ends, rw, short) && Starved()
      ensures t.alone && Covered(t.opers[..]) ==> !ends
    {
      hide Valid, Starved, Fed, Covered;
      if t.alone && Covered(t.opers[..]) && ends {
        if rw == WRITE {
          NotStarvedWriting(k);
        } else if rw == READ {
          FedNotStarved();
        } else {
          LateNotStarved(rw, k);
        }
      }
    }

    /** Cutting is possible only with other threads, about which nothing is known. */
    method CutOne(ghost rw: nat, ghost k: nat, ghost ends: bool, ghost short: nat)
      requires Valid() && active != [] && MayCut() && AllAt(rw, k)
      modifies `active, `finished, t.opers
      ensures Valid() && AllAt(rw, k) && Course(ends, rw, short) && SameContexts(old(t.opers[..]), t.opers[..])
      ensures |active| < |old(active)| && Work() == old(Work())
    {
      hide Thread.Valid, OperLists, Records, Left;
      ListsBounded(active, [], finished, t.opers.Length);
      assert active[0] in active;
      Cut();
    }

    /** Other threads write, and may make some operation runnable. */
    method OthersHelp(ghost rw: nat, ghost k: nat, ghost ends: bool, ghost short: nat)
      requires Valid() && AllAt(rw, k) && !t.alone
      modifies t`files
      ensures Valid() && AllAt(rw, k) && Course(ends, rw, short)
      ensures t.opers[..] == old(t.opers[..])
    {
      hide Thread.Valid, OperLists, Records;
      t.OthersWrite();
    }

    lemma NearerMeans(waiting: nat, delay: nat)
      ensures Nearer(waiting, delay) <==> t.Waiting() < waiting || (t.Waiting() == waiting && t.delay < delay)
    {
    }

    lemma ContextsSame(a: seq<Oper>)
      ensures SameContexts(a, a)
    {
    }

    lemma ContextsStay(a: seq<Oper>, b: seq<Oper>, c: seq<Oper>)
      requires SameContexts(a, b) && SameContexts(b, c)
      ensures SameContexts(a, c)
    {
    }

    /** The inner loop of worker: round after round, or a cut when other threads
        are done, and only then, until nothing is active. If nothing can ever change any more the
        source goes round without end; here it says so. */
    method RunStage(ghost rw: nat, ghost k: nat, ghost ends: bool, ghost short: nat)
      returns (starves: bool, ghost sawEnding: bool)
      requires Valid() && AllAt(rw, k) && Course(ends, rw, short)
      modifies `active, `finished, t, t.units, t.opers, t.iocbs
      ensures Valid() && AllAt(rw, k) && Course(ends, rw, short) && SameContexts(old(t.opers[..]), t.opers[..])
      ensures if starves then Starved() else active == []
      ensures !sawEnding ==> Core(t.opers[..]) == old(Core(t.opers[..]))
    {
      hide Valid, AllAt, Course, SameContexts, Starved, Left, Thread.Valid, OperLists, Nearer, Core;
      ContextsSame(t.opers[..]);
      sawEnding := false;
      while active != []
        invariant Valid() && AllAt(rw, k) && Course(ends, rw, short) && SameContexts(old(t.opers[..]), t.opers[..])
        invariant !sawEnding ==> Core(t.opers[..]) == old(Core(t.opers[..]))
        decreases Work(), |active|, t.Waiting(), t.delay
      {
        ghost var before := t.opers[..];
        WorkBounded();
        var threadsEnding: bool := *;
        sawEnding := sawEnding || threadsEnding;
        if stonewall && !t.alone && threadsEnding {
          CutOne(rw, k, ends, short);
        } else {
          if Starved() {
            if t.alone {
              return true, sawEnding;
            }
            OthersHelp(rw, k, ends, short);
            if Starved() {
              return true, sawEnding;
            }
          }
          ghost var waiting, delay := t.Waiting(), t.delay;
          Round(rw, k, ends, short);
          NearerMeans(waiting, delay);
        }
        ContextsStay(old(t.opers[..]), before, t.opers[..]);
      }
      return false, sawEnding;
    }

    lemma CourseBegins() returns (short: nat)
      requires Valid() && AllAt(FirstStage(asked), 0) && forall o :: 0 <= o < t.opers.Length ==> t.opers[o].started == 0
      ensures Course(Ends(asked, t.opers[..], t.files), FirstStage(asked), short)
    {
      hide Thread.Valid, OperLists, Records, FirstStage, Covered;
      short := 0;
      if !Ends(asked, t.opers[..], t.files) {
        forall o: nat | o < t.opers.Length
          ensures t.opers[o].file < |t.files|
        {
          FileIsNamed(o);
        }
        short :| short < t.opers.Length && TooShort(t.files[t.opers[short].file], t.opers[short].start);
      }
    }

    /** A stage that is over was not one in which somebody starves. */
    lemma StageWasFed(ends: bool, rw: nat, short: nat)
      requires Valid() && active == [] && Course(ends, rw, short)
      ensures t.alone && Covered(t.opers[..]) ==> ends
    {
      hide Valid, Covered, Fed, Hungry;
      if t.alone && Covered(t.opers[..]) && !ends {
        HungryNotFinished(short);
        assert false;
      }
    }

    /** What a single thread needs for its next stage. */
    ghost predicate FedFor(rw: nat)
      reads t, t.opers
    {
      t.alone && Covered(t.opers[..]) && rw == WRITE ==> Fed(t.files, t.opers[..])
    }

    lemma StageFeeds(rw: nat, k: nat)
      requires Valid() && active == [] && Quiet() && AllAt(rw, k)
      ensures FedFor(rw)
    {
      hide Valid, Covered, Fed, Quiet;
      if t.alone && Covered(t.opers[..]) && rw == WRITE {
        WritingFeeds(k);
      }
    }

    twostate lemma FedForUnread(rw: nat)
      requires old(FedFor(rw)) && t.files == old(t.files) && SameContexts(old(t.opers[..]), t.opers[..])
      ensures FedFor(rw)
    {
      hide Fed, Covered;
      CoveredSame(old(t.opers[..]));
      if t.alone && Covered(t.opers[..]) && rw == WRITE {
        FedSame(old(t.opers[..]));
      }
    }

    /** The next stage of a single thread that did not starve. */
    lemma NextCourse(ends: bool, rw: nat, next: nat, short: nat)
      requires FedFor(rw) && rw < next && (t.alone && Covered(t.opers[..]) ==> ends)
      ensures Course(ends, next, short)
    {
      hide Covered, Fed, Hungry;
    }

    lemma FedSame(before: seq<Oper>)
      requires SameContexts(before, t.opers[..]) && Fed(t.files, before)
      ensures Fed(t.files, t.opers[..])
    {
      FedStays(before, t.opers[..], t.files, t.files);
    }

    lemma ContextsBack(a: seq<Oper>, b: seq<Oper>)
      requires SameContexts(a, b)
      ensures SameContexts(b, a)
    {
    }

    /** The second half of a stage: waits for everything, then restarts what has a
        stage left. */
    method FinishStage(ghost rw: nat, ghost k: nat)
      requires Valid() && active == [] && AllAt(rw, k) && rw < 4
      modifies `active, `finished, `past, t, t.units, t.opers
      ensures Valid() && Quiet() && SameContexts(old(t.opers[..]), t.opers[..])
      ensures var next := NextRw(Effective(asked), rw);
              if next != 0 then finished == [] && AllAt(next, k + 1) else active == [] && AllAt(rw, k)
      ensures FedFor(rw)
    {
      hide Thread.Valid, OperLists, Records, Quiet, Core, NextRw, Effective, Covered, Fed, FedFor;
      ghost var before := t.opers[..];
      WaitAll();
      StillAllAt(before, rw, k);
      CoreContexts(before, t.opers[..]);
      StageFeeds(rw, k);
      ghost var waiting := t.opers[..];
      label waited:
      RestartAll(rw, k);
      ContextsStay(before, waiting, t.opers[..]);
      FedForUnread@waited(rw);
    }

    /** worker: stage after stage, each until nothing is active, then waiting, then
        restarting, until no operation has a stage left. Every thread that has an
        operation goes through the same number of stages. A single thread whose
        contexts are those of main ends exactly if it does not start by reading
        from a file that is shorter than the start of some context; otherwise it
        goes round without end. */
    method Run() returns (outcome: Outcome, iteration: nat)
      requires Valid() && finished == [] && AllAt(FirstStage(asked), 0)
      requires forall o :: 0 <= o < t.opers.Length ==> t.opers[o].started == 0
      modifies `active, `finished, `past, t, t.units, t.opers, t.iocbs
      ensures Valid() && SameContexts(old(t.opers[..]), t.opers[..])
      ensures outcome == Ended ==>
                active == [] && Quiet() && Complete() && (t.opers.Length > 0 ==> iteration + 1 == |Plan(asked)|)
      ensures outcome == Starves ==> Starved()
      ensures t.alone && old(Covered(t.opers[..])) ==>
                (outcome == Ended <==> old(Ends(asked, t.opers[..], t.files)))
    {
      hide Valid, Thread.Valid, OperLists, Records, Quiet, Complete, Core, FirstStage, Effective, Plan, NextRw, Course,
           Covered, Ends, SameContexts, Starved, AllAt, Fed, FedFor;
      iteration := 0;
      ghost var rw, first := FirstStage(asked), t.opers[..];
      ghost var ends := Ends(asked, t.opers[..], t.files);
      ghost var short := CourseBegins();
      FirstStageInRange();
      ContextsSame(first);
      while true
        invariant Valid() && SameContexts(first, t.opers[..]) && finished == [] && AllAt(rw, iteration) && rw < 4
        invariant Course(ends, rw, short)
        decreases 4 - rw
      {
        ghost var before := t.opers[..];
        var starves, _ := RunStage(rw, iteration, ends, short);
        ContextsStay(first, before, t.opers[..]);
        if starves {
          StarvesOnCourse(ends, rw, iteration, short);
          CoveredSame(first);
          return Starves, iteration;
        }
        StageWasFed(ends, rw, short);
        CoveredSame(first);
        before := t.opers[..];
        FinishStage(rw, iteration);
        ContextsStay(first, before, t.opers[..]);
        CoveredSame(first);
        NextRwIsNext(Effective(asked), rw);
        if active == [] {
          NobodyActive(rw, iteration);
          return Ended, iteration;
        }
        NextCourse(ends, rw, NextRw(Effective(asked), rw), short);
        rw := NextRw(Effective(asked), rw);
        iteration := iteration + 1;
      }
    }

    lemma CoveredSame(before: seq<Oper>)
      requires SameContexts(before, t.opers[..])
      ensures Covered(before) <==> Covered(t.opers[..])
    {
      hide Covered;
      ContextsBack(before, t.opers[..]);
      if Covered(before) {
        CoveredStays(before, t.opers[..]);
      }
      if Covered(t.opers[..]) {
        CoveredStays(t.opers[..], before);
      }
    }
  }
}
