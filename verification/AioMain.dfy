// aio-stress from main to the end: the contexts that main cuts the files into,
// what the worker makes of them as a single thread, and when several get through.
module AioMain {
  import opened AioCounts
  import opened AioFiles
  import opened AioModel
  import opened AioStages
  import opened AioWorker
  import opened Arithmetic
  import B = StageBarrier
  import T = AioTeam
  import TeamStarving

  /** The options that shape the contexts: how many for each file, how far apart,
      the file size to reach and the record length. */
  datatype Shape = Shape(numContexts: nat, offset: nat, size: nat, reclen: nat) {
    /** Every context has room for a record, whose length is an int. */
    predicate Fits() {
      && 0 < reclen <= INT_MAX
      && forall j :: 0 <= j < numContexts ==> Times(j, offset) + reclen <= size - Times(j, offset)
    }
  }

  /** Context j of a file: both ends move in by the offset. */
  function Context(s: Shape, rw: nat, file: nat, j: nat): Oper
    requires s.Fits() && j < s.numContexts
  {
    CreateOper(file, rw, Times(j, s.offset), s.size - Times(j, s.offset), s.reclen)
  }

  function ContextsOf(s: Shape, rw: nat, file: nat, n: nat): seq<Oper>
    requires s.Fits() && n <= s.numContexts
  {
    if n == 0 then [] else ContextsOf(s, rw, file, n - 1) + [Context(s, rw, file, n - 1)]
  }

  /** The operations main creates, file by file. */
  function Contexts(s: Shape, rw: nat, numFiles: nat): seq<Oper>
    requires s.Fits()
  {
    if numFiles == 0 then [] else Contexts(s, rw, numFiles - 1) + ContextsOf(s, rw, numFiles - 1, s.numContexts)
  }

  lemma {:induction false} ContextsOfMembers(s: Shape, rw: nat, file: nat, n: nat)
    requires s.Fits() && n <= s.numContexts
    ensures |ContextsOf(s, rw, file, n)| == n
    ensures forall j: nat :: j < n ==> ContextsOf(s, rw, file, n)[j] == Context(s, rw, file, j)
  {
    if n > 0 {
      ContextsOfMembers(s, rw, file, n - 1);
    }
  }

  lemma {:induction false} HowManyContexts(s: Shape, rw: nat, numFiles: nat)
    requires s.Fits()
    ensures |Contexts(s, rw, numFiles)| == Times(numFiles, s.numContexts)
  {
    if numFiles > 0 {
      HowManyContexts(s, rw, numFiles - 1);
      ContextsOfMembers(s, rw, numFiles - 1, s.numContexts);
    }
  }

  /** Operation o is context j of file i. */
  lemma {:induction false} ContextAt(s: Shape, rw: nat, numFiles: nat, o: nat) returns (i: nat, j: nat)
    requires s.Fits() && o < |Contexts(s, rw, numFiles)|
    ensures i < numFiles && j < s.numContexts && Contexts(s, rw, numFiles)[o] == Context(s, rw, i, j)
    ensures o == Times(i, s.numContexts) + j
  {
    var before := Contexts(s, rw, numFiles - 1);
    ContextsOfMembers(s, rw, numFiles - 1, s.numContexts);
    HowManyContexts(s, rw, numFiles - 1);
    if o < |before| {
      i, j := ContextAt(s, rw, numFiles - 1, o);
    } else {
      i, j := numFiles - 1, o - |before|;
    }
  }

  lemma {:induction false} AtContext(s: Shape, rw: nat, numFiles: nat, i: nat, j: nat) returns (o: nat)
    requires s.Fits() && i < numFiles && j < s.numContexts
    ensures o < |Contexts(s, rw, numFiles)| && Contexts(s, rw, numFiles)[o] == Context(s, rw, i, j)
    ensures o == Times(i, s.numContexts) + j
    decreases numFiles
  {
    ContextsOfMembers(s, rw, numFiles - 1, s.numContexts);
    HowManyContexts(s, rw, numFiles - 1);
    if i < numFiles - 1 {
      o := AtContext(s, rw, numFiles - 1, i, j);
    } else {
      o := |Contexts(s, rw, numFiles - 1)| + j;
    }
  }

  /** The requests can be counted: those of the first context of a file, which has
      the most, to the end of their last round. */
  predicate Countable(s: Shape, numFiles: nat, ioIter: nat)
    requires s.Fits() && 1 <= ioIter
  {
    numFiles == 0 || s.numContexts == 0 || (s.size / s.reclen + ioIter - 1) / ioIter * ioIter <= 0x7fff_ffff
  }

  lemma CountableMeans(s: Shape, numFiles: nat, ioIter: nat)
    requires s.Fits() && 1 <= ioIter
    ensures Countable(s, numFiles, ioIter)
            <==> numFiles == 0 || s.numContexts == 0 || RoundedUp(s.size / s.reclen, ioIter) <= INT_MAX
  {
  }

  /** The first context of a file covers all its others. */
  lemma ContextsCovered(s: Shape, rw: nat, numFiles: nat, ioIter: nat)
    requires s.Fits() && 1 <= ioIter && Countable(s, numFiles, ioIter)
    ensures Covered(Contexts(s, rw, numFiles))
  {
    hide Contexts, Advance, RoundedUp;
    var opers := Contexts(s, rw, numFiles);
    forall o: nat | o < |opers|
      ensures CoveredAt(opers, o)
    {
      var i, j := ContextAt(s, rw, numFiles, o);
      CountableMeans(s, numFiles, ioIter);
      RoundedUpBounds(s.size / s.reclen, ioIter);
      var b := AtContext(s, rw, numFiles, i, 0);
      FirstCovers(s, rw, i, j);
      assert Covers(opers[b], opers[o]);
    }
  }

  lemma FirstCovers(s: Shape, rw: nat, i: nat, j: nat)
    requires s.Fits() && j < s.numContexts && s.size / s.reclen <= INT_MAX
    ensures Covers(Context(s, rw, i, 0), Context(s, rw, i, j))
  {
    var total := s.size / s.reclen;
    assert s.size == s.reclen * total + s.size % s.reclen;
    AdvanceNonnegative(s.reclen, total);
  }

  /** Every operation has something to do, and can count it. */
  predicate Counted(opers: seq<Oper>, ioIter: nat)
    requires 1 <= ioIter
  {
    forall o :: 0 <= o < |opers| ==> 1 <= opers[o].total && RoundedUp(opers[o].total, ioIter) <= INT_MAX
  }

  lemma LaterAreShorter(s: Shape, j: nat)
    requires s.Fits() && j < s.numContexts
    ensures 1 <= (s.size - Times(j, s.offset) - Times(j, s.offset)) / s.reclen <= s.size / s.reclen
  {
    QuotientsGrow(s.reclen, s.size - Times(j, s.offset) - Times(j, s.offset), s.reclen);
    QuotientsGrow(s.size - Times(j, s.offset) - Times(j, s.offset), s.size, s.reclen);
    Bits.RemainderIs(s.reclen, s.reclen, 1, 0);
  }

  lemma QuotientsGrow(m: nat, n: nat, d: nat)
    requires d > 0 && m <= n
    ensures m / d <= n / d
  {
    var p, q := m / d, n / d;
    assert m == p * d + m % d && n == q * d + n % d;
    Multiples(p, q, d);
  }

  lemma CountableCounted(s: Shape, rw: nat, numFiles: nat, ioIter: nat)
    requires s.Fits() && 1 <= ioIter && Countable(s, numFiles, ioIter)
    ensures Counted(Contexts(s, rw, numFiles), ioIter)
    ensures forall o :: 0 <= o < |Contexts(s, rw, numFiles)| ==> AllRecords(Contexts(s, rw, numFiles)[o])
  {
    hide Contexts, RoundedUp, Advance;
    var opers := Contexts(s, rw, numFiles);
    forall o: nat | o < |opers|
      ensures 1 <= opers[o].total && RoundedUp(opers[o].total, ioIter) <= INT_MAX && AllRecords(opers[o])
    {
      var i, j := ContextAt(s, rw, numFiles, o);
      LaterAreShorter(s, j);
      CountableMeans(s, numFiles, ioIter);
      RoundedUpBounds(s.size / s.reclen, ioIter);
      CreateOperFits(i, rw, Times(j, s.offset), s.size - Times(j, s.offset), s.reclen);
      RoundedUpGrows(opers[o].total, s.size / s.reclen, ioIter);
    }
  }

  /** An operation is to make a request for every whole record of its context. */
  predicate AllRecords(op: Oper) {
    op.reclen > 0 && op.total == (op.end - op.start) / op.reclen
  }

  /** If the first context can be counted and has all its records, so can all. */
  lemma CountedCountable(s: Shape, rw: nat, numFiles: nat, ioIter: nat, o: nat)
    requires s.Fits() && 1 <= ioIter && 0 < s.numContexts && Counted(Contexts(s, rw, numFiles), ioIter)
    requires o < |Contexts(s, rw, numFiles)| && AllRecords(Contexts(s, rw, numFiles)[o])
    requires exists i: nat :: Contexts(s, rw, numFiles)[o] == Context(s, rw, i, 0)
    ensures Countable(s, numFiles, ioIter)
  {
    hide Contexts, RoundedUp, Countable;
    CountableMeans(s, numFiles, ioIter);
  }

  lemma ContextsStart(s: Shape, rw: nat, numFiles: nat, ioIter: nat)
    requires s.Fits() && 1 <= ioIter && Counted(Contexts(s, rw, numFiles), ioIter)
    ensures forall o :: 0 <= o < |Contexts(s, rw, numFiles)| ==>
              var op := Contexts(s, rw, numFiles)[o];
              Untouched(op) && 1 <= op.total && op.rw == rw && op.file < numFiles
  {
    hide Contexts, RoundedUp;
    forall o: nat | o < |Contexts(s, rw, numFiles)|
      ensures var op := Contexts(s, rw, numFiles)[o];
              Untouched(op) && 1 <= op.total && op.rw == rw && op.file < numFiles
    {
      var i, j := ContextAt(s, rw, numFiles, o);
    }
  }

  /** Every regular file is at least as long as its contexts' starts. */
  ghost predicate LongEnough(s: Shape, files: seq<File>) {
    forall i: nat, j: nat :: i < |files| && j < s.numContexts && files[i].regular ==> Times(j, s.offset) <= files[i].size
  }

  /** The read stage is asked for, and the write stage is not. */
  predicate ReadsFirst(asked: set<nat>) { 0 !in asked && 1 in asked }

  lemma ReadsFirstIff(asked: set<nat>)
    ensures FirstStage(asked) == READ <==> ReadsFirst(asked)
  {
    LeastFromIsLeast(asked, 0);
  }

  lemma FedIffLongEnough(s: Shape, rw: nat, files: seq<File>)
    requires s.Fits()
    ensures Fed(files, Contexts(s, rw, |files|)) <==> LongEnough(s, files)
  {
    hide Contexts;
    var opers := Contexts(s, rw, |files|);
    if LongEnough(s, files) {
      forall o: nat | o < |opers|
        ensures opers[o].file < |files| && !TooShort(files[opers[o].file], opers[o].start)
      {
        var i, j := ContextAt(s, rw, |files|, o);
      }
    }
    if Fed(files, opers) {
      forall i: nat, j: nat | i < |files| && j < s.numContexts
        ensures !TooShort(files[i], Times(j, s.offset))
      {
        var o := AtContext(s, rw, |files|, i, j);
      }
    }
  }

  /** A stage made a request for every whole record of a context: for each once, in
      order, or as many random ones. */
  ghost predicate RunCovers(start: int, end: int, reclen: int, mask: nat, r: StageRun)
    requires reclen > 0
  {
    && !r.stonewalled && |r.sent| == (end - start) / reclen
    && (r.rw < 2 ==> forall i :: 0 <= i < |r.sent| ==> r.sent[i] == start + reclen * i)
    && (r.rw >= 2 ==> forall i :: 0 <= i < |r.sent| ==> DrawnIn(start, end, reclen, mask, r.sent[i]))
  }

  /** Operation o visited the stages asked for, uncut, and covered its context in
      each. */
  ghost predicate DoneWith(w: Worker, asked: set<nat>, o: nat, start: int, end: int, reclen: int)
    reads w`past, w.t`sent, w.t.opers
  {
    && o < |w.past| && o < |w.t.sent| && o < w.t.opers.Length && reclen > 0
    && AsAsked(asked, Numbers(w.History(o)))
    && forall i :: 0 <= i < |w.History(o)| ==> RunCovers(start, end, reclen, w.t.mask, w.History(o)[i])
  }

  /** The operation for context j of file i, both ends of which move in by the
      offset, is done. */
  ghost predicate ContextDone(w: Worker, asked: set<nat>, s: Shape, i: nat, j: nat)
    reads w`past, w.t`sent, w.t.opers
  {
    var o := i * s.numContexts + j;
    DoneWith(w, asked, o, j * s.offset, s.size - j * s.offset, s.reclen) && w.t.opers[o].file == i
  }

  ghost predicate AllDone(w: Worker, asked: set<nat>, s: Shape, numFiles: nat)
    reads w`past, w.t`sent, w.t.opers
  {
    && |w.past| == |w.t.sent| == w.t.opers.Length == numFiles * s.numContexts
    && forall i: nat, j: nat :: i < numFiles && j < s.numContexts ==> ContextDone(w, asked, s, i, j)
  }

  lemma CompleteRun(mask: nat, op: Oper, now: Oper, r: StageRun)
    requires op.reclen > 0 && op.start + op.reclen <= op.end && AllRecords(op) && RunOk(mask, now, r) && !r.stonewalled
    requires now.start == op.start && now.end == op.end && now.reclen == op.reclen && now.total == op.total
    ensures RunCovers(op.start, op.end, op.reclen, mask, r)
  {
    hide DrawnIn;
    if r.rw < 2 {
      StageCoversContext(mask, now, r);
    }
  }

  lemma CompleteIsDone(w: Worker, s: Shape, rw: nat, files: seq<File>, i: nat, j: nat, o: nat)
    requires s.Fits() && w.Complete() && !w.MayCut() && SameContexts(Contexts(s, rw, |files|), w.t.opers[..])
    requires j < s.numContexts && o < w.t.opers.Length && Contexts(s, rw, |files|)[o] == Context(s, rw, i, j)
    requires o == i * s.numContexts + j && AllRecords(Contexts(s, rw, |files|)[o])
    ensures ContextDone(w, w.asked, s, i, j)
  {
    hide Contexts, Plan, Numbers, AsAsked, RunOk, RunCovers, TotalIos, Worker.Complete, SameContexts;
    SameContext(Contexts(s, rw, |files|), w.t.opers[..], o);
    var op := Contexts(s, rw, |files|)[o];
    TimesIsProduct(j, s.offset);
    CompleteAt(w, o);
    forall k | 0 <= k < |w.History(o)|
      ensures RunCovers(op.start, op.end, op.reclen, w.t.mask, w.History(o)[k])
    {
      CompleteRun(w.t.mask, op, w.t.opers[o], w.History(o)[k]);
    }
    assert DoneWith(w, w.asked, o, op.start, op.end, op.reclen);
  }

  lemma CompleteAt(w: Worker, o: nat)
    requires w.Complete() && !w.MayCut() && o < w.t.opers.Length
    ensures o < |w.past| && o < |w.t.sent| && AsAsked(w.asked, Numbers(w.History(o)))
    ensures forall k :: 0 <= k < |w.History(o)| ==>
              RunOk(w.t.mask, w.t.opers[o], w.History(o)[k]) && !w.History(o)[k].stonewalled
  {
    hide AsAsked, Plan, RunOk, Numbers;
  }

  lemma SameContext(before: seq<Oper>, after: seq<Oper>, o: nat)
    requires SameContexts(before, after) && o < |after|
    ensures o < |before| && after[o].file == before[o].file && after[o].start == before[o].start
    ensures after[o].end == before[o].end && after[o].reclen == before[o].reclen && after[o].total == before[o].total
  {
  }

  /** An operation that is done was to request every record. */
  lemma DoneHasAllRecords(w: Worker, opers: seq<Oper>, o: nat)
    requires w.Complete() && !w.MayCut() && SameContexts(opers, w.t.opers[..]) && o < |opers|
    requires DoneWith(w, w.asked, o, opers[o].start, opers[o].end, opers[o].reclen)
    ensures AllRecords(opers[o])
  {
    hide DrawnIn;
    AskedIsSomething(w.asked, Numbers(w.History(o)));
    assert RunOk(w.t.mask, w.t.opers[o], w.History(o)[0]);
    assert RunCovers(opers[o].start, opers[o].end, opers[o].reclen, w.t.mask, w.History(o)[0]);
  }

  lemma AskedIsSomething(asked: set<nat>, visited: seq<nat>)
    requires AsAsked(asked, visited)
    ensures visited != []
  {
  }

  /** Miscounts: the number of requests of some operation is not what the program
      counts with, or adding a round to it overflows; see NegativeTotal. */
  datatype Result = Miscounts | Ran(w: Worker, outcome: Outcome, iteration: nat)

  /** A single thread with all contexts of all files. It ends with every operation
      done with its context in every stage exactly if the requests can be counted
      and its first stage does not read from a file shorter than the start of a
      context. */
  method SingleThread(asked: set<nat>, stonewall: bool, s: Shape, files: seq<File>,
                      depth: nat, ioIter: nat, maxSubmit: nat, mask: nat)
    returns (r: Result)
    requires s.Fits() && 1 <= ioIter <= maxSubmit && ioIter <= depth
    ensures r.Ran? && r.outcome == Ended && AllDone(r.w, asked, s, |files|)
            <==> Countable(s, |files|, ioIter) && (ReadsFirst(asked) ==> LongEnough(s, files))
    ensures Countable(s, |files|, ioIter) ==>
              r.Ran? && (r.outcome == Ended <==> (ReadsFirst(asked) ==> LongEnough(s, files)))
    ensures r.Ran? && r.outcome == Ended && files != [] && s.numContexts > 0 ==> r.iteration + 1 == |Plan(asked)|
    ensures r.Miscounts? <==> !Counted(Contexts(s, FirstStage(asked), |files|), ioIter)
  {
    hide Contexts, Plan, Numbers, Covered, Worker.Valid, FirstStage, Fed, LongEnough, DoneWith, Worker.AllAt, RunOk,
         Countable, AllDone, RoundedUp, AllRecords, Worker.Complete;
    var rw := FirstStage(asked);
    var opers := Contexts(s, rw, |files|);
    if Countable(s, |files|, ioIter) {
      CountableCounted(s, rw, |files|, ioIter);
      ContextsCovered(s, rw, |files|, ioIter);
    }
    if !Counted(opers, ioIter) {
      return Miscounts;
    }
    ContextsStart(s, rw, |files|, ioIter);
    FedIffLongEnough(s, rw, files);
    ReadsFirstIff(asked);
    var w := new Worker(asked, stonewall, opers, depth, ioIter, maxSubmit, mask, files, true);
    assert w.t.opers[..] == opers;
    var outcome, iteration := w.Run();
    r := Ran(w, outcome, iteration);
    if outcome == Ended {
      DoneIffCountable(w, s, rw, files, ioIter);
    }
  }

  lemma DoneIffCountable(w: Worker, s: Shape, rw: nat, files: seq<File>, ioIter: nat)
    requires s.Fits() && 1 <= ioIter && w.Complete() && !w.MayCut() && Counted(Contexts(s, rw, |files|), ioIter)
    requires SameContexts(Contexts(s, rw, |files|), w.t.opers[..]) && (w.t.opers.Length > 0 ==> |Plan(w.asked)| > 0)
    ensures AllDone(w, w.asked, s, |files|) <==> Countable(s, |files|, ioIter)
    ensures files != [] && s.numContexts > 0 ==> w.t.opers.Length > 0
  {
    hide Contexts, ContextDone, RoundedUp, Countable, Counted, Plan, Worker.Complete;
    HowManyContexts(s, rw, |files|);
    TimesIsProduct(|files|, s.numContexts);
    CompleteSizes(w);
    if Countable(s, |files|, ioIter) {
      CountableCounted(s, rw, |files|, ioIter);
      forall i: nat, j: nat | i < |files| && j < s.numContexts
        ensures ContextDone(w, w.asked, s, i, j)
      {
        var o := AtContext(s, rw, |files|, i, j);
        TimesIsProduct(i, s.numContexts);
        CompleteIsDone(w, s, rw, files, i, j, o);
      }
    }
    if files == [] || s.numContexts == 0 {
      NoContexts(s, |files|, ioIter);
    } else {
      var o := AtContext(s, rw, |files|, 0, 0);
      if AllDone(w, w.asked, s, |files|) {
        assert ContextDone(w, w.asked, s, 0, 0);
        FirstContextDone(w, s, rw, |files|);
        CountedCountable(s, rw, |files|, ioIter, o);
      }
    }
  }

  lemma CompleteSizes(w: Worker)
    requires w.Complete()
    ensures |w.past| == |w.t.sent| == w.t.opers.Length
  {
  }

  lemma FirstContextDone(w: Worker, s: Shape, rw: nat, numFiles: nat)
    requires s.Fits() && w.Complete() && !w.MayCut() && SameContexts(Contexts(s, rw, numFiles), w.t.opers[..])
    requires 0 < s.numContexts && 0 < |Contexts(s, rw, numFiles)| && Contexts(s, rw, numFiles)[0] == Context(s, rw, 0, 0)
    requires ContextDone(w, w.asked, s, 0, 0)
    ensures AllRecords(Contexts(s, rw, numFiles)[0])
  {
    hide Contexts, Worker.Complete, TotalIos;
    DoneHasAllRecords(w, Contexts(s, rw, numFiles), 0);
  }

  lemma NoContexts(s: Shape, numFiles: nat, ioIter: nat)
    requires s.Fits() && 1 <= ioIter && (numFiles == 0 || s.numContexts == 0)
    ensures Countable(s, numFiles, ioIter)
  {
  }

  /** Two gigabytes in records of one byte: the number of requests becomes
      negative, so that nothing is ever built for the operation. */
  lemma NegativeTotal(rw: nat, ioIter: nat)
    requires 1 <= ioIter
    ensures var s := Shape(1, 0x20_0000, 0x8000_0000, 1);
            && s.Fits() && !Countable(s, 1, ioIter)
            && Context(s, rw, 0, 0).total == -0x8000_0000
            && Chunk(ioIter, Context(s, rw, 0, 0).total - 0) < 0
  {
    RoundedUpBounds(0x8000_0000, ioIter);
  }

  /** Four gigabytes and five bytes: a stage ends after five of them. */
  lemma FiveOfManyRecords(rw: nat)
    ensures var s := Shape(1, 0x20_0000, 0x1_0000_0005, 1);
            && s.Fits() && !Countable(s, 1, 8)
            && Context(s, rw, 0, 0).total == 5 && Counted([Context(s, rw, 0, 0)], 8)
  {
    RoundedUpBounds(0x1_0000_0005, 8);
    RoundedUpBounds(5, 8);
  }

  /** Reading first from a new file with two contexts at 0 and 2 MB: the second
      one can never start. */
  lemma NewFileStarves()
    ensures Shape(2, 0x20_0000, 0x80_0000, 0x1_0000).Fits()
    ensures ReadsFirst({1}) && !LongEnough(Shape(2, 0x20_0000, 0x80_0000, 0x1_0000), [File(true, 0)])
  {
    assert Times(1, 0x20_0000) == 0x20_0000;
    assert [File(true, 0)][0].regular && Times(1, 0x20_0000) > [File(true, 0)][0].size;
  }

  // --- several threads ---------------------------------------------------------------

  /** main deals the contexts out to the threads in turn. */
  function TeamOf(asked: set<nat>, stonewall: bool, threads: nat, s: Shape, numFiles: nat): T.Team
    requires s.Fits() && threads > 0
  {
    var opers := Contexts(s, FirstStage(asked), numFiles);
    T.Team(asked, stonewall, threads, opers, seq(|opers|, o requires 0 <= o => o % threads))
  }

  lemma TeamIsValid(asked: set<nat>, stonewall: bool, threads: nat, s: Shape, numFiles: nat, ioIter: nat)
    requires s.Fits() && 1 <= ioIter && Countable(s, numFiles, ioIter)
    requires 2 <= threads <= Times(numFiles, s.numContexts)
    ensures TeamOf(asked, stonewall, threads, s, numFiles).Valid()
  {
    hide Contexts, Countable, Covered, RoundedUp, FirstStage;
    var c := TeamOf(asked, stonewall, threads, s, numFiles);
    HowManyContexts(s, FirstStage(asked), numFiles);
    CountableCounted(s, FirstStage(asked), numFiles, ioIter);
    ContextsStart(s, FirstStage(asked), numFiles, ioIter);
    ContextsCovered(s, FirstStage(asked), numFiles, ioIter);
    forall o: nat | o < |c.opers|
      ensures 0 < c.opers[o].reclen
    {
      var i, j := ContextAt(s, FirstStage(asked), numFiles, o);
    }
    forall i: nat | i < threads
      ensures c.HasWork(i)
    {
      Bits.RemainderIs(i, threads, 0, i);
      assert c.owner[i] == i;
    }
  }

  /** All files are long enough for the contexts of one of the threads. */
  ghost predicate LongEnoughFor(s: Shape, files: seq<File>, threads: nat, t: nat)
    requires threads > 0
  {
    forall i: nat, j: nat :: i < |files| && j < s.numContexts && (Times(i, s.numContexts) + j) % threads == t ==>
      (files[i].regular ==> Times(j, s.offset) <= files[i].size)
  }

  lemma DealtInTurn(asked: set<nat>, stonewall: bool, threads: nat, s: Shape, numFiles: nat)
    requires s.Fits() && threads > 0
    ensures var c := TeamOf(asked, stonewall, threads, s, numFiles);
            && c.opers == Contexts(s, FirstStage(asked), numFiles) && |c.owner| == |c.opers|
            && forall o :: 0 <= o < |c.owner| ==> c.owner[o] == o % threads
  {
    hide Contexts, FirstStage;
  }

  lemma FedIffLongEnoughFor(asked: set<nat>, stonewall: bool, threads: nat, s: Shape, files: seq<File>, t: nat)
    requires s.Fits() && threads > 0
    ensures T.FedThread(TeamOf(asked, stonewall, threads, s, |files|), files, t) <==> LongEnoughFor(s, files, threads, t)
  {
    hide Contexts, FirstStage, TeamOf;
    var c := TeamOf(asked, stonewall, threads, s, |files|);
    DealtInTurn(asked, stonewall, threads, s, |files|);
    if LongEnoughFor(s, files, threads, t) {
      forall o: nat | o < |c.opers| && c.owner[o] == t
        ensures c.opers[o].file < |files| && !TooShort(files[c.opers[o].file], c.opers[o].start)
      {
        var i, j := ContextAt(s, FirstStage(asked), |files|, o);
      }
    }
    if T.FedThread(c, files, t) {
      forall i: nat, j: nat | i < |files| && j < s.numContexts && (Times(i, s.numContexts) + j) % threads == t
        ensures files[i].regular ==> Times(j, s.offset) <= files[i].size
      {
        var o := AtContext(s, FirstStage(asked), |files|, i, j);
      }
    }
  }

  /** Several threads with the contexts of main get through exactly if they do not
      start by reading, or if all files are long enough for the contexts of all
      threads; with stonewalling those of one thread are enough. */
  lemma ThreadsEndIff(asked: set<nat>, stonewall: bool, threads: nat, s: Shape, files: seq<File>, ioIter: nat)
    requires s.Fits() && 1 <= ioIter && Countable(s, |files|, ioIter)
    requires 2 <= threads <= Times(|files|, s.numContexts)
    ensures var c := TeamOf(asked, stonewall, threads, s, |files|);
            (exists ls, t :: T.Path(c, T.Init(c, files), ls, t) && B.AllGone(c.Barrier(), t.barrier))
            <==> || !ReadsFirst(asked)
                 || if stonewall then exists i: nat :: i < threads && LongEnoughFor(s, files, threads, i)
                    else LongEnough(s, files)
  {
    hide Contexts, FirstStage, T.Path, B.AllGone, T.FedThread, LongEnoughFor, LongEnough, Countable, T.Team.Valid;
    var c := TeamOf(asked, stonewall, threads, s, |files|);
    TeamIsValid(asked, stonewall, threads, s, |files|, ioIter);
    forall o: nat | o < |c.opers|
      ensures c.opers[o].file < |files|
    {
      var i, j := ContextAt(s, FirstStage(asked), |files|, o);
    }
    TeamStarving.GetsThroughIff(c, files);
    ReadsFirstIff(asked);
    forall i: nat | i < threads
      ensures T.FedThread(c, files, i) <==> LongEnoughFor(s, files, threads, i)
    {
      FedIffLongEnoughFor(asked, stonewall, threads, s, files, i);
    }
    AllThreads(s, files, threads);
  }

  lemma AllThreads(s: Shape, files: seq<File>, threads: nat)
    requires threads > 0
    ensures LongEnough(s, files) <==> forall t: nat :: t < threads ==> LongEnoughFor(s, files, threads, t)
  {
    if forall t: nat :: t < threads ==> LongEnoughFor(s, files, threads, t) {
      forall i: nat, j: nat | i < |files| && j < s.numContexts
        ensures !TooShort(files[i], Times(j, s.offset))
      {
        assert LongEnoughFor(s, files, threads, (Times(i, s.numContexts) + j) % threads);
      }
    }
  }
}
