// What the kernel does to the files while requests are in flight: when a write
// is performed its file grows, and only then can it be given back.
module AioFiles {
  import opened AioModel

  /** A file that may be a regular one, and its size. */
  datatype File = File(regular: bool, size: nat)

  /** The comparison of oper_runnable. */
  predicate TooShort(f: File, start: int) {
    f.regular && f.size < start
  }

  /** oper_runnable: only the sequential stages of a later context wait for the
      file to grow. */
  predicate Allowed(files: seq<File>, op: Oper, started: nat) {
    || started > 0 || op.start == 0 || op.rw >= RWRITE
    || (op.file < |files| && !TooShort(files[op.file], op.start))
  }

  lemma AllowedGrows(before: seq<File>, after: seq<File>, op: Oper, started: nat)
    requires Grown(before, after) && Allowed(before, op, started)
    ensures Allowed(after, op, started)
  {
  }

  ghost predicate Grown(before: seq<File>, after: seq<File>) {
    && |before| == |after|
    && forall f :: 0 <= f < |before| ==> after[f].regular == before[f].regular && before[f].size <= after[f].size
  }

  lemma GrownTwice(a: seq<File>, b: seq<File>, c: seq<File>)
    requires Grown(a, b) && Grown(b, c)
    ensures Grown(a, c)
  {
  }

  /** The context and the record length of every operation are as they were. */
  ghost predicate SameContexts(before: seq<Oper>, after: seq<Oper>) {
    && |before| == |after|
    && forall o: nat :: o < |before| ==>
         after[o].file == before[o].file && after[o].start == before[o].start && after[o].end == before[o].end
         && after[o].reclen == before[o].reclen && after[o].total == before[o].total
  }

  /** Writing its whole context, one operation fills the file up to where the
      other's context starts. */
  predicate Covers(op: Oper, other: Oper) {
    op.file == other.file && op.start == 0 && 0 <= op.total && other.start <= Advance(op.reclen, op.total)
  }

  ghost predicate CoveredAt(opers: seq<Oper>, o: nat)
    requires o < |opers|
  {
    exists b: nat :: b < |opers| && Covers(opers[b], opers[o])
  }

  ghost predicate Covered(opers: seq<Oper>) {
    forall o: nat :: o < |opers| ==> CoveredAt(opers, o)
  }

  /** In the write and the read stage nobody has started anything before a regular
      file reached the start of the context. */
  ghost predicate NoneEarly(opers: seq<Oper>, files: seq<File>) {
    forall o: nat :: o < |opers| && opers[o].rw < 2 && opers[o].started > 0 ==>
      opers[o].file < |files| && (files[opers[o].file].regular ==> opers[o].start <= files[opers[o].file].size)
  }

  /** Starting what is allowed to keeps it so, and so do files that grow. */
  lemma NoneEarlyStays(before: seq<Oper>, after: seq<Oper>, files: seq<File>, grown: seq<File>)
    requires NoneEarly(before, files) && Grown(files, grown) && |before| == |after| && Core(before) == Core(after)
    requires forall o: nat :: o < |before| ==>
               before[o].file < |files| && (after[o].started != before[o].started ==> Allowed(grown, before[o], before[o].started))
    ensures NoneEarly(after, grown)
  {
    hide Core;
    forall o: nat | o < |after| && after[o].rw < 2 && after[o].started > 0
      ensures after[o].file < |grown| && (grown[after[o].file].regular ==> after[o].start <= grown[after[o].file].size)
    {
      CoreMeans(before, o);
      CoreMeans(after, o);
    }
  }

  lemma NoneEarlyUpdate(opers: seq<Oper>, files: seq<File>, o: nat, op: Oper)
    requires NoneEarly(opers, files) && o < |opers|
    requires op.started == 0 || (op.started == opers[o].started && op.rw == opers[o].rw
                                 && op.file == opers[o].file && op.start == opers[o].start)
    ensures NoneEarly(opers[o := op], files)
  {
  }

  predicate IsWrite(rw: nat) { rw == WRITE || rw == RWRITE }

  /** Nothing that is in flight, or will be in this stage, writes. */
  ghost predicate NobodyWrites(opers: seq<Oper>) {
    forall o :: 0 <= o < |opers| ==> !IsWrite(opers[o].rw)
  }

  /** The file has everything up to a byte; what is no regular file has. */
  predicate OnDisk(f: File, upTo: int) {
    f.regular ==> upTo <= f.size
  }

  function AfterWrite(f: File, upTo: int): File {
    if upTo > f.size then f.(size := upTo) else f
  }

  /** The kernel performs a request. */
  function Perform(e: Engine, files: seq<File>, u: nat): seq<File>
    requires u < |e.units| && e.units[u].oper < |e.opers| && e.opers[e.units[u].oper].file < |files|
  {
    var op := e.opers[e.units[u].oper];
    if IsWrite(op.rw) then
      files[op.file := AfterWrite(files[op.file], e.units[u].offset + op.reclen)]
    else files
  }

  /** A submitted write is on disk or still to be performed. */
  ghost predicate Written(e: Engine, files: seq<File>, performed: set<nat>, o: nat, x: int)
    requires o < |e.opers| && e.opers[o].file < |files|
  {
    || OnDisk(files[e.opers[o].file], x + e.opers[o].reclen)
    || exists u :: u in e.inflight && u !in performed && u < |e.units| && e.units[u].oper == o && e.units[u].offset == x
  }

  ghost predicate FilesNamed(e: Engine, files: seq<File>) {
    forall o :: 0 <= o < |e.opers| ==> e.opers[o].file < |files|
  }

  /** No write of the write stage is lost. */
  ghost predicate DiskOk(e: Engine, sent: seq<seq<int>>, files: seq<File>, performed: set<nat>) {
    && performed <= e.inflight && |sent| == |e.opers| && FilesNamed(e, files)
    && forall o: nat, i: nat :: o < |e.opers| && e.opers[o].rw == WRITE && i < |sent[o]| ==>
         Written(e, files, performed, o, sent[o][i])
  }

  lemma NothingWritten(e: Engine, sent: seq<seq<int>>, files: seq<File>)
    requires |sent| == |e.opers| && FilesNamed(e, files)
    requires forall o :: 0 <= o < |sent| ==> sent[o] == []
    ensures DiskOk(e, sent, files, {})
  {
  }

  // --- every step keeps it ------------------------------------------------------------

  lemma GrownKeepsDisk(e: Engine, sent: seq<seq<int>>, files: seq<File>, after: seq<File>, performed: set<nat>)
    requires DiskOk(e, sent, files, performed) && Grown(files, after)
    ensures DiskOk(e, sent, after, performed)
  {
    forall o: nat, i: nat | o < |e.opers| && e.opers[o].rw == WRITE && i < |sent[o]|
      ensures Written(e, after, performed, o, sent[o][i])
    {
      assert Written(e, files, performed, o, sent[o][i]);
    }
  }

  lemma PerformGrows(e: Engine, files: seq<File>, u: nat)
    requires u < |e.units| && e.units[u].oper < |e.opers| && e.opers[e.units[u].oper].file < |files|
    ensures Grown(files, Perform(e, files, u))
    ensures NobodyWrites(e.opers) ==> Perform(e, files, u) == files
  {
  }

  /** How large the files are afterwards: a write of either stage extends its file
      to its own end, if that is further, and nothing else changes. */
  lemma PerformSizes(e: Engine, files: seq<File>, u: nat, f: nat)
    requires u < |e.units| && e.units[u].oper < |e.opers| && e.opers[e.units[u].oper].file < |files|
    requires f < |files|
    ensures var op, end := e.opers[e.units[u].oper], e.units[u].offset + e.opers[e.units[u].oper].reclen;
            var after := Perform(e, files, u);
            && |after| == |files| && after[f].regular == files[f].regular
            && after[f].size == if f == op.file && (op.rw == 0 || op.rw == 2) && end > files[f].size then end else files[f].size
  {
  }

  lemma PerformKeepsDisk(e: Engine, sent: seq<seq<int>>, files: seq<File>, performed: set<nat>, u: nat)
    requires DiskOk(e, sent, files, performed) && u in e.inflight && u < |e.units| && e.units[u].oper < |e.opers|
    ensures DiskOk(e, sent, Perform(e, files, u), performed + {u})
  {
    var after := Perform(e, files, u);
    PerformGrows(e, files, u);
    forall o: nat, i: nat | o < |e.opers| && e.opers[o].rw == WRITE && i < |sent[o]|
      ensures Written(e, after, performed + {u}, o, sent[o][i])
    {
      assert Written(e, files, performed, o, sent[o][i]);
    }
  }

  lemma FinishKeepsDisk(e: Engine, sent: seq<seq<int>>, files: seq<File>, performed: set<nat>, u: nat)
    requires DiskOk(e, sent, files, performed) && u in performed
    requires u < |e.units| && e.units[u].oper < |e.opers| && e.opers[e.units[u].oper].pending > 0
    ensures DiskOk(Finish(e, u), sent, files, performed - {u})
  {
    var d := Finish(e, u);
    forall o: nat, i: nat | o < |d.opers| && d.opers[o].rw == WRITE && i < |sent[o]|
      ensures Written(d, files, performed - {u}, o, sent[o][i])
    {
      assert Written(e, files, performed, o, sent[o][i]);
      if !OnDisk(files[e.opers[o].file], sent[o][i] + e.opers[o].reclen) {
        var v :| v in e.inflight && v !in performed && v < |e.units| && e.units[v].oper == o && e.units[v].offset == sent[o][i];
        assert v in d.inflight && d.units[v].oper == o && d.units[v].offset == sent[o][i];
      }
    }
  }

  lemma BuildKeepsDisk(e: Engine, sent: seq<seq<int>>, files: seq<File>, performed: set<nat>,
                       o: nat, offset: int, lastOffset: int)
    requires DiskOk(e, sent, files, performed) && e.free != [] && o < |e.opers|
    requires e.free[0] < |e.units| && e.free[0] !in e.inflight
    ensures DiskOk(Build(e, o, offset, lastOffset), sent, files, performed)
  {
    var d := Build(e, o, offset, lastOffset);
    forall p: nat, i: nat | p < |d.opers| && d.opers[p].rw == WRITE && i < |sent[p]|
      ensures Written(d, files, performed, p, sent[p][i])
    {
      assert Written(e, files, performed, p, sent[p][i]);
      if !OnDisk(files[e.opers[p].file], sent[p][i] + e.opers[p].reclen) {
        var v :| v in e.inflight && v !in performed && v < |e.units| && e.units[v].oper == p && e.units[v].offset == sent[p][i];
        assert v in d.inflight && d.units[v].oper == p && d.units[v].offset == sent[p][i];
      }
    }
  }

  lemma SubmitKeepsDisk(e: Engine, sent: seq<seq<int>>, files: seq<File>, performed: set<nat>)
    requires DiskOk(e, sent, files, performed) && e.built != []
    requires e.built[0] < |e.units| && e.units[e.built[0]].oper < |e.opers| && e.built[0] !in e.inflight
    ensures DiskOk(Submit(e), SentAfter(e, sent), files, performed)
  {
    var d, after, u := Submit(e), SentAfter(e, sent), e.built[0];
    forall o: nat, i: nat | o < |d.opers| && d.opers[o].rw == WRITE && i < |after[o]|
      ensures Written(d, files, performed, o, after[o][i])
    {
      if i < |sent[o]| {
        assert Written(e, files, performed, o, sent[o][i]) && after[o][i] == sent[o][i];
      } else {
        assert u in d.inflight && d.units[u].oper == o && d.units[u].offset == after[o][i];
      }
    }
  }

  lemma StonewallKeepsDisk(e: Engine, sent: seq<seq<int>>, files: seq<File>, performed: set<nat>, o: nat)
    requires DiskOk(e, sent, files, performed) && o < |e.opers|
    ensures DiskOk(e.(opers := e.opers[o := e.opers[o].(stonewalled := true)]), sent, files, performed)
  {
    var d := e.(opers := e.opers[o := e.opers[o].(stonewalled := true)]);
    forall p: nat, i: nat | p < |d.opers| && d.opers[p].rw == WRITE && i < |sent[p]|
      ensures Written(d, files, performed, p, sent[p][i])
    {
      assert Written(e, files, performed, p, sent[p][i]);
    }
  }

  lemma RestartKeepsDisk(e: Engine, sent: seq<seq<int>>, files: seq<File>, performed: set<nat>, o: nat, rw: nat)
    requires DiskOk(e, sent, files, performed) && o < |e.opers|
    ensures DiskOk(e.(opers := e.opers[o := Restarted(e.opers[o], rw)]), sent[o := []], files, performed)
  {
    var d, after := e.(opers := e.opers[o := Restarted(e.opers[o], rw)]), sent[o := []];
    forall p: nat, i: nat | p < |d.opers| && d.opers[p].rw == WRITE && i < |after[p]|
      ensures Written(d, files, performed, p, after[p][i])
    {
      assert Written(e, files, performed, p, sent[p][i]);
    }
  }

  /** When nothing is left to be performed, a complete write stage has filled its
      file up to where it ends. */
  lemma StageOnDisk(e: Engine, sent: seq<seq<int>>, files: seq<File>, o: nat)
    requires Good(e, sent) && DiskOk(e, sent, files, e.inflight) && e.built == []
    requires o < |e.opers| && e.opers[o].rw == WRITE && e.opers[o].started == e.opers[o].total > 0
    ensures OnDisk(files[e.opers[o].file], e.opers[o].start + Advance(e.opers[o].reclen, e.opers[o].total))
  {
    var op := e.opers[o];
    assert PlanOk(e, o, sent[o]);
    assert sent[o] + [] == sent[o];
    SequentialLength(op.start, op.reclen, op.total - 1);
    assert sent[o][op.total - 1] == op.start + Advance(op.reclen, op.total - 1);
    assert Written(e, files, e.inflight, o, sent[o][op.total - 1]);
  }
}
