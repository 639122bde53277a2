// One aio-stress thread: free list, partial submission with retry, and the
// rounds over the list of operations, against a kernel that may accept any
// part of what is submitted and complete it in any order.
module AioThread {
  import opened AioCounts
  import opened AioFiles
  import opened AioModel
  import opened Arithmetic
  import RandomOffset

  class Thread {
    const ioIter: nat
    const mask: nat

    /** There are no other threads that could write to the files. */
    const alone: bool
    const units: array<Unit>
    const opers: array<Oper>
    const iocbs: array<nat>

    var freeHead: int
    var globalPending: nat

    /** The kernel's side: the requests in flight and those of them that are
        performed, the files, and how many more looks it may take until the next
        request is performed. */
    var inflight: set<nat>
    var performed: set<nat>
    var files: seq<File>
    var delay: nat

    ghost var free: seq<nat>
    ghost var built: seq<nat>
    ghost var sent: seq<seq<int>>

    /** setup_ious: all units zeroed and linked into the free list. */
    constructor (numUnits: nat, ops: seq<Oper>, ioIter: nat, maxSubmit: nat, mask: nat, files: seq<File>, alone: bool)
      requires 1 <= ioIter && forall o :: 0 <= o < |ops| ==> Untouched(ops[o]) && ops[o].file < |files|
      ensures Valid() && built == [] && opers[..] == ops
      ensures this.ioIter == ioIter && this.mask == mask && this.alone == alone && this.files == files
      ensures inflight == {} && units.Length == numUnits && iocbs.Length == maxSubmit
      ensures forall o :: 0 <= o < |sent| ==> sent[o] == []
      ensures fresh(units) && fresh(opers) && fresh(iocbs)
    {
      hide Good, DiskOk, Untouched, Down, Head;
      this.ioIter, this.mask, this.alone, this.files := ioIter, mask, alone, files;
      units := new Unit[numUnits](_ => Unit(false, 0, 0, 0));
      opers := new Oper[|ops|](o requires 0 <= o < |ops| => ops[o]);
      iocbs := new nat[maxSubmit];
      freeHead, globalPending, inflight, performed, delay := -1, 0, {}, {}, 0;
      free, built, sent := Down(numUnits), [], seq(|ops|, _ => []);
      new;
      LinkUnits();
      assert opers[..] == ops;
      FreshThread(View(), sent, files);
    }

    /** The linking loop of setup_ious. */
    method LinkUnits()
      requires freeHead == -1 && forall u: nat :: u < units.Length ==> !units[u].busy
      modifies `freeHead, units
      ensures freeHead == units.Length - 1
      ensures forall u: nat :: u < units.Length ==> !units[u].busy && units[u].next == u - 1
    {
      for i := 0 to units.Length
        invariant freeHead == i - 1 && forall u: nat :: u < units.Length ==> !units[u].busy
        invariant forall u: nat :: u < i ==> units[u].next == u - 1
      {
        units[i] := units[i].(next := freeHead);
        freeHead := i;
      }
    }

    lemma FreshThread(e: Engine, s: seq<seq<int>>, fs: seq<File>)
      requires forall u: nat :: u < |e.units| ==> !e.units[u].busy && e.units[u].next == u - 1
      requires e.free == Down(|e.units|) && e.built == [] && e.inflight == {}
      requires forall o :: 0 <= o < |e.opers| ==> Untouched(e.opers[o]) && e.opers[o].file < |fs|
      requires |s| == |e.opers| && forall o :: 0 <= o < |s| ==> s[o] == []
      ensures Good(e, s) && DiskOk(e, s, fs, {}) && Head(e.free) == |e.units| - 1
    {
      hide Good, DiskOk, Untouched;
      FreshIsGood(e.mask, e.units, e.opers, s);
      assert e == Engine(e.mask, e.units, e.opers, Down(|e.units|), [], {});
      NothingWritten(e, s, fs);
    }

    ghost function View(): Engine
      reads this, units, opers
    {
      Engine(mask, units[..], opers[..], free, built, inflight)
    }

    ghost predicate Linked()
      reads this, units, opers
    {
      && 1 <= ioIter && Good(View(), sent) && freeHead == Head(free)
      && DiskOk(View(), sent, files, performed)
    }

    ghost predicate Valid()
      reads this, units, opers
    {
      Linked() && globalPending == |inflight|
    }

    /** Nothing has changed that the rounds over the operations look at. */
    twostate predicate SameProgress()
      reads this, units, opers
    {
      && built == old(built) && sent == old(sent)
      && Core(opers[..]) == old(Core(opers[..])) && Starts(opers[..]) == old(Starts(opers[..]))
      && Counts(View()) == old(Counts(View()))
    }

    /** The files have only grown, and not without a write of this thread in
        flight or another thread. */
    twostate predicate DiskMoves()
      reads this, opers
    {
      Grown(old(files), files) && (alone && NobodyWrites(Core(opers[..])) ==> files == old(files))
    }

    twostate lemma FilesStay()
      requires files == old(files)
      ensures DiskMoves()
    {
    }

    // --- the kernel ------------------------------------------------------------------

    /** The kernel performs one of the requests in flight. */
    method PerformOne(u: nat)
      requires Valid() && u in inflight && u !in performed
      modifies `files, `performed
      ensures Valid() && DiskMoves() && performed == old(performed) + {u}
    {
      hide DiskOk, Good, Core;
      ghost var before := View();
      InFlightNamed(before, sent, u);
      FilesAreNamed(before, sent, files, performed);
      PerformGrows(before, files, u);
      PerformKeepsDisk(before, sent, files, performed, u);
      CoreWrites(opers[..]);
      var op := opers[units[u].oper];
      if IsWrite(op.rw) {
        files := files[op.file := AfterWrite(files[op.file], units[u].offset + op.reclen)];
      }
      assert files == Perform(before, old(files), u);
      performed := performed + {u};
    }

    lemma InFlightNamed(e: Engine, s: seq<seq<int>>, u: nat)
      requires Good(e, s) && u in e.inflight
      ensures u < |e.units| && e.units[u].oper < |e.opers|
    {
      InFlightPending(e, u);
    }

    lemma FilesAreNamed(e: Engine, s: seq<seq<int>>, fs: seq<File>, done: set<nat>)
      requires DiskOk(e, s, fs, done)
      ensures done <= e.inflight && forall o :: 0 <= o < |e.opers| ==> e.opers[o].file < |fs|
    {
    }

    lemma CoreWrites(ops: seq<Oper>)
      ensures NobodyWrites(Core(ops)) <==> NobodyWrites(ops)
    {
      forall o | 0 <= o < |ops|
        ensures Core(ops)[o].rw == ops[o].rw
      {
        CoreMeans(ops, o);
      }
    }

    /** Other threads write whatever they like. */
    method OthersWrite()
      requires Valid() && !alone
      modifies `files
      ensures Valid() && DiskMoves()
    {
      hide DiskOk, Good, Core;
      for f := 0 to |files|
        invariant |files| == |old(files)| && Valid() && Grown(old(files), files)
      {
        var upTo: int := *;
        GrownKeepsDisk(View(), sent, files, files[f := AfterWrite(files[f], upTo)], performed);
        files := files[f := AfterWrite(files[f], upTo)];
      }
    }

    /** What may happen until the next look at a file: the kernel performs any
        requests, at least one when it has waited long enough, and other threads
        may write. */
    method KernelTurn()
      requires Valid()
      modifies `files, `performed, `delay
      ensures Valid() && DiskMoves()
      ensures old(performed) <= performed
      ensures old(inflight != performed) ==>
                Waiting() < old(Waiting()) || (performed == old(performed) && delay < old(delay))
      ensures old(inflight == performed) ==> performed == old(performed) && delay == old(delay)
      ensures old(inflight == performed) && alone ==> files == old(files)
    {
      hide DiskOk, Good, Core;
      FilesAreNamed(View(), sent, files, performed);
      if !alone {
        OthersWrite();
      }
      if inflight != performed {
        var some: int := *;
        var n := Min(if some > 0 then some else if delay == 0 then 1 else 0, Waiting());
        PerformSome(n);
        if n == 0 {
          delay := delay - 1;
        } else {
          var looks: int := *;
          delay := Abs(looks);
        }
      }
    }

    /** How many requests are in flight and not performed. */
    function Waiting(): (n: nat)
      reads `inflight, `performed
      ensures inflight != performed && performed <= inflight ==> n > 0
    {
      if inflight != performed && performed <= inflight then
        SomeWaits(inflight, performed);
        |inflight - performed|
      else |inflight - performed|
    }

    lemma SomeWaits(a: set<nat>, b: set<nat>)
      requires b < a
      ensures |a - b| > 0
    {
      var u :| u in a && u !in b;
      assert u in a - b;
    }

    method PerformSome(n: nat)
      requires Valid() && n <= Waiting()
      modifies `files, `performed
      ensures Valid() && DiskMoves() && old(performed) <= performed
      ensures Waiting() == old(Waiting()) - n && (n == 0 ==> performed == old(performed))
    {
      hide DiskOk, Good, Core;
      for i := 0 to n
        invariant Valid() && DiskMoves() && old(performed) <= performed
        invariant Waiting() == old(Waiting()) - i && (i == 0 ==> performed == old(performed))
      {
        var u :| u in inflight - performed;
        assert inflight - (performed + {u}) == inflight - performed - {u};
        PerformOne(u);
      }
    }

    // --- completion ------------------------------------------------------------------

    /** finish_io, for a request the kernel gives back. */
    method FinishIo(u: nat)
      requires Valid() && u in performed && u in inflight
      modifies this, units, opers
      ensures Valid() && SameProgress() && files == old(files)
      ensures inflight == old(inflight) - {u} && free == [u] + old(free)
      ensures forall p: nat :: p < opers.Length ==> opers[p].pending <= old(opers[p].pending)
    {
      hide DiskOk, Good, PlanOk, Core, Starts, Counts;
      ghost var before := View();
      FinishKeepsGood(before, sent, u);
      FinishKeepsDisk(before, sent, files, performed, u);
      assert Inv(before) by { GoodIsInv(before, sent); }
      FinishSeen(before, u);
      var o := units[u].oper;
      units[u] := units[u].(busy := false, next := freeHead);
      freeHead := u;
      opers[o] := opers[o].(pending := opers[o].pending - 1);
      globalPending := globalPending - 1;
      inflight := inflight - {u};
      performed := performed - {u};
      free := [u] + free;
      assert View() == Finish(before, u);
    }

    /** The kernel gives back a request, which it has performed by then. */
    method GiveBack(u: nat)
      requires Valid() && u in inflight
      modifies this, units, opers
      ensures Valid() && SameProgress() && DiskMoves()
      ensures inflight == old(inflight) - {u} && free == [u] + old(free)
      ensures forall p: nat :: p < opers.Length ==> opers[p].pending <= old(opers[p].pending)
    {
      hide DiskOk, Good, Core, Starts, Counts;
      if u !in performed {
        PerformOne(u);
      }
      FinishIo(u);
    }

    /** read_some_events: the kernel gives back at least min_nr requests, any of
        those in flight. */
    method ReadSomeEvents() returns (nr: nat)
      requires Valid()
      modifies this, units, opers
      ensures Valid() && SameProgress() && DiskMoves()
      ensures Min(ioIter, old(globalPending)) <= nr && |inflight| == |old(inflight)| - nr
      ensures nr > 0 ==> free != []
    {
      hide DiskOk, Good, Core, Starts, Counts;
      var minNr := Min(ioIter, globalPending);
      nr :| minNr <= nr <= |inflight|;
      for i := 0 to nr
        invariant Valid() && SameProgress() && DiskMoves()
        invariant |inflight| == |old(inflight)| - i && (i > 0 ==> free != [])
      {
        var u :| u in inflight;
        GiveBack(u);
      }
    }

    /** The retry loop of find_iou: there is a free unit in the end, because the
        units built so far are not all there are. */
    method FindIou()
      requires Valid() && |built| < units.Length
      modifies this, units, opers
      ensures Valid() && SameProgress() && DiskMoves() && free != []
    {
      hide DiskOk, Good, Core, Starts, Counts;
      while freeHead == -1
        invariant Valid() && SameProgress() && DiskMoves()
        decreases |inflight|
      {
        HeadOfEmpty(View(), sent);
        FreeOrInFlightGood(View(), sent);
        var nr := ReadSomeEvents();
        assert nr > 0;
      }
    }

    lemma HeadOfEmpty(e: Engine, s: seq<seq<int>>)
      requires Good(e, s) && Head(e.free) == -1
      ensures e.free == []
    {
    }

    lemma FreeOrInFlightGood(e: Engine, s: seq<seq<int>>)
      requires Good(e, s) && |e.built| < |e.units|
      ensures e.free != [] || e.inflight != {}
    {
      FreeOrInFlight(e);
    }

    lemma GoodIsInv(e: Engine, s: seq<seq<int>>)
      requires Good(e, s)
      ensures Inv(e)
    {
    }

    // --- building ----------------------------------------------------------------------

    /** Takes the head of the free list, which is never busy, for one request. */
    method TakeUnit(o: nat, offset: int, lastOffset: int) returns (u: nat)
      requires Valid() && |sent| == opers.Length && CanBuild(View(), sent, o, offset, lastOffset)
      modifies this, units, opers
      ensures Valid() && built == old(built) + [u] && sent == old(sent)
      ensures inflight == old(inflight) && performed == old(performed) && files == old(files) && delay == old(delay)
      ensures Core(opers[..]) == old(Core(opers[..])) && Starts(opers[..]) == old(Starts(opers[..]))
      ensures Counts(View()) == old(Counts(View()))[o := old(Counts(View()))[o] + 1]
    {
      hide DiskOk, Good, PlanOk, Core, Starts, Counts, DrawnIn, BuiltOf;
      ghost var before := View();
      BuildKeepsGood(before, sent, o, offset, lastOffset);
      BuildSeen(before, sent, o, offset, lastOffset);
      NotBusy(before, sent);
      BuildKeepsDisk(before, sent, files, performed, o, offset, lastOffset);
      u := freeHead;
      assert !units[u].busy;
      freeHead := units[u].next;
      units[u] := Unit(true, o, offset, units[u].next);
      opers[o] := opers[o].(lastOffset := lastOffset);
      free := free[1..];
      built := built + [u];
      assert View() == Build(before, o, offset, lastOffset);
    }

    /** build_iocb: the next offset of the operation, or one drawn for it. */
    method BuildIocb(o: nat) returns (u: nat)
      requires Valid() && |built| < units.Length && o < opers.Length
      requires Starts(opers[..])[o] + Counts(View())[o] < opers[o].total
      modifies this, units, opers
      ensures Valid() && built == old(built) + [u] && sent == old(sent) && DiskMoves()
      ensures Core(opers[..]) == old(Core(opers[..])) && Starts(opers[..]) == old(Starts(opers[..]))
      ensures Counts(View()) == old(Counts(View()))[o := old(Counts(View()))[o] + 1]
    {
      hide DiskOk, Good, PlanOk, Core, Starts, Counts;
      CoreMeans(opers[..], o);
      FindIou();
      CoreMeans(opers[..], o);
      StartedIsSent(View(), sent, o);
      var offset, lastOffset := opers[o].lastOffset, opers[o].lastOffset + opers[o].reclen;
      if !IsSequential(opers[o].rw) {
        var draw1: nat, draw2: nat :| RandomOffset.Draws(draw1, draw2);
        offset := RandomOffset.RandomByteOffset(opers[o].start, opers[o].end, opers[o].reclen, mask, draw1, draw2);
        lastOffset := offset;
      }
      u := TakeUnit(o, offset, lastOffset);
    }

    lemma StartedIsSent(e: Engine, s: seq<seq<int>>, o: nat)
      requires Good(e, s) && o < |e.opers|
      ensures |s| == |e.opers| && Starts(e.opers)[o] == |s[o]|
      ensures Counts(e)[o] == |BuiltOf(e.units, e.built, o)|
    {
      assert PlanOk(e, o, s[o]);
    }

    /** The abort for a busy unit on the free list cannot happen. */
    lemma NotBusy(e: Engine, s: seq<seq<int>>)
      requires Good(e, s) && e.free != []
      ensures e.free[0] < |e.units| && !e.units[e.free[0]].busy && e.free[0] !in e.inflight
      ensures e.units[e.free[0]].next == Head(e.free[1..])
    {
      assert e.free[0] in e.free;
    }

    /** build_oper: up to io_iter further requests of one operation, into
        iocbs from pos on; no write passes the end of iocbs. */
    method BuildOper(o: nat, pos: nat) returns (n: nat)
      requires Valid() && o < opers.Length && |built| == pos
      requires Starts(opers[..])[o] < opers[o].total && Counts(View())[o] == 0
      requires opers[o].started + ioIter <= INT_MAX
      requires pos + ioIter <= iocbs.Length && pos + ioIter <= units.Length
      requires forall i :: 0 <= i < pos ==> iocbs[i] == built[i]
      modifies this, units, opers, iocbs
      ensures Valid() && sent == old(sent) && DiskMoves()
      ensures 1 <= n <= ioIter && |built| == pos + n
      ensures forall i :: 0 <= i < pos + n ==> iocbs[i] == built[i]
      ensures Core(opers[..]) == old(Core(opers[..])) && Starts(opers[..]) == old(Starts(opers[..]))
      ensures Counts(View()) == old(Counts(View()))[o := n]
      ensures n == Chunk(ioIter, opers[o].total - opers[o].started)
    {
      hide DiskOk, Good, Core, Counts;
      CoreMeans(opers[..], o);
      var num := ioIter;
      if opers[o].started + num > opers[o].total {
        num := opers[o].total - opers[o].started;
      }
      n := num;
      for i := 0 to num
        invariant Valid() && sent == old(sent) && DiskMoves() && |built| == pos + i
        invariant forall k :: 0 <= k < pos + i ==> iocbs[k] == built[k]
        invariant Core(opers[..]) == old(Core(opers[..])) && Starts(opers[..]) == old(Starts(opers[..]))
        invariant Counts(View()) == old(Counts(View()))[o := i]
      {
        CoreMeans(opers[..], o);
        var u := BuildIocb(o);
        iocbs[pos + i] := u;
      }
      CoreMeans(opers[..], o);
    }

    // --- submission ----------------------------------------------------------------------

    /** update_iou_counters for the first built request, which the kernel took. */
    method TakeOne(u: nat)
      requires Linked() && built != [] && u == built[0]
      modifies `sent, `inflight, `built, opers
      ensures Linked() && built == old(built)[1..] && |inflight| == |old(inflight)| + 1
      ensures Core(opers[..]) == old(Core(opers[..])) && Claims(View()) == old(Claims(View()))
    {
      hide DiskOk, Good, Core, Starts, Counts, Claims, PlanOk;
      ghost var before := View();
      SubmitKeepsGood(before, sent);
      SubmitKeepsDisk(before, sent, files, performed);
      SubmitSeen(before);
      SubmitClaims(before);
      SentLength(before, sent);
      var o := units[u].oper;
      sent := SentAfter(before, sent);
      opers[o] := opers[o].(pending := opers[o].pending + 1, started := opers[o].started + 1);
      inflight := inflight + {u};
      built := built[1..];
      assert View() == Submit(before);
    }

    /** The kernel took k of the built requests, and update_iou_counters counts
        them with their operations. */
    method TakeAndCount(from: nat, k: nat)
      requires Valid() && k <= |built| && from + |built| <= iocbs.Length
      requires forall i :: 0 <= i < |built| ==> iocbs[from + i] == built[i]
      modifies this, units, opers
      ensures Valid() && built == old(built)[k..] && |inflight| == |old(inflight)| + k && files == old(files)
      ensures Core(opers[..]) == old(Core(opers[..]))
      ensures Claims(View()) == old(Claims(View()))
    {
      hide DiskOk, Good, Core, Claims;
      ghost var all := built;
      for i := 0 to k
        invariant Linked() && built == all[i..] && globalPending == old(globalPending) && files == old(files)
        invariant |inflight| == |old(inflight)| + i
        invariant Core(opers[..]) == old(Core(opers[..])) && Claims(View()) == old(Claims(View()))
      {
        assert iocbs[from + i] == all[i] == built[0];
        TakeOne(iocbs[from + i]);
      }
      globalPending := globalPending + k;
    }

    lemma SentLength(e: Engine, s: seq<seq<int>>)
      requires Good(e, s)
      ensures |s| == |e.opers|
    {
    }

    /** One io_submit of what is built, and if the kernel did not take it all, the
        completions it has by then. It refuses with EAGAIN only while something is
        in flight, so that the abort is not reached. */
    method SubmitSome(from: nat, num: nat) returns (ret: nat)
      requires Valid() && num == |built| > 0 && from + |built| <= iocbs.Length
      requires forall i :: 0 <= i < |built| ==> iocbs[from + i] == built[i]
      modifies this, units, opers
      ensures Valid() && ret <= num && built == old(built)[ret..] && DiskMoves()
      ensures ret == 0 ==> |inflight| < |old(inflight)|
      ensures Core(opers[..]) == old(Core(opers[..])) && Claims(View()) == old(Claims(View()))
    {
      hide DiskOk, Good, Core, Starts, Counts, Claims;
      ret := 0;
      var eagain: bool := *;
      if inflight == {} || !eagain {
        ret :| 1 <= ret <= num;
      }
      TakeAndCount(from, ret);
      if ret != num {
        ghost var before := View();
        var nr := ReadSomeEvents();
        SameClaims(View(), before);
        assert nr > 0;
      }
    }

    /** run_built: submits everything built, however little the kernel takes at a
        time. */
    method RunBuilt(num: nat)
      requires Valid() && num == |built| > 0 && num <= iocbs.Length
      requires forall i :: 0 <= i < num ==> iocbs[i] == built[i]
      modifies this, units, opers
      ensures Valid() && built == [] && DiskMoves()
      ensures Core(opers[..]) == old(Core(opers[..]))
      ensures Claims(View()) == old(Claims(View()))
    {
      hide Valid, Core, Claims;
      var from := 0;
      while from < num
        invariant Valid() && from <= num && |built| == num - from && DiskMoves()
        invariant forall i :: 0 <= i < |built| ==> iocbs[from + i] == built[i]
        invariant Core(opers[..]) == old(Core(opers[..])) && Claims(View()) == old(Claims(View()))
        decreases |built|, |inflight|
      {
        var ret := SubmitSome(from, num - from);
        from := from + ret;
      }
    }

    // --- waiting, stonewalling, restarting ------------------------------------------------

    /** io_oper_wait: takes completions one at a time until none of this
        operation is in flight. */
    method IoOperWait(o: nat)
      requires Valid() && o < opers.Length
      modifies this, units, opers
      ensures Valid() && SameProgress() && DiskMoves() && opers[o].pending == 0
      ensures forall p: nat :: p < opers.Length ==> opers[p].pending <= old(opers[p].pending)
    {
      hide DiskOk, Good, Core, Starts, Counts;
      while opers[o].pending != 0
        invariant Valid() && SameProgress() && DiskMoves()
        invariant forall p: nat :: p < opers.Length ==> opers[p].pending <= old(opers[p].pending)
        decreases |inflight|
      {
        PendingInFlight(View(), sent, o);
        var u :| u in inflight;
        GiveBack(u);
      }
    }

    lemma PendingInFlight(e: Engine, s: seq<seq<int>>, o: nat)
      requires Good(e, s) && o < |e.opers| && e.opers[o].pending != 0
      ensures e.inflight != {}
    {
      assert |InFlightOf(e, o)| != 0;
      var u :| u in InFlightOf(e, o);
      assert u in e.inflight;
    }

    method SetStonewalled(o: nat)
      requires Valid() && o < opers.Length && built == []
      modifies opers
      ensures Valid() && sent == old(sent) && Starts(opers[..]) == old(Starts(opers[..]))
      ensures opers[..] == old(opers[..])[o := old(opers[o]).(stonewalled := true)]
    {
      hide DiskOk, Good;
      ghost var before := View();
      opers[o] := opers[o].(stonewalled := true);
      assert View() == before.(opers := before.opers[o := before.opers[o].(stonewalled := true)]);
      StonewallKeepsGood(before, sent, o);
      StonewallKeepsDisk(before, sent, files, performed, o);
      assert opers[..] == old(opers[..])[o := old(opers[o]).(stonewalled := true)];
    }

    /** The fields restart_oper resets when there is a next stage. */
    method ResetOper(o: nat, rw: nat)
      requires Valid() && o < opers.Length && built == []
      modifies `sent, opers
      ensures Valid() && sent == old(sent)[o := []]
      ensures opers[..] == old(opers[..])[o := Restarted(old(opers[o]), rw)]
    {
      hide DiskOk, Good;
      ghost var before := View();
      opers[o] := opers[o].(started := 0, lastOffset := opers[o].start, stonewalled := false);
      opers[o] := opers[o].(rw := rw);
      SentLength(before, sent);
      RestartKeepsGood(before, sent, o, rw);
      RestartKeepsDisk(before, sent, files, performed, o, rw);
      sent := sent[o := []];
      assert View() == before.(opers := before.opers[o := Restarted(before.opers[o], rw)]);
      assert opers[..] == old(opers[..])[o := Restarted(old(opers[o]), rw)];
    }
  }
}
