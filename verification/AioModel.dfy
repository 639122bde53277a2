// The I/O units and operations of one aio-stress thread as values: what it
// means to build, submit and finish a request, and what every such step keeps.
module AioModel {
  import opened AioCounts
  import opened Arithmetic
  import RandomOffset

  /** An io_unit: its owner, the offset it was prepared for, and its link in the
      free list (-1 at the end). */
  datatype Unit = Unit(busy: bool, oper: nat, offset: int, next: int)

  /** An io_oper; file stands for its descriptor. */
  datatype Oper = Oper(file: nat, start: int, end: int, reclen: int, rw: nat, total: int,
                       pending: nat, started: nat, lastOffset: int, stonewalled: bool)

  const WRITE: nat := 0
  const READ: nat := 1
  const RWRITE: nat := 2
  const RREAD: nat := 3

  /** The units, the operations, and where each unit is: on the free list, built
      but not yet submitted, or in flight. mask is the alignment of offsets. */
  datatype Engine = Engine(mask: nat, units: seq<Unit>, opers: seq<Oper>, free: seq<nat>, built: seq<nat>, inflight: set<nat>)

  // --- the invariant ---------------------------------------------------------------

  ghost predicate Distinct(s: seq<nat>) {
    forall i, j :: 0 <= i < j < |s| ==> s[i] != s[j]
  }

  /** Each unit is in exactly one place, once. */
  ghost predicate Partition(e: Engine) {
    && Distinct(e.free) && Distinct(e.built)
    && (forall u :: u in e.free ==> u < |e.units| && u !in e.built && u !in e.inflight)
    && (forall u :: u in e.built ==> u < |e.units| && u !in e.inflight)
    && (forall u :: u in e.inflight ==> u < |e.units|)
    && (forall u: nat :: u < |e.units| ==> u in e.free || u in e.built || u in e.inflight)
  }

  ghost predicate BusyOk(e: Engine) {
    forall u: nat :: u < |e.units| ==> (e.units[u].busy <==> u !in e.free)
  }

  function Head(free: seq<nat>): int { if free == [] then -1 else free[0] }

  /** The free list is linked through the units. */
  ghost predicate Chained(e: Engine) {
    forall i :: 0 <= i < |e.free| ==> e.free[i] < |e.units| && e.units[e.free[i]].next == Head(e.free[i + 1..])
  }

  ghost predicate Owned(e: Engine) {
    forall u: nat :: u < |e.units| && (u in e.built || u in e.inflight) ==> e.units[u].oper < |e.opers|
  }

  ghost function InFlightOf(e: Engine, o: nat): set<nat> {
    set u | u in e.inflight && u < |e.units| && e.units[u].oper == o
  }

  ghost predicate PendingOk(e: Engine) {
    forall o: nat :: o < |e.opers| ==> e.opers[o].pending == |InFlightOf(e, o)|
  }

  ghost predicate Inv(e: Engine) {
    Partition(e) && BusyOk(e) && Chained(e) && Owned(e) && PendingOk(e)
  }

  // --- the steps ----------------------------------------------------------------------

  /** build_iocb with a unit from the free list, for the given offset. */
  function Build(e: Engine, o: nat, offset: int, lastOffset: int): Engine
    requires e.free != [] && e.free[0] < |e.units| && o < |e.opers|
  {
    var u := e.free[0];
    e.(units := e.units[u := Unit(true, o, offset, e.units[u].next)],
       opers := e.opers[o := e.opers[o].(lastOffset := lastOffset)],
       free := e.free[1..],
       built := e.built + [u])
  }

  /** The kernel takes the first built request; its operation counts it. */
  function Submit(e: Engine): Engine
    requires e.built != [] && e.built[0] < |e.units| && e.units[e.built[0]].oper < |e.opers|
  {
    var u := e.built[0];
    var o := e.units[u].oper;
    var op := e.opers[o];
    e.(opers := e.opers[o := op.(pending := op.pending + 1, started := op.started + 1)],
       built := e.built[1..],
       inflight := e.inflight + {u})
  }

  /** finish_io. */
  function Finish(e: Engine, u: nat): Engine
    requires u < |e.units| && e.units[u].oper < |e.opers| && e.opers[e.units[u].oper].pending > 0
  {
    var o := e.units[u].oper;
    var op := e.opers[o];
    e.(units := e.units[u := e.units[u].(busy := false, next := Head(e.free))],
       opers := e.opers[o := op.(pending := op.pending - 1)],
       free := [u] + e.free,
       inflight := e.inflight - {u})
  }

  // --- each step keeps the invariant ------------------------------------------------------

  lemma BuildKeepsChain(e: Engine, o: nat, offset: int, lastOffset: int)
    requires Inv(e) && e.free != [] && o < |e.opers| && e.free[0] < |e.units|
    ensures Chained(Build(e, o, offset, lastOffset))
  {
    hide Partition, BusyOk, Owned, PendingOk;
    var d := Build(e, o, offset, lastOffset);
    forall i | 0 <= i < |d.free|
      ensures d.free[i] < |d.units| && d.units[d.free[i]].next == Head(d.free[i + 1..])
    {
      assert d.free[i] == e.free[i + 1] && d.free[i + 1..] == e.free[i + 2..];
    }
  }

  lemma BuildKeepsPartition(e: Engine, o: nat, offset: int, lastOffset: int)
    requires Inv(e) && e.free != [] && o < |e.opers|
    ensures e.free[0] < |e.units| && e.free[0] !in e.built && e.free[0] !in e.inflight
    ensures var d := Build(e, o, offset, lastOffset);
            Partition(d) && BusyOk(d) && Owned(d)
  {
    hide Chained, PendingOk;
    assert e.free[0] in e.free;
    TailMembers(e.free);
  }

  lemma BuildKeepsInv(e: Engine, o: nat, offset: int, lastOffset: int)
    requires Inv(e) && e.free != [] && o < |e.opers|
    ensures e.free[0] < |e.units|
    ensures Inv(Build(e, o, offset, lastOffset))
  {
    hide Partition, BusyOk, Owned, Chained;
    BuildKeepsPartition(e, o, offset, lastOffset);
    BuildKeepsChain(e, o, offset, lastOffset);
    var d := Build(e, o, offset, lastOffset);
    forall p: nat | p < |d.opers|
      ensures d.opers[p].pending == |InFlightOf(d, p)|
    {
      assert InFlightOf(d, p) == InFlightOf(e, p);
    }
  }

  lemma TailMembers(s: seq<nat>)
    requires s != [] && Distinct(s)
    ensures Distinct(s[1..]) && forall u :: u in s <==> u == s[0] || u in s[1..]
    ensures s[0] !in s[1..]
  {
    assert s == [s[0]] + s[1..];
  }

  lemma SubmitKeepsPartition(e: Engine)
    requires Inv(e) && e.built != []
    ensures e.built[0] < |e.units| && e.units[e.built[0]].oper < |e.opers|
    ensures e.built[0] !in e.inflight
    ensures var d := Submit(e); Partition(d) && BusyOk(d) && Owned(d) && Chained(d)
  {
    assert e.built[0] in e.built;
    TailMembers(e.built);
  }

  lemma SubmitKeepsInv(e: Engine)
    requires Inv(e) && e.built != []
    ensures e.built[0] < |e.units| && e.units[e.built[0]].oper < |e.opers|
    ensures Inv(Submit(e))
  {
    hide Partition, BusyOk, Owned, Chained;
    SubmitKeepsPartition(e);
    forall p: nat | p < |e.opers|
      ensures Submit(e).opers[p].pending == |InFlightOf(Submit(e), p)|
    {
      SubmitKeepsPending(e, p);
    }
  }

  lemma SubmitKeepsPending(e: Engine, p: nat)
    requires e.built != [] && e.built[0] < |e.units| && e.units[e.built[0]].oper < |e.opers|
    requires e.built[0] !in e.inflight && p < |e.opers| && e.opers[p].pending == |InFlightOf(e, p)|
    ensures Submit(e).opers[p].pending == |InFlightOf(Submit(e), p)|
  {
    hide Inv, Partition;
    var u := e.built[0];
    assert u !in InFlightOf(e, p);
    if p == e.units[u].oper {
      assert InFlightOf(Submit(e), p) == InFlightOf(e, p) + {u};
    } else {
      assert InFlightOf(Submit(e), p) == InFlightOf(e, p);
    }
  }

  lemma InFlightPending(e: Engine, u: nat)
    requires Inv(e) && u in e.inflight
    ensures u < |e.units| && e.units[u].oper < |e.opers|
    ensures e.opers[e.units[u].oper].pending > 0
  {
    assert u in InFlightOf(e, e.units[u].oper);
  }

  lemma ConsMembers(u: nat, s: seq<nat>)
    requires Distinct(s) && u !in s
    ensures Distinct([u] + s) && forall v :: v in [u] + s <==> v == u || v in s
  {
    var t := [u] + s;
    assert t[1..] == s;
    forall i, j | 0 <= i < j < |t|
      ensures t[i] != t[j]
    {
      assert t[j] == s[j - 1];
    }
  }

  lemma FinishKeepsPartition(e: Engine, u: nat)
    requires Inv(e) && u in e.inflight
    ensures u < |e.units| && e.units[u].oper < |e.opers| && e.opers[e.units[u].oper].pending > 0
    ensures var d := Finish(e, u); Partition(d) && BusyOk(d) && Owned(d)
  {
    hide Distinct, Chained, PendingOk;
    InFlightPending(e, u);
    ConsMembers(u, e.free);
  }

  lemma FinishKeepsChain(e: Engine, u: nat)
    requires Inv(e) && u in e.inflight && u < |e.units| && e.units[u].oper < |e.opers| && e.opers[e.units[u].oper].pending > 0
    ensures Chained(Finish(e, u))
  {
    var d := Finish(e, u);
    forall i | 0 <= i < |d.free|
      ensures d.free[i] < |d.units| && d.units[d.free[i]].next == Head(d.free[i + 1..])
    {
      if i == 0 {
        assert d.free[1..] == e.free;
      } else {
        assert d.free[i] == e.free[i - 1] && d.free[i + 1..] == e.free[i..];
        assert e.free[i - 1] in e.free;
      }
    }
  }

  lemma FinishKeepsInv(e: Engine, u: nat)
    requires Inv(e) && u in e.inflight
    ensures u < |e.units| && e.units[u].oper < |e.opers| && e.opers[e.units[u].oper].pending > 0
    ensures Inv(Finish(e, u))
  {
    hide Partition, BusyOk, Owned, Chained;
    FinishKeepsPartition(e, u);
    FinishKeepsChain(e, u);
    forall p: nat | p < |e.opers|
      ensures Finish(e, u).opers[p].pending == |InFlightOf(Finish(e, u), p)|
    {
      FinishKeepsPending(e, u, p);
    }
  }

  lemma FinishKeepsPending(e: Engine, u: nat, p: nat)
    requires u < |e.units| && e.units[u].oper < |e.opers| && e.opers[e.units[u].oper].pending > 0
    requires u in e.inflight && p < |e.opers| && e.opers[p].pending == |InFlightOf(e, p)|
    ensures Finish(e, u).opers[p].pending == |InFlightOf(Finish(e, u), p)|
  {
    if p == e.units[u].oper {
      assert InFlightOf(Finish(e, u), p) == InFlightOf(e, p) - {u};
    } else {
      assert InFlightOf(Finish(e, u), p) == InFlightOf(e, p);
    }
  }

  // --- a unit can always be found --------------------------------------------------------------

  lemma {:induction false} Pigeonhole(s: seq<nat>, n: nat)
    requires forall u: nat :: u < n ==> u in s
    ensures n <= |s|
    decreases n
  {
    if n > 0 {
      var last := n - 1;
      assert last in s;
      var i :| 0 <= i < |s| && s[i] == last;
      var t := s[..i] + s[i + 1..];
      assert s == s[..i] + [last] + s[i + 1..];
      forall u: nat | u < last
        ensures u in t
      {
        assert u in s;
      }
      Pigeonhole(t, last);
    }
  }

  /** As long as fewer units are built than there are, one is free or one is in
      flight, and then the kernel will give one back. */
  lemma FreeOrInFlight(e: Engine)
    requires Partition(e) && |e.built| < |e.units|
    ensures e.free != [] || e.inflight != {}
  {
    if e.free == [] && e.inflight == {} {
      Pigeonhole(e.built, |e.units|);
    }
  }

  // --- which requests an operation has made ---------------------------------------------------------

  /** The offsets of the built requests of one operation, in order. */
  ghost function BuiltOf(units: seq<Unit>, built: seq<nat>, o: nat): seq<int> {
    if built == [] then []
    else
      (if built[0] < |units| && units[built[0]].oper == o then [units[built[0]].offset] else [])
      + BuiltOf(units, built[1..], o)
  }

  lemma {:induction false} BuiltOfAppend(units: seq<Unit>, built: seq<nat>, u: nat, o: nat)
    requires u < |units|
    ensures BuiltOf(units, built + [u], o)
            == BuiltOf(units, built, o) + if units[u].oper == o then [units[u].offset] else []
    decreases |built|
  {
    if built != [] {
      assert (built + [u])[1..] == built[1..] + [u];
      BuiltOfAppend(units, built[1..], u, o);
    } else {
      assert (built + [u])[1..] == [];
    }
  }

  lemma {:induction false} BuiltOfUnchanged(units: seq<Unit>, units': seq<Unit>, built: seq<nat>, o: nat)
    requires |units| == |units'|
    requires forall v :: v in built && v < |units| ==> units'[v].oper == units[v].oper && units'[v].offset == units[v].offset
    ensures BuiltOf(units', built, o) == BuiltOf(units, built, o)
    decreases |built|
  {
    if built != [] {
      assert built[0] in built && forall v :: v in built[1..] ==> v in built;
      BuiltOfUnchanged(units, units', built[1..], o);
    }
  }

  /** The offsets of a sequential stage: start, start+reclen, ... */
  ghost function Sequential(start: int, reclen: int, k: nat): seq<int> {
    if k == 0 then [] else Sequential(start, reclen, k - 1) + [start + Advance(reclen, k - 1)]
  }

  function Advance(reclen: int, k: nat): int {
    if k == 0 then 0 else Advance(reclen, k - 1) + reclen
  }

  predicate IsSequential(rw: nat) { rw < RWRITE }

  /** An offset that random_byte_offset can return. */
  ghost predicate Drawn(op: Oper, mask: nat, offset: int) {
    DrawnIn(op.start, op.end, op.reclen, mask, offset)
  }

  ghost predicate DrawnIn(start: int, end: int, reclen: int, mask: nat, offset: int) {
    exists draw1, draw2 :: RandomOffset.Draws(draw1, draw2)
                           && offset == RandomOffset.RandomByteOffset(start, end, reclen, mask, draw1, draw2)
  }

  /** What is known of an operation within its stage: it has submitted sent, and
      together with what is built this is a beginning of the stage's requests. */
  ghost predicate PlanOk(e: Engine, o: nat, sent: seq<int>)
    requires o < |e.opers| && Partition(e)
  {
    var op := e.opers[o];
    var all := sent + BuiltOf(e.units, e.built, o);
    && |sent| == op.started
    && |all| <= op.total
    && (IsSequential(op.rw) ==> all == Sequential(op.start, op.reclen, |all|)
                                && op.lastOffset == op.start + Advance(op.reclen, |all|))
    && (!IsSequential(op.rw) ==> forall i :: 0 <= i < |all| ==> Drawn(op, e.mask, all[i]))
  }

  /** Building continues the plan of its operation and touches no other. */
  lemma BuildKeepsPlan(e: Engine, o: nat, offset: int, lastOffset: int, p: nat, sent: seq<int>)
    requires Inv(e) && e.free != [] && o < |e.opers| && p < |e.opers| && PlanOk(e, p, sent)
    requires IsSequential(e.opers[o].rw) ==>
               offset == e.opers[o].lastOffset && lastOffset == offset + e.opers[o].reclen
    requires !IsSequential(e.opers[o].rw) ==> Drawn(e.opers[o], e.mask, offset)
    requires p == o ==> |sent| + |BuiltOf(e.units, e.built, o)| < e.opers[o].total
    ensures e.free[0] < |e.units| && Partition(Build(e, o, offset, lastOffset))
    ensures PlanOk(Build(e, o, offset, lastOffset), p, sent)
    ensures var d := Build(e, o, offset, lastOffset);
            |BuiltOf(d.units, d.built, p)| == |BuiltOf(e.units, e.built, p)| + if p == o then 1 else 0
  {
    hide Inv, Partition, DrawnIn, Sequential, Advance;
    BuildKeepsPartition(e, o, offset, lastOffset);
    InvPartition(e);
    BuiltAfterBuild(e, o, offset, lastOffset, p);
    var d := Build(e, o, offset, lastOffset);
    var before := sent + BuiltOf(e.units, e.built, p);
    if p == o {
      var all := before + [offset];
      assert sent + BuiltOf(d.units, d.built, p) == all;
      SequentialNext(e.opers[p].start, e.opers[p].reclen, |before|);
    } else {
      assert sent + BuiltOf(d.units, d.built, p) == before;
    }
  }

  lemma SequentialNext(start: int, reclen: int, k: nat)
    ensures Sequential(start, reclen, k + 1) == Sequential(start, reclen, k) + [start + Advance(reclen, k)]
    ensures Advance(reclen, k + 1) == Advance(reclen, k) + reclen
  {
  }

  /** Building adds its offset behind those of its operation, and no other. */
  lemma BuiltAfterBuild(e: Engine, o: nat, offset: int, lastOffset: int, p: nat)
    requires Partition(e) && e.free != [] && e.free[0] < |e.units| && o < |e.opers|
    ensures var d := Build(e, o, offset, lastOffset);
            BuiltOf(d.units, d.built, p) == BuiltOf(e.units, e.built, p) + if p == o then [offset] else []
  {
    hide Distinct, BuiltOf;
    var d := Build(e, o, offset, lastOffset);
    var u := e.free[0];
    assert u in e.free;
    BuiltOfUnchanged(e.units, d.units, e.built, p);
    BuiltOfAppend(d.units, e.built, u, p);
  }

  /** Submitting moves the first built request over to those sent. */
  lemma SubmitKeepsPlan(e: Engine, p: nat, sent: seq<int>)
    requires Inv(e) && e.built != [] && p < |e.opers| && PlanOk(e, p, sent)
    ensures e.built[0] < |e.units| && e.units[e.built[0]].oper < |e.opers| && Partition(Submit(e))
    ensures var u := e.built[0];
            PlanOk(Submit(e), p, if e.units[u].oper == p then sent + [e.units[u].offset] else sent)
  {
    SubmitKeepsInv(e);
    var u := e.built[0];
    var rest := BuiltOf(e.units, e.built[1..], p);
    if e.units[u].oper == p {
      assert (sent + [e.units[u].offset]) + rest == sent + ([e.units[u].offset] + rest);
      assert sent + BuiltOf(e.units, e.built, p) == (sent + [e.units[u].offset]) + rest;
    } else {
      assert sent + BuiltOf(e.units, e.built, p) == sent + rest;
    }
  }

  lemma FinishKeepsPlan(e: Engine, u: nat, p: nat, sent: seq<int>)
    requires Inv(e) && u in e.inflight && p < |e.opers| && PlanOk(e, p, sent)
    ensures u < |e.units| && e.units[u].oper < |e.opers| && e.opers[e.units[u].oper].pending > 0
    ensures Partition(Finish(e, u)) && PlanOk(Finish(e, u), p, sent)
  {
    FinishKeepsInv(e, u);
    BuiltOfUnchanged(e.units, Finish(e, u).units, e.built, p);
  }

  /** The invariant, with the plan of every operation. */
  ghost predicate Good(e: Engine, sent: seq<seq<int>>) {
    && Inv(e) && |sent| == |e.opers|
    && forall o: nat :: o < |e.opers| ==> PlanOk(e, o, sent[o])
  }

  /** What submitting the first built request makes of the record. */
  ghost function SentAfter(e: Engine, sent: seq<seq<int>>): seq<seq<int>>
    requires e.built != [] && e.built[0] < |e.units| && e.units[e.built[0]].oper < |sent|
  {
    var u := e.units[e.built[0]];
    sent[u.oper := sent[u.oper] + [u.offset]]
  }

  /** Whether an operation may be given this request next. */
  ghost predicate CanBuild(e: Engine, sent: seq<seq<int>>, o: nat, offset: int, lastOffset: int)
    requires |sent| == |e.opers|
  {
    && e.free != [] && o < |e.opers|
    && (IsSequential(e.opers[o].rw) ==> offset == e.opers[o].lastOffset && lastOffset == offset + e.opers[o].reclen)
    && (!IsSequential(e.opers[o].rw) ==> Drawn(e.opers[o], e.mask, offset))
    && |sent[o]| + |BuiltOf(e.units, e.built, o)| < e.opers[o].total
  }

  lemma BuildKeepsGood(e: Engine, sent: seq<seq<int>>, o: nat, offset: int, lastOffset: int)
    requires Good(e, sent) && CanBuild(e, sent, o, offset, lastOffset)
    ensures e.free[0] < |e.units|
    ensures var d := Build(e, o, offset, lastOffset);
            && Good(d, sent)
            && forall p: nat :: p < |e.opers| ==>
                 |BuiltOf(d.units, d.built, p)| == |BuiltOf(e.units, e.built, p)| + if p == o then 1 else 0
  {
    hide Inv, PlanOk;
    BuildKeepsInv(e, o, offset, lastOffset);
    forall p: nat | p < |e.opers|
      ensures Partition(Build(e, o, offset, lastOffset)) && PlanOk(Build(e, o, offset, lastOffset), p, sent[p])
      ensures var d := Build(e, o, offset, lastOffset);
              |BuiltOf(d.units, d.built, p)| == |BuiltOf(e.units, e.built, p)| + if p == o then 1 else 0
    {
      BuildKeepsPlan(e, o, offset, lastOffset, p, sent[p]);
    }
  }

  lemma SubmitKeepsGood(e: Engine, sent: seq<seq<int>>)
    requires Good(e, sent) && e.built != []
    ensures e.built[0] < |e.units| && e.units[e.built[0]].oper < |e.opers| && e.built[0] !in e.inflight
    ensures Good(Submit(e), SentAfter(e, sent))
  {
    hide Inv, PlanOk;
    SubmitKeepsInv(e);
    SubmitKeepsPartition(e);
    forall p: nat | p < |e.opers|
      ensures Partition(Submit(e)) && PlanOk(Submit(e), p, SentAfter(e, sent)[p])
    {
      SubmitKeepsPlan(e, p, sent[p]);
    }
  }

  lemma FinishKeepsGood(e: Engine, sent: seq<seq<int>>, u: nat)
    requires Good(e, sent) && u in e.inflight
    ensures u < |e.units| && e.units[u].oper < |e.opers| && e.opers[e.units[u].oper].pending > 0
    ensures Good(Finish(e, u), sent)
  {
    hide Inv, PlanOk;
    FinishKeepsInv(e, u);
    forall p: nat | p < |e.opers|
      ensures Partition(Finish(e, u)) && PlanOk(Finish(e, u), p, sent[p])
    {
      FinishKeepsPlan(e, u, p, sent[p]);
    }
  }

  function Restarted(op: Oper, rw: nat): Oper {
    op.(started := 0, lastOffset := op.start, stonewalled := false, rw := rw)
  }

  lemma OperChangeKeepsInv(e: Engine, o: nat, op: Oper)
    requires Inv(e) && o < |e.opers| && op.pending == e.opers[o].pending
    ensures Inv(e.(opers := e.opers[o := op]))
  {
    var d := e.(opers := e.opers[o := op]);
    forall p: nat | p < |d.opers|
      ensures InFlightOf(d, p) == InFlightOf(e, p)
    {
    }
  }

  lemma StonewallKeepsGood(e: Engine, sent: seq<seq<int>>, o: nat)
    requires Good(e, sent) && o < |e.opers|
    ensures Good(e.(opers := e.opers[o := e.opers[o].(stonewalled := true)]), sent)
  {
    hide Inv, BuiltOf, Sequential, Advance;
    OperChangeKeepsInv(e, o, e.opers[o].(stonewalled := true));
    InvPartition(e.(opers := e.opers[o := e.opers[o].(stonewalled := true)]));
  }

  lemma TotalOk(e: Engine, sent: seq<seq<int>>, o: nat)
    requires Good(e, sent) && o < |e.opers|
    ensures 0 <= e.opers[o].started <= e.opers[o].total
  {
    assert PlanOk(e, o, sent[o]);
  }

  lemma RestartKeepsGood(e: Engine, sent: seq<seq<int>>, o: nat, rw: nat)
    requires Good(e, sent) && o < |e.opers| && e.built == []
    ensures Good(e.(opers := e.opers[o := Restarted(e.opers[o], rw)]), sent[o := []])
  {
    hide Inv;
    TotalOk(e, sent, o);
    OperChangeKeepsInv(e, o, Restarted(e.opers[o], rw));
    InvPartition(e.(opers := e.opers[o := Restarted(e.opers[o], rw)]));
  }

  lemma InvPartition(e: Engine)
    requires Inv(e)
    ensures Partition(e)
  {
  }

  /** create_oper. */
  function CreateOper(file: nat, rw: nat, start: int, end: int, reclen: int): Oper
    requires reclen > 0 && start + reclen <= end
  {
    Oper(file, start, end, reclen, rw, TotalIos(start, end, reclen), 0, 0, start, false)
  }

  /** The whole records of the context, exactly if their number fits an int. */
  lemma CreateOperFits(file: nat, rw: nat, start: int, end: int, reclen: int)
    requires reclen > 0 && start + reclen <= end
    ensures var op := CreateOper(file, rw, start, end, reclen);
            op.total == (end - start) / reclen <==> (end - start) / reclen <= INT_MAX
    ensures var op := CreateOper(file, rw, start, end, reclen);
            (end - start) / reclen <= INT_MAX ==>
              1 <= op.total && Advance(reclen, op.total) <= end - start < Advance(reclen, op.total + 1)
  {
    var n := end - start;
    var k := n / reclen;
    assert n == reclen * k + n % reclen;
    assert 1 <= k;
    AdvanceNonnegative(reclen, k);
    AdvanceNonnegative(reclen, k + 1);
  }

  ghost predicate Untouched(op: Oper) {
    0 <= op.total && op.pending == op.started == 0 && op.lastOffset == op.start && !op.stonewalled
  }

  /** The units from n-1 down to 0, as setup_ious links them. */
  ghost function Down(n: nat): seq<nat> {
    if n == 0 then [] else [n - 1] + Down(n - 1)
  }

  lemma {:induction false} DownMembers(n: nat)
    ensures |Down(n)| == n && Distinct(Down(n)) && forall u: nat :: u in Down(n) <==> u < n
  {
    if n > 0 {
      DownMembers(n - 1);
      ConsMembers(n - 1, Down(n - 1));
    }
  }

  /** All units free and linked: a good start. */
  lemma FreshIsGood(mask: nat, units: seq<Unit>, opers: seq<Oper>, sent: seq<seq<int>>)
    requires forall u: nat :: u < |units| ==> !units[u].busy && units[u].next == u - 1
    requires forall o :: 0 <= o < |opers| ==> Untouched(opers[o])
    requires |sent| == |opers| && forall o :: 0 <= o < |sent| ==> sent[o] == []
    ensures Good(Engine(mask, units, opers, Down(|units|), [], {}), sent)
  {
    hide Partition, BusyOk, Chained, Owned, PendingOk, PlanOk, Down, Untouched;
    var e := Engine(mask, units, opers, Down(|units|), [], {});
    AllFree(e);
    DownChained(e, |units|);
    NothingPending(e);
    NothingPlanned(e, sent);
  }

  lemma AllFree(e: Engine)
    requires e.free == Down(|e.units|) && e.built == [] && e.inflight == {}
    requires forall u: nat :: u < |e.units| ==> !e.units[u].busy
    ensures Partition(e) && BusyOk(e) && Owned(e)
  {
    hide Down;
    DownMembers(|e.units|);
  }

  lemma NothingPending(e: Engine)
    requires e.inflight == {} && forall o :: 0 <= o < |e.opers| ==> Untouched(e.opers[o])
    ensures PendingOk(e)
  {
    forall o: nat | o < |e.opers|
      ensures |InFlightOf(e, o)| == 0
    {
      assert forall u :: u !in InFlightOf(e, o);
    }
  }

  lemma NothingPlanned(e: Engine, sent: seq<seq<int>>)
    requires e.built == [] && Partition(e) && forall o :: 0 <= o < |e.opers| ==> Untouched(e.opers[o])
    requires |sent| == |e.opers| && forall o :: 0 <= o < |sent| ==> sent[o] == []
    ensures forall o: nat :: o < |e.opers| ==> PlanOk(e, o, sent[o])
  {
  }

  lemma {:induction false} DownTail(n: nat, i: nat)
    requires i < n
    ensures |Down(n)| == n && Down(n)[i] == n - 1 - i && Down(n)[i..] == Down(n - i)
    decreases i
  {
    DownMembers(n);
    if i > 0 {
      DownTail(n - 1, i - 1);
      assert Down(n)[i..] == Down(n - 1)[i - 1..];
    }
  }

  lemma DownChained(e: Engine, n: nat)
    requires e.free == Down(n) && n == |e.units|
    requires forall u: nat :: u < |e.units| ==> e.units[u].next == u - 1
    ensures Chained(e)
  {
    DownMembers(n);
    forall i | 0 <= i < n
      ensures e.free[i] < n && e.units[e.free[i]].next == Head(e.free[i + 1..])
    {
      DownTail(n, i);
      if i + 1 < n {
        DownTail(n, i + 1);
      } else {
        assert e.free[i + 1..] == [];
      }
    }
  }

  // --- what the rounds over the operations see -------------------------------------------

  /** The parts of an operation that requests do not change. */
  ghost function Core(opers: seq<Oper>): (r: seq<Oper>)
    ensures |r| == |opers|
  {
    seq(|opers|, o requires 0 <= o < |opers| => opers[o].(pending := 0, started := 0, lastOffset := 0))
  }

  /** How many requests each operation has started, and has built. */
  ghost function Starts(opers: seq<Oper>): (r: seq<nat>)
    ensures |r| == |opers| && forall o :: 0 <= o < |opers| ==> r[o] == opers[o].started
  {
    seq(|opers|, o requires 0 <= o < |opers| => opers[o].started)
  }

  ghost function Counts(e: Engine): (r: seq<nat>)
    ensures |r| == |e.opers| && forall o :: 0 <= o < |e.opers| ==> r[o] == |BuiltOf(e.units, e.built, o)|
  {
    seq(|e.opers|, o requires 0 <= o < |e.opers| => |BuiltOf(e.units, e.built, o)|)
  }

  /** Requests started or built, per operation. */
  ghost function Claims(e: Engine): (r: seq<nat>)
    ensures |r| == |e.opers| && forall o :: 0 <= o < |e.opers| ==> r[o] == Starts(e.opers)[o] + Counts(e)[o]
  {
    seq(|e.opers|, o requires 0 <= o < |e.opers| => Starts(e.opers)[o] + Counts(e)[o])
  }

  lemma SubmitClaims(e: Engine)
    requires e.built != [] && e.built[0] < |e.units| && e.units[e.built[0]].oper < |e.opers|
    ensures Claims(Submit(e)) == Claims(e)
  {
    hide Starts, Counts;
    SubmitSeen(e);
  }

  lemma SameClaims(d: Engine, e: Engine)
    requires |d.opers| == |e.opers| && Starts(d.opers) == Starts(e.opers) && Counts(d) == Counts(e)
    ensures Claims(d) == Claims(e)
  {
  }

  lemma CoreMeans(opers: seq<Oper>, o: nat)
    requires o < |opers|
    ensures Core(opers)[o] == opers[o].(pending := 0, started := 0, lastOffset := 0)
  {
  }

  lemma FinishSeen(e: Engine, u: nat)
    requires Inv(e) && u in e.inflight
    requires u < |e.units| && e.units[u].oper < |e.opers| && e.opers[e.units[u].oper].pending > 0
    ensures var d := Finish(e, u);
            Core(d.opers) == Core(e.opers) && Starts(d.opers) == Starts(e.opers) && Counts(d) == Counts(e)
  {
    hide Inv;
    var d := Finish(e, u);
    forall o: nat | o < |e.opers|
      ensures BuiltOf(d.units, d.built, o) == BuiltOf(e.units, e.built, o)
    {
      BuiltOfUnchanged(e.units, d.units, e.built, o);
    }
  }

  lemma BuildSeen(e: Engine, sent: seq<seq<int>>, o: nat, offset: int, lastOffset: int)
    requires Good(e, sent) && CanBuild(e, sent, o, offset, lastOffset)
    ensures e.free[0] < |e.units|
    ensures var d := Build(e, o, offset, lastOffset);
            Core(d.opers) == Core(e.opers) && Starts(d.opers) == Starts(e.opers)
            && Counts(d) == Counts(e)[o := Counts(e)[o] + 1]
  {
    hide Good;
    BuildKeepsGood(e, sent, o, offset, lastOffset);
  }

  lemma SubmitSeen(e: Engine)
    requires e.built != [] && e.built[0] < |e.units| && e.units[e.built[0]].oper < |e.opers|
    ensures var d, o := Submit(e), e.units[e.built[0]].oper;
            && Core(d.opers) == Core(e.opers)
            && Starts(d.opers) == Starts(e.opers)[o := Starts(e.opers)[o] + 1]
            && Counts(e)[o] > 0
            && Counts(d) == Counts(e)[o := Counts(e)[o] - 1]
  {
  }

  /** The requests of a complete sequential stage all lie inside [start, end). */
  lemma {:induction false} SequentialInside(start: int, end: int, reclen: int, k: nat, i: nat)
    requires reclen > 0 && i < k && Advance(reclen, k) <= end - start
    ensures |Sequential(start, reclen, k)| == k
    ensures Sequential(start, reclen, k)[i] == start + Advance(reclen, i)
    ensures start <= Sequential(start, reclen, k)[i] && Sequential(start, reclen, k)[i] + reclen <= end
    decreases k
  {
    if i + 1 < k {
      SequentialInside(start, end, reclen, k - 1, i);
    } else {
      SequentialLength(start, reclen, k);
      AdvanceNonnegative(reclen, i);
    }
  }

  lemma {:induction false} SequentialLength(start: int, reclen: int, k: nat)
    ensures |Sequential(start, reclen, k)| == k
  {
    if k > 0 {
      SequentialLength(start, reclen, k - 1);
    }
  }

  lemma {:induction false} AdvanceNonnegative(reclen: int, k: nat)
    requires reclen > 0
    ensures 0 <= Advance(reclen, k)
    ensures Advance(reclen, k) == reclen * k
  {
    if k > 0 {
      AdvanceNonnegative(reclen, k - 1);
      assert reclen * k == reclen * (k - 1) + reclen;
    }
  }
}
