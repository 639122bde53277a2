// One hackbench group: n senders spray messages over n bounded pipes, one per
// receiver, in fragments that may interleave in any way.
module HackbenchGroup {
  import opened Arithmetic

  /** Group size, messages per pair, message size, pipe capacity. */
  datatype Params = Params(n: nat, loops: nat, size: nat, cap: nat) {
    ghost predicate Valid() {
      n >= 1 && size >= 1 && cap >= 1
    }

    /** The messages that are sent to each receiver. */
    function Messages(): nat { n * loops }

    /** num_packets of a receiver: the product in an unsigned int. */
    function Packets(): (k: nat)
      ensures k <= Messages()
      ensures k == Messages() <==> Messages() <= UINT_MAX
      ensures k <= UINT_MAX && (Messages() - k) % 0x1_0000_0000 == 0
    {
      ToUnsigned(Messages())
    }

    /** What the receivers leave behind fits the pipes. */
    ghost predicate Fits() {
      Times(Messages(), size) <= Times(Packets(), size) + cap
    }
  }

  /** A byte in a pipe, known by its sender and its place in the stream of bytes
      that this sender has for this pipe. */
  datatype Tag = Tag(sender: nat, index: nat)

  /** A pipe: all that was ever written to it, and how much of that was read. */
  datatype Pipe = Pipe(log: seq<Tag>, taken: nat)

  /** The loop variables of sender and receiver. */
  datatype Sender = Sender(i: nat, j: nat, done: nat)
  datatype Receiver = Receiver(i: nat, done: nat)

  datatype Group = Group(senders: seq<Sender>, receivers: seq<Receiver>, pipes: seq<Pipe>)

  // --- how far everybody is ------------------------------------------------------

  /** How many bytes a sender has put into pipe j. */
  function SentTo(p: Params, s: Sender, j: nat): nat {
    if j < s.j then Times(s.i, p.size) + p.size
    else if j == s.j then Times(s.i, p.size) + s.done
    else Times(s.i, p.size)
  }

  ghost function TotalSent(p: Params, ss: seq<Sender>, j: nat, m: nat): nat
    requires m <= |ss|
  {
    if m == 0 then 0 else TotalSent(p, ss, j, m - 1) + SentTo(p, ss[m - 1], j)
  }

  ghost predicate SenderOk(p: Params, s: Sender) {
    || (s.i < p.loops && s.j < p.n && s.done < p.size)
    || s == Sender(p.loops, 0, 0)
  }

  ghost predicate ReceiverOk(p: Params, r: Receiver) {
    || (r.i < p.Packets() && r.done < p.size)
    || r == Receiver(p.Packets(), 0)
  }

  /** The places, in order, that one sender's bytes have in its stream. */
  ghost function Project(log: seq<Tag>, s: nat): seq<nat> {
    if log == [] then []
    else Project(log[..|log| - 1], s) +
         if log[|log| - 1].sender == s then [log[|log| - 1].index] else []
  }

  ghost function Upto(k: nat): seq<nat> {
    seq(k, i => i)
  }

  /** The invariant of a pipe and its receiver: counters agree, capacity is
      kept, and whatever the interleaving, each sender's bytes are in the log
      exactly once and in order. */
  ghost predicate PipeOk(p: Params, g: Group, j: nat)
    requires |g.senders| == |g.receivers| == |g.pipes| == p.n && j < p.n
  {
    var pipe, r := g.pipes[j], g.receivers[j];
    && ReceiverOk(p, r)
    && pipe.taken == Times(r.i, p.size) + r.done
    && pipe.taken <= |pipe.log| <= pipe.taken + p.cap
    && |pipe.log| == TotalSent(p, g.senders, j, p.n)
    && forall s: nat :: s < p.n ==> Project(pipe.log, s) == Upto(SentTo(p, g.senders[s], j))
  }

  ghost predicate Inv(p: Params, g: Group) {
    && p.Valid()
    && |g.senders| == |g.receivers| == |g.pipes| == p.n
    && (forall s: nat :: s < p.n ==> SenderOk(p, g.senders[s]))
    && (forall j: nat :: j < p.n ==> PipeOk(p, g, j))
  }

  function Start(p: Params): Group {
    Group(seq(p.n, _ => SenderAt(p, 0, 0, 0)),
          seq(p.n, _ => Receiver(0, 0)),
          seq(p.n, _ => Pipe([], 0)))
  }

  /** The sender's loop variables, carried over at the end of a message and of a
      round. */
  function SenderAt(p: Params, i: nat, j: nat, done: nat): Sender {
    if done < p.size then Sender(i, j, done)
    else if j + 1 < p.n then Sender(i, j + 1, 0)
    else Sender(i + 1, 0, 0)
  }

  function ReceiverAt(p: Params, i: nat, done: nat): Receiver {
    if done < p.size then Receiver(i, done) else Receiver(i + 1, 0)
  }

  // --- the steps ---------------------------------------------------------------

  predicate SenderDone(p: Params, s: Sender) { s.i == p.loops }

  predicate ReceiverDone(p: Params, r: Receiver) { r.i == p.Packets() }

  /** write() of a fragment: as much as fits, at most the rest of the message. */
  predicate CanWrite(p: Params, g: Group, s: nat, len: nat) {
    && s < |g.senders| && !SenderDone(p, g.senders[s])
    && g.senders[s].j < |g.pipes|
    && 1 <= len && g.senders[s].done + len <= p.size
    && |g.pipes[g.senders[s].j].log| + len <= g.pipes[g.senders[s].j].taken + p.cap
  }

  function Fragment(p: Params, s: nat, from: nat, len: nat): seq<Tag> {
    seq(len, k requires 0 <= k < len => Tag(s, from + k))
  }

  function Write(p: Params, g: Group, s: nat, len: nat): Group
    requires CanWrite(p, g, s, len)
  {
    var snd := g.senders[s];
    var pipe := g.pipes[snd.j];
    var data := Fragment(p, s, Times(snd.i, p.size) + snd.done, len);
    g.(senders := g.senders[s := SenderAt(p, snd.i, snd.j, snd.done + len)],
       pipes := g.pipes[snd.j := pipe.(log := pipe.log + data)])
  }

  /** read() of a fragment: what is there, at most the rest of the message. */
  predicate CanRead(p: Params, g: Group, j: nat, len: nat) {
    && j < |g.receivers| && j < |g.pipes| && !ReceiverDone(p, g.receivers[j])
    && 1 <= len && g.receivers[j].done + len <= p.size
    && g.pipes[j].taken + len <= |g.pipes[j].log|
  }

  function Read(p: Params, g: Group, j: nat, len: nat): Group
    requires CanRead(p, g, j, len)
  {
    var r := g.receivers[j];
    g.(receivers := g.receivers[j := ReceiverAt(p, r.i, r.done + len)],
       pipes := g.pipes[j := g.pipes[j].(taken := g.pipes[j].taken + len)])
  }

  // --- every step keeps the invariant --------------------------------------------

  lemma {:induction false} StartTotal(p: Params, ss: seq<Sender>, j: nat, m: nat)
    requires p.size >= 1 && m <= |ss| && forall s :: 0 <= s < |ss| ==> ss[s] == Sender(0, 0, 0)
    ensures TotalSent(p, ss, j, m) == 0
  {
    if m > 0 {
      StartTotal(p, ss, j, m - 1);
    }
  }

  lemma StartInv(p: Params)
    requires p.Valid()
    ensures Inv(p, Start(p))
  {
    var g := Start(p);
    forall j: nat | j < p.n
      ensures PipeOk(p, g, j)
    {
      StartTotal(p, g.senders, j, p.n);
    }
  }

  /** The sum changes by what one sender adds. */
  lemma {:induction false} TotalUpdate(p: Params, ss: seq<Sender>, s: nat, snd: Sender, j: nat, m: nat)
    requires s < |ss| && m <= |ss|
    ensures TotalSent(p, ss[s := snd], j, m)
            == TotalSent(p, ss, j, m) + if s < m then SentTo(p, snd, j) - SentTo(p, ss[s], j) else 0
  {
    if m > 0 {
      TotalUpdate(p, ss, s, snd, j, m - 1);
    }
  }

  /** Carrying over changes no count but that of the pipe written to. */
  lemma SentToAdvance(p: Params, s: Sender, len: nat, j: nat)
    requires s.i < p.loops && s.j < p.n && s.done + len <= p.size && j < p.n
    ensures SentTo(p, SenderAt(p, s.i, s.j, s.done + len), j)
            == SentTo(p, s, j) + if j == s.j then len else 0
  {
    assert Times(s.i + 1, p.size) == Times(s.i, p.size) + p.size;
  }

  lemma {:induction false} ProjectAppend(log: seq<Tag>, data: seq<Tag>, s: nat)
    ensures Project(log + data, s) == Project(log, s) + Project(data, s)
    decreases |data|
  {
    if data == [] {
      assert log + data == log;
    } else {
      var front := data[..|data| - 1];
      assert (log + data)[..|log + data| - 1] == log + front;
      ProjectAppend(log, front, s);
    }
  }

  lemma {:induction false} ProjectFragment(p: Params, w: nat, from: nat, len: nat, s: nat)
    ensures Project(Fragment(p, w, from, len), s) == if s == w then seq(len, i => from + i) else []
    decreases len
  {
    if len > 0 {
      var data := Fragment(p, w, from, len);
      assert data[..|data| - 1] == Fragment(p, w, from, len - 1);
      ProjectFragment(p, w, from, len - 1, s);
    }
  }

  lemma UptoExtends(from: nat, len: nat)
    ensures Upto(from) + seq(len, i => from + i) == Upto(from + len)
  {
  }

  lemma WriteProjects(p: Params, log: seq<Tag>, s: nat, from: nat, len: nat, t: nat)
    requires t == s ==> Project(log, s) == Upto(from)
    ensures Project(log + Fragment(p, s, from, len), t) == if t == s then Upto(from + len) else Project(log, t)
  {
    hide *;
    ProjectAppend(log, Fragment(p, s, from, len), t);
    ProjectFragment(p, s, from, len, t);
    UptoExtends(from, len);
  }

  lemma WriteKeepsProjections(p: Params, g: Group, s: nat, len: nat, t: nat)
    requires Inv(p, g) && CanWrite(p, g, s, len) && t < p.n
    ensures var j, h := g.senders[s].j, Write(p, g, s, len);
            j < p.n && Project(h.pipes[j].log, t) == Upto(SentTo(p, h.senders[t], j))
  {
    hide Project, Upto, Fragment, TotalSent;
    var snd := g.senders[s];
    assert SenderOk(p, snd) && PipeOk(p, g, snd.j);
    SentToAdvance(p, snd, len, snd.j);
    WriteProjects(p, g.pipes[snd.j].log, s, Times(snd.i, p.size) + snd.done, len, t);
  }

  lemma WriteKeepsPipe(p: Params, g: Group, s: nat, len: nat, j: nat)
    requires Inv(p, g) && CanWrite(p, g, s, len) && j < p.n
    ensures PipeOk(p, Write(p, g, s, len), j)
  {
    hide Project, Upto, Times;
    var snd := g.senders[s];
    var h := Write(p, g, s, len);
    assert SenderOk(p, snd) && PipeOk(p, g, j);
    TotalUpdate(p, g.senders, s, h.senders[s], j, p.n);
    SentToAdvance(p, snd, len, j);
    forall t: nat | t < p.n
      ensures Project(h.pipes[j].log, t) == Upto(SentTo(p, h.senders[t], j))
    {
      WriteKeepsProjections(p, g, s, len, t);
    }
  }

  lemma WriteKeepsInv(p: Params, g: Group, s: nat, len: nat)
    requires Inv(p, g) && CanWrite(p, g, s, len)
    ensures Inv(p, Write(p, g, s, len))
  {
    forall j: nat | j < p.n
      ensures PipeOk(p, Write(p, g, s, len), j)
    {
      WriteKeepsPipe(p, g, s, len, j);
    }
    assert SenderOk(p, g.senders[s]);
  }

  lemma ReadKeepsInv(p: Params, g: Group, j: nat, len: nat)
    requires Inv(p, g) && CanRead(p, g, j, len)
    ensures Inv(p, Read(p, g, j, len))
  {
    var h := Read(p, g, j, len);
    assert PipeOk(p, g, j);
    forall k: nat | k < p.n
      ensures PipeOk(p, h, k)
    {
      assert PipeOk(p, g, k);
      assert Times(g.receivers[j].i + 1, p.size) == Times(g.receivers[j].i, p.size) + p.size;
    }
  }

  // --- nobody is stuck, and everything arrives -------------------------------------

  lemma {:induction false} TotalBounded(p: Params, ss: seq<Sender>, j: nat, m: nat)
    requires m <= |ss| && forall s :: 0 <= s < |ss| ==> SenderOk(p, ss[s])
    requires j < p.n
    ensures TotalSent(p, ss, j, m) <= Times(m, Times(p.loops, p.size))
    ensures (forall s :: 0 <= s < m ==> SenderDone(p, ss[s])) ==> TotalSent(p, ss, j, m) == Times(m, Times(p.loops, p.size))
  {
    if m > 0 {
      TotalBounded(p, ss, j, m - 1);
      TimesMonotone(ss[m - 1].i, p.loops, p.size);
    }
  }

  /** An unfinished sender has not sent everything to its next receiver. */
  lemma {:induction false} TotalStrict(p: Params, ss: seq<Sender>, s: nat, m: nat)
    requires s < m <= |ss| && forall k :: 0 <= k < |ss| ==> SenderOk(p, ss[k])
    requires !SenderDone(p, ss[s])
    ensures ss[s].j < p.n && TotalSent(p, ss, ss[s].j, m) < Times(m, Times(p.loops, p.size))
    decreases m
  {
    var j := ss[s].j;
    assert SenderOk(p, ss[s]);
    TotalBounded(p, ss, j, m - 1);
    if s == m - 1 {
      TimesMonotone(ss[s].i, p.loops, p.size);
    } else {
      TotalStrict(p, ss, s, m - 1);
      assert SenderOk(p, ss[m - 1]);
      TimesMonotone(ss[m - 1].i, p.loops, p.size);
    }
  }

  /** No pipe ever carries more than is sent to its receiver, and once all
      senders are through it has carried exactly that. */
  lemma LogBounded(p: Params, g: Group, j: nat)
    requires Inv(p, g) && j < p.n
    ensures |g.pipes[j].log| <= Times(p.Messages(), p.size)
    ensures (forall s: nat :: s < p.n ==> SenderDone(p, g.senders[s])) ==>
              |g.pipes[j].log| == Times(p.Messages(), p.size)
  {
    assert PipeOk(p, g, j);
    TotalBounded(p, g.senders, j, p.n);
    TimesTimes(p.n, p.loops, p.size);
  }

  lemma LogStrict(p: Params, g: Group, s: nat)
    requires Inv(p, g) && s < p.n && !SenderDone(p, g.senders[s])
    ensures g.senders[s].j < p.n && |g.pipes[g.senders[s].j].log| < Times(p.Messages(), p.size)
  {
    TotalStrict(p, g.senders, s, p.n);
    assert PipeOk(p, g, g.senders[s].j);
    TimesTimes(p.n, p.loops, p.size);
  }

  lemma ReceiverUnfinished(p: Params, g: Group, j: nat)
    requires Inv(p, g) && j < p.n
    ensures g.pipes[j].taken < Times(p.Packets(), p.size) <==> !ReceiverDone(p, g.receivers[j])
    ensures ReceiverDone(p, g.receivers[j]) ==> g.pipes[j].taken == Times(p.Packets(), p.size)
    ensures Times(p.Packets(), p.size) <= Times(p.Messages(), p.size)
  {
    assert PipeOk(p, g, j);
    TimesMonotone(g.receivers[j].i, p.Packets(), p.size);
    TimesMonotone(p.Packets(), p.Messages(), p.size);
  }

  /** An unfinished sender can write, or the receiver it waits for can read, as
      long as the pipe has room for what that receiver leaves behind. */
  lemma SenderNotStuck(p: Params, g: Group, s: nat)
    requires Inv(p, g) && s < p.n && !SenderDone(p, g.senders[s])
    ensures g.senders[s].j < p.n
    ensures p.Fits() || !ReceiverDone(p, g.receivers[g.senders[s].j]) ==>
              CanWrite(p, g, s, 1) || CanRead(p, g, g.senders[s].j, 1)
  {
    var j := g.senders[s].j;
    assert SenderOk(p, g.senders[s]) && PipeOk(p, g, j);
    if !CanWrite(p, g, s, 1) {
      LogStrict(p, g, s);
      ReceiverUnfinished(p, g, j);
    }
  }

  /** A receiver that has left while a sender is not through has miscounted. */
  lemma LeftEarly(p: Params, g: Group, s: nat)
    requires Inv(p, g) && s < p.n && !SenderDone(p, g.senders[s])
    requires g.senders[s].j < p.n && ReceiverDone(p, g.receivers[g.senders[s].j])
    ensures p.Messages() > UINT_MAX
  {
    var j := g.senders[s].j;
    assert PipeOk(p, g, j);
    LogStrict(p, g, s);
    ReceiverUnfinished(p, g, j);
  }

  /** An unfinished receiver can read, or a sender is unfinished. In particular
      it never meets an empty pipe whose writers are all gone. */
  lemma ReceiverNotStuck(p: Params, g: Group, j: nat)
    requires Inv(p, g) && j < p.n && !ReceiverDone(p, g.receivers[j])
    ensures CanRead(p, g, j, 1) || exists s: nat :: s < p.n && !SenderDone(p, g.senders[s])
  {
    assert PipeOk(p, g, j);
    LogBounded(p, g, j);
    ReceiverUnfinished(p, g, j);
  }

  /** When all are through, every receiver has read as many messages as it
      counts, the rest of what was sent to it is still in its pipe, and the pipe
      has carried exactly the bytes of every sender, each once and in order. */
  lemma AllDelivered(p: Params, g: Group, j: nat)
    requires Inv(p, g) && j < p.n
    requires forall s: nat :: s < p.n ==> SenderDone(p, g.senders[s])
    requires ReceiverDone(p, g.receivers[j])
    ensures g.pipes[j].taken == Times(p.Packets(), p.size) && |g.pipes[j].log| == Times(p.Messages(), p.size)
    ensures g.receivers[j] == Receiver(p.Packets(), 0)
    ensures forall s: nat :: s < p.n ==> Project(g.pipes[j].log, s) == Upto(Times(p.loops, p.size))
    ensures p.Fits()
  {
    assert PipeOk(p, g, j);
    LogBounded(p, g, j);
    ReceiverUnfinished(p, g, j);
    forall s: nat | s < p.n
      ensures SentTo(p, g.senders[s], j) == Times(p.loops, p.size)
    {
      assert SenderOk(p, g.senders[s]);
    }
  }

  // --- progress ------------------------------------------------------------------

  /** What is left to write and to read, over the first m pipes. */
  ghost function Remaining(p: Params, pipes: seq<Pipe>, m: nat): int
    requires m <= |pipes|
  {
    if m == 0 then 0
    else Remaining(p, pipes, m - 1) +
         Times(p.Messages(), p.size) + Times(p.Packets(), p.size) - |pipes[m - 1].log| - pipes[m - 1].taken
  }

  lemma {:induction false} RemainingUpdate(p: Params, pipes: seq<Pipe>, j: nat, pipe: Pipe, m: nat)
    requires j < |pipes| && m <= |pipes|
    ensures Remaining(p, pipes[j := pipe], m)
            == Remaining(p, pipes, m) +
               if j < m then |pipes[j].log| + pipes[j].taken - |pipe.log| - pipe.taken else 0
  {
    if m > 0 {
      RemainingUpdate(p, pipes, j, pipe, m - 1);
    }
  }

  ghost function Measure(p: Params, g: Group): int { Remaining(p, g.pipes, |g.pipes|) }

  lemma {:induction false} RemainingNat(p: Params, g: Group, m: nat)
    requires Inv(p, g) && m <= p.n
    ensures 0 <= Remaining(p, g.pipes, m)
  {
    if m > 0 {
      RemainingNat(p, g, m - 1);
      assert PipeOk(p, g, m - 1);
      LogBounded(p, g, m - 1);
      ReceiverUnfinished(p, g, m - 1);
    }
  }

  lemma StepsDecrease(p: Params, g: Group, k: nat, len: nat)
    ensures CanWrite(p, g, k, len) ==> Measure(p, Write(p, g, k, len)) == Measure(p, g) - len
    ensures CanRead(p, g, k, len) ==> Measure(p, Read(p, g, k, len)) == Measure(p, g) - len
  {
    if CanWrite(p, g, k, len) {
      var j := g.senders[k].j;
      RemainingUpdate(p, g.pipes, j, Write(p, g, k, len).pipes[j], |g.pipes|);
    }
    if CanRead(p, g, k, len) {
      RemainingUpdate(p, g.pipes, k, Read(p, g, k, len).pipes[k], |g.pipes|);
    }
  }
}
