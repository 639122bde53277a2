// The circular doubly linked lists of operations: the pointer surgery of
// oper_list_add and oper_list_del refines append and removal on a sequence.
module OperList {

  /** The links of an io_oper. */
  class Node {
    var next: Node?
    var prev: Node?

    constructor ()
      ensures next == null && prev == null
    {
      next, prev := null, null;
    }
  }

  ghost function Without(s: seq<Node>, i: nat): seq<Node>
    requires i < |s|
  {
    s[..i] + s[i + 1..]
  }

  lemma WithoutAt(s: seq<Node>, i: nat)
    requires i < |s|
    ensures |Without(s, i)| == |s| - 1
    ensures forall k :: 0 <= k < i ==> Without(s, i)[k] == s[k]
    ensures forall k :: i <= k < |s| - 1 ==> Without(s, i)[k] == s[k + 1]
    ensures forall n :: n in Without(s, i) ==> n in s
    ensures (forall j, k :: 0 <= j < k < |s| ==> s[j] != s[k]) ==> s[i] !in Without(s, i)
  {
  }

  /** A list head, the variable that list points to in the source, and the
      operations on it in order. */
  class List {
    var head: Node?
    ghost var elems: seq<Node>

    constructor ()
      ensures Valid() && elems == []
    {
      head, elems := null, [];
    }

    ghost predicate Valid()
      reads this, elems
    {
      && (head == if elems == [] then null else elems[0])
      && (forall i, j :: 0 <= i < j < |elems| ==> elems[i] != elems[j])
      && (forall i :: 0 <= i < |elems| - 1 ==> elems[i].next == elems[i + 1])
      && (forall i :: 0 < i < |elems| ==> elems[i].prev == elems[i - 1])
      && (elems != [] ==> elems[|elems| - 1].next == elems[0] && elems[0].prev == elems[|elems| - 1])
    }

    /** A walk that follows next and stops when it is back at the head sees every
        operation once, in order. */
    lemma WalkStep(i: nat)
      requires Valid() && i < |elems|
      ensures elems[i].next == head <==> i + 1 == |elems|
      ensures i + 1 < |elems| ==> elems[i].next == elems[i + 1]
    {
    }

    lemma OnlyOnce(i: nat)
      requires Valid() && i < |elems|
      ensures elems[i] !in Without(elems, i) && forall n :: n in Without(elems, i) ==> n in elems
    {
      WithoutAt(elems, i);
    }

    /** What happens to other nodes does not matter to a list. */
    twostate lemma Framed()
      requires old(Valid()) && unchanged(this) && forall n :: n in elems ==> unchanged(n)
      ensures Valid()
    {
      assert forall i :: 0 <= i < |elems| ==> elems[i] in elems;
    }

    /** oper_list_add. */
    method Add(oper: Node)
      requires Valid() && oper !in elems
      modifies this, oper, elems
      ensures Valid() && elems == old(elems) + [oper]
    {
      var first := head;
      if first == null {
        head := oper;
        oper.prev := oper;
        oper.next := oper;
      } else {
        oper.prev := first.prev;
        oper.next := first;
        first.prev.next := oper;
        first.prev := oper;
      }
      elems := elems + [oper];
    }

    function Left(i: nat, n: nat): int { if i == 0 then n - 1 else i - 1 }

    function Right(i: nat, n: nat): int { if i + 1 == n then 0 else i + 1 }

    lemma NoneValid()
      requires head == null && elems == []
      ensures Valid()
    {
    }

    lemma Neighbours()
      requires Valid() && elems != []
      ensures forall i, j :: 0 <= i < j < |elems| ==> elems[i] != elems[j]
      ensures forall i :: 0 <= i < |elems| ==> elems[i].next == elems[Right(i, |elems|)]
      ensures forall i :: 0 <= i < |elems| ==> elems[i].prev == elems[Left(i, |elems|)]
      ensures head == elems[0]
      ensures |elems| == 1 <==> head.next == head.prev && head == head.next
    {
    }

    /** The links among the nodes of was when the i-th is bypassed. */
    ghost predicate Bypassed(was: seq<Node>, i: nat)
      requires i < |was| && |was| > 1
      reads was
    {
      && (forall k :: 0 <= k < |was| && k != i && k != Left(i, |was|) ==> was[k].next == was[Right(k, |was|)])
      && (forall k :: 0 <= k < |was| && k != i && k != Right(i, |was|) ==> was[k].prev == was[Left(k, |was|)])
      && was[Left(i, |was|)].next == was[Right(i, |was|)] && was[Right(i, |was|)].prev == was[Left(i, |was|)]
    }

    lemma BypassedIsValid(was: seq<Node>, i: nat)
      requires i < |was| && |was| > 1 && Bypassed(was, i)
      requires forall j, k :: 0 <= j < k < |was| ==> was[j] != was[k]
      requires elems == Without(was, i) && head == if i == 0 then was[1] else was[0]
      ensures Valid()
    {
      hide Without;
      WithoutAt(was, i);
    }

    /** oper_list_del. */
    method Delete(oper: Node, ghost i: nat)
      requires Valid() && i < |elems| && elems[i] == oper
      modifies this, elems
      ensures Valid() && elems == Without(old(elems), i)
    {
      hide Valid, Without;
      Neighbours();
      ghost var was := elems;
      if head.next == head.prev && head == head.next {
        head := null;
        elems := [];
        assert Without(was, i) == [] by { WithoutAt(was, i); }
        NoneValid();
        return;
      }
      oper.prev.next := oper.next;
      oper.next.prev := oper.prev;
      if head == oper {
        head := oper.next;
      }
      elems := Without(was, i);
      assert Bypassed(was, i);
      BypassedIsValid(was, i);
    }
  }

  /** How the worker moves an operation from one list to the end of another. */
  method Move(oper: Node, from: List, to: List, ghost i: nat)
    requires from.Valid() && to.Valid() && from != to
    requires forall n :: n in from.elems ==> n !in to.elems
    requires i < |from.elems| && from.elems[i] == oper
    modifies from, to, from.elems, to.elems
    ensures from.Valid() && from.elems == Without(old(from.elems), i)
    ensures to.Valid() && to.elems == old(to.elems) + [oper]
    ensures forall n :: n in from.elems ==> n !in to.elems
  {
    hide List.Valid, Without;
    from.OnlyOnce(i);
    assert oper in from.elems;
    from.Delete(oper, i);
    to.Framed();
    label deleted:
    to.Add(oper);
    from.Framed@deleted();
  }
}
