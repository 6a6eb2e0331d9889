/**
 The list of operations of one queue, as the doubly linked chain of aio_thread
 records that the I/O threads themselves link and unlink.
 */
module AioList {
  import opened Aio

  class AioThread {
    var op: Kind
    var prev: AioThread?
    var next: AioThread?

    constructor (op: Kind)
      ensures this.op == op
    {
      this.op := op;
      prev, next := null, null;
    }
  }

  /** The element at place `i`, or the null that stands before the first and after the last. */
  ghost function Nth(list: seq<AioThread>, i: int): (t: AioThread?) {
    if 0 <= i < |list| then list[i] else null
  }

  ghost predicate Distinct(list: seq<AioThread>) {
    forall i, j :: 0 <= i < j < |list| ==> list[i] != list[j]
  }

  /** Both link fields of every record, and nothing else, say what the list is. */
  ghost predicate Linked(list: seq<AioThread>)
    reads list
  {
    && Distinct(list)
    && forall i :: 0 <= i < |list| ==> list[i].prev == Nth(list, i - 1) && list[i].next == Nth(list, i + 1)
  }

  ghost predicate NextOk(list: seq<AioThread>)
    reads list`next
  {
    forall k :: 0 <= k < |list| ==> list[k].next == Nth(list, k + 1)
  }

  /** The links after the neighbours of place `i` have been joined. */
  ghost predicate PrevJoined(list: seq<AioThread>, i: nat)
    reads list`prev
  {
    forall k :: 0 <= k < |list| ==> list[k].prev == if k == i + 1 then Nth(list, i - 1) else Nth(list, k - 1)
  }

  ghost predicate NextJoined(list: seq<AioThread>, i: nat)
    reads list`next
  {
    forall k :: 0 <= k < |list| ==> list[k].next == if k == i - 1 then Nth(list, i + 1) else Nth(list, k + 1)
  }

  /** The list without place `i`. */
  ghost function Cut(list: seq<AioThread>, i: nat): (r: seq<AioThread>)
    requires i < |list|
  {
    list[..i] + list[i + 1..]
  }

  lemma CutNth(list: seq<AioThread>, i: nat, k: int)
    requires i < |list| && -1 <= k
    ensures Nth(Cut(list, i), k) == if k < i then Nth(list, k) else Nth(list, k + 1)
  {
  }

  lemma CutDistinct(list: seq<AioThread>, i: nat)
    requires i < |list| && Distinct(list)
    ensures Distinct(Cut(list, i)) && |Cut(list, i)| == |list| - 1
  {
    var rest := Cut(list, i);
    assert forall k :: 0 <= k < |rest| ==> rest[k] == list[if k < i then k else k + 1];
  }

  lemma Spliced(list: seq<AioThread>, i: nat)
    requires i < |list| && Distinct(list) && PrevJoined(list, i) && NextJoined(list, i)
    ensures Linked(Cut(list, i))
  {
    hide Cut, Distinct;
    var rest := Cut(list, i);
    CutDistinct(list, i);
    forall k | 0 <= k < |rest|
      ensures rest[k].prev == Nth(rest, k - 1) && rest[k].next == Nth(rest, k + 1)
    {
      CutNth(list, i, k - 1);
      CutNth(list, i, k);
      CutNth(list, i, k + 1);
    }
  }

  lemma LinkedIs(list: seq<AioThread>)
    requires Linked(list)
    ensures Distinct(list) && NextOk(list)
  {
    hide Distinct;
  }

  /** Before the first there is nothing to join. */
  lemma FirstJoined(list: seq<AioThread>)
    requires NextOk(list)
    ensures NextJoined(list, 0)
  {
  }

  lemma NextAt(list: seq<AioThread>, j: nat)
    requires Linked(list) && j < |list|
    ensures list[j].next == Nth(list, j + 1)
  {
  }

  class AioQueue {
    var head: AioThread?

    ghost predicate Holds(list: seq<AioThread>)
      reads this, list
    {
      head == Nth(list, 0) && Linked(list)
    }

    constructor ()
      ensures Holds([])
    {
      head := null;
    }

    /** An operation goes in front. */
    method Enlist(at: AioThread, ghost list: seq<AioThread>)
      requires Holds(list) && at !in list
      modifies this, at`prev, at`next, list`prev
      ensures Holds([at] + list)
    {
      at.prev := null;
      at.next := head;
      if at.next != null {
        at.next.prev := at;
      }
      head := at;
    }

    /** An operation leaves, wherever it stands. */
    method Unlist(at: AioThread, ghost list: seq<AioThread>, ghost i: nat)
      requires Holds(list) && i < |list| && list[i] == at
      modifies this, list`prev, list`next
      ensures Holds(Cut(list, i))
    {
      hide Cut, Distinct, Linked, PrevJoined, NextOk, NextJoined;
      LinkedIs(list);
      JoinNext(at, list, i);
      if at.prev != null {
        JoinPrev(at, list, i);
      } else {
        FirstJoined(list);
        head := at.next;
      }
      Spliced(list, i);
      CutNth(list, i, 0);
    }

    static method JoinNext(at: AioThread, ghost list: seq<AioThread>, ghost i: nat)
      requires Linked(list) && i < |list| && list[i] == at
      modifies list`prev
      ensures PrevJoined(list, i) && at.prev == Nth(list, i - 1) && at.next == Nth(list, i + 1)
    {
      if at.next != null {
        at.next.prev := at.prev;
      }
    }

    static method JoinPrev(at: AioThread, ghost list: seq<AioThread>, ghost i: nat)
      requires Distinct(list) && i < |list| && list[i] == at && at.prev != null && at.prev == Nth(list, i - 1) && NextOk(list)
      modifies list`next
      ensures NextJoined(list, i)
    {
      at.prev.next := at.next;
    }

    /** Is an older write still listed?  What an ordered operation asks before it may start. */
    method WriteBehind(at: AioThread, ghost list: seq<AioThread>, ghost i: nat) returns (waits: bool)
      requires Holds(list) && i < |list| && list[i] == at
      ensures waits <==> exists j :: i < j < |list| && list[j].op == Write
    {
      hide Linked;
      NextAt(list, i);
      var p := at.next;
      ghost var j := i + 1;
      while p != null && p.op != Write
        invariant i < j <= |list| && p == Nth(list, j)
        invariant forall k :: i < k < j ==> list[k].op != Write
        decreases |list| - j
      {
        NextAt(list, j);
        p := p.next;
        j := j + 1;
      }
      waits := p != null;
    }
  }
}
