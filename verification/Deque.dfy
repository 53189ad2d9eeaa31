/** The message queue of a thread: a singly linked list with a pointer to each end. These are the
    critical sections; what waiting threads see of them is in WaitQueue. */
module Deque {
  import opened ObjTable

  class Link<V> {
    var msg: V
    var next: Link?<V>

    constructor (msg: V, next: Link?<V>)
      ensures this.msg == msg && this.next == next
    {
      this.msg, this.next := msg, next;
    }
  }

  class Queue<V(0)> {
    var first: Link?<V>
    var last: Link?<V>
    /** The links from first to last. */
    ghost var links: seq<Link<V>>

    ghost predicate Valid()
      reads this, links
    {
      && (first == null <==> links == []) && (last == null <==> links == [])
      && (links != [] ==> first == links[0] && last == links[|links| - 1] && last.next == null)
      && (forall i :: 0 <= i < |links| - 1 ==> links[i].next == links[i + 1])
      && (forall i, j :: 0 <= i < j < |links| ==> links[i] != links[j])
    }

    ghost function Contents(): (c: seq<V>)
      reads this, links
      ensures |c| == |links|
    {
      seq(|links|, i requires 0 <= i < |links| reads this, links => links[i].msg)
    }

    constructor ()
      ensures Valid() && Contents() == [] && links == []
    {
      first, last, links := null, null, [];
    }

    /** `_deque_add`. */
    method Add(msg: V)
      requires Valid()
      modifies this, last
      ensures Valid() && Contents() == old(Contents()) + [msg]
      ensures fresh(set x <- links | x !in old(links))
    {
      var t := new Link(msg, null);
      if last == null {
        first := t;
      } else {
        last.next := t;
      }
      last, links := t, links + [t];
    }

    /** `_deque_push`. */
    method Push(msg: V)
      requires Valid()
      modifies this
      ensures Valid() && Contents() == [msg] + old(Contents())
      ensures fresh(set x <- links | x !in old(links))
    {
      var t := new Link(msg, first);
      first := t;
      if last == null {
        last := t;
      }
      links := [t] + links;
    }

    /** The part of `_deque_pop` after its loop: `more` says that another consumer has to be signalled. */
    method Take() returns (msg: V, more: bool)
      requires Valid() && first != null
      modifies this
      ensures Valid() && old(Contents()) == [msg] + Contents()
      ensures more <==> Contents() != []
    {
      assert if |links| == 1 then links[0] == last else links[0].next == links[1];
      msg := first.msg;
      first := first.next;
      if first == null {
        last := null;
      }
      more := first != null;
      links := links[1..];
    }
  }
}
