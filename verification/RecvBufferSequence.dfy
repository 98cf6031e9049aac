/** The intrusive, doubly linked list of receive buffers: include/fiona/buffer.hpp.

    Every buffer is one allocation that starts with a header holding its links. A sequence embeds a
    `sentry` header that stands for `end()`: the last buffer's `next` points at the sentry of the
    object that owns the list, so the sentry changes whenever a list is moved to another object.
    Both are objects of class `Header` here, and C++ pointers are references, so aliasing and update
    in place are the heap's own. */
module RecvBufferSequences {

  /** `buf_header_impl` and the storage behind it. `freed` records a call of `aligned_delete`;
      every method below only touches headers that are not freed. */
  class Header {
    const capacity: nat
    var size: nat
    var bytes: seq<int>
    var prev: Header?
    var next: Header?
    ghost var freed: bool

    constructor (capacity: nat)
      ensures this.capacity == capacity && size == 0 && |bytes| == capacity
      ensures prev == null && next == null && !freed
    {
      this.capacity := capacity;
      size := 0;
      bytes := seq(capacity, _ => 0);
      prev, next := null, null;
      freed := false;
    }

    /** A buffer outside every list: what `recv_buffer` owns. */
    ghost predicate Detached()
      reads this
    {
      prev == null && next == null && !freed
    }

    ghost method AlignedDelete()
      requires !freed
      modifies `freed
      ensures freed
    {
      freed := true;
    }
  }

  ghost predicate Distinct(s: seq<Header>)
  {
    forall i, j :: 0 <= i < j < |s| ==> s[i] != s[j]
  }

  class RecvBufferSequence {
    var head: Header?
    var tail: Header?
    var numBufs: nat
    const sentry: Header
    ghost var bufs: seq<Header>

    /** The header that follows the i-th buffer: the next buffer, or this object's own sentry. */
    ghost function Successor(i: nat): Header
      requires i < |bufs|
      reads this
    {
      if i + 1 < |bufs| then bufs[i + 1] else sentry
    }

    ghost predicate Valid()
      reads this, sentry, bufs
    {
      && sentry !in bufs && !sentry.freed && sentry.next == null
      && Distinct(bufs)
      && numBufs == |bufs|
      && (forall i {:trigger bufs[i].freed} :: 0 <= i < |bufs| ==> !bufs[i].freed)
      && (forall i {:trigger bufs[i].next} :: 0 <= i < |bufs| ==> bufs[i].next == Successor(i))
      && (forall i {:trigger bufs[i].prev} :: 1 <= i < |bufs| ==> bufs[i].prev == bufs[i - 1])
      && (if bufs == [] then head == null && tail == null && sentry.prev == null
          else head == bufs[0] && head.prev == null && tail == bufs[|bufs| - 1] && sentry.prev == tail)
    }

    /** Two sequence objects that share no header. */
    ghost predicate Apart(other: RecvBufferSequence)
      reads this, other
    {
      && this != other && sentry != other.sentry && sentry !in other.bufs && other.sentry !in bufs
      && forall i, j :: 0 <= i < |bufs| && 0 <= j < |other.bufs| ==> bufs[i] != other.bufs[j]
    }

    constructor ()
      ensures Valid() && bufs == [] && fresh(sentry)
    {
      head, tail, numBufs, bufs := null, null, 0, [];
      sentry := new Header(0);
    }

    /** What every operation does to a list it has taken the buffers of. */
    method Forget()
      requires !sentry.freed && sentry.next == null
      modifies this, sentry`prev
      ensures Valid() && bufs == []
    {
      head, tail, numBufs, bufs := null, null, 0, [];
      sentry.prev := null;
    }

    /** The part shared by the two moves: an empty list takes over the buffers of `rhs`. They keep
        their addresses, the last one is re-linked to this object's sentry, and `rhs` becomes a valid
        empty list. */
    method TakeOver(rhs: RecvBufferSequence)
      requires Valid() && bufs == [] && rhs.Valid() && Apart(rhs)
      modifies this, sentry`prev, rhs, rhs.sentry`prev, rhs.bufs`next
      ensures Valid() && bufs == old(rhs.bufs)
      ensures rhs.Valid() && rhs.bufs == []
    {
      head, tail, numBufs, bufs := rhs.head, rhs.tail, rhs.numBufs, rhs.bufs;
      rhs.Forget();
      sentry.prev := tail;
      if tail != null {
        tail.next := sentry;
      }
    }

    /** `recv_buffer_sequence( recv_buffer_sequence&& )`. */
    constructor Move(rhs: RecvBufferSequence)
      requires rhs.Valid()
      modifies rhs, rhs.sentry`prev, rhs.bufs`next
      ensures Valid() && bufs == old(rhs.bufs) && fresh(sentry)
      ensures rhs.Valid() && rhs.bufs == [] && Apart(rhs)
    {
      head, tail, numBufs, bufs := null, null, 0, [];
      sentry := new Header(0);
      new;
      TakeOver(rhs);
    }

    /** `operator=( recv_buffer_sequence&& )`; moving an object onto itself leaves it alone. */
    method MoveAssign(rhs: RecvBufferSequence)
      requires Valid() && rhs.Valid() && (rhs == this || Apart(rhs))
      modifies this, sentry`prev, sentry`next, bufs`freed, rhs, rhs.sentry`prev, rhs.bufs`next
      ensures Valid() && bufs == old(rhs.bufs)
      ensures rhs != this ==> rhs.Valid() && rhs.bufs == [] && Apart(rhs)
      ensures rhs != this ==> forall b <- old(bufs) :: b.freed
    {
      if this != rhs {
        if numBufs != 0 {
          FreeList();
        }
        TakeOver(rhs);
      }
    }

    /** The destructor's loop: each buffer is deleted once, its link read before it is deleted, and
        the object is an empty, reusable list afterwards. */
    method FreeList()
      requires Valid()
      modifies this, sentry`prev, sentry`next, bufs`freed
      ensures Valid() && bufs == []
      ensures forall b <- old(bufs) :: b.freed
    {
      if head == null {
        return;
      }
      var p := head;
      ghost var i := 0;
      while p != sentry
        invariant 0 <= i <= |bufs| && bufs == old(bufs)
        invariant p == if i < |bufs| then bufs[i] else sentry
        invariant forall k :: 0 <= k < |bufs| ==> bufs[k].freed == (k < i)
        invariant !sentry.freed
        decreases |bufs| - i
        modifies bufs`freed
      {
        var old_ := p;
        p := p.next;
        old_.AlignedDelete();
        i := i + 1;
      }
      head, tail, numBufs, bufs := null, null, 0, [];
      sentry.next := null;
      sentry.prev := null;
    }

    method PushBack(p: Header)
      requires Valid() && p.Detached() && p != sentry && p !in bufs
      modifies this, sentry`prev, bufs`next, p`prev, p`next
      ensures Valid() && bufs == old(bufs) + [p]
    {
      if tail != null {
        tail.next := p;
        p.prev := tail;
      }
      p.next := sentry;
      sentry.prev := p;
      tail := p;
      if head == null {
        head := p;
      }
      numBufs := numBufs + 1;
      bufs := bufs + [p];
    }

    method PopFront() returns (p: Header)
      requires Valid() && bufs != []
      modifies this, sentry`prev, bufs`prev, bufs`next
      ensures Valid() && bufs == old(bufs)[1..]
      ensures p == old(bufs)[0] && p.Detached()
    {
      p := head;
      head := head.next;
      p.next := null;
      p.prev := null;
      head.prev := null;
      numBufs := numBufs - 1;
      if p == tail {
        tail := null;
        head := null;
      }
      bufs := bufs[1..];
    }

    /** The relinking part of `concat`, for two non-empty lists. */
    method LinkBehind(rhs: RecvBufferSequence)
      requires Valid() && rhs.Valid() && Apart(rhs) && bufs != [] && rhs.bufs != []
      modifies this, sentry`prev, bufs`next, rhs, rhs.sentry`prev, rhs.bufs`prev, rhs.bufs`next
      ensures Valid() && bufs == old(bufs) + old(rhs.bufs)
      ensures rhs.Valid() && rhs.bufs == []
    {
      ghost var front, back := bufs, rhs.bufs;
      tail.next := rhs.head;
      rhs.head.prev := tail;
      rhs.tail.next := sentry;
      sentry.prev := rhs.tail;
      tail := rhs.tail;
      numBufs := numBufs + rhs.numBufs;
      bufs := front + back;
      rhs.Forget();
      forall i | 0 <= i < |bufs|
        ensures bufs[i].next == Successor(i) && !bufs[i].freed && (i > 0 ==> bufs[i].prev == bufs[i - 1])
      {
        assert bufs[i] == if i < |front| then front[i] else back[i - |front|];
      }
    }

    /** `concat( recv_buffer_sequence rhs )`: both lists keep their order, `end()` of this object is
        still its sentry, and `rhs` is left empty. */
    method Concat(rhs: RecvBufferSequence)
      requires Valid() && rhs.Valid() && Apart(rhs)
      modifies this, sentry`prev, sentry`next, bufs`next, bufs`freed, rhs, rhs.sentry`prev, rhs.bufs`prev, rhs.bufs`next
      ensures Valid() && bufs == old(bufs) + old(rhs.bufs)
      ensures rhs.Valid() && rhs.bufs == []
    {
      if rhs.numBufs == 0 {
        assert bufs + rhs.bufs == bufs;
      } else if numBufs == 0 {
        assert bufs + rhs.bufs == rhs.bufs;
        MoveAssign(rhs);
      } else {
        LinkBehind(rhs);
      }
    }
  }
}
