/** `buf_ring`, `recv_frame` and `recv_awaitable` as objects that are updated in place: src/common.cpp,
    src/detail/stream_impl.hpp and src/tcp.cpp. Each method is proved to do what its function in
    RecvModel.dfy says; what follows for whole runs is in RecvTheorems.dfy and RecvConservation.dfy. */
module RecvFrames {
  import opened KernelRings
  import opened RecvModel

  /** The loop of `await_resume` does not stop at buffer `len`. */
  predicate Wants(f: Frame, len: nat) {
    len < |f.buffers| && f.buffers[len].size > 0
  }

  lemma NextWanted(f: Frame, len: nat)
    requires len <= |f.buffers|
    ensures f.LeadingData(len) == if Wants(f, len) then 1 + f.LeadingData(len + 1) else 0
  {
  }

  class BufRing {
    const bufs: array<Slot>
    const bufIds: array<nat>
    var bufIdPos: nat
    const bufSize: nat
    const ring: KernelRing

    ghost predicate Valid()
      reads this, bufs, bufIds, ring, ring.slots
    {
      && bufIds.Length == bufs.Length == ring.slots.Length
      && ring.State().Valid()
      && bufIdPos + ring.State().Count() <= bufs.Length
      && State().Indexed()
    }

    ghost function State(): Ring
      requires bufIdPos <= bufIds.Length && ring.slots.Length > 0
      reads this, bufs, bufIds, ring, ring.slots
    {
      Ring(bufs[..], bufIds[..bufIdPos], ring.State().Window(), bufSize)
    }

    /** The constructor of src/common.cpp:56: allocate all buffers (at `addr`, `addr + 1`, ...), add
        them at offsets 0, 1, ... and advance once. */
    constructor (n: nat, bufSize: nat, addr: nat)
      requires RingSize(n)
      ensures Valid() && fresh(bufs) && fresh(bufIds) && fresh(ring) && fresh(ring.slots)
      ensures State() == NewRing(n, bufSize, addr)
      ensures bufs.Length == n && bufIdPos == 0 && forall i :: 0 <= i < n ==> bufs[i] == Slot(addr + i, bufSize)
      ensures |ring.State().Window()| == n && forall i :: 0 <= i < n ==> ring.State().Window()[i] == Entry(addr + i, bufSize, i)
    {
      bufs := new Slot[n](i => NO_BUFFER);
      bufIds := new nat[n](i => 0);
      bufIdPos := 0;
      this.bufSize := bufSize;
      ring := new KernelRing(n);
      new;
      for i := 0 to n
        invariant forall k :: 0 <= k < i ==> bufs[k] == Slot(addr + k, bufSize)
        modifies bufs
      {
        bufs[i] := Slot(addr + i, bufSize);
      }
      ProvideAll(addr);
    }

    method ProvideAll(addr: nat)
      requires bufIds.Length == bufs.Length == ring.slots.Length && bufIdPos == 0
      requires ring.State().Valid() && ring.State().Window() == []
      requires forall k :: 0 <= k < bufs.Length ==> bufs[k] == Slot(addr + k, bufSize)
      modifies ring, ring.slots
      ensures Valid() && State() == NewRing(bufs.Length, bufSize, addr)
    {
      ghost var entries := NewRing(bufs.Length, bufSize, addr).kernel;
      for i := 0 to bufs.Length
        invariant ring.State().Valid() && ring.State().Window() == []
        invariant ring.State().Staged(i) == entries[..i]
        modifies ring.slots
      {
        ring.Add(Entry(bufs[i].addr, bufs[i].cap, i), i);
      }
      ring.Advance(bufs.Length);
      assert ring.State().Window() == entries;
    }

    /** The processing of a data completion: the buffer leaves its slot, the id goes on the stack. */
    method Take(bid: nat) returns (slot: Slot)
      requires Valid() && bid < bufs.Length && bufIdPos + ring.State().Count() < bufs.Length
      modifies this, bufs, bufIds
      ensures Valid() && slot == old(State()).slots[bid] && State() == old(State()).Take(bid)
    {
      slot := bufs[bid];
      bufs[bid] := NO_BUFFER;
      bufIds[bufIdPos] := bid;
      bufIdPos := bufIdPos + 1;
    }

    /** `*( --buf_id_pos_ )`. */
    method PopId() returns (id: nat)
      requires 0 < bufIdPos <= bufIds.Length
      modifies this`bufIdPos
      ensures bufIdPos == old(bufIdPos) - 1 && id == bufIds[bufIdPos]
      ensures bufIds[..old(bufIdPos)] == bufIds[..bufIdPos] + [id]
    {
      bufIdPos := bufIdPos - 1;
      id := bufIds[bufIdPos];
    }

    method RecycleBuffer(addr: nat, cap: nat)
      requires Valid()
      modifies this, bufs, ring, ring.slots
      ensures Valid() && State() == old(State()).Recycle(addr, cap)
      ensures old(bufIdPos) == 0 ==> State() == old(State())
      ensures old(bufIdPos) > 0 ==>
        var id := old(bufIds[bufIdPos - 1]);
        && bufIdPos == old(bufIdPos) - 1 && bufIds[..bufIdPos] == old(bufIds[..bufIdPos - 1])
        && id < bufs.Length && bufs[..] == old(bufs[..])[id := Slot(addr, cap)]
        && ring.State().Window() == old(ring.State().Window()) + [Entry(addr, cap, id)]
    {
      if bufIdPos == 0 {
        return;
      }
      var id := PopId();
      ring.Push(Entry(addr, cap, id));
      bufs[id] := Slot(addr, cap);
    }

    /** One turn of the replenishing loop of `await_resume`: entry number `len` is staged, not yet
        visible to the kernel. `before` is the state before the loop. */
    method Restock(addr: nat, len: nat, ghost before: Ring)
      requires 0 < bufIdPos <= bufIds.Length == bufs.Length == ring.slots.Length
      requires ring.State().Valid() && ring.State().Count() + bufIdPos + len <= bufs.Length
      requires Restocked(addr, len, before)
      modifies this, bufs, ring.slots
      ensures bufIdPos == old(bufIdPos) - 1 && Restocked(addr, len + 1, before)
      ensures ring.State().Valid() && ring.State().Count() == old(ring.State().Count())
    {
      var id := PopId();
      ring.Add(Entry(addr + len, bufSize, id), len);
      bufs[id] := Slot(addr + len, bufSize);
    }

    /** The advance behind the replenishing loop publishes all staged entries at once. */
    method Publish(addr: nat, len: nat, ghost before: Ring)
      requires bufIdPos <= bufIds.Length == bufs.Length == ring.slots.Length
      requires ring.State().Valid() && ring.State().Count() + bufIdPos + len <= bufs.Length
      requires Restocked(addr, len, before)
      modifies ring
      ensures Valid() && State() == before.Refill(addr, len)
    {
      if len > 0 {
        ring.Advance(len);
      }
    }

    /** After `len` rounds of the loop that started in state `before`. */
    ghost predicate Refilling(f: Frame, addr: nat, len: nat, before: Ring)
      reads this, bufs, bufIds, ring, ring.slots
    {
      && bufIdPos + len == |before.stack| && bufIdPos <= bufIds.Length == bufs.Length == ring.slots.Length
      && ring.State().Valid() && ring.State().Count() + bufIdPos + len <= bufs.Length
      && len <= |f.buffers| && f.LeadingData() == len + f.LeadingData(len)
      && Restocked(addr, len, before)
    }

    method Round(f: Frame, addr: nat, len: nat, ghost before: Ring)
      requires Refilling(f, addr, len, before) && Wants(f, len) && bufIdPos != 0
      modifies this, bufs, ring.slots
      ensures Refilling(f, addr, len + 1, before)
    {
      NextWanted(f, len);
      Restock(addr, len, before);
    }

    /** The replenishing loop of `await_resume`: one fresh buffer for each pending data buffer, until
        an empty buffer is met or no id is free. */
    method Replenish(f: Frame, addr: nat)
      requires Valid()
      modifies this, bufs, ring, ring.slots
      ensures Valid() && State() == old(State()).Refill(addr, Replenished(f, old(State())))
    {
      var len := 0;
      ghost var before := State();
      assert Refilling(f, addr, 0, before);
      while Wants(f, len) && bufIdPos != 0
        invariant Refilling(f, addr, len, before)
        decreases |f.buffers| - len
        modifies this, bufs, ring.slots
      {
        Round(f, addr, len, before);
        len := len + 1;
      }
      NextWanted(f, len);
      assert len == Replenished(f, before);
      Publish(addr, len, before);
    }

    ghost predicate Restocked(addr: nat, len: nat, before: Ring)
      requires bufIdPos <= bufIds.Length && ring.slots.Length > 0
      reads this, bufs, bufIds, ring, ring.slots
    {
      && before.Indexed() && len <= |before.stack| && before.bufSize == bufSize
      && var r := before.Refill(addr, len);
      && r.slots == bufs[..] && r.stack == bufIds[..bufIdPos]
      && ring.State().Window() == before.kernel
      && r.kernel == before.kernel + ring.State().Staged(len)
    }
  }

  class RecvFrame {
    var buffers: seq<Buf>
    var ec: Option<int>
    var handle: Option<nat>
    var ring: nat
    var group: Option<nat>
    var initiated: bool
    var streamCancelled: bool

    ghost function State(): Frame
      reads this
    {
      Frame(buffers, ec, handle, ring, group, initiated, streamCancelled)
    }

    constructor ()
      ensures State() == NEW_FRAME
    {
      buffers, ec, handle, ring, group, initiated, streamCancelled := [], None, None, 0, None, false, false;
    }

    /** `recv_frame::await_process_cqe`. `br` is `*p_buf_ring_`. */
    method AwaitProcessCqe(res: int, more: bool, bid: nat, br: BufRing)
      requires br.Valid()
      requires res <= 0 ==> !more
      requires res > 0 ==> bid < br.bufs.Length && br.bufIdPos + br.ring.State().Count() < br.bufs.Length
      modifies this, br, br.bufs, br.bufIds
      ensures br.Valid()
      ensures res < 0 ==> State() == old(State()).Fail(-res)
      ensures res == 0 ==> State() == old(State()).AtEof()
      ensures res > 0 ==> State() == old(State()).Receive(old(br.State()).slots[bid], res, more)
      ensures br.State() == if res > 0 then old(br.State()).Take(bid) else old(br.State())
      ensures ec == if res < 0 then Some(if res == -125 && !old(streamCancelled) then 110 else -res) else old(ec)
      ensures buffers == old(buffers) +
        if res < 0 then [] else if res == 0 then [Buf(0, 0, 0)] else [Buf(old(br.bufs[bid]).addr, old(br.bufs[bid]).cap, res)]
      ensures initiated == more && streamCancelled == old(streamCancelled) && handle == old(handle) && group == old(group)
    {
      if res < 0 {
        if res == -ECANCELED && !streamCancelled {
          ec := Some(ETIMEDOUT);
        } else {
          ec := Some(-res);
        }
      }
      if res == 0 {
        buffers := buffers + [EOF_BUFFER];
      }
      if res > 0 {
        var slot := br.Take(bid);
        buffers := buffers + [Buf(slot.addr, slot.cap, res)];
      }
      initiated := more;
    }

    /** `handle()`: at most one completion gets the coroutine. */
    method Handle() returns (h: Option<nat>)
      modifies this
      ensures h == old(handle) && State() == old(State()).(handle := None)
    {
      h := handle;
      handle := None;
    }

    /** `recv_awaitable::await_suspend`; the boolean is its result, unless it throws EINVAL. */
    method AwaitSuspend(h: nat) returns (suspended: bool, throws: bool)
      modifies this
      ensures (State(), if throws then Throws else if suspended then Suspended else Ready)
        == RecvModel.AwaitSuspend(old(State()), h)
      ensures throws <==> old(ec).None? && !old(initiated) && old(group).None?
      ensures suspended <==> old(ec).None? && (old(initiated) || old(group).Some?)
      ensures handle == Some(h) && initiated == (old(initiated) || suspended)
      ensures suspended && !old(initiated) ==> group == Some(ring)
    {
      handle := Some(h);
      if ec.Some? {
        return false, false;
      }
      if initiated {
        return true, false;
      }
      if group.None? {
        return false, true;
      }
      ring := group.value;
      initiated := true;
      return true, false;
    }

    /** `recv_awaitable::await_resume`. `br` is the ring of the current group; fresh buffers are
        allocated at `addr`, `addr + 1`, ... The entries are staged one by one and published by one
        advance. */
    method AwaitResume(br: BufRing, addr: nat) returns (bufs: seq<Buf>, err: Option<int>)
      requires br.Valid()
      modifies this, br, br.bufs, br.ring, br.ring.slots
      ensures br.Valid() && bufs == old(buffers)
      ensures old(buffers) == [] ==> err == old(ec) && State() == old(State()).(ec := None) && br.State() == old(br.State())
      ensures old(buffers) != [] ==>
        && err == None && State() == old(State()).(buffers := [])
        && br.State() == old(br.State()).Refill(addr, Replenished(old(State()), old(br.State())))
    {
      bufs := buffers;
      if buffers == [] {
        err := ec;
        ec := None;
        return;
      }
      err := None;
      br.Replenish(Frame(buffers, ec, handle, ring, group, initiated, streamCancelled), addr);
      buffers := [];
    }
  }
}
