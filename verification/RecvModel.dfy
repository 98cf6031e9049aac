/** The receive pipeline as values: a provided-buffer ring (`buf_ring`), the receive half of a stream
    (`recv_frame` and `recv_awaitable`), and what the kernel and the user hold.

    The functions here are the specifications of the methods in RecvFrame.dfy; RecvPipeline.dfy runs
    any number of streams on any number of rings with them. */
module RecvModel {
  import opened KernelRings

  datatype Option<+T> = None | Some(value: T)

  const ECANCELED: int := 125
  const ETIMEDOUT: int := 110

  // ------------------------------------------------------------------- buf_ring

  /** An element of `bufs_`. A moved-from or default `recv_buffer` has capacity 0. */
  datatype Slot = Slot(addr: nat, cap: nat)

  const NO_BUFFER := Slot(0, 0)

  /** `stack` is `buf_ids_` up to `buf_id_pos_`; `kernel` is the window of the shared ring. */
  datatype Ring = Ring(slots: seq<Slot>, stack: seq<nat>, kernel: seq<Entry>, bufSize: nat) {
    predicate Indexed() {
      && (forall i :: 0 <= i < |stack| ==> stack[i] < |slots|)
      && (forall i :: 0 <= i < |kernel| ==> kernel[i].bid < |slots|)
    }

    /** A completion takes the buffer out of its slot and frees the id. */
    function Take(bid: nat): Ring
      requires bid < |slots|
    {
      this.(slots := slots[bid := NO_BUFFER], stack := stack + [bid])
    }

    /** Pop an id, put a buffer in its slot and hand the buffer to the kernel. */
    function Provide(addr: nat, cap: nat): Ring
      requires |stack| > 0 && stack[|stack| - 1] < |slots|
    {
      var id := stack[|stack| - 1];
      this.(slots := slots[id := Slot(addr, cap)], stack := stack[..|stack| - 1],
            kernel := kernel + [Entry(addr, cap, id)])
    }

    /** `recycle_buffer`: with no free id the buffer is simply dropped. */
    function Recycle(addr: nat, cap: nat): Ring
      requires Indexed()
    {
      if stack == [] then this else Provide(addr, cap)
    }

    /** Provide `k` fresh buffers, allocated at `addr`, `addr + 1`, ... */
    function Refill(addr: nat, k: nat): (r: Ring)
      requires Indexed() && k <= |stack|
      ensures r.Indexed() && |r.stack| == |stack| - k && |r.slots| == |slots| && r.bufSize == bufSize
      decreases k
    {
      if k == 0 then this else Refill(addr, k - 1).Provide(addr + (k - 1), bufSize)
    }
  }

  /** The i-th entry behind the old window is a fresh buffer of the ring's size, under the i-th id from the
      top of the stack. */
  ghost predicate Provided(r: Ring, r': Ring, addr: nat, i: nat)
    requires i < |r.stack| && |r.kernel| + i < |r'.kernel|
  {
    r'.kernel[|r.kernel| + i] == Entry(addr + i, r.bufSize, r.stack[|r.stack| - 1 - i])
  }

  /** What a refill provides: one entry per id, from the top of the stack down. */
  lemma {:induction false} RefillProvides(r: Ring, addr: nat, k: nat)
    requires r.Indexed() && k <= |r.stack|
    ensures var r' := r.Refill(addr, k);
            && r'.stack == r.stack[..|r.stack| - k] && |r'.kernel| == |r.kernel| + k
            && r'.kernel[..|r.kernel|] == r.kernel
            && forall i :: 0 <= i < k ==> Provided(r, r', addr, i)
  {
    if k > 0 {
      RefillProvides(r, addr, k - 1);
      var p := r.Refill(addr, k - 1);
      assert p.stack[|p.stack| - 1] == r.stack[|r.stack| - k];
      var r' := r.Refill(addr, k);
      forall i | 0 <= i < k ensures Provided(r, r', addr, i) {
        assert i < k - 1 ==> Provided(r, p, addr, i);
      }
    }
  }

  /** The ring a `buf_ring` constructor leaves behind. */
  function NewRing(n: nat, bufSize: nat, addr: nat): Ring {
    Ring(seq(n, i requires i >= 0 => Slot(addr + i, bufSize)), [],
         seq(n, i requires i >= 0 => Entry(addr + i, bufSize, i)), bufSize)
  }

  // ------------------------------------------------------------------ recv_frame

  /** A delivered or pending `recv_buffer`; an end of file is a buffer of capacity 0. */
  datatype Buf = Buf(addr: nat, cap: nat, size: nat)

  const EOF_BUFFER := Buf(0, 0, 0)

  /** The fields of `recv_frame` and `stream_cancelled_`. `handle` is `h_`, `ring` is `p_buf_ring_`,
      `group` is `buffer_group_id_`. */
  datatype Frame = Frame(
    buffers: seq<Buf>,
    ec: Option<int>,
    handle: Option<nat>,
    ring: nat,
    group: Option<nat>,
    initiated: bool,
    streamCancelled: bool) {

    /** `await_process_cqe` with a negative result. */
    function Fail(errno: int): Frame {
      this.(ec := Some(if errno == ECANCELED && !streamCancelled then ETIMEDOUT else errno),
            initiated := false)
    }

    /** `await_process_cqe` with result 0. */
    function AtEof(): Frame {
      this.(buffers := buffers + [EOF_BUFFER], initiated := false)
    }

    /** `await_process_cqe` with a positive result: the buffer leaves slot `slot` of the ring. */
    function Receive(slot: Slot, len: nat, more: bool): Frame {
      this.(buffers := buffers + [Buf(slot.addr, slot.cap, len)], initiated := more)
    }

    /** `schedule_recv`, on the ring of the stream's buffer group. */
    function Schedule(): Frame
      requires group.Some?
    {
      this.(ring := group.value, initiated := true)
    }

    /** The number of buffers in front of the first empty one, from the i-th on: how often the loop
        of `await_resume` wants to replenish. */
    function LeadingData(i: nat := 0): (k: nat)
      requires i <= |buffers|
      ensures k <= |buffers| - i
      decreases |buffers| - i
    {
      if i < |buffers| && buffers[i].size > 0 then 1 + LeadingData(i + 1) else 0
    }
  }

  const NEW_FRAME := Frame([], None, None, 0, None, false, false)

  /** What `co_await stream.async_recv()` does before it may suspend. */
  datatype Suspension = Ready | Throws | Suspended

  function AwaitReady(f: Frame): bool {
    f.buffers != []
  }

  function AwaitSuspend(f: Frame, h: nat): (Frame, Suspension) {
    var f := f.(handle := Some(h));
    if f.ec.Some? then (f, Ready)
    else if f.initiated then (f, Suspended)
    else if f.group.None? then (f, Throws)
    else (f.Schedule(), Suspended)
  }

  /** How many buffers `await_resume` gives back to the kernel: it stops early when no id is free. */
  function Replenished(f: Frame, r: Ring): (k: nat)
    ensures k <= |r.stack| && k <= f.LeadingData()
    ensures k < f.LeadingData() ==> k == |r.stack|
  {
    if |r.stack| < f.LeadingData() then |r.stack| else f.LeadingData()
  }
}
