/** All runs of the receive pipeline: src/detail/stream_impl.hpp:383-458, src/tcp.cpp:703-720,
    src/tcp.cpp:998-1083, src/common.cpp:56-105.

    The kernel is a nondeterministic peer. For each stream it posts completions in order, out of the
    buffers provided through the stream's ring; the run loop processes the completions of different
    streams in any interleaving. Buffers are addresses in one memory, so a buffer that had two owners
    would be overwritten by the kernel while somebody still reads it. */
module RecvPipeline {
  import opened KernelRings
  import opened RecvModel

  type Byte = b: int | 0 <= b < 256

  /** A posted, unprocessed data completion. */
  datatype DataCqe = DataCqe(bid: nat, len: nat, more: bool)

  /** The coroutine that awaits the stream: none, suspended, or collected by the run loop and waiting
      in its handle array to be resumed. */
  datatype Reader = NoReader | Asleep(h: nat) | Collected(h: nat)

  /** A stream together with the kernel's half of its receive operation and four logs. `armed` says
      the multishot operation is still in the kernel; `end` is its posted final completion with a
      result <= 0, which is always behind the data completions in `posted`. */
  datatype Stream = Stream(
    frame: Frame,
    armed: bool,
    posted: seq<DataCqe>,
    end: Option<int>,
    reader: Reader,
    received: seq<seq<Byte>>,
    delivered: seq<seq<Byte>>,
    eofs: nat,
    raised: seq<int>,
    reported: seq<int>,
    suspensions: nat,
    resumptions: nat)

  const NEW_STREAM := Stream(NEW_FRAME, false, [], None, NoReader, [], [], 0, [], [], 0, 0)

  /** Who holds a live allocation. */
  datatype Owner = InSlot(g: nat, id: nat) | Pending(s: nat, i: nat) | User

  datatype Sys = Sys(
    rings: seq<Ring>,
    streams: seq<Stream>,
    mem: map<nat, seq<Byte>>,
    owner: map<nat, Owner>,
    next: nat)

  // ------------------------------------------------------------------ invariants

  /** Data buffers among the pending ones: an empty buffer can only be the last. */
  function DataCount(bufs: seq<Buf>): (n: nat)
    ensures n <= |bufs|
  {
    if bufs != [] && bufs[|bufs| - 1].size == 0 then |bufs| - 1 else |bufs|
  }

  function KernelIds(es: seq<Entry>): (ids: seq<nat>)
    ensures |ids| == |es| && forall i :: 0 <= i < |es| ==> ids[i] == es[i].bid
  {
    seq(|es|, i requires 0 <= i < |es| => es[i].bid)
  }

  function PostedIds(cqes: seq<DataCqe>): (ids: seq<nat>)
    ensures |ids| == |cqes| && forall i :: 0 <= i < |cqes| ==> ids[i] == cqes[i].bid
  {
    seq(|cqes|, i requires 0 <= i < |cqes| => cqes[i].bid)
  }

  /** How often id `id` of ring `g` is in the posted, unprocessed completions of one stream. */
  function InFlight(st: Stream, g: nat, id: nat): nat {
    if st.frame.ring == g then multiset(PostedIds(st.posted))[id] else 0
  }

  function AllInFlight(streams: seq<Stream>, g: nat, id: nat, n: nat): nat
    requires n <= |streams|
  {
    if n == 0 then 0 else AllInFlight(streams, g, id, n - 1) + InFlight(streams[n - 1], g, id)
  }

  /** How many places of ring `g` hold id `id`: the entries provided to the kernel, the free stack and
      the posted completions. */
  function Places(sys: Sys, g: nat, id: nat): nat
    requires g < |sys.rings|
  {
    var r := sys.rings[g];
    multiset(KernelIds(r.kernel))[id] + multiset(r.stack)[id] + AllInFlight(sys.streams, g, id, |sys.streams|)
  }

  /** Every id of ring `g` is in exactly one place, and there are no other ids. */
  ghost predicate Partition(sys: Sys, g: nat)
    requires g < |sys.rings|
  {
    forall id: nat :: Places(sys, g, id) == if id < |sys.rings[g].slots| then 1 else 0
  }

  /** A slot is filled exactly when its id is off the stack, and what the kernel was told about a
      provided buffer is what the slot holds. */
  ghost predicate RingOk(r: Ring) {
    && r.bufSize > 0
    && r.Indexed()
    && (forall id :: 0 <= id < |r.slots| ==> (r.slots[id].cap == 0 <==> id in r.stack))
    && (forall i :: 0 <= i < |r.kernel| ==> r.slots[r.kernel[i].bid] == Slot(r.kernel[i].addr, r.kernel[i].len))
  }

  ghost predicate StreamOk(st: Stream, rings: nat) {
    var f := st.frame;
    // the operation: outstanding exactly while the kernel or a posted completion can still report
    && (f.initiated <==> st.armed || st.posted != [] || st.end.Some?)
    && (st.armed ==> st.end.None?) && (st.end.Some? ==> st.end.value <= 0)
    && (forall j :: 0 <= j < |st.posted| ==>
          (st.posted[j].more <==> j < |st.posted| - 1 || st.armed || st.end.Some?))
    && (f.initiated ==> f.group == Some(f.ring))
    && (f.group.Some? ==> f.group.value < rings)
    && (f.buffers != [] ==> f.group.Some?)
    // an end of file is last, an error comes after the operation
    && (forall i :: 0 <= i < |f.buffers| - 1 ==> f.buffers[i].size > 0)
    && (f.initiated ==> DataCount(f.buffers) == |f.buffers|)
    && (f.ec.Some? ==> !f.initiated)
    && st.raised == st.reported + (if f.ec.Some? then [f.ec.value] else [])
    // the wakeup protocol
    && (match st.reader
        case NoReader => f.initiated ==> f.handle.None?
        case Asleep(h) => f.initiated && f.handle == Some(h) && f.buffers == []
        case Collected(h) => f.handle.None? && (f.buffers != [] || f.ec.Some?))
    && st.suspensions == st.resumptions + (if st.reader.NoReader? then 0 else 1)
  }

  /** Byte-stream refinement for one stream: what the kernel received so far is what was delivered,
      then the pending buffers, then the posted completions, chunk by chunk and in order. */
  ghost predicate Refines(st: Stream, r: Ring, mem: map<nat, seq<Byte>>) {
    var f, d, n := st.frame, |st.delivered|, DataCount(st.frame.buffers);
    && |st.received| == d + n + |st.posted|
    && st.delivered == st.received[..d]
    && (forall i :: 0 <= i < n ==> ChunkAt(mem, f.buffers[i].addr, f.buffers[i].size, st.received[d + i]))
    && (forall j :: 0 <= j < |st.posted| ==>
          && st.posted[j].bid < |r.slots|
          && 0 < st.posted[j].len <= r.slots[st.posted[j].bid].cap
          && ChunkAt(mem, r.slots[st.posted[j].bid].addr, st.posted[j].len, st.received[d + n + j]))
  }

  ghost predicate ChunkAt(mem: map<nat, seq<Byte>>, addr: nat, len: nat, chunk: seq<Byte>) {
    addr in mem && mem[addr] == chunk && |chunk| == len
  }

  ghost predicate Owns(sys: Sys, addr: nat, o: Owner) {
    addr in sys.owner && sys.owner[addr] == o
  }

  /** Every live buffer has one owner, the place that refers to it. */
  ghost predicate Owned(sys: Sys) {
    && (forall a <- sys.owner :: a < sys.next)
    && (forall g, id :: 0 <= g < |sys.rings| && 0 <= id < |sys.rings[g].slots| && sys.rings[g].slots[id].cap > 0
          ==> Owns(sys, sys.rings[g].slots[id].addr, InSlot(g, id)))
    && (forall s, i :: 0 <= s < |sys.streams| && 0 <= i < |sys.streams[s].frame.buffers|
          && sys.streams[s].frame.buffers[i].size > 0
          ==> Owns(sys, sys.streams[s].frame.buffers[i].addr, Pending(s, i)))
  }

  /** The ring a stream's operation draws from. */
  function RingOf(rings: seq<Ring>, st: Stream): Ring {
    if st.frame.ring < |rings| then rings[st.frame.ring] else Ring([], [], [], 1)
  }

  ghost predicate RingsOk(sys: Sys) {
    forall g :: 0 <= g < |sys.rings| ==> RingOk(sys.rings[g])
  }

  ghost predicate Partitioned(sys: Sys) {
    forall g :: 0 <= g < |sys.rings| ==> Partition(sys, g)
  }

  ghost predicate StreamsOk(sys: Sys) {
    forall s :: 0 <= s < |sys.streams| ==> StreamOk(sys.streams[s], |sys.rings|)
  }

  ghost predicate Refined(sys: Sys) {
    forall s :: 0 <= s < |sys.streams| ==> Refines(sys.streams[s], RingOf(sys.rings, sys.streams[s]), sys.mem)
  }

  ghost predicate Inv(sys: Sys) {
    RingsOk(sys) && Partitioned(sys) && StreamsOk(sys) && Refined(sys) && Owned(sys)
  }

  // ----------------------------------------------------------------------- steps

  datatype Event =
    | RegisterRing(n: nat, bufSize: nat)                // executor::register_buf_ring
    | NewStream
    | DestroyStream(s: nat)                             // the last handle goes; s is then a new stream
    | KernelData(s: nat, data: seq<Byte>, more: bool)   // the kernel fills the oldest provided buffer
    | KernelEnd(s: nat, res: int)                       // the operation ends: 0 or a negative errno
    | Complete(s: nat)                                  // the run loop processes a completion
    | Await(s: nat, h: nat)                             // coroutine h awaits async_recv()
    | Resume(s: nat)                                    // the run loop resumes a collected coroutine
    | SetGroup(s: nat, g: nat)
    | Cancel(s: nat)                                    // async_cancel() or async_close()
    | Allocate                                          // the user makes a recv_buffer
    | Recycle(g: nat, addr: nat, cap: nat)              // the user gives a recv_buffer to a ring

  /** What the kernel, the run loop and the user may do in a state. One reader per stream; a recycled
      buffer belongs to the user and has a positive capacity. */
  predicate Enabled(sys: Sys, e: Event) {
    match e
    case RegisterRing(n, bufSize) => n > 0 && bufSize > 0
    case NewStream => true
    case DestroyStream(s) => s < |sys.streams| && !sys.streams[s].frame.initiated && sys.streams[s].reader.NoReader?
    case KernelData(s, data, _) =>
      && s < |sys.streams| && sys.streams[s].armed
      && var r := RingOf(sys.rings, sys.streams[s]);
      r.kernel != [] && 0 < |data| <= r.kernel[0].len
    case KernelEnd(s, res) => s < |sys.streams| && sys.streams[s].armed && res <= 0
    case Complete(s) => s < |sys.streams| && (sys.streams[s].posted != [] || sys.streams[s].end.Some?)
    case Await(s, _) => s < |sys.streams| && sys.streams[s].reader.NoReader?
    case Resume(s) => s < |sys.streams| && sys.streams[s].reader.Collected?
    case SetGroup(s, g) => s < |sys.streams|
    case Cancel(s) => s < |sys.streams|
    case Allocate => true
    case Recycle(g, addr, cap) => g < |sys.rings| && addr in sys.owner && sys.owner[addr] == User && cap > 0
  }

  function Put(sys: Sys, s: nat, st: Stream): Sys
    requires s < |sys.streams|
  {
    sys.(streams := sys.streams[s := st])
  }

  function PutRing(sys: Sys, g: nat, r: Ring): Sys
    requires g < |sys.rings|
  {
    sys.(rings := sys.rings[g := r])
  }

  /** The kernel posts a data completion for the chunk it received. */
  function Post(st: Stream, c: DataCqe, data: seq<Byte>): Stream {
    st.(posted := st.posted + [c], armed := c.more, received := st.received + [data])
  }

  /** The effect of `handle()` after a completion: a coroutine in `h_` is collected, once. */
  function Collect(st: Stream): Stream {
    if st.frame.handle.Some?
    then st.(frame := st.frame.(handle := None), reader := Collected(st.frame.handle.value))
    else st
  }

  /** The run loop processes the data completion at the front, whose buffer is in `slot`. */
  function TakeData(st: Stream, slot: Slot): Stream
    requires st.posted != []
  {
    var c := st.posted[0];
    Collect(st.(posted := st.posted[1..], frame := st.frame.Receive(slot, c.len, c.more)))
  }

  /** The run loop processes the final completion. */
  function TakeEnd(st: Stream): Stream
    requires st.end.Some?
  {
    var f := if st.end.value < 0 then st.frame.Fail(-st.end.value) else st.frame.AtEof();
    Collect(st.(end := None, frame := f, raised := if f.ec.Some? then st.raised + [f.ec.value] else st.raised))
  }

  /** `await_suspend` that leaves the coroutine suspended, on frame `f`. */
  function FallAsleep(st: Stream, f: Frame, h: nat): Stream {
    st.(frame := f, armed := st.armed || !st.frame.initiated, reader := Asleep(h), suspensions := st.suspensions + 1)
  }

  /** The coroutine is resumed; `await_resume` follows. */
  function WakeUp(st: Stream): Stream {
    st.(reader := NoReader, resumptions := st.resumptions + 1)
  }

  /** `await_resume` without pending buffers: the error is reported and cleared. */
  function Report(st: Stream): Stream {
    st.(frame := st.frame.(ec := None), reported := st.reported + (if st.frame.ec.Some? then [st.frame.ec.value] else []))
  }

  /** The bytes in the first `n` pending buffers. */
  function Chunks(bufs: seq<Buf>, n: nat, mem: map<nat, seq<Byte>>): (cs: seq<seq<Byte>>)
    requires n <= |bufs|
    ensures |cs| == n && forall i :: 0 <= i < n && bufs[i].addr in mem ==> cs[i] == mem[bufs[i].addr]
  {
    seq(n, i requires 0 <= i < n => if bufs[i].addr in mem then mem[bufs[i].addr] else [])
  }

  /** `await_resume` with pending buffers: all of them leave the frame. */
  function Deliver(st: Stream, mem: map<nat, seq<Byte>>): Stream {
    var bufs := st.frame.buffers;
    st.(frame := st.frame.(buffers := []), delivered := st.delivered + Chunks(bufs, DataCount(bufs), mem),
        eofs := st.eofs + (|bufs| - DataCount(bufs)))
  }

  /** The kernel writes into the memory it was given. */
  function Fill(sys: Sys, s: nat, data: seq<Byte>, more: bool): Sys
    requires s < |sys.streams| && sys.streams[s].frame.ring < |sys.rings|
    requires sys.rings[sys.streams[s].frame.ring].kernel != []
  {
    var st := sys.streams[s];
    var r := sys.rings[st.frame.ring];
    var e := r.kernel[0];
    Put(PutRing(sys, st.frame.ring, r.(kernel := r.kernel[1..])), s, Post(st, DataCqe(e.bid, |data|, more), data))
      .(mem := sys.mem[e.addr := data])
  }

  function CompleteData(sys: Sys, s: nat): Sys
    requires s < |sys.streams| && sys.streams[s].posted != [] && sys.streams[s].frame.ring < |sys.rings|
    requires sys.streams[s].posted[0].bid < |sys.rings[sys.streams[s].frame.ring].slots|
  {
    var st := sys.streams[s];
    var r, id := sys.rings[st.frame.ring], st.posted[0].bid;
    Put(PutRing(sys, st.frame.ring, r.Take(id)), s, TakeData(st, r.slots[id]))
      .(owner := sys.owner[r.slots[id].addr := Pending(s, |st.frame.buffers|)])
  }

  /** One fresh buffer for ring `g`. */
  function ProvideFresh(sys: Sys, g: nat): Sys
    requires g < |sys.rings| && sys.rings[g].Indexed() && sys.rings[g].stack != []
  {
    ProvideAt(sys, g, sys.next, sys.rings[g].bufSize, sys.next + 1)
  }

  /** The buffer at `addr` goes into the slot of the id on top of the free stack. */
  function ProvideAt(sys: Sys, g: nat, addr: nat, cap: nat, next: nat): Sys
    requires g < |sys.rings| && sys.rings[g].Indexed() && sys.rings[g].stack != []
  {
    var r := sys.rings[g];
    PutRing(sys, g, r.Provide(addr, cap))
      .(owner := sys.owner[addr := InSlot(g, r.stack[|r.stack| - 1])], next := next)
  }

  function ProvideRun(sys: Sys, g: nat, k: nat): (sys': Sys)
    requires g < |sys.rings| && sys.rings[g].Indexed() && k <= |sys.rings[g].stack|
    ensures |sys'.rings| == |sys.rings| && sys'.streams == sys.streams && sys'.next == sys.next + k
    ensures sys'.rings[g].Indexed() && |sys'.rings[g].stack| == |sys.rings[g].stack| - k
    decreases k
  {
    if k == 0 then sys else ProvideFresh(ProvideRun(sys, g, k - 1), g)
  }

  /** The pending buffers of stream `s` go to the user. */
  function HandOver(sys: Sys, s: nat): Sys
    requires s < |sys.streams|
  {
    Put(sys, s, Deliver(sys.streams[s], sys.mem))
      .(owner := map a | a in sys.owner ::
          if sys.owner[a].Pending? && sys.owner[a].s == s then User else sys.owner[a])
  }

  predicate CanReplenish(sys: Sys, f: Frame) {
    f.buffers != [] ==> f.group.Some? && f.group.value < |sys.rings| && sys.rings[f.group.value].Indexed()
  }

  /** `await_resume`: an error if nothing is pending, otherwise all pending buffers, each data buffer
      replaced in the ring as long as there are free ids. */
  function AwaitResume(sys: Sys, s: nat): Sys
    requires s < |sys.streams| && CanReplenish(sys, sys.streams[s].frame)
  {
    var st := sys.streams[s];
    if st.frame.buffers == [] then Put(sys, s, Report(st))
    else
      var g := st.frame.group.value;
      ProvideRun(HandOver(sys, s), g, Replenished(st.frame, sys.rings[g]))
  }

  function AwaitRecv(sys: Sys, s: nat, h: nat): Sys
    requires Inv(sys) && s < |sys.streams|
  {
    var st := sys.streams[s];
    if AwaitReady(st.frame) then AwaitResume(sys, s)
    else
      var (f, suspension) := AwaitSuspend(st.frame, h);
      match suspension
      case Ready =>
        AwaitResume(Put(sys, s, st.(frame := f)), s)
      case Throws => Put(sys, s, st.(frame := f))
      case Suspended => Put(sys, s, FallAsleep(st, f, h))
  }

  /** `resume()` of a collected coroutine continues behind its suspension. */
  function ResumeRecv(sys: Sys, s: nat): Sys
    requires Inv(sys) && s < |sys.streams|
  {
    AwaitResume(Put(sys, s, WakeUp(sys.streams[s])), s)
  }

  /** Slot `i` of ring `g` owns the i-th of `n` fresh allocations. */
  function SlotOwners(g: nat, addr: nat, n: nat): (m: map<nat, Owner>)
    ensures forall a :: a in m <==> addr <= a < addr + n
    ensures forall a <- m :: m[a] == InSlot(g, a - addr)
  {
    if n == 0 then map[] else SlotOwners(g, addr, n - 1)[addr + n - 1 := InSlot(g, n - 1)]
  }

  function Register(sys: Sys, n: nat, bufSize: nat): Sys {
    sys.(rings := sys.rings + [NewRing(n, bufSize, sys.next)],
         owner := sys.owner + SlotOwners(|sys.rings|, sys.next, n),
         next := sys.next + n)
  }

  /** `set_buffer_group`: EBUSY while a receive is outstanding, EINVAL for an unknown group. */
  function ChangeGroup(sys: Sys, s: nat, g: nat): Sys
    requires s < |sys.streams|
  {
    var st := sys.streams[s];
    if st.frame.initiated || g >= |sys.rings| then sys
    else Put(sys, s, st.(frame := st.frame.(group := Some(g))))
  }

  /** A stream dies when no operation and no awaitable refers to it: its pending buffers are freed with it.
      The index is used for the next stream. */
  function Destroy(sys: Sys, s: nat): Sys
    requires s < |sys.streams|
  {
    Put(sys, s, NEW_STREAM)
      .(owner := map a | a in sys.owner && !(sys.owner[a].Pending? && sys.owner[a].s == s) :: sys.owner[a])
  }

  function RecycleTo(sys: Sys, g: nat, addr: nat, cap: nat): Sys
    requires g < |sys.rings| && sys.rings[g].Indexed()
  {
    if sys.rings[g].stack == [] then sys.(owner := sys.owner - {addr})
    else ProvideAt(sys, g, addr, cap, sys.next)
  }

  function Apply(sys: Sys, e: Event): Sys
    requires Inv(sys) && Enabled(sys, e)
  {
    match e
    case RegisterRing(n, bufSize) => Register(sys, n, bufSize)
    case NewStream => sys.(streams := sys.streams + [NEW_STREAM])
    case DestroyStream(s) => Destroy(sys, s)
    case KernelData(s, data, more) => Fill(sys, s, data, more)
    case KernelEnd(s, res) => Put(sys, s, sys.streams[s].(armed := false, end := Some(res)))
    case Complete(s) => if sys.streams[s].posted != [] then CompleteData(sys, s) else Put(sys, s, TakeEnd(sys.streams[s]))
    case Await(s, h) => AwaitRecv(sys, s, h)
    case Resume(s) => ResumeRecv(sys, s)
    case SetGroup(s, g) => ChangeGroup(sys, s, g)
    case Cancel(s) => Put(sys, s, sys.streams[s].(frame := sys.streams[s].frame.(streamCancelled := true)))
    case Allocate => sys.(owner := sys.owner[sys.next := User], next := sys.next + 1)
    case Recycle(g, addr, cap) => RecycleTo(sys, g, addr, cap)
  }

  const START := Sys([], [], map[], map[], 0)
}
