/** What holds in every run of the receive pipeline. */
module RecvTheorems {
  import opened KernelRings
  import opened RecvModel
  import opened RecvPipeline
  import opened RecvSafety

  /** A run: states joined by enabled events. `Apply` asks for the invariant; nothing is said about a
      step from a state without it, and `RunKeepsInv` shows there is no such state. */
  ghost predicate Run(states: seq<Sys>, events: seq<Event>) {
    && |states| == |events| + 1 && states[0] == START
    && forall i :: 0 <= i < |events| ==>
         Enabled(states[i], events[i]) && (Inv(states[i]) ==> states[i + 1] == Apply(states[i], events[i]))
  }

  lemma {:induction false} RunKeepsInv(states: seq<Sys>, events: seq<Event>, i: nat)
    requires Run(states, events) && i < |states|
    ensures Inv(states[i])
  {
    if i > 0 {
      RunKeepsInv(states, events, i - 1);
      StepKeepsInv(states[i - 1], events[i - 1]);
    }
  }

  // ------------------------------------------------------------ the partition

  /** Id `id` of ring `g` is in a posted completion of some stream. */
  ghost predicate IsPosted(sys: Sys, g: nat, id: nat) {
    exists s :: 0 <= s < |sys.streams| && InFlight(sys.streams[s], g, id) > 0
  }

  lemma {:induction false} PostedSomewhere(streams: seq<Stream>, g: nat, id: nat, n: nat)
    requires n <= |streams| && AllInFlight(streams, g, id, n) > 0
    ensures exists s :: 0 <= s < n && InFlight(streams[s], g, id) > 0
  {
    if InFlight(streams[n - 1], g, id) == 0 {
      PostedSomewhere(streams, g, id, n - 1);
    }
  }

  /** In every reachable state each id of each ring is in exactly one of: the kernel's ring, a posted
      completion, the free stack; and its slot holds a buffer exactly when it is off the stack. */
  lemma EveryIdInOnePlace(states: seq<Sys>, events: seq<Event>, i: nat, g: nat, id: nat)
    requires Run(states, events) && i < |states| && g < |states[i].rings| && id < |states[i].rings[g].slots|
    ensures var r := states[i].rings[g];
            var provided, posted, free := id in KernelIds(r.kernel), IsPosted(states[i], g, id), id in r.stack;
            && (provided || posted || free) && !(provided && posted) && !(provided && free) && !(posted && free)
            && (r.slots[id].cap > 0 <==> !free)
  {
    var sys := states[i];
    RunKeepsInv(states, events, i);
    assert Partition(sys, g) && RingOk(sys.rings[g]);
    assert Places(sys, g, id) == 1;
    if AllInFlight(sys.streams, g, id, |sys.streams|) > 0 {
      PostedSomewhere(sys.streams, g, id, |sys.streams|);
    }
    if IsPosted(sys, g, id) {
      var s :| 0 <= s < |sys.streams| && InFlight(sys.streams[s], g, id) > 0;
      InFlightBound(sys.streams, s, g, id, |sys.streams|);
    }
  }

  lemma FirstIsCounted(ids: seq<nat>)
    ensures ids != [] ==> multiset(ids)[ids[0]] > 0
  {
    assert ids != [] ==> ids[0] in ids;
  }

  /** A sequence without repetitions over 0, .., n - 1 has at most n elements. */
  lemma {:induction false} DistinctIdsBound(ids: seq<nat>, n: nat)
    requires forall id: nat :: multiset(ids)[id] <= if id < n then 1 else 0
    ensures |ids| <= n
  {
    if n == 0 {
      FirstIsCounted(ids);
    } else if n - 1 in ids {
      var k :| 0 <= k < |ids| && ids[k] == n - 1;
      var rest: seq<nat> := ids[..k] + ids[k + 1..];
      assert ids == ids[..k] + [n - 1] + ids[k + 1..];
      forall id: nat ensures multiset(rest)[id] <= if id < n - 1 then 1 else 0 {
        assert multiset(ids)[id] == multiset(rest)[id] + multiset{n - 1}[id];
      }
      DistinctIdsBound(rest, n - 1);
    } else {
      assert multiset(ids)[n - 1] == 0;
      DistinctIdsBound(ids, n - 1);
    }
  }

  /** Neither the id stack (`buf_ids_` has one element per buffer) nor the kernel's ring overflows,
      whatever is recycled; a completion being processed leaves room on the stack. */
  lemma NothingOverflows(sys: Sys, g: nat)
    requires Inv(sys) && g < |sys.rings|
    ensures var r := sys.rings[g]; |r.kernel| + |r.stack| <= |r.slots|
    ensures forall s :: 0 <= s < |sys.streams| && sys.streams[s].posted != [] && sys.streams[s].frame.ring == g
              ==> |sys.rings[g].kernel| + |sys.rings[g].stack| < |sys.rings[g].slots|
  {
    var r := sys.rings[g];
    var held: seq<nat> := KernelIds(r.kernel) + r.stack;
    assert Partition(sys, g);
    forall id: nat ensures multiset(held)[id] <= if id < |r.slots| then 1 else 0 {
      assert Places(sys, g, id) <= if id < |r.slots| then 1 else 0;
    }
    DistinctIdsBound(held, |r.slots|);
    forall s | 0 <= s < |sys.streams| && sys.streams[s].posted != [] && sys.streams[s].frame.ring == g
      ensures |r.kernel| + |r.stack| < |r.slots|
    {
      FrontOffStack(sys, s);
    }
  }

  lemma FrontOffStack(sys: Sys, s: nat)
    requires Inv(sys) && s < |sys.streams| && sys.streams[s].posted != []
    ensures sys.streams[s].frame.ring < |sys.rings|
    ensures var r := sys.rings[sys.streams[s].frame.ring]; |r.kernel| + |r.stack| < |r.slots|
  {
    var st := sys.streams[s];
    assert StreamOk(st, |sys.rings|) && Partition(sys, st.frame.ring);
    var r, b := sys.rings[st.frame.ring], st.posted[0].bid;
    assert PostedIds(st.posted)[0] == b;
    InFlightBound(sys.streams, s, st.frame.ring, b, |sys.streams|);
    var held: seq<nat> := KernelIds(r.kernel) + r.stack + [b];
    forall id: nat ensures multiset(held)[id] <= if id < |r.slots| then 1 else 0 {
      assert Places(sys, st.frame.ring, id) <= if id < |r.slots| then 1 else 0;
      InFlightBound(sys.streams, s, st.frame.ring, id, |sys.streams|);
    }
    DistinctIdsBound(held, |r.slots|);
  }

  // ------------------------------------------------------------ the byte stream

  function Concat(chunks: seq<seq<Byte>>, n: nat): seq<Byte>
    requires n <= |chunks|
  {
    if n == 0 then [] else Concat(chunks, n - 1) + chunks[n - 1]
  }

  function Flat(chunks: seq<seq<Byte>>): seq<Byte> {
    Concat(chunks, |chunks|)
  }

  lemma {:induction false} ConcatSplit(front: seq<seq<Byte>>, back: seq<seq<Byte>>, n: nat)
    requires n <= |front| + |back|
    ensures Concat(front + back, n)
         == if n <= |front| then Concat(front, n) else Concat(front, |front|) + Concat(back, n - |front|)
  {
    if n > 0 {
      ConcatSplit(front, back, n - 1);
      if n > |front| {
        var last := back[n - 1 - |front|];
        assert (front + back)[n - 1] == last;
        assert (Flat(front) + Concat(back, n - 1 - |front|)) + last == Flat(front) + (Concat(back, n - 1 - |front|) + last);
      }
    }
  }

  lemma FlatAppend(front: seq<seq<Byte>>, back: seq<seq<Byte>>)
    ensures Flat(front + back) == Flat(front) + Flat(back)
  {
    ConcatSplit(front, back, |front| + |back|);
    if back == [] {
      assert front + back == front;
    }
  }

  /** The bytes of posted completions, read where the completions say. */
  function PostedChunks(st: Stream, r: Ring, mem: map<nat, seq<Byte>>): (cs: seq<seq<Byte>>)
    ensures |cs| == |st.posted|
  {
    seq(|st.posted|, j requires 0 <= j < |st.posted| =>
      if st.posted[j].bid < |r.slots| && r.slots[st.posted[j].bid].addr in mem
      then mem[r.slots[st.posted[j].bid].addr] else [])
  }

  /** For every schedule: the bytes handed to the user, then those in pending buffers, then those in
      posted completions, are the bytes the kernel received, in order. */
  lemma ByteStream(states: seq<Sys>, events: seq<Event>, i: nat, s: nat)
    requires Run(states, events) && i < |states| && s < |states[i].streams|
    ensures var sys, st := states[i], states[i].streams[s];
            var pending := Chunks(st.frame.buffers, DataCount(st.frame.buffers), sys.mem);
            var posted := PostedChunks(st, RingOf(sys.rings, st), sys.mem);
            && st.received == st.delivered + (pending + posted)
            && Flat(st.received) == Flat(st.delivered) + (Flat(pending) + Flat(posted))
  {
    var sys, st := states[i], states[i].streams[s];
    RunKeepsInv(states, events, i);
    ChunksInOrder(st, RingOf(sys.rings, st), sys.mem);
    var pending := Chunks(st.frame.buffers, DataCount(st.frame.buffers), sys.mem);
    var posted := PostedChunks(st, RingOf(sys.rings, st), sys.mem);
    FlatAppend(st.delivered, pending + posted);
    FlatAppend(pending, posted);
  }

  lemma ChunksInOrder(st: Stream, r: Ring, mem: map<nat, seq<Byte>>)
    requires Refines(st, r, mem)
    ensures st.received == st.delivered
      + (Chunks(st.frame.buffers, DataCount(st.frame.buffers), mem) + PostedChunks(st, r, mem))
  {
  }

  /** An end of file can only be the last pending buffer, and an error is reported only when
      everything the kernel received has been delivered. */
  lemma ErrorsComeLast(states: seq<Sys>, events: seq<Event>, i: nat, s: nat)
    requires Run(states, events) && i < |states| && s < |states[i].streams|
    ensures var st := states[i].streams[s];
            && (forall k :: 0 <= k < |st.frame.buffers| - 1 ==> st.frame.buffers[k].size > 0)
            && (st.frame.ec.Some? && st.frame.buffers == [] ==> st.delivered == st.received)
            && st.raised == st.reported + (if st.frame.ec.Some? then [st.frame.ec.value] else [])
  {
    RunKeepsInv(states, events, i);
    var sys, st := states[i], states[i].streams[s];
    assert StreamOk(st, |sys.rings|) && Refines(st, RingOf(sys.rings, st), sys.mem);
  }

  // ---------------------------------------------------------------- wakeups

  /** The wakeup protocol in every run: an error excludes an outstanding operation; a handle stored while
      one is outstanding is that of the suspended reader, which is owed a completion; a coroutine is
      resumed once per suspension, and only when there is data or an error to find. */
  lemma WakeupProtocol(states: seq<Sys>, events: seq<Event>, i: nat, s: nat)
    requires Run(states, events) && i < |states| && s < |states[i].streams|
    ensures var st := states[i].streams[s]; var f := st.frame;
            && (f.ec.Some? ==> !f.initiated)
            && (f.initiated && f.handle.Some? <==> st.reader.Asleep?)
            && (st.reader.Asleep? ==> f.handle == Some(st.reader.h) && (st.armed || st.posted != [] || st.end.Some?))
            && (st.reader.Collected? ==> f.buffers != [] || f.ec.Some?)
            && st.suspensions == st.resumptions + (if st.reader.NoReader? then 0 else 1)
  {
    RunKeepsInv(states, events, i);
    assert StreamOk(states[i].streams[s], |states[i].rings|);
  }

  /** The first completion collects a suspended reader; further completions of the same batch leave it
      collected and never collect anybody else. */
  lemma CollectedOnce(sys: Sys, s: nat)
    requires Inv(sys) && Enabled(sys, Complete(s))
    ensures |Apply(sys, Complete(s)).streams| == |sys.streams|
    ensures var st, st' := sys.streams[s], Apply(sys, Complete(s)).streams[s];
            && st'.reader == (if st.reader.Asleep? then Collected(st.reader.h) else st.reader)
            && st'.suspensions == st.suspensions && st'.resumptions == st.resumptions
            && (!st.reader.NoReader? ==> st'.frame.handle.None?)
  {
    var st := sys.streams[s];
    assert StreamOk(st, |sys.rings|) && Refines(st, RingOf(sys.rings, st), sys.mem);
  }

  // --------------------------------------------------------------- assertions

  /** The `BOOST_ASSERT`s on the path of an event. */
  ghost predicate AssertionsHold(sys: Sys, e: Event)
    requires Enabled(sys, e)
  {
    match e
    case Complete(s) =>
      var st := sys.streams[s];
      if st.posted != [] then
        var r := RingOf(sys.rings, st);
        // the slot holds a buffer, the length fits, and the id fits on the stack
        && st.posted[0].bid < |r.slots| && r.slots[st.posted[0].bid].cap > 0
        && st.posted[0].len <= r.slots[st.posted[0].bid].cap && |r.kernel| + |r.stack| < |r.slots|
      else
        st.end.value < 0 ==> st.frame.ec.None?
    case Await(s, h) =>
      var f := sys.streams[s].frame;
      && !(f.initiated && f.ec.Some?)
      && (AwaitReady(f) || AwaitSuspend(f, h).1 == Ready ==> ResumeAssertions(sys, f))
      && (!AwaitReady(f) && AwaitSuspend(f, h).1 == Throws ==> f.group.None? && f.ec.None? && !f.initiated)
    case Resume(s) => ResumeAssertions(sys, sys.streams[s].frame)
    case Recycle(g, _, cap) => sys.rings[g].stack != [] ==> TopIsEmpty(sys.rings[g]) && cap > 0
    case _ => true
  }

  ghost predicate TopIsEmpty(r: Ring)
    requires r.stack != []
  {
    r.stack[|r.stack| - 1] < |r.slots| && r.slots[r.stack[|r.stack| - 1]].cap == 0
  }

  /** `await_resume`: something to return; the group is registered; each refilled slot was empty. */
  ghost predicate ResumeAssertions(sys: Sys, f: Frame) {
    && (f.buffers != [] || f.ec.Some?)
    && (f.buffers != [] ==>
          && f.group.Some? && f.group.value < |sys.rings| && sys.rings[f.group.value].Indexed()
          && sys.rings[f.group.value].bufSize > 0
          && forall k :: 0 <= k < Replenished(f, sys.rings[f.group.value]) ==>
               TopIsEmpty(sys.rings[f.group.value].Refill(sys.next, k)))
  }

  lemma {:induction false} RefillSlots(r: Ring, addr: nat, k: nat)
    requires r.Indexed() && k <= |r.stack|
    ensures r.Refill(addr, k).stack == r.stack[..|r.stack| - k]
    ensures forall id :: 0 <= id < |r.slots| && (forall j :: |r.stack| - k <= j < |r.stack| ==> r.stack[j] != id)
              ==> r.Refill(addr, k).slots[id] == r.slots[id]
  {
    if k > 0 {
      RefillSlots(r, addr, k - 1);
    }
  }

  lemma EqualElementsCount(st: seq<nat>, i: nat, j: nat)
    requires i < j < |st|
    ensures st[i] == st[j] ==> multiset(st)[st[i]] >= 2
  {
    assert st == st[..j] + [st[j]] + st[j + 1..];
    assert st[..j][i] == st[i];
  }

  lemma StackDistinct(sys: Sys, g: nat, i: nat, j: nat)
    requires Inv(sys) && g < |sys.rings| && i < j < |sys.rings[g].stack|
    ensures sys.rings[g].stack[i] != sys.rings[g].stack[j]
  {
    EqualElementsCount(sys.rings[g].stack, i, j);
    assert Partition(sys, g) && Places(sys, g, sys.rings[g].stack[i]) <= 1;
  }

  lemma RefillAssertions(sys: Sys, g: nat, addr: nat, k: nat)
    requires Inv(sys) && g < |sys.rings| && k < |sys.rings[g].stack|
    ensures sys.rings[g].Indexed() && TopIsEmpty(sys.rings[g].Refill(addr, k))
  {
    var r := sys.rings[g];
    assert RingOk(r);
    RefillSlots(r, addr, k);
    var top := |r.stack| - k - 1;
    forall j | |r.stack| - k <= j < |r.stack| ensures r.stack[j] != r.stack[top] {
      StackDistinct(sys, g, top, j);
    }
    assert r.stack[top] in r.stack;
  }

  /** A coroutine resumed by the run loop finds data or an error, and no assertion on any path of the
      pipeline fails in any run. */
  lemma NoAssertionFails(sys: Sys, e: Event)
    requires Inv(sys) && Enabled(sys, e)
    ensures AssertionsHold(sys, e)
  {
    match e {
      case Complete(s) =>
        var st := sys.streams[s];
        assert StreamOk(st, |sys.rings|) && Refines(st, RingOf(sys.rings, st), sys.mem);
        if st.posted != [] {
          FrontOffStack(sys, s);
        }
      case Await(s, h) =>
        assert StreamOk(sys.streams[s], |sys.rings|);
        if AwaitReady(sys.streams[s].frame) || sys.streams[s].frame.ec.Some? {
          ResumeAssertionsHold(sys, s);
        }
      case Resume(s) =>
        assert StreamOk(sys.streams[s], |sys.rings|);
        ResumeAssertionsHold(sys, s);
      case Recycle(g, _, _) =>
        assert RingOk(sys.rings[g]);
      case _ =>
    }
  }

  lemma ResumeAssertionsHold(sys: Sys, s: nat)
    requires Inv(sys) && s < |sys.streams|
    requires sys.streams[s].frame.buffers != [] || sys.streams[s].frame.ec.Some?
    ensures ResumeAssertions(sys, sys.streams[s].frame)
  {
    var f := sys.streams[s].frame;
    assert StreamOk(sys.streams[s], |sys.rings|);
    if f.buffers != [] {
      var g := f.group.value;
      assert RingOk(sys.rings[g]);
      forall k | 0 <= k < Replenished(f, sys.rings[g])
        ensures TopIsEmpty(sys.rings[g].Refill(sys.next, k))
      {
        RefillAssertions(sys, g, sys.next, k);
      }
    }
  }
}
