/** Every step of the receive pipeline keeps its invariant. */
module RecvSafety {
  import opened KernelRings
  import opened RecvModel
  import opened RecvPipeline

  // ------------------------------------------------------- where the ids are

  lemma {:induction false} AllInFlightUpdate(streams: seq<Stream>, s: nat, st: Stream, g: nat, id: nat, n: nat)
    requires s < |streams| && n <= |streams|
    ensures AllInFlight(streams[s := st], g, id, n)
         == AllInFlight(streams, g, id, n) + (if s < n then InFlight(st, g, id) - InFlight(streams[s], g, id) else 0)
  {
    if n > 0 {
      AllInFlightUpdate(streams, s, st, g, id, n - 1);
    }
  }

  lemma {:induction false} AllInFlightPrefix(streams: seq<Stream>, st: Stream, g: nat, id: nat, n: nat)
    requires n <= |streams|
    ensures AllInFlight(streams + [st], g, id, n) == AllInFlight(streams, g, id, n)
  {
    if n > 0 {
      AllInFlightPrefix(streams, st, g, id, n - 1);
    }
  }

  lemma {:induction false} InFlightBound(streams: seq<Stream>, s: nat, g: nat, id: nat, n: nat)
    requires s < n <= |streams|
    ensures InFlight(streams[s], g, id) <= AllInFlight(streams, g, id, n)
  {
    if s < n - 1 {
      InFlightBound(streams, s, g, id, n - 1);
    }
  }

  lemma {:induction false} InFlightPair(streams: seq<Stream>, s: nat, t: nat, g: nat, id: nat, n: nat)
    requires s < n <= |streams| && t < n && s != t
    ensures InFlight(streams[s], g, id) + InFlight(streams[t], g, id) <= AllInFlight(streams, g, id, n)
  {
    if s == n - 1 {
      InFlightBound(streams, t, g, id, n - 1);
    } else if t == n - 1 {
      InFlightBound(streams, s, g, id, n - 1);
    } else {
      InFlightPair(streams, s, t, g, id, n - 1);
    }
  }

  /** An id provided to the kernel or on the free stack is in no posted completion. */
  lemma ProvidedIdElsewhere(sys: Sys, g: nat, id: nat, s: nat)
    requires g < |sys.rings| && Partition(sys, g) && s < |sys.streams|
    requires id in KernelIds(sys.rings[g].kernel) || id in sys.rings[g].stack
    ensures InFlight(sys.streams[s], g, id) == 0
  {
    InFlightBound(sys.streams, s, g, id, |sys.streams|);
    assert Places(sys, g, id) <= 1;
  }

  /** The id of the completion at the front is in no other completion, not provided and not free. */
  lemma FrontIdElsewhere(sys: Sys, s: nat)
    requires s < |sys.streams| && sys.streams[s].posted != []
    requires sys.streams[s].frame.ring < |sys.rings| && Partition(sys, sys.streams[s].frame.ring)
    ensures var st := sys.streams[s]; var r, id := sys.rings[st.frame.ring], st.posted[0].bid;
            && id !in PostedIds(st.posted[1..]) && id !in KernelIds(r.kernel) && id !in r.stack
            && forall t :: 0 <= t < |sys.streams| && t != s ==> InFlight(sys.streams[t], st.frame.ring, id) == 0
  {
    var st := sys.streams[s];
    var g, id := st.frame.ring, st.posted[0].bid;
    assert PostedIds(st.posted) == [id] + PostedIds(st.posted[1..]);
    InFlightBound(sys.streams, s, g, id, |sys.streams|);
    assert Places(sys, g, id) <= 1;
    forall t | 0 <= t < |sys.streams| && t != s
      ensures InFlight(sys.streams[t], g, id) == 0
    {
      InFlightPair(sys.streams, s, t, g, id, |sys.streams|);
    }
  }

  // ---------------------------------------------------- one stream's refinement

  lemma RefinesNewMemory(st: Stream, r: Ring, r': Ring, mem: map<nat, seq<Byte>>, addr: nat, data: seq<Byte>)
    requires Refines(st, r, mem) && r'.slots == r.slots
    requires forall i :: 0 <= i < DataCount(st.frame.buffers) ==> st.frame.buffers[i].addr != addr
    requires forall j :: 0 <= j < |st.posted| ==> r.slots[st.posted[j].bid].addr != addr
    ensures Refines(st, r', mem[addr := data])
  {
  }

  lemma RefinesNewSlots(st: Stream, r: Ring, r': Ring, mem: map<nat, seq<Byte>>)
    requires Refines(st, r, mem) && |r'.slots| == |r.slots|
    requires forall j :: 0 <= j < |st.posted| ==> r'.slots[st.posted[j].bid] == r.slots[st.posted[j].bid]
    ensures Refines(st, r', mem)
  {
  }

  /** A chunk written into a slot's memory and posted is the next chunk received. */
  lemma RefinesPosted(st: Stream, r: Ring, mem: map<nat, seq<Byte>>, c: DataCqe, data: seq<Byte>)
    requires Refines(st, r, mem)
    requires c.bid < |r.slots| && 0 < c.len <= r.slots[c.bid].cap && ChunkAt(mem, r.slots[c.bid].addr, c.len, data)
    ensures Refines(Post(st, c, data), r, mem)
  {
  }

  // ------------------------------------------------------------ the kernel fills

  lemma FillPartition(sys: Sys, s: nat, data: seq<Byte>, more: bool, g: nat)
    requires Partitioned(sys) && g < |sys.rings|
    requires s < |sys.streams| && sys.streams[s].frame.ring < |sys.rings|
    requires sys.rings[sys.streams[s].frame.ring].kernel != []
    ensures Partition(Fill(sys, s, data, more), g)
  {
    var sys', st := Fill(sys, s, data, more), sys.streams[s];
    var r, st' := sys.rings[st.frame.ring], sys'.streams[s];
    assert PostedIds(st'.posted) == PostedIds(st.posted) + [r.kernel[0].bid];
    assert KernelIds(r.kernel) == [r.kernel[0].bid] + KernelIds(r.kernel[1..]);
    forall id: nat
      ensures Places(sys', g, id) == Places(sys, g, id)
    {
      AllInFlightUpdate(sys.streams, s, st', g, id, |sys.streams|);
    }
    assert Partition(sys, g);
  }

  /** Nobody else reads the memory the kernel writes to. */
  lemma FillWritesUnread(sys: Sys, g: nat, t: nat)
    requires Inv(sys) && g < |sys.rings| && sys.rings[g].kernel != [] && t < |sys.streams|
    requires sys.rings[g].kernel[0].len > 0
    ensures var u, addr := sys.streams[t], sys.rings[g].kernel[0].addr;
            && (forall i :: 0 <= i < DataCount(u.frame.buffers) ==> u.frame.buffers[i].addr != addr)
            && (forall j :: 0 <= j < |u.posted| ==>
                  u.posted[j].bid < |RingOf(sys.rings, u).slots| && RingOf(sys.rings, u).slots[u.posted[j].bid].addr != addr)
  {
    var u, e, r := sys.streams[t], sys.rings[g].kernel[0], sys.rings[g];
    assert KernelIds(r.kernel)[0] == e.bid;
    ProvidedIdElsewhere(sys, g, e.bid, t);
    assert RingOk(r);
    assert Owns(sys, e.addr, InSlot(g, e.bid));
    assert Refines(u, RingOf(sys.rings, u), sys.mem) && StreamOk(u, |sys.rings|);
    forall j | 0 <= j < |u.posted|
      ensures RingOf(sys.rings, u).slots[u.posted[j].bid].addr != e.addr
    {
      var id := u.posted[j].bid;
      assert PostedIds(u.posted)[j] == id;
      assert Owns(sys, sys.rings[u.frame.ring].slots[id].addr, InSlot(u.frame.ring, id));
    }
    forall i | 0 <= i < DataCount(u.frame.buffers)
      ensures u.frame.buffers[i].addr != e.addr
    {
      assert Owns(sys, u.frame.buffers[i].addr, Pending(t, i));
    }
  }

  /** After the kernel's write every other stream still refines what it received, and so does this one
      with the chunk added. */
  lemma FillRefines(sys: Sys, s: nat, data: seq<Byte>, more: bool, t: nat)
    requires Inv(sys) && Enabled(sys, KernelData(s, data, more)) && t < |sys.streams|
    ensures var sys' := Fill(sys, s, data, more);
            Refines(sys.streams[t], RingOf(sys'.rings, sys.streams[t]), sys'.mem)
  {
    var sys', u := Fill(sys, s, data, more), sys.streams[t];
    var g := sys.streams[s].frame.ring;
    FillWritesUnread(sys, g, t);
    RefinesNewMemory(u, RingOf(sys.rings, u), RingOf(sys'.rings, u), sys.mem, sys.rings[g].kernel[0].addr, data);
  }

  lemma PostKeepsStream(st: Stream, c: DataCqe, data: seq<Byte>, rings: nat)
    requires StreamOk(st, rings) && st.armed
    ensures StreamOk(Post(st, c, data), rings)
  {
  }

  lemma FillRefinedAt(sys: Sys, s: nat, data: seq<Byte>, more: bool, t: nat)
    requires Inv(sys) && Enabled(sys, KernelData(s, data, more)) && t < |sys.streams|
    ensures var sys' := Fill(sys, s, data, more);
            Refines(sys'.streams[t], RingOf(sys'.rings, sys'.streams[t]), sys'.mem)
  {
    var sys', st := Fill(sys, s, data, more), sys.streams[s];
    assert RingOk(sys.rings[st.frame.ring]);
    FillRefines(sys, s, data, more, t);
    if t == s {
      RefinesPosted(st, sys'.rings[st.frame.ring], sys'.mem, sys'.streams[s].posted[|st.posted|], data);
    }
  }

  lemma FillRefined(sys: Sys, s: nat, data: seq<Byte>, more: bool)
    requires Inv(sys) && Enabled(sys, KernelData(s, data, more))
    ensures Refined(Fill(sys, s, data, more))
  {
    var sys' := Fill(sys, s, data, more);
    forall t | 0 <= t < |sys'.streams|
      ensures Refines(sys'.streams[t], RingOf(sys'.rings, sys'.streams[t]), sys'.mem)
    {
      FillRefinedAt(sys, s, data, more, t);
    }
  }

  lemma FillOwned(sys: Sys, s: nat, data: seq<Byte>, more: bool)
    requires Owned(sys) && RingsOk(sys)
    requires s < |sys.streams| && sys.streams[s].frame.ring < |sys.rings|
    requires sys.rings[sys.streams[s].frame.ring].kernel != []
    ensures Owned(Fill(sys, s, data, more)) && RingsOk(Fill(sys, s, data, more))
  {
    assert RingOk(sys.rings[sys.streams[s].frame.ring]);
  }

  lemma FillKeepsInv(sys: Sys, s: nat, data: seq<Byte>, more: bool)
    requires Inv(sys) && Enabled(sys, KernelData(s, data, more))
    ensures Inv(Fill(sys, s, data, more))
  {
    var sys', st := Fill(sys, s, data, more), sys.streams[s];
    forall g | 0 <= g < |sys'.rings| ensures Partition(sys', g) {
      FillPartition(sys, s, data, more, g);
    }
    FillRefined(sys, s, data, more);
    PostKeepsStream(st, DataCqe(sys.rings[st.frame.ring].kernel[0].bid, |data|, more), data, |sys.rings|);
    FillOwned(sys, s, data, more);
  }

  // -------------------------------------------------- the run loop takes data

  lemma TakeDataKeepsStream(st: Stream, slot: Slot, rings: nat)
    requires StreamOk(st, rings) && st.posted != [] && st.posted[0].len > 0
    ensures StreamOk(TakeData(st, slot), rings)
  {
  }

  lemma TakePartition(sys: Sys, s: nat, g: nat)
    requires Partitioned(sys) && g < |sys.rings|
    requires s < |sys.streams| && sys.streams[s].posted != [] && sys.streams[s].frame.ring < |sys.rings|
    requires sys.streams[s].posted[0].bid < |sys.rings[sys.streams[s].frame.ring].slots|
    ensures Partition(CompleteData(sys, s), g)
  {
    var sys', st := CompleteData(sys, s), sys.streams[s];
    var st', r := sys'.streams[s], sys.rings[st.frame.ring];
    assert PostedIds(st.posted) == [st.posted[0].bid] + PostedIds(st'.posted);
    forall id: nat
      ensures Places(sys', g, id) == Places(sys, g, id)
    {
      AllInFlightUpdate(sys.streams, s, st', g, id, |sys.streams|);
    }
    assert Partition(sys, g);
  }

  /** The buffer of the front completion becomes the last pending buffer. */
  lemma RefinesTaken(st: Stream, r: Ring, mem: map<nat, seq<Byte>>)
    requires Refines(st, r, mem) && st.posted != [] && DataCount(st.frame.buffers) == |st.frame.buffers|
    requires st.posted[0].bid !in PostedIds(st.posted[1..])
    ensures Refines(TakeData(st, r.slots[st.posted[0].bid]), r.Take(st.posted[0].bid), mem)
  {
    var st' := TakeData(st, r.slots[st.posted[0].bid]);
    forall j | 0 <= j < |st'.posted|
      ensures st'.posted[j] == st.posted[j + 1] && st'.posted[j].bid != st.posted[0].bid
    {
      assert PostedIds(st.posted[1..])[j] == st'.posted[j].bid;
    }
  }

  lemma TakeRing(r: Ring, id: nat)
    requires RingOk(r) && id < |r.slots| && id !in KernelIds(r.kernel)
    ensures RingOk(r.Take(id))
  {
    forall i | 0 <= i < |r.kernel| ensures r.kernel[i].bid != id {
      assert KernelIds(r.kernel)[i] == r.kernel[i].bid;
    }
  }

  lemma TakeOwned(sys: Sys, s: nat)
    requires Owned(sys)
    requires s < |sys.streams| && sys.streams[s].posted != [] && sys.streams[s].frame.ring < |sys.rings|
    requires sys.streams[s].posted[0].bid < |sys.rings[sys.streams[s].frame.ring].slots|
    requires sys.rings[sys.streams[s].frame.ring].slots[sys.streams[s].posted[0].bid].cap > 0
    ensures Owned(CompleteData(sys, s))
  {
    var st := sys.streams[s];
    var g, id := st.frame.ring, st.posted[0].bid;
    assert Owns(sys, sys.rings[g].slots[id].addr, InSlot(g, id));
  }

  lemma CompleteDataKeepsInv(sys: Sys, s: nat)
    requires Inv(sys) && s < |sys.streams| && sys.streams[s].posted != []
    ensures sys.streams[s].frame.ring < |sys.rings|
    ensures sys.streams[s].posted[0].bid < |sys.rings[sys.streams[s].frame.ring].slots|
    ensures Inv(CompleteData(sys, s))
  {
    var st := sys.streams[s];
    assert StreamOk(st, |sys.rings|) && Refines(st, RingOf(sys.rings, st), sys.mem);
    var g, id := st.frame.ring, st.posted[0].bid;
    var sys' := CompleteData(sys, s);
    forall h | 0 <= h < |sys'.rings| ensures Partition(sys', h) {
      TakePartition(sys, s, h);
    }
    FrontIdElsewhere(sys, s);
    TakeRing(sys.rings[g], id);
    forall t | 0 <= t < |sys'.streams|
      ensures Refines(sys'.streams[t], RingOf(sys'.rings, sys'.streams[t]), sys'.mem)
    {
      if t == s {
        RefinesTaken(st, sys.rings[g], sys.mem);
      } else {
        TakeLeavesOthers(sys, s, t);
      }
    }
    TakeDataKeepsStream(st, sys.rings[g].slots[id], |sys.rings|);
    TakeOwned(sys, s);
  }

  lemma TakeLeavesOthers(sys: Sys, s: nat, t: nat)
    requires Refined(sys) && s < |sys.streams| && t < |sys.streams|
    requires sys.streams[s].posted != [] && sys.streams[s].frame.ring < |sys.rings|
    requires sys.streams[s].posted[0].bid < |sys.rings[sys.streams[s].frame.ring].slots|
    requires InFlight(sys.streams[t], sys.streams[s].frame.ring, sys.streams[s].posted[0].bid) == 0
    ensures Refines(sys.streams[t], RingOf(CompleteData(sys, s).rings, sys.streams[t]), sys.mem)
  {
    var u, id := sys.streams[t], sys.streams[s].posted[0].bid;
    forall j | 0 <= j < |u.posted| && u.frame.ring == sys.streams[s].frame.ring
      ensures u.posted[j].bid != id
    {
      assert PostedIds(u.posted)[j] == u.posted[j].bid;
    }
    RefinesNewSlots(u, RingOf(sys.rings, u), RingOf(CompleteData(sys, s).rings, u), sys.mem);
  }

  // ------------------------------------------ steps that change one stream only

  lemma PutPartition(sys: Sys, s: nat, st': Stream, g: nat)
    requires Partitioned(sys) && s < |sys.streams| && g < |sys.rings|
    requires st'.posted == sys.streams[s].posted
    requires st'.frame.ring == sys.streams[s].frame.ring || st'.posted == []
    ensures Partition(Put(sys, s, st'), g)
  {
    assert Partition(sys, g);
    forall id: nat ensures Places(Put(sys, s, st'), g, id) == Places(sys, g, id) {
      AllInFlightUpdate(sys.streams, s, st', g, id, |sys.streams|);
    }
  }

  lemma PutOwned(sys: Sys, s: nat, st': Stream)
    requires Owned(sys) && s < |sys.streams|
    requires var bufs := sys.streams[s].frame.buffers;
             st'.frame.buffers == bufs || st'.frame.buffers == bufs + [EOF_BUFFER]
    ensures Owned(Put(sys, s, st'))
  {
  }

  /** A change of one stream's fields that leaves its completions and data buffers where they are. */
  lemma PutKeepsInv(sys: Sys, s: nat, st': Stream)
    requires Inv(sys) && s < |sys.streams|
    requires StreamOk(st', |sys.rings|) && Refines(st', RingOf(sys.rings, st'), sys.mem)
    requires var st := sys.streams[s];
             && st'.posted == st.posted && (st'.frame.ring == st.frame.ring || st.posted == [])
             && (st'.frame.buffers == st.frame.buffers || st'.frame.buffers == st.frame.buffers + [EOF_BUFFER])
    ensures Inv(Put(sys, s, st'))
  {
    var sys' := Put(sys, s, st');
    forall g | 0 <= g < |sys'.rings| ensures Partition(sys', g) {
      PutPartition(sys, s, st', g);
    }
    PutOwned(sys, s, st');
  }

  lemma TakeEndKeepsBytes(st: Stream, r: Ring, mem: map<nat, seq<Byte>>)
    requires Refines(st, r, mem) && st.end.Some? && st.posted == []
    requires DataCount(st.frame.buffers) == |st.frame.buffers|
    ensures Refines(TakeEnd(st), r, mem)
  {
  }

  lemma TakeEndKeepsProtocol(st: Stream, rings: nat)
    requires StreamOk(st, rings) && st.end.Some? && st.posted == []
    ensures StreamOk(TakeEnd(st), rings)
  {
  }

  lemma TakeEndKeepsInv(sys: Sys, s: nat)
    requires Inv(sys) && s < |sys.streams| && sys.streams[s].end.Some? && sys.streams[s].posted == []
    ensures Inv(Put(sys, s, TakeEnd(sys.streams[s])))
  {
    var st := sys.streams[s];
    assert StreamOk(st, |sys.rings|) && Refines(st, RingOf(sys.rings, st), sys.mem);
    TakeEndKeepsBytes(st, RingOf(sys.rings, st), sys.mem);
    TakeEndKeepsProtocol(st, |sys.rings|);
    PutKeepsInv(sys, s, TakeEnd(st));
  }

  // ------------------------------------------------- buffers for the kernel

  lemma ProvideRing(r: Ring, addr: nat, cap: nat)
    requires RingOk(r) && r.stack != [] && cap > 0
    requires multiset(r.stack)[r.stack[|r.stack| - 1]] <= 1
    requires r.stack[|r.stack| - 1] !in KernelIds(r.kernel)
    ensures RingOk(r.Provide(addr, cap))
  {
    var n, r' := |r.stack| - 1, r.Provide(addr, cap);
    var id := r.stack[n];
    assert r.stack == r.stack[..n] + [id];
    assert id !in r.stack[..n];
    forall x | x in r.stack && x != id ensures x in r.stack[..n] {
      var k :| 0 <= k < |r.stack| && r.stack[k] == x;
      assert r.stack[..n][k] == x;
    }
    forall i | 0 <= i < |r.kernel| ensures r.kernel[i].bid != id {
      assert KernelIds(r.kernel)[i] == r.kernel[i].bid;
    }
  }

  /** The id on top of the free stack is nowhere else. */
  lemma TopIdElsewhere(sys: Sys, g: nat)
    requires g < |sys.rings| && Partition(sys, g) && sys.rings[g].stack != []
    ensures var r := sys.rings[g]; var id := r.stack[|r.stack| - 1];
            && multiset(r.stack)[id] == 1 && id !in KernelIds(r.kernel)
            && forall t :: 0 <= t < |sys.streams| ==> InFlight(sys.streams[t], g, id) == 0
  {
    var r := sys.rings[g];
    var id := r.stack[|r.stack| - 1];
    assert id in r.stack && Places(sys, g, id) <= 1;
    forall t | 0 <= t < |sys.streams| ensures InFlight(sys.streams[t], g, id) == 0 {
      ProvidedIdElsewhere(sys, g, id, t);
    }
  }

  lemma ProvidePartition(sys: Sys, g: nat, addr: nat, cap: nat, next: nat, h: nat)
    requires Partitioned(sys) && g < |sys.rings| && h < |sys.rings|
    requires sys.rings[g].Indexed() && sys.rings[g].stack != []
    ensures Partition(ProvideAt(sys, g, addr, cap, next), h)
  {
    var sys', r := ProvideAt(sys, g, addr, cap, next), sys.rings[g];
    var n := |r.stack| - 1;
    assert r.stack == r.stack[..n] + [r.stack[n]];
    assert KernelIds(r.Provide(addr, cap).kernel) == KernelIds(r.kernel) + [r.stack[n]];
    assert Partition(sys, h);
    forall id: nat ensures Places(sys', h, id) == Places(sys, h, id) {
    }
  }

  lemma ProvideOwned(sys: Sys, g: nat, addr: nat, cap: nat, next: nat)
    requires Owned(sys) && g < |sys.rings| && sys.rings[g].Indexed() && sys.rings[g].stack != []
    requires addr < next && sys.next <= next && (addr in sys.owner ==> sys.owner[addr] == User)
    ensures Owned(ProvideAt(sys, g, addr, cap, next))
  {
  }

  /** A buffer nobody else holds can be provided. */
  lemma ProvideKeepsInv(sys: Sys, g: nat, addr: nat, cap: nat, next: nat)
    requires Inv(sys) && g < |sys.rings| && sys.rings[g].stack != [] && cap > 0
    requires addr < next && sys.next <= next && (addr in sys.owner ==> sys.owner[addr] == User)
    ensures sys.rings[g].Indexed() && Inv(ProvideAt(sys, g, addr, cap, next))
  {
    assert RingOk(sys.rings[g]) && Partition(sys, g);
    var sys' := ProvideAt(sys, g, addr, cap, next);
    TopIdElsewhere(sys, g);
    ProvideRing(sys.rings[g], addr, cap);
    forall h | 0 <= h < |sys'.rings| ensures Partition(sys', h) {
      ProvidePartition(sys, g, addr, cap, next, h);
    }
    forall t | 0 <= t < |sys'.streams|
      ensures Refines(sys'.streams[t], RingOf(sys'.rings, sys'.streams[t]), sys'.mem)
    {
      var u := sys.streams[t];
      assert Refines(u, RingOf(sys.rings, u), sys.mem);
      forall j | 0 <= j < |u.posted| && u.frame.ring == g
        ensures u.posted[j].bid != sys.rings[g].stack[|sys.rings[g].stack| - 1]
      {
        assert PostedIds(u.posted)[j] == u.posted[j].bid;
      }
      RefinesNewSlots(u, RingOf(sys.rings, u), RingOf(sys'.rings, u), sys.mem);
    }
    ProvideOwned(sys, g, addr, cap, next);
  }

  lemma NextIsUnowned(sys: Sys)
    requires Owned(sys)
    ensures sys.next !in sys.owner
  {
  }

  lemma ProvideFreshKeepsInv(sys: Sys, g: nat)
    requires Inv(sys) && g < |sys.rings| && |sys.rings[g].stack| > 0
    ensures sys.rings[g].Indexed() && Inv(ProvideFresh(sys, g))
  {
    assert sys.rings[g].bufSize > 0 && sys.rings[g].Indexed() by {
      assert RingOk(sys.rings[g]);
    }
    NextIsUnowned(sys);
    assert ProvideFresh(sys, g) == ProvideAt(sys, g, sys.next, sys.rings[g].bufSize, sys.next + 1);
    ProvideKeepsInv(sys, g, sys.next, sys.rings[g].bufSize, sys.next + 1);
  }

  lemma {:induction false} ProvideRunKeepsInv(sys: Sys, g: nat, k: nat)
    requires Inv(sys) && g < |sys.rings| && sys.rings[g].Indexed() && k <= |sys.rings[g].stack|
    ensures Inv(ProvideRun(sys, g, k))
    decreases k
  {
    if k > 0 {
      var mid := ProvideRun(sys, g, k - 1);
      ProvideRunKeepsInv(sys, g, k - 1);
      assert |mid.rings[g].stack| > 0;
      ProvideFreshKeepsInv(mid, g);
    }
  }

  /** The loop of the system is the loop of the ring alone. */
  lemma {:induction false} ProvideRunIsRefill(sys: Sys, g: nat, k: nat)
    requires g < |sys.rings| && sys.rings[g].Indexed() && k <= |sys.rings[g].stack|
    ensures ProvideRun(sys, g, k).rings[g] == sys.rings[g].Refill(sys.next, k)
    decreases k
  {
    if k > 0 {
      ProvideRunIsRefill(sys, g, k - 1);
    }
  }

  /** So a delivery does to the ring of its group what `BufRing.Replenish` does to the object. */
  lemma AwaitResumeRefills(sys: Sys, s: nat)
    requires s < |sys.streams| && CanReplenish(sys, sys.streams[s].frame) && sys.streams[s].frame.buffers != []
    ensures var f := sys.streams[s].frame;
            var g := f.group.value;
            |AwaitResume(sys, s).rings| == |sys.rings| &&
            AwaitResume(sys, s).rings[g] == sys.rings[g].Refill(sys.next, Replenished(f, sys.rings[g]))
  {
    var f := sys.streams[s].frame;
    ProvideRunIsRefill(HandOver(sys, s), f.group.value, Replenished(f, sys.rings[f.group.value]));
  }

  // ---------------------------------------------------------- await_resume

  lemma DeliverKeepsStream(st: Stream, r: Ring, mem: map<nat, seq<Byte>>, rings: nat)
    requires StreamOk(st, rings) && Refines(st, r, mem) && st.reader.NoReader?
    ensures StreamOk(Deliver(st, mem), rings) && Refines(Deliver(st, mem), r, mem)
  {
  }

  lemma HandOverOwned(sys: Sys, s: nat)
    requires Owned(sys) && s < |sys.streams|
    ensures Owned(HandOver(sys, s))
  {
    var sys' := HandOver(sys, s);
    forall g, id | 0 <= g < |sys'.rings| && 0 <= id < |sys'.rings[g].slots| && sys'.rings[g].slots[id].cap > 0
      ensures Owns(sys', sys'.rings[g].slots[id].addr, InSlot(g, id))
    {
      assert Owns(sys, sys.rings[g].slots[id].addr, InSlot(g, id));
    }
    forall t, i | 0 <= t < |sys'.streams| && 0 <= i < |sys'.streams[t].frame.buffers|
      && sys'.streams[t].frame.buffers[i].size > 0
      ensures Owns(sys', sys'.streams[t].frame.buffers[i].addr, Pending(t, i))
    {
      assert Owns(sys, sys.streams[t].frame.buffers[i].addr, Pending(t, i));
    }
  }

  lemma HandOverKeepsInv(sys: Sys, s: nat)
    requires Inv(sys) && s < |sys.streams| && sys.streams[s].reader.NoReader?
    ensures Inv(HandOver(sys, s))
  {
    var sys', st := HandOver(sys, s), sys.streams[s];
    var st' := Deliver(st, sys.mem);
    assert StreamOk(st, |sys.rings|) && Refines(st, RingOf(sys.rings, st), sys.mem);
    DeliverKeepsStream(st, RingOf(sys.rings, st), sys.mem, |sys.rings|);
    forall g | 0 <= g < |sys'.rings| ensures Partition(sys', g) {
      assert Partition(sys, g);
      forall id: nat ensures Places(sys', g, id) == Places(sys, g, id) {
        AllInFlightUpdate(sys.streams, s, st', g, id, |sys.streams|);
      }
    }
    HandOverOwned(sys, s);
  }

  lemma AwaitResumeKeepsInv(sys: Sys, s: nat)
    requires Inv(sys) && s < |sys.streams| && sys.streams[s].reader.NoReader?
    ensures CanReplenish(sys, sys.streams[s].frame) && Inv(AwaitResume(sys, s))
  {
    var st := sys.streams[s];
    assert StreamOk(st, |sys.rings|) && Refines(st, RingOf(sys.rings, st), sys.mem);
    if st.frame.buffers == [] {
      PutKeepsInv(sys, s, Report(st));
    } else {
      var g := st.frame.group.value;
      assert RingOk(sys.rings[g]);
      HandOverKeepsInv(sys, s);
      ProvideRunKeepsInv(HandOver(sys, s), g, Replenished(st.frame, sys.rings[g]));
    }
  }

  lemma AwaitRecvKeepsInv(sys: Sys, s: nat, h: nat)
    requires Inv(sys) && s < |sys.streams| && sys.streams[s].reader.NoReader?
    ensures Inv(AwaitRecv(sys, s, h))
  {
    var st := sys.streams[s];
    assert StreamOk(st, |sys.rings|) && Refines(st, RingOf(sys.rings, st), sys.mem);
    if AwaitReady(st.frame) {
      AwaitResumeKeepsInv(sys, s);
    } else {
      var (f, suspension) := AwaitSuspend(st.frame, h);
      match suspension {
        case Ready =>
          PutKeepsInv(sys, s, st.(frame := f));
          AwaitResumeKeepsInv(Put(sys, s, st.(frame := f)), s);
        case Throws =>
          PutKeepsInv(sys, s, st.(frame := f));
        case Suspended =>
          PutKeepsInv(sys, s, FallAsleep(st, f, h));
      }
    }
  }

  lemma WakeUpKeepsStream(st: Stream, r: Ring, mem: map<nat, seq<Byte>>, rings: nat)
    requires StreamOk(st, rings) && Refines(st, r, mem) && st.reader.Collected?
    ensures StreamOk(WakeUp(st), rings) && Refines(WakeUp(st), r, mem)
  {
  }

  lemma ResumeKeepsInv(sys: Sys, s: nat)
    requires Inv(sys) && s < |sys.streams| && sys.streams[s].reader.Collected?
    ensures Inv(ResumeRecv(sys, s))
  {
    var st := sys.streams[s];
    assert StreamOk(st, |sys.rings|) && Refines(st, RingOf(sys.rings, st), sys.mem);
    WakeUpKeepsStream(st, RingOf(sys.rings, st), sys.mem, |sys.rings|);
    PutKeepsInv(sys, s, WakeUp(st));
    AwaitResumeKeepsInv(Put(sys, s, WakeUp(st)), s);
  }

  // ------------------------------------------------------ rings and streams come

  lemma {:induction false} IdentityCounts(n: nat, bufSize: nat, addr: nat, id: nat)
    ensures multiset(KernelIds(NewRing(n, bufSize, addr).kernel))[id] == if id < n then 1 else 0
  {
    if n > 0 {
      IdentityCounts(n - 1, bufSize, addr, id);
      assert KernelIds(NewRing(n, bufSize, addr).kernel) == KernelIds(NewRing(n - 1, bufSize, addr).kernel) + [n - 1];
    }
  }

  lemma {:induction false} NoneInFlight(streams: seq<Stream>, g: nat, id: nat, n: nat)
    requires n <= |streams|
    requires forall s :: 0 <= s < n ==> InFlight(streams[s], g, id) == 0
    ensures AllInFlight(streams, g, id, n) == 0
  {
    if n > 0 {
      NoneInFlight(streams, g, id, n - 1);
    }
  }

  lemma NewRingPartition(sys: Sys, n: nat, bufSize: nat)
    requires StreamsOk(sys)
    ensures Partition(Register(sys, n, bufSize), |sys.rings|)
  {
    var sys', g := Register(sys, n, bufSize), |sys.rings|;
    forall id: nat ensures Places(sys', g, id) == if id < n then 1 else 0 {
      IdentityCounts(n, bufSize, sys.next, id);
      forall s | 0 <= s < |sys.streams| ensures InFlight(sys.streams[s], g, id) == 0 {
        assert StreamOk(sys.streams[s], |sys.rings|);
      }
      NoneInFlight(sys.streams, g, id, |sys.streams|);
    }
  }

  lemma RegisterOwned(sys: Sys, n: nat, bufSize: nat)
    requires Owned(sys)
    ensures Owned(Register(sys, n, bufSize))
  {
    var sys' := Register(sys, n, bufSize);
    forall g, id | 0 <= g < |sys'.rings| && 0 <= id < |sys'.rings[g].slots| && sys'.rings[g].slots[id].cap > 0
      ensures Owns(sys', sys'.rings[g].slots[id].addr, InSlot(g, id))
    {
      if g < |sys.rings| {
        assert Owns(sys, sys.rings[g].slots[id].addr, InSlot(g, id));
      }
    }
    forall t, i | 0 <= t < |sys'.streams| && 0 <= i < |sys'.streams[t].frame.buffers|
      && sys'.streams[t].frame.buffers[i].size > 0
      ensures Owns(sys', sys'.streams[t].frame.buffers[i].addr, Pending(t, i))
    {
      assert Owns(sys, sys.streams[t].frame.buffers[i].addr, Pending(t, i));
    }
  }

  lemma RegisterKeepsInv(sys: Sys, n: nat, bufSize: nat)
    requires Inv(sys) && bufSize > 0
    ensures Inv(Register(sys, n, bufSize))
  {
    var sys' := Register(sys, n, bufSize);
    forall g | 0 <= g < |sys'.rings| ensures Partition(sys', g) && RingOk(sys'.rings[g]) {
      if g < |sys.rings| {
        assert Partition(sys, g) && RingOk(sys.rings[g]);
        forall id: nat ensures Places(sys', g, id) == Places(sys, g, id) {}
      } else {
        NewRingPartition(sys, n, bufSize);
      }
    }
    forall s | 0 <= s < |sys'.streams|
      ensures StreamOk(sys'.streams[s], |sys'.rings|)
      ensures Refines(sys'.streams[s], RingOf(sys'.rings, sys'.streams[s]), sys'.mem)
    {
      assert StreamOk(sys.streams[s], |sys.rings|);
      assert Refines(sys.streams[s], RingOf(sys.rings, sys.streams[s]), sys.mem);
    }
    RegisterOwned(sys, n, bufSize);
  }

  lemma NewStreamKeepsInv(sys: Sys)
    requires Inv(sys)
    ensures Inv(sys.(streams := sys.streams + [NEW_STREAM]))
  {
    var sys' := sys.(streams := sys.streams + [NEW_STREAM]);
    forall g | 0 <= g < |sys'.rings| ensures Partition(sys', g) {
      assert Partition(sys, g);
      forall id: nat ensures Places(sys', g, id) == Places(sys, g, id) {
        AllInFlightPrefix(sys.streams, NEW_STREAM, g, id, |sys.streams|);
        assert multiset(PostedIds(NEW_STREAM.posted))[id] == 0;
      }
    }
  }

  lemma DestroyOwned(sys: Sys, s: nat)
    requires Owned(sys) && s < |sys.streams|
    ensures Owned(Destroy(sys, s))
  {
    var sys' := Destroy(sys, s);
    forall g, id | 0 <= g < |sys'.rings| && 0 <= id < |sys'.rings[g].slots| && sys'.rings[g].slots[id].cap > 0
      ensures Owns(sys', sys'.rings[g].slots[id].addr, InSlot(g, id))
    {
      assert Owns(sys, sys.rings[g].slots[id].addr, InSlot(g, id));
    }
    forall t, i | 0 <= t < |sys'.streams| && 0 <= i < |sys'.streams[t].frame.buffers|
      && sys'.streams[t].frame.buffers[i].size > 0
      ensures Owns(sys', sys'.streams[t].frame.buffers[i].addr, Pending(t, i))
    {
      assert Owns(sys, sys.streams[t].frame.buffers[i].addr, Pending(t, i));
    }
  }

  lemma DestroyPartition(sys: Sys, s: nat, g: nat)
    requires Partitioned(sys) && s < |sys.streams| && g < |sys.rings| && sys.streams[s].posted == []
    ensures Partition(Destroy(sys, s), g)
  {
    var mid := Put(sys, s, NEW_STREAM);
    PutPartition(sys, s, NEW_STREAM, g);
    forall id: nat ensures Places(Destroy(sys, s), g, id) == Places(mid, g, id) {}
  }

  lemma DestroyKeepsInv(sys: Sys, s: nat)
    requires Inv(sys) && Enabled(sys, DestroyStream(s))
    ensures Inv(Destroy(sys, s))
  {
    var sys' := Destroy(sys, s);
    assert StreamOk(sys.streams[s], |sys.rings|);
    forall g | 0 <= g < |sys'.rings| ensures Partition(sys', g) {
      DestroyPartition(sys, s, g);
    }
    forall t | 0 <= t < |sys'.streams|
      ensures Refines(sys'.streams[t], RingOf(sys'.rings, sys'.streams[t]), sys'.mem)
    {
      if t != s {
        assert Refines(sys.streams[t], RingOf(sys.rings, sys.streams[t]), sys.mem);
      }
    }
    DestroyOwned(sys, s);
  }

  // ------------------------------------------------------------------ every step

  lemma EndKeepsInv(sys: Sys, s: nat, res: int)
    requires Inv(sys) && Enabled(sys, KernelEnd(s, res))
    ensures Inv(Put(sys, s, sys.streams[s].(armed := false, end := Some(res))))
  {
    var st := sys.streams[s];
    assert StreamOk(st, |sys.rings|) && Refines(st, RingOf(sys.rings, st), sys.mem);
    PutKeepsInv(sys, s, st.(armed := false, end := Some(res)));
  }

  lemma ChangeGroupKeepsInv(sys: Sys, s: nat, g: nat)
    requires Inv(sys) && s < |sys.streams|
    ensures Inv(ChangeGroup(sys, s, g))
  {
    var st := sys.streams[s];
    assert StreamOk(st, |sys.rings|) && Refines(st, RingOf(sys.rings, st), sys.mem);
    if !st.frame.initiated && g < |sys.rings| {
      PutKeepsInv(sys, s, st.(frame := st.frame.(group := Some(g))));
    }
  }

  lemma CancelKeepsStream(st: Stream, r: Ring, mem: map<nat, seq<Byte>>, rings: nat)
    requires StreamOk(st, rings) && Refines(st, r, mem)
    ensures StreamOk(st.(frame := st.frame.(streamCancelled := true)), rings)
    ensures Refines(st.(frame := st.frame.(streamCancelled := true)), r, mem)
  {
  }

  lemma CancelKeepsInv(sys: Sys, s: nat)
    requires Inv(sys) && s < |sys.streams|
    ensures Inv(Put(sys, s, sys.streams[s].(frame := sys.streams[s].frame.(streamCancelled := true))))
  {
    var st := sys.streams[s];
    assert StreamOk(st, |sys.rings|) && Refines(st, RingOf(sys.rings, st), sys.mem);
    CancelKeepsStream(st, RingOf(sys.rings, st), sys.mem, |sys.rings|);
    PutKeepsInv(sys, s, st.(frame := st.frame.(streamCancelled := true)));
  }

  lemma RecycleKeepsInv(sys: Sys, g: nat, addr: nat, cap: nat)
    requires Inv(sys) && Enabled(sys, Recycle(g, addr, cap))
    ensures sys.rings[g].Indexed() && Inv(RecycleTo(sys, g, addr, cap))
  {
    assert RingOk(sys.rings[g]);
    if sys.rings[g].stack == [] {
      BookkeepingKeepsInv(sys, sys.owner - {addr}, sys.next);
    } else {
      ProvideKeepsInv(sys, g, addr, cap, sys.next);
    }
  }

  /** Recycling does to the ring of the system what `BufRing.RecycleBuffer` does to the object. */
  lemma RecycleToIsRecycle(sys: Sys, g: nat, addr: nat, cap: nat)
    requires g < |sys.rings| && sys.rings[g].Indexed()
    ensures RecycleTo(sys, g, addr, cap).rings[g] == sys.rings[g].Recycle(addr, cap)
  {
  }

  /** With a free id the recycled buffer is provided under the youngest one; without one it is dropped. */
  lemma RecycleGives(sys: Sys, g: nat, addr: nat, cap: nat)
    requires Inv(sys) && Enabled(sys, Recycle(g, addr, cap))
    ensures |Apply(sys, Recycle(g, addr, cap)).rings| == |sys.rings|
    ensures var r, r' := sys.rings[g], Apply(sys, Recycle(g, addr, cap)).rings[g];
            if r.stack == [] then r' == r && addr !in Apply(sys, Recycle(g, addr, cap)).owner
            else
              var id := r.stack[|r.stack| - 1];
              && id < |r.slots| && r.slots[id].cap == 0
              && r'.stack == r.stack[..|r.stack| - 1] && r'.slots == r.slots[id := Slot(addr, cap)]
              && r'.kernel == r.kernel + [Entry(addr, cap, id)]
  {
    assert RingOk(sys.rings[g]);
  }

  /** Allocations and frees by the user change only who owns user buffers. */
  lemma BookkeepingKeepsInv(sys: Sys, owner: map<nat, Owner>, next: nat)
    requires Inv(sys) && sys.next <= next && (forall a <- owner :: a < next)
    requires forall a <- sys.owner :: sys.owner[a] != User ==> a in owner && owner[a] == sys.owner[a]
    ensures Inv(sys.(owner := owner, next := next))
  {
    var sys' := sys.(owner := owner, next := next);
    forall g | 0 <= g < |sys'.rings| ensures Partition(sys', g) {
      assert Partition(sys, g);
      forall id: nat ensures Places(sys', g, id) == Places(sys, g, id) {}
    }
    forall s | 0 <= s < |sys'.streams|
      ensures Refines(sys'.streams[s], RingOf(sys'.rings, sys'.streams[s]), sys'.mem)
    {
      assert Refines(sys.streams[s], RingOf(sys.rings, sys.streams[s]), sys.mem);
    }
  }

  /** The invariant survives every step of the kernel, the run loop and the user. */
  lemma StepKeepsInv(sys: Sys, e: Event)
    requires Inv(sys) && Enabled(sys, e)
    ensures Inv(Apply(sys, e))
  {
    match e {
      case RegisterRing(n, bufSize) => RegisterKeepsInv(sys, n, bufSize);
      case NewStream => NewStreamKeepsInv(sys);
      case DestroyStream(s) => DestroyKeepsInv(sys, s);
      case KernelData(s, data, more) => FillKeepsInv(sys, s, data, more);
      case Complete(s) =>
        if sys.streams[s].posted != [] {
          CompleteDataKeepsInv(sys, s);
        } else {
          TakeEndKeepsInv(sys, s);
        }
      case Await(s, h) => AwaitRecvKeepsInv(sys, s, h);
      case Resume(s) => ResumeKeepsInv(sys, s);
      case KernelEnd(s, res) => EndKeepsInv(sys, s, res);
      case SetGroup(s, g) => ChangeGroupKeepsInv(sys, s, g);
      case Cancel(s) => CancelKeepsInv(sys, s);
      case Allocate => BookkeepingKeepsInv(sys, sys.owner[sys.next := User], sys.next + 1);
      case Recycle(g, addr, cap) => RecycleKeepsInv(sys, g, addr, cap);
    }
  }
}
