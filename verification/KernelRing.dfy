/** The shared ring through which buffers are provided to the kernel: the liburing calls
    `io_uring_buf_ring_add`, `io_uring_buf_ring_advance` and `io_uring_buf_ring_mask` as used in
    src/common.cpp:67-75, src/common.cpp:99-103 and src/tcp.cpp:1067-1076.

    The tail and the head are 16-bit counters that wrap around; the slot of a counter is its value
    under a power-of-two mask. */
module KernelRings {

  /** Arithmetic on a 16-bit counter. */
  function Wrap(x: int): (w: nat)
    ensures w < 0x1_0000
    decreases if x < 0 then 0x1_0000 - x else x
  {
    if x < 0 then Wrap(x + 0x1_0000) else if x < 0x1_0000 then x else Wrap(x - 0x1_0000)
  }

  lemma ModuloPeriod(x: int)
    ensures (x + 0x1_0000) % 0x1_0000 == x % 0x1_0000
  {
  }

  lemma {:induction false} WrapIsModulo(x: int)
    ensures Wrap(x) == x % 0x1_0000
    decreases if x < 0 then 0x1_0000 - x else x
  {
    if x < 0 {
      ModuloPeriod(x);
      WrapIsModulo(x + 0x1_0000);
    } else if x >= 0x1_0000 {
      ModuloPeriod(x - 0x1_0000);
      WrapIsModulo(x - 0x1_0000);
    }
  }

  /** Counters `k` steps apart stay so under wrap-around, as long as the distance fits in 16 bits. */
  lemma WrapDistance(tail: nat, head: nat, k: nat)
    requires tail < 0x1_0000 && head < 0x1_0000 && Wrap(tail - head) + k < 0x1_0000
    ensures Wrap(Wrap(tail + k) - head) == Wrap(tail - head) + k
    ensures Wrap(head + Wrap(tail - head)) == tail
    ensures k == 0 && tail != head ==> Wrap(tail - Wrap(head + 1)) == Wrap(tail - head) - 1
  {
  }

  datatype Entry = Entry(addr: nat, len: nat, bid: nat)

  // ---------------------------------------------------------------- the mask

  function Pow2(k: nat): (p: nat)
    ensures p > 0
  {
    if k == 0 then 1 else 2 * Pow2(k - 1)
  }

  /** Bitwise conjunction, bit by bit. */
  function BitAnd(x: nat, y: nat): nat
  {
    if x == 0 || y == 0 then 0 else 2 * BitAnd(x / 2, y / 2) + (x % 2) * (y % 2)
  }

  /** The slot of a counter in a ring of `n`: its remainder modulo `n`, by repeated subtraction. */
  function Slot(counter: nat, n: nat): (s: nat)
    requires n > 0
    ensures s < n
  {
    if counter < n then counter else Slot(counter - n, n)
  }

  /** `io_uring_buf_ring_mask( n ) == n - 1`: masking a counter gives its slot. */
  lemma {:induction false} MaskIsSlot(x: nat, k: nat)
    ensures BitAnd(x, Pow2(k) - 1) == Slot(x, Pow2(k))
  {
    if k == 0 {
      SlotOfOne(x);
    } else {
      var p := Pow2(k - 1);
      OddHalves(p);
      MaskIsSlot(x / 2, k - 1);
      SlotDouble(x, p);
    }
  }

  lemma OddHalves(p: nat)
    requires p > 0
    ensures (2 * p - 1) / 2 == p - 1 && (2 * p - 1) % 2 == 1
  {
  }

  lemma {:induction false} SlotOfOne(x: nat)
    ensures Slot(x, 1) == 0
  {
    if x > 0 { SlotOfOne(x - 1); }
  }

  lemma {:induction false} SlotDouble(x: nat, p: nat)
    requires p > 0
    ensures Slot(x, 2 * p) == 2 * Slot(x / 2, p) + x % 2
  {
    if x >= 2 * p {
      SlotDouble(x - 2 * p, p);
      assert (x - 2 * p) / 2 == x / 2 - p && (x - 2 * p) % 2 == x % 2;
    }
  }

  // ------------------------------------------------------- slots of counters

  /** Ring sizes liburing accepts: powers of two up to 32768. */
  ghost predicate RingSize(n: nat)
  {
    exists k: nat :: k <= 15 && n == Pow2(k)
  }

  lemma {:induction false} SlotPeriod(x: nat, k: nat, m: nat)
    requires k <= m
    ensures Slot(x + Pow2(m), Pow2(k)) == Slot(x, Pow2(k))
    decreases m
  {
    if k < m {
      SlotPeriod(x, k, m - 1);
      SlotPeriod(x + Pow2(m - 1), k, m - 1);
    }
  }

  lemma Powers()
    ensures Pow2(16) == 0x1_0000 && Pow2(15) == 32768
  {
    assert Pow2(4) == 16;
    assert Pow2(8) == 256;
    assert Pow2(12) == 4096;
  }

  lemma {:induction false} PowersGrow(k: nat, m: nat)
    requires k <= m
    ensures Pow2(k) <= Pow2(m)
  {
    if k < m { PowersGrow(k, m - 1); }
  }

  lemma RingSizeBounds(n: nat)
    requires RingSize(n)
    ensures 0 < n <= 32768
  {
    var k: nat :| k <= 15 && n == Pow2(k);
    PowersGrow(k, 15);
    Powers();
  }

  /** Wrapping the 16-bit counter does not change the slot it denotes. */
  lemma {:induction false} WrapKeepsSlot(x: nat, n: nat)
    requires RingSize(n) && n > 0
    ensures Slot(Wrap(x), n) == Slot(x, n)
  {
    if x >= 0x1_0000 {
      WrapKeepsSlot(x - 0x1_0000, n);
      WrapOnce(x - 0x1_0000, n);
    }
  }

  lemma WrapOnce(y: nat, n: nat)
    requires RingSize(n) && n > 0
    ensures Slot(y + 0x1_0000, n) == Slot(y, n)
  {
    var k: nat :| k <= 15 && n == Pow2(k);
    Powers();
    SlotPeriod(y, k, 16);
  }

  lemma {:induction false} SlotOfSum(a: nat, c: nat, n: nat)
    requires n > 0
    ensures Slot(a + c, n) == Slot(Slot(a, n) + c, n)
  {
    if a >= n { SlotOfSum(a - n, c, n); }
  }

  /** Fewer than `n` consecutive counters never share a slot: nothing in the live window, and
      nothing staged behind it, overwrites anything else in it. */
  lemma {:induction false} SlotsDistinct(x: nat, d: nat, n: nat)
    requires 0 < d < n
    ensures Slot(x + d, n) != Slot(x, n)
  {
    if x >= n { SlotsDistinct(x - n, d, n); }
  }

  // ------------------------------------------------------------- runs of slots

  /** The contents of the `count` slots that start at counter value `from`. */
  function Span(slots: seq<Entry>, from: nat, count: nat): (s: seq<Entry>)
    requires |slots| > 0
    ensures |s| == count
  {
    if count == 0 then [] else Span(slots, from, count - 1) + [slots[Slot(from + count - 1, |slots|)]]
  }

  /** Writing `k` slots behind the start of a shorter run does not touch the run. */
  lemma {:induction false} SpanFrame(slots: seq<Entry>, from: nat, count: nat, k: nat, e: Entry)
    requires count <= k < |slots|
    ensures Span(slots[Slot(from + k, |slots|) := e], from, count) == Span(slots, from, count)
  {
    if count > 0 {
      SpanFrame(slots, from, count - 1, k, e);
      SlotsDistinct(from + count - 1, k - (count - 1), |slots|);
    }
  }

  lemma {:induction false} SpanSameSlot(slots: seq<Entry>, a: nat, b: nat, count: nat)
    requires |slots| > 0 && Slot(a, |slots|) == Slot(b, |slots|)
    ensures Span(slots, a, count) == Span(slots, b, count)
  {
    if count > 0 {
      SpanSameSlot(slots, a, b, count - 1);
      SlotOfSum(a, count - 1, |slots|);
      SlotOfSum(b, count - 1, |slots|);
    }
  }

  lemma {:induction false} SpanSplit(slots: seq<Entry>, from: nat, i: nat, j: nat)
    requires |slots| > 0
    ensures Span(slots, from, i + j) == Span(slots, from, i) + Span(slots, from + i, j)
  {
    if j > 0 {
      SpanSplit(slots, from, i, j - 1);
    }
  }

  lemma {:induction false} SpanHead(slots: seq<Entry>, from: nat, count: nat)
    requires |slots| > 0 && count > 0
    ensures Span(slots, from, count) == [slots[Slot(from, |slots|)]] + Span(slots, from + 1, count - 1)
  {
    if count > 1 {
      SpanHead(slots, from, count - 1);
    }
  }

  // -------------------------------------------------------------- the ring itself

  /** The slots, the writer's tail and the kernel's head. */
  datatype RingMem = RingMem(slots: seq<Entry>, tail: nat, head: nat) {
    /** Entries the kernel has not consumed, by wrapping subtraction of the counters. */
    function Count(): nat {
      Wrap(tail - head)
    }

    ghost predicate Valid() {
      |slots| > 0 && RingSize(|slots|) && tail < 0x1_0000 && head < 0x1_0000 && Count() <= |slots|
    }

    /** What the kernel can still take, oldest first. */
    function Window(): seq<Entry>
      requires |slots| > 0
    {
      Span(slots, head, Count())
    }

    /** The first `count` entries staged behind the tail. */
    function Staged(count: nat): seq<Entry>
      requires |slots| > 0
    {
      Span(slots, tail, count)
    }

    function Add(e: Entry, offset: nat): (r: RingMem)
      requires |slots| > 0
      ensures |r.slots| == |slots|
    {
      this.(slots := slots[Slot(tail + offset, |slots|) := e])
    }

    function Advance(count: nat): RingMem {
      this.(tail := Wrap(tail + count))
    }

    function Consume(): RingMem {
      this.(head := Wrap(head + 1))
    }

    /** Add the entries at consecutive offsets, starting at `offset`. */
    function AddRun(es: seq<Entry>, offset: nat): RingMem
      requires |slots| > 0
      decreases |es|
    {
      if es == [] then this else Add(es[0], offset).AddRun(es[1..], offset + 1)
    }

    /** One add at offset 0 and one advance by 1 per entry. */
    function PushRun(es: seq<Entry>): RingMem
      requires |slots| > 0
      decreases |es|
    {
      if es == [] then this else Add(es[0], 0).Advance(1).PushRun(es[1..])
    }
  }

  /** The tail denotes the slot right behind the window. */
  lemma TailBehindWindow(r: RingMem, k: nat)
    requires r.Valid()
    ensures Slot(r.tail + k, |r.slots|) == Slot(r.head + r.Count() + k, |r.slots|)
  {
    WrapDistance(r.tail, r.head, 0);
    WrapKeepsSlot(r.head + r.Count(), |r.slots|);
    SlotOfSum(r.tail, k, |r.slots|);
    SlotOfSum(r.head + r.Count(), k, |r.slots|);
  }

  lemma CountFits(r: RingMem, count: nat)
    requires r.Valid() && r.Count() + count <= |r.slots|
    ensures Wrap(Wrap(r.tail + count) - r.head) == r.Count() + count
  {
    RingSizeBounds(|r.slots|);
    WrapDistance(r.tail, r.head, count);
  }

  lemma AddKeepsWindow(r: RingMem, e: Entry, offset: nat)
    requires r.Valid() && r.Count() + offset < |r.slots|
    ensures r.Add(e, offset).Window() == r.Window()
  {
    TailBehindWindow(r, offset);
    SpanFrame(r.slots, r.head, r.Count(), r.Count() + offset, e);
  }

  /** Staged entries lie behind the tail and in front of the kernel's head: staging one more changes
      neither the window nor the entries staged at smaller offsets. */
  lemma AddStages(r: RingMem, e: Entry, offset: nat)
    requires r.Valid() && r.Count() + offset < |r.slots|
    ensures r.Add(e, offset).Valid() && r.Add(e, offset).Window() == r.Window()
    ensures r.Add(e, offset).Staged(offset + 1) == r.Staged(offset) + [e]
  {
    AddKeepsWindow(r, e, offset);
    SpanFrame(r.slots, r.tail, offset, offset, e);
  }

  lemma WindowAndStaged(r: RingMem, count: nat)
    requires r.Valid()
    ensures Span(r.slots, r.head, r.Count() + count) == r.Window() + r.Staged(count)
  {
    TailBehindWindow(r, 0);
    SpanSameSlot(r.slots, r.tail, r.head + r.Count(), count);
    SpanSplit(r.slots, r.head, r.Count(), count);
  }

  /** Advancing appends the staged entries to the window, in order. */
  lemma AdvanceCommits(r: RingMem, count: nat)
    requires r.Valid() && r.Count() + count <= |r.slots|
    ensures r.Advance(count).Valid() && r.Advance(count).Count() == r.Count() + count
    ensures r.Advance(count).Window() == r.Window() + r.Staged(count)
  {
    CountFits(r, count);
    WindowAndStaged(r, count);
  }

  /** The kernel takes the oldest provided buffer. */
  lemma ConsumeTakesOldest(r: RingMem)
    requires r.Valid() && r.Window() != []
    ensures r.Consume().Valid()
    ensures r.Window() == [r.slots[Slot(r.head, |r.slots|)]] + r.Consume().Window()
  {
    SpanHead(r.slots, r.head, r.Count());
    WrapKeepsSlot(r.head + 1, |r.slots|);
    SpanSameSlot(r.slots, Wrap(r.head + 1), r.head + 1, r.Count() - 1);
    WrapDistance(r.tail, r.head, 0);
  }

  lemma {:induction false} AddRunAfterAdvance(r: RingMem, es: seq<Entry>, offset: nat)
    requires r.Valid()
    ensures r.Advance(1).AddRun(es, offset) == r.AddRun(es, offset + 1).Advance(1)
    decreases |es|
  {
    if es != [] {
      WrapKeepsSlot(r.tail + 1, |r.slots|);
      SlotOfSum(Wrap(r.tail + 1), offset, |r.slots|);
      SlotOfSum(r.tail + 1, offset, |r.slots|);
      assert r.Advance(1).Add(es[0], offset) == r.Add(es[0], offset + 1).Advance(1);
      AddRunAfterAdvance(r.Add(es[0], offset + 1), es[1..], offset + 1);
    }
  }

  /** Adding entries at offsets 0, 1, .. and advancing once leaves the ring exactly as pushing them
      one at a time does. */
  lemma {:induction false} BatchEqualsSinglePushes(r: RingMem, es: seq<Entry>)
    requires r.Valid() && r.Count() + |es| <= |r.slots|
    ensures r.AddRun(es, 0).Advance(|es|) == r.PushRun(es)
    decreases |es|
  {
    if es != [] {
      var r1 := r.Add(es[0], 0);
      AddStages(r, es[0], 0);
      AdvanceCommits(r1, 1);
      AddRunAfterAdvance(r1, es[1..], 0);
      BatchEqualsSinglePushes(r1.Advance(1), es[1..]);
      AdvanceTwice(r1.AddRun(es[1..], 1), |es| - 1);
    }
  }

  lemma AdvanceTwice(r: RingMem, k: nat)
    ensures r.Advance(1).Advance(k) == r.Advance(k + 1)
  {
    WrapIsModulo(r.tail + 1);
    WrapIsModulo(Wrap(r.tail + 1) + k);
    WrapIsModulo(r.tail + (k + 1));
  }

  class KernelRing {
    const slots: array<Entry>
    var tail: nat
    var head: nat

    ghost function State(): RingMem
      reads this, slots
    {
      RingMem(slots[..], tail, head)
    }

    constructor (n: nat)
      requires RingSize(n)
      ensures fresh(slots) && slots.Length == n && State().Valid() && State().Window() == []
    {
      RingSizeBounds(n);
      slots := new Entry[n](_ => Entry(0, 0, 0));
      tail, head := 0, 0;
      assert Wrap(0) == 0;
    }

    /** `io_uring_buf_ring_add`. */
    method Add(e: Entry, offset: nat)
      requires State().Valid() && State().Count() + offset < slots.Length
      modifies slots
      ensures State() == old(State()).Add(e, offset)
      ensures State().Valid() && State().Window() == old(State().Window())
      ensures State().Staged(offset + 1) == old(State().Staged(offset)) + [e]
    {
      AddStages(State(), e, offset);
      slots[Slot(tail + offset, slots.Length)] := e;
    }

    /** `io_uring_buf_ring_advance`. */
    method Advance(count: nat)
      requires State().Valid() && State().Count() + count <= slots.Length
      modifies `tail
      ensures State() == old(State()).Advance(count)
      ensures State().Valid() && State().Window() == old(State().Window() + State().Staged(count))
      ensures State().Count() == old(State().Count()) + count
    {
      AdvanceCommits(State(), count);
      tail := Wrap(tail + count);
    }

    /** One entry, published at once. */
    method Push(e: Entry)
      requires State().Valid() && State().Count() < slots.Length
      modifies this, slots
      ensures State() == old(State()).Add(e, 0).Advance(1)
      ensures State().Valid() && State().Window() == old(State().Window()) + [e]
      ensures State().Count() == old(State().Count()) + 1
    {
      Add(e, 0);
      Advance(1);
    }

    method Consume() returns (e: Entry)
      requires State().Valid() && State().Window() != []
      modifies `head
      ensures State().Valid()
      ensures old(State().Window()) == [e] + State().Window()
    {
      ConsumeTakesOldest(State());
      e := slots[Slot(head, slots.Length)];
      head := Wrap(head + 1);
    }
  }
}
