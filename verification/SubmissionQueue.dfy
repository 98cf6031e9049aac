/** Link chains in the submission queue: `get_sqe`, `reserve_sqes` and `submit_ring`
    (include/fiona/detail/get_sqe.hpp:15-41) and the operations that queue chains (src/tcp.cpp:537-551,
    778-799, 1164-1183, 1213-1272 and 92-105).

    A link holds only inside one submission, so a chain that is split loses its order. */
module SubmissionQueues {

  datatype What = CancelAll | CloseDirect | TimerRemove | Socket | Connect | LinkTimeout | CancelOne | DestroyClose | Single

  /** `IOSQE_IO_LINK`, which an error breaks, and `IOSQE_IO_HARDLINK`, which it does not. */
  datatype Link = Unlinked | Soft | Hard

  /** `op` numbers the operation that queued the entry. */
  datatype Sqe = Sqe(op: nat, what: What, link: Link)

  datatype Ring = Ring(entries: nat, queued: seq<Sqe>, batches: seq<seq<Sqe>>, ops: nat)

  datatype Op =
    | Close(timer: bool)            // stream_close_awaitable
    | CloseAcceptor                 // accept_close_awaitable
    | ConnectStream(create: bool)   // connect_awaitable; creates the socket unless connected
    | DropConnect(socketActive: bool, connectActive: bool, socketStarted: bool, connectStarted: bool) // ~connect_awaitable
    | Plain                         // every operation with one entry

  /** The entries an operation queues, in order. */
  function Entries(id: nat, op: Op): seq<Sqe> {
    match op
    case Close(timer) =>
      [Sqe(id, CancelAll, Hard), Sqe(id, CloseDirect, Unlinked)] + (if timer then [Sqe(id, TimerRemove, Unlinked)] else [])
    case CloseAcceptor => [Sqe(id, CancelAll, Hard), Sqe(id, CloseDirect, Unlinked)]
    case ConnectStream(create) =>
      (if create then [Sqe(id, Socket, Soft)] else []) + [Sqe(id, Connect, Soft), Sqe(id, LinkTimeout, Unlinked)]
    case DropConnect(socketActive, connectActive, socketStarted, connectStarted) =>
      (if socketStarted && socketActive then [Sqe(id, CancelOne, Unlinked)] else []) +
      (if connectStarted && connectActive then [Sqe(id, CancelOne, Unlinked)] else [])
    case Plain => [Sqe(id, Single, Unlinked)]
  }

  /** What it reserves before. */
  function Need(op: Op): nat {
    match op
    case Close(timer) => 2 + (if timer then 1 else 0)
    case CloseAcceptor => 2
    case ConnectStream(create) => if create then 3 else 2
    case DropConnect(_, _, socketStarted, connectStarted) => (if socketStarted then 1 else 0) + (if connectStarted then 1 else 0)
    case Plain => 1
  }

  // ------------------------------------------------------------------ the queue

  /** `submit_ring`. */
  function Submit(s: Ring): Ring {
    s.(queued := [], batches := s.batches + [s.queued])
  }

  /** `reserve_sqes`; `io_uring_sq_space_left` is the unused part of the queue. */
  function Reserve(s: Ring, n: nat): Ring {
    if s.entries - |s.queued| < n then Submit(s) else s
  }

  datatype Result = Null | Ok(ring: Ring)

  /** `io_uring_get_sqe`, filled with e. */
  function Get(s: Ring, e: Sqe): Result {
    if |s.queued| < s.entries then Ok(s.(queued := s.queued + [e])) else Null
  }

  /** The first n entries of `es`, one `io_uring_get_sqe` each. */
  function GetAll(s: Ring, es: seq<Sqe>, n: nat): Result
    requires n <= |es|
  {
    if n == 0 then Ok(s)
    else
      var r := GetAll(s, es, n - 1);
      if r.Null? then Null else Get(r.ring, es[n - 1])
  }

  function Perform(s: Ring, op: Op): Result {
    var es := Entries(s.ops, op);
    var r := GetAll(Reserve(s, Need(op)), es, |es|);
    if r.Null? then Null else Ok(r.ring.(ops := s.ops + 1))
  }

  lemma {:induction false} GetAllFits(s: Ring, es: seq<Sqe>, n: nat)
    requires n <= |es| && |s.queued| <= s.entries
    ensures GetAll(s, es, n).Ok? <==> |s.queued| + n <= s.entries
    ensures GetAll(s, es, n).Ok? ==> GetAll(s, es, n).ring == s.(queued := s.queued + es[..n])
  {
    if n > 0 {
      GetAllFits(s, es, n - 1);
      assert es[..n] == es[..n - 1] + [es[n - 1]];
    } else {
      assert s.queued + es[..0] == s.queued;
    }
  }

  /** After `reserve_sqes( n )` the next n `io_uring_get_sqe` succeed, without a submission, if and only if
      the queue has n entries at all. */
  lemma ReserveIsEnough(s: Ring, n: nat, es: seq<Sqe>)
    requires |s.queued| <= s.entries && |es| == n
    ensures GetAll(Reserve(s, n), es, n).Ok? <==> n <= s.entries
    ensures n <= s.entries ==> GetAll(Reserve(s, n), es, n).ring.batches == Reserve(s, n).batches
  {
    GetAllFits(Reserve(s, n), es, n);
  }

  // ---------------------------------------------------------------------- chains

  /** Every link leads to the next entry of the same operation, in the same submission. */
  ghost predicate WholeChains(q: seq<Sqe>) {
    forall i :: 0 <= i < |q| && q[i].link != Unlinked ==> i + 1 < |q| && q[i + 1].op == q[i].op
  }

  ghost predicate Inv(s: Ring) {
    && |s.queued| <= s.entries
    && WholeChains(s.queued)
    && forall b :: 0 <= b < |s.batches| ==> WholeChains(s.batches[b])
  }

  /** Everything ever queued, in order. */
  function Issued(batches: seq<seq<Sqe>>, n: nat): seq<Sqe>
    requires n <= |batches|
  {
    if n == 0 then [] else Issued(batches, n - 1) + batches[n - 1]
  }

  function History(s: Ring): seq<Sqe> {
    Issued(s.batches, |s.batches|) + s.queued
  }

  lemma {:induction false} IssuedAppend(batches: seq<seq<Sqe>>, b: seq<Sqe>, n: nat)
    requires n <= |batches|
    ensures Issued(batches + [b], n) == Issued(batches, n)
  {
    if n > 0 {
      IssuedAppend(batches, b, n - 1);
    }
  }

  lemma SubmitKeepsHistory(s: Ring)
    ensures History(Submit(s)) == History(s)
  {
    IssuedAppend(s.batches, s.queued, |s.batches|);
  }

  lemma Associative(a: seq<Sqe>, b: seq<Sqe>, c: seq<Sqe>)
    ensures (a + b) + c == a + (b + c)
  {}

  lemma WholeAppend(q: seq<Sqe>, es: seq<Sqe>)
    requires WholeChains(q) && WholeChains(es)
    ensures WholeChains(q + es)
  {}

  lemma EntriesAreWhole(id: nat, op: Op)
    ensures WholeChains(Entries(id, op)) && |Entries(id, op)| <= Need(op)
    ensures forall i :: 0 <= i < |Entries(id, op)| ==> Entries(id, op)[i].op == id
  {}

  function Appended(s: Ring, op: Op): Ring {
    var r := Reserve(s, Need(op));
    r.(queued := r.queued + Entries(s.ops, op), ops := s.ops + 1)
  }

  /** An operation succeeds if and only if its entries fit the queue, whatever is queued before; it then
      leaves them behind what its reservation left. */
  lemma PerformSucceedsIff(s: Ring, op: Op)
    requires |s.queued| <= s.entries
    ensures Perform(s, op).Ok? <==> |Entries(s.ops, op)| <= s.entries
    ensures Perform(s, op).Ok? ==> Perform(s, op) == Ok(Appended(s, op))
  {
    var es := Entries(s.ops, op);
    EntriesAreWhole(s.ops, op);
    GetAllFits(Reserve(s, Need(op)), es, |es|);
    assert es[..|es|] == es;
  }

  /** An operation that fits the queue at all succeeds, adds its entries behind everything queued before,
      and leaves them together, whatever was submitted. */
  lemma PerformKeepsChains(s: Ring, op: Op)
    requires Inv(s) && |Entries(s.ops, op)| <= s.entries
    ensures Perform(s, op) == Ok(Appended(s, op))
    ensures var s' := Appended(s, op);
            && Inv(s') && s'.entries == s.entries
            && History(s') == History(s) + Entries(s.ops, op)
  {
    PerformSucceedsIff(s, op);
    PerformAppends(s, op);
    EntriesAreWhole(s.ops, op);
    WholeAppend(Reserve(s, Need(op)).queued, Entries(s.ops, op));
  }

  lemma PerformAppends(s: Ring, op: Op)
    requires |s.queued| <= s.entries && Perform(s, op).Ok?
    ensures History(Perform(s, op).ring) == History(s) + Entries(s.ops, op)
  {
    PerformSucceedsIff(s, op);
    SubmitKeepsHistory(s);
    var r := Reserve(s, Need(op));
    Associative(Issued(r.batches, |r.batches|), r.queued, Entries(s.ops, op));
  }

  datatype Event = Run(op: Op) | SubmitAll | Destructor

  /** `~stream_impl` reserves nothing: `get_sqe` submits if the queue is full, and the entry is submitted
      at once. */
  function Destroy(s: Ring): Result {
    var e := Sqe(s.ops, DestroyClose, Unlinked);
    var r := Get(s, e);
    var r' := if r.Null? then Get(Submit(s), e) else r;
    if r'.Null? then Null else Ok(Submit(r'.ring).(ops := s.ops + 1))
  }

  ghost predicate Step(s: Ring, e: Event, s': Ring) {
    match e
    case Run(op) => Perform(s, op) == Ok(s')
    case SubmitAll => s' == Submit(s)
    case Destructor => Destroy(s) == Ok(s')
  }

  ghost predicate Steps(states: seq<Ring>, events: seq<Event>) {
    && |states| == |events| + 1
    && forall k :: 0 <= k < |events| ==> Step(states[k], events[k], states[k + 1])
  }

  lemma DestroyAppends(s: Ring)
    requires |s.queued| <= s.entries && s.entries > 0
    ensures Destroy(s).Ok? && Destroy(s).ring.queued == []
    ensures History(Destroy(s).ring) == History(s) + [Sqe(s.ops, DestroyClose, Unlinked)]
  {
    var e := Sqe(s.ops, DestroyClose, Unlinked);
    var t := if |s.queued| < s.entries then s else Submit(s);
    SubmitKeepsHistory(s);
    var u := t.(queued := t.queued + [e]);
    assert History(u) == History(t) + [e];
    SubmitKeepsHistory(u);
  }

  lemma DestroyKeepsInv(s: Ring)
    requires Inv(s) && s.entries > 0
    ensures Destroy(s).Ok? && Inv(Destroy(s).ring) && Destroy(s).ring.queued == []
    ensures History(Destroy(s).ring) == History(s) + [Sqe(s.ops, DestroyClose, Unlinked)]
  {
    DestroyAppends(s);
    var t := if |s.queued| < s.entries then s else Submit(s);
    WholeAppend(t.queued, [Sqe(s.ops, DestroyClose, Unlinked)]);
  }

  lemma StepKeepsChains(s: Ring, e: Event, s': Ring)
    requires Inv(s) && s.entries > 0 && Step(s, e, s')
    ensures Inv(s') && s'.entries == s.entries
  {
    match e {
      case Run(op) =>
        PerformSucceedsIff(s, op);
        PerformKeepsChains(s, op);
      case SubmitAll =>
      case Destructor => DestroyKeepsInv(s);
    }
  }

  /** In every run, with submissions at any time in between, every submission is a concatenation of
      complete chains. */
  lemma {:induction false} NoChainIsSplit(states: seq<Ring>, events: seq<Event>, k: nat)
    requires Steps(states, events) && k < |states| && Inv(states[0]) && states[0].entries > 0
    ensures Inv(states[k]) && states[k].entries == states[0].entries
  {
    if k > 0 {
      NoChainIsSplit(states, events, k - 1);
      StepKeepsChains(states[k - 1], events[k - 1], states[k]);
    }
  }

  // ------------------------------------------------------- what is linked to what

  /** What each entry that belongs to a chain stands next to. */
  ghost predicate Placed(q: seq<Sqe>, i: nat)
    requires i < |q|
  {
    match q[i].what
    case CancelAll => q[i].link == Hard && i + 1 < |q| && q[i + 1] == Sqe(q[i].op, CloseDirect, Unlinked)
    case CloseDirect => i > 0 && q[i - 1] == Sqe(q[i].op, CancelAll, Hard)
    case Socket => q[i].link == Soft && i + 1 < |q| && q[i + 1] == Sqe(q[i].op, Connect, Soft)
    case Connect => q[i].link == Soft && i + 1 < |q| && q[i + 1] == Sqe(q[i].op, LinkTimeout, Unlinked)
    case LinkTimeout => i > 0 && q[i - 1] == Sqe(q[i].op, Connect, Soft)
    case _ => q[i].link == Unlinked
  }

  /** Every entry is in its place, an operation connects at most once, and belongs to the first `ops`. */
  ghost predicate Ordered(q: seq<Sqe>, ops: nat) {
    && (forall i :: 0 <= i < |q| ==> Placed(q, i))
    && (forall i :: 0 <= i < |q| ==> q[i].op < ops)
    && (forall i, j :: 0 <= i < j < |q| && q[i].what == Connect && q[j].what == Connect ==> q[i].op < q[j].op)
  }

  ghost predicate AllOrdered(s: Ring) {
    Ordered(s.queued, s.ops) && forall b :: 0 <= b < |s.batches| ==> Ordered(s.batches[b], s.ops)
  }

  lemma OrderedAppend(q: seq<Sqe>, es: seq<Sqe>, ops: nat)
    requires Ordered(q, ops) && Ordered(es, ops + 1) && forall i :: 0 <= i < |es| ==> es[i].op == ops
    ensures Ordered(q + es, ops + 1)
  {
    forall i | 0 <= i < |q + es| ensures Placed(q + es, i) {
      if i < |q| {
        assert Placed(q, i);
      } else {
        assert Placed(es, i - |q|);
      }
    }
  }

  lemma EntriesAreOrdered(id: nat, op: Op)
    ensures Ordered(Entries(id, op), id + 1)
  {}

  /** What each operation adds behind everything queued before, and the destructor. */
  lemma OperationAdds(s: Ring, e: Event, s': Ring)
    requires |s.queued| <= s.entries && s.entries > 0 && Step(s, e, s')
    ensures var id := s.ops;
            match e
            case Run(Close(timer)) =>
              History(s') == History(s) + [Sqe(id, CancelAll, Hard), Sqe(id, CloseDirect, Unlinked)]
                             + (if timer then [Sqe(id, TimerRemove, Unlinked)] else [])
            case Run(CloseAcceptor) =>
              History(s') == History(s) + [Sqe(id, CancelAll, Hard), Sqe(id, CloseDirect, Unlinked)]
            case Run(ConnectStream(true)) =>
              History(s') == History(s) + [Sqe(id, Socket, Soft), Sqe(id, Connect, Soft), Sqe(id, LinkTimeout, Unlinked)]
            case Run(ConnectStream(false)) =>
              History(s') == History(s) + [Sqe(id, Connect, Soft), Sqe(id, LinkTimeout, Unlinked)]
            case Run(DropConnect(socketActive, connectActive, socketStarted, connectStarted)) =>
              History(s') == History(s) + (if socketStarted && socketActive then [Sqe(id, CancelOne, Unlinked)] else [])
                             + (if connectStarted && connectActive then [Sqe(id, CancelOne, Unlinked)] else [])
            case Run(Plain) => History(s') == History(s) + [Sqe(id, Single, Unlinked)]
            case SubmitAll => History(s') == History(s) && s'.queued == []
            case Destructor => History(s') == History(s) + [Sqe(id, DestroyClose, Unlinked)] && s'.queued == []
  {
    match e {
      case Run(op) => PerformAppends(s, op);
      case SubmitAll => SubmitKeepsHistory(s);
      case Destructor => DestroyAppends(s);
    }
  }

  lemma StepKeepsOrder(s: Ring, e: Event, s': Ring)
    requires |s.queued| <= s.entries && s.entries > 0 && AllOrdered(s) && Step(s, e, s')
    ensures AllOrdered(s')
  {
    match e {
      case Run(op) =>
        PerformSucceedsIff(s, op);
        EntriesAreWhole(s.ops, op);
        EntriesAreOrdered(s.ops, op);
        OrderedAppend(Reserve(s, Need(op)).queued, Entries(s.ops, op), s.ops);
      case SubmitAll =>
      case Destructor =>
        var t := if |s.queued| < s.entries then s else Submit(s);
        OrderedAppend(t.queued, [Sqe(s.ops, DestroyClose, Unlinked)], s.ops);
    }
  }

  /** In every run, in every submission: a close stands directly behind a hard-linked cancellation of the same
      operation, a link timeout directly behind a linked connect, and the connect of an operation that
      creates a socket directly behind that linked socket; and none of the first ones comes alone. */
  lemma {:induction false} LinkedToItsOwn(states: seq<Ring>, events: seq<Event>, k: nat, b: nat, i: nat)
    requires Steps(states, events) && k < |states| && states[0] == Ring(states[0].entries, [], [], 0) && states[0].entries > 0
    requires b < |states[k].batches| && i < |states[k].batches[b]|
    ensures var q := states[k].batches[b];
            && (q[i].what == CloseDirect ==> i > 0 && q[i - 1] == Sqe(q[i].op, CancelAll, Hard))
            && (q[i].what == LinkTimeout ==> i > 0 && q[i - 1] == Sqe(q[i].op, Connect, Soft))
            && (q[i].what == CancelAll ==> i + 1 < |q| && q[i + 1] == Sqe(q[i].op, CloseDirect, Unlinked))
            && (q[i].what == Socket ==> i + 1 < |q| && q[i + 1] == Sqe(q[i].op, Connect, Soft))
            && (q[i].what == Connect ==> i + 1 < |q| && q[i + 1] == Sqe(q[i].op, LinkTimeout, Unlinked))
            && forall j :: 0 <= j < |q| && q[j].what == Socket && q[i].what == Connect && q[j].op == q[i].op ==>
                 j == i - 1 && q[j].link == Soft
  {
    AlwaysOrdered(states, events, k);
    var q := states[k].batches[b];
    assert Placed(q, i);
    forall j | 0 <= j < |q| && q[j].what == Socket && q[i].what == Connect && q[j].op == q[i].op
      ensures j == i - 1 && q[j].link == Soft
    {
      assert Placed(q, j);
      assert q[j + 1].what == Connect && q[j + 1].op == q[i].op;
    }
  }

  lemma {:induction false} AlwaysOrdered(states: seq<Ring>, events: seq<Event>, k: nat)
    requires Steps(states, events) && k < |states| && states[0] == Ring(states[0].entries, [], [], 0) && states[0].entries > 0
    ensures AllOrdered(states[k])
  {
    if k > 0 {
      AlwaysOrdered(states, events, k - 1);
      NoChainIsSplit(states, events, k - 1);
      StepKeepsOrder(states[k - 1], events[k - 1], states[k]);
    }
  }

  // -------------------------------------------------------------------- the object

  class SubmissionQueue {
    const entries: nat
    var queued: seq<Sqe>
    var batches: seq<seq<Sqe>>
    var ops: nat

    ghost function State(): Ring
      reads this
    {
      Ring(entries, queued, batches, ops)
    }

    constructor (n: nat)
      ensures State() == Ring(n, [], [], 0) && Inv(State())
    {
      entries, queued, batches, ops := n, [], [], 0;
    }

    method SubmitRing()
      modifies this
      ensures State() == Submit(old(State()))
    {
      batches := batches + [queued];
      queued := [];
    }

    method ReserveSqes(n: nat)
      requires |queued| <= entries
      modifies this
      ensures State() == Reserve(old(State()), n)
      ensures n <= entries ==> entries - |queued| >= n
      ensures if entries - |old(queued)| >= n then queued == old(queued) && batches == old(batches)
              else queued == [] && batches == old(batches) + [old(queued)]
    {
      var r := entries - |queued|;
      if r < n {
        SubmitRing();
      }
    }

    /** `io_uring_get_sqe`, filled with e: false if there is none. */
    method RawGetSqe(e: Sqe) returns (ok: bool)
      modifies this`queued
      ensures ok == Get(old(State()), e).Ok?
      ensures ok ==> State() == Get(old(State()), e).ring
      ensures !ok ==> State() == old(State())
    {
      ok := |queued| < entries;
      if ok {
        queued := queued + [e];
      }
    }

    /** `get_sqe`. */
    method GetSqe(e: Sqe)
      requires entries > 0
      modifies this
      ensures State() == if Get(old(State()), e).Ok? then Get(old(State()), e).ring else Submit(old(State())).(queued := [e])
      ensures if |old(queued)| < entries then queued == old(queued) + [e] && batches == old(batches)
              else queued == [e] && batches == old(batches) + [old(queued)]
    {
      var ok := RawGetSqe(e);
      if ok {
        return;
      }
      SubmitRing();
      ok := RawGetSqe(e);
      assert ok;
    }

    /** `stream_close_awaitable::await_suspend`. */
    method SuspendClose(timer: bool)
      requires |queued| <= entries && Need(Close(timer)) <= entries
      modifies this
      ensures State() == Appended(old(State()), Close(timer))
      ensures queued == (if entries - |old(queued)| >= (if timer then 3 else 2) then old(queued) else [])
                        + [Sqe(old(ops), CancelAll, Hard), Sqe(old(ops), CloseDirect, Unlinked)]
                        + (if timer then [Sqe(old(ops), TimerRemove, Unlinked)] else [])
    {
      ReserveSqes(2 + (if timer then 1 else 0));
      ghost var q := queued;
      var ok := RawGetSqe(Sqe(ops, CancelAll, Hard));
      assert ok;
      ok := RawGetSqe(Sqe(ops, CloseDirect, Unlinked));
      assert ok;
      if timer {
        ok := RawGetSqe(Sqe(ops, TimerRemove, Unlinked));
        assert ok;
      }
      assert queued == q + Entries(ops, Close(timer));
      ops := ops + 1;
    }

    /** `connect_awaitable::await_suspend`. */
    method SuspendConnect(connected: bool)
      requires |queued| <= entries && Need(ConnectStream(!connected)) <= entries
      modifies this
      ensures State() == Appended(old(State()), ConnectStream(!connected))
      ensures queued == (if entries - |old(queued)| >= (if connected then 2 else 3) then old(queued) else [])
                        + (if connected then [] else [Sqe(old(ops), Socket, Soft)])
                        + [Sqe(old(ops), Connect, Soft), Sqe(old(ops), LinkTimeout, Unlinked)]
    {
      ReserveSqes(if connected then 2 else 3);
      ghost var q := queued;
      var ok;
      if !connected {
        ok := RawGetSqe(Sqe(ops, Socket, Soft));
        assert ok;
      }
      ok := RawGetSqe(Sqe(ops, Connect, Soft));
      assert ok;
      ok := RawGetSqe(Sqe(ops, LinkTimeout, Unlinked));
      assert ok;
      assert queued == q + Entries(ops, ConnectStream(!connected));
      ops := ops + 1;
    }

    /** `~stream_impl`. */
    method DestroyStream()
      requires |queued| <= entries && entries > 0
      modifies this
      ensures Destroy(old(State())) == Ok(State())
      ensures queued == [] && batches == if |old(queued)| < entries then old(batches) + [old(queued) + [Sqe(old(ops), DestroyClose, Unlinked)]]
                                         else old(batches) + [old(queued), [Sqe(old(ops), DestroyClose, Unlinked)]]
    {
      ghost var e := Sqe(ops, DestroyClose, Unlinked);
      assert [] + [e] == [e];
      GetSqe(Sqe(ops, DestroyClose, Unlinked));
      SubmitRing();
      ops := ops + 1;
    }
  }
}
