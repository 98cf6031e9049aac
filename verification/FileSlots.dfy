/** The allocator of fixed-file slots: `get_available_fd`/`release_fd` (include/fiona/executor.hpp:178-209)
    and everything that calls them: accept, connect, close and the destructors of acceptors and streams.

    A slot is owned by the free set, by `fd_` of a stream or acceptor, by `peer_fd_` of an accept
    operation, or by the user of `async_accept_raw`. A slot without an owner is lost for good. */
module FileSlots {

  /** `initiated_` and `done_` of an `accept_frame`; `Dead` once its acceptor is destroyed. */
  datatype Phase = Unused | InFlight | Done | Dead

  /** `acceptors[i]`, `peers[i]` and `phases[i]` are `fd_`, `peer_fd_` and the accept operation of
      acceptor i; `streams[j]` is `fd_` of stream j; `raw[k]` is the k-th descriptor returned raw.
      A negative number means "no slot"; a destroyed object keeps -1. */
  datatype Slots = Slots(
    limit: nat,
    free: set<int>,
    streams: seq<int>,
    acceptors: seq<int>,
    peers: seq<int>,
    phases: seq<Phase>,
    raw: seq<int>,
    lost: set<int>)

  function UpTo(n: nat): (r: set<int>)
    ensures forall f :: f in r <==> 0 <= f < n
  {
    if n == 0 then {} else UpTo(n - 1) + {n - 1}
  }

  lemma {:induction false} SomeMember(s: set<int>, n: nat)
    requires s <= UpTo(n) && s != {}
    ensures exists f :: 0 <= f < n && f in s
  {
    if n > 0 && n - 1 !in s {
      SomeMember(s, n - 1);
    }
  }

  function Initial(limit: nat): Slots {
    Slots(limit, UpTo(limit), [], [], [], [], [], {})
  }

  // -------------------------------------------------------------------- the steps

  /** `release_fd`. */
  function ReleaseFd(s: Slots, fd: int): Slots {
    if fd < 0 then s else s.(free := s.free + {fd})
  }

  function Lose(s: Slots, fd: int): Slots {
    if fd < 0 then s else s.(lost := s.lost + {fd})
  }

  datatype Event =
    | OpenAcceptor(fd: int, registered: bool) // constructor of acceptor_impl
    | Accept(i: nat, fd: int)                 // accept_awaitable::await_suspend
    | AcceptDone(i: nat, res: int)            // accept_frame::await_process_cqe
    | AcceptResume(i: nat, asRaw: bool)       // await_resume of either accept awaitable
    | CloseAcceptor(i: nat)                   // acceptor_close_frame::await_process_cqe
    | DestroyAcceptor(i: nat)                 // ~acceptor_impl
    | NewClient                               // constructor of client
    | Connect(j: nat, fd: int)                // connect_awaitable::await_suspend
    | Vacate(j: nat)                          // completed close, failed socket, ~stream_impl
    | WrapRaw(k: nat)                         // stream( ex, fd )
    | DropRaw(k: nat)                         // the user forgets the descriptor

  /** The slot `get_available_fd` hands out, if there is one. */
  predicate Available(s: Slots, fd: int) {
    s.free != {} ==> fd in s.free
  }

  predicate Enabled(s: Slots, e: Event) {
    && |s.acceptors| == |s.peers| == |s.phases|
    && match e
    case OpenAcceptor(fd, _) => Available(s, fd)
    case Accept(i, fd) => i < |s.phases| && s.phases[i] != Dead && Available(s, fd)
    case AcceptDone(i, _) => i < |s.phases| && s.phases[i] == InFlight
    case AcceptResume(i, _) => i < |s.phases| && s.phases[i] == Done
    case CloseAcceptor(i) => i < |s.phases| && s.phases[i] != Dead
    case DestroyAcceptor(i) => i < |s.phases| && s.phases[i] != Dead && s.phases[i] != InFlight
    case NewClient => true
    case Connect(j, fd) => j < |s.streams| && Available(s, fd)
    case Vacate(j) => j < |s.streams|
    case WrapRaw(k) => k < |s.raw| && s.raw[k] >= 0
    case DropRaw(k) => k < |s.raw|
  }

  function Apply(s: Slots, e: Event): Slots
    requires Enabled(s, e)
  {
    match e
    case OpenAcceptor(fd, registered) =>
      if s.free == {} then s
      else if !registered then Lose(s.(free := s.free - {fd}), fd)
      else s.(free := s.free - {fd}, acceptors := s.acceptors + [fd], peers := s.peers + [-1], phases := s.phases + [Unused])
    case Accept(i, fd) =>
      if s.phases[i] != Unused || s.free == {} then s
      else s.(free := s.free - {fd}, peers := s.peers[i := fd], phases := s.phases[i := InFlight])
    case AcceptDone(i, res) =>
      var s' := s.(phases := s.phases[i := Done]);
      if res >= 0 then s' else ReleaseFd(s', s.peers[i]).(peers := s.peers[i := res])
    case AcceptResume(i, asRaw) =>
      var s' := s.(peers := s.peers[i := -1], phases := s.phases[i := Unused]);
      if s.peers[i] < 0 then s'
      else if asRaw then s'.(raw := s.raw + [s.peers[i]])
      else s'.(streams := s.streams + [s.peers[i]])
    case CloseAcceptor(i) => ReleaseFd(s, s.acceptors[i]).(acceptors := s.acceptors[i := -1])
    case DestroyAcceptor(i) =>
      Lose(ReleaseFd(s, s.acceptors[i]), s.peers[i])
        .(acceptors := s.acceptors[i := -1], peers := s.peers[i := -1], phases := s.phases[i := Dead])
    case NewClient => s.(streams := s.streams + [-1])
    case Connect(j, fd) =>
      if s.streams[j] >= 0 || s.free == {} then s
      else s.(free := s.free - {fd}, streams := s.streams[j := fd])
    case Vacate(j) => ReleaseFd(s, s.streams[j]).(streams := s.streams[j := -1])
    case WrapRaw(k) => s.(streams := s.streams + [s.raw[k]], raw := s.raw[k := -1])
    case DropRaw(k) => Lose(s, s.raw[k]).(raw := s.raw[k := -1])
  }

  // -------------------------------------------------------------------- ownership

  function Holds(fds: seq<int>, f: int, n: nat): nat
    requires n <= |fds|
  {
    if n == 0 then 0 else Holds(fds, f, n - 1) + (if fds[n - 1] == f then 1 else 0)
  }

  lemma {:induction false} HoldsUpdate(fds: seq<int>, f: int, i: nat, x: int, n: nat)
    requires i < |fds| && n <= |fds|
    ensures Holds(fds[i := x], f, n) ==
      Holds(fds, f, n) + (if i < n && x == f then 1 else 0) - (if i < n && fds[i] == f then 1 else 0)
  {
    if n > 0 {
      HoldsUpdate(fds, f, i, x, n - 1);
    }
  }

  lemma {:induction false} HoldsAppend(fds: seq<int>, f: int, x: int, n: nat)
    requires n <= |fds|
    ensures Holds(fds + [x], f, n) == Holds(fds, f, n)
    ensures n == |fds| ==> Holds(fds + [x], f, n + 1) == Holds(fds, f, n) + (if x == f then 1 else 0)
  {
    if n > 0 {
      HoldsAppend(fds, f, x, n - 1);
    }
  }

  lemma {:induction false} HoldsSome(fds: seq<int>, i: nat, n: nat)
    requires i < n <= |fds|
    ensures Holds(fds, fds[i], n) >= 1
  {
    if i < n - 1 {
      HoldsSome(fds, i, n - 1);
    }
  }

  lemma {:induction false} HoldsNone(fds: seq<int>, f: int, n: nat)
    requires n <= |fds| && forall i :: 0 <= i < n ==> fds[i] != f
    ensures Holds(fds, f, n) == 0
  {
    if n > 0 {
      HoldsNone(fds, f, n - 1);
    }
  }

  function Held(s: Slots, f: int): nat {
    Holds(s.streams, f, |s.streams|) + Holds(s.acceptors, f, |s.acceptors|) +
    Holds(s.peers, f, |s.peers|) + Holds(s.raw, f, |s.raw|)
  }

  /** How often slot f is owned, or lost. */
  function Owners(s: Slots, f: int): nat {
    (if f in s.free then 1 else 0) + Held(s, f) + (if f in s.lost then 1 else 0)
  }

  /** A slot is in flight for an accept operation until its result is known. */
  ghost predicate PeersOk(s: Slots) {
    && |s.acceptors| == |s.peers| == |s.phases|
    && (forall i :: 0 <= i < |s.phases| && s.phases[i] == InFlight ==> s.peers[i] >= 0)
    && (forall i :: 0 <= i < |s.phases| && s.phases[i] in {Unused, Dead} ==> s.peers[i] < 0)
  }

  ghost predicate Inv(s: Slots) {
    && PeersOk(s)
    && s.free <= UpTo(s.limit) && s.lost <= UpTo(s.limit)
    && (forall f | f >= 0 :: Owners(s, f) == if f < s.limit then 1 else 0)
  }

  /** The descriptor an event gives to `release_fd`. */
  function Released(s: Slots, e: Event): int
    requires Enabled(s, e)
  {
    match e
    case AcceptDone(i, res) => if res < 0 then s.peers[i] else -1
    case CloseAcceptor(i) => s.acceptors[i]
    case DestroyAcceptor(i) => s.acceptors[i]
    case Vacate(j) => s.streams[j]
    case _ => -1
  }

  /** `release_fd` never finds the slot already free or out of range, however often an object is closed. */
  lemma ReleaseIsSafe(s: Slots, e: Event)
    requires Inv(s) && Enabled(s, e)
    ensures Released(s, e) >= 0 ==> Released(s, e) < s.limit && Released(s, e) !in s.free
    ensures e.AcceptDone? ==> s.peers[e.i] >= 0
  {
    var fd := Released(s, e);
    match e {
      case AcceptDone(i, _) => HoldsSome(s.peers, i, |s.peers|);
      case CloseAcceptor(i) => HoldsSome(s.acceptors, i, |s.acceptors|);
      case DestroyAcceptor(i) => HoldsSome(s.acceptors, i, |s.acceptors|);
      case Vacate(j) => HoldsSome(s.streams, j, |s.streams|);
      case _ =>
    }
    assert fd >= 0 ==> Owners(s, fd) == if fd < s.limit then 1 else 0;
  }

  /** What an event that touches the acceptors does to the owners of one slot. */
  lemma AcceptorStep(s: Slots, e: Event, f: int)
    requires Inv(s) && Enabled(s, e) && f >= 0
    requires e.OpenAcceptor? || e.CloseAcceptor? || e.DestroyAcceptor?
    ensures Owners(Apply(s, e), f) == Owners(s, f)
  {
    ReleaseIsSafe(s, e);
    match e {
      case OpenAcceptor(fd, _) =>
        HoldsAppend(s.acceptors, f, fd, |s.acceptors|);
        HoldsAppend(s.peers, f, -1, |s.peers|);
        if s.free != {} {
          assert Owners(s, fd) <= 1;
        }
      case CloseAcceptor(i) => HoldsUpdate(s.acceptors, f, i, -1, |s.acceptors|);
      case DestroyAcceptor(i) =>
        HoldsUpdate(s.acceptors, f, i, -1, |s.acceptors|);
        HoldsUpdate(s.peers, f, i, -1, |s.peers|);
        HoldsSome(s.peers, i, |s.peers|);
        assert s.peers[i] >= 0 ==> Owners(s, s.peers[i]) <= 1;
    }
  }

  lemma AcceptStep(s: Slots, e: Event, f: int)
    requires Inv(s) && Enabled(s, e) && f >= 0
    requires e.Accept? || e.AcceptDone? || e.AcceptResume?
    ensures Owners(Apply(s, e), f) == Owners(s, f)
  {
    ReleaseIsSafe(s, e);
    match e {
      case Accept(i, fd) => HoldsUpdate(s.peers, f, i, fd, |s.peers|);
      case AcceptDone(i, res) => HoldsUpdate(s.peers, f, i, res, |s.peers|);
      case AcceptResume(i, _) =>
        HoldsUpdate(s.peers, f, i, -1, |s.peers|);
        HoldsAppend(s.raw, f, s.peers[i], |s.raw|);
        HoldsAppend(s.streams, f, s.peers[i], |s.streams|);
    }
  }

  lemma StreamStep(s: Slots, e: Event, f: int)
    requires Inv(s) && Enabled(s, e) && f >= 0
    requires e.NewClient? || e.Connect? || e.Vacate? || e.WrapRaw? || e.DropRaw?
    ensures Owners(Apply(s, e), f) == Owners(s, f)
  {
    ReleaseIsSafe(s, e);
    match e {
      case NewClient => HoldsAppend(s.streams, f, -1, |s.streams|);
      case Connect(j, fd) => HoldsUpdate(s.streams, f, j, fd, |s.streams|);
      case Vacate(j) => HoldsUpdate(s.streams, f, j, -1, |s.streams|);
      case WrapRaw(k) =>
        HoldsAppend(s.streams, f, s.raw[k], |s.streams|);
        HoldsUpdate(s.raw, f, k, -1, |s.raw|);
      case DropRaw(k) =>
        HoldsUpdate(s.raw, f, k, -1, |s.raw|);
        HoldsSome(s.raw, k, |s.raw|);
        assert s.raw[k] >= 0 ==> Owners(s, s.raw[k]) <= 1;
    }
  }

  lemma StepKeepsRange(s: Slots, e: Event)
    requires Inv(s) && Enabled(s, e)
    ensures Apply(s, e).free <= UpTo(s.limit) && Apply(s, e).lost <= UpTo(s.limit)
  {
    ReleaseIsSafe(s, e);
    match e {
      case DestroyAcceptor(i) =>
        HoldsSome(s.peers, i, |s.peers|);
        assert s.peers[i] >= 0 ==> Owners(s, s.peers[i]) >= 1;
      case DropRaw(k) =>
        HoldsSome(s.raw, k, |s.raw|);
        assert s.raw[k] >= 0 ==> Owners(s, s.raw[k]) >= 1;
      case _ =>
    }
  }

  lemma StepKeepsOwners(s: Slots, e: Event, f: int)
    requires Inv(s) && Enabled(s, e) && f >= 0
    ensures Owners(Apply(s, e), f) == Owners(s, f)
  {
    if e.OpenAcceptor? || e.CloseAcceptor? || e.DestroyAcceptor? {
      AcceptorStep(s, e, f);
    } else if e.Accept? || e.AcceptDone? || e.AcceptResume? {
      AcceptStep(s, e, f);
    } else {
      StreamStep(s, e, f);
    }
  }

  lemma StepKeepsPeers(s: Slots, e: Event)
    requires Inv(s) && Enabled(s, e)
    ensures PeersOk(Apply(s, e))
  {
    if e.Accept? && s.phases[e.i] == Unused && s.free != {} {
      assert e.fd in UpTo(s.limit);
    }
  }

  lemma StepKeepsInv(s: Slots, e: Event)
    requires Inv(s) && Enabled(s, e)
    ensures Inv(Apply(s, e))
  {
    var s' := Apply(s, e);
    StepKeepsRange(s, e);
    StepKeepsPeers(s, e);
    forall f | f >= 0 ensures Owners(s', f) == if f < s'.limit then 1 else 0 {
      StepKeepsOwners(s, e, f);
    }
  }

  // ------------------------------------------------------------ where a slot goes

  function InStreams(s: Slots, f: int): nat {
    Holds(s.streams, f, |s.streams|)
  }

  function InAcceptors(s: Slots, f: int): nat {
    Holds(s.acceptors, f, |s.acceptors|)
  }

  function InPeers(s: Slots, f: int): nat {
    Holds(s.peers, f, |s.peers|)
  }

  function InRaw(s: Slots, f: int): nat {
    Holds(s.raw, f, |s.raw|)
  }

  /** A new accept and a connect without a slot take slot f if it is handed out. */
  lemma TakersFlow(s: Slots, e: Event, f: int)
    requires Inv(s) && Enabled(s, e) && f >= 0 && (e.OpenAcceptor? || e.Accept? || e.Connect?)
    ensures var s' := Apply(s, e); var taken := f in s.free && e.fd == f;
            match e
            case OpenAcceptor(_, registered) =>
              && (f in s'.free <==> f in s.free && !taken)
              && InAcceptors(s', f) == InAcceptors(s, f) + (if taken && registered then 1 else 0)
              && InPeers(s', f) == InPeers(s, f) && InStreams(s', f) == InStreams(s, f) && InRaw(s', f) == InRaw(s, f)
            case Accept(i, _) =>
              && (f in s'.free <==> f in s.free && !(taken && s.phases[i] == Unused))
              && InPeers(s', f) == InPeers(s, f) + (if taken && s.phases[i] == Unused then 1 else 0)
              && InAcceptors(s', f) == InAcceptors(s, f) && InStreams(s', f) == InStreams(s, f) && InRaw(s', f) == InRaw(s, f)
            case Connect(j, _) =>
              && (f in s'.free <==> f in s.free && !(taken && s.streams[j] < 0))
              && InStreams(s', f) == InStreams(s, f) + (if taken && s.streams[j] < 0 then 1 else 0)
              && InAcceptors(s', f) == InAcceptors(s, f) && InPeers(s', f) == InPeers(s, f) && InRaw(s', f) == InRaw(s, f)
  {
    match e {
      case OpenAcceptor(fd, _) =>
        HoldsAppend(s.acceptors, f, fd, |s.acceptors|);
        HoldsAppend(s.peers, f, -1, |s.peers|);
      case Accept(i, fd) => HoldsUpdate(s.peers, f, i, fd, |s.peers|);
      case Connect(j, fd) => HoldsUpdate(s.streams, f, j, fd, |s.streams|);
    }
  }

  /** A failed accept, a completed close and a destroyed acceptor free their slot. */
  lemma ReleasersFlow(s: Slots, e: Event, f: int)
    requires Inv(s) && Enabled(s, e) && f >= 0 && (e.AcceptDone? || e.CloseAcceptor? || e.DestroyAcceptor? || e.Vacate?)
    ensures var s' := Apply(s, e);
            && InRaw(s', f) == InRaw(s, f)
            && match e
               case AcceptDone(i, res) =>
                 && (f in s'.free <==> f in s.free || (res < 0 && s.peers[i] == f))
                 && InPeers(s', f) == InPeers(s, f) - (if res < 0 && s.peers[i] == f then 1 else 0)
                 && InAcceptors(s', f) == InAcceptors(s, f) && InStreams(s', f) == InStreams(s, f)
               case CloseAcceptor(i) =>
                 && (f in s'.free <==> f in s.free || s.acceptors[i] == f)
                 && InAcceptors(s', f) == InAcceptors(s, f) - (if s.acceptors[i] == f then 1 else 0)
                 && InPeers(s', f) == InPeers(s, f) && InStreams(s', f) == InStreams(s, f)
               case DestroyAcceptor(i) =>
                 && (f in s'.free <==> f in s.free || s.acceptors[i] == f)
                 && InAcceptors(s', f) == InAcceptors(s, f) - (if s.acceptors[i] == f then 1 else 0)
                 && InPeers(s', f) == InPeers(s, f) - (if s.peers[i] == f then 1 else 0) && InStreams(s', f) == InStreams(s, f)
               case Vacate(j) =>
                 && (f in s'.free <==> f in s.free || s.streams[j] == f)
                 && InStreams(s', f) == InStreams(s, f) - (if s.streams[j] == f then 1 else 0)
                 && InAcceptors(s', f) == InAcceptors(s, f) && InPeers(s', f) == InPeers(s, f)
  {
    match e {
      case AcceptDone(i, res) => HoldsUpdate(s.peers, f, i, res, |s.peers|);
      case CloseAcceptor(i) => HoldsUpdate(s.acceptors, f, i, -1, |s.acceptors|);
      case DestroyAcceptor(i) =>
        HoldsUpdate(s.acceptors, f, i, -1, |s.acceptors|);
        HoldsUpdate(s.peers, f, i, -1, |s.peers|);
      case Vacate(j) => HoldsUpdate(s.streams, f, j, -1, |s.streams|);
    }
  }

  /** An accepted connection goes to a new stream, or to the user if it was asked for raw; from the user it
      can go to a stream. */
  lemma MoversFlow(s: Slots, e: Event, f: int)
    requires Inv(s) && Enabled(s, e) && f >= 0 && (e.AcceptResume? || e.NewClient? || e.WrapRaw? || e.DropRaw?)
    ensures var s' := Apply(s, e);
            && s'.free == s.free && InAcceptors(s', f) == InAcceptors(s, f)
            && match e
               case AcceptResume(i, asRaw) =>
                 && InPeers(s', f) == InPeers(s, f) - (if s.peers[i] == f then 1 else 0)
                 && InRaw(s', f) == InRaw(s, f) + (if s.peers[i] == f && asRaw then 1 else 0)
                 && InStreams(s', f) == InStreams(s, f) + (if s.peers[i] == f && !asRaw then 1 else 0)
               case NewClient => InPeers(s', f) == InPeers(s, f) && InRaw(s', f) == InRaw(s, f) && InStreams(s', f) == InStreams(s, f)
               case WrapRaw(k) =>
                 && InRaw(s', f) == InRaw(s, f) - (if s.raw[k] == f then 1 else 0)
                 && InStreams(s', f) == InStreams(s, f) + (if s.raw[k] == f then 1 else 0)
                 && InPeers(s', f) == InPeers(s, f)
               case DropRaw(k) =>
                 && InRaw(s', f) == InRaw(s, f) - (if s.raw[k] == f then 1 else 0)
                 && InStreams(s', f) == InStreams(s, f) && InPeers(s', f) == InPeers(s, f)
  {
    match e {
      case AcceptResume(i, _) =>
        HoldsUpdate(s.peers, f, i, -1, |s.peers|);
        HoldsAppend(s.raw, f, s.peers[i], |s.raw|);
        HoldsAppend(s.streams, f, s.peers[i], |s.streams|);
      case NewClient => HoldsAppend(s.streams, f, -1, |s.streams|);
      case WrapRaw(k) =>
        HoldsAppend(s.streams, f, s.raw[k], |s.streams|);
        HoldsUpdate(s.raw, f, k, -1, |s.raw|);
      case DropRaw(k) => HoldsUpdate(s.raw, f, k, -1, |s.raw|);
    }
  }

  // -------------------------------------------------------------------- whole runs

  ghost predicate Run(limit: nat, states: seq<Slots>, events: seq<Event>) {
    && |states| == |events| + 1 && states[0] == Initial(limit)
    && forall k :: 0 <= k < |events| ==> Enabled(states[k], events[k]) && states[k + 1] == Apply(states[k], events[k])
  }

  lemma {:induction false} RunKeepsInv(limit: nat, states: seq<Slots>, events: seq<Event>, k: nat)
    requires Run(limit, states, events) && k < |states|
    ensures Inv(states[k]) && states[k].limit == limit
  {
    if k > 0 {
      RunKeepsInv(limit, states, events, k - 1);
      StepKeepsInv(states[k - 1], events[k - 1]);
    }
  }

  /** The steps that lose a slot: registration of the listening socket fails, an acceptor dies with an
      accepted connection nobody resumed for, or a raw descriptor is dropped. */
  predicate Loses(s: Slots, e: Event)
    requires Enabled(s, e)
  {
    match e
    case OpenAcceptor(_, registered) => s.free != {} && !registered
    case DestroyAcceptor(i) => s.peers[i] >= 0
    case DropRaw(k) => s.raw[k] >= 0
    case _ => false
  }

  lemma StepLoses(s: Slots, e: Event)
    requires Inv(s) && Enabled(s, e)
    ensures Apply(s, e).lost == s.lost <==> !Loses(s, e)
    ensures s.lost <= Apply(s, e).lost
  {
    match e {
      case OpenAcceptor(fd, _) =>
        if s.free != {} {
          assert Owners(s, fd) <= 1;
        }
      case DestroyAcceptor(i) =>
        HoldsSome(s.peers, i, |s.peers|);
        assert s.peers[i] >= 0 ==> Owners(s, s.peers[i]) <= 1;
      case DropRaw(k) =>
        HoldsSome(s.raw, k, |s.raw|);
        assert s.raw[k] >= 0 ==> Owners(s, s.raw[k]) <= 1;
      case _ =>
    }
  }

  lemma {:induction false} LostIffSomeStepLoses(limit: nat, states: seq<Slots>, events: seq<Event>, k: nat)
    requires Run(limit, states, events) && k < |states|
    ensures states[k].lost == {} <==> forall j :: 0 <= j < k ==> !Loses(states[j], events[j])
  {
    if k > 0 {
      LostIffSomeStepLoses(limit, states, events, k - 1);
      RunKeepsInv(limit, states, events, k - 1);
      StepLoses(states[k - 1], events[k - 1]);
    }
  }

  /** In every state of every run no slot has two owners, and the owners cover all slots if and only if
      none of the three losing steps has happened. */
  lemma OneOwnerPerSlot(limit: nat, states: seq<Slots>, events: seq<Event>, k: nat)
    requires Run(limit, states, events) && k < |states|
    ensures forall f | f >= 0 :: (if f in states[k].free then 1 else 0) + Held(states[k], f) <= (if f < limit then 1 else 0)
    ensures (forall f | 0 <= f < limit :: f in states[k].free || Held(states[k], f) > 0)
      <==> (forall j :: 0 <= j < k ==> !Loses(states[j], events[j]))
  {
    RunKeepsInv(limit, states, events, k);
    LostIffSomeStepLoses(limit, states, events, k);
    var s := states[k];
    forall f | f >= 0
      ensures (if f in s.free then 1 else 0) + Held(s, f) == (if f < limit && f !in s.lost then 1 else 0)
    {
      assert Owners(s, f) == if f < limit then 1 else 0;
    }
    if s.lost != {} {
      SomeMember(s.lost, limit);
      var f :| 0 <= f < limit && f in s.lost;
      assert Owners(s, f) == 1;
    }
  }

  /** The shortest run that loses a slot. */
  lemma RegistrationLosesSlot()
    ensures var s := Apply(Initial(1), OpenAcceptor(0, false));
            && Run(1, [Initial(1), s], [OpenAcceptor(0, false)])
            && 0 !in s.free && Held(s, 0) == 0 && s.lost == {0}
  {
    var s := Apply(Initial(1), OpenAcceptor(0, false));
    assert 0 in UpTo(1);
    assert Held(s, 0) == 0;
  }

  lemma {:induction false} SubsetMissesOne(s: set<int>, all: set<int>, n: nat)
    requires s <= all == UpTo(n)
    ensures s == all <==> forall f | 0 <= f < n :: f in s
  {
    if n > 0 && n - 1 in s {
      SubsetMissesOne(s - {n - 1}, UpTo(n - 1), n - 1);
    }
  }

  ghost predicate NoSlot(fds: seq<int>) {
    forall i :: 0 <= i < |fds| ==> fds[i] < 0
  }

  /** When every stream and acceptor is closed or destroyed, no accept holds a slot and no raw
      descriptor is left, all slots are free again, unless a step has lost one. */
  lemma AllSlotsReturn(limit: nat, states: seq<Slots>, events: seq<Event>, k: nat)
    requires Run(limit, states, events) && k < |states|
    requires NoSlot(states[k].streams) && NoSlot(states[k].acceptors) && NoSlot(states[k].peers) && NoSlot(states[k].raw)
    ensures states[k].free == Initial(limit).free <==> forall j :: 0 <= j < k ==> !Loses(states[j], events[j])
  {
    OneOwnerPerSlot(limit, states, events, k);
    RunKeepsInv(limit, states, events, k);
    var s := states[k];
    forall f | f >= 0 ensures Held(s, f) == 0 && (f in s.free ==> f < limit) {
      assert Owners(s, f) == if f < limit then 1 else 0;
      HoldsNone(s.streams, f, |s.streams|);
      HoldsNone(s.acceptors, f, |s.acceptors|);
      HoldsNone(s.peers, f, |s.peers|);
      HoldsNone(s.raw, f, |s.raw|);
    }
    SubsetMissesOne(s.free, UpTo(limit), limit);
  }

  // ------------------------------------------------------------------- the objects

  /** The runtime's `fds_` together with the objects that hold slots. */
  class Runtime {
    const limit: nat
    var fds: set<int>
    var streams: seq<int>
    var acceptors: seq<int>
    var peers: seq<int>
    var phases: seq<Phase>
    var raw: seq<int>
    ghost var lost: set<int>

    ghost function State(): Slots
      reads this
    {
      Slots(limit, fds, streams, acceptors, peers, phases, raw, lost)
    }

    constructor (numFiles: nat)
      ensures State() == Initial(numFiles) && limit == numFiles
    {
      limit := numFiles;
      streams, acceptors, peers, phases, raw, lost := [], [], [], [], [], {};
      var all: set<int> := {};
      for i := 0 to numFiles
        invariant all == UpTo(i)
      {
        all := all + {i};
      }
      fds := all;
    }

    method GetAvailableFd() returns (fd: int)
      requires fds <= UpTo(limit)
      modifies this`fds
      ensures Available(old(State()), fd)
      ensures fds == old(fds) - {fd}
      ensures fd == -1 || fd in old(fds)
    {
      if fds == {} {
        return -1;
      }
      SomeMember(fds, limit);
      fd :| fd in fds;
      fds := fds - {fd};
    }

    /** `BOOST_ASSERT( itb.second )` is the precondition. */
    method ReleaseFd(fd: int)
      requires fd >= 0 ==> fd < limit && fd !in fds
      modifies this`fds
      ensures fds == if fd < 0 then old(fds) else old(fds) + {fd}
    {
      if fd < 0 {
        return;
      }
      fds := fds + {fd};
    }

    /** A busy acceptor and an exhausted table (ENFILE) change nothing. */
    method SuspendAccept(i: nat) returns (slot: int)
      requires Inv(State()) && i < |phases| && phases[i] != Dead
      modifies this`fds, this`peers, this`phases
      ensures old(phases)[i] != Unused || old(fds) == {} ==> slot < 0 && State() == old(State())
      ensures old(phases)[i] == Unused && old(fds) != {} ==>
        && slot in old(fds) && fds == old(fds) - {slot}
        && peers == old(peers)[i := slot] && phases == old(phases)[i := InFlight]
        && Enabled(old(State()), Accept(i, slot)) && State() == Apply(old(State()), Accept(i, slot))
    {
      slot := -1;
      if phases[i] != Unused {
        return;
      }
      slot := GetAvailableFd();
      if slot < 0 {
        return;
      }
      phases := phases[i := InFlight];
      peers := peers[i := slot];
    }

    method ProcessAccept(i: nat, res: int)
      requires Inv(State()) && i < |phases| && phases[i] == InFlight
      modifies this`fds, this`peers, this`phases
      ensures State() == Apply(old(State()), AcceptDone(i, res))
      ensures phases == old(phases)[i := Done]
      ensures res >= 0 ==> fds == old(fds) && peers == old(peers)
      ensures res < 0 ==> fds == old(fds) + {old(peers)[i]} && peers == old(peers)[i := res]
    {
      ReleaseIsSafe(State(), AcceptDone(i, res));
      if res < 0 {
        ReleaseFd(peers[i]);
        peers := peers[i := res];
      }
      phases := phases[i := Done];
    }

    method ResumeAccept(i: nat, asRaw: bool) returns (result: int)
      requires Inv(State()) && i < |phases| && phases[i] == Done
      modifies this`streams, this`raw, this`peers, this`phases
      ensures State() == Apply(old(State()), AcceptResume(i, asRaw)) && result == old(peers)[i]
      ensures peers == old(peers)[i := -1] && phases == old(phases)[i := Unused]
      ensures raw == if asRaw && result >= 0 then old(raw) + [result] else old(raw)
      ensures streams == if !asRaw && result >= 0 then old(streams) + [result] else old(streams)
    {
      result := peers[i];
      peers := peers[i := -1];
      phases := phases[i := Unused];
      if result < 0 {
        return;
      }
      if asRaw {
        raw := raw + [result];
      } else {
        streams := streams + [result];
      }
    }

    /** A second completed close finds -1 and releases nothing. */
    method ProcessAcceptorClose(i: nat)
      requires Inv(State()) && i < |phases| && phases[i] != Dead
      modifies this`fds, this`acceptors
      ensures State() == Apply(old(State()), CloseAcceptor(i))
      ensures fds == (if old(acceptors)[i] < 0 then old(fds) else old(fds) + {old(acceptors)[i]})
      ensures acceptors == old(acceptors)[i := -1]
    {
      ReleaseIsSafe(State(), CloseAcceptor(i));
      ReleaseFd(acceptors[i]);
      acceptors := acceptors[i := -1];
    }

    /** A connected or half-connected client keeps its slot. */
    method SuspendConnect(j: nat) returns (ok: bool)
      requires Inv(State()) && j < |streams|
      modifies this`fds, this`streams
      ensures |streams| == |old(streams)|
      ensures ok <==> old(streams)[j] >= 0 || old(fds) != {}
      ensures !ok ==> State() == old(State()).(streams := old(streams)[j := -1])
      ensures old(streams)[j] >= 0 ==> State() == old(State())
      ensures ok && old(streams)[j] < 0 ==>
        Enabled(old(State()), Connect(j, streams[j])) && State() == Apply(old(State()), Connect(j, streams[j]))
    {
      if streams[j] >= 0 {
        return true;
      }
      var fd := GetAvailableFd();
      streams := streams[j := fd];
      ok := fd >= 0;
    }

    method ProcessStreamClose(j: nat)
      requires Inv(State()) && j < |streams|
      modifies this`fds, this`streams
      ensures State() == Apply(old(State()), Vacate(j))
      ensures fds == (if old(streams)[j] < 0 then old(fds) else old(fds) + {old(streams)[j]})
      ensures streams == old(streams)[j := -1]
    {
      ReleaseIsSafe(State(), Vacate(j));
      ReleaseFd(streams[j]);
      streams := streams[j := -1];
    }
  }
}
