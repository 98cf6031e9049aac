/** Whether a slot that `fds_` calls free is empty in the kernel's file table: closing a stream
    (src/tcp.cpp:771-806, src/detail/stream_impl.hpp:355-367), connecting it (src/tcp.cpp:1213-1224) and
    destroying it (src/tcp.cpp:92-105).

    A close operation names the slot the stream had when it was submitted. Its completion releases the slot
    the stream has when it is processed. */
module SlotTable {

  /** A close operation of a stream: the slot it names, and whether the kernel has carried it out. */
  datatype Close = Close(stream: nat, target: int, executed: bool, processed: bool)

  /** `fds[j]` is `fd_` of stream j; `free` and `open` say of each slot whether `fds_` contains it and whether
      the kernel has a file there. */
  datatype Table = Table(fds: seq<int>, free: seq<bool>, open: seq<bool>, closes: seq<Close>)

  datatype Event =
    | Connect(j: nat, slot: nat)   // a slot is taken and a socket created in it
    | Submit(j: nat)               // stream_close_awaitable::await_suspend
    | Execute(c: nat)              // the kernel closes the slot named by close operation c
    | Complete(c: nat)             // close_frame::await_process_cqe
    | Destroy(j: nat)              // ~stream_impl: closes the slot, then releases it

  predicate Shape(s: Table) {
    && |s.free| == |s.open|
    && (forall j :: 0 <= j < |s.fds| ==> s.fds[j] < |s.free|)
    && forall c :: 0 <= c < |s.closes| ==> s.closes[c].stream < |s.fds| && s.closes[c].target < |s.free|
  }

  /** No close of stream j is under way. */
  predicate Calm(s: Table, j: nat) {
    forall c :: 0 <= c < |s.closes| && s.closes[c].stream == j ==> s.closes[c].processed
  }

  predicate Enabled(s: Table, e: Event) {
    && Shape(s)
    && match e
       case Connect(j, slot) => j < |s.fds| && s.fds[j] < 0 && slot < |s.free| && s.free[slot]
       case Submit(j) => j < |s.fds|
       case Execute(c) => c < |s.closes| && !s.closes[c].executed
       case Complete(c) => c < |s.closes| && s.closes[c].executed && !s.closes[c].processed
       case Destroy(j) => j < |s.fds| && Calm(s, j)
  }

  /** `release_fd( fd_ )`, `fd_ = -1`. */
  function Release(s: Table, j: nat): Table
    requires Shape(s) && j < |s.fds|
  {
    s.(free := if s.fds[j] < 0 then s.free else s.free[s.fds[j] := true], fds := s.fds[j := -1])
  }

  function CloseSlot(s: Table, slot: int): Table
    requires slot < |s.open|
  {
    if slot < 0 then s else s.(open := s.open[slot := false])
  }

  function Apply(s: Table, e: Event): Table
    requires Enabled(s, e)
  {
    match e
    case Connect(j, slot) => s.(fds := s.fds[j := slot], free := s.free[slot := false], open := s.open[slot := true])
    case Submit(j) => s.(closes := s.closes + [Close(j, s.fds[j], false, false)])
    case Execute(c) => CloseSlot(s, s.closes[c].target).(closes := s.closes[c := s.closes[c].(executed := true)])
    case Complete(c) => Release(s, s.closes[c].stream).(closes := s.closes[c := s.closes[c].(processed := true)])
    case Destroy(j) => Release(CloseSlot(s, s.fds[j]), j)
  }

  ghost predicate Initial(s: Table) {
    && |s.free| == |s.open| && s.closes == []
    && (forall j :: 0 <= j < |s.fds| ==> s.fds[j] == -1)
    && forall f :: 0 <= f < |s.free| ==> s.free[f] && !s.open[f]
  }

  ghost predicate Run(states: seq<Table>, events: seq<Event>) {
    && |states| == |events| + 1 && Initial(states[0])
    && forall k :: 0 <= k < |events| ==> Enabled(states[k], events[k]) && states[k + 1] == Apply(states[k], events[k])
  }

  lemma {:induction false} RunKeepsShape(states: seq<Table>, events: seq<Event>, k: nat)
    requires Run(states, events) && k < |states|
    ensures Shape(states[k])
  {
    if k > 0 {
      RunKeepsShape(states, events, k - 1);
    }
  }

  /** A slot that is free is empty in the kernel. */
  ghost predicate Clean(s: Table) {
    |s.free| == |s.open| && forall f :: 0 <= f < |s.free| && s.free[f] ==> !s.open[f]
  }

  /** The completion of a close releases a slot in which a file is open. */
  predicate ReleasesOpen(s: Table, e: Event)
    requires Enabled(s, e)
  {
    e.Complete? && var fd := s.fds[s.closes[e.c].stream]; fd >= 0 && s.open[fd]
  }

  lemma CleanAfterStep(s: Table, e: Event)
    requires Enabled(s, e) && Clean(s)
    ensures Clean(Apply(s, e)) <==> !ReleasesOpen(s, e)
  {
    var s' := Apply(s, e);
    if ReleasesOpen(s, e) {
      var fd := s.fds[s.closes[e.c].stream];
      assert s'.free[fd] && s'.open[fd];
    }
  }

  // ------------------------------------------------------- when a file is open

  /** The last of the first k events that fills or empties slot f fills it. */
  predicate Filled(states: seq<Table>, events: seq<Event>, f: nat, k: nat)
    requires k <= |events| < |states|
  {
    && k > 0
    && match events[k - 1]
       case Connect(_, slot) => slot == f || Filled(states, events, f, k - 1)
       case Execute(c) =>
         !(c < |states[k - 1].closes| && states[k - 1].closes[c].target == f) && Filled(states, events, f, k - 1)
       case Destroy(j) =>
         !(j < |states[k - 1].fds| && states[k - 1].fds[j] == f) && Filled(states, events, f, k - 1)
       case _ => Filled(states, events, f, k - 1)
  }

  lemma {:induction false} OpenIffFilled(states: seq<Table>, events: seq<Event>, f: nat, k: nat)
    requires Run(states, events) && k < |states| && f < |states[k].open|
    ensures states[k].open[f] <==> Filled(states, events, f, k)
  {
    if k > 0 {
      OpenIffFilled(states, events, f, k - 1);
    }
  }

  /** Event d completes a close although the slot its stream now has was filled after it was last emptied:
      the stream has been connected again, and no close of the new connection was carried out. */
  predicate LateCompletion(states: seq<Table>, events: seq<Event>, d: nat)
    requires d < |events| < |states|
  {
    && events[d].Complete? && events[d].c < |states[d].closes| && states[d].closes[events[d].c].stream < |states[d].fds|
    && var fd := states[d].fds[states[d].closes[events[d].c].stream];
    fd >= 0 && Filled(states, events, fd, d)
  }

  ghost predicate CleanUntil(states: seq<Table>, k: nat)
    requires k < |states|
  {
    Clean(states[k]) && (k > 0 ==> CleanUntil(states, k - 1))
  }

  predicate NoLateCompletion(states: seq<Table>, events: seq<Event>, k: nat)
    requires k <= |events| < |states|
  {
    k > 0 ==> !LateCompletion(states, events, k - 1) && NoLateCompletion(states, events, k - 1)
  }

  /** In every run: free slots have been empty in the kernel all the time if and only if no completion of a
      close came late. */
  lemma {:induction false} CleanIffNoLateCompletion(states: seq<Table>, events: seq<Event>, k: nat)
    requires Run(states, events) && k < |states|
    ensures CleanUntil(states, k) <==> NoLateCompletion(states, events, k)
  {
    if k > 0 {
      CleanIffNoLateCompletion(states, events, k - 1);
      RunKeepsShape(states, events, k - 1);
      var s, e := states[k - 1], events[k - 1];
      if e.Complete? && s.fds[s.closes[e.c].stream] >= 0 {
        OpenIffFilled(states, events, s.fds[s.closes[e.c].stream], k - 1);
      }
      if Clean(s) {
        CleanAfterStep(s, e);
      }
    }
  }

  // ------------------------------------------------------------- orderly closes

  /** A stream is closed only while it has a slot and no other close of it is under way. */
  predicate Orderly(s: Table, e: Event) {
    e.Submit? && e.j < |s.fds| ==> s.fds[e.j] >= 0 && Calm(s, e.j)
  }

  /** A slot has one holder, and a close under way names the slot its stream still has. */
  ghost predicate OrderlyState(s: Table) {
    && Shape(s) && Clean(s)
    && (forall i, j :: 0 <= i < j < |s.fds| && s.fds[i] >= 0 ==> s.fds[i] != s.fds[j])
    && (forall j :: 0 <= j < |s.fds| && s.fds[j] >= 0 ==> !s.free[s.fds[j]])
    && (forall c :: 0 <= c < |s.closes| && !s.closes[c].processed ==>
          var x := s.closes[c]; x.target >= 0 && x.target == s.fds[x.stream] && (x.executed ==> !s.open[x.target]))
    && (forall c :: 0 <= c < |s.closes| && s.closes[c].processed ==> s.closes[c].executed)
    && (forall b, c :: 0 <= b < c < |s.closes| && !s.closes[b].processed && !s.closes[c].processed ==>
          s.closes[b].stream != s.closes[c].stream)
  }

  lemma OrderlyConnect(s: Table, j: nat, slot: nat)
    requires OrderlyState(s) && Enabled(s, Connect(j, slot))
    ensures OrderlyState(Apply(s, Connect(j, slot)))
  {
  }

  lemma OrderlySubmit(s: Table, j: nat)
    requires OrderlyState(s) && Enabled(s, Submit(j)) && Orderly(s, Submit(j))
    ensures OrderlyState(Apply(s, Submit(j)))
  {
  }

  lemma OrderlyExecute(s: Table, c: nat)
    requires OrderlyState(s) && Enabled(s, Execute(c))
    ensures OrderlyState(Apply(s, Execute(c)))
  {
  }

  lemma OrderlyComplete(s: Table, c: nat)
    requires OrderlyState(s) && Enabled(s, Complete(c))
    ensures OrderlyState(Apply(s, Complete(c)))
  {
  }

  lemma OrderlyDestroy(s: Table, j: nat)
    requires OrderlyState(s) && Enabled(s, Destroy(j))
    ensures OrderlyState(Apply(s, Destroy(j)))
  {
  }

  lemma OrderlyStep(s: Table, e: Event)
    requires OrderlyState(s) && Enabled(s, e) && Orderly(s, e)
    ensures OrderlyState(Apply(s, e))
  {
    match e {
      case Connect(j, slot) => OrderlyConnect(s, j, slot);
      case Submit(j) => OrderlySubmit(s, j);
      case Execute(c) => OrderlyExecute(s, c);
      case Complete(c) => OrderlyComplete(s, c);
      case Destroy(j) => OrderlyDestroy(s, j);
    }
  }

  /** In every run in which streams are closed in this way, free slots are empty in the kernel all the time. */
  lemma {:induction false} OrderlyRunIsClean(states: seq<Table>, events: seq<Event>, k: nat)
    requires Run(states, events) && k < |states|
    requires forall d :: 0 <= d < k ==> Orderly(states[d], events[d])
    ensures OrderlyState(states[k])
  {
    if k > 0 {
      OrderlyRunIsClean(states, events, k - 1);
      OrderlyStep(states[k - 1], events[k - 1]);
    }
  }

  /** Two closes under way and a connection in between: the second completion frees the slot of the new
      connection. */
  lemma SecondCloseFreesNewSlot()
    ensures var s0 := Table([-1], [true], [false], []);
            var s1 := Apply(s0, Connect(0, 0));
            var s3 := Apply(Apply(s1, Submit(0)), Submit(0));
            Enabled(s3, Execute(0))
            && var s4 := Apply(s3, Execute(0));
            Enabled(s4, Execute(1))
            && var s5 := Apply(s4, Execute(1));
            Enabled(s5, Complete(0))
            && var s6 := Apply(s5, Complete(0));
            Enabled(s6, Connect(0, 0))
            && var s7 := Apply(s6, Connect(0, 0));
            Enabled(s7, Complete(1)) && Clean(s7) && !Clean(Apply(s7, Complete(1)))
  {
    var s0 := Table([-1], [true], [false], []);
    var s3 := Apply(Apply(Apply(s0, Connect(0, 0)), Submit(0)), Submit(0));
    var s5 := Apply(Apply(s3, Execute(0)), Execute(1));
    var s7 := Apply(Apply(s5, Complete(0)), Connect(0, 0));
    var s8 := Apply(s7, Complete(1));
    assert s8.free[0] && s8.open[0];
  }
}
