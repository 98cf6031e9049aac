/** Who owns a reference of a stream: src/detail/awaitable_base.hpp:19-43, the frames of
    src/detail/stream_impl.hpp, the run loop's adopt/release in src/io_context.cpp:260-282 and the
    destructor of `stream` in src/tcp.cpp:598-620.

    One object has one count shared by all its frames. Every operation in flight owns one reference,
    which the run loop adopts with a completion and releases after processing it. */
module RefLedger {

  /** `Plain` frames (cancel, close, shutdown, connect) have no busy check of their own: that of a connection
      looks at the socket frame, which is not used when the client is connected already. `Checked` ones
      (send, socket) refuse to start while initiated; the others manage `initiated_` themselves. */
  datatype Kind = Plain | Checked | Recv | Timeout | TimeoutCancel

  datatype Frame = Frame(kind: Kind, initiated: bool, done: bool) {
    /** `is_active()`. */
    predicate Active() {
      if kind.Plain? || kind.Checked? then initiated && !done else initiated
    }

    predicate OneShot() {
      kind.Plain? || kind.Checked?
    }
  }

  /** `ops[i]` counts the operations of frame i whose last completion is not processed yet; `handles`
      counts live `intrusive_ptr`s. Both are what the kernel and the user know, not fields. */
  datatype Impl = Impl(
    count: int,
    frames: seq<Frame>,
    cancelled: bool,
    handles: nat,
    ops: seq<nat>,
    deletions: nat)

  // ---------------------------------------------------------------------- sums

  function SumOps(ops: seq<nat>, n: nat): nat
    requires n <= |ops|
  {
    if n == 0 then 0 else SumOps(ops, n - 1) + ops[n - 1]
  }

  function SumActive(frames: seq<Frame>, n: nat): nat
    requires n <= |frames|
  {
    if n == 0 then 0 else SumActive(frames, n - 1) + (if frames[n - 1].Active() then 1 else 0)
  }

  lemma {:induction false} SumOpsUpdate(ops: seq<nat>, i: nat, x: nat, n: nat)
    requires i < |ops| && n <= |ops|
    ensures SumOps(ops[i := x], n) == SumOps(ops, n) + (if i < n then x - ops[i] else 0)
  {
    if n > 0 {
      SumOpsUpdate(ops, i, x, n - 1);
    }
  }

  lemma {:induction false} SumOpsBound(ops: seq<nat>, i: nat, n: nat)
    requires i < n <= |ops|
    ensures ops[i] <= SumOps(ops, n)
  {
    if i < n - 1 {
      SumOpsBound(ops, i, n - 1);
    }
  }

  // ----------------------------------------------------------------- the steps

  /** `intrusive_ptr_release`. */
  function Release(s: Impl): Impl {
    s.(count := s.count - 1, deletions := s.deletions + (if s.count == 1 then 1 else 0))
  }

  function SetFrame(s: Impl, i: nat, f: Frame): Impl
    requires i < |s.frames|
  {
    s.(frames := s.frames[i := f])
  }

  /** An operation of frame i is submitted: `intrusive_ptr_add_ref`, `initiated_ = true`. */
  function Start(s: Impl, i: nat): Impl
    requires i < |s.frames| && |s.ops| == |s.frames|
  {
    s.(count := s.count + 1, ops := s.ops[i := s.ops[i] + 1], frames := s.frames[i := s.frames[i].(initiated := true)])
  }

  /** An operation of frame i has had its last completion. */
  function Finish(s: Impl, i: nat): Impl
    requires i < |s.ops| && s.ops[i] > 0
  {
    s.(ops := s.ops[i := s.ops[i] - 1])
  }

  datatype Completion =
    | Result                 // of a one-shot operation
    | Data(more: bool)       // of a multishot receive
    | Tick(more: bool)       // of the multishot timeout
    | Cancelled              // -ECANCELED for the timeout

  predicate Fits(k: Kind, c: Completion) {
    match c
    case Result => k.Plain? || k.Checked? || k.TimeoutCancel?
    case Data(_) => k.Recv?
    case Tick(_) => k.Timeout?
    case Cancelled => k.Timeout?
  }

  /** `await_process_cqe` of frame i, without the run loop's release. A tick that finds the stream idle
      also submits the cancellation of frame `idle`. A timeout that ends without being closed is armed
      again at once, so the number of its operations stays the same. */
  function Process(s: Impl, i: nat, c: Completion, idle: int): Impl
    requires i < |s.frames| == |s.ops| && s.ops[i] > 0 && Fits(s.frames[i].kind, c)
    requires idle < |s.frames|
  {
    var f := s.frames[i];
    match c
    case Result =>
      SetFrame(Finish(s, i), i, if f.kind.TimeoutCancel? then f.(initiated := false) else f.(done := true))
    case Data(more) =>
      if more then SetFrame(s, i, f.(initiated := true)).(count := s.count + 1)
      else SetFrame(Finish(s, i), i, f.(initiated := false))
    case Cancelled =>
      if s.cancelled then SetFrame(Finish(s, i), i, f.(initiated := false)).(cancelled := false)
      else SetFrame(s, i, f.(initiated := true)).(count := s.count + 1)
    case Tick(more) =>
      var s1 := if idle >= 0 then Start(s, idle) else s;
      var s2 := s1.(count := s1.count + 1);
      if more then s2 else SetFrame(s2, i, s2.frames[i].(initiated := true))
  }

  datatype Event =
    | Copy                                        // an intrusive_ptr is copied
    | Drop                                        // an intrusive_ptr is destroyed
    | Submit(i: nat)                              // await_suspend of frame i
    | Complete(i: nat, c: Completion, idle: int)  // the run loop processes a completion
    | Reset(i: nat)                               // await_resume of a one-shot frame
    | CancelTimer(i: nat)                         // queue_timer_cancel for timeout frame i

  predicate Enabled(s: Impl, e: Event) {
    match e
    case Copy => s.handles > 0
    case Drop => s.handles > 0
    case Submit(i) =>
      && i < |s.frames| == |s.ops| && s.handles > 0
      && (s.frames[i].kind.Plain? || ((s.frames[i].kind.Checked? || s.frames[i].kind.Recv?) && !s.frames[i].initiated))
    case Complete(i, c, idle) =>
      && i < |s.frames| == |s.ops| && s.ops[i] > 0 && Fits(s.frames[i].kind, c)
      && (idle >= 0 ==> idle < |s.frames| && c.Tick? && s.frames[idle].kind.TimeoutCancel?)
    case Reset(i) => i < |s.frames| && s.handles > 0 && s.frames[i].OneShot() && s.frames[i].done
    case CancelTimer(i) => s.handles > 0 && i < |s.frames| && s.frames[i].kind.Timeout?
  }

  function Apply(s: Impl, e: Event): Impl
    requires Enabled(s, e)
  {
    match e
    case Copy => s.(count := s.count + 1, handles := s.handles + 1)
    case Drop => Release(s.(handles := s.handles - 1))
    case Submit(i) => Start(s, i)
    case Complete(i, c, idle) => Release(Process(s, i, c, idle))
    case Reset(i) => SetFrame(s, i, s.frames[i].(initiated := false, done := false))
    case CancelTimer(i) => if s.frames[i].initiated then s.(cancelled := true) else s
  }

  // -------------------------------------------------------------- the invariant

  /** An active frame has an operation in flight; where starting is refused while one is in flight,
      activity and operations agree. */
  ghost predicate FrameOk(f: Frame, ops: nat) {
    && (f.Active() ==> ops > 0)
    && (f.kind.Checked? ==> ops == (if f.Active() then 1 else 0) && (f.done ==> f.initiated))
    && (f.kind.Recv? || f.kind.Timeout? ==> ops == (if f.initiated then 1 else 0))
  }

  ghost predicate Inv(s: Impl) {
    && |s.ops| == |s.frames|
    && s.count == s.handles + SumOps(s.ops, |s.ops|)
    && s.deletions == (if s.count == 0 then 1 else 0)
    && forall i :: 0 <= i < |s.frames| ==> FrameOk(s.frames[i], s.ops[i])
  }

  lemma TickKeepsInv(s: Impl, i: nat, more: bool, idle: int)
    requires Inv(s) && Enabled(s, Complete(i, Tick(more), idle))
    ensures Inv(Apply(s, Complete(i, Tick(more), idle)))
  {
    SumOpsBound(s.ops, i, |s.ops|);
    assert FrameOk(s.frames[i], s.ops[i]);
    if idle >= 0 {
      SumOpsUpdate(s.ops, idle, s.ops[idle] + 1, |s.ops|);
    }
  }

  lemma CompletionKeepsFrame(s: Impl, i: nat, c: Completion, j: nat)
    requires !c.Tick? && Enabled(s, Complete(i, c, -1)) && j < |s.frames| == |s.ops|
    requires FrameOk(s.frames[i], s.ops[i]) && FrameOk(s.frames[j], s.ops[j])
    ensures var s' := Process(s, i, c, -1);
            |s'.ops| == |s'.frames| == |s.frames| && FrameOk(s'.frames[j], s'.ops[j])
  {
  }

  lemma CompleteKeepsInv(s: Impl, i: nat, c: Completion)
    requires Inv(s) && !c.Tick? && Enabled(s, Complete(i, c, -1))
    ensures Inv(Apply(s, Complete(i, c, -1)))
  {
    SumOpsBound(s.ops, i, |s.ops|);
    SumOpsUpdate(s.ops, i, s.ops[i] - 1, |s.ops|);
    var s' := Apply(s, Complete(i, c, -1));
    forall j | 0 <= j < |s.frames| ensures FrameOk(s'.frames[j], s'.ops[j]) {
      CompletionKeepsFrame(s, i, c, j);
    }
  }

  lemma StepKeepsInv(s: Impl, e: Event)
    requires Inv(s) && Enabled(s, e)
    ensures Inv(Apply(s, e))
  {
    match e {
      case Submit(i) =>
        SumOpsUpdate(s.ops, i, s.ops[i] + 1, |s.ops|);
        assert FrameOk(s.frames[i], s.ops[i]);
      case Complete(i, c, idle) =>
        if c.Tick? {
          TickKeepsInv(s, i, c.more, idle);
        } else {
          CompleteKeepsInv(s, i, c);
          assert Apply(s, e) == Apply(s, Complete(i, c, -1));
        }
      case Reset(i) => assert FrameOk(s.frames[i], s.ops[i]);
      case _ =>
    }
  }

  // --------------------------------------------------------------- whole runs

  /** A freshly constructed stream with one handle: only its timeout is in flight. */
  ghost predicate Initial(s: Impl) {
    && |s.ops| == |s.frames| && s.handles == 1 && !s.cancelled && s.deletions == 0
    && s.count == 1 + SumOps(s.ops, |s.ops|)
    && forall i :: 0 <= i < |s.frames| ==>
         !s.frames[i].done && s.frames[i].initiated == s.frames[i].kind.Timeout?
         && s.ops[i] == if s.frames[i].initiated then 1 else 0
  }

  ghost predicate Run(states: seq<Impl>, events: seq<Event>) {
    && |states| == |events| + 1 && Initial(states[0])
    && forall k :: 0 <= k < |events| ==> Enabled(states[k], events[k]) && states[k + 1] == Apply(states[k], events[k])
  }

  lemma {:induction false} RunKeepsInv(states: seq<Impl>, events: seq<Event>, k: nat)
    requires Run(states, events) && k < |states|
    ensures Inv(states[k])
  {
    if k > 0 {
      RunKeepsInv(states, events, k - 1);
      StepKeepsInv(states[k - 1], events[k - 1]);
    }
  }

  // ------------------------------------------------- what the events alone say

  /** The operations event e starts for frame j: its own, or the cancellation an idle tick submits. */
  function Starts(e: Event, j: nat): nat {
    match e
    case Submit(i) => if i == j then 1 else 0
    case Complete(_, _, idle) => if idle == j then 1 else 0
    case _ => 0
  }

  /** Whether event e is the last completion of an operation of frame j. */
  predicate Ends(e: Event, j: nat, cancelled: bool) {
    && e.Complete? && e.i == j
    && match e.c
       case Result => true
       case Data(more) => !more
       case Tick(_) => false
       case Cancelled => cancelled
  }

  /** What a step does to the operations of a frame. */
  lemma StepOps(s: Impl, e: Event, j: nat)
    requires |s.ops| == |s.frames| && Enabled(s, e) && j < |s.frames|
    ensures |Apply(s, e).ops| == |Apply(s, e).frames| == |s.frames|
    ensures Apply(s, e).ops[j] == s.ops[j] + Starts(e, j) - (if Ends(e, j, s.cancelled) then 1 else 0)
  {}

  /** The timer is marked from a cancellation to the end it brings about. */
  lemma StepMarks(s: Impl, e: Event)
    requires Enabled(s, e)
    ensures var s' := Apply(s, e);
            && s'.handles == s.handles + (if e.Copy? then 1 else 0) - (if e.Drop? then 1 else 0)
            && (s'.cancelled <==> (s.cancelled && !(e.Complete? && e.c.Cancelled?))
                                  || (e.CancelTimer? && s.frames[e.i].initiated))
  {}

  /** The flags of a frame. A completion shows in `done_`, or clears or sets `initiated_`; the reset of a
      one-shot frame makes it ready for the next operation. */
  lemma StepFlags(s: Impl, e: Event, j: nat)
    requires Inv(s) && Enabled(s, e) && j < |s.frames|
    ensures var f, s' := s.frames[j], Apply(s, e);
            && |s'.frames| == |s.frames|
            && (s'.frames[j].done <==>
                  (f.done && e != Reset(j)) || (e.Complete? && e.i == j && e.c.Result? && !f.kind.TimeoutCancel?))
            && (s'.frames[j].initiated <==>
                  Starts(e, j) > 0
                  || (f.initiated && e != Reset(j) && !(Ends(e, j, s.cancelled) && !f.kind.Plain? && !f.kind.Checked?)))
  {
    assert FrameOk(s.frames[j], s.ops[j]);
  }

  /** The operations of frame j that the first k events of a run started, minus those they ended. */
  function InFlight(states: seq<Impl>, events: seq<Event>, j: nat, k: nat): int
    requires k <= |events| < |states|
  {
    if k == 0 then 0
    else
      InFlight(states, events, j, k - 1) + Starts(events[k - 1], j)
      - (if Ends(events[k - 1], j, states[k - 1].cancelled) then 1 else 0)
  }

  /** In every run the operations in flight are those started and not ended, for each frame. */
  lemma {:induction false} OperationsAreEvents(states: seq<Impl>, events: seq<Event>, j: nat, k: nat)
    requires Run(states, events) && k < |states| && j < |states[0].frames|
    ensures j < |states[k].ops| == |states[k].frames|
    ensures states[k].ops[j] == (if states[0].frames[j].kind.Timeout? then 1 else 0) + InFlight(states, events, j, k)
  {
    if k > 0 {
      OperationsAreEvents(states, events, j, k - 1);
      RunKeepsInv(states, events, k - 1);
      StepOps(states[k - 1], events[k - 1], j);
    }
  }

  /** In every run the object is deleted at most once, only when nobody holds a handle and no
      completion is owed for any frame; and nothing can happen to it afterwards. */
  lemma DeletedOnlyWhenUnowed(states: seq<Impl>, events: seq<Event>, k: nat)
    requires Run(states, events) && k < |states|
    ensures states[k].deletions <= 1
    ensures states[k].deletions == 1 <==> states[k].count == 0
    ensures states[k].deletions == 1 ==>
      && states[k].handles == 0 && (forall i :: 0 <= i < |states[k].ops| ==> states[k].ops[i] == 0)
      && k == |events|
  {
    RunKeepsInv(states, events, k);
    var s := states[k];
    forall i | 0 <= i < |s.ops| ensures s.ops[i] <= SumOps(s.ops, |s.ops|) {
      SumOpsBound(s.ops, i, |s.ops|);
    }
    assert k < |events| ==> Enabled(s, events[k]);
  }

  // -------------------------------------------------- the last-handle test of ~stream

  /** The number the destructor compares with 1. */
  function UseCount(s: Impl): int {
    s.count - SumActive(s.frames, |s.frames|)
  }

  ghost predicate Exact(s: Impl) {
    |s.ops| == |s.frames| && forall i :: 0 <= i < |s.frames| ==> s.ops[i] == if s.frames[i].Active() then 1 else 0
  }

  lemma {:induction false} SumActiveBound(s: Impl, n: nat)
    requires |s.ops| == |s.frames| && n <= |s.frames|
    requires forall i :: 0 <= i < n ==> FrameOk(s.frames[i], s.ops[i])
    ensures SumActive(s.frames, n) <= SumOps(s.ops, n)
    ensures SumActive(s.frames, n) == SumOps(s.ops, n)
      <==> forall i :: 0 <= i < n ==> s.ops[i] == if s.frames[i].Active() then 1 else 0
  {
    if n > 0 {
      SumActiveBound(s, n - 1);
    }
  }

  /** The destructor never undercounts the handles, so `use_count > 0` holds whenever one is
      destroyed; it counts them exactly if and only if no frame has an operation in flight that its
      flags do not show. */
  lemma UseCountVersusHandles(s: Impl)
    requires Inv(s)
    ensures UseCount(s) >= s.handles
    ensures UseCount(s) == s.handles <==> Exact(s)
  {
    SumActiveBound(s, |s.frames|);
  }

  /** No operation of a kind is started before the previous one was awaited to the end. */
  ghost predicate NoOverlap(s: Impl, e: Event) {
    match e
    case Submit(i) => i < |s.frames| ==> !s.frames[i].initiated
    case Complete(_, _, idle) => 0 <= idle < |s.frames| ==> !s.frames[idle].initiated
    case _ => true
  }

  /** The flags of a frame show its operation, and only one-shot frames are ever done. */
  ghost predicate TidyFrame(f: Frame, ops: nat) {
    ops == (if f.Active() then 1 else 0) && (f.done ==> f.initiated && f.OneShot())
  }

  ghost predicate Tidy(s: Impl) {
    |s.ops| == |s.frames| && forall i :: 0 <= i < |s.frames| ==> TidyFrame(s.frames[i], s.ops[i])
  }

  lemma CompletionLeavesTidy(s: Impl, i: nat, c: Completion, idle: int, j: nat)
    requires Enabled(s, Complete(i, c, idle)) && NoOverlap(s, Complete(i, c, idle))
    requires j < |s.frames| == |s.ops| && FrameOk(s.frames[j], s.ops[j]) && TidyFrame(s.frames[j], s.ops[j])
    ensures var s' := Process(s, i, c, idle);
            |s'.ops| == |s'.frames| == |s.frames| && TidyFrame(s'.frames[j], s'.ops[j])
  {
  }

  lemma FrameStaysTidy(s: Impl, e: Event, j: nat)
    requires Enabled(s, e) && NoOverlap(s, e) && j < |s.frames| == |s.ops|
    requires FrameOk(s.frames[j], s.ops[j]) && TidyFrame(s.frames[j], s.ops[j])
    ensures var s' := Apply(s, e);
            |s'.ops| == |s'.frames| == |s.frames| && TidyFrame(s'.frames[j], s'.ops[j])
  {
    if e.Complete? {
      CompletionLeavesTidy(s, e.i, e.c, e.idle, j);
    }
  }

  lemma StepKeepsTidy(s: Impl, e: Event)
    requires Inv(s) && Tidy(s) && Enabled(s, e) && NoOverlap(s, e)
    ensures Tidy(Apply(s, e))
  {
    var s' := Apply(s, e);
    assert |s'.ops| == |s'.frames| == |s.frames|;
    forall j | 0 <= j < |s.frames| ensures TidyFrame(s'.frames[j], s'.ops[j]) {
      assert FrameOk(s.frames[j], s.ops[j]) && TidyFrame(s.frames[j], s.ops[j]);
      FrameStaysTidy(s, e, j);
    }
  }

  lemma {:induction false} RunKeepsTidy(states: seq<Impl>, events: seq<Event>, k: nat)
    requires Run(states, events) && k < |states|
    requires forall j :: 0 <= j < k ==> NoOverlap(states[j], events[j])
    ensures Tidy(states[k])
  {
    if k > 0 {
      RunKeepsTidy(states, events, k - 1);
      RunKeepsInv(states, events, k - 1);
      StepKeepsTidy(states[k - 1], events[k - 1]);
    }
  }

  /** In a run without overlapping operations of a kind the destructor of a handle finds `use_count`
      equal to 1 exactly when it destroys the last one. */
  lemma LastHandleTestExact(states: seq<Impl>, events: seq<Event>, k: nat)
    requires Run(states, events) && k < |states| && states[k].handles > 0
    requires forall j :: 0 <= j < k ==> NoOverlap(states[j], events[j])
    ensures UseCount(states[k]) == 1 <==> states[k].handles == 1
  {
    RunKeepsInv(states, events, k);
    RunKeepsTidy(states, events, k);
    UseCountVersusHandles(states[k]);
  }

  /** With overlap the test can miss the last handle: two `async_cancel()` in flight, one completed. */
  lemma OverlapHidesLastHandle()
    ensures var s0 := Impl(1, [Frame(Plain, false, false)], false, 1, [0], 0);
            && Initial(s0)
            && var s := Apply(Apply(Apply(s0, Submit(0)), Submit(0)), Complete(0, Result, -1));
            s.handles == 1 && UseCount(s) == 2
  {
    var s0 := Impl(1, [Frame(Plain, false, false)], false, 1, [0], 0);
    assert SumOps(s0.ops, 1) == 0;
    var s := Apply(Apply(Apply(s0, Submit(0)), Submit(0)), Complete(0, Result, -1));
    assert SumActive(s.frames, 1) == 0;
  }

  // ------------------------------------------------------- without any handle

  /** A stream has one timeout frame. */
  ghost predicate OneTimer(s: Impl) {
    forall i, j :: 0 <= i < j < |s.frames| && s.frames[i].kind.Timeout? ==> !s.frames[j].kind.Timeout?
  }

  /** A timer that is running and not marked as cancelled. */
  ghost predicate TimerRuns(s: Impl) {
    !s.cancelled && exists i :: 0 <= i < |s.frames| && s.frames[i].kind.Timeout? && s.frames[i].initiated
  }

  /** Some n steps or fewer delete the object. */
  ghost predicate CanDelete(s: Impl, n: nat)
    decreases n
  {
    || s.deletions > 0
    || (n > 0 && var m: nat := n - 1; exists e :: Enabled(s, e) && CanDelete(Apply(s, e), m))
  }

  /** Without handles only completions happen, and none of them stops a running timer. */
  lemma TimerKeepsRunning(s: Impl, e: Event)
    requires Inv(s) && s.handles == 0 && TimerRuns(s) && Enabled(s, e)
    ensures Apply(s, e).handles == 0 && TimerRuns(Apply(s, e))
  {
    var i :| 0 <= i < |s.frames| && s.frames[i].kind.Timeout? && s.frames[i].initiated;
    var s' := Apply(s, e);
    assert s'.frames[i].kind.Timeout? && s'.frames[i].initiated;
  }

  lemma {:induction false} RunningTimerKeepsAlive(s: Impl, n: nat)
    requires Inv(s) && s.handles == 0 && TimerRuns(s)
    ensures !CanDelete(s, n)
    decreases n
  {
    var i :| 0 <= i < |s.frames| && s.frames[i].kind.Timeout? && s.frames[i].initiated;
    assert FrameOk(s.frames[i], s.ops[i]);
    SumOpsBound(s.ops, i, |s.ops|);
    if n > 0 {
      var m: nat := n - 1;
      forall e | Enabled(s, e) ensures !CanDelete(Apply(s, e), m) {
        TimerKeepsRunning(s, e);
        StepKeepsInv(s, e);
        RunningTimerKeepsAlive(Apply(s, e), m);
      }
    }
  }

  lemma {:induction false} SomeOp(ops: seq<nat>, n: nat) returns (i: nat)
    requires n <= |ops| && SumOps(ops, n) > 0
    ensures i < n && ops[i] > 0
  {
    if ops[n - 1] > 0 {
      i := n - 1;
    } else {
      i := SomeOp(ops, n - 1);
    }
  }

  /** The completion that ends an operation of frame i. */
  function LastCompletion(k: Kind): Completion {
    match k
    case Recv => Data(false)
    case Timeout => Cancelled
    case _ => Result
  }

  lemma EndOneOperation(s: Impl, i: nat)
    requires Inv(s) && s.handles == 0 && OneTimer(s) && !TimerRuns(s) && i < |s.ops| && s.ops[i] > 0
    ensures Enabled(s, Complete(i, LastCompletion(s.frames[i].kind), -1))
    ensures var s' := Apply(s, Complete(i, LastCompletion(s.frames[i].kind), -1));
            && s'.handles == 0 && OneTimer(s') && !TimerRuns(s')
            && |s'.ops| == |s.ops| && SumOps(s'.ops, |s'.ops|) == SumOps(s.ops, |s.ops|) - 1
  {
    assert FrameOk(s.frames[i], s.ops[i]);
    SumOpsUpdate(s.ops, i, s.ops[i] - 1, |s.ops|);
    var s' := Apply(s, Complete(i, LastCompletion(s.frames[i].kind), -1));
    forall j | 0 <= j < |s'.frames| && s'.frames[j].kind.Timeout? && s'.frames[j].initiated
      ensures j != i && s.frames[j].initiated && s'.cancelled == s.cancelled
    {
      assert s.frames[j].kind.Timeout?;
    }
  }

  lemma {:induction false} DeletableOnceTimerStops(s: Impl, n: nat)
    requires Inv(s) && s.handles == 0 && OneTimer(s) && !TimerRuns(s) && SumOps(s.ops, |s.ops|) <= n
    ensures CanDelete(s, n)
    decreases n
  {
    if SumOps(s.ops, |s.ops|) > 0 {
      var i := SomeOp(s.ops, |s.ops|);
      var e := Complete(i, LastCompletion(s.frames[i].kind), -1);
      EndOneOperation(s, i);
      StepKeepsInv(s, e);
      var m: nat := n - 1;
      DeletableOnceTimerStops(Apply(s, e), m);
      assert Enabled(s, e) && CanDelete(Apply(s, e), m);
    }
  }

  ghost predicate Deletable(s: Impl) {
    exists n: nat :: CanDelete(s, n)
  }

  lemma NeverDeletedWhileTimerRuns(s: Impl)
    requires Inv(s) && s.handles == 0 && TimerRuns(s)
    ensures !Deletable(s)
  {
    if n: nat :| CanDelete(s, n) {
      RunningTimerKeepsAlive(s, n);
    }
  }

  /** Handles also die where no last-handle test is made, in awaitables and in assignments. Once the last
      one is gone, some continuation deletes the object if and only if its timer has ended or is marked as
      cancelled; otherwise the timer keeps the object alive for good. */
  lemma DeletableIff(s: Impl)
    requires Inv(s) && s.handles == 0 && OneTimer(s)
    ensures Deletable(s) <==> !TimerRuns(s)
  {
    if TimerRuns(s) {
      NeverDeletedWhileTimerRuns(s);
    } else {
      DeletableOnceTimerStops(s, SumOps(s.ops, |s.ops|));
    }
  }

  /** The shortest such run: a new stream whose only handle is dropped without the test. */
  lemma AbandonedStreamLives()
    ensures var s0 := Impl(2, [Frame(Timeout, true, false)], false, 1, [1], 0);
            && Initial(s0) && Enabled(s0, Drop)
            && var s := Apply(s0, Drop);
            s.handles == 0 && s.deletions == 0 && !Deletable(s)
  {
    var s0 := Impl(2, [Frame(Timeout, true, false)], false, 1, [1], 0);
    assert SumOps(s0.ops, 0) == 0 && SumOps(s0.ops, 1) == 1;
    StepKeepsInv(s0, Drop);
    var s := Apply(s0, Drop);
    assert s.frames[0].kind.Timeout? && s.frames[0].initiated;
    DeletableIff(s);
  }

  // ----------------------------------------------------------------- the object

  class StreamImpl {
    var count: int
    var frames: seq<Frame>
    var cancelled: bool
    ghost var handles: nat
    ghost var ops: seq<nat>
    ghost var deletions: nat

    ghost function State(): Impl
      reads this
    {
      Impl(count, frames, cancelled, handles, ops, deletions)
    }

    /** `intrusive_ptr_release`: `delete` at zero. */
    method IntrusivePtrRelease()
      modifies this
      ensures State() == Release(old(State()))
      ensures count == old(count) - 1 && deletions == old(deletions) + (if count == 0 then 1 else 0)
    {
      count := count - 1;
      if count == 0 {
        deletions := deletions + 1;
      }
    }

    /** The number computed by `stream::~stream`, frame by frame. */
    method HandleCount() returns (useCount: int)
      ensures useCount == UseCount(State())
      ensures Inv(State()) ==> useCount >= handles
      ensures Inv(State()) ==> (useCount == handles <==> Exact(State()))
    {
      useCount := count;
      for i := 0 to |frames|
        invariant useCount == count - SumActive(frames, i)
      {
        if frames[i].Active() {
          useCount := useCount - 1;
        }
      }
      if Inv(State()) {
        UseCountVersusHandles(State());
      }
    }

    /** `stream::~stream`: at the last handle the timer and the receive are cancelled first. In every
        case exactly one reference is released, and `last` is right when the flags are exact. */
    method DestroyHandle(timeoutFrame: nat) returns (last: bool)
      requires Inv(State()) && handles > 0 && timeoutFrame < |frames| && frames[timeoutFrame].kind.Timeout?
      modifies this
      ensures last <==> UseCount(old(State())) == 1
      ensures Exact(old(State())) ==> (last <==> old(handles) == 1)
      ensures var cancels := last && old(frames)[timeoutFrame].initiated;
              State() == Release(old(State()).(handles := old(handles) - 1, cancelled := old(cancelled) || cancels))
    {
      var useCount := HandleCount();
      assert useCount > 0;
      last := useCount == 1;
      if last && frames[timeoutFrame].initiated {
        cancelled := true;
      }
      handles := handles - 1;
      IntrusivePtrRelease();
    }

    /** `recv_frame::await_process_cqe` as far as references go. */
    method ProcessRecv(i: nat, more: bool)
      requires i < |frames| == |ops| && ops[i] > 0 && frames[i].kind.Recv?
      modifies this
      ensures State() == Process(old(State()), i, Data(more), -1)
      ensures frames == old(frames)[i := old(frames)[i].(initiated := more)]
      ensures if more then count == old(count) + 1 && ops == old(ops)
              else count == old(count) && ops == old(ops)[i := old(ops)[i] - 1]
    {
      if more {
        count := count + 1;
        frames := frames[i := frames[i].(initiated := true)];
      } else {
        frames := frames[i := frames[i].(initiated := false)];
        ops := ops[i := ops[i] - 1];
      }
    }

    /** `timeout_frame::await_process_cqe` as far as references go. `idleFrame` is the
        timeout-cancel frame, used when `idle` says the stream has been idle for the period. */
    method ProcessTimeout(i: nat, c: Completion, idle: bool, idleFrame: nat)
      requires i < |frames| == |ops| && ops[i] > 0 && frames[i].kind.Timeout? && frames[i].initiated && Fits(Timeout, c)
      requires idleFrame < |frames| && frames[idleFrame].kind.TimeoutCancel?
      modifies this
      ensures State() == Process(old(State()), i, c, if idle then idleFrame else -1)
      ensures var ended := c == Cancelled && old(cancelled);
              && frames[i].initiated == !ended
              && count == old(count) + (if ended then 0 else 1) + (if c.Tick? && idle then 1 else 0)
              && (c.Tick? && idle ==> frames[idleFrame].initiated && ops == old(ops)[idleFrame := old(ops)[idleFrame] + 1])
              && (cancelled <==> old(cancelled) && !ended)
    {
      var isClosing := c.Cancelled? && cancelled;
      if isClosing {
        frames := frames[i := frames[i].(initiated := false)];
        cancelled := false;
        ops := ops[i := ops[i] - 1];
        return;
      }
      if c.Cancelled? {
        frames := frames[i := frames[i].(initiated := true)];
        count := count + 1;
        return;
      }
      if idle {
        count := count + 1;
        frames := frames[idleFrame := frames[idleFrame].(initiated := true)];
        ops := ops[idleFrame := ops[idleFrame] + 1];
      }
      if !c.more {
        frames := frames[i := frames[i].(initiated := true)];
      }
      count := count + 1;
    }
  }
}
