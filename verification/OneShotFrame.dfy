/** Who is woken by a frame without a busy check: the cancel, close and shutdown frames of a stream
    (src/detail/stream_impl.hpp:29-75 and 113-196, src/tcp.cpp:771-806, 829-870 and 884-927).

    Every await starts an operation and stores its coroutine in `h_`, over whatever is there. A completion
    hands out what is stored; `await_resume` resets the frame, `h_` included. */
module OneShotFrames {

  /** One await: whether the run loop has collected its coroutine, and how often it was resumed. */
  datatype Wait = Wait(collected: bool, resumptions: nat)

  /** `handle` is the await whose coroutine is in `h_`, or -1; `ops` counts operations without a processed
      completion. */
  datatype Frame = Frame(handle: int, initiated: bool, done: bool, ops: nat, waits: seq<Wait>)

  const NEW_FRAME := Frame(-1, false, false, 0, [])

  datatype Event =
    | Await             // await_suspend
    | Complete          // await_process_cqe, then handle()
    | Resume(r: nat)    // the run loop resumes await r; await_resume

  predicate Enabled(s: Frame, e: Event) {
    && s.handle < |s.waits|
    && match e
       case Await => true
       case Complete => s.ops > 0
       case Resume(r) => r < |s.waits| && s.waits[r].collected
  }

  function Suspend(s: Frame): Frame {
    s.(handle := |s.waits|, initiated := true, ops := s.ops + 1, waits := s.waits + [Wait(false, 0)])
  }

  function Process(s: Frame): Frame
    requires s.ops > 0 && s.handle < |s.waits|
  {
    var s' := s.(done := true, ops := s.ops - 1, handle := -1);
    if s.handle < 0 then s' else s'.(waits := s.waits[s.handle := s.waits[s.handle].(collected := true)])
  }

  function Reset(s: Frame): Frame {
    s.(handle := -1, initiated := false, done := false)
  }

  function Apply(s: Frame, e: Event): Frame
    requires Enabled(s, e)
  {
    match e
    case Await => Suspend(s)
    case Complete => Process(s)
    case Resume(r) => Reset(s.(waits := s.waits[r := Wait(false, s.waits[r].resumptions + 1)]))
  }

  /** Neither stored nor collected nor resumed: nobody will ever resume it. */
  predicate Lost(s: Frame, r: nat)
    requires r < |s.waits|
  {
    s.handle != r && !s.waits[r].collected && s.waits[r].resumptions == 0
  }

  /** An await is in at most one place, and a stored one is owed a completion. */
  ghost predicate Inv(s: Frame) {
    && -1 <= s.handle < |s.waits|
    && (s.handle >= 0 ==> s.ops > 0)
    && forall r :: 0 <= r < |s.waits| ==>
         (if s.handle == r then 1 else 0) + (if s.waits[r].collected then 1 else 0) + s.waits[r].resumptions <= 1
  }

  ghost predicate Run(states: seq<Frame>, events: seq<Event>) {
    && |states| == |events| + 1 && states[0] == NEW_FRAME
    && forall k :: 0 <= k < |events| ==> Enabled(states[k], events[k]) && states[k + 1] == Apply(states[k], events[k])
  }

  lemma {:induction false} RunKeepsInv(states: seq<Frame>, events: seq<Event>, k: nat)
    requires Run(states, events) && k < |states|
    ensures Inv(states[k])
  {
    if k > 0 {
      RunKeepsInv(states, events, k - 1);
    }
  }

  function Awaits(events: seq<Event>, k: nat): nat
    requires k <= |events|
  {
    if k == 0 then 0 else Awaits(events, k - 1) + (if events[k - 1].Await? then 1 else 0)
  }

  lemma {:induction false} AwaitsAreWaits(states: seq<Frame>, events: seq<Event>, k: nat)
    requires Run(states, events) && k < |states|
    ensures |states[k].waits| == Awaits(events, k)
  {
    if k > 0 {
      AwaitsAreWaits(states, events, k - 1);
    }
  }

  /** In every run: the coroutine of the await made by event m is stored until the next event of the frame,
      and is lost if and only if that is not a completion, but another await or the reset by a coroutine
      that is resumed. */
  lemma {:induction false} LostIffNotCompletedNext(states: seq<Frame>, events: seq<Event>, m: nat, k: nat)
    requires Run(states, events) && m < k < |states| && events[m].Await?
    ensures Awaits(events, m) < |states[k].waits|
    ensures k == m + 1 ==> states[k].handle == Awaits(events, m)
    ensures k > m + 1 ==> states[k].handle != Awaits(events, m)
    ensures k > m + 1 ==> (Lost(states[k], Awaits(events, m)) <==> !events[m + 1].Complete?)
    decreases k
  {
    AwaitsAreWaits(states, events, m);
    RunKeepsInv(states, events, k - 1);
    if k > m + 1 {
      LostIffNotCompletedNext(states, events, m, k - 1);
    }
  }

  /** Every operation has completed and every collected coroutine was resumed. */
  ghost predicate Quiet(s: Frame) {
    s.ops == 0 && forall r :: 0 <= r < |s.waits| ==> !s.waits[r].collected
  }

  /** When all is over, a coroutine has been resumed exactly once if the next event after its await was a
      completion, and otherwise never. */
  lemma ResumedOnceIff(states: seq<Frame>, events: seq<Event>, m: nat, k: nat)
    requires Run(states, events) && m < k < |states| && events[m].Await? && Quiet(states[k])
    ensures m + 1 < |events| && Awaits(events, m) < |states[k].waits|
    ensures states[k].waits[Awaits(events, m)].resumptions == if events[m + 1].Complete? then 1 else 0
  {
    LostIffNotCompletedNext(states, events, m, k);
    RunKeepsInv(states, events, k);
  }

  lemma {:induction false} WaitHasEvent(events: seq<Event>, k: nat, r: nat) returns (m: nat)
    requires k <= |events| && r < Awaits(events, k)
    ensures m < k && events[m].Await? && Awaits(events, m) == r
  {
    if events[k - 1].Await? && Awaits(events, k - 1) == r {
      m := k - 1;
    } else {
      m := WaitHasEvent(events, k - 1, r);
    }
  }

  /** So every coroutine was resumed exactly once if and only if every await was followed by a completion
      before anything else happened to the frame. */
  lemma AllResumedIff(states: seq<Frame>, events: seq<Event>)
    requires Run(states, events) && Quiet(states[|events|])
    ensures (forall r :: 0 <= r < |states[|events|].waits| ==> states[|events|].waits[r].resumptions == 1) <==>
            (forall m :: 0 <= m < |events| && events[m].Await? ==> m + 1 < |events| && events[m + 1].Complete?)
  {
    var k := |events|;
    AwaitsAreWaits(states, events, k);
    if forall r :: 0 <= r < |states[k].waits| ==> states[k].waits[r].resumptions == 1 {
      forall m | 0 <= m < k && events[m].Await? ensures m + 1 < k && events[m + 1].Complete? {
        ResumedOnceIff(states, events, m, k);
      }
    }
    if forall m :: 0 <= m < k && events[m].Await? ==> m + 1 < k && events[m + 1].Complete? {
      forall r | 0 <= r < |states[k].waits| ensures states[k].waits[r].resumptions == 1 {
        var m := WaitHasEvent(events, k, r);
        ResumedOnceIff(states, events, m, k);
      }
    }
  }

  /** `initiated_`, `done_` and the operations, from the events alone: an await starts and a completion ends
      an operation; only a resumption clears both flags. */
  predicate Initiated(events: seq<Event>, k: nat)
    requires k <= |events|
  {
    k > 0 && (events[k - 1].Await? || (events[k - 1].Complete? && Initiated(events, k - 1)))
  }

  predicate Done(events: seq<Event>, k: nat)
    requires k <= |events|
  {
    k > 0 && (events[k - 1].Complete? || (events[k - 1].Await? && Done(events, k - 1)))
  }

  function Completes(events: seq<Event>, k: nat): nat
    requires k <= |events|
  {
    if k == 0 then 0 else Completes(events, k - 1) + (if events[k - 1].Complete? then 1 else 0)
  }

  lemma {:induction false} FlagsAreEvents(states: seq<Frame>, events: seq<Event>, k: nat)
    requires Run(states, events) && k < |states|
    ensures states[k].initiated <==> Initiated(events, k)
    ensures states[k].done <==> Done(events, k)
    ensures states[k].ops == Awaits(events, k) - Completes(events, k)
  {
    if k > 0 {
      FlagsAreEvents(states, events, k - 1);
    }
  }

  /** Two overlapping awaits: the second coroutine overwrites the first. */
  lemma SecondAwaitLosesFirst()
    ensures var s1 := Apply(NEW_FRAME, Await);
            var s2 := Apply(s1, Await);
            Enabled(s2, Complete) && Lost(s2, 0)
  {}

  /** The awaits need not overlap: an await between a completion and the resumption it causes is erased by
      the reset. */
  lemma ResetLosesNext()
    ensures var s1 := Apply(NEW_FRAME, Await);
            var s2 := Apply(s1, Complete);
            var s3 := Apply(s2, Await);
            Enabled(s3, Resume(0)) && s3.ops == 1
            && var s4 := Apply(s3, Resume(0));
            Enabled(s4, Complete) && Lost(s4, 1) && s4.waits[0].resumptions == 1
  {}

  class OneShotFrame {
    var h: int
    var initiated: bool
    var done: bool
    ghost var ops: nat
    ghost var waits: seq<Wait>

    ghost function State(): Frame
      reads this
    {
      Frame(h, initiated, done, ops, waits)
    }

    constructor ()
      ensures State() == NEW_FRAME
    {
      h, initiated, done, ops, waits := -1, false, false, 0, [];
    }

    /** `coroutine` is the number of this await. */
    method AwaitSuspend(coroutine: nat)
      requires coroutine == |waits|
      modifies this
      ensures State() == Suspend(old(State()))
      ensures h == coroutine && initiated && done == old(done) && ops == old(ops) + 1
    {
      ops := ops + 1;
      waits := waits + [Wait(false, 0)];
      initiated := true;
      h := coroutine;
    }

    /** `await_process_cqe`, and `handle()`, which the run loop calls next. */
    method ProcessAndHandle() returns (coroutine: int)
      requires ops > 0 && h < |waits|
      modifies this
      ensures State() == Process(old(State())) && coroutine == old(h)
      ensures h == -1 && done && initiated == old(initiated) && ops == old(ops) - 1
      ensures forall r :: 0 <= r < |waits| ==> waits[r].collected == (old(waits)[r].collected || r == coroutine)
    {
      done := true;
      ops := ops - 1;
      coroutine := h;
      h := -1;
      if coroutine >= 0 {
        waits := waits[coroutine := waits[coroutine].(collected := true)];
      }
    }

    method AwaitResume()
      modifies this
      ensures State() == Reset(old(State()))
      ensures h == -1 && !initiated && !done && ops == old(ops) && waits == old(waits)
    {
      h := -1;
      initiated := false;
      done := false;
    }
  }
}
