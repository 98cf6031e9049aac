/** The timer every stream carries: `timeout_frame` of src/detail/stream_impl.hpp:336-348 and 462-546,
    `stream::timeout` and `queue_timer_cancel` of src/tcp.cpp:622-678.

    Its period is changed, and it is ended, by removing the kernel's timeout: the one ECANCELED that the
    removal provokes is read as "closing" when `cancelled_` is set and as "arm again" otherwise. Removals
    are addressed to the frame, not to one operation, and a removal that finds no timeout does nothing. */
module TimerMachine {

  datatype Sqe = Arm | Remove

  datatype Cqe = Tick(more: bool) | Cancelled {
    predicate Final() {
      this != Tick(true)
    }
  }

  datatype Kernel = Idle | Every(period: int)

  /** The frame's fields, the entries of this timer that are queued but not submitted, the kernel's
      timeout, and the completions posted but not processed. */
  datatype Timer = Timer(
    ts: int,
    initiated: bool,
    cancelled: bool,
    sq: seq<Sqe>,
    armed: Kernel,
    cq: seq<Cqe>)

  // ---------------------------------------------------------------- the program

  /** The constructor of `stream_impl`. */
  function Started(ts: int): Timer {
    Timer(ts, true, false, [Arm], Idle, [])
  }

  /** `stream::timeout`. */
  function Adjust(s: Timer, ts: int): Timer {
    s.(ts := ts, sq := s.sq + [Remove])
  }

  /** `queue_timer_cancel`. */
  function QueueCancel(s: Timer): Timer {
    if !s.initiated then s else s.(cancelled := true, sq := s.sq + [Remove])
  }

  /** `timeout_frame::await_process_cqe` on the oldest completion. */
  function Process(s: Timer): Timer
    requires s.cq != []
  {
    var s' := s.(cq := s.cq[1..]);
    match s.cq[0]
    case Cancelled =>
      if s.cancelled then s'.(initiated := false, cancelled := false)
      else s'.(initiated := true, sq := s.sq + [Arm])
    case Tick(more) =>
      if more then s' else s'.(initiated := true, sq := s.sq + [Arm])
  }

  // ----------------------------------------------------------------- the kernel

  /** The kernel takes the oldest entry; `Arm` copies the timespec only now. */
  function Submit(s: Timer): Timer
    requires s.sq != []
  {
    var s' := s.(sq := s.sq[1..]);
    match s.sq[0]
    case Arm => s'.(armed := Every(s.ts))
    case Remove => if s.armed.Idle? then s' else s'.(armed := Idle, cq := s.cq + [Cancelled])
  }

  /** The period elapses. A tick without `F_MORE` ends the kernel's timeout. */
  function Elapse(s: Timer, more: bool): Timer
    requires !s.armed.Idle?
  {
    s.(armed := if more then s.armed else Idle, cq := s.cq + [Tick(more)])
  }

  datatype Event = Adjusts(ts: int) | Cancels | Processes | Submits | Elapses(more: bool)

  predicate Enabled(s: Timer, e: Event) {
    match e
    case Adjusts(_) => true
    case Cancels => true
    case Processes => s.cq != []
    case Submits => s.sq != []
    case Elapses(_) => !s.armed.Idle?
  }

  function Apply(s: Timer, e: Event): Timer
    requires Enabled(s, e)
  {
    match e
    case Adjusts(ts) => Adjust(s, ts)
    case Cancels => QueueCancel(s)
    case Processes => Process(s)
    case Submits => Submit(s)
    case Elapses(more) => Elapse(s, more)
  }

  // -------------------------------------------------------------- the invariant

  /** Timeout operations whose last completion is not processed yet. */
  function Outstanding(s: Timer): nat {
    multiset(s.sq)[Arm] + (if s.armed.Idle? then 0 else 1) + multiset(s.cq)[Cancelled] + multiset(s.cq)[Tick(false)]
  }

  ghost predicate Inv(s: Timer) {
    && Outstanding(s) == (if s.initiated then 1 else 0)
    && (s.cancelled ==> s.initiated)
    // completions of one operation are processed before it is armed again
    && (Arm in s.sq ==> s.cq == [])
    && (!s.initiated ==> s.cq == [])
    && (forall i :: 0 <= i < |s.cq| && s.cq[i].Final() ==> i == |s.cq| - 1)
    // a period that is out of date is about to be removed
    && (s.armed.Every? && s.armed.period != s.ts ==> Remove in s.sq)
  }

  lemma HeadAndTail<T>(q: seq<T>)
    requires q != []
    ensures multiset(q) == multiset{q[0]} + multiset(q[1..])
  {
    assert q == [q[0]] + q[1..];
  }

  lemma SubmitKeepsInv(s: Timer)
    requires Inv(s) && s.sq != []
    ensures Inv(Submit(s))
  {
    HeadAndTail(s.sq);
    assert s.sq == [s.sq[0]] + s.sq[1..];
    if s.sq[0] == Arm {
      assert s.armed.Idle?;
    } else if s.armed.Every? {
      forall i | 0 <= i < |s.cq| ensures !s.cq[i].Final() {
        assert s.cq[i] in multiset(s.cq);
      }
    }
  }

  lemma ProcessKeepsInv(s: Timer)
    requires Inv(s) && s.cq != []
    ensures Inv(Process(s))
  {
    HeadAndTail(s.cq);
    if s.cq[0].Final() {
      assert s.cq[1..] == [];
    }
  }

  lemma ElapseKeepsInv(s: Timer, more: bool)
    requires Inv(s) && s.armed.Every?
    ensures Inv(Elapse(s, more))
  {
    forall i | 0 <= i < |s.cq| ensures !s.cq[i].Final() {
      assert s.cq[i] in multiset(s.cq);
    }
  }

  lemma StepKeepsInv(s: Timer, e: Event)
    requires Inv(s) && Enabled(s, e)
    ensures Inv(Apply(s, e))
  {
    match e {
      case Submits => SubmitKeepsInv(s);
      case Processes => ProcessKeepsInv(s);
      case Elapses(more) => ElapseKeepsInv(s, more);
      case _ =>
    }
  }

  ghost predicate Steps(states: seq<Timer>, events: seq<Event>) {
    && |states| == |events| + 1
    && forall k :: 0 <= k < |events| ==> Enabled(states[k], events[k]) && states[k + 1] == Apply(states[k], events[k])
  }

  lemma {:induction false} StepsKeepInv(states: seq<Timer>, events: seq<Event>, k: nat)
    requires Steps(states, events) && Inv(states[0]) && k < |states|
    ensures Inv(states[k])
  {
    if k > 0 {
      StepsKeepInv(states, events, k - 1);
      StepKeepsInv(states[k - 1], events[k - 1]);
    }
  }

  /** The period last asked for in the first k events, by the constructor or an adjustment. */
  function LastPeriod(ts: int, events: seq<Event>, k: nat): int
    requires k <= |events|
  {
    if k == 0 then ts else if events[k - 1].Adjusts? then events[k - 1].ts else LastPeriod(ts, events, k - 1)
  }

  lemma {:induction false} PeriodIsLast(ts: int, states: seq<Timer>, events: seq<Event>, k: nat)
    requires Steps(states, events) && states[0] == Started(ts) && k < |states|
    ensures states[k].ts == LastPeriod(ts, events, k)
  {
    if k > 0 {
      PeriodIsLast(ts, states, events, k - 1);
    }
  }

  /** Whatever the interleaving, `initiated_` holds exactly while one timeout is outstanding, there is
      never a second one, and a kernel timeout with a period other than the last one asked for is about to
      be removed. */
  lemma InitiatedIffOneOutstanding(ts: int, states: seq<Timer>, events: seq<Event>, k: nat)
    requires Steps(states, events) && states[0] == Started(ts) && k < |states|
    ensures states[k].initiated <==> Outstanding(states[k]) == 1
    ensures !states[k].initiated <==> Outstanding(states[k]) == 0
    ensures states[k].armed.Every? && Remove !in states[k].sq ==> states[k].armed.period == LastPeriod(ts, events, k)
  {
    assert Inv(Started(ts));
    StepsKeepInv(states, events, k);
    PeriodIsLast(ts, states, events, k);
  }

  // --------------------------------------------------------------- cancellation

  /** The queue holds an `Arm` and, later, a `Remove`. */
  ghost predicate ArmThenRemove(sq: seq<Sqe>) {
    exists i, j :: 0 <= i < j < |sq| && sq[i] == Arm && sq[j] == Remove
  }

  /** The ECANCELED that ends the timer is posted, or the queued entries will provoke it. */
  ghost predicate Owed(s: Timer) {
    Cancelled in s.cq || (s.armed.Every? && Remove in s.sq) || ArmThenRemove(s.sq)
  }

  lemma ArmThenRemoveTail(sq: seq<Sqe>)
    requires sq != []
    ensures ArmThenRemove(sq) <==> ArmThenRemove(sq[1..]) || (sq[0] == Arm && Remove in sq[1..])
  {
    var t := sq[1..];
    if i, j :| 0 <= i < j < |sq| && sq[i] == Arm && sq[j] == Remove {
      assert t[j - 1] == Remove;
      assert i > 0 ==> t[i - 1] == Arm;
    }
    if i, j :| 0 <= i < j < |t| && t[i] == Arm && t[j] == Remove {
      assert sq[i + 1] == Arm && sq[j + 1] == Remove;
    }
    if sq[0] == Arm && Remove in t {
      var j :| 0 <= j < |t| && t[j] == Remove;
      assert sq[j + 1] == Remove;
    }
  }

  lemma ArmThenRemoveAppend(sq: seq<Sqe>, x: Sqe)
    ensures ArmThenRemove(sq + [x]) <==> ArmThenRemove(sq) || (x == Remove && Arm in sq)
  {
    var q := sq + [x];
    if i, j :| 0 <= i < j < |q| && q[i] == Arm && q[j] == Remove {
      assert sq[i] == Arm;
      assert j < |sq| ==> sq[j] == Remove;
    }
    if i, j :| 0 <= i < j < |sq| && sq[i] == Arm && sq[j] == Remove {
      assert q[i] == Arm && q[j] == Remove;
    }
    if Arm in sq {
      var i :| 0 <= i < |sq| && sq[i] == Arm;
      assert q[i] == Arm && q[|sq|] == x;
    }
  }

  lemma SubmitKeepsOwed(s: Timer)
    requires Inv(s) && s.sq != []
    ensures Owed(Submit(s)) <==> Owed(s)
    ensures Tick(false) in Submit(s).cq <==> Tick(false) in s.cq
  {
    ArmThenRemoveTail(s.sq);
    assert s.sq == [s.sq[0]] + s.sq[1..];
  }

  /** If every tick carries `F_MORE`, a cancelled timer is always owed its end. */
  lemma StepKeepsOwed(s: Timer, e: Event)
    requires Inv(s) && Enabled(s, e) && e != Elapses(false) && Tick(false) !in s.cq
    requires s.cancelled ==> Owed(s)
    ensures Apply(s, e).cancelled ==> Owed(Apply(s, e))
    ensures Tick(false) !in Apply(s, e).cq
  {
    match e {
      case Submits => SubmitKeepsOwed(s);
      case Processes =>
        assert s.cq == [s.cq[0]] + s.cq[1..];
        assert ArmThenRemove(s.sq) ==> Arm in s.sq;
      case Cancels =>
        if s.initiated {
          OwedOnceQueued(s);
        }
      case Adjusts(_) => ArmThenRemoveAppend(s.sq, Remove);
      case _ =>
    }
  }

  /** Queueing the cancellation of a timer makes its end owed if and only if no tick without `F_MORE`
      waits to be processed. */
  lemma OwedOnceQueued(s: Timer)
    requires Inv(s) && s.initiated
    ensures Owed(QueueCancel(s)) <==> Tick(false) !in s.cq
  {
    ArmThenRemoveAppend(s.sq, Remove);
    if Arm in s.sq {
      assert s.cq == [];
    } else {
      assert multiset(s.sq)[Arm] == 0;
      assert !ArmThenRemove(s.sq);
    }
  }

  /** In a run whose ticks all carry `F_MORE`, a cancelled timer is owed its end in every state, however
      adjustments, ticks and cancellations interleave. */
  lemma {:induction false} CancelAlwaysOwed(ts: int, states: seq<Timer>, events: seq<Event>, k: nat)
    requires Steps(states, events) && states[0] == Started(ts) && k < |states|
    requires forall j :: 0 <= j < k ==> events[j] != Elapses(false)
    ensures states[k].cancelled ==> Owed(states[k])
    ensures Tick(false) !in states[k].cq
  {
    if k > 0 {
      CancelAlwaysOwed(ts, states, events, k - 1);
      assert Inv(Started(ts));
      StepsKeepInv(states, events, k - 1);
      StepKeepsOwed(states[k - 1], events[k - 1]);
    }
  }

  /** The step law: while a cancelled timer has not ended, its end is owed after a step if and only if that
      step queues a removal while no tick without `F_MORE` waits, or the end was owed before and the step
      is not a tick without `F_MORE`. */
  lemma OwedAfterStep(s: Timer, e: Event)
    requires Inv(s) && Enabled(s, e) && Apply(s, e).cancelled
    ensures Owed(Apply(s, e)) <==>
      if e.Adjusts? || e.Cancels? then Tick(false) !in s.cq else Owed(s) && e != Elapses(false)
  {
    match e {
      case Submits => SubmitKeepsOwed(s);
      case Processes => ProcessKeepsOwed(s);
      case Cancels =>
        if s.initiated {
          OwedOnceQueued(s);
        }
      case Adjusts(ts) =>
        OwedOnceQueued(s);
        assert Adjust(s, ts).sq == QueueCancel(s).sq;
      case Elapses(more) => ElapseKeepsOwed(s, more);
    }
  }

  lemma ProcessKeepsOwed(s: Timer)
    requires Inv(s) && s.cq != [] && s.cq[0] != Cancelled
    ensures Owed(Process(s)) <==> Owed(s)
  {
    assert s.cq == [s.cq[0]] + s.cq[1..];
    assert multiset(s.cq)[s.cq[0]] > 0;
    assert Arm !in s.sq;
    ArmThenRemoveAppend(s.sq, Arm);
    if s.cq[0] == Tick(false) {
      assert s.cq == [Tick(false)];
    }
  }

  lemma ElapseKeepsOwed(s: Timer, more: bool)
    requires Inv(s) && s.armed.Every?
    ensures Owed(Elapse(s, more)) <==> Owed(s) && more
  {
    assert multiset(s.sq)[Arm] == 0 && multiset(s.cq)[Cancelled] == 0;
    assert !ArmThenRemove(s.sq);
  }

  /** The last removal that was queued found no tick without `F_MORE` waiting, and none has come since. */
  predicate RemovalIntact(states: seq<Timer>, events: seq<Event>, k: nat)
    requires k <= |events| < |states|
  {
    && k > 0
    && if events[k - 1].Adjusts? || events[k - 1].Cancels? then Tick(false) !in states[k - 1].cq
       else RemovalIntact(states, events, k - 1) && events[k - 1] != Elapses(false)
  }

  /** In every run, whatever adjustments, ticks, submissions and cancellations interleave: a cancelled timer
      is owed its end if and only if its last removal is intact. */
  lemma {:induction false} CancelOwedIff(ts: int, states: seq<Timer>, events: seq<Event>, k: nat)
    requires Steps(states, events) && states[0] == Started(ts) && k < |states| && states[k].cancelled
    ensures Owed(states[k]) <==> RemovalIntact(states, events, k)
  {
    assert Inv(Started(ts));
    StepsKeepInv(states, events, k - 1);
    OwedAfterStep(states[k - 1], events[k - 1]);
    if !(events[k - 1].Adjusts? || events[k - 1].Cancels?) {
      CancelOwedIff(ts, states, events, k - 1);
    }
  }

  lemma OwedMeansNoFinalTick(s: Timer)
    requires Inv(s) && Owed(s)
    ensures Tick(false) !in s.cq
  {
    assert ArmThenRemove(s.sq) ==> Arm in s.sq;
    assert Tick(false) in s.cq ==> multiset(s.cq)[Tick(false)] > 0;
  }

  /** A step from an owed state that does not end the timer leaves the end owed unless it is a tick without
      `F_MORE`. */
  lemma OwedUnlessFinalTick(s: Timer, e: Event)
    requires Inv(s) && Enabled(s, e) && Owed(s) && Apply(s, e).cancelled
    ensures Owed(Apply(s, e)) <==> e != Elapses(false)
  {
    OwedAfterStep(s, e);
    OwedMeansNoFinalTick(s);
  }

  lemma OwedInRun(ts: int, states: seq<Timer>, events: seq<Event>, k: nat)
    requires Steps(states, events) && states[0] == Started(ts) && k < |events| && Owed(states[k]) && states[k + 1].cancelled
    ensures Owed(states[k + 1]) <==> events[k] != Elapses(false)
  {
    assert Inv(Started(ts));
    StepsKeepInv(states, events, k);
    OwedUnlessFinalTick(states[k], events[k]);
  }

  ghost predicate OwedThroughout(states: seq<Timer>, from: nat, k: nat)
    requires from <= k < |states|
  {
    Owed(states[k]) && (k > from ==> OwedThroughout(states, from, k - 1))
  }

  predicate NoFinalTick(events: seq<Event>, from: nat, k: nat)
    requires from <= k <= |events|
  {
    k > from ==> events[k - 1] != Elapses(false) && NoFinalTick(events, from, k - 1)
  }

  /** From a cancelled, owed state until its ECANCELED is processed, the end stays owed, in every state, if
      and only if no tick without `F_MORE` comes. */
  lemma {:induction false} StaysOwedIff(ts: int, states: seq<Timer>, events: seq<Event>, from: nat, k: nat)
    requires Steps(states, events) && states[0] == Started(ts) && from <= k < |states|
    requires Owed(states[from])
    requires forall j :: from <= j <= k ==> states[j].cancelled
    ensures OwedThroughout(states, from, k) <==> NoFinalTick(events, from, k)
  {
    if k > from {
      StaysOwedIff(ts, states, events, from, k - 1);
      if OwedThroughout(states, from, k - 1) {
        OwedInRun(ts, states, events, k - 1);
      }
    }
  }

  /** Once the ECANCELED of a cancelled timer is posted, it stays posted until it is processed; then
      both flags are clear and nothing of the timer is outstanding. */
  lemma PostedCancelEnds(s: Timer, e: Event)
    requires Inv(s) && Enabled(s, e) && s.cancelled && Cancelled in s.cq
    ensures var s' := Apply(s, e);
            if e == Processes && s.cq[0] == Cancelled
            then !s'.initiated && !s'.cancelled && Outstanding(s') == 0
            else s'.cancelled && Cancelled in s'.cq
  {
    StepKeepsInv(s, e);
    if e == Processes {
      assert s.cq == [s.cq[0]] + s.cq[1..];
    } else if e == Submits {
      assert multiset(s.cq)[Cancelled] >= 1;
    }
  }

  /** An ended timer has ended for good. */
  lemma {:induction false} EndedStaysEnded(states: seq<Timer>, events: seq<Event>, from: nat, k: nat)
    requires Steps(states, events) && Inv(states[0]) && from <= k < |states| && !states[from].initiated
    ensures !states[k].initiated && !states[k].cancelled && Outstanding(states[k]) == 0 && states[k].cq == []
  {
    StepsKeepInv(states, events, k);
    if k > from {
      EndedStaysEnded(states, events, from, k - 1);
      StepsKeepInv(states, events, k - 1);
    }
  }

  // ------------------------------------------------------------------- settling

  /** One pass of the event loop and the submission that follows, without a tick in between. */
  function SubmitAll(s: Timer): Timer
    decreases |s.sq|
  {
    if s.sq == [] then s else SubmitAll(Submit(s))
  }

  function ProcessAll(s: Timer): Timer
    decreases |s.cq|
  {
    if s.cq == [] then s else ProcessAll(Process(s))
  }

  lemma {:induction false} SubmitAllKeeps(s: Timer)
    requires Inv(s)
    ensures var s' := SubmitAll(s);
            && Inv(s') && s'.sq == [] && s'.ts == s.ts && s'.initiated == s.initiated && s'.cancelled == s.cancelled
            && (Tick(false) in s'.cq <==> Tick(false) in s.cq)
            && (Cancelled in s'.cq <==> Owed(s))
    decreases |s.sq|
  {
    if s.sq != [] {
      SubmitKeepsInv(s);
      SubmitAllKeeps(Submit(s));
      SubmitKeepsOwed(s);
    }
  }

  lemma ProcessFinal(s: Timer)
    requires Inv(s) && s.cq != [] && s.cq[0].Final()
    ensures var s' := Process(s);
            && s.cq == [s.cq[0]] && s'.cq == [] && s'.ts == s.ts && s'.armed == s.armed
            && (s'.initiated <==> !(s.cancelled && s.cq[0] == Cancelled))
            && (s'.cancelled <==> s.cancelled && s.cq[0] != Cancelled)
            && s'.sq == if s'.initiated then s.sq + [Arm] else s.sq
  {
    assert s.initiated;
    assert s.cq[1..] == [];
  }

  lemma {:induction false} ProcessAllKeeps(s: Timer)
    requires Inv(s)
    ensures var s' := ProcessAll(s);
            && Inv(s') && s'.cq == [] && s'.ts == s.ts
            && (s'.initiated <==> s.initiated && !(s.cancelled && Cancelled in s.cq))
            && (s'.cancelled <==> s.cancelled && Cancelled !in s.cq)
            && (s.sq == [] ==> Remove !in s'.sq)
            && (s.sq == [] && s'.initiated && s.armed.Idle? ==> Arm in s'.sq)
    decreases |s.cq|
  {
    if s.cq == [] {
      assert s.initiated && s.armed.Idle? ==> multiset(s.sq)[Arm] == 1;
    } else if s.cq[0].Final() {
      ProcessKeepsInv(s);
      ProcessFinal(s);
      assert ProcessAll(s) == Process(s);
      assert s.cq[0] in s.cq;
    } else {
      ProcessKeepsInv(s);
      assert s.cq == [s.cq[0]] + s.cq[1..];
      ProcessAllKeeps(Process(s));
    }
  }

  /** Submitting, processing and submitting again settles the timer, whatever was queued: it is ended if
      it was cancelled and its end was owed, and otherwise it runs with the latest period. */
  lemma Settles(s: Timer)
    requires Inv(s) && s.initiated
    ensures var s' := SubmitAll(ProcessAll(SubmitAll(s)));
            if s.cancelled && Owed(s) then !s'.initiated && !s'.cancelled && Outstanding(s') == 0
            else s'.initiated && s'.cancelled == s.cancelled && s'.armed == Every(s.ts)
  {
    SubmitAllKeeps(s);
    var s1 := SubmitAll(s);
    ProcessAllKeeps(s1);
    var s2 := ProcessAll(s1);
    SubmitAllKeeps(s2);
    var s3 := SubmitAll(s2);
    if s2.initiated {
      assert !Owed(s2);
      NoFinalMeansArmed(s3);
    }
  }

  lemma NoFinalMeansArmed(s: Timer)
    requires Inv(s) && s.sq == [] && s.initiated && Cancelled !in s.cq && Tick(false) !in s.cq
    ensures s.armed == Every(s.ts)
  {
    assert multiset(s.sq)[Arm] == 0;
  }

  /** When the removal is submitted at once, as `cancel_timer` does, and no tick comes in between, a running
      timer ends with the next pass if and only if no tick without `F_MORE` waits to be processed. For
      removals that are submitted later see CancelOwedIff. */
  lemma CancelTakesEffect(s: Timer)
    requires Inv(s) && s.initiated
    ensures var s' := SubmitAll(ProcessAll(SubmitAll(QueueCancel(s))));
            (!s'.initiated <==> Tick(false) !in s.cq) && (s'.initiated ==> s'.armed == Every(s.ts) && s'.cancelled)
  {
    StepKeepsInv(s, Cancels);
    OwedOnceQueued(s);
    Settles(QueueCancel(s));
  }

  /** The failing case: the lost cancellation leaves `cancelled_` set and the timer armed. */
  lemma CancelCanBeLost()
    ensures var ticked := Elapse(Submit(Started(3)), false);
            && Inv(ticked) && ticked.initiated
            && SubmitAll(ProcessAll(SubmitAll(QueueCancel(ticked)))) == Timer(3, true, true, [], Every(3), [])
  {
    var s0 := Started(3);
    assert s0.sq[1..] == [];
    var s1 := Submit(s0);
    var s2 := Elapse(s1, false);
    StepKeepsInv(s0, Submits);
    StepKeepsInv(s1, Elapses(false));
    var s3 := QueueCancel(s2);
    assert s3.sq == [Remove] && s3.sq[1..] == [];
    var s4 := Submit(s3);
    assert s4.cq == [Tick(false)] && s4.cq[1..] == [];
    assert SubmitAll(s3) == SubmitAll(s4) == s4;
    var s5 := Process(s4);
    assert s5.sq == [Arm] && s5.sq[1..] == [];
    assert ProcessAll(s4) == ProcessAll(s5) == s5;
    var s6 := Submit(s5);
    assert SubmitAll(s5) == SubmitAll(s6) == s6;
  }

  /** In every run: one submission, one pass of the event loop and one more submission end a cancelled
      timer if and only if its last removal is intact; otherwise it is armed again and stays marked. */
  lemma CancelledTimerEndsIff(ts: int, states: seq<Timer>, events: seq<Event>, k: nat)
    requires Steps(states, events) && states[0] == Started(ts) && k < |states| && states[k].cancelled
    ensures var s' := SubmitAll(ProcessAll(SubmitAll(states[k])));
            && (!s'.initiated <==> RemovalIntact(states, events, k))
            && (s'.initiated ==> s'.armed == Every(LastPeriod(ts, events, k)) && s'.cancelled)
  {
    assert Inv(Started(ts));
    StepsKeepInv(states, events, k);
    PeriodIsLast(ts, states, events, k);
    CancelOwedIff(ts, states, events, k);
    Settles(states[k]);
  }

  /** In every run: the same pass leaves a timer that nobody has cancelled running with the period last asked
      for. */
  lemma RunsWithLastPeriod(ts: int, states: seq<Timer>, events: seq<Event>, k: nat)
    requires Steps(states, events) && states[0] == Started(ts) && k < |states|
    requires states[k].initiated && !states[k].cancelled
    ensures var s' := SubmitAll(ProcessAll(SubmitAll(states[k])));
            s'.initiated && !s'.cancelled && s'.armed == Every(LastPeriod(ts, events, k))
  {
    assert Inv(Started(ts));
    StepsKeepInv(states, events, k);
    PeriodIsLast(ts, states, events, k);
    Settles(states[k]);
  }

  /** The other failing run: nothing waits when the cancellation is queued, but the timeout ticks without
      `F_MORE` before the removal is submitted. */
  lemma CancelLostBeforeSubmission()
    ensures var armed := Submit(Started(3));
            && armed.cq == [] && Owed(QueueCancel(armed))
            && var ticked := Elapse(QueueCancel(armed), false);
            SubmitAll(ProcessAll(SubmitAll(ticked))) == Timer(3, true, true, [], Every(3), [])
  {
    var s0 := Started(3);
    assert s0.sq[1..] == [];
    var s1 := Submit(s0);
    var s2 := QueueCancel(s1);
    assert s2.sq == [Remove] && s2.sq[1..] == [] && Remove in s2.sq;
    var s3 := Elapse(s2, false);
    var s4 := Submit(s3);
    assert s4.cq == [Tick(false)] && s4.cq[1..] == [];
    assert SubmitAll(s3) == SubmitAll(s4) == s4;
    var s5 := Process(s4);
    assert s5.sq == [Arm] && s5.sq[1..] == [];
    assert ProcessAll(s4) == ProcessAll(s5) == s5;
    var s6 := Submit(s5);
    assert SubmitAll(s5) == SubmitAll(s6) == s6;
  }

  // ----------------------------------------------------------------- the object

  class TimeoutFrame {
    var ts: int
    var initiated: bool
    var cancelled: bool
    var sq: seq<Sqe>
    ghost var armed: Kernel
    ghost var cq: seq<Cqe>

    ghost function State(): Timer
      reads this
    {
      Timer(ts, initiated, cancelled, sq, armed, cq)
    }

    constructor (period: int)
      ensures State() == Started(period)
    {
      ts, initiated, cancelled, sq, armed, cq := period, true, false, [Arm], Idle, [];
    }

    method SetPeriod(period: int)
      modifies this
      ensures State() == Adjust(old(State()), period)
      ensures ts == period && sq == old(sq) + [Remove] && initiated == old(initiated) && cancelled == old(cancelled)
    {
      ts := period;
      sq := sq + [Remove];
    }

    method QueueTimerCancel()
      modifies this
      ensures State() == QueueCancel(old(State()))
      ensures ts == old(ts) && initiated == old(initiated)
      ensures if old(initiated) then cancelled && sq == old(sq) + [Remove] else cancelled == old(cancelled) && sq == old(sq)
    {
      if !initiated {
        return;
      }
      cancelled := true;
      sq := sq + [Remove];
    }

    method AwaitProcessCqe(cqe: Cqe)
      requires cq != [] && cqe == cq[0]
      modifies this
      ensures State() == Process(old(State()))
      ensures ts == old(ts)
      ensures cqe == Cancelled && old(cancelled) ==> !initiated && !cancelled && sq == old(sq)
      ensures (cqe == Cancelled && !old(cancelled)) || cqe == Tick(false) ==>
        initiated && cancelled == old(cancelled) && sq == old(sq) + [Arm]
      ensures cqe == Tick(true) ==> initiated == old(initiated) && cancelled == old(cancelled) && sq == old(sq)
    {
      cq := cq[1..];
      var isClosing := cqe.Cancelled? && cancelled;
      if isClosing {
        initiated := false;
        cancelled := false;
        return;
      }
      if cqe.Cancelled? {
        sq := sq + [Arm];
        initiated := true;
        return;
      }
      if !cqe.more {
        sq := sq + [Arm];
        initiated := true;
      }
    }
  }
}
