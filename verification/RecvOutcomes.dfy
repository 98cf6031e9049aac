/** What the user of a stream gets to see: which error, how many ends of the stream, and what each await and
    each resumption gives (src/detail/stream_impl.hpp:384-431, src/tcp.cpp:702-721 and 998-1083).

    The references here are functions of the events of a run and of what the kernel posted, with the error
    numbers written out; they do not use the functions the steps are made of. */
module RecvOutcomes {
  import opened KernelRings
  import opened RecvModel
  import opened RecvPipeline
  import opened RecvSafety
  import opened RecvTheorems

  /** Stream s was cancelled by the user, with `async_cancel` or `async_close`, since it was created. */
  predicate CancelledSince(events: seq<Event>, s: nat, k: nat)
    requires k <= |events|
  {
    k > 0 && events[k - 1] != DestroyStream(s) && (events[k - 1] == Cancel(s) || CancelledSince(events, s, k - 1))
  }

  /** Event k ends the receive operation of stream s with this result. */
  predicate EndsWith(states: seq<Sys>, events: seq<Event>, s: nat, k: nat, res: int)
    requires k < |events| < |states|
  {
    && events[k] == Complete(s) && s < |states[k].streams|
    && states[k].streams[s].posted == [] && states[k].streams[s].end == Some(res)
  }

  /** The errors that stream s owes its user by the first k events: 110 if the kernel reported 125 and the
      user had not cancelled, and otherwise what the kernel reported. */
  function ErrorsOwed(states: seq<Sys>, events: seq<Event>, s: nat, k: nat): seq<int>
    requires k <= |events| < |states|
  {
    if k == 0 || events[k - 1] == DestroyStream(s) then []
    else
      var before := ErrorsOwed(states, events, s, k - 1);
      if s < |states[k - 1].streams| && states[k - 1].streams[s].end.Some? &&
         EndsWith(states, events, s, k - 1, states[k - 1].streams[s].end.value) && states[k - 1].streams[s].end.value < 0
      then
        var res := states[k - 1].streams[s].end.value;
        before + [if res == -125 && !CancelledSince(events, s, k - 1) then 110 else -res]
      else before
  }

  /** How often the kernel has reported the end of the stream. */
  function EndsSeen(states: seq<Sys>, events: seq<Event>, s: nat, k: nat): nat
    requires k <= |events| < |states|
  {
    if k == 0 || events[k - 1] == DestroyStream(s) then 0
    else EndsSeen(states, events, s, k - 1) + (if EndsWith(states, events, s, k - 1, 0) then 1 else 0)
  }

  /** Ends of the stream that were delivered or are pending. */
  function Marks(st: Stream): int {
    st.eofs + (|st.frame.buffers| - DataCount(st.frame.buffers))
  }

  // ---------------------------------------------------------------- one step

  /** What has come out of stream st so far. */
  datatype Outcome = Outcome(raised: seq<int>, marks: int, cancelled: bool)

  function Of(st: Stream): Outcome {
    Outcome(st.raised, Marks(st), st.frame.streamCancelled)
  }

  /** The operation of stream st ends with this result. */
  function Ended(o: Outcome, res: int): Outcome {
    if res == 0 then o.(marks := o.marks + 1)
    else o.(raised := o.raised + [if res == -125 && !o.cancelled then 110 else -res])
  }

  lemma DataOutcome(st: Stream, slot: Slot)
    requires st.posted != [] && st.posted[0].len > 0 && DataCount(st.frame.buffers) == |st.frame.buffers|
    ensures Of(TakeData(st, slot)) == Of(st)
  {
  }

  lemma EndOutcome(st: Stream)
    requires st.end.Some? && st.end.value <= 0 && DataCount(st.frame.buffers) == |st.frame.buffers| && st.frame.ec.None?
    ensures Of(TakeEnd(st)) == Ended(Of(st), st.end.value)
  {
  }

  lemma CompletionOutcome(sys: Sys, s: nat, t: nat)
    requires Inv(sys) && Enabled(sys, Complete(s)) && t < |sys.streams|
    ensures |Apply(sys, Complete(s)).streams| == |sys.streams|
    ensures var st, st' := sys.streams[t], Apply(sys, Complete(s)).streams[t];
            if t == s && st.posted == [] then st.end.Some? && Of(st') == Ended(Of(st), st.end.value) else Of(st') == Of(st)
  {
    var st := sys.streams[s];
    assert StreamOk(st, |sys.rings|) && Refines(st, RingOf(sys.rings, st), sys.mem);
    if st.posted != [] {
      DataOutcome(st, sys.rings[st.frame.ring].slots[st.posted[0].bid]);
    } else {
      EndOutcome(st);
    }
  }

  lemma CanDeliver(sys: Sys, s: nat)
    requires Inv(sys) && s < |sys.streams|
    ensures CanReplenish(sys, sys.streams[s].frame)
  {
    assert StreamOk(sys.streams[s], |sys.rings|);
    assert sys.streams[s].frame.buffers != [] ==> RingOk(sys.rings[sys.streams[s].frame.group.value]);
  }

  lemma DeliveryChangesOne(sys: Sys, s: nat)
    requires s < |sys.streams| && CanReplenish(sys, sys.streams[s].frame)
    ensures var st := sys.streams[s];
            AwaitResume(sys, s).streams ==
              sys.streams[s := if st.frame.buffers == [] then Report(st) else Deliver(st, sys.mem)]
  {
  }

  lemma DeliveryOutcome(st: Stream, mem: map<nat, seq<Byte>>)
    ensures Of(Report(st)) == Of(st) && Of(Deliver(st, mem)) == Of(st)
  {
  }

  lemma ResumeOutcome(sys: Sys, s: nat, t: nat)
    requires Inv(sys) && Enabled(sys, Resume(s)) && t < |sys.streams|
    ensures |Apply(sys, Resume(s)).streams| == |sys.streams| && Of(Apply(sys, Resume(s)).streams[t]) == Of(sys.streams[t])
  {
    var st := sys.streams[s];
    CanDeliver(sys, s);
    DeliveryChangesOne(Put(sys, s, WakeUp(st)), s);
    DeliveryOutcome(WakeUp(st), sys.mem);
  }

  /** The stream after an await of coroutine h. */
  function Awaited(st: Stream, h: nat, mem: map<nat, seq<Byte>>): Stream {
    var f := st.frame.(handle := Some(h));
    if st.frame.buffers != [] then Deliver(st, mem)
    else if f.ec.Some? then Report(st.(frame := f))
    else if f.initiated then FallAsleep(st, f, h)
    else if f.group.Some? then FallAsleep(st, f.(ring := f.group.value, initiated := true), h)
    else st.(frame := f)
  }

  lemma AwaitChangesOne(sys: Sys, s: nat, h: nat)
    requires Inv(sys) && Enabled(sys, Await(s, h))
    ensures Apply(sys, Await(s, h)).streams == sys.streams[s := Awaited(sys.streams[s], h, sys.mem)]
  {
    var st := sys.streams[s];
    CanDeliver(sys, s);
    if st.frame.buffers != [] {
      DeliveryChangesOne(sys, s);
    } else if st.frame.ec.Some? {
      DeliveryChangesOne(Put(sys, s, st.(frame := AwaitSuspend(st.frame, h).0)), s);
    }
  }

  lemma AwaitOutcome(sys: Sys, s: nat, h: nat, t: nat)
    requires Inv(sys) && Enabled(sys, Await(s, h)) && t < |sys.streams|
    ensures |Apply(sys, Await(s, h)).streams| == |sys.streams|
    ensures Of(Apply(sys, Await(s, h)).streams[t]) == Of(sys.streams[t])
  {
    AwaitChangesOne(sys, s, h);
    DeliveryOutcome(sys.streams[s], sys.mem);
  }

  lemma KernelOutcome(sys: Sys, e: Event, t: nat)
    requires Inv(sys) && Enabled(sys, e) && t < |sys.streams| && (e.KernelData? || e.KernelEnd?)
    ensures |Apply(sys, e).streams| == |sys.streams| && Of(Apply(sys, e).streams[t]) == Of(sys.streams[t])
  {
    assert StreamOk(sys.streams[e.s], |sys.rings|);
  }

  lemma OtherOutcome(sys: Sys, e: Event, t: nat)
    requires Inv(sys) && Enabled(sys, e) && t < |sys.streams|
    requires !e.Complete? && !e.Await? && !e.Resume? && !e.KernelData? && !e.KernelEnd?
    ensures |sys.streams| <= |Apply(sys, e).streams|
    ensures |Apply(sys, e).streams| == |sys.streams| + (if e.NewStream? then 1 else 0)
    ensures Of(Apply(sys, e).streams[t]) ==
      if e == DestroyStream(t) then Outcome([], 0, false)
      else if e == Cancel(t) then Of(sys.streams[t]).(cancelled := true) else Of(sys.streams[t])
  {
    if e.Recycle? {
      assert RingOk(sys.rings[e.g]);
    }
  }

  /** What every step does to what has come out of stream t. */
  lemma OutcomeAfterStep(sys: Sys, e: Event, t: nat)
    requires Inv(sys) && Enabled(sys, e) && t < |sys.streams|
    ensures |Apply(sys, e).streams| == |sys.streams| + (if e.NewStream? then 1 else 0)
    ensures var st := sys.streams[t];
            && (e == Complete(t) && st.posted == [] ==> st.end.Some? && st.end.value <= 0)
            && Of(Apply(sys, e).streams[t]) ==
                 if e == DestroyStream(t) then Outcome([], 0, false)
                 else if e == Cancel(t) then Of(st).(cancelled := true)
                 else if e == Complete(t) && st.posted == [] then Ended(Of(st), st.end.value)
                 else Of(st)
  {
    match e {
      case Complete(s) =>
        CompletionOutcome(sys, s, t);
        assert StreamOk(sys.streams[t], |sys.rings|);
      case Await(s, h) => AwaitOutcome(sys, s, h, t);
      case Resume(s) => ResumeOutcome(sys, s, t);
      case KernelData(_, _, _) => KernelOutcome(sys, e, t);
      case KernelEnd(_, _) => KernelOutcome(sys, e, t);
      case _ => OtherOutcome(sys, e, t);
    }
  }

  /** A step creates at most one stream, out of which nothing has come. */
  lemma CreatedStream(sys: Sys, e: Event)
    requires Inv(sys) && Enabled(sys, e)
    ensures |Apply(sys, e).streams| == |sys.streams| + (if e.NewStream? then 1 else 0)
    ensures e.NewStream? ==> Of(Apply(sys, e).streams[|sys.streams|]) == Outcome([], 0, false)
  {
    if |sys.streams| > 0 {
      OutcomeAfterStep(sys, e, 0);
    }
  }

  // --------------------------------------------------------------- whole runs

  /** What ought to have come out, by the events alone. */
  function Owed(states: seq<Sys>, events: seq<Event>, s: nat, k: nat): Outcome
    requires k <= |events| < |states|
  {
    Outcome(ErrorsOwed(states, events, s, k), EndsSeen(states, events, s, k), CancelledSince(events, s, k))
  }

  lemma OwedAfterStep(states: seq<Sys>, events: seq<Event>, s: nat, k: nat)
    requires 0 < k <= |events| < |states| && s < |states[k - 1].streams|
    requires var st := states[k - 1].streams[s];
             events[k - 1] == Complete(s) && st.posted == [] ==> st.end.Some? && st.end.value <= 0
    ensures var o, st, e := Owed(states, events, s, k - 1), states[k - 1].streams[s], events[k - 1];
            Owed(states, events, s, k) ==
              if e == DestroyStream(s) then Outcome([], 0, false)
              else if e == Cancel(s) then o.(cancelled := true)
              else if e == Complete(s) && st.posted == [] then Ended(o, st.end.value)
              else o
  {
  }

  lemma {:induction false} NothingBeforeCreation(states: seq<Sys>, events: seq<Event>, s: nat, k: nat)
    requires Run(states, events) && k < |states| && s >= |states[k].streams|
    ensures Owed(states, events, s, k) == Outcome([], 0, false)
  {
    if k > 0 {
      RunKeepsInv(states, events, k - 1);
      CreatedStream(states[k - 1], events[k - 1]);
      NothingBeforeCreation(states, events, s, k - 1);
      NothingOwedYet(states, events, s, k);
    }
  }

  lemma NothingOwedYet(states: seq<Sys>, events: seq<Event>, s: nat, k: nat)
    requires 0 < k <= |events| < |states| && s >= |states[k - 1].streams| && Enabled(states[k - 1], events[k - 1])
    ensures Owed(states, events, s, k) == Owed(states, events, s, k - 1)
  {
  }

  /** In every run, for every stream: the errors raised are exactly those owed, in order; the ends of the
      stream that were delivered or are pending are as many as the kernel reported. */
  lemma {:induction false} OutcomesAreOwed(states: seq<Sys>, events: seq<Event>, s: nat, k: nat)
    requires Run(states, events) && k < |states| && s < |states[k].streams|
    ensures Of(states[k].streams[s]) == Owed(states, events, s, k)
  {
    var sys, e := states[k - 1], events[k - 1];
    RunKeepsInv(states, events, k - 1);
    CreatedStream(sys, e);
    if s >= |sys.streams| {
      NothingBeforeCreation(states, events, s, k - 1);
      NothingOwedYet(states, events, s, k);
    } else {
      OutcomesAreOwed(states, events, s, k - 1);
      OutcomeAfterStep(sys, e, s);
      OwedAfterStep(states, events, s, k);
    }
  }

  /** In every run: what was reported to the user, followed by the error that is pending, is what is owed:
      110 for a result of -125 without a cancellation by the user, and otherwise the kernel's error. */
  lemma ErrorsReported(states: seq<Sys>, events: seq<Event>, s: nat, k: nat)
    requires Run(states, events) && k < |states| && s < |states[k].streams|
    ensures var st := states[k].streams[s];
            && ErrorsOwed(states, events, s, k) == st.reported + (if st.frame.ec.Some? then [st.frame.ec.value] else [])
            && EndsSeen(states, events, s, k) == st.eofs + (|st.frame.buffers| - DataCount(st.frame.buffers))
  {
    OutcomesAreOwed(states, events, s, k);
    RunKeepsInv(states, events, k);
    assert StreamOk(states[k].streams[s], |states[k].rings|);
  }

  // --------------------------------------------------- what one await gives

  /** What `co_await async_recv()` of coroutine h does to the stream. */
  lemma AwaitGives(sys: Sys, s: nat, h: nat)
    requires Inv(sys) && Enabled(sys, Await(s, h))
    ensures |Apply(sys, Await(s, h)).streams| == |sys.streams|
    ensures var st, st', f := sys.streams[s], Apply(sys, Await(s, h)).streams[s], sys.streams[s].frame;
            if f.buffers != [] then
              st'.frame.buffers == [] && st'.reported == st.reported && st'.reader.NoReader?
              && st'.delivered == st.delivered + Chunks(f.buffers, DataCount(f.buffers), sys.mem)
            else if f.ec.Some? then
              st'.frame.ec.None? && st'.reported == st.reported + [f.ec.value] && st'.reader.NoReader? && st'.delivered == st.delivered
            else if f.initiated || f.group.Some? then
              && st'.reader == Asleep(h) && st'.frame.initiated && st'.suspensions == st.suspensions + 1
              && st'.armed == (st.armed || !f.initiated) && (!f.initiated ==> st'.frame.ring == f.group.value)
              && st'.reported == st.reported && st'.delivered == st.delivered
            else st' == st.(frame := f.(handle := Some(h)))
  {
    AwaitChangesOne(sys, s, h);
  }

  /** What a resumed coroutine gets. */
  lemma ResumeGives(sys: Sys, s: nat)
    requires Inv(sys) && Enabled(sys, Resume(s))
    ensures |Apply(sys, Resume(s)).streams| == |sys.streams|
    ensures var st, st', f := sys.streams[s], Apply(sys, Resume(s)).streams[s], sys.streams[s].frame;
            && st'.reader.NoReader? && st'.resumptions == st.resumptions + 1
            && if f.buffers != [] then
                 st'.frame.buffers == [] && st'.reported == st.reported
                 && st'.delivered == st.delivered + Chunks(f.buffers, DataCount(f.buffers), sys.mem)
               else
                 f.ec.Some? && st'.frame.ec.None? && st'.reported == st.reported + [f.ec.value] && st'.delivered == st.delivered
  {
    var st := sys.streams[s];
    assert StreamOk(st, |sys.rings|);
    CanDeliver(sys, s);
    DeliveryChangesOne(Put(sys, s, WakeUp(st)), s);
  }

  /** `set_buffer_group` takes effect unless a receive is outstanding or the group is unknown; then it changes
      nothing. */
  lemma SetGroupGives(sys: Sys, s: nat, g: nat)
    requires Inv(sys) && Enabled(sys, SetGroup(s, g))
    ensures |Apply(sys, SetGroup(s, g)).streams| == |sys.streams|
    ensures var f, f' := sys.streams[s].frame, Apply(sys, SetGroup(s, g)).streams[s].frame;
            if f.initiated || g >= |sys.rings| then f' == f else f'.group == Some(g) && f' == f.(group := Some(g))
  {
  }
}
