/** Replenishment: how many buffers `await_resume` gives back to the kernel. */
module RecvConservation {
  import opened KernelRings
  import opened RecvModel
  import opened RecvPipeline
  import opened RecvSafety
  import opened RecvTheorems

  /** Undelivered data buffers of the streams in buffer group `g`. */
  function Held(st: Stream, g: nat): nat {
    if st.frame.group == Some(g) then DataCount(st.frame.buffers) else 0
  }

  function Undelivered(streams: seq<Stream>, g: nat, n: nat): nat
    requires n <= |streams|
  {
    if n == 0 then 0 else Undelivered(streams, g, n - 1) + Held(streams[n - 1], g)
  }

  /** Every free id of ring g stands for one undelivered buffer, or for one of `dropped[g]` buffers that
      were freed with their stream. */
  ghost predicate Conserved(sys: Sys, dropped: seq<nat>) {
    && |dropped| == |sys.rings|
    && forall g :: 0 <= g < |sys.rings| ==> |sys.rings[g].stack| == Undelivered(sys.streams, g, |sys.streams|) + dropped[g]
  }

  /** What an event adds to the dropped buffers. */
  function Drops(sys: Sys, e: Event, dropped: seq<nat>): seq<nat> {
    match e
    case RegisterRing(_, _) => dropped + [0]
    case DestroyStream(s) =>
      if s < |sys.streams| && sys.streams[s].frame.group.Some? && sys.streams[s].frame.group.value < |dropped|
      then
        var g := sys.streams[s].frame.group.value;
        dropped[g := dropped[g] + DataCount(sys.streams[s].frame.buffers)]
      else dropped
    case _ => dropped
  }

  function DroppedSoFar(states: seq<Sys>, events: seq<Event>, i: nat): seq<nat>
    requires i <= |events| && i < |states|
  {
    if i == 0 then [] else Drops(states[i - 1], events[i - 1], DroppedSoFar(states, events, i - 1))
  }

  lemma {:induction false} UndeliveredUpdate(streams: seq<Stream>, s: nat, st: Stream, g: nat, n: nat)
    requires s < |streams| && n <= |streams|
    ensures Undelivered(streams[s := st], g, n)
         == Undelivered(streams, g, n) + (if s < n then Held(st, g) - Held(streams[s], g) else 0)
  {
    if n > 0 {
      UndeliveredUpdate(streams, s, st, g, n - 1);
    }
  }

  lemma {:induction false} UndeliveredPrefix(streams: seq<Stream>, st: Stream, g: nat, n: nat)
    requires n <= |streams|
    ensures Undelivered(streams + [st], g, n) == Undelivered(streams, g, n)
  {
    if n > 0 {
      UndeliveredPrefix(streams, st, g, n - 1);
    }
  }

  lemma {:induction false} UndeliveredBound(streams: seq<Stream>, s: nat, g: nat, n: nat)
    requires s < n <= |streams|
    ensures Held(streams[s], g) <= Undelivered(streams, g, n)
  {
    if s < n - 1 {
      UndeliveredBound(streams, s, g, n - 1);
    }
  }

  lemma {:induction false} NoneUndelivered(streams: seq<Stream>, g: nat, n: nat)
    requires n <= |streams| && forall s :: 0 <= s < n ==> Held(streams[s], g) == 0
    ensures Undelivered(streams, g, n) == 0
  {
    if n > 0 {
      NoneUndelivered(streams, g, n - 1);
    }
  }

  /** The loop of `await_resume` counts exactly the data buffers. */
  lemma {:induction false} LeadingIsDataCount(f: Frame, i: nat)
    requires i <= DataCount(f.buffers)
    requires forall k :: 0 <= k < |f.buffers| - 1 ==> f.buffers[k].size > 0
    ensures f.LeadingData(i) == DataCount(f.buffers) - i
    decreases |f.buffers| - i
  {
    if i < DataCount(f.buffers) {
      LeadingIsDataCount(f, i + 1);
    }
  }

  // ----------------------------------------------------------- what one call restores

  lemma {:induction false} ProvideRunGrows(sys: Sys, g: nat, k: nat, h: nat)
    requires g < |sys.rings| && h < |sys.rings| && sys.rings[g].Indexed() && k <= |sys.rings[g].stack|
    ensures var r, r' := sys.rings[h], ProvideRun(sys, g, k).rings[h];
            && |r'.kernel| == |r.kernel| + (if g == h then k else 0)
            && |r'.stack| == |r.stack| - (if g == h then k else 0)
    decreases k
  {
    if k > 0 {
      ProvideRunGrows(sys, g, k - 1, h);
    }
  }

  /** `await_resume` restores as many kernel buffers as it delivers exactly when the free stack of the
      current group has an id for each of them; otherwise it takes the early break, restores what the
      stack allows and leaves the stack empty. */
  lemma RestoredIffIdsFree(sys: Sys, s: nat)
    requires RingsOk(sys) && s < |sys.streams| && sys.streams[s].frame.buffers != []
    requires StreamOk(sys.streams[s], |sys.rings|)
    ensures sys.streams[s].frame.group.Some? && sys.streams[s].frame.group.value < |sys.rings|
    ensures var n, g := DataCount(sys.streams[s].frame.buffers), sys.streams[s].frame.group.value;
            var r, r' := sys.rings[g], AwaitResume(sys, s).rings[g];
            && (|r'.kernel| == |r.kernel| + n <==> |r.stack| >= n)
            && (|r.stack| < n ==> |r'.kernel| == |r.kernel| + |r.stack| && r'.stack == [])
  {
    var st := sys.streams[s];
    assert StreamOk(st, |sys.rings|);
    var g := st.frame.group.value;
    assert RingOk(sys.rings[g]);
    LeadingIsDataCount(st.frame, 0);
    ProvideRunGrows(HandOver(sys, s), g, Replenished(st.frame, sys.rings[g]), g);
  }

  // -------------------------------------------------------------- over whole runs

  /** Nobody recycles, and a stream's group changes only while it has no undelivered data. */
  ghost predicate Steady(sys: Sys, e: Event) {
    match e
    case Recycle(_, _, _) => false
    case SetGroup(s, g) =>
      s < |sys.streams| && (var f := sys.streams[s].frame;
        f.initiated || f.group == Some(g) || DataCount(f.buffers) == 0)
    case _ => true
  }

  lemma PutConserves(sys: Sys, s: nat, st: Stream, dropped: seq<nat>)
    requires Conserved(sys, dropped) && s < |sys.streams|
    requires forall g :: 0 <= g < |sys.rings| ==> Held(st, g) == Held(sys.streams[s], g)
    ensures Conserved(Put(sys, s, st), dropped)
  {
    forall g | 0 <= g < |sys.rings|
      ensures |sys.rings[g].stack| == Undelivered(sys.streams[s := st], g, |sys.streams|) + dropped[g]
    {
      UndeliveredUpdate(sys.streams, s, st, g, |sys.streams|);
    }
  }

  /** Delivering the data buffers of a stream and popping one id for each. */
  lemma DeliveryConserves(sys: Sys, s: nat, g: nat, dropped: seq<nat>)
    requires Conserved(sys, dropped) && s < |sys.streams| && g < |sys.rings| && sys.rings[g].Indexed()
    requires sys.streams[s].frame.group == Some(g)
    ensures DataCount(sys.streams[s].frame.buffers) <= |sys.rings[g].stack|
    ensures Conserved(ProvideRun(HandOver(sys, s), g, DataCount(sys.streams[s].frame.buffers)), dropped)
  {
    var st := sys.streams[s];
    var k, st' := DataCount(st.frame.buffers), Deliver(st, sys.mem);
    UndeliveredBound(sys.streams, s, g, |sys.streams|);
    forall h | 0 <= h < |sys.rings|
      ensures |ProvideRun(HandOver(sys, s), g, k).rings[h].stack| == Undelivered(sys.streams[s := st'], h, |sys.streams|) + dropped[h]
    {
      UndeliveredUpdate(sys.streams, s, st', h, |sys.streams|);
      ProvideRunGrows(HandOver(sys, s), g, k, h);
    }
  }

  lemma AwaitResumeConserves(sys: Sys, s: nat, dropped: seq<nat>)
    requires Inv(sys) && Conserved(sys, dropped) && s < |sys.streams| && sys.streams[s].reader.NoReader?
    ensures CanReplenish(sys, sys.streams[s].frame) && Conserved(AwaitResume(sys, s), dropped)
  {
    var st := sys.streams[s];
    assert StreamOk(st, |sys.rings|);
    if st.frame.buffers == [] {
      PutConserves(sys, s, Report(st), dropped);
    } else {
      var g := st.frame.group.value;
      assert RingOk(sys.rings[g]);
      LeadingIsDataCount(st.frame, 0);
      DeliveryConserves(sys, s, g, dropped);
    }
  }

  lemma AwaitRecvConserves(sys: Sys, s: nat, h: nat, dropped: seq<nat>)
    requires Inv(sys) && Conserved(sys, dropped) && s < |sys.streams| && sys.streams[s].reader.NoReader?
    ensures Conserved(AwaitRecv(sys, s, h), dropped)
  {
    var st := sys.streams[s];
    if AwaitReady(st.frame) {
      AwaitResumeConserves(sys, s, dropped);
    } else {
      var (f, suspension) := AwaitSuspend(st.frame, h);
      match suspension {
        case Ready =>
          PutConserves(sys, s, st.(frame := f), dropped);
          AwaitReadyStep(sys, s, h);
          AwaitResumeConserves(Put(sys, s, st.(frame := f)), s, dropped);
        case Throws => PutConserves(sys, s, st.(frame := f), dropped);
        case Suspended => PutConserves(sys, s, FallAsleep(st, f, h), dropped);
      }
    }
  }

  /** With an error pending `await_suspend` only stores the handle. */
  lemma AwaitReadyStep(sys: Sys, s: nat, h: nat)
    requires Inv(sys) && s < |sys.streams| && sys.streams[s].reader.NoReader?
    requires sys.streams[s].frame.ec.Some? && sys.streams[s].frame.buffers == []
    ensures Inv(Put(sys, s, sys.streams[s].(frame := AwaitSuspend(sys.streams[s].frame, h).0)))
  {
    var st := sys.streams[s];
    assert StreamOk(st, |sys.rings|) && Refines(st, RingOf(sys.rings, st), sys.mem);
    PutKeepsInv(sys, s, st.(frame := AwaitSuspend(st.frame, h).0));
  }

  lemma CompleteDataConserves(sys: Sys, s: nat, dropped: seq<nat>)
    requires Inv(sys) && Conserved(sys, dropped) && s < |sys.streams| && sys.streams[s].posted != []
    ensures sys.streams[s].frame.ring < |sys.rings|
    ensures sys.streams[s].posted[0].bid < |sys.rings[sys.streams[s].frame.ring].slots|
    ensures Conserved(CompleteData(sys, s), dropped)
  {
    var st := sys.streams[s];
    assert StreamOk(st, |sys.rings|) && Refines(st, RingOf(sys.rings, st), sys.mem);
    var sys' := CompleteData(sys, s);
    forall g | 0 <= g < |sys'.rings|
      ensures |sys'.rings[g].stack| == Undelivered(sys'.streams, g, |sys'.streams|) + dropped[g]
    {
      UndeliveredUpdate(sys.streams, s, sys'.streams[s], g, |sys.streams|);
    }
  }

  lemma RegisterConserves(sys: Sys, n: nat, bufSize: nat, dropped: seq<nat>)
    requires Inv(sys) && Conserved(sys, dropped)
    ensures Conserved(Register(sys, n, bufSize), dropped + [0])
  {
    forall s | 0 <= s < |sys.streams| ensures Held(sys.streams[s], |sys.rings|) == 0 {
      assert StreamOk(sys.streams[s], |sys.rings|);
    }
    NoneUndelivered(sys.streams, |sys.rings|, |sys.streams|);
  }

  lemma NewStreamConserves(sys: Sys, dropped: seq<nat>)
    requires Conserved(sys, dropped)
    ensures Conserved(sys.(streams := sys.streams + [NEW_STREAM]), dropped)
  {
    forall g | 0 <= g < |sys.rings|
      ensures |sys.rings[g].stack| == Undelivered(sys.streams + [NEW_STREAM], g, |sys.streams| + 1) + dropped[g]
    {
      UndeliveredPrefix(sys.streams, NEW_STREAM, g, |sys.streams|);
    }
  }

  /** The buffers that die with a stream leave their ids free. */
  lemma DestroyConserves(sys: Sys, s: nat, dropped: seq<nat>)
    requires Inv(sys) && Conserved(sys, dropped) && s < |sys.streams|
    ensures Conserved(Destroy(sys, s), Drops(sys, DestroyStream(s), dropped))
  {
    assert StreamOk(sys.streams[s], |sys.rings|);
    var dropped' := Drops(sys, DestroyStream(s), dropped);
    forall g | 0 <= g < |sys.rings|
      ensures |sys.rings[g].stack| == Undelivered(sys.streams[s := NEW_STREAM], g, |sys.streams|) + dropped'[g]
    {
      UndeliveredUpdate(sys.streams, s, NEW_STREAM, g, |sys.streams|);
    }
  }

  lemma ResumeConserves(sys: Sys, s: nat, dropped: seq<nat>)
    requires Inv(sys) && Conserved(sys, dropped) && s < |sys.streams| && sys.streams[s].reader.Collected?
    ensures Conserved(ResumeRecv(sys, s), dropped)
  {
    var st := sys.streams[s];
    assert StreamOk(st, |sys.rings|) && Refines(st, RingOf(sys.rings, st), sys.mem);
    PutKeepsInv(sys, s, WakeUp(st));
    PutConserves(sys, s, WakeUp(st), dropped);
    AwaitResumeConserves(Put(sys, s, WakeUp(st)), s, dropped);
  }

  lemma FillConserves(sys: Sys, s: nat, data: seq<Byte>, more: bool, dropped: seq<nat>)
    requires Inv(sys) && Conserved(sys, dropped) && Enabled(sys, KernelData(s, data, more))
    ensures Conserved(Fill(sys, s, data, more), dropped)
  {
    var st' := Fill(sys, s, data, more).streams[s];
    PutConserves(sys, s, st', dropped);
  }

  lemma TakeEndConserves(sys: Sys, s: nat, dropped: seq<nat>)
    requires Inv(sys) && Conserved(sys, dropped) && s < |sys.streams| && sys.streams[s].end.Some?
    ensures Conserved(Put(sys, s, TakeEnd(sys.streams[s])), dropped)
  {
    assert StreamOk(sys.streams[s], |sys.rings|);
    PutConserves(sys, s, TakeEnd(sys.streams[s]), dropped);
  }

  lemma ChangeGroupConserves(sys: Sys, s: nat, g: nat, dropped: seq<nat>)
    requires Conserved(sys, dropped) && Steady(sys, SetGroup(s, g))
    ensures Conserved(ChangeGroup(sys, s, g), dropped)
  {
    if !sys.streams[s].frame.initiated && g < |sys.rings| {
      PutConserves(sys, s, sys.streams[s].(frame := sys.streams[s].frame.(group := Some(g))), dropped);
    }
  }

  lemma StepConserves(sys: Sys, e: Event, dropped: seq<nat>)
    requires Inv(sys) && Conserved(sys, dropped) && Enabled(sys, e) && Steady(sys, e)
    ensures Conserved(Apply(sys, e), Drops(sys, e, dropped))
  {
    match e {
      case RegisterRing(n, bufSize) => RegisterConserves(sys, n, bufSize, dropped);
      case NewStream => NewStreamConserves(sys, dropped);
      case DestroyStream(s) => DestroyConserves(sys, s, dropped);
      case KernelData(s, data, more) => FillConserves(sys, s, data, more, dropped);
      case KernelEnd(s, res) => PutConserves(sys, s, sys.streams[s].(armed := false, end := Some(res)), dropped);
      case Complete(s) =>
        if sys.streams[s].posted != [] {
          CompleteDataConserves(sys, s, dropped);
        } else {
          TakeEndConserves(sys, s, dropped);
        }
      case Await(s, h) => AwaitRecvConserves(sys, s, h, dropped);
      case Resume(s) => ResumeConserves(sys, s, dropped);
      case SetGroup(s, g) => ChangeGroupConserves(sys, s, g, dropped);
      case Cancel(s) => PutConserves(sys, s, sys.streams[s].(frame := sys.streams[s].frame.(streamCancelled := true)), dropped);
      case Allocate =>
    }
  }

  /** In a steady run the free stack of a group holds exactly as many ids as its streams hold undelivered
      data buffers and as were dropped with destroyed streams, so by RestoredIffIdsFree the early break is
      never taken. */
  lemma {:induction false} SteadyRunConserves(states: seq<Sys>, events: seq<Event>, i: nat)
    requires Run(states, events) && i < |states|
    requires forall k :: 0 <= k < i ==> Steady(states[k], events[k])
    ensures Conserved(states[i], DroppedSoFar(states, events, i))
  {
    if i > 0 {
      RunKeepsInv(states, events, i - 1);
      SteadyRunConserves(states, events, i - 1);
      StepConserves(states[i - 1], events[i - 1], DroppedSoFar(states, events, i - 1));
    }
  }

  /** The reader gets what is pending: at once, or when it is resumed. */
  predicate Delivers(sys: Sys, e: Event, s: nat) {
    && s < |sys.streams| && sys.streams[s].frame.buffers != []
    && (e == Resume(s) || (e.Await? && e.s == s))
  }

  /** With enough free ids a delivery restores what it delivers. */
  lemma ConservedDeliveryRestores(sys: Sys, s: nat, dropped: seq<nat>)
    requires RingsOk(sys) && Conserved(sys, dropped) && s < |sys.streams| && sys.streams[s].frame.buffers != []
    requires StreamOk(sys.streams[s], |sys.rings|)
    ensures CanReplenish(sys, sys.streams[s].frame)
    ensures var sys', f := AwaitResume(sys, s), sys.streams[s].frame;
            && |sys'.rings| == |sys.rings| && |sys'.streams| == |sys.streams| && sys'.streams[s].frame.buffers == []
            && |sys'.rings[f.group.value].kernel| == |sys.rings[f.group.value].kernel| + DataCount(f.buffers)
  {
    RestoredIffIdsFree(sys, s);
    UndeliveredBound(sys.streams, s, sys.streams[s].frame.group.value, |sys.streams|);
  }

  lemma DeliveryStepRestores(sys: Sys, e: Event, s: nat, dropped: seq<nat>)
    requires Inv(sys) && Conserved(sys, dropped) && Enabled(sys, e) && Delivers(sys, e, s)
    ensures sys.streams[s].frame.group.Some? && sys.streams[s].frame.group.value < |sys.rings|
    ensures var sys', f := Apply(sys, e), sys.streams[s].frame;
            && |sys'.rings| == |sys.rings| && |sys'.streams| == |sys.streams| && sys'.streams[s].frame.buffers == []
            && |sys'.rings[f.group.value].kernel| == |sys.rings[f.group.value].kernel| + DataCount(f.buffers)
  {
    var st := sys.streams[s];
    assert StreamOk(st, |sys.rings|);
    if e.Await? {
      ConservedDeliveryRestores(sys, s, dropped);
    } else {
      PutConserves(sys, s, WakeUp(st), dropped);
      assert StreamOk(WakeUp(st), |sys.rings|);
      ConservedDeliveryRestores(Put(sys, s, WakeUp(st)), s, dropped);
    }
  }

  /** Each delivery of a steady run restores exactly what it delivers. */
  lemma SteadyDeliveryRestores(states: seq<Sys>, events: seq<Event>, i: nat, s: nat)
    requires Run(states, events) && i < |events| && Delivers(states[i], events[i], s)
    requires forall k :: 0 <= k < i ==> Steady(states[k], events[k])
    ensures var sys, sys', f := states[i], states[i + 1], states[i].streams[s].frame;
            && f.group.Some? && f.group.value < |sys.rings| == |sys'.rings|
            && s < |sys'.streams| && sys'.streams[s].frame.buffers == []
            && |sys'.rings[f.group.value].kernel| == |sys.rings[f.group.value].kernel| + DataCount(f.buffers)
  {
    RunKeepsInv(states, events, i);
    SteadyRunConserves(states, events, i);
    DeliveryStepRestores(states[i], events[i], s, DroppedSoFar(states, events, i));
  }
}
