/** A run in which `await_resume` leaves its replenishing loop early (src/tcp.cpp:1054-1056): a buffer is
    recycled between the completion and the resumption of the reader, and takes the id. */
module RecvEarlyBreak {
  import opened KernelRings
  import opened RecvModel
  import opened RecvPipeline
  import opened RecvTheorems
  import opened RecvConservation

  const FULL := Ring([Slot(0, 1)], [], [Entry(0, 1, 0)], 1)
  const IDLE := NEW_STREAM.(frame := NEW_FRAME.(group := Some(0)))
  const WAITING := IDLE.(
    frame := Frame([], None, Some(7), 0, Some(0), true, false), armed := true, reader := Asleep(7), suspensions := 1)
  const FILLED := WAITING.(posted := [DataCqe(0, 1, true)], received := [[65]])
  const PENDING := FILLED.(
    frame := Frame([Buf(0, 1, 1)], None, None, 0, Some(0), true, false), posted := [], reader := Collected(7))
  const DONE := PENDING.(
    frame := Frame([], None, None, 0, Some(0), true, false), delivered := [[65]], reader := NoReader, resumptions := 1)

  const POPPED := Ring([NO_BUFFER], [0], [], 1)
  const RECYCLED := Ring([Slot(1, 1)], [], [Entry(1, 1, 0)], 1)

  const S1 := Sys([FULL], [], map[], map[0 := InSlot(0, 0)], 1)
  const S2 := S1.(streams := [NEW_STREAM])
  const S3 := S1.(streams := [IDLE])
  const S4 := S1.(streams := [WAITING])
  const S5 := Sys([FULL.(kernel := [])], [FILLED], map[0 := [65]], map[0 := InSlot(0, 0)], 1)
  const S6 := Sys([POPPED], [PENDING], map[0 := [65]], map[0 := Pending(0, 0)], 1)
  const S7 := S6.(owner := map[0 := Pending(0, 0), 1 := User], next := 2)
  const S8 := Sys([RECYCLED], [PENDING], map[0 := [65]], map[0 := Pending(0, 0), 1 := InSlot(0, 0)], 2)
  const S9 := Sys([RECYCLED], [DONE], map[0 := [65]], map[0 := User, 1 := InSlot(0, 0)], 2)

  ghost predicate Follows(sys: Sys, e: Event, sys': Sys) {
    Enabled(sys, e) && (Inv(sys) ==> sys' == Apply(sys, e))
  }

  lemma BreakRegister()
    ensures Follows(START, RegisterRing(1, 1), S1)
  {
    var s1 := Register(START, 1, 1);
    assert NewRing(1, 1, 0).slots == [Slot(0, 1)] && NewRing(1, 1, 0).kernel == [Entry(0, 1, 0)];
    assert s1.rings == S1.rings && s1.owner == S1.owner;
  }

  lemma BreakNewStream()
    ensures Follows(S1, NewStream, S2) && Follows(S2, SetGroup(0, 0), S3)
  {
    assert S1.streams + [NEW_STREAM] == S2.streams;
    assert ChangeGroup(S2, 0, 0).streams == S3.streams;
  }

  lemma BreakAwait()
    ensures Follows(S3, Await(0, 7), S4)
  {
    var (f, suspension) := AwaitSuspend(IDLE.frame, 7);
    assert suspension == Suspended && FallAsleep(IDLE, f, 7) == WAITING;
    assert Put(S3, 0, WAITING).streams == S4.streams;
  }

  lemma BreakFill()
    ensures Follows(S4, KernelData(0, [65], true), S5)
  {
    var s5 := Fill(S4, 0, [65], true);
    assert S4.streams[0] == WAITING && S4.rings[0] == FULL && FULL.kernel[1..] == [];
    assert WAITING.posted + [DataCqe(0, 1, true)] == FILLED.posted && WAITING.received + [[65]] == FILLED.received;
    assert s5.streams == S5.streams && s5.rings == S5.rings && s5.mem == S5.mem;
  }

  lemma BreakComplete()
    ensures Follows(S5, Complete(0), S6)
  {
    var s6 := CompleteData(S5, 0);
    assert S5.streams[0] == FILLED && S5.rings[0] == FULL.(kernel := []);
    assert FILLED.posted[1..] == [] && TakeData(FILLED, Slot(0, 1)).frame.buffers == [Buf(0, 1, 1)];
    assert S5.rings[0].Take(0).slots == [NO_BUFFER] && S5.rings[0].Take(0).stack == [0];
    assert s6.streams == S6.streams && s6.rings == S6.rings && s6.owner == S6.owner;
  }

  lemma BreakAllocate()
    ensures Follows(S6, Allocate, S7)
  {
    assert S6.owner[1 := User] == S7.owner;
  }

  lemma BreakRecycle()
    ensures Follows(S7, Recycle(0, 1, 1), S8)
  {
    assert S7.rings[0] == POPPED && POPPED.stack[..0] == [];
    assert POPPED.Provide(1, 1).slots == RECYCLED.slots && POPPED.Provide(1, 1).kernel == RECYCLED.kernel;
    var s8 := ProvideAt(S7, 0, 1, 1, 2);
    assert s8.rings == S8.rings && s8.owner == S8.owner;
  }

  lemma BreakCounts()
    ensures DataCount(PENDING.frame.buffers) == 1 && Chunks(PENDING.frame.buffers, 1, S8.mem) == [[65]]
    ensures PENDING.frame.LeadingData() == 1
  {
    var bufs := PENDING.frame.buffers;
    assert bufs == [Buf(0, 1, 1)];
    assert Chunks(bufs, 0, S8.mem) == [] && PENDING.frame.LeadingData(1) == 0;
  }

  lemma BreakDeliver()
    ensures Deliver(WakeUp(PENDING), S8.mem) == DONE
    ensures PENDING.frame.LeadingData() == 1 && Replenished(PENDING.frame, RECYCLED) == 0
  {
    BreakCounts();
    var st := WakeUp(PENDING);
    assert st.frame == PENDING.frame && st.delivered == [];
    assert Deliver(st, S8.mem).delivered == [] + [[65]] == DONE.delivered;
  }

  lemma BreakResume()
    ensures Follows(S8, Resume(0), S9)
  {
    BreakDeliver();
    var s := Put(S8, 0, WakeUp(PENDING));
    assert S8.streams[0] == PENDING && s.streams == [WakeUp(PENDING)];
    var d := HandOver(s, 0);
    assert d.streams == S9.streams && d.owner == S9.owner;
    assert ProvideRun(d, 0, 0) == d;
  }

  lemma RunAppend(states: seq<Sys>, events: seq<Event>, e: Event, sys: Sys)
    requires Run(states, events) && Follows(states[|events|], e, sys)
    ensures Run(states + [sys], events + [e])
  {
    var states', events' := states + [sys], events + [e];
    forall i | 0 <= i < |events'|
      ensures Enabled(states'[i], events'[i]) && (Inv(states'[i]) ==> states'[i + 1] == Apply(states'[i], events'[i]))
    {
      if i < |events| {
        assert states'[i] == states[i] && states'[i + 1] == states[i + 1] && events'[i] == events[i];
      }
    }
  }

  /** Some run ends in this state. */
  ghost predicate Reachable(sys: Sys) {
    exists states, events :: Run(states, events) && states[|events|] == sys
  }

  lemma ReachableStep(sys: Sys, e: Event, sys': Sys)
    requires Reachable(sys) && Follows(sys, e, sys')
    ensures Reachable(sys')
  {
    var states, events :| Run(states, events) && states[|events|] == sys;
    RunAppend(states, events, e, sys');
    assert (states + [sys'])[|events + [e]|] == sys';
  }

  lemma ReachableHasInv(sys: Sys)
    requires Reachable(sys)
    ensures Inv(sys)
  {
    var states, events :| Run(states, events) && states[|events|] == sys;
    RunKeepsInv(states, events, |events|);
  }

  lemma BreakIsSetUp()
    ensures Reachable(S4)
  {
    assert Run([START], []) && [START][0] == START;
    BreakRegister();
    ReachableStep(START, RegisterRing(1, 1), S1);
    BreakNewStream();
    ReachableStep(S1, NewStream, S2);
    ReachableStep(S2, SetGroup(0, 0), S3);
    BreakAwait();
    ReachableStep(S3, Await(0, 7), S4);
  }

  lemma BreakIsReached()
    ensures Reachable(S8)
  {
    BreakIsSetUp();
    BreakFill();
    ReachableStep(S4, KernelData(0, [65], true), S5);
    BreakComplete();
    ReachableStep(S5, Complete(0), S6);
    BreakAllocate();
    ReachableStep(S6, Allocate, S7);
    BreakRecycle();
    ReachableStep(S7, Recycle(0, 1, 1), S8);
  }

  /** The early break is taken: a recycled buffer has taken the id of a pending one, and when the pending
      buffer is delivered no kernel buffer is restored. */
  lemma EarlyBreakTaken()
    ensures Reachable(S8) && Inv(S8) && Enabled(S8, Resume(0)) && Delivers(S8, Resume(0), 0)
    ensures DataCount(S8.streams[0].frame.buffers) == 1
    ensures Apply(S8, Resume(0)).rings == S8.rings && Apply(S8, Resume(0)).streams == [DONE] && DONE.delivered == [[65]]
  {
    BreakIsReached();
    ReachableHasInv(S8);
    BreakResume();
  }
}
