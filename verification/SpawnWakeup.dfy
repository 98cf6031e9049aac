/** A spawned child and the coroutines that await it: `internal_promise_base`, its `final_awaitable` and
    `spawn_awaitable` (include/fiona/executor.hpp:412-479 and 524-574).

    No flag says that the child has ended; `await_suspend` infers it from the count of the child's frame,
    which is one for the map and one for each awaitable. Only one continuation is stored, and nothing
    refuses a second await, of the same awaitable or of a copy. */
module SpawnWakeup {

  datatype Outcome = Pending | Value | Error

  /** One `spawn_awaitable`. */
  datatype Awaitable = Awaitable(live: bool, awaited: bool)

  /** One `co_await` of awaitable `on`: whether the coroutine was suspended, how often it was resumed, and
      what its `await_resume` delivered. */
  datatype Wait = Wait(on: nat, suspended: bool, resumptions: nat, got: Outcome) {
    /** The coroutine is suspended. */
    predicate Asleep() {
      suspended && resumptions == 0
    }
  }

  /** The child. `waits` are all awaits so far; `continuation` is the one whose coroutine is stored in
      `continuation_`, or -1; `recorded` counts calls of the executor's `unhandled_exception`; `escaped`
      says that an exception has left `resume`, which ends the run. */
  datatype Child = Child(
    count: int,
    inMap: bool,
    outcome: Outcome,
    continuation: int,
    awaitables: seq<Awaitable>,
    waits: seq<Wait>,
    recorded: nat,
    escaped: bool)

  /** `executor::spawn`. */
  function Spawned(): Child {
    Child(2, true, Pending, -1, [Awaitable(true, false)], [], 0, false)
  }

  datatype Event =
    | Finish            // the child returns
    | Throw             // the child ends with an exception
    | Await(i: nat)     // a coroutine awaits awaitable i
    | Copy(i: nat)      // the awaitable is copied
    | Destroy(i: nat)   // ~spawn_awaitable

  /** Nobody is suspended on awaitable i. */
  predicate Free(s: Child, i: nat) {
    forall r :: 0 <= r < |s.waits| && s.waits[r].on == i ==> !s.waits[r].Asleep()
  }

  /** An awaitable outlives the coroutines that the child may still resume on it. */
  predicate Enabled(s: Child, e: Event) {
    && !s.escaped
    && s.continuation < |s.waits|
    && (s.continuation >= 0 ==> s.waits[s.continuation].on < |s.awaitables|)
    && match e
       case Finish => s.inMap
       case Throw => s.inMap
       case Await(i) => i < |s.awaitables| && s.awaitables[i].live
       case Copy(i) => i < |s.awaitables| && s.awaitables[i].live
       case Destroy(i) => i < |s.awaitables| && s.awaitables[i].live && (s.inMap ==> Free(s, i))
  }

  /** `await_resume` of await r. */
  function Resume(s: Child, r: nat): Child
    requires r < |s.waits| && s.waits[r].on < |s.awaitables|
  {
    var i := s.waits[r].on;
    s.(awaitables := s.awaitables[i := s.awaitables[i].(awaited := true)],
       waits := s.waits[r := s.waits[r].(got := s.outcome)])
  }

  /** `await_suspend` returns this. */
  predicate Suspends(s: Child) {
    s.count >= 2
  }

  /** `await_suspend`: the coroutine is stored before the test. */
  function Store(s: Child, i: nat): Child {
    s.(continuation := |s.waits|, waits := s.waits + [Wait(i, Suspends(s), 0, Pending)])
  }

  /** `final_awaitable::await_suspend`: the child leaves the map and control goes to the continuation. */
  function Leave(s: Child): Child
    requires s.continuation < |s.waits|
    requires s.continuation >= 0 ==> s.waits[s.continuation].on < |s.awaitables|
  {
    var s' := s.(inMap := false, count := s.count - 1);
    if s.continuation < 0 then s'
    else
      var c: nat := s.continuation;
      Resume(s'.(waits := s.waits[c := s.waits[c].(resumptions := s.waits[c].resumptions + 1)]), c)
  }

  function Apply(s: Child, e: Event): Child
    requires Enabled(s, e)
  {
    match e
    case Finish => Leave(s.(outcome := Value))
    case Throw => if s.count > 1 then Leave(s.(outcome := Error)) else s.(escaped := true)
    case Await(i) => if Suspends(s) then Store(s, i) else Resume(Store(s, i), |s.waits|)
    case Copy(i) => s.(count := s.count + 1, awaitables := s.awaitables + [s.awaitables[i]])
    case Destroy(i) =>
      var a := s.awaitables[i];
      s.(awaitables := s.awaitables[i := a.(live := false)],
         count := s.count - 1,
         recorded := s.recorded + if s.outcome == Error && !a.awaited then 1 else 0)
  }

  // -------------------------------------------------------------------- the count

  function Live(q: seq<Awaitable>, n: nat): nat
    requires n <= |q|
  {
    if n == 0 then 0 else Live(q, n - 1) + (if q[n - 1].live then 1 else 0)
  }

  lemma {:induction false} LiveUpdate(q: seq<Awaitable>, i: nat, a: Awaitable, n: nat)
    requires i < |q| && n <= |q|
    ensures Live(q[i := a], n) ==
      Live(q, n) + (if i < n then (if a.live then 1 else 0) - (if q[i].live then 1 else 0) else 0)
  {
    if n > 0 {
      LiveUpdate(q, i, a, n - 1);
    }
  }

  lemma {:induction false} LiveAppend(q: seq<Awaitable>, a: Awaitable, n: nat)
    requires n <= |q|
    ensures Live(q + [a], n) == Live(q, n)
  {
    if n > 0 {
      LiveAppend(q, a, n - 1);
    }
  }

  lemma {:induction false} LiveSome(q: seq<Awaitable>, i: nat, n: nat)
    requires i < n <= |q| && q[i].live
    ensures Live(q, n) > 0
  {
    if i < n - 1 {
      LiveSome(q, i, n - 1);
    }
  }

  /** While the child is in the map every await has suspended its coroutine and none is resumed; afterwards
      what was delivered is the outcome. */
  ghost predicate WaitOk(s: Child, r: nat)
    requires r < |s.waits|
  {
    var w := s.waits[r];
    && w.on < |s.awaitables|
    && w.resumptions <= (if w.suspended then 1 else 0)
    && (s.inMap ==> w.Asleep() && w.got == Pending && s.awaitables[w.on].live)
    && (!s.inMap ==> w.got == if w.Asleep() then Pending else s.outcome)
    && (w.got != Pending ==> s.awaitables[w.on].awaited)
  }

  ghost predicate Inv(s: Child) {
    && s.count == Live(s.awaitables, |s.awaitables|) + (if s.inMap then 1 else 0)
    && s.continuation == |s.waits| - 1
    && (s.inMap <==> s.outcome == Pending)
    && (s.escaped ==> s.inMap)
    && (s.inMap ==> s.recorded == 0)
    && (forall i :: 0 <= i < |s.awaitables| && s.awaitables[i].awaited ==> !s.inMap)
    && (forall r :: 0 <= r < |s.waits| ==> WaitOk(s, r))
  }

  lemma LeaveKeepsInv(s: Child, o: Outcome)
    requires Inv(s) && s.inMap && !s.escaped && o != Pending
    requires s.continuation >= 0 ==> s.waits[s.continuation].on < |s.awaitables|
    ensures Inv(Leave(s.(outcome := o)))
  {
    var s' := Leave(s.(outcome := o));
    forall r | 0 <= r < |s'.waits| ensures WaitOk(s', r) {
      assert WaitOk(s, r);
    }
    if s.continuation >= 0 {
      var i := s.waits[s.continuation].on;
      LiveUpdate(s.awaitables, i, s'.awaitables[i], |s.awaitables|);
    }
  }

  lemma AwaitKeepsInv(s: Child, i: nat)
    requires Inv(s) && Enabled(s, Await(i))
    ensures Inv(Apply(s, Await(i)))
  {
    var s' := Apply(s, Await(i));
    LiveUpdate(s.awaitables, i, s'.awaitables[i], |s.awaitables|);
    LiveSome(s.awaitables, i, |s.awaitables|);
    forall r | 0 <= r < |s'.waits| ensures WaitOk(s', r) {
      assert r < |s.waits| ==> WaitOk(s, r);
    }
  }

  lemma DestroyKeepsInv(s: Child, i: nat)
    requires Inv(s) && Enabled(s, Destroy(i))
    ensures Inv(Apply(s, Destroy(i)))
  {
    var s' := Apply(s, Destroy(i));
    LiveUpdate(s.awaitables, i, s'.awaitables[i], |s.awaitables|);
    forall r | 0 <= r < |s'.waits| ensures WaitOk(s', r) {
      assert WaitOk(s, r);
    }
  }

  lemma StepKeepsInv(s: Child, e: Event)
    requires Inv(s) && Enabled(s, e)
    ensures Inv(Apply(s, e))
  {
    var s' := Apply(s, e);
    match e {
      case Finish => LeaveKeepsInv(s, Value);
      case Throw =>
        if s.count > 1 {
          LeaveKeepsInv(s, Error);
        } else {
          forall r | 0 <= r < |s'.waits| ensures WaitOk(s', r) {
            assert WaitOk(s, r);
          }
        }
      case Await(i) => AwaitKeepsInv(s, i);
      case Copy(i) =>
        LiveAppend(s.awaitables, s.awaitables[i], |s.awaitables|);
        forall r | 0 <= r < |s'.waits| ensures WaitOk(s', r) {
          assert WaitOk(s, r);
        }
      case Destroy(i) => DestroyKeepsInv(s, i);
    }
  }

  ghost predicate Run(states: seq<Child>, events: seq<Event>) {
    && |states| == |events| + 1 && states[0] == Spawned()
    && forall k :: 0 <= k < |events| ==> Enabled(states[k], events[k]) && states[k + 1] == Apply(states[k], events[k])
  }

  lemma {:induction false} RunKeepsInv(states: seq<Child>, events: seq<Event>, k: nat)
    requires Run(states, events) && k < |states|
    ensures Inv(states[k])
  {
    if k > 0 {
      RunKeepsInv(states, events, k - 1);
      StepKeepsInv(states[k - 1], events[k - 1]);
    } else {
      assert Live(Spawned().awaitables, 0) == 0;
    }
  }

  // ----------------------------------------------------------------- one step

  /** `await_suspend` tells correctly whether the child has ended if and only if the child is still in the
      map or no second awaitable for it is alive. */
  lemma SuspendIsExact(s: Child, i: nat)
    requires Inv(s) && i < |s.awaitables| && s.awaitables[i].live
    ensures (Suspends(s) <==> s.inMap) <==> (s.inMap || Live(s.awaitables, |s.awaitables|) == 1)
  {
    LiveSome(s.awaitables, i, |s.awaitables|);
  }

  /** In every run, whatever is copied or shared: no coroutine is resumed twice or without having been
      suspended, and what it gets is the outcome of the child. */
  lemma NoDuplicateWakeup(states: seq<Child>, events: seq<Event>, k: nat, r: nat)
    requires Run(states, events) && k < |states| && r < |states[k].waits|
    ensures var w := states[k].waits[r];
            && w.resumptions <= (if w.suspended then 1 else 0)
            && (w.resumptions > 0 ==> w.got == states[k].outcome != Pending)
  {
    RunKeepsInv(states, events, k);
    assert WaitOk(states[k], r);
  }

  /** The exception escapes from `resume` exactly when no awaitable is alive; otherwise it is stored. */
  lemma EscapesIffNoAwaitable(s: Child)
    requires Inv(s) && Enabled(s, Throw)
    ensures Apply(s, Throw).escaped <==> forall i :: 0 <= i < |s.awaitables| ==> !s.awaitables[i].live
    ensures !Apply(s, Throw).escaped <==> Apply(s, Throw).outcome == Error && !Apply(s, Throw).inMap
  {
    if i :| 0 <= i < |s.awaitables| && s.awaitables[i].live {
      LiveSome(s.awaitables, i, |s.awaitables|);
    }
    LiveNone(s.awaitables, |s.awaitables|);
  }

  lemma {:induction false} LiveNone(q: seq<Awaitable>, n: nat)
    requires n <= |q|
    ensures (forall i :: 0 <= i < n ==> !q[i].live) ==> Live(q, n) == 0
  {
    if n > 0 {
      LiveNone(q, n - 1);
    }
  }

  // ------------------------------------------------- what the events alone say

  predicate SomeLive(q: seq<Awaitable>) {
    exists i :: 0 <= i < |q| && q[i].live
  }

  /** How the child has ended by event k: it returned, or threw while an awaitable was alive. */
  function Ending(states: seq<Child>, events: seq<Event>, k: nat): Outcome
    requires k <= |events| < |states|
  {
    if k == 0 then Pending
    else
      match events[k - 1]
      case Finish => Value
      case Throw => if SomeLive(states[k - 1].awaitables) then Error else Ending(states, events, k - 1)
      case _ => Ending(states, events, k - 1)
  }

  /** In every run the outcome, which everybody who awaits the child gets, is how the child ended. */
  lemma {:induction false} OutcomeIsEnding(states: seq<Child>, events: seq<Event>, k: nat)
    requires Run(states, events) && k < |states|
    ensures states[k].outcome == Ending(states, events, k)
  {
    if k > 0 {
      OutcomeIsEnding(states, events, k - 1);
      RunKeepsInv(states, events, k - 1);
      if events[k - 1].Throw? {
        EscapesIffNoAwaitable(states[k - 1]);
      }
    }
  }

  /** The await whose coroutine event e lets go on, or -1: one that finds the child ended, or the stored
      one when the child ends. */
  function GoesOn(s: Child, e: Event): int
    requires Enabled(s, e)
  {
    match e
    case Await(_) => if s.count < 2 then |s.waits| else -1
    case Finish => s.continuation
    case Throw => if s.count > 1 then s.continuation else -1
    case _ => -1
  }

  /** What a step does to awaitable i: it is marked once a coroutine has gone on behind an await of it, a
      copy inherits the mark, and a destroyed one records an error nobody was given. */
  lemma AwaitableAfterStep(s: Child, e: Event, i: nat)
    requires Inv(s) && Enabled(s, e) && i < |s.awaitables|
    ensures var s' := Apply(s, e); var r := GoesOn(s, e);
            && i < |s'.awaitables| && r < |s'.waits|
            && (s'.awaitables[i].awaited <==> s.awaitables[i].awaited || (r >= 0 && s'.waits[r].on == i))
            && (s'.awaitables[i].live <==> s.awaitables[i].live && e != Destroy(i))
            && (e == Copy(i) ==> s'.awaitables == s.awaitables + [Awaitable(true, s.awaitables[i].awaited)])
            && (e == Destroy(i) ==> s'.recorded == s.recorded + if s.outcome == Error && !s.awaitables[i].awaited then 1 else 0)
            && (!e.Destroy? ==> s'.recorded == s.recorded)
            && (r >= 0 ==> s'.waits[r].got == s'.outcome)
  {
  }

  // ------------------------------------------------------------- lost wakeups

  /** How many of the first k events are awaits: event m, if it is one, makes await `Awaits(events, m)`. */
  function Awaits(events: seq<Event>, k: nat): nat
    requires k <= |events|
  {
    if k == 0 then 0 else Awaits(events, k - 1) + (if events[k - 1].Await? then 1 else 0)
  }

  /** Behind event m and before event k something was awaited, by whomever, while the child was in the map. */
  predicate Overtaken(states: seq<Child>, events: seq<Event>, m: nat, k: nat)
    requires k <= |events| < |states|
  {
    && m + 1 < k
    && (Overtaken(states, events, m, k - 1) || (events[k - 1].Await? && states[k - 1].inMap))
  }

  lemma WaitsGrow(s: Child, e: Event)
    requires Enabled(s, e)
    ensures |Apply(s, e).waits| == |s.waits| + if e.Await? then 1 else 0
  {}

  lemma {:induction false} AwaitsAreWaits(states: seq<Child>, events: seq<Event>, k: nat)
    requires Run(states, events) && k < |states|
    ensures |states[k].waits| == Awaits(events, k)
  {
    if k > 0 {
      AwaitsAreWaits(states, events, k - 1);
      WaitsGrow(states[k - 1], events[k - 1]);
    }
  }

  /** What a step does to an await that has been made before it. */
  lemma WaitAfterStep(s: Child, e: Event, r: nat)
    requires Inv(s) && Enabled(s, e) && r < |s.waits|
    ensures r < |Apply(s, e).waits| && (Apply(s, e).inMap ==> s.inMap)
    ensures var w, w' := s.waits[r], Apply(s, e).waits[r];
            && w'.on == w.on && w'.suspended == w.suspended
            && w'.resumptions == w.resumptions + (if s.inMap && !Apply(s, e).inMap && r == s.continuation then 1 else 0)
    ensures s.continuation == |s.waits| - 1
    ensures s.inMap && !Apply(s, e).inMap ==> !e.Await?
  {
  }

  /** What has become, in state s, of await r that was made in state `made`: the child resumes it when it
      leaves the map, once, if and only if it was made before that and was not overtaken. */
  ghost predicate Fate(made: Child, s: Child, r: nat, overtaken: bool) {
    && r < |s.waits|
    && (s.waits[r].suspended <==> Suspends(made))
    && (s.inMap ==> made.inMap && (overtaken <==> r < |s.waits| - 1))
    && s.waits[r].resumptions == if made.inMap && !s.inMap && !overtaken then 1 else 0
  }

  lemma FateOfNewAwait(s: Child, i: nat)
    requires Inv(s) && Enabled(s, Await(i))
    ensures Fate(s, Apply(s, Await(i)), |s.waits|, false)
  {
  }

  lemma FateStep(made: Child, s: Child, e: Event, r: nat, overtaken: bool)
    requires Inv(s) && Enabled(s, e) && Fate(made, s, r, overtaken)
    ensures Fate(made, Apply(s, e), r, overtaken || (e.Await? && s.inMap))
  {
    WaitAfterStep(s, e, r);
    WaitsGrow(s, e);
  }

  lemma {:induction false} FateOfAwait(states: seq<Child>, events: seq<Event>, m: nat, k: nat)
    requires Run(states, events) && m < k < |states| && events[m].Await?
    ensures Fate(states[m], states[k], Awaits(events, m), Overtaken(states, events, m, k))
    decreases k
  {
    RunKeepsInv(states, events, k - 1);
    if k > m + 1 {
      FateOfAwait(states, events, m, k - 1);
      FateStep(states[m], states[k - 1], events[k - 1], Awaits(events, m), Overtaken(states, events, m, k - 1));
    } else {
      AwaitsAreWaits(states, events, m);
      FateOfNewAwait(states[m], events[m].i);
    }
  }

  /** In every run, with any number of awaitables and of coroutines awaiting them: once the child has left
      the map, the coroutine of the await made by event m is suspended if and only if that await came when
      the child had left the map and another awaitable was alive, or was overtaken before the child left. */
  lemma SuspendedIffWakeupLost(states: seq<Child>, events: seq<Event>, m: nat, k: nat)
    requires Run(states, events) && m < k < |states| && events[m].Await? && !states[k].inMap
    ensures Awaits(events, m) < |states[k].waits|
    ensures states[k].waits[Awaits(events, m)].Asleep() <==>
      if states[m].inMap then Overtaken(states, events, m, k)
      else Live(states[m].awaitables, |states[m].awaitables|) > 1
  {
    FateOfAwait(states, events, m, k);
    RunKeepsInv(states, events, m);
    LiveSome(states[m].awaitables, events[m].i, |states[m].awaitables|);
  }

  /** Such a coroutine is never resumed. */
  lemma {:induction false} LostForGood(states: seq<Child>, events: seq<Event>, r: nat, from: nat, k: nat)
    requires Run(states, events) && from <= k < |states| && r < |states[from].waits|
    requires !states[from].inMap && states[from].waits[r].Asleep()
    ensures !states[k].inMap && r < |states[k].waits| && states[k].waits[r].Asleep()
  {
    if k > from {
      LostForGood(states, events, r, from, k - 1);
      RunKeepsInv(states, events, k - 1);
      WaitAfterStep(states[k - 1], events[k - 1], r);
    }
  }

  /** One awaitable per task, and nobody awaits it while another coroutine is suspended on it. */
  ghost predicate OneAwaiter(states: seq<Child>, events: seq<Event>, k: nat)
    requires k <= |events| < |states|
  {
    forall j :: 0 <= j < k ==> !events[j].Copy? && (events[j].Await? ==> Free(states[j], events[j].i))
  }

  lemma {:induction false} NoCopyKeepsOne(states: seq<Child>, events: seq<Event>, k: nat)
    requires Run(states, events) && k < |states| && forall j :: 0 <= j < k ==> !events[j].Copy?
    ensures |states[k].awaitables| == 1
  {
    if k > 0 {
      NoCopyKeepsOne(states, events, k - 1);
    }
  }

  /** With one awaitable and one awaiter at a time no wakeup is lost: the one suspended coroutine is the
      continuation, and as soon as the child has left the map nobody is suspended. */
  lemma {:induction false} NoLostWakeup(states: seq<Child>, events: seq<Event>, k: nat)
    requires Run(states, events) && k < |states| && OneAwaiter(states, events, k)
    ensures forall r :: 0 <= r < |states[k].waits| && states[k].waits[r].Asleep() ==>
              states[k].inMap && r == states[k].continuation
    ensures forall i :: 0 <= i < |states[k].awaitables| && states[k].awaitables[i].live ==>
              (Suspends(states[k]) <==> states[k].inMap)
  {
    RunKeepsInv(states, events, k);
    NoCopyKeepsOne(states, events, k);
    assert Live(states[k].awaitables, 0) == 0;
    assert Live(states[k].awaitables, 1) == if states[k].awaitables[0].live then 1 else 0;
    if k > 0 {
      NoLostWakeup(states, events, k - 1);
      RunKeepsInv(states, events, k - 1);
      NoCopyKeepsOne(states, events, k - 1);
      SingleStep(states[k - 1], events[k - 1]);
    }
  }

  lemma SingleStep(s: Child, e: Event)
    requires Inv(s) && Enabled(s, e) && !e.Copy? && |s.awaitables| == 1 && (e.Await? ==> Free(s, e.i))
    requires forall r :: 0 <= r < |s.waits| && s.waits[r].Asleep() ==> s.inMap && r == s.continuation
    ensures forall r :: 0 <= r < |Apply(s, e).waits| && Apply(s, e).waits[r].Asleep() ==>
              Apply(s, e).inMap && r == Apply(s, e).continuation
  {
    assert Live(s.awaitables, 0) == 0;
    assert Live(s.awaitables, 1) == if s.awaitables[0].live then 1 else 0;
    forall r | 0 <= r < |s.waits| && e.Await? ensures !s.waits[r].Asleep() {
      assert WaitOk(s, r);
    }
  }

  // ------------------------------------------------------------------- errors

  /** With one awaitable, shared or not, an exception reaches one place: it escapes, or somebody who awaits
      gets it, or the destructor of the awaitable records it once. */
  lemma {:induction false} ErrorReachesOnePlace(states: seq<Child>, events: seq<Event>, k: nat)
    requires Run(states, events) && k < |states| && forall j :: 0 <= j < k ==> !events[j].Copy?
    ensures |states[k].awaitables| == 1
    ensures var s := states[k]; var a := s.awaitables[0];
            && (s.escaped ==> s.outcome == Pending && !a.live && s.recorded == 0)
            && (a.awaited <==> exists r :: 0 <= r < |s.waits| && s.waits[r].got == s.outcome != Pending)
            && s.recorded == if s.outcome == Error && !a.live && !a.awaited then 1 else 0
  {
    NoCopyKeepsOne(states, events, k);
    RunKeepsInv(states, events, k);
    if states[k].escaped {
      EscapedHasNoAwaitable(states, events, k);
    }
    if k > 0 {
      ErrorReachesOnePlace(states, events, k - 1);
      NoCopyKeepsOne(states, events, k - 1);
      RunKeepsInv(states, events, k - 1);
      ErrorStep(states[k - 1], events[k - 1]);
    }
  }

  ghost predicate Delivered(s: Child) {
    exists r :: 0 <= r < |s.waits| && s.waits[r].got == s.outcome != Pending
  }

  lemma ErrorStep(s: Child, e: Event)
    requires Inv(s) && Enabled(s, e) && !e.Copy? && |s.awaitables| == 1 && Inv(Apply(s, e))
    requires s.awaitables[0].awaited <==> Delivered(s)
    requires s.recorded == if s.outcome == Error && !s.awaitables[0].live && !s.awaitables[0].awaited then 1 else 0
    ensures var s' := Apply(s, e);
            && |s'.awaitables| == 1
            && (s'.awaitables[0].awaited <==> Delivered(s'))
            && s'.recorded == if s'.outcome == Error && !s'.awaitables[0].live && !s'.awaitables[0].awaited then 1 else 0
  {
    var s' := Apply(s, e);
    assert Live(s.awaitables, 0) == 0;
    assert Live(s.awaitables, 1) == if s.awaitables[0].live then 1 else 0;
    if r :| 0 <= r < |s'.waits| && s'.waits[r].got == s'.outcome != Pending {
      assert WaitOk(s', r);
    }
    if s'.awaitables[0].awaited {
      if s.awaitables[0].awaited {
        var r :| 0 <= r < |s.waits| && s.waits[r].got == s.outcome != Pending;
        assert WaitOk(s, r) && s'.waits[r].got == s'.outcome;
      } else {
        var r := if e.Await? then |s.waits| else s.continuation;
        assert s'.waits[r].got == s'.outcome;
      }
    }
  }

  lemma {:induction false} EscapedHasNoAwaitable(states: seq<Child>, events: seq<Event>, k: nat)
    requires Run(states, events) && k < |states| && states[k].escaped
    ensures forall i :: 0 <= i < |states[k].awaitables| ==> !states[k].awaitables[i].live
  {
    RunKeepsInv(states, events, k - 1);
    if !states[k - 1].escaped {
      EscapesIffNoAwaitable(states[k - 1]);
    }
  }

  // ------------------------------------------------------------ the losing runs

  /** With two awaitables a coroutine that awaits after the child has ended is suspended for good. */
  lemma SecondAwaitableLosesWakeup()
    ensures var s1 := Apply(Spawned(), Copy(0));
            var s2 := Apply(s1, Finish);
            Enabled(s2, Await(0))
            && var s3 := Apply(s2, Await(0));
            Run([Spawned(), s1, s2, s3], [Copy(0), Finish, Await(0)]) && s3.waits[0].Asleep() && !s3.inMap
  {}

  /** With two awaitables both awaits suspend correctly, and the second one overwrites the continuation. */
  lemma OvertakenLosesWakeup()
    ensures var s1 := Apply(Spawned(), Copy(0));
            var s2 := Apply(s1, Await(0));
            Enabled(s2, Await(1)) && s2.inMap
            && var s3 := Apply(s2, Await(1));
            Enabled(s3, Finish)
            && var s4 := Apply(s3, Finish);
            Run([Spawned(), s1, s2, s3, s4], [Copy(0), Await(0), Await(1), Finish])
            && s4.waits[0].Asleep() && s4.waits[1].resumptions == 1 && !s4.inMap
  {}

  /** One awaitable is enough when two coroutines await it. */
  lemma SharedAwaitLosesWakeup()
    ensures var s1 := Apply(Spawned(), Await(0));
            Enabled(s1, Await(0))
            && var s2 := Apply(s1, Await(0));
            Enabled(s2, Finish)
            && var s3 := Apply(s2, Finish);
            Run([Spawned(), s1, s2, s3], [Await(0), Await(0), Finish])
            && |s3.awaitables| == 1 && s3.waits[0].Asleep() && s3.waits[1].resumptions == 1 && !s3.inMap
  {}

  // -------------------------------------------------------------------- the object

  class Task {
    var count: int
    var inMap: bool
    var outcome: Outcome
    var continuation: int
    var awaitables: seq<Awaitable>
    var waits: seq<Wait>
    var recorded: nat
    var escaped: bool

    ghost function State(): Child
      reads this
    {
      Child(count, inMap, outcome, continuation, awaitables, waits, recorded, escaped)
    }

    method AwaitSuspend(i: nat) returns (suspend: bool)
      requires Inv(State()) && Enabled(State(), Await(i))
      modifies this
      ensures suspend <==> old(inMap) || old(Live(awaitables, |awaitables|)) > 1
      ensures State() == Store(old(State()), i)
      ensures Apply(old(State()), Await(i)) == if suspend then State() else Resume(State(), |old(waits)|)
    {
      LiveSome(awaitables, i, |awaitables|);
      assert count > 0;
      continuation := |waits|;
      var taskEnded := count < 2;
      suspend := !taskEnded;
      waits := waits + [Wait(i, suspend, 0, Pending)];
    }

    method AwaitResume(r: nat) returns (o: Outcome)
      requires r < |waits| && waits[r].on < |awaitables|
      modifies this
      ensures State() == Resume(old(State()), r) && o == outcome
    {
      var i := waits[r].on;
      awaitables := awaitables[i := awaitables[i].(awaited := true)];
      waits := waits[r := waits[r].(got := outcome)];
      o := outcome;
    }

    /** The continuation is read before the child leaves the map: that may destroy its frame. */
    method FinalSuspend()
      requires continuation < |waits|
      requires continuation >= 0 ==> waits[continuation].on < |awaitables|
      modifies this
      ensures State() == Leave(old(State()))
      ensures !inMap && count == old(count) - 1 && outcome == old(outcome) && |waits| == |old(waits)|
      ensures forall r :: 0 <= r < |waits| ==> waits[r].resumptions == old(waits)[r].resumptions + (if r == continuation then 1 else 0)
    {
      var next := continuation;
      count := count - 1;
      inMap := false;
      if next >= 0 {
        waits := waits[next := waits[next].(resumptions := waits[next].resumptions + 1)];
        var _ := AwaitResume(next);
      }
    }

    method UnhandledException()
      requires Inv(State()) && Enabled(State(), Throw)
      modifies this
      ensures State() == Apply(old(State()), Throw)
      ensures escaped <==> forall i :: 0 <= i < |old(awaitables)| ==> !old(awaitables)[i].live
      ensures outcome == if escaped then old(outcome) else Error
    {
      EscapesIffNoAwaitable(State());
      var hasAwaiter := count > 1;
      if hasAwaiter {
        outcome := Error;
        FinalSuspend();
      } else {
        escaped := true;
      }
    }

    method DestroyAwaitable(i: nat)
      requires Enabled(State(), Destroy(i))
      modifies this
      ensures State() == Apply(old(State()), Destroy(i))
      ensures count == old(count) - 1 && awaitables == old(awaitables)[i := old(awaitables)[i].(live := false)]
      ensures recorded == old(recorded) + if outcome == Error && !old(awaitables)[i].awaited then 1 else 0
    {
      if outcome == Error && !awaitables[i].awaited {
        recorded := recorded + 1;
      }
      awaitables := awaitables[i := awaitables[i].(live := false)];
      count := count - 1;
    }
  }
}
