/** `io_context::run` (src/io_context.cpp:227-287) with the run queue, `executor::spawn`
    (include/fiona/executor.hpp:586-594) and posted tasks (src/io_context.cpp:76-93).

    What coroutines do when they are resumed, and what the kernel completes, is given by scripts: every
    finite part of every run is the execution of some script. */
module RunLoops {

  /** How a resumption ends: normally, with an exception leaving `resume`, or with one stored in
      `exception_ptr_`. */
  datatype Outcome = Returns | Throws | Stores

  /** What one resumed coroutine, and those it transfers control to, do. */
  datatype Action = Action(spawns: nat, ends: seq<nat>, outcome: Outcome)

  /** A completion; the frame may post a task, hand back a coroutine, or fail. */
  datatype Cqe = NoData | Done(posts: bool, handle: Handle, fails: bool)

  datatype Handle = Null | Coroutine(id: nat)

  /** What the loop did, in order. `alive` and `tasks` are observed at that moment. */
  datatype Entry = Start(task: nat, alive: bool) | Wait(queued: nat, tasks: bool) | Resumed(id: nat)

  function Starts(log: seq<Entry>, n: nat): nat
    requires n <= |log|
  {
    if n == 0 then 0 else Starts(log, n - 1) + (if log[n - 1].Start? then 1 else 0)
  }

  lemma {:induction false} StartsAppend(log: seq<Entry>, e: Entry, n: nat)
    requires n <= |log|
    ensures Starts(log + [e], n) == Starts(log, n)
    ensures n == |log| ==> Starts(log + [e], n + 1) == Starts(log, n) + (if e.Start? then 1 else 0)
  {
    if n > 0 {
      StartsAppend(log, e, n - 1);
    }
  }

  ghost predicate EntryOk(log: seq<Entry>, i: nat)
    requires i < |log|
  {
    match log[i]
    case Start(task, alive) => task == Starts(log, i) && alive
    case Wait(queued, tasks) => queued == 0 && tasks
    case Resumed(_) => true
  }

  /** Tasks are numbered in the order of their creation: the i-th task that is started is the i-th that was
      created, and it is alive; the loop waits only with an empty queue and a non-empty map. */
  ghost predicate LogOk(log: seq<Entry>) {
    forall i :: 0 <= i < |log| ==> EntryOk(log, i)
  }

  lemma LogAppend(log: seq<Entry>, e: Entry)
    requires LogOk(log)
    requires match e
             case Start(task, alive) => task == Starts(log, |log|) && alive
             case Wait(queued, tasks) => queued == 0 && tasks
             case Resumed(_) => true
    ensures LogOk(log + [e])
    ensures Starts(log + [e], |log| + 1) == Starts(log, |log|) + (if e.Start? then 1 else 0)
  {
    forall i | 0 <= i <= |log| ensures EntryOk(log + [e], i) {
      StartsAppend(log, e, i);
      assert i < |log| ==> EntryOk(log, i);
    }
    StartsAppend(log, e, |log|);
  }

  /** The coroutines the first n completions hand back. */
  function HandlesOf(batch: seq<Cqe>, n: nat): seq<nat>
    requires n <= |batch|
  {
    if n == 0 then []
    else if batch[n - 1].Done? && batch[n - 1].handle.Coroutine? then HandlesOf(batch, n - 1) + [batch[n - 1].handle.id]
    else HandlesOf(batch, n - 1)
  }

  /** Some action from `from` up to `to` stores an exception. */
  predicate StoresWithin(script: seq<Action>, from: nat, to: nat)
    requires to <= |script|
  {
    from < to && (StoresWithin(script, from, to - 1) || script[to - 1].outcome == Stores)
  }

  predicate Fails(batch: seq<Cqe>) {
    exists i :: 0 <= i < |batch| && batch[i].Done? && batch[i].fails
  }

  // ------------------------------------------ what the scripts say about tasks

  /** The tasks posted by the completions from the i-th on, up to the first that fails. */
  function Posts(batch: seq<Cqe>, i: nat := 0): nat
    requires i <= |batch|
    decreases |batch| - i
  {
    if i == |batch| then 0
    else
      match batch[i]
      case NoData => Posts(batch, i + 1)
      case Done(posts, _, fails) => if fails then 0 else (if posts then 1 else 0) + Posts(batch, i + 1)
  }

  /** The tasks spawned by the first n actions, and posted in the first n batches. */
  function SpawnsIn(script: seq<Action>, n: nat): nat
    requires n <= |script|
  {
    if n == 0 then 0 else SpawnsIn(script, n - 1) + script[n - 1].spawns
  }

  function PostsIn(batches: seq<seq<Cqe>>, n: nat): nat
    requires n <= |batches|
  {
    if n == 0 then 0 else PostsIn(batches, n - 1) + Posts(batches[n - 1])
  }

  /** The resumptions among the first n entries: so many actions of the script have been executed. */
  function Resumptions(log: seq<Entry>, n: nat): nat
    requires n <= |log|
  {
    if n == 0 then 0 else Resumptions(log, n - 1) + (if log[n - 1].Wait? then 0 else 1)
  }

  /** One of the first n resumptions ends task x, which was started before it or by it. */
  predicate Ended(script: seq<Action>, log: seq<Entry>, n: nat, x: nat)
    requires n <= |log|
  {
    n > 0 &&
    (Ended(script, log, n - 1, x) ||
     (!log[n - 1].Wait? && x < Starts(log, n)
      && Resumptions(log, n - 1) < |script| && x in script[Resumptions(log, n - 1)].ends))
  }

  lemma {:induction false} ResumptionsAppend(log: seq<Entry>, e: Entry, n: nat)
    requires n <= |log|
    ensures Resumptions(log + [e], n) == Resumptions(log, n)
  {
    if n > 0 {
      ResumptionsAppend(log, e, n - 1);
    }
  }

  lemma {:induction false} EndedAppend(script: seq<Action>, log: seq<Entry>, e: Entry, n: nat, x: nat)
    requires n <= |log|
    ensures Ended(script, log + [e], n, x) == Ended(script, log, n, x)
  {
    if n > 0 {
      EndedAppend(script, log, e, n - 1, x);
      StartsAppend(log, e, n);
      ResumptionsAppend(log, e, n - 1);
    }
  }

  /** A task is in the map if and only if no resumption has ended it. */
  ghost predicate MapIs(script: seq<Action>, log: seq<Entry>, inMap: seq<bool>) {
    forall x :: 0 <= x < |inMap| ==> (inMap[x] <==> !Ended(script, log, |log|, x))
  }

  lemma {:induction false} OnlyStartedEnd(script: seq<Action>, log: seq<Entry>, n: nat, x: nat)
    requires n <= |log| && Ended(script, log, n, x)
    ensures x < Starts(log, n)
  {
    if Ended(script, log, n - 1, x) {
      OnlyStartedEnd(script, log, n - 1, x);
    }
  }

  /** What one entry does to the count of resumptions and to the map. */
  lemma MapAfter(script: seq<Action>, log: seq<Entry>, e: Entry, inMap: seq<bool>, inMap': seq<bool>)
    requires MapIs(script, log, inMap) && |inMap| <= |inMap'| && Starts(log + [e], |log| + 1) <= |inMap|
    requires e.Wait? ==> inMap' == inMap
    requires !e.Wait? ==> Resumptions(log, |log|) < |script|
    requires !e.Wait? ==> forall x :: 0 <= x < |inMap'| ==>
               (inMap'[x] <==> x >= |inMap| || (inMap[x] && !(x < Starts(log + [e], |log| + 1)
                                                && x in script[Resumptions(log, |log|)].ends)))
    ensures MapIs(script, log + [e], inMap')
    ensures Resumptions(log + [e], |log| + 1) == Resumptions(log, |log|) + (if e.Wait? then 0 else 1)
  {
    ResumptionsAppend(log, e, |log|);
    forall x | 0 <= x < |inMap'| ensures inMap'[x] <==> !Ended(script, log + [e], |log| + 1, x) {
      EndedAppend(script, log, e, |log|, x);
      if x >= |inMap| && Ended(script, log + [e], |log| + 1, x) {
        OnlyStartedEnd(script, log + [e], |log| + 1, x);
      }
    }
  }

  /** A new task is in the map. */
  lemma MapGrows(script: seq<Action>, log: seq<Entry>, inMap: seq<bool>, k: nat)
    requires MapIs(script, log, inMap) && Starts(log, |log|) <= |inMap|
    ensures MapIs(script, log, inMap + seq(k, i => true))
  {
    var inMap' := inMap + seq(k, i => true);
    forall x | 0 <= x < |inMap'| ensures inMap'[x] <==> !Ended(script, log, |log|, x) {
      if x >= |inMap| && Ended(script, log, |log|, x) {
        OnlyStartedEnd(script, log, |log|, x);
      }
    }
  }

  /** In a log that satisfies LogOk, no task is started twice and none before an older one. */
  lemma {:induction false} StartedOnceInOrder(log: seq<Entry>, i: nat, j: nat)
    requires LogOk(log) && i < j < |log| && log[i].Start? && log[j].Start?
    ensures log[i].task < log[j].task
  {
    assert EntryOk(log, i) && EntryOk(log, j);
    StartsGrow(log, i + 1, j);
  }

  lemma {:induction false} StartsGrow(log: seq<Entry>, a: nat, b: nat)
    requires a <= b <= |log|
    ensures Starts(log, a) <= Starts(log, b)
  {
    if a < b {
      StartsGrow(log, a, b - 1);
    }
  }

  // ----------------------------------------------------- the size of a batch

  /** The smallest number of the form p, 2p, 4p, ... that is at least n. */
  function RoundUp(n: nat, p: nat): (r: nat)
    requires p > 0
    ensures r >= n && r >= p
    decreases n - p
  {
    if p >= n then p else RoundUp(n, 2 * p)
  }

  predicate IsPowerOfTwo(n: nat, p: nat)
    requires p > 0
    decreases n - p
  {
    n == p || (p < n && IsPowerOfTwo(n, 2 * p))
  }

  lemma {:induction false} RoundsToItself(n: nat, p: nat)
    requires 0 < p <= n
    ensures RoundUp(n, p) == n <==> IsPowerOfTwo(n, p)
    decreases n - p
  {
    if p < n && 2 * p <= n {
      RoundsToItself(n, 2 * p);
    }
  }

  /** The kernel rounds the size of the completion queue up to a power of two, so a batch can be that large.
      The arrays of `run`, which have `cq_entries` elements, hold the largest batch if and only if
      `cq_entries` is a power of two. */
  lemma LargestBatchFitsIff(cqEntries: nat)
    requires cqEntries > 0
    ensures RoundUp(cqEntries, 1) <= cqEntries <==> IsPowerOfTwo(cqEntries, 1)
  {
    RoundsToItself(cqEntries, 1);
  }

  class RunLoop {
    const cqEntries: nat
    var queue: seq<nat>
    var inMap: seq<bool>
    var started: seq<bool>
    var log: seq<Entry>

    /** Where the scripts have been read to. */
    const script: seq<Action>
    const batches: seq<seq<Cqe>>
    var nextAction: nat
    var nextBatch: nat

    /** Whether `exception_ptr_` is set. */
    var stored: bool

    constructor (entries: nat, actions: seq<Action>, completions: seq<seq<Cqe>>)
      requires forall b :: 0 <= b < |completions| ==> |completions[b]| <= entries
      ensures Valid() && Settled() && Counted() && cqEntries == entries && script == actions && batches == completions
      ensures log == [] && queue == [] && inMap == [] && !stored
    {
      cqEntries, script, batches := entries, actions, completions;
      queue, inMap, started, log, nextAction, nextBatch, stored := [], [], [], [], 0, 0, false;
    }

    /** The tasks in the queue are the youngest ones, in order; they are in the map; and as many starts are
        in the log as there are tasks that left the queue, or are at its front with `running` set. */
    ghost predicate InvRunning(running: nat)
      reads this
    {
      && |started| == |inMap| && running <= |queue| <= |inMap|
      && (forall i :: 0 <= i < |queue| ==> queue[i] == |inMap| - |queue| + i)
      && (forall x :: 0 <= x < |started| ==> (started[x] <==> x < |inMap| - |queue| + running))
      && (forall x :: 0 <= x < |started| && !started[x] ==> inMap[x])
      && LogOk(log) && Starts(log, |log|) == |inMap| - |queue| + running
    }

    ghost predicate Valid()
      reads this
    {
      && nextAction <= |script| && nextBatch <= |batches|
      && forall b :: 0 <= b < |batches| ==> |batches[b]| <= cqEntries
    }

    ghost predicate Settled()
      reads this
    {
      InvRunning(0)
    }

    /** The tasks created are those spawned by the resumptions so far and those posted in the batches so far,
        none is missing and none is there twice; and the map holds exactly those that no resumption ended. */
    ghost predicate Counted()
      requires Valid()
      reads this
    {
      && nextAction == Resumptions(log, |log|)
      && |inMap| == SpawnsIn(script, nextAction) + PostsIn(batches, nextBatch)
      && MapIs(script, log, inMap)
    }

    /** The script is used up, an exception is stored, or the last resumption threw. */
    predicate Interrupted()
      reads this
    {
      nextAction >= |script| || stored || (nextAction > 0 && script[nextAction - 1].outcome == Throws)
    }

    predicate TasksEmpty()
      reads this
    {
      forall x :: 0 <= x < |inMap| ==> !inMap[x]
    }

    /** `executor::spawn`, and the pipe frame for a posted task: `add_task`, then `push_back`. */
    method Spawn(ghost running: nat)
      requires InvRunning(running)
      modifies this`queue, this`inMap, this`started
      ensures InvRunning(running)
      ensures inMap == old(inMap) + [true] && queue == old(queue) + [|old(inMap)|]
    {
      inMap := inMap + [true];
      queue := queue + [|inMap| - 1];
      started := started + [false];
    }

    /** A coroutine is resumed. Only a task that was started can end; it then leaves the map. */
    method Resume(a: Action, ghost running: nat)
      requires InvRunning(running)
      modifies this`queue, this`inMap, this`started
      ensures InvRunning(running)
      ensures |queue| == |old(queue)| + a.spawns && queue[..|old(queue)|] == old(queue)
      ensures |inMap| == |old(inMap)| + a.spawns
      ensures forall x :: 0 <= x < |inMap| ==>
        (inMap[x] <==> x >= |old(inMap)| || (old(inMap)[x] && !(old(started)[x] && x in a.ends)))
    {
      for i := 0 to a.spawns
        invariant InvRunning(running)
        invariant |queue| == |old(queue)| + i && queue[..|old(queue)|] == old(queue)
        invariant |inMap| == |old(inMap)| + i
        invariant forall x :: 0 <= x < |inMap| ==> (inMap[x] <==> x >= |old(inMap)| || old(inMap)[x])
      {
        Spawn(running);
      }
      EndTasks(a.ends, running);
    }

    method EndTasks(ends: seq<nat>, ghost running: nat)
      requires InvRunning(running)
      modifies this`inMap
      ensures InvRunning(running) && |inMap| == |old(inMap)|
      ensures forall x :: 0 <= x < |inMap| ==> (inMap[x] <==> old(inMap)[x] && !(started[x] && x in ends))
    {
      for i := 0 to |ends|
        invariant InvRunning(running) && |inMap| == |old(inMap)|
        invariant forall x :: 0 <= x < |inMap| ==> (inMap[x] <==> old(inMap)[x] && !(started[x] && x in ends[..i]))
      {
        var x := ends[i];
        assert ends[..i + 1] == ends[..i] + [x];
        if x < |inMap| && started[x] {
          inMap := inMap[x := false];
        }
      }
      assert ends[..|ends|] == ends;
    }

    /** The task at the front is resumed for the first time; it stays in the queue meanwhile. */
    method StartFront() returns (a: Action)
      requires Valid() && Settled() && Counted() && nextAction < |script| && queue != []
      modifies this`queue, this`inMap, this`started, this`log, this`nextAction
      ensures Valid() && Counted() && nextAction == old(nextAction) + 1 && a == script[old(nextAction)]
      ensures InvRunning(1) && log == old(log) + [Start(old(queue)[0], true)]
      ensures |queue| == |old(queue)| + a.spawns && queue[..|old(queue)|] == old(queue)
      ensures |inMap| == |old(inMap)| + a.spawns
      ensures forall x :: 0 <= x < |inMap| ==>
        (inMap[x] <==> x >= |old(inMap)| || (old(inMap)[x] && !(x < Starts(log, |log|) && x in a.ends)))
    {
      var h := queue[0];
      a := NextAction(Start(h, inMap[h]));
      started := started[h := true];
      Resume(a, 1);
      MapAfter(script, old(log), Start(h, true), old(inMap), inMap);
    }

    /** Reads on in the script, and logs the resumption. */
    method NextAction(e: Entry) returns (a: Action)
      requires Valid() && LogOk(log) && nextAction < |script| && !e.Wait?
      requires match e case Start(task, alive) => task == Starts(log, |log|) && alive case _ => true
      modifies this`log, this`nextAction
      ensures Valid() && nextAction == old(nextAction) + 1 && a == script[old(nextAction)]
      ensures log == old(log) + [e] && LogOk(log)
      ensures Starts(log, |log|) == Starts(old(log), |old(log)|) + (if e.Start? then 1 else 0)
    {
      a := script[nextAction];
      nextAction := nextAction + 1;
      LogAppend(log, e);
      log := log + [e];
    }

    /** The inner loop over the run queue. It stops early only when an exception ends the run or the script
        is used up. */
    method DrainQueue() returns (stop: bool)
      requires Valid() && Settled() && Counted() && !stored
      modifies this
      ensures Valid() && Counted()
      ensures !stop ==> Settled() && queue == [] && !stored
      ensures Settled() || InvRunning(1)
      ensures old(nextAction) <= nextAction && nextBatch == old(nextBatch)
      ensures LogOk(log) && Starts(log, |log|) <= |inMap|
      ensures stop ==> Interrupted()
      ensures |log| >= |old(log)|
      ensures forall i :: 0 <= i < |old(log)| ==> log[i] == old(log)[i]
      ensures forall i :: |old(log)| <= i < |log| ==> log[i].Start?
    {
      while queue != []
        invariant Valid() && Settled() && Counted() && !stored
        invariant old(nextAction) <= nextAction && nextBatch == old(nextBatch)
        invariant |log| >= |old(log)|
        invariant forall i :: 0 <= i < |old(log)| ==> log[i] == old(log)[i]
        invariant forall i :: |old(log)| <= i < |log| ==> log[i].Start?
        decreases |script| - nextAction
      {
        if nextAction == |script| {
          return true;
        }
        var a := StartFront();
        if a.outcome == Throws {
          return true;
        }
        queue := queue[1..];
        if a.outcome == Stores {
          stored := true;
          return true;
        }
      }
      stop := false;
    }

    /** The batch of completions: the handles are collected in a fixed array. */
    method ProcessBatch(batch: seq<Cqe>, handles: array<nat>) returns (phandles: nat, stop: bool)
      requires Valid() && Settled() && |batch| <= cqEntries == handles.Length
      modifies handles, this`queue, this`inMap, this`started
      ensures Valid() && Settled()
      ensures |inMap| == |old(inMap)| + Posts(batch) && |queue| == |old(queue)| + Posts(batch)
      ensures queue[..|old(queue)|] == old(queue) && inMap[..|old(inMap)|] == old(inMap)
      ensures forall x :: |old(inMap)| <= x < |inMap| ==> inMap[x]
      ensures phandles <= handles.Length
      ensures !stop ==> handles[..phandles] == HandlesOf(batch, |batch|)
      ensures stop <==> Fails(batch)
    {
      phandles := 0;
      var count := 0;
      while count < |batch|
        invariant 0 <= count <= |batch| && phandles <= count
        invariant Valid() && Settled()
        invariant |inMap| + Posts(batch, count) == |old(inMap)| + Posts(batch)
        invariant |queue| - |old(queue)| == |inMap| - |old(inMap)| >= 0
        invariant queue[..|old(queue)|] == old(queue) && inMap[..|old(inMap)|] == old(inMap)
        invariant forall x :: |old(inMap)| <= x < |inMap| ==> inMap[x]
        invariant handles[..phandles] == HandlesOf(batch, count)
        invariant forall i :: 0 <= i < count && batch[i].Done? ==> !batch[i].fails
      {
        var c := batch[count];
        count := count + 1;
        if c.NoData? {
          continue;
        }
        if c.fails {
          return phandles, true;
        }
        if c.posts {
          Spawn(0);
        }
        if c.handle.Coroutine? {
          handles[phandles] := c.handle.id;
          phandles := phandles + 1;
        }
      }
      stop := false;
    }

    /** A coroutine a frame handed out is resumed. */
    method ResumeOne(id: nat) returns (a: Action)
      requires Valid() && Settled() && Counted() && nextAction < |script|
      modifies this`queue, this`inMap, this`started, this`log, this`nextAction, this`stored
      ensures Valid() && Counted() && nextAction == old(nextAction) + 1 && a == script[old(nextAction)]
      ensures Settled() && log == old(log) + [Resumed(id)]
      ensures stored == (old(stored) || a.outcome == Stores)
      ensures |queue| == |old(queue)| + a.spawns && queue[..|old(queue)|] == old(queue)
      ensures |inMap| == |old(inMap)| + a.spawns
    {
      a := NextAction(Resumed(id));
      stored := stored || a.outcome == Stores;
      Resume(a, 0);
      MapAfter(script, old(log), Resumed(id), old(inMap), inMap);
    }

    /** `io_uring_submit_and_wait`. */
    method WaitForEvents()
      requires Valid() && Settled() && Counted() && queue == [] && !TasksEmpty()
      modifies this`log
      ensures Settled() && Counted() && log == old(log) + [Wait(0, true)]
    {
      LogAppend(log, Wait(|queue|, !TasksEmpty()));
      MapAfter(script, log, Wait(|queue|, !TasksEmpty()), inMap, inMap);
      log := log + [Wait(|queue|, !TasksEmpty())];
    }

    /** Reads on among the batches. */
    method NextBatch(handles: array<nat>) returns (phandles: nat, stop: bool)
      requires Valid() && Settled() && Counted() && nextBatch < |batches| && handles.Length == cqEntries
      modifies handles, this`queue, this`inMap, this`started, this`nextBatch
      ensures Valid() && Settled() && Counted() && nextBatch == old(nextBatch) + 1 && phandles <= handles.Length
      ensures stop <==> Fails(batches[old(nextBatch)])
      ensures !stop ==> handles[..phandles] == HandlesOf(batches[old(nextBatch)], |batches[old(nextBatch)]|)
    {
      nextBatch := nextBatch + 1;
      phandles, stop := ProcessBatch(batches[nextBatch - 1], handles);
      MapGrows(script, log, old(inMap), Posts(batches[nextBatch - 1]));
      assert inMap == old(inMap) + seq(Posts(batches[nextBatch - 1]), i => true);
    }

    /** The collected coroutines are resumed once each, in the order of their completions; a stored exception
        does not stop this loop. */
    method ResumeHandles(handles: array<nat>, phandles: nat) returns (stop: bool)
      requires Valid() && Settled() && Counted() && phandles <= handles.Length
      modifies this
      ensures Valid() && Settled() && Counted() && nextBatch == old(nextBatch) && nextAction >= old(nextAction)
      ensures |old(log)| <= |log| <= |old(log)| + phandles
      ensures forall i :: 0 <= i < |old(log)| ==> log[i] == old(log)[i]
      ensures forall i :: |old(log)| <= i < |log| ==> log[i] == Resumed(handles[i - |old(log)|])
      ensures !stop ==> |log| == |old(log)| + phandles
      ensures stop ==> nextAction == |script| || (nextAction > 0 && script[nextAction - 1].outcome == Throws)
      ensures nextAction - old(nextAction) == |log| - |old(log)|
      ensures stored <==> old(stored) || StoresWithin(script, old(nextAction), nextAction)
    {
      var pos := 0;
      while pos < phandles
        invariant 0 <= pos <= phandles
        invariant Valid() && Settled() && Counted() && nextBatch == old(nextBatch) && nextAction >= old(nextAction)
        invariant |log| == |old(log)| + pos
        invariant forall i :: 0 <= i < |old(log)| ==> log[i] == old(log)[i]
        invariant forall i :: |old(log)| <= i < |log| ==> log[i] == Resumed(handles[i - |old(log)|])
        invariant nextAction == old(nextAction) + pos
        invariant stored <==> old(stored) || StoresWithin(script, old(nextAction), nextAction)
      {
        if nextAction == |script| {
          return true;
        }
        var a := ResumeOne(handles[pos]);
        pos := pos + 1;
        if a.outcome == Throws {
          return true;
        }
      }
      stop := false;
    }

    lemma QueuedIsInMap()
      requires Settled()
      ensures queue != [] ==> queue[0] < |inMap| && inMap[queue[0]]
    {
      if queue != [] {
        assert !started[queue[0]];
      }
    }

    /** With an empty map nothing is left to do. */
    lemma AllEnded()
      requires Valid() && Settled() && Counted() && TasksEmpty()
      ensures queue == [] && Starts(log, |log|) == |inMap|
      ensures forall x :: 0 <= x < |inMap| ==> Ended(script, log, |log|, x)
    {
      QueuedIsInMap();
    }

    /** `run`. When it returns because the map is empty, every task that was ever created has been started
        and was ended by some resumption. `finished` tells this from an exception or the end of the script. */
    method Run() returns (finished: bool)
      requires Valid() && Settled() && Counted()
      modifies this
      ensures Valid() && Counted()
      ensures !finished ==> Interrupted() || nextBatch >= |batches| || (nextBatch > 0 && Fails(batches[nextBatch - 1]))
      ensures LogOk(log)
      ensures finished ==> !stored && Settled() && TasksEmpty() && queue == [] && Starts(log, |log|) == |inMap|
      ensures finished ==> forall x :: 0 <= x < |inMap| ==> Ended(script, log, |log|, x)
    {
      var handles := new nat[cqEntries];
      while !TasksEmpty()
        invariant Valid() && Settled() && Counted()
        decreases |batches| - nextBatch
      {
        if stored {
          return false;
        }
        var stop := DrainQueue();
        if stop {
          return false;
        }
        if TasksEmpty() {
          AllEnded();
          return true;
        }
        WaitForEvents();
        if nextBatch == |batches| {
          return false;
        }
        var phandles;
        phandles, stop := NextBatch(handles);
        if stop {
          return false;
        }
        stop := ResumeHandles(handles, phandles);
        if stop {
          return false;
        }
      }
      AllEnded();
      finished := !stored;
    }
  }
}
