/** Who keeps a spawned coroutine alive: `task_map` (include/fiona/detail/common.hpp:219-274) and the
    handle counts of `internal_task` (include/fiona/executor.hpp:235-291).

    A coroutine frame is destroyed when its count drops to zero. Destroying it destroys the awaitables
    stored in it, which releases other frames, and so on. */
module TaskMaps {

  /** Frame x has count `counts[x]`; `owned[x]` lists the frames its own awaitables refer to, in order of
      construction; `outside[x]` counts the handles kept elsewhere. */
  datatype Tasks = Tasks(
    counts: seq<int>,
    alive: seq<bool>,
    inMap: seq<bool>,
    owned: seq<seq<nat>>,
    outside: seq<nat>,
    destroyed: seq<nat>)

  // ------------------------------------------------------------------- counting

  function Occ(q: seq<nat>, y: nat, n: nat): nat
    requires n <= |q|
  {
    if n == 0 then 0 else Occ(q, y, n - 1) + (if q[n - 1] == y then 1 else 0)
  }

  /** Handles for y inside live frames. */
  function Inside(s: Tasks, y: nat, n: nat): nat
    requires n <= |s.alive| && n <= |s.owned|
  {
    if n == 0 then 0
    else Inside(s, y, n - 1) + (if s.alive[n - 1] then Occ(s.owned[n - 1], y, |s.owned[n - 1]|) else 0)
  }

  function AliveCount(alive: seq<bool>, n: nat): nat
    requires n <= |alive|
  {
    if n == 0 then 0 else AliveCount(alive, n - 1) + (if alive[n - 1] then 1 else 0)
  }

  /** Everything that refers to y, where the handles in `work` are about to be released. */
  function Total(s: Tasks, work: seq<nat>, y: nat): nat
    requires Shape(s) && y < |s.counts|
  {
    Inside(s, y, |s.alive|) + s.outside[y] + (if s.inMap[y] then 1 else 0) + Occ(work, y, |work|)
  }

  ghost predicate Shape(s: Tasks) {
    |s.alive| == |s.inMap| == |s.owned| == |s.outside| == |s.destroyed| == |s.counts|
  }

  ghost predicate Below(q: seq<nat>, n: nat) {
    forall i :: 0 <= i < |q| ==> q[i] < n
  }

  ghost predicate FrameOk(s: Tasks, work: seq<nat>, y: nat)
    requires Shape(s) && y < |s.counts|
  {
    && s.counts[y] == Total(s, work, y)
    && (s.alive[y] <==> s.counts[y] > 0)
    && s.destroyed[y] == (if s.alive[y] then 0 else 1)
  }

  /** A frame is alive exactly while something refers to it, its count says how much, and it has been
      destroyed once if it is not alive. */
  ghost predicate Inv(s: Tasks, work: seq<nat>) {
    && Shape(s) && Below(work, |s.counts|)
    && (forall x :: 0 <= x < |s.owned| ==> Below(s.owned[x], |s.counts|))
    && forall y :: 0 <= y < |s.counts| ==> FrameOk(s, work, y)
  }

  // ------------------------------------------------------------------ releasing

  /** One handle for x is released; a frame nobody refers to is destroyed. */
  function Drop(s: Tasks, x: nat): Tasks
    requires Shape(s) && x < |s.counts|
  {
    var s' := s.(counts := s.counts[x := s.counts[x] - 1]);
    if s'.counts[x] != 0 then s'
    else s'.(alive := s.alive[x := false], destroyed := s.destroyed[x := s.destroyed[x] + 1])
  }

  /** What has to be released next: destructors run in reverse order of construction. */
  function Next(s: Tasks, work: seq<nat>): seq<nat>
    requires Shape(s) && work != [] && work[|work| - 1] < |s.counts|
  {
    var x := work[|work| - 1];
    if s.counts[x] == 1 then work[..|work| - 1] + s.owned[x] else work[..|work| - 1]
  }

  lemma {:induction false} OccConcat(a: seq<nat>, b: seq<nat>, y: nat, n: nat)
    requires n <= |a| + |b|
    ensures Occ(a + b, y, n) == if n <= |a| then Occ(a, y, n) else Occ(a, y, |a|) + Occ(b, y, n - |a|)
  {
    if n > 0 {
      OccConcat(a, b, y, n - 1);
    }
  }

  lemma {:induction false} OccSome(q: seq<nat>, i: nat, n: nat)
    requires i < n <= |q|
    ensures Occ(q, q[i], n) > 0
  {
    if i < n - 1 {
      OccSome(q, i, n - 1);
    }
  }

  lemma {:induction false} OccPrefix(q: seq<nat>, y: nat, m: nat, n: nat)
    requires n <= m <= |q|
    ensures Occ(q[..m], y, n) == Occ(q, y, n)
  {
    if n > 0 {
      OccPrefix(q, y, m, n - 1);
    }
  }

  lemma OccLast(q: seq<nat>, y: nat)
    requires q != []
    ensures Occ(q, y, |q|) == Occ(q[..|q| - 1], y, |q| - 1) + (if q[|q| - 1] == y then 1 else 0)
  {
    OccPrefix(q, y, |q| - 1, |q| - 1);
  }

  lemma {:induction false} InsideKill(s: Tasks, t: Tasks, x: nat, y: nat, n: nat)
    requires n <= |s.alive| == |s.owned| && t.owned == s.owned && x < |s.alive| && t.alive == s.alive[x := false]
    ensures Inside(t, y, n) == Inside(s, y, n) - (if x < n && s.alive[x] then Occ(s.owned[x], y, |s.owned[x]|) else 0)
  {
    if n > 0 {
      InsideKill(s, t, x, y, n - 1);
    }
  }

  lemma {:induction false} InsideSame(s: Tasks, t: Tasks, y: nat, n: nat)
    requires n <= |s.alive| == |s.owned| && t.owned == s.owned && t.alive == s.alive
    ensures Inside(t, y, n) == Inside(s, y, n)
  {
    if n > 0 {
      InsideSame(s, t, y, n - 1);
    }
  }

  /** A handle that is about to be released refers to a live frame: no freed promise is touched. */
  lemma WorkIsAlive(s: Tasks, work: seq<nat>, i: nat)
    requires Inv(s, work) && i < |work|
    ensures work[i] < |s.counts| && s.alive[work[i]] && s.counts[work[i]] > 0
  {
    assert FrameOk(s, work, work[i]);
    OccSome(work, i, |work|);
  }

  lemma NextOcc(s: Tasks, work: seq<nat>, y: nat)
    requires Shape(s) && work != [] && work[|work| - 1] < |s.counts|
    ensures var x := work[|work| - 1];
            Occ(Next(s, work), y, |Next(s, work)|) ==
            Occ(work, y, |work|) - (if x == y then 1 else 0) +
            (if s.counts[x] == 1 then Occ(s.owned[x], y, |s.owned[x]|) else 0)
  {
    var x := work[|work| - 1];
    OccLast(work, y);
    if s.counts[x] == 1 {
      OccConcat(work[..|work| - 1], s.owned[x], y, |Next(s, work)|);
    }
  }

  lemma DropTotal(s: Tasks, work: seq<nat>, y: nat)
    requires Inv(s, work) && work != [] && y < |s.counts|
    ensures FrameOk(Drop(s, work[|work| - 1]), Next(s, work), y)
  {
    var x := work[|work| - 1];
    var t := Drop(s, x);
    WorkIsAlive(s, work, |work| - 1);
    NextOcc(s, work, y);
    assert FrameOk(s, work, x) && FrameOk(s, work, y);
    if s.counts[x] == 1 {
      InsideKill(s, t, x, y, |s.alive|);
    } else {
      InsideSame(s, t, y, |s.alive|);
    }
  }

  lemma DropKeepsInv(s: Tasks, work: seq<nat>)
    requires Inv(s, work) && work != []
    ensures Inv(Drop(s, work[|work| - 1]), Next(s, work))
  {
    var t, next := Drop(s, work[|work| - 1]), Next(s, work);
    forall y | 0 <= y < |s.counts| ensures FrameOk(t, next, y) {
      DropTotal(s, work, y);
    }
    assert Below(s.owned[work[|work| - 1]], |s.counts|);
  }

  lemma {:induction false} FewerAlive(alive: seq<bool>, x: nat, n: nat)
    requires x < n <= |alive| && alive[x]
    ensures AliveCount(alive[x := false], n) == AliveCount(alive, n) - 1
  {
    if x < n - 1 {
      FewerAlive(alive, x, n - 1);
    } else {
      AliveSame(alive, x, n - 1);
    }
  }

  lemma {:induction false} AliveSame(alive: seq<bool>, x: nat, n: nat)
    requires n <= x < |alive|
    ensures AliveCount(alive[x := false], n) == AliveCount(alive, n)
  {
    if n > 0 {
      AliveSame(alive, x, n - 1);
    }
  }

  lemma DropMeasure(s: Tasks, work: seq<nat>)
    requires Inv(s, work) && work != []
    ensures var t := Drop(s, work[|work| - 1]);
            && |t.alive| == |s.alive|
            && (s.counts[work[|work| - 1]] == 1 ==> AliveCount(t.alive, |t.alive|) < AliveCount(s.alive, |s.alive|))
            && (s.counts[work[|work| - 1]] != 1 ==> t.alive == s.alive && |Next(s, work)| < |work|)
  {
    WorkIsAlive(s, work, |work| - 1);
    FewerAlive(s.alive, work[|work| - 1], |s.alive|);
  }

  lemma LastOfPrefix(rest: seq<nat>, q: seq<nat>, i: nat)
    requires i < |q|
    ensures rest + q[..i + 1] == (rest + q[..i]) + [q[i]]
  {
  }

  /** The handles in `work` are released, last first, with everything that follows from it. */
  ghost function Settle(s: Tasks, work: seq<nat>): Tasks
    requires Inv(s, work)
    decreases AliveCount(s.alive, |s.alive|), |work|
  {
    if work == [] then s
    else
      DropKeepsInv(s, work);
      DropMeasure(s, work);
      Settle(Drop(s, work[|work| - 1]), Next(s, work))
  }

  /** Releasing terminates, keeps every count right and changes nothing but counts and lives. */
  lemma {:induction false} SettleKeepsInv(s: Tasks, work: seq<nat>)
    requires Inv(s, work)
    ensures var t := Settle(s, work);
            && Inv(t, [])
            && t.inMap == s.inMap && t.owned == s.owned && t.outside == s.outside
            && (forall y :: 0 <= y < |s.alive| && !s.alive[y] ==> !t.alive[y])
    decreases AliveCount(s.alive, |s.alive|), |work|
  {
    if work != [] {
      DropKeepsInv(s, work);
      DropMeasure(s, work);
      SettleKeepsInv(Drop(s, work[|work| - 1]), Next(s, work));
    }
  }

  // ------------------------------------------------------------------ the program

  datatype Event =
    | Spawn                    // scheduler(), add_task and the awaitable that is returned
    | Copy(x: nat)             // an internal_task outside the frames is copied
    | MoveIn(x: nat, f: nat)   // it becomes part of frame f
    | MoveOut(f: nat)          // the youngest internal_task of frame f leaves the frame
    | DropOutside(x: nat)      // ~internal_task outside the frames
    | DropInside(f: nat)       // ~internal_task of the youngest one in frame f
    | Erase(x: nat)            // erase_task, or one round of clear

  predicate Enabled(s: Tasks, e: Event) {
    && |s.alive| == |s.inMap| == |s.owned| == |s.outside| == |s.counts|
    && match e
       case Spawn => true
       case Copy(x) => x < |s.counts| && s.outside[x] > 0
       case MoveIn(x, f) => x < |s.counts| && s.outside[x] > 0 && f < |s.counts| && s.alive[f]
       case MoveOut(f) => f < |s.counts| && s.alive[f] && s.owned[f] != []
       case DropOutside(x) => x < |s.counts| && s.outside[x] > 0
       case DropInside(f) => f < |s.counts| && s.alive[f] && s.owned[f] != []
       case Erase(x) => x < |s.counts| && s.inMap[x]
  }

  /** The event up to the point where one handle, or none, has to be released. */
  function Begin(s: Tasks, e: Event): (Tasks, seq<nat>)
    requires Enabled(s, e)
  {
    match e
    case Spawn =>
      (Tasks(s.counts + [2], s.alive + [true], s.inMap + [true], s.owned + [[]], s.outside + [1], s.destroyed + [0]), [])
    case Copy(x) => (s.(counts := s.counts[x := s.counts[x] + 1], outside := s.outside[x := s.outside[x] + 1]), [])
    case MoveIn(x, f) => (s.(outside := s.outside[x := s.outside[x] - 1], owned := s.owned[f := s.owned[f] + [x]]), [])
    case MoveOut(f) =>
      var x := s.owned[f][|s.owned[f]| - 1];
      var rest := s.(owned := s.owned[f := s.owned[f][..|s.owned[f]| - 1]]);
      if x < |s.outside| then (rest.(outside := s.outside[x := s.outside[x] + 1]), []) else (rest, [])
    case DropOutside(x) => (s.(outside := s.outside[x := s.outside[x] - 1]), [x])
    case DropInside(f) =>
      (s.(owned := s.owned[f := s.owned[f][..|s.owned[f]| - 1]]), [s.owned[f][|s.owned[f]| - 1]])
    case Erase(x) => (s.(inMap := s.inMap[x := false]), [x])
  }

  lemma {:induction false} InsideOwned(s: Tasks, t: Tasks, f: nat, q: seq<nat>, y: nat, n: nat)
    requires n <= |s.alive| == |s.owned| && f < |s.owned| && t.alive == s.alive && t.owned == s.owned[f := q]
    ensures Inside(t, y, n) == Inside(s, y, n) + (if f < n && s.alive[f] then Occ(q, y, |q|) - Occ(s.owned[f], y, |s.owned[f]|) else 0)
  {
    if n > 0 {
      InsideOwned(s, t, f, q, y, n - 1);
    }
  }

  lemma {:induction false} InsideAppend(s: Tasks, t: Tasks, y: nat, n: nat)
    requires n <= |s.alive| == |s.owned| && t.alive == s.alive + [true] && t.owned == s.owned + [[]]
    ensures Inside(t, y, n) == Inside(s, y, n)
  {
    if n > 0 {
      InsideAppend(s, t, y, n - 1);
    }
  }

  lemma {:induction false} InsideNone(s: Tasks, y: nat, n: nat)
    requires n <= |s.alive| == |s.owned| && forall i :: 0 <= i < n ==> Below(s.owned[i], y)
    ensures Inside(s, y, n) == 0
  {
    if n > 0 {
      InsideNone(s, y, n - 1);
      OccNone(s.owned[n - 1], y, |s.owned[n - 1]|);
    }
  }

  lemma {:induction false} OccNone(q: seq<nat>, y: nat, n: nat)
    requires n <= |q| && Below(q, y)
    ensures Occ(q, y, n) == 0
  {
    if n > 0 {
      OccNone(q, y, n - 1);
    }
  }

  lemma SpawnFrame(s: Tasks, y: nat)
    requires Inv(s, []) && y <= |s.counts|
    ensures FrameOk(Begin(s, Spawn).0, [], y)
  {
    var t := Begin(s, Spawn).0;
    InsideAppend(s, t, y, |s.alive|);
    if y < |s.counts| {
      assert FrameOk(s, [], y);
    } else {
      InsideNone(s, y, |s.alive|);
    }
  }

  lemma OwnedFrame(s: Tasks, e: Event, y: nat)
    requires Inv(s, []) && Enabled(s, e) && y < |s.counts| && (e.MoveIn? || e.MoveOut? || e.DropInside?)
    ensures FrameOk(Begin(s, e).0, Begin(s, e).1, y)
  {
    var t := Begin(s, e).0;
    assert FrameOk(s, [], y);
    assert Occ(Begin(s, e).1, y, 0) == 0;
    InsideOwned(s, t, e.f, t.owned[e.f], y, |s.alive|);
    assert Below(s.owned[e.f], |s.counts|);
    match e {
      case MoveIn(x, f) => OccConcat(s.owned[f], [x], y, |s.owned[f]| + 1);
      case MoveOut(f) => OccLast(s.owned[f], y);
      case DropInside(f) => OccLast(s.owned[f], y);
    }
  }

  lemma PlainFrame(s: Tasks, e: Event, y: nat)
    requires Inv(s, []) && Enabled(s, e) && y < |s.counts| && (e.Copy? || e.DropOutside? || e.Erase?)
    ensures FrameOk(Begin(s, e).0, Begin(s, e).1, y)
  {
    assert FrameOk(s, [], y);
    assert Occ(Begin(s, e).1, y, 0) == 0;
    InsideSame(s, Begin(s, e).0, y, |s.alive|);
  }

  lemma BeginKeepsInv(s: Tasks, e: Event)
    requires Inv(s, []) && Enabled(s, e)
    ensures Inv(Begin(s, e).0, Begin(s, e).1)
  {
    var t, work := Begin(s, e).0, Begin(s, e).1;
    forall y | 0 <= y < |t.counts| ensures FrameOk(t, work, y) {
      if e.Spawn? {
        SpawnFrame(s, y);
      } else if e.MoveIn? || e.MoveOut? || e.DropInside? {
        OwnedFrame(s, e, y);
      } else {
        PlainFrame(s, e, y);
      }
    }
    forall x | 0 <= x < |t.owned| ensures Below(t.owned[x], |t.counts|) {
      if x < |s.owned| {
        assert Below(s.owned[x], |s.counts|);
      }
    }
    if e.DropInside? {
      assert Below(s.owned[e.f], |s.counts|);
    }
  }

  ghost function Apply(s: Tasks, e: Event): Tasks
    requires Inv(s, []) && Enabled(s, e)
  {
    BeginKeepsInv(s, e);
    Settle(Begin(s, e).0, Begin(s, e).1)
  }

  ghost predicate Run(states: seq<Tasks>, events: seq<Event>) {
    && |states| == |events| + 1 && states[0] == Tasks([], [], [], [], [], [])
    && forall k :: 0 <= k < |events| ==>
         Enabled(states[k], events[k]) && (Inv(states[k], []) ==> states[k + 1] == Apply(states[k], events[k]))
  }

  lemma {:induction false} RunKeepsInv(states: seq<Tasks>, events: seq<Event>, k: nat)
    requires Run(states, events) && k < |states|
    ensures Inv(states[k], [])
  {
    if k > 0 {
      RunKeepsInv(states, events, k - 1);
      BeginKeepsInv(states[k - 1], events[k - 1]);
      var b := Begin(states[k - 1], events[k - 1]);
      SettleKeepsInv(b.0, b.1);
    }
  }

  /** In every run a frame's count is the number of its handles plus one if it is in the map, a frame in
      the map or with a handle is alive, and a frame is destroyed at most once, exactly when nothing
      refers to it any more. */
  lemma CountIsHandles(states: seq<Tasks>, events: seq<Event>, k: nat, x: nat)
    requires Run(states, events) && k < |states| && x < |states[k].counts|
    ensures var s := states[k];
            && Shape(s)
            && s.counts[x] == Inside(s, x, |s.alive|) + s.outside[x] + (if s.inMap[x] then 1 else 0)
            && (s.inMap[x] || s.outside[x] > 0 ==> s.alive[x])
            && s.destroyed[x] <= 1 && (s.destroyed[x] == 1 <==> s.counts[x] == 0)
  {
    RunKeepsInv(states, events, k);
    assert FrameOk(states[k], [], x);
  }

  // -------------------------------------------------------------------- survivors

  ghost predicate Owns(s: Tasks, z: nat, y: nat) {
    z < |s.owned| && y in s.owned[z]
  }

  /** y has a handle outside the frames, or is owned, in at most k steps, by a frame that has. */
  ghost predicate HeldFromOutside(s: Tasks, y: nat, k: nat)
    decreases k
  {
    || (y < |s.outside| && s.outside[y] > 0)
    || (k > 0 && exists z: nat :: Owns(s, z, y) && HeldFromOutside(s, z, k - 1))
  }

  /** No frame owns, through any chain of handles, itself. */
  ghost predicate Acyclic(s: Tasks, rank: seq<nat>) {
    |rank| == |s.owned| && forall z: nat, y: nat :: Owns(s, z, y) && y < |rank| && z < |rank| ==> rank[y] < rank[z]
  }

  lemma {:induction false} InsideMeansOwner(s: Tasks, y: nat, n: nat)
    requires n <= |s.alive| == |s.owned|
    ensures Inside(s, y, n) > 0 <==> exists z :: 0 <= z < n && s.alive[z] && Owns(s, z, y)
  {
    if n > 0 {
      InsideMeansOwner(s, y, n - 1);
      OccMeansIn(s.owned[n - 1], y, |s.owned[n - 1]|);
      assert s.alive[n - 1] && y in s.owned[n - 1] ==> Owns(s, n - 1, y);
    }
  }

  lemma {:induction false} OccMeansIn(q: seq<nat>, y: nat, n: nat)
    requires n <= |q|
    ensures Occ(q, y, n) > 0 <==> y in q[..n]
  {
    if n > 0 {
      OccMeansIn(q, y, n - 1);
      assert q[..n] == q[..n - 1] + [q[n - 1]];
    } else {
      assert q[..n] == [];
    }
  }

  lemma {:induction false} HeldIsAlive(s: Tasks, y: nat, k: nat)
    requires Inv(s, []) && y < |s.counts| && HeldFromOutside(s, y, k)
    ensures s.alive[y]
    decreases k
  {
    assert FrameOk(s, [], y);
    if s.outside[y] == 0 {
      var z: nat :| Owns(s, z, y) && HeldFromOutside(s, z, k - 1);
      HeldIsAlive(s, z, k - 1);
      InsideMeansOwner(s, y, |s.alive|);
    }
  }

  lemma {:induction false} AliveIsHeld(s: Tasks, rank: seq<nat>, bound: nat, y: nat, k: nat)
    requires Inv(s, []) && (forall x :: 0 <= x < |s.inMap| ==> !s.inMap[x]) && Acyclic(s, rank)
    requires (forall x :: 0 <= x < |rank| ==> rank[x] < bound) && y < |s.counts| && s.alive[y] && k >= bound - rank[y]
    ensures HeldFromOutside(s, y, k)
    decreases k
  {
    assert FrameOk(s, [], y);
    if s.outside[y] == 0 {
      InsideMeansOwner(s, y, |s.alive|);
      var z: nat :| z < |s.alive| && s.alive[z] && Owns(s, z, y);
      AliveIsHeld(s, rank, bound, z, k - 1);
    }
  }

  /** Once the map is empty, and ownership is acyclic, exactly the frames survive that are held from
      outside, directly or through surviving frames; in what order the map was emptied does not matter. */
  lemma SurvivorsAreHeld(s: Tasks, rank: seq<nat>, bound: nat, y: nat)
    requires Inv(s, []) && (forall x :: 0 <= x < |s.inMap| ==> !s.inMap[x]) && Acyclic(s, rank)
    requires (forall x :: 0 <= x < |rank| ==> rank[x] < bound) && y < |s.counts|
    ensures s.alive[y] <==> HeldFromOutside(s, y, bound)
    ensures s.destroyed[y] == if HeldFromOutside(s, y, bound) then 0 else 1
  {
    assert FrameOk(s, [], y);
    if s.alive[y] {
      AliveIsHeld(s, rank, bound, y, bound);
    }
    if HeldFromOutside(s, y, bound) {
      HeldIsAlive(s, y, bound);
    }
  }

  // --------------------------------------------------- what the events alone say

  /** What a step does to the handles of frame y, and to those inside it. */
  lemma HandlesAfterStep(s: Tasks, e: Event, y: nat)
    requires Inv(s, []) && Enabled(s, e) && y < |s.counts|
    ensures var t := Apply(s, e);
            && |t.counts| == |t.outside| == |t.owned| == |t.inMap| == |s.counts| + (if e.Spawn? then 1 else 0)
            && t.outside[y] == s.outside[y] + (if e == Copy(y) then 1 else 0)
                               + (if e.MoveOut? && s.owned[e.f][|s.owned[e.f]| - 1] == y then 1 else 0)
                               - (if (e.MoveIn? || e.DropOutside?) && e.x == y then 1 else 0)
            && t.owned[y] == (if e.MoveIn? && e.f == y then s.owned[y] + [e.x]
                              else if (e.MoveOut? || e.DropInside?) && e.f == y then s.owned[y][..|s.owned[y]| - 1]
                              else s.owned[y])
            && (t.inMap[y] <==> s.inMap[y] && e != Erase(y))
  {
    BeginKeepsInv(s, e);
    SettleKeepsInv(Begin(s, e).0, Begin(s, e).1);
    if e.MoveOut? {
      assert Below(s.owned[e.f], |s.counts|);
    }
  }

  lemma SpawnGives(s: Tasks)
    requires Inv(s, [])
    ensures var t, x := Apply(s, Spawn), |s.counts|;
            && |t.counts| == x + 1 && t.counts[x] == 2 && t.alive[x] && t.inMap[x]
            && t.owned[x] == [] && t.outside[x] == 1 && t.destroyed[x] == 0
  {
    BeginKeepsInv(s, Spawn);
  }

  function Spawns(events: seq<Event>, k: nat): nat
    requires k <= |events|
  {
    if k == 0 then 0 else Spawns(events, k - 1) + (if events[k - 1].Spawn? then 1 else 0)
  }

  /** In every run the map holds exactly the frames that were spawned and never erased. */
  lemma {:induction false} InMapIffNotErased(states: seq<Tasks>, events: seq<Event>, k: nat, x: nat)
    requires Run(states, events) && k < |states|
    ensures |states[k].inMap| == Spawns(events, k)
    ensures x < Spawns(events, k) ==> (states[k].inMap[x] <==> forall j :: 0 <= j < k ==> events[j] != Erase(x))
    ensures x >= Spawns(events, k) ==> forall j :: 0 <= j < k ==> events[j] != Erase(x)
  {
    if k > 0 {
      InMapIffNotErased(states, events, k - 1, x);
      RunKeepsInv(states, events, k - 1);
      var s, e := states[k - 1], events[k - 1];
      if x < |s.counts| {
        HandlesAfterStep(s, e, x);
      }
      if e.Spawn? {
        SpawnGives(s);
      } else if |s.counts| > 0 {
        HandlesAfterStep(s, e, 0);
      }
    }
  }

  // ----------------------------------------------------------------------- cycles

  /** A live frame that nothing outside the frames keeps, directly or through other frames. */
  ghost predicate Unheld(s: Tasks, y: nat) {
    y < |s.alive| && s.alive[y] && forall k: nat :: !HeldFromOutside(s, y, k)
  }

  /** A closed chain of live frames, each owning the next one. */
  ghost predicate LiveCycle(s: Tasks, c: seq<nat>) {
    && |c| >= 2 && c[0] == c[|c| - 1]
    && (forall i :: 0 <= i < |c| ==> c[i] < |s.alive| && s.alive[c[i]])
    && forall i :: 0 <= i < |c| - 1 ==> Owns(s, c[i], c[i + 1])
  }

  ghost predicate UnheldCycle(s: Tasks, c: seq<nat>) {
    LiveCycle(s, c) && forall i: nat, k: nat :: i < |c| ==> !HeldFromOutside(s, c[i], k)
  }

  lemma UnheldOwner(s: Tasks, y: nat) returns (z: nat)
    requires Inv(s, []) && (forall x :: 0 <= x < |s.inMap| ==> !s.inMap[x]) && Unheld(s, y)
    ensures Unheld(s, z) && Owns(s, z, y)
  {
    assert FrameOk(s, [], y) && !HeldFromOutside(s, y, 0);
    InsideMeansOwner(s, y, |s.alive|);
    z :| z < |s.alive| && s.alive[z] && Owns(s, z, y);
    forall k: nat ensures !HeldFromOutside(s, z, k) {
      assert !HeldFromOutside(s, y, k + 1);
    }
  }

  ghost predicate UnheldPath(s: Tasks, p: seq<nat>) {
    (forall i :: 0 <= i < |p| ==> Unheld(s, p[i])) && forall i :: 0 <= i < |p| - 1 ==> Owns(s, p[i], p[i + 1])
  }

  lemma {:induction false} LongPath(s: Tasks, y: nat, n: nat) returns (p: seq<nat>)
    requires Inv(s, []) && (forall x :: 0 <= x < |s.inMap| ==> !s.inMap[x]) && Unheld(s, y)
    ensures |p| == n + 1 && p[n] == y && UnheldPath(s, p)
    decreases n
  {
    if n == 0 {
      p := [y];
    } else {
      var z := UnheldOwner(s, y);
      var q := LongPath(s, z, n - 1);
      p := q + [y];
    }
  }

  /** More numbers below n than n: two of them are equal. */
  lemma {:induction false} Pigeonhole(p: seq<nat>, n: nat)
    requires |p| > n && Below(p, n)
    ensures exists i, j :: 0 <= i < j < |p| && p[i] == p[j]
    decreases n
  {
    var m := |p| - 1;
    assert p[m] < n;
    if i :| 0 <= i < m && p[i] == p[m] {
    } else {
      var q := seq(m, i requires 0 <= i < m => if p[i] == n - 1 then p[m] else p[i]);
      Pigeonhole(q, n - 1);
      var i, j :| 0 <= i < j < |q| && q[i] == q[j];
      assert p[i] == p[j];
    }
  }

  /** In a state with an empty map some live frame is not held from outside if and only if ownership has a
      cycle of live frames none of which is. */
  lemma UnheldSurvivorIffCycle(s: Tasks)
    requires Inv(s, []) && forall x :: 0 <= x < |s.inMap| ==> !s.inMap[x]
    ensures (exists y: nat :: Unheld(s, y)) <==> (exists c :: UnheldCycle(s, c))
  {
    if y: nat :| Unheld(s, y) {
      var p := LongPath(s, y, |s.counts|);
      Pigeonhole(p, |s.counts|);
      var i, j :| 0 <= i < j < |p| && p[i] == p[j];
      var c := p[i..j + 1];
      assert UnheldCycle(s, c);
    }
    if c :| UnheldCycle(s, c) {
      assert Unheld(s, c[0]);
    }
  }

  /** A frame in a cycle of live frames has a live owner, so releasing handles never destroys it. */
  lemma DropKeepsCycle(s: Tasks, work: seq<nat>, c: seq<nat>)
    requires Inv(s, work) && work != [] && LiveCycle(s, c)
    ensures LiveCycle(Drop(s, work[|work| - 1]), c)
  {
    var x := work[|work| - 1];
    WorkIsAlive(s, work, |work| - 1);
    forall i | 0 <= i < |c| ensures c[i] == x ==> s.counts[x] > 1 {
      var owner := if i == 0 then c[|c| - 2] else c[i - 1];
      assert Owns(s, owner, c[i]) && s.alive[owner];
      InsideMeansOwner(s, c[i], |s.alive|);
      OccSome(work, |work| - 1, |work|);
      assert FrameOk(s, work, c[i]);
    }
  }

  lemma {:induction false} SettleKeepsCycle(s: Tasks, work: seq<nat>, c: seq<nat>)
    requires Inv(s, work) && LiveCycle(s, c)
    ensures LiveCycle(Settle(s, work), c)
    decreases AliveCount(s.alive, |s.alive|), |work|
  {
    if work != [] {
      DropKeepsInv(s, work);
      DropMeasure(s, work);
      DropKeepsCycle(s, work, c);
      SettleKeepsCycle(Drop(s, work[|work| - 1]), Next(s, work), c);
    }
  }

  /** Whether a frame is held from outside depends on handles alone, not on lives. */
  lemma {:induction false} HeldDependsOnHandles(s: Tasks, t: Tasks, y: nat, k: nat)
    requires t.owned == s.owned && t.outside == s.outside
    ensures HeldFromOutside(t, y, k) <==> HeldFromOutside(s, y, k)
    decreases k
  {
    if k > 0 {
      var m: nat := k - 1;
      forall z: nat ensures HeldFromOutside(t, z, m) <==> HeldFromOutside(s, z, m) {
        HeldDependsOnHandles(s, t, z, m);
      }
      assert forall z: nat :: Owns(t, z, y) <==> Owns(s, z, y);
    }
  }

  /** What one round of `clear` does to lives and cycles. */
  lemma EraseKeepsCycles(s: Tasks, x: nat)
    requires Inv(s, []) && Enabled(s, Erase(x))
    ensures var t := Apply(s, Erase(x));
            && Inv(t, []) && t.inMap == s.inMap[x := false] && t.owned == s.owned && t.outside == s.outside
            && (forall y :: 0 <= y < |t.alive| && t.alive[y] ==> s.alive[y])
            && (forall c :: LiveCycle(s, c) ==> LiveCycle(t, c))
  {
    BeginKeepsInv(s, Erase(x));
    var b := Begin(s, Erase(x)).0;
    SettleKeepsInv(b, [x]);
    forall c | LiveCycle(s, c) ensures LiveCycle(Settle(b, [x]), c) {
      assert LiveCycle(b, c);
      SettleKeepsCycle(b, [x], c);
    }
  }

  lemma SameCycles(s: Tasks, t: Tasks)
    requires t.owned == s.owned && t.outside == s.outside && |t.alive| == |s.alive|
    requires forall y :: 0 <= y < |t.alive| && t.alive[y] ==> s.alive[y]
    requires forall c :: LiveCycle(s, c) ==> LiveCycle(t, c)
    ensures (exists c :: UnheldCycle(t, c)) <==> (exists c :: UnheldCycle(s, c))
  {
    forall c ensures UnheldCycle(t, c) <==> UnheldCycle(s, c) {
      assert forall i :: 0 <= i < |c| - 1 ==> (Owns(t, c[i], c[i + 1]) <==> Owns(s, c[i], c[i + 1]));
      forall i: nat, k: nat | i < |c| ensures HeldFromOutside(t, c[i], k) <==> HeldFromOutside(s, c[i], k) {
        HeldDependsOnHandles(s, t, c[i], k);
      }
    }
  }

  lemma EraseSelfOwned()
    ensures var s := Tasks([2], [true], [true], [[0]], [0], [0]);
            Inv(s, []) ==> Apply(s, Erase(0)) == Tasks([1], [true], [false], [[0]], [0], [0])
  {
    var s := Tasks([2], [true], [true], [[0]], [0], [0]);
    var t := Tasks([1], [true], [false], [[0]], [0], [0]);
    var b := Begin(s, Erase(0));
    assert b.0.inMap == [false] && b.1 == [0];
    if Inv(s, []) {
      BeginKeepsInv(s, Erase(0));
      DropKeepsInv(b.0, b.1);
      assert Drop(b.0, 0).counts == t.counts && Next(b.0, b.1) == [];
    }
  }

  lemma SpawnAndMoveIn()
    ensures var s0 := Tasks([], [], [], [], [], []);
            var s1 := Tasks([2], [true], [true], [[]], [1], [0]);
            && (Inv(s0, []) ==> Apply(s0, Spawn) == s1)
            && (Inv(s1, []) ==> Apply(s1, MoveIn(0, 0)) == Tasks([2], [true], [true], [[0]], [0], [0]))
  {
    var s0 := Tasks([], [], [], [], [], []);
    var s1 := Tasks([2], [true], [true], [[]], [1], [0]);
    var b := Begin(s0, Spawn).0;
    assert b.counts == s1.counts && b.alive == s1.alive && b.inMap == s1.inMap;
    assert b.owned == s1.owned && b.outside == s1.outside && b.destroyed == s1.destroyed;
    b := Begin(s1, MoveIn(0, 0)).0;
    assert b.owned == [[0]] && b.outside == [0];
  }

  lemma SelfOwnerIsUnheld()
    ensures var s := Tasks([1], [true], [false], [[0]], [0], [0]);
            Unheld(s, 0) && UnheldCycle(s, [0, 0])
  {
    var s := Tasks([1], [true], [false], [[0]], [0], [0]);
    forall k: nat ensures !HeldFromOutside(s, 0, k) {
      NeverHeld(s, 0, k);
    }
    assert Owns(s, 0, 0);
  }

  /** The smallest cycle, as a run: a frame that comes to own its own handle outlives the map. */
  lemma CycleSurvives()
    ensures var s0 := Tasks([], [], [], [], [], []);
            var s1 := Tasks([2], [true], [true], [[]], [1], [0]);
            var s2 := Tasks([2], [true], [true], [[0]], [0], [0]);
            var s3 := Tasks([1], [true], [false], [[0]], [0], [0]);
            && Run([s0, s1, s2, s3], [Spawn, MoveIn(0, 0), Erase(0)])
            && Unheld(s3, 0) && UnheldCycle(s3, [0, 0])
  {
    SpawnAndMoveIn();
    EraseSelfOwned();
    SelfOwnerIsUnheld();
  }

  lemma {:induction false} NeverHeld(s: Tasks, y: nat, k: nat)
    requires forall x :: 0 <= x < |s.outside| ==> s.outside[x] == 0
    ensures !HeldFromOutside(s, y, k)
    decreases k
  {
    if k > 0 {
      var m: nat := k - 1;
      forall z: nat ensures !HeldFromOutside(s, z, m) {
        NeverHeld(s, z, m);
      }
    }
  }

  // -------------------------------------------------------------------- the object

  class TaskMap {
    var counts: seq<int>
    var alive: seq<bool>
    var entries: seq<bool>
    var owned: seq<seq<nat>>
    ghost var inMap: seq<bool>
    ghost var outside: seq<nat>
    ghost var destroyed: seq<nat>

    ghost function State(): Tasks
      reads this
    {
      Tasks(counts, alive, inMap, owned, outside, destroyed)
    }

    constructor ()
      ensures State() == Tasks([], [], [], [], [], []) && Valid()
    {
      counts, alive, entries, owned, inMap, outside, destroyed := [], [], [], [], [], [], [];
    }

    /** `entries` is the map; the ghost `inMap` says which entries still count as a handle. */
    ghost predicate Valid()
      reads this
    {
      entries == inMap && Inv(State(), [])
    }

    /** `executor::spawn`: the task returned by `scheduler` counts one, the map another. */
    method SpawnTask() returns (x: nat)
      requires Valid()
      modifies this
      ensures x == |old(counts)| && old(Valid()) && State() == Apply(old(State()), Spawn) && Valid()
      ensures counts == old(counts) + [2] && entries == old(entries) + [true] && owned == old(owned) + [[]]
    {
      ghost var start := State();
      BeginKeepsInv(start, Spawn);
      x := |counts|;
      counts, alive, entries, owned := counts + [1], alive + [true], entries + [false], owned + [[]];
      outside, destroyed := outside + [1], destroyed + [0];
      entries, inMap := entries[x := true], inMap + [true];
      counts := counts[x := counts[x] + 1];
      assert State() == Begin(start, Spawn).0;
    }

    /** `~internal_task`: the frame is destroyed with the last handle. `rest` are the handles the callers
        still have to release. */
    method Release(x: nat, ghost rest: seq<nat>)
      requires Inv(State(), rest + [x])
      modifies this
      ensures Inv(State(), rest) && Settle(State(), rest) == Settle(old(State()), rest + [x])
      ensures inMap == old(inMap) && owned == old(owned) && outside == old(outside) && entries == old(entries)
      ensures AliveCount(alive, |alive|) <= old(AliveCount(alive, |alive|))
      decreases AliveCount(alive, |alive|), 0
    {
      ghost var start := State();
      WorkIsAlive(start, rest + [x], |rest|);
      assert (rest + [x])[..|rest|] == rest;
      DropKeepsInv(start, rest + [x]);
      DropMeasure(start, rest + [x]);
      counts := counts[x := counts[x] - 1];
      if counts[x] == 0 {
        alive := alive[x := false];
        destroyed := destroyed[x := destroyed[x] + 1];
        assert State() == Drop(start, x);
        DestroyHandles(x, rest);
      } else {
        assert State() == Drop(start, x);
      }
    }

    /** The destructors of the handles in frame x, the youngest first. */
    method DestroyHandles(x: nat, ghost rest: seq<nat>)
      requires x < |owned| && Inv(State(), rest + owned[x])
      modifies this
      ensures Inv(State(), rest) && Settle(State(), rest) == Settle(old(State()), rest + old(owned)[x])
      ensures inMap == old(inMap) && owned == old(owned) && outside == old(outside) && entries == old(entries)
      ensures AliveCount(alive, |alive|) <= old(AliveCount(alive, |alive|))
      decreases AliveCount(alive, |alive|), 1
    {
      var q := owned[x];
      var i := |q|;
      assert q[..i] == q;
      while i > 0
        invariant 0 <= i <= |q|
        invariant Inv(State(), rest + q[..i])
        invariant Settle(State(), rest + q[..i]) == Settle(old(State()), rest + q)
        invariant inMap == old(inMap) && owned == old(owned) && outside == old(outside) && entries == old(entries)
        invariant AliveCount(alive, |alive|) <= old(AliveCount(alive, |alive|))
      {
        i := i - 1;
        LastOfPrefix(rest, q, i);
        Release(q[i], rest + q[..i]);
      }
      assert rest + q[..0] == rest;
    }

    /** `erase_task`, and one round of `clear`: the map's handle is released, with all destructions that
        follow, before the entry is erased. The destructions do not touch the map. */
    method EraseTask(x: nat)
      requires Valid() && x < |entries| && entries[x]
      modifies this
      ensures owned == old(owned) && outside == old(outside)
      ensures old(Valid()) && State() == Apply(old(State()), Erase(x)) && Valid()
      ensures entries == old(entries)[x := false]
      ensures |alive| == |old(alive)| && forall y :: 0 <= y < |alive| && alive[y] ==> old(alive)[y]
      ensures forall c :: LiveCycle(old(State()), c) ==> LiveCycle(State(), c)
    {
      BeginKeepsInv(State(), Erase(x));
      EraseKeepsCycles(State(), x);
      inMap := inMap[x := false];
      assert [] + [x] == [x];
      Release(x, []);
      entries := entries[x := false];
    }

    predicate Empty()
      reads this
    {
      forall x :: 0 <= x < |entries| ==> !entries[x]
    }

    /** `clear` ends, whatever frames it takes in whatever order, with every count right, an empty map and
        every handle outside the frames untouched. A frame survives that nobody holds from outside if and
        only if before the call there was a cycle of live frames that nobody held; and with acyclic
        ownership exactly the frames held from outside are left. */
    method Clear()
      requires Valid()
      modifies this
      ensures Valid() && Empty() && owned == old(owned) && outside == old(outside)
      ensures (exists y: nat :: Unheld(State(), y)) <==> (exists c :: UnheldCycle(old(State()), c))
      ensures forall rank, bound: nat, y: nat ::
        Acyclic(State(), rank) && (forall x :: 0 <= x < |rank| ==> rank[x] < bound) && y < |alive|
        ==> (alive[y] <==> HeldFromOutside(State(), y, bound))
    {
      while !Empty()
        invariant Valid() && owned == old(owned) && outside == old(outside)
        invariant |alive| == |old(alive)| && forall y :: 0 <= y < |alive| && alive[y] ==> old(alive)[y]
        invariant forall c :: LiveCycle(old(State()), c) ==> LiveCycle(State(), c)
        decreases AliveCount(entries, |entries|)
      {
        var x :| 0 <= x < |entries| && entries[x];
        FewerAlive(entries, x, |entries|);
        EraseTask(x);
      }
      UnheldSurvivorIffCycle(State());
      SameCycles(old(State()), State());
      forall rank, bound: nat, y: nat |
        Acyclic(State(), rank) && (forall x :: 0 <= x < |rank| ==> rank[x] < bound) && y < |alive|
        ensures alive[y] <==> HeldFromOutside(State(), y, bound)
      {
        SurvivorsAreHeld(State(), rank, bound, y);
      }
    }
  }
}
