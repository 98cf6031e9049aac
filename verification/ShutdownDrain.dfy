/** The completions left over when the runtime shuts down: the destructor of `guard`
    (src/io_context.cpp:140-176) against what `io_context::run` does with the same completions
    (src/io_context.cpp:260-274).

    The drain does not process completions, so it cannot tell which one ends its operation; it releases
    one reference the first time it meets a `user_data`. Several frames share one object and its count. */
module ShutdownDrain {

  /** `more` says that the operation goes on: a multishot completion with `F_MORE`, or a timer that is armed
      again. */
  datatype Cqe = NoData | Of(frame: nat, more: bool)

  /** `owner[f]` is the object frame f is part of. */
  ghost predicate Valid(cq: seq<Cqe>, owner: seq<nat>, counts: seq<int>) {
    && (forall i :: 0 <= i < |cq| && cq[i].Of? ==> cq[i].frame < |owner|)
    && (forall f :: 0 <= f < |owner| ==> owner[f] < |counts|)
  }

  // -------------------------------------------------------------- what run() does

  /** One completion: its reference is adopted, processing adds one if the operation goes on, and the
      adopted one is released. */
  function RunOne(count: int, c: Cqe): int {
    (if c.Of? && c.more then count + 1 else count) - (if c.Of? then 1 else 0)
  }

  /** The count of object o after `run` has handled the first n completions. */
  function AfterRun(cq: seq<Cqe>, owner: seq<nat>, count: int, o: nat, n: nat): int
    requires n <= |cq|
  {
    if n == 0 then count
    else
      var before := AfterRun(cq, owner, count, o, n - 1);
      if IsOf(cq[n - 1], owner, o) then RunOne(before, cq[n - 1]) else before
  }

  predicate IsOf(c: Cqe, owner: seq<nat>, o: nat) {
    c.Of? && c.frame < |owner| && owner[c.frame] == o
  }

  // -------------------------------------------------------- per-frame observations

  predicate Occurs(cq: seq<Cqe>, f: nat, n: nat)
    requires n <= |cq|
  {
    n > 0 && (Occurs(cq, f, n - 1) || (cq[n - 1].Of? && cq[n - 1].frame == f))
  }

  /** Operations of frame f that end within the first n completions. */
  function Endings(cq: seq<Cqe>, f: nat, n: nat): nat
    requires n <= |cq|
  {
    if n == 0 then 0 else Endings(cq, f, n - 1) + (if cq[n - 1] == Of(f, false) then 1 else 0)
  }

  lemma {:induction false} EndingsOccur(cq: seq<Cqe>, f: nat, n: nat)
    requires n <= |cq|
    ensures Endings(cq, f, n) > 0 ==> Occurs(cq, f, n)
  {
    if n > 0 {
      EndingsOccur(cq, f, n - 1);
    }
  }

  /** Frames of object o, among the first k, that occur. */
  function Occurring(cq: seq<Cqe>, owner: seq<nat>, o: nat, n: nat, k: nat): nat
    requires n <= |cq| && k <= |owner|
  {
    if k == 0 then 0
    else Occurring(cq, owner, o, n, k - 1) + (if owner[k - 1] == o && Occurs(cq, k - 1, n) then 1 else 0)
  }

  /** Operations of object o, among its first k frames, that end. */
  function Ended(cq: seq<Cqe>, owner: seq<nat>, o: nat, n: nat, k: nat): nat
    requires n <= |cq| && k <= |owner|
  {
    if k == 0 then 0
    else Ended(cq, owner, o, n, k - 1) + (if owner[k - 1] == o then Endings(cq, k - 1, n) else 0)
  }

  lemma {:induction false} OccurringStep(cq: seq<Cqe>, owner: seq<nat>, o: nat, n: nat, k: nat)
    requires 0 < n <= |cq| && k <= |owner|
    ensures Occurring(cq, owner, o, n, k) == Occurring(cq, owner, o, n - 1, k) +
      (if IsOf(cq[n - 1], owner, o) && cq[n - 1].frame < k && !Occurs(cq, cq[n - 1].frame, n - 1) then 1 else 0)
  {
    if k > 0 {
      OccurringStep(cq, owner, o, n, k - 1);
    }
  }

  lemma {:induction false} EndedStep(cq: seq<Cqe>, owner: seq<nat>, o: nat, n: nat, k: nat)
    requires 0 < n <= |cq| && k <= |owner|
    ensures Ended(cq, owner, o, n, k) == Ended(cq, owner, o, n - 1, k) +
      (if IsOf(cq[n - 1], owner, o) && cq[n - 1].frame < k && !cq[n - 1].more then 1 else 0)
  {
    if k > 0 {
      EndedStep(cq, owner, o, n, k - 1);
    }
  }

  lemma {:induction false} NothingYet(cq: seq<Cqe>, owner: seq<nat>, o: nat, k: nat)
    requires k <= |owner|
    ensures Occurring(cq, owner, o, 0, k) == 0 && Ended(cq, owner, o, 0, k) == 0
  {
    if k > 0 {
      NothingYet(cq, owner, o, k - 1);
    }
  }

  /** `run` releases one reference per operation that ends, however many completions it had. */
  lemma {:induction false} RunReleasesEndings(cq: seq<Cqe>, owner: seq<nat>, count: int, o: nat, n: nat)
    requires n <= |cq|
    ensures AfterRun(cq, owner, count, o, n) == count - Ended(cq, owner, o, n, |owner|)
  {
    NothingYet(cq, owner, o, |owner|);
    if n > 0 {
      RunReleasesEndings(cq, owner, count, o, n - 1);
      EndedStep(cq, owner, o, n, |owner|);
    }
  }

  // -------------------------------------------------------------------- the drain

  /** The drain; `counts` are the reference counts. `cq` is everything it will find, including what
      destructors add while it runs. */
  method Drain(cq: seq<Cqe>, owner: seq<nat>, counts: seq<int>) returns (after: seq<int>)
    requires Valid(cq, owner, counts)
    ensures |after| == |counts|
    ensures forall o :: 0 <= o < |counts| ==> after[o] == counts[o] - Occurring(cq, owner, o, |cq|, |owner|)
  {
    after := counts;
    var blacklist: set<nat> := {};
    forall o | 0 <= o < |counts| ensures Occurring(cq, owner, o, 0, |owner|) == 0 {
      NothingYet(cq, owner, o, |owner|);
    }
    var i := 0;
    while i < |cq|
      invariant 0 <= i <= |cq| && |after| == |counts|
      invariant forall f: nat :: f in blacklist <==> Occurs(cq, f, i)
      invariant forall o :: 0 <= o < |counts| ==> after[o] == counts[o] - Occurring(cq, owner, o, i, |owner|)
    {
      forall o | 0 <= o < |counts|
        ensures Occurring(cq, owner, o, i + 1, |owner|) == Occurring(cq, owner, o, i, |owner|) +
          (if IsOf(cq[i], owner, o) && !Occurs(cq, cq[i].frame, i) then 1 else 0)
      {
        OccurringStep(cq, owner, o, i + 1, |owner|);
      }
      var c := cq[i];
      i := i + 1;
      if c.NoData? {
        continue;
      }
      var p := c.frame;
      if p in blacklist {
        continue;
      }
      blacklist := blacklist + {p};
      after := after[owner[p] := after[owner[p]] - 1];
    }
  }

  // ------------------------------------------------------------------ equivalence

  lemma {:induction false} EndedVersusOccurring(cq: seq<Cqe>, owner: seq<nat>, o: nat, n: nat, k: nat)
    requires n <= |cq| && k <= |owner|
    requires forall f :: 0 <= f < k && owner[f] == o ==> Endings(cq, f, n) <= 1
    ensures Ended(cq, owner, o, n, k) <= Occurring(cq, owner, o, n, k)
    ensures Ended(cq, owner, o, n, k) == Occurring(cq, owner, o, n, k) <==>
      forall f :: 0 <= f < k && owner[f] == o && Occurs(cq, f, n) ==> Endings(cq, f, n) == 1
  {
    if k > 0 {
      EndedVersusOccurring(cq, owner, o, n, k - 1);
      EndingsOccur(cq, k - 1, n);
    }
  }

  /** With at most one operation ending per frame, the drain leaves an object's count where `run` would
      have left it if and only if every frame of it that has completions has its last one among them. */
  lemma DrainMatchesRun(cq: seq<Cqe>, owner: seq<nat>, count: int, o: nat)
    requires forall f :: 0 <= f < |owner| && owner[f] == o ==> Endings(cq, f, |cq|) <= 1
    ensures count - Occurring(cq, owner, o, |cq|, |owner|) <= AfterRun(cq, owner, count, o, |cq|)
    ensures count - Occurring(cq, owner, o, |cq|, |owner|) == AfterRun(cq, owner, count, o, |cq|) <==>
      forall f :: 0 <= f < |owner| && owner[f] == o && Occurs(cq, f, |cq|) ==> Endings(cq, f, |cq|) == 1
  {
    RunReleasesEndings(cq, owner, count, o, |cq|);
    EndedVersusOccurring(cq, owner, o, |cq|, |owner|);
  }

  /** What `run` releases in the end for the completions of frame f alone. */
  function RunForFrame(cq: seq<Cqe>, f: nat, n: nat): int
    requires n <= |cq|
  {
    if n == 0 then 0
    else RunForFrame(cq, f, n - 1) - (if cq[n - 1].Of? && cq[n - 1].frame == f then RunOne(0, cq[n - 1]) else 0)
  }

  /** What the drain releases for them: one reference at the first. */
  function DrainForFrame(cq: seq<Cqe>, f: nat, n: nat): int
    requires n <= |cq|
  {
    if n == 0 then 0
    else DrainForFrame(cq, f, n - 1) + (if cq[n - 1].Of? && cq[n - 1].frame == f && !Occurs(cq, f, n - 1) then 1 else 0)
  }

  lemma {:induction false} ForFrame(cq: seq<Cqe>, f: nat, n: nat)
    requires n <= |cq|
    ensures RunForFrame(cq, f, n) == Endings(cq, f, n)
    ensures DrainForFrame(cq, f, n) == if Occurs(cq, f, n) then 1 else 0
  {
    if n > 0 {
      ForFrame(cq, f, n - 1);
    }
  }

  /** Frame by frame and without any assumption: the drain releases what `run` releases if and only if
      exactly one operation of the frame ends, should it have completions at all. It releases too much if
      none ends, and too little if several do. */
  lemma DrainMatchesRunPerFrame(cq: seq<Cqe>, f: nat)
    ensures var run, drain := RunForFrame(cq, f, |cq|), DrainForFrame(cq, f, |cq|);
            && (drain == run <==> (Occurs(cq, f, |cq|) ==> Endings(cq, f, |cq|) == 1))
            && (drain > run <==> Occurs(cq, f, |cq|) && Endings(cq, f, |cq|) == 0)
            && (drain < run <==> Endings(cq, f, |cq|) > 1)
  {
    ForFrame(cq, f, |cq|);
    EndingsOccur(cq, f, |cq|);
  }

  /** For a whole object the difference is the difference of the two sums over its frames. */
  lemma DrainVersusRun(cq: seq<Cqe>, owner: seq<nat>, count: int, o: nat)
    ensures AfterRun(cq, owner, count, o, |cq|) - (count - Occurring(cq, owner, o, |cq|, |owner|)) ==
      Occurring(cq, owner, o, |cq|, |owner|) - Ended(cq, owner, o, |cq|, |owner|)
  {
    RunReleasesEndings(cq, owner, count, o, |cq|);
  }

  /** Two overlapping one-shot operations of one frame, both ended: the drain keeps a reference for good. */
  lemma DrainKeepsOverlapping()
    ensures var cq := [Of(0, false), Of(0, false)];
            Occurring(cq, [0], 0, 2, 1) == 1 && AfterRun(cq, [0], 2, 0, 2) == 0
  {
    var cq := [Of(0, false), Of(0, false)];
    assert AfterRun(cq, [0], 2, 0, 0) == 2;
    assert AfterRun(cq, [0], 2, 0, 1) == 1;
    assert Occurs(cq, 0, 2);
    assert Occurring(cq, [0], 0, 2, 0) == 0;
  }

  /** Where it does not match: a multishot operation that is still going on loses its reference. */
  lemma DrainReleasesLiveMultishot()
    ensures Occurring([Of(0, true)], [0], 0, 1, 1) == 1 && AfterRun([Of(0, true)], [0], 1, 0, 1) == 1
  {
    assert Occurring([Of(0, true)], [0], 0, 1, 0) == 0;
    assert AfterRun([Of(0, true)], [0], 1, 0, 0) == 1;
    assert !Occurs([Of(0, true)], 0, 0);
    assert Occurs([Of(0, true)], 0, 1);
  }

  /** Operations in flight for the first k frames of object o. */
  function Owed(ops: seq<nat>, owner: seq<nat>, o: nat, k: nat): nat
    requires k <= |owner| == |ops|
  {
    if k == 0 then 0 else Owed(ops, owner, o, k - 1) + (if owner[k - 1] == o then ops[k - 1] else 0)
  }

  lemma {:induction false} OccurringIsOwed(cq: seq<Cqe>, ops: seq<nat>, owner: seq<nat>, o: nat, n: nat, k: nat)
    requires n <= |cq| && k <= |owner| == |ops|
    requires forall f :: 0 <= f < k && Occurs(cq, f, n) ==> ops[f] > 0
    ensures Occurring(cq, owner, o, n, k) <= Owed(ops, owner, o, k)
    ensures Occurring(cq, owner, o, n, k) == Owed(ops, owner, o, k) <==>
      forall f :: 0 <= f < k && owner[f] == o ==> ops[f] == if Occurs(cq, f, n) then 1 else 0
  {
    if k > 0 {
      OccurringIsOwed(cq, ops, owner, o, n, k - 1);
    }
  }

  /** When the count of an object is its handles plus its operations in flight, and only frames with an
      operation in flight have completions, the drain never goes below the handles; so no object is
      released again after it is deleted. It ends with exactly the handles if and only if each frame of
      the object has one operation in flight when it has completions and none otherwise. */
  lemma DrainLeavesHandles(cq: seq<Cqe>, ops: seq<nat>, owner: seq<nat>, count: int, handles: nat, o: nat, n: nat)
    requires n <= |cq| && |owner| == |ops|
    requires count == handles + Owed(ops, owner, o, |owner|)
    requires forall f :: 0 <= f < |owner| && Occurs(cq, f, n) ==> ops[f] > 0
    ensures count - Occurring(cq, owner, o, n, |owner|) >= handles
    ensures count - Occurring(cq, owner, o, n, |owner|) == handles <==>
      forall f :: 0 <= f < |owner| && owner[f] == o ==> ops[f] == if Occurs(cq, f, n) then 1 else 0
  {
    OccurringIsOwed(cq, ops, owner, o, n, |owner|);
  }

  /** So the object is alive whenever the drain releases it: before the first completion of a frame is
      met, the count is positive. */
  lemma ReleasedWhileAlive(cq: seq<Cqe>, ops: seq<nat>, owner: seq<nat>, count: int, handles: nat, n: nat)
    requires 0 < n <= |cq| && |owner| == |ops| && cq[n - 1].Of? && cq[n - 1].frame < |owner|
    requires !Occurs(cq, cq[n - 1].frame, n - 1)
    requires count == handles + Owed(ops, owner, owner[cq[n - 1].frame], |owner|)
    requires forall f :: 0 <= f < |owner| && Occurs(cq, f, n) ==> ops[f] > 0
    ensures count - Occurring(cq, owner, owner[cq[n - 1].frame], n - 1, |owner|) > 0
  {
    var o := owner[cq[n - 1].frame];
    DrainLeavesHandles(cq, ops, owner, count, handles, o, n);
    OccurringStep(cq, owner, o, n, |owner|);
  }
}
