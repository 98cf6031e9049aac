/** The idle check: `duration_to_timespec` (include/fiona/detail/time.hpp:15-25) and the part of
    `timeout_frame::await_process_cqe` that cancels an idle receive or send
    (src/detail/stream_impl.hpp:498-532).

    Times are nanoseconds of the steady clock. */
module IdleWindows {

  const NANO := 1_000_000_000

  // -------------------------------------------------------------- the conversion

  datatype Timespec = Timespec(sec: int, nsec: int)

  /** `d` is the duration in seconds; `floor` rounds down, `duration_cast` towards zero. */
  function DurationToTimespec(d: real): (ts: Timespec)
  {
    var sec := d.Floor;
    Timespec(sec, ((d - sec as real) * NANO as real).Floor)
  }

  /** `max_diff`. */
  function Period(ts: Timespec): int {
    ts.sec * NANO + ts.nsec
  }

  /** The timespec is normalised, for negative durations too, and its period is the duration rounded
      down to nanoseconds; no other normalised timespec has that period. */
  lemma TimespecEncodesPeriod(d: real, other: Timespec)
    ensures var ts := DurationToTimespec(d);
            && 0 <= ts.nsec < 1_000_000_000 && Period(ts) == ts.sec * 1_000_000_000 + ts.nsec
            && Period(ts) as real <= d * 1_000_000_000.0 < Period(ts) as real + 1.0
            && (0 <= other.nsec < 1_000_000_000 && Period(other) == Period(ts) ==> other == ts)
  {
    var ts := DurationToTimespec(d);
    var rest := (d - ts.sec as real) * NANO as real;
    assert rest == d * NANO as real - (ts.sec * NANO) as real;
  }

  // -------------------------------------------------------------------- the check

  /** One direction of a stream: whether an operation is in flight, and `last_recv_`/`last_send_`. */
  datatype Watch = Watch(active: bool, last: int)

  datatype Watches = Watches(recv: Watch, send: Watch) {
    function Get(dir: Dir): Watch {
      if dir.Recv? then recv else send
    }

    function Set(dir: Dir, w: Watch): Watches {
      if dir.Recv? then this.(recv := w) else this.(send := w)
    }
  }

  datatype Dir = Recv | Send

  predicate Overdue(w: Watch, now: int, period: int) {
    w.active && now - w.last >= period
  }

  method ShouldCancel(w: Watches, now: int, ts: Timespec) returns (shouldCancel: bool)
    ensures shouldCancel <==> exists dir :: Overdue(w.Get(dir), now, Period(ts))
    ensures var period := ts.sec * 1_000_000_000 + ts.nsec;
            shouldCancel <==> (w.recv.active && now - w.recv.last >= period) || (w.send.active && now - w.send.last >= period)
  {
    var maxDiff := ts.sec * NANO + ts.nsec;
    shouldCancel := false;
    if w.recv.active {
      var diff := now - w.recv.last;
      if diff >= maxDiff {
        assert Overdue(w.Get(Recv), now, Period(ts));
        shouldCancel := true;
      }
    }
    if w.send.active {
      var diff := now - w.send.last;
      if diff >= maxDiff {
        assert Overdue(w.Get(Send), now, Period(ts));
        shouldCancel := true;
      }
    }
  }

  // ----------------------------------------------------------------------- traces

  datatype What =
    | Touch(dir: Dir)  // an operation starts, or a multishot receive delivers data and goes on
    | End(dir: Dir)    // the operation ends
    | Tick             // the timer

  datatype Event = At(time: int, what: What)

  function Step(w: Watches, e: Event): Watches {
    match e.what
    case Touch(dir) => w.Set(dir, Watch(true, e.time))
    case End(dir) => w.Set(dir, w.Get(dir).(active := false))
    case Tick => w
  }

  /** The fields after the first n events. */
  function After(evs: seq<Event>, n: nat): Watches
    requires n <= |evs|
  {
    if n == 0 then Watches(Watch(false, 0), Watch(false, 0)) else Step(After(evs, n - 1), evs[n - 1])
  }

  /** Event i is a tick that cancels because of `dir`. */
  predicate CancelsFor(evs: seq<Event>, i: nat, dir: Dir, period: int)
    requires i < |evs|
  {
    evs[i].what.Tick? && Overdue(After(evs, i).Get(dir), evs[i].time, period)
  }

  function Ticks(evs: seq<Event>, n: nat): nat
    requires n <= |evs|
  {
    if n == 0 then 0 else Ticks(evs, n - 1) + (if evs[n - 1].what.Tick? then 1 else 0)
  }

  /** When the q-th tick of a timer armed at `base` is due. */
  function Due(base: int, period: int, q: nat): int {
    if q == 0 then base else Due(base, period, q - 1) + period
  }

  /** Event i is not later than the tick that is due next, and exact if it is that tick. */
  ghost predicate OnTime(evs: seq<Event>, i: nat, base: int, period: int)
    requires i < |evs|
  {
    var due := Due(base, period, Ticks(evs, i) + 1);
    base <= evs[i].time <= due && (evs[i].what.Tick? ==> evs[i].time == due)
  }

  ghost predicate Timely(evs: seq<Event>, base: int, period: int) {
    && period > 0
    && (forall i, j :: 0 <= i < j < |evs| ==> evs[i].time <= evs[j].time)
    && (forall i :: 0 <= i < |evs| ==> OnTime(evs, i, base, period))
  }

  /** From event j on, up to event n, `dir` has an operation in flight but nothing happens to it. */
  ghost predicate Quiet(evs: seq<Event>, j: nat, n: nat, dir: Dir) {
    && j < n <= |evs| && evs[j].what == Touch(dir)
    && forall k :: j < k < n ==> evs[k].what != Touch(dir) && evs[k].what != End(dir)
  }

  lemma {:induction false} QuietKeepsLast(evs: seq<Event>, j: nat, n: nat, dir: Dir)
    requires Quiet(evs, j, n, dir)
    ensures After(evs, n).Get(dir) == Watch(true, evs[j].time)
  {
    if n > j + 1 {
      QuietKeepsLast(evs, j, n - 1, dir);
    }
  }

  lemma {:induction false} LastTouch(evs: seq<Event>, n: nat, dir: Dir) returns (j: nat)
    requires n <= |evs| && After(evs, n).Get(dir).active
    ensures Quiet(evs, j, n, dir)
  {
    if evs[n - 1].what == Touch(dir) {
      j := n - 1;
    } else {
      j := LastTouch(evs, n - 1, dir);
    }
  }

  lemma {:induction false} FindTick(evs: seq<Event>, n: nat, q: nat) returns (m: nat)
    requires n <= |evs| && 1 <= q <= Ticks(evs, n)
    ensures m < n && evs[m].what.Tick? && Ticks(evs, m) + 1 == q
  {
    if evs[n - 1].what.Tick? && Ticks(evs, n) == q {
      m := n - 1;
    } else {
      m := FindTick(evs, n - 1, q);
    }
  }

  lemma {:induction false} DueIsMonotone(base: int, period: int, p: nat, q: nat)
    requires p <= q && period > 0
    ensures Due(base, period, p) + (q - p) <= Due(base, period, q)
  {
    if p < q {
      DueIsMonotone(base, period, p, q - 1);
    }
  }

  /** The first tick that is due at `x` or later. */
  lemma {:induction false} FirstDue(base: int, period: int, x: int, from: nat) returns (q: nat)
    requires period > 0 && Due(base, period, from) < x
    ensures q > from && Due(base, period, q - 1) < x <= Due(base, period, q)
    decreases x - Due(base, period, from)
  {
    if Due(base, period, from + 1) >= x {
      q := from + 1;
    } else {
      q := FirstDue(base, period, x, from + 1);
    }
  }

  /** No cancel comes early: if a tick cancels because of `dir`, an operation is in flight and its last
      activity is at least a full period old. */
  lemma CancelNeverEarly(evs: seq<Event>, i: nat, dir: Dir, period: int)
    requires i < |evs|
    ensures CancelsFor(evs, i, dir, period) <==>
      evs[i].what.Tick? && exists j: nat :: Quiet(evs, j, i, dir) && evs[j].time + period <= evs[i].time
  {
    if CancelsFor(evs, i, dir, period) {
      var j := LastTouch(evs, i, dir);
      QuietKeepsLast(evs, j, i, dir);
    }
    if j: nat :| Quiet(evs, j, i, dir) && evs[j].time + period <= evs[i].time {
      QuietKeepsLast(evs, j, i, dir);
    }
  }

  /** A stream whose operations are touched again within the period is never cancelled. */
  lemma RecurringActivityIsSafe(evs: seq<Event>, i: nat, dir: Dir, period: int, j: nat)
    requires j < i < |evs| && evs[j].what == Touch(dir) && evs[i].time < evs[j].time + period
    requires forall a, b :: 0 <= a < b < |evs| ==> evs[a].time <= evs[b].time
    ensures !CancelsFor(evs, i, dir, period)
  {
    CancelNeverEarly(evs, i, dir, period);
    forall k: nat | Quiet(evs, k, i, dir) ensures evs[j].time <= evs[k].time {
      assert j <= k;
    }
  }

  lemma {:induction false} TicksGrow(evs: seq<Event>, a: nat, b: nat)
    requires a <= b <= |evs|
    ensures Ticks(evs, a) <= Ticks(evs, b)
  {
    if a < b {
      TicksGrow(evs, a, b - 1);
    }
  }

  /** By t + 2 periods there has been a first tick at t + period or later; it is before t + 2 periods. */
  lemma WindowTick(evs: seq<Event>, base: int, period: int, t: int, n: nat) returns (m: nat)
    requires Timely(evs, base, period) && n < |evs| && base <= t && t + 2 * period <= evs[n].time
    ensures m < n && evs[m].what.Tick? && t + period <= evs[m].time < t + 2 * period
    ensures forall k :: 0 <= k < m && evs[k].what.Tick? ==> evs[k].time < t + period
  {
    assert Due(base, period, 0) < t + period;
    var q := FirstDue(base, period, t + period, 0);
    assert OnTime(evs, n, base, period);
    if Ticks(evs, n) + 1 <= q {
      DueIsMonotone(base, period, Ticks(evs, n) + 1, q);
    }
    m := FindTick(evs, n, q);
    assert OnTime(evs, m, base, period);
    forall k | 0 <= k < m && evs[k].what.Tick? ensures evs[k].time < t + period {
      EarlierTick(evs, base, period, k, m);
    }
  }

  lemma EarlierTick(evs: seq<Event>, base: int, period: int, k: nat, m: nat)
    requires Timely(evs, base, period) && k < m < |evs| && evs[k].what.Tick? && evs[m].what.Tick?
    ensures Due(base, period, Ticks(evs, m)) >= evs[k].time
  {
    assert OnTime(evs, k, base, period);
    TicksGrow(evs, k + 1, m);
    DueIsMonotone(base, period, Ticks(evs, k) + 1, Ticks(evs, m));
  }

  /** The window: an operation last touched at time t, with nothing happening to it until t + 2 periods,
      is cancelled by a tick at or after t + period and strictly before t + 2 periods, and by no earlier
      tick. */
  lemma CancelWindow(evs: seq<Event>, base: int, period: int, j: nat, n: nat, dir: Dir)
    requires Timely(evs, base, period) && n < |evs| && Quiet(evs, j, n, dir)
    requires evs[j].time + 2 * period <= evs[n].time
    ensures exists m ::
      && j < m < n && CancelsFor(evs, m, dir, period)
      && evs[j].time + period <= evs[m].time < evs[j].time + 2 * period
      && forall k :: j < k < m ==> !CancelsFor(evs, k, dir, period)
  {
    assert OnTime(evs, j, base, period);
    var m := WindowTick(evs, base, period, evs[j].time, n);
    QuietKeepsLast(evs, j, m, dir);
    forall k | j < k < m ensures !CancelsFor(evs, k, dir, period) {
      QuietKeepsLast(evs, j, k, dir);
    }
    assert CancelsFor(evs, m, dir, period);
  }
}
