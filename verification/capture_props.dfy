/** Properties of the capture run: how many iterations run, what each one
    does and in which order, which progress values are posted, how long the
    worker sleeps, and the single clean-up at the end. */
module CaptureProperties {
  import opened Capture

  /** Iteration `j` occupies positions `3 * j`, `3 * j + 1` and `3 * j + 2`
      of the loop's trace. */
  ghost predicate IterationAt(t: seq<Event>, j: nat, present: bool, wait: nat, total: nat) {
    && 3 * j + 3 <= |t|
    && t[3 * j] == ShotEvent(j, present)
    && t[3 * j + 1] == Sleep(wait)
    && t[3 * j + 2] == Progress(j, total)
  }

  lemma {:induction false} RunFromShape(i: nat, steps: int, wait: nat, stopSeen: seq<bool>, devicePresent: seq<bool>)
    requires OraclesCover(steps, stopSeen, devicePresent) && i <= RangeLen(steps)
    ensures var t := RunFrom(i, steps, wait, stopSeen, devicePresent);
            var k := ExitFrom(i, steps, stopSeen);
            && |t| == 3 * (k - i)
            && forall j | i <= j < k :: t[3 * (j - i) .. 3 * (j - i) + 3] == IterationEvents(j, devicePresent[j], wait, steps)
    decreases RangeLen(steps) - i
  {
    if steps <= i || stopSeen[i] {
    } else {
      var t := RunFrom(i, steps, wait, stopSeen, devicePresent);
      var rest := RunFrom(i + 1, steps, wait, stopSeen, devicePresent);
      var k := ExitFrom(i, steps, stopSeen);
      RunFromShape(i + 1, steps, wait, stopSeen, devicePresent);
      assert t == IterationEvents(i, devicePresent[i], wait, steps) + rest;
      forall j | i <= j < k
        ensures t[3 * (j - i) .. 3 * (j - i) + 3] == IterationEvents(j, devicePresent[j], wait, steps)
      {
        if j > i {
          assert t[3 * (j - i) .. 3 * (j - i) + 3] == rest[3 * (j - i - 1) .. 3 * (j - i - 1) + 3];
        }
      }
    }
  }

  /** The closed form of a capture trace: `k` iterations of shot (or skip),
      sleep and progress, in ascending order, then the clean-up. */
  lemma CaptureShape(steps: int, wait: nat, stopSeen: seq<bool>, devicePresent: seq<bool>)
    requires OraclesCover(steps, stopSeen, devicePresent)
    ensures var t := CaptureTrace(steps, wait, stopSeen, devicePresent);
            var k := IterationCount(steps, stopSeen);
            && |t| == 3 * k + 1
            && t[3 * k] == Finished
            && forall j | 0 <= j < k :: steps > j && IterationAt(t, j, devicePresent[j], wait, steps)
  {
    var t := CaptureTrace(steps, wait, stopSeen, devicePresent);
    var k := IterationCount(steps, stopSeen);
    RunFromShape(0, steps, wait, stopSeen, devicePresent);
    var body := RunFrom(0, steps, wait, stopSeen, devicePresent);
    forall j | 0 <= j < k
      ensures steps > j && IterationAt(t, j, devicePresent[j], wait, steps)
    {
      var slots := body[3 * j .. 3 * j + 3];
      assert slots == IterationEvents(j, devicePresent[j], wait, steps);
      assert slots[0] == ShotEvent(j, devicePresent[j]);
      assert slots[1] == Sleep(wait);
      assert slots[2] == Progress(j, steps);
      assert t[3 * j] == body[3 * j] == slots[0];
      assert t[3 * j + 1] == body[3 * j + 1] == slots[1];
      assert t[3 * j + 2] == body[3 * j + 2] == slots[2];
    }
  }

  /** If `steps <= 0` the range is empty: the worker only posts the clean-up. */
  lemma EmptyRangeOnlyFinished(steps: int, wait: nat, stopSeen: seq<bool>, devicePresent: seq<bool>)
    requires OraclesCover(steps, stopSeen, devicePresent)
    requires steps <= 0
    ensures CaptureTrace(steps, wait, stopSeen, devicePresent) == [Finished]
  {
  }

  /** A stop first seen at iteration `k` leaves the loop after exactly `k`
      iterations: nothing belongs to an iteration at or past `k`, and the
      worker slept exactly `k` times. */
  lemma StopFirstSeenAt(k: nat, steps: int, wait: nat, stopSeen: seq<bool>, devicePresent: seq<bool>)
    requires OraclesCover(steps, stopSeen, devicePresent)
    requires k < steps && stopSeen[k] && forall j | 0 <= j < k :: !stopSeen[j]
    ensures var t := CaptureTrace(steps, wait, stopSeen, devicePresent);
            && |t| == 3 * k + 1
            && (forall p | 0 <= p < |t| && HasShot(t[p]) :: t[p].shot < k)
            && SleepCount(t) == k
  {
    var t := CaptureTrace(steps, wait, stopSeen, devicePresent);
    assert IsIterationCount(k, steps, stopSeen);
    CaptureShape(steps, wait, stopSeen, devicePresent);
    ShotsNumberedByPosition(steps, wait, stopSeen, devicePresent);
    SleepsOfRun(steps, wait, stopSeen, devicePresent);
  }

  /** Every event of an iteration sits in that iteration's three slots. */
  lemma ShotsNumberedByPosition(steps: int, wait: nat, stopSeen: seq<bool>, devicePresent: seq<bool>)
    requires OraclesCover(steps, stopSeen, devicePresent)
    ensures var t := CaptureTrace(steps, wait, stopSeen, devicePresent);
            forall p | 0 <= p < |t| && HasShot(t[p]) :: t[p].shot == p / 3
  {
    var t := CaptureTrace(steps, wait, stopSeen, devicePresent);
    var k := IterationCount(steps, stopSeen);
    CaptureShape(steps, wait, stopSeen, devicePresent);
    forall p | 0 <= p < |t| && HasShot(t[p])
      ensures t[p].shot == p / 3
    {
      var j := p / 3;
      assert j < k;
      assert IterationAt(t, j, devicePresent[j], wait, steps);
      assert p == 3 * j || p == 3 * j + 1 || p == 3 * j + 2;
    }
  }

  /** All events of iteration `i` precede those of iteration `i + 1`. */
  lemma IterationsInOrder(steps: int, wait: nat, stopSeen: seq<bool>, devicePresent: seq<bool>)
    requires OraclesCover(steps, stopSeen, devicePresent)
    ensures var t := CaptureTrace(steps, wait, stopSeen, devicePresent);
            forall p, q | 0 <= p < q < |t| && HasShot(t[p]) && HasShot(t[q]) :: t[p].shot <= t[q].shot
  {
    ShotsNumberedByPosition(steps, wait, stopSeen, devicePresent);
  }

  /** A missing device skips only the shutter command: the iteration still
      sleeps and still reports its progress. */
  lemma MissingDeviceSkipsOnlyShutter(j: nat, steps: int, wait: nat, stopSeen: seq<bool>, devicePresent: seq<bool>)
    requires OraclesCover(steps, stopSeen, devicePresent)
    requires j < IterationCount(steps, stopSeen)
    ensures var t := CaptureTrace(steps, wait, stopSeen, devicePresent);
            && 3 * j + 2 < |t|
            && (t[3 * j] == Skip(j) <==> !devicePresent[j])
            && (t[3 * j] == Shutter(j) <==> devicePresent[j])
            && t[3 * j + 1] == Sleep(wait)
            && t[3 * j + 2] == Progress(j, steps)
  {
    CaptureShape(steps, wait, stopSeen, devicePresent);
    assert IterationAt(CaptureTrace(steps, wait, stopSeen, devicePresent), j, devicePresent[j], wait, steps);
  }

  /** The progress values posted, in order. */
  function ProgressValues(t: seq<Event>): seq<real> {
    if t == [] then []
    else (match t[0]
          case Progress(i, n) => [Fraction(i, n)]
          case _ => [])
         + ProgressValues(t[1..])
  }

  /** The number of times the worker sleeps. */
  function SleepCount(t: seq<Event>): nat {
    if t == [] then 0 else (if t[0].Sleep? then 1 else 0) + SleepCount(t[1..])
  }

  /** The total time the worker sleeps, in milliseconds. */
  function TotalSleep(t: seq<Event>): nat {
    if t == [] then 0 else (if t[0].Sleep? then t[0].ms else 0) + TotalSleep(t[1..])
  }

  lemma {:induction false} ProgressValuesAppend(a: seq<Event>, b: seq<Event>)
    ensures ProgressValues(a + b) == ProgressValues(a) + ProgressValues(b)
  {
    if a == [] {
      assert a + b == b;
    } else {
      assert (a + b)[1..] == a[1..] + b;
      ProgressValuesAppend(a[1..], b);
    }
  }

  lemma {:induction false} SleepAppend(a: seq<Event>, b: seq<Event>)
    ensures SleepCount(a + b) == SleepCount(a) + SleepCount(b)
    ensures TotalSleep(a + b) == TotalSleep(a) + TotalSleep(b)
  {
    if a == [] {
      assert a + b == b;
    } else {
      assert (a + b)[1..] == a[1..] + b;
      SleepAppend(a[1..], b);
    }
  }

  /** One iteration sleeps once, for `wait`, and posts one progress value. */
  lemma IterationTotals(i: nat, present: bool, wait: nat, total: nat)
    requires total > 0
    ensures var e := IterationEvents(i, present, wait, total);
            && SleepCount(e) == 1 && TotalSleep(e) == wait
            && ProgressValues(e) == [Fraction(i, total)]
  {
    var e := IterationEvents(i, present, wait, total);
    var e1 := e[1..];
    var e2 := e1[1..];
    assert e2[1..] == [];
    assert SleepCount(e2) == 0 && TotalSleep(e2) == 0;
    assert ProgressValues(e2) == [Fraction(i, total)];
    assert ProgressValues(e1) == ProgressValues(e2);
    assert ProgressValues(e) == ProgressValues(e1);
  }

  lemma {:induction false} RunFromProgress(i: nat, steps: int, wait: nat, stopSeen: seq<bool>, devicePresent: seq<bool>)
    requires OraclesCover(steps, stopSeen, devicePresent) && i <= RangeLen(steps)
    ensures var pv := ProgressValues(RunFrom(i, steps, wait, stopSeen, devicePresent));
            && |pv| == ExitFrom(i, steps, stopSeen) - i
            && forall j | 0 <= j < |pv| :: pv[j] == Fraction(i + j, RangeLen(steps))
    decreases RangeLen(steps) - i
  {
    if steps <= i || stopSeen[i] {
    } else {
      var head := IterationEvents(i, devicePresent[i], wait, steps);
      var rest := RunFrom(i + 1, steps, wait, stopSeen, devicePresent);
      assert RunFrom(i, steps, wait, stopSeen, devicePresent) == head + rest;
      RunFromProgress(i + 1, steps, wait, stopSeen, devicePresent);
      ProgressValuesAppend(head, rest);
      var hv := ProgressValues(head);
      var rv := ProgressValues(rest);
      IterationTotals(i, devicePresent[i], wait, steps);
      var pv := hv + rv;
      forall j | 0 <= j < |pv|
        ensures pv[j] == Fraction(i + j, RangeLen(steps))
      {
        if j > 0 {
          assert pv[j] == rv[j - 1];
          assert (i + 1) + (j - 1) == i + j;
        }
      }
    }
  }

  lemma {:induction false} RunFromSleepCount(i: nat, steps: int, wait: nat, stopSeen: seq<bool>, devicePresent: seq<bool>)
    requires OraclesCover(steps, stopSeen, devicePresent) && i <= RangeLen(steps)
    ensures SleepCount(RunFrom(i, steps, wait, stopSeen, devicePresent)) == ExitFrom(i, steps, stopSeen) - i
    decreases RangeLen(steps) - i
  {
    if steps <= i || stopSeen[i] {
    } else {
      var head := IterationEvents(i, devicePresent[i], wait, steps);
      var rest := RunFrom(i + 1, steps, wait, stopSeen, devicePresent);
      assert RunFrom(i, steps, wait, stopSeen, devicePresent) == head + rest;
      RunFromSleepCount(i + 1, steps, wait, stopSeen, devicePresent);
      SleepAppend(head, rest);
      IterationTotals(i, devicePresent[i], wait, steps);
    }
  }

  lemma MultiplySuccessor(n: nat, w: nat)
    ensures (n + 1) * w == n * w + w
  {
  }

  lemma {:induction false} RunFromTotalSleep(i: nat, steps: int, wait: nat, stopSeen: seq<bool>, devicePresent: seq<bool>)
    requires OraclesCover(steps, stopSeen, devicePresent) && i <= RangeLen(steps)
    ensures TotalSleep(RunFrom(i, steps, wait, stopSeen, devicePresent)) == (ExitFrom(i, steps, stopSeen) - i) * wait
    decreases RangeLen(steps) - i
  {
    if steps <= i || stopSeen[i] {
    } else {
      var head := IterationEvents(i, devicePresent[i], wait, steps);
      var rest := RunFrom(i + 1, steps, wait, stopSeen, devicePresent);
      assert RunFrom(i, steps, wait, stopSeen, devicePresent) == head + rest;
      RunFromTotalSleep(i + 1, steps, wait, stopSeen, devicePresent);
      SleepAppend(head, rest);
      IterationTotals(i, devicePresent[i], wait, steps);
      var n := ExitFrom(i + 1, steps, stopSeen) - (i + 1);
      assert ExitFrom(i, steps, stopSeen) - i == n + 1;
      MultiplySuccessor(n, wait);
    }
  }

  /** The values posted as progress are exactly `0/steps, 1/steps, ...,
      (k-1)/steps` for a run of `k` iterations. */
  lemma ProgressOfRun(steps: int, wait: nat, stopSeen: seq<bool>, devicePresent: seq<bool>)
    requires OraclesCover(steps, stopSeen, devicePresent)
    ensures var pv := ProgressValues(CaptureTrace(steps, wait, stopSeen, devicePresent));
            && |pv| == IterationCount(steps, stopSeen)
            && forall j | 0 <= j < |pv| :: pv[j] == j as real / steps as real
  {
    RunFromProgress(0, steps, wait, stopSeen, devicePresent);
    ProgressValuesAppend(RunFrom(0, steps, wait, stopSeen, devicePresent), [Finished]);
    var pv := ProgressValues(CaptureTrace(steps, wait, stopSeen, devicePresent));
    forall j | 0 <= j < |pv|
      ensures pv[j] == j as real / steps as real
    {
      assert pv[j] == Fraction(0 + j, RangeLen(steps));
    }
  }

  lemma DivideMonotone(a: nat, b: nat, n: int)
    requires a < b && n > 0
    ensures a as real / n as real < b as real / n as real
  {
  }

  lemma DivideBelowOne(a: nat, n: int)
    requires a < n
    ensures 0.0 <= a as real / n as real < 1.0
  {
    DivideMonotone(a, n, n);
  }

  /** The fractions `j / n` for `j < |pv| <= n`, in order, strictly increase. */
  lemma FractionsIncrease(pv: seq<real>, n: int)
    requires 0 < |pv| <= n
    requires forall j | 0 <= j < |pv| :: pv[j] == j as real / n as real
    ensures forall a, b | 0 <= a < b < |pv| :: pv[a] < pv[b]
  {
    forall a, b | 0 <= a < b < |pv|
      ensures pv[a] < pv[b]
    {
      DivideMonotone(a, b, n);
    }
  }

  /** The fractions `j / n` for `j < |pv| <= n` lie in `[0, 1)`. */
  lemma FractionsBelowOne(pv: seq<real>, n: int)
    requires |pv| <= n
    requires forall j | 0 <= j < |pv| :: pv[j] == j as real / n as real
    ensures forall a | 0 <= a < |pv| :: 0.0 <= pv[a] < 1.0
  {
    forall a | 0 <= a < |pv|
      ensures 0.0 <= pv[a] < 1.0
    {
      DivideBelowOne(a, n);
    }
  }

  /** Posted progress strictly increases, lies in `[0, 1)` and never reaches
      1; a run that is not stopped ends on `(steps - 1) / steps`. */
  lemma ProgressIncreasesBelowOne(steps: int, wait: nat, stopSeen: seq<bool>, devicePresent: seq<bool>)
    requires OraclesCover(steps, stopSeen, devicePresent)
    ensures var pv := ProgressValues(CaptureTrace(steps, wait, stopSeen, devicePresent));
            && (forall a, b | 0 <= a < b < |pv| :: pv[a] < pv[b])
            && (forall a | 0 <= a < |pv| :: 0.0 <= pv[a] < 1.0)
            && 1.0 !in pv
            && |pv| == IterationCount(steps, stopSeen)
            && (IterationCount(steps, stopSeen) == steps > 0 ==>
                  pv[|pv| - 1] == (steps - 1) as real / steps as real)
  {
    var pv := ProgressValues(CaptureTrace(steps, wait, stopSeen, devicePresent));
    ProgressOfRun(steps, wait, stopSeen, devicePresent);
    assert |pv| <= RangeLen(steps);
    if pv != [] {
      FractionsIncrease(pv, steps);
      FractionsBelowOne(pv, steps);
    }
  }

  /** A run of `k` iterations sleeps `k` times, `k * wait` milliseconds in all. */
  lemma SleepsOfRun(steps: int, wait: nat, stopSeen: seq<bool>, devicePresent: seq<bool>)
    requires OraclesCover(steps, stopSeen, devicePresent)
    ensures var t := CaptureTrace(steps, wait, stopSeen, devicePresent);
            && SleepCount(t) == IterationCount(steps, stopSeen)
            && TotalSleep(t) == IterationCount(steps, stopSeen) * wait
  {
    RunFromSleepCount(0, steps, wait, stopSeen, devicePresent);
    RunFromTotalSleep(0, steps, wait, stopSeen, devicePresent);
    SleepAppend(RunFrom(0, steps, wait, stopSeen, devicePresent), [Finished]);
  }

  /** The two UI properties the worker writes. */
  datatype UiState = UiState(captureInProgress: bool, captureProgress: real)

  /** The closure the event loop runs for a posted event. The worker's
      closures never turn capture-in-progress on: a progress event sets only
      the progress, the clean-up resets both properties, and no other event
      posts anything. */
  function Post(ui: UiState, e: Event): (r: UiState)
    ensures r.captureInProgress ==> ui.captureInProgress
    ensures e.Progress? ==> r.captureInProgress == ui.captureInProgress
    ensures e.Progress? ==> r == ui.(captureProgress := Fraction(e.shot, e.total))
    ensures e.Finished? ==> r == UiState(false, 0.0)
    ensures !e.Progress? && !e.Finished? ==> r == ui
  {
    match e
    case Progress(i, n) => ui.(captureProgress := Fraction(i, n))
    case Finished => UiState(false, 0.0)
    case _ => ui
  }

  /** The UI after the event loop ran every posted closure, in posting order.
      Replaying never turns capture-in-progress on, a trace that posts nothing
      leaves the UI as it was, and one that ends with the clean-up leaves it
      idle. */
  function Replay(ui: UiState, t: seq<Event>): (r: UiState)
    ensures r.captureInProgress ==> ui.captureInProgress
    ensures (forall k | 0 <= k < |t| :: !t[k].Progress? && !t[k].Finished?) ==> r == ui
    ensures t != [] && t[|t| - 1].Finished? ==> r == UiState(false, 0.0)
    decreases |t|
  {
    if t == [] then ui else Replay(Post(ui, t[0]), t[1..])
  }

  /** Completed or stopped, a run leaves the UI idle with progress 0,
      whatever the UI showed before. */
  lemma RunEndsIdle(ui: UiState, steps: int, wait: nat, stopSeen: seq<bool>, devicePresent: seq<bool>)
    requires OraclesCover(steps, stopSeen, devicePresent)
    ensures Replay(ui, CaptureTrace(steps, wait, stopSeen, devicePresent)) == UiState(false, 0.0)
  {
  }
}
