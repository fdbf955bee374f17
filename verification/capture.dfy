/** The capture run started by the "start capture" action of the desktop
    application (src/main.rs). The worker thread, its atomics and the UI
    marshalling are replaced by an event trace: the worker is a pure function
    of the run parameters and of two per-iteration oracles, `stopSeen` (the
    value the worker loads from the stop flag) and `devicePresent` (whether a
    device is connected when the shutter command would be sent). */
module Capture {
  import StopFlag

  const I32Min: int := -0x8000_0000
  const I32Max: int := 0x7fff_ffff
  const U64Max: int := 0xffff_ffff_ffff_ffff

  predicate IsI32(x: int) {
    I32Min <= x <= I32Max
  }

  /** Two's-complement wrap-around of a mathematical integer into `i32`. */
  function WrapI32(x: int): (r: int)
    ensures IsI32(r)
    ensures (x - r) % 0x1_0000_0000 == 0
    ensures IsI32(x) ==> r == x
  {
    (x - I32Min) % 0x1_0000_0000 + I32Min
  }

  /** The number of shots of a run: steps per revolution times revolutions,
      both `i32` values of the UI. In a release build the product wraps. */
  function TotalShots(stepsPerRevolution: int, revolutions: int): (steps: int)
    requires IsI32(stepsPerRevolution) && IsI32(revolutions)
    ensures IsI32(steps)
    ensures IsI32(stepsPerRevolution * revolutions) ==> steps == stepsPerRevolution * revolutions
    ensures (stepsPerRevolution * revolutions - steps) % 0x1_0000_0000 == 0
  {
    WrapI32(stepsPerRevolution * revolutions)
  }

  /** The length of the half-open range `0..steps`: empty when `steps <= 0`. */
  function RangeLen(steps: int): nat {
    if steps <= 0 then 0 else steps
  }

  /** A value of a 32-bit float field of the UI. Rounding of the float
      arithmetic is not modelled: a finite value is an exact rational. */
  datatype Float = Finite(value: real) | NaN | PosInf | NegInf

  /** Float multiplication by a positive constant. */
  function Scale(x: Float, c: real): (r: Float)
    requires c > 0.0
    ensures r.Finite? <==> x.Finite?
    ensures x.Finite? ==> r.value == x.value * c
    ensures !x.Finite? ==> r == x
  {
    match x
    case Finite(v) => Finite(v * c)
    case _ => x
  }

  /** Rust's saturating float-to-`u64` cast (`as u64`): truncation toward
      zero, NaN and everything below zero give 0, everything at or above
      2^64 gives `u64::MAX`. */
  function CastToU64(x: Float): (r: nat)
    ensures r <= U64Max
    ensures x.Finite? && 0.0 <= x.value < (U64Max + 1) as real ==>
              r as real <= x.value < r as real + 1.0
    ensures x.Finite? && x.value < 0.0 ==> r == 0
    ensures x.Finite? && x.value >= (U64Max + 1) as real ==> r == U64Max
    ensures x.NaN? || x.NegInf? ==> r == 0
    ensures x.PosInf? ==> r == U64Max
  {
    match x
    case Finite(v) =>
      if v < 0.0 then 0
      else if v >= (U64Max + 1) as real then U64Max
      else v.Floor
    case NaN => 0
    case PosInf => U64Max
    case NegInf => 0
  }

  /** The wait after each shot, `(camera_delay * 1000.0) as u64` milliseconds. */
  function WaitMillis(cameraDelay: Float): (ms: nat)
    ensures ms <= U64Max
    ensures cameraDelay.Finite? && 0.0 <= cameraDelay.value * 1000.0 < (U64Max + 1) as real ==>
              ms as real <= cameraDelay.value * 1000.0 < ms as real + 1.0
    ensures cameraDelay.Finite? && cameraDelay.value <= 0.0 ==> ms == 0
    ensures cameraDelay.NaN? || cameraDelay.NegInf? ==> ms == 0
  {
    CastToU64(Scale(cameraDelay, 1000.0))
  }

  /** What the worker does, in order. */
  datatype Event =
    | Shutter(shot: nat)              // camera key event sent to the connected device
    | Skip(shot: nat)                 // no device: the shutter command is not sent
    | Sleep(ms: nat)                  // the worker sleeps this many milliseconds
    | Progress(shot: nat, total: nat) // progress `shot / total` posted to the UI
    | Finished                        // clean-up posted: not in progress, progress 0

  /** The value a progress event posts, `shot as f32 / total as f32`, as an
      exact rational (0 for an empty run, which posts none). */
  function Fraction(shot: nat, total: nat): real {
    if total == 0 then 0.0 else shot as real / total as real
  }

  /** Events that belong to one iteration of the loop. */
  predicate HasShot(e: Event) {
    e.Shutter? || e.Skip? || e.Progress?
  }

  /** The shutter step of iteration `i`: the command is sent only when a device
      is present; its result is discarded, so only the attempt is recorded. */
  function ShotEvent(i: nat, present: bool): Event {
    if present then Shutter(i) else Skip(i)
  }

  /** The three events of iteration `i` of a run of `total` shots. */
  function IterationEvents(i: nat, present: bool, wait: nat, total: nat): seq<Event> {
    [ShotEvent(i, present), Sleep(wait), Progress(i, total)]
  }

  /** The oracles cover every iteration the range can reach. */
  predicate OraclesCover(steps: int, stopSeen: seq<bool>, devicePresent: seq<bool>) {
    steps <= |stopSeen| && steps <= |devicePresent|
  }

  /** Iterations `i, i + 1, ...` of `for i in 0..steps`: each first loads the
      stop flag and leaves the loop when it is set. */
  function RunFrom(i: nat, steps: int, wait: nat, stopSeen: seq<bool>, devicePresent: seq<bool>): (t: seq<Event>)
    requires OraclesCover(steps, stopSeen, devicePresent)
    requires i <= RangeLen(steps)
    ensures |t| % 3 == 0
    ensures |t| <= 3 * (RangeLen(steps) - i)
    ensures Finished !in t
    decreases RangeLen(steps) - i
  {
    if steps <= i || stopSeen[i] then []
    else IterationEvents(i, devicePresent[i], wait, steps) + RunFrom(i + 1, steps, wait, stopSeen, devicePresent)
  }

  /** The whole trace of the worker: the loop, then exactly one clean-up. */
  function CaptureTrace(steps: int, wait: nat, stopSeen: seq<bool>, devicePresent: seq<bool>): (t: seq<Event>)
    requires OraclesCover(steps, stopSeen, devicePresent)
    ensures 1 <= |t| <= 3 * RangeLen(steps) + 1
    ensures t[|t| - 1] == Finished
    ensures Finished !in t[..|t| - 1]
  {
    var body := RunFrom(0, steps, wait, stopSeen, devicePresent);
    assert (body + [Finished])[..|body|] == body;
    body + [Finished]
  }

  /** `k` is the number of iterations a run performs: every iteration before
      `k` saw the flag clear, and iteration `k` either lies outside `0..steps`
      or saw the flag set. */
  ghost predicate IsIterationCount(k: nat, steps: int, stopSeen: seq<bool>)
    requires steps <= |stopSeen|
  {
    && k <= RangeLen(steps)
    && (forall j | 0 <= j < k :: !stopSeen[j])
    && (k == RangeLen(steps) || stopSeen[k])
  }

  /** The index at which a loop started at `i` leaves. */
  function ExitFrom(i: nat, steps: int, stopSeen: seq<bool>): (k: nat)
    requires steps <= |stopSeen| && i <= RangeLen(steps)
    ensures i <= k <= RangeLen(steps)
    ensures forall j | i <= j < k :: !stopSeen[j]
    ensures k == RangeLen(steps) || stopSeen[k]
    decreases RangeLen(steps) - i
  {
    if steps <= i || stopSeen[i] then i else ExitFrom(i + 1, steps, stopSeen)
  }

  /** The number of iterations a run performs. */
  function IterationCount(steps: int, stopSeen: seq<bool>): (k: nat)
    requires steps <= |stopSeen|
    ensures IsIterationCount(k, steps, stopSeen)
  {
    ExitFrom(0, steps, stopSeen)
  }

  /** The worker of src/main.rs:160-210 as a loop; `cameraDelay` is the value
      read when the capture was started. */
  method CaptureWorker(steps: int, cameraDelay: Float, stopSeen: seq<bool>, devicePresent: seq<bool>)
    returns (t: seq<Event>)
    requires OraclesCover(steps, stopSeen, devicePresent)
    ensures t == CaptureTrace(steps, WaitMillis(cameraDelay), stopSeen, devicePresent)
    ensures |t| == 3 * IterationCount(steps, stopSeen) + 1
  {
    ghost var w := WaitMillis(cameraDelay);
    ghost var whole := RunFrom(0, steps, w, stopSeen, devicePresent);
    t := [];
    var i: nat := 0;
    while i < steps
      invariant i <= RangeLen(steps)
      invariant t + RunFrom(i, steps, w, stopSeen, devicePresent) == whole
      decreases steps - i
    {
      if stopSeen[i] {
        break;
      }
      var wait := WaitMillis(cameraDelay);
      var events := IterationEvents(i, devicePresent[i], wait, steps);
      AppendIteration(t, i, steps, wait, stopSeen, devicePresent);
      t := t + events;
      i := i + 1;
    }
    assert RunFrom(i, steps, w, stopSeen, devicePresent) == [];
    assert t == whole;
    RunFromLength(0, steps, w, stopSeen, devicePresent);
    t := t + [Finished];
  }

  /** One more iteration moves its three events from the rest of the loop
      to the trace emitted so far. */
  lemma AppendIteration(t: seq<Event>, i: nat, steps: int, wait: nat, stopSeen: seq<bool>, devicePresent: seq<bool>)
    requires OraclesCover(steps, stopSeen, devicePresent) && i < steps && !stopSeen[i]
    ensures t + RunFrom(i, steps, wait, stopSeen, devicePresent)
         == (t + IterationEvents(i, devicePresent[i], wait, steps)) + RunFrom(i + 1, steps, wait, stopSeen, devicePresent)
  {
    var events := IterationEvents(i, devicePresent[i], wait, steps);
    var rest := RunFrom(i + 1, steps, wait, stopSeen, devicePresent);
    assert RunFrom(i, steps, wait, stopSeen, devicePresent) == events + rest;
    assert t + (events + rest) == (t + events) + rest;
  }

  /** The trace from `i` is empty exactly when the loop leaves at `i`. */
  lemma RunFromLength(i: nat, steps: int, wait: nat, stopSeen: seq<bool>, devicePresent: seq<bool>)
    requires OraclesCover(steps, stopSeen, devicePresent) && i <= RangeLen(steps)
    ensures |RunFrom(i, steps, wait, stopSeen, devicePresent)| == 3 * (ExitFrom(i, steps, stopSeen) - i)
    decreases RangeLen(steps) - i
  {
    if steps <= i || stopSeen[i] {
    } else {
      RunFromLength(i + 1, steps, wait, stopSeen, devicePresent);
    }
  }

  /** The action bound to "start capture" (src/main.rs:144-211): it clears the
      stop flag, reads the parameters once, and hands them to the worker. */
  method OnStartCapture(flag: bool, stepsPerRevolution: int, revolutions: int, cameraDelay: Float,
                        stopSeen: seq<bool>, devicePresent: seq<bool>)
    returns (flagAfter: bool, t: seq<Event>)
    requires IsI32(stepsPerRevolution) && IsI32(revolutions)
    requires OraclesCover(TotalShots(stepsPerRevolution, revolutions), stopSeen, devicePresent)
    ensures flagAfter == StopFlag.FlagAfter(flag, [StopFlag.StartCapture]) && !flagAfter
    ensures t == CaptureTrace(TotalShots(stepsPerRevolution, revolutions), WaitMillis(cameraDelay),
                              stopSeen, devicePresent)
  {
    flagAfter := StopFlag.Store(StopFlag.StartCapture);
    var steps := stepsPerRevolution * revolutions;
    steps := WrapI32(steps);
    t := CaptureWorker(steps, cameraDelay, stopSeen, devicePresent);
  }
}
