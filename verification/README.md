# Rotating-table capture: a Dafny model

The program drives a stepper-motor turntable from a Raspberry Pi and fires
the shutter of an Android phone over ADB, so that one object is photographed
from many angles. This project models its sequential core:

- the capture run started by the "start capture" button (`src/main.rs`): the
  worker loop that, per shot, checks the stop flag, sends the camera key event
  to the connected device, sleeps for the shot delay and posts a progress
  value, and then posts one clean-up that resets the UI;
- the stop flag shared by the "start" and "stop" buttons;
- `set_position_gpio` (`src/gpio.c`): the 8 x 4 half-step coil table of the
  motor and the row written for a position;
- `setup_gpio` (`src/gpio.c`): the libgpiod acquire/release ladder that
  requests the four output lines 27, 22, 23 and 24;
- the standalone C test program that sets up the lines, writes positions
  0..4095 and releases the request.

The worker thread, the atomics and the UI marshalling are replaced by an
event trace (`Shutter(i)`, `Skip(i)`, `Sleep(ms)`, `Progress(i, steps)`,
`Finished`) computed from the run parameters and two per-iteration oracles:
`stopSeen[i]`, the value the worker loads from the stop flag, and
`devicePresent[i]`, whether a device is connected when the shutter command
would be sent. Each fallible libgpiod call of `setup_gpio` is a boolean
oracle in `Libgpiod`, and the ladder records `Acquire`, `AcquireFailed` and
`Release` events.

Files: `capture.dfy` (worker and start action), `capture_props.dfy`
(properties of the trace), `stop_flag.dfy`, `half_step.dfy`,
`gpio_setup.dfy` (the ladder), `gpio_release.dfy` (its release discipline),
`gpio_main.dfy` (the C test program), `wrappers.dfy` (`Option`).

Three facts about the code shape the model:

- The capture loop never moves the motor. `step_delay` is read and never
  used, and `step_size` is only printed, in debug builds. Neither is part of
  the model, and the wait between shots is the whole shot delay.
- A run with zero steps per revolution is not rejected. It starts anyway, and
  an empty range (or a negative one, after `i32` wrap-around) only posts the
  clean-up.
- Every start spawns another worker, even while one is running. Each call of
  the model is one run.

## Model

| member | source | states |
|---|---|---|
| Capture.TotalShots | src/main.rs:149 | the shot count is the product of steps per revolution and revolutions when that fits in `i32`, and otherwise agrees with it modulo 2^32 |
| Capture.CastToU64 | src/main.rs:180 | the `as u64` cast truncates toward zero (`r <= x < r + 1`), gives 0 for NaN and negative values and `u64::MAX` from 2^64 up |
| Capture.WaitMillis | src/main.rs:180 | the per-shot wait is `camera_delay * 1000` milliseconds truncated, 0 for a non-positive or NaN delay, never above `u64::MAX` |
| Capture.RunFrom | src/main.rs:167-195 | the loop from iteration `i` emits whole iterations of three events, at most one per remaining index, and never the clean-up |
| Capture.CaptureTrace | src/main.rs:167-204 | a run emits at most `3 * steps` loop events and ends with exactly one clean-up, which appears nowhere else |
| Capture.ExitFrom | src/main.rs:167-170 | the loop leaves at the first index whose flag load is set, or at the end of `0..steps`; every earlier load was clear |
| Capture.IterationCount | src/main.rs:167-170 | the number of iterations is the unique count before the first set flag, bounded by the length of `0..steps` |
| Capture.CaptureWorker | src/main.rs:160-210 | the loop with its early `break` produces the trace of the functional model, `3k + 1` events for `k` iterations |
| Capture.OnStartCapture | src/main.rs:144-160 | starting a capture leaves the stop flag clear, whatever it held, and runs the worker with the shot count and wait read at start |
| CaptureProperties.RunFromShape | src/main.rs:167-195 | the loop from `i` is, slot by slot, the iterations `i..k-1`, each shot-or-skip, sleep, progress |
| CaptureProperties.CaptureShape | src/main.rs:167-204 | a run of `k` iterations is `k` triples in ascending order followed by the clean-up at position `3k` |
| CaptureProperties.EmptyRangeOnlyFinished | src/main.rs:149-204 | with `steps <= 0` the range is empty and the only event is the clean-up |
| CaptureProperties.StopFirstSeenAt | src/main.rs:167-170 | a stop first seen at iteration `k` yields exactly `k` iterations: no shot, skip or progress event of an index `>= k`, exactly `k` sleeps |
| CaptureProperties.ShotsNumberedByPosition | src/main.rs:172-194 | every shot, skip or progress event at position `p` belongs to iteration `p / 3` |
| CaptureProperties.IterationsInOrder | src/main.rs:172-194 | all events of iteration `i` precede those of iteration `i + 1` |
| CaptureProperties.MissingDeviceSkipsOnlyShutter | src/main.rs:174-194 | iteration `j` skips the shutter exactly when no device is present and sleeps and reports progress either way |
| CaptureProperties.ProgressOfRun | src/main.rs:187-192 | the progress values posted are exactly `0/steps, 1/steps, ..., (k-1)/steps` |
| CaptureProperties.ProgressIncreasesBelowOne | src/main.rs:189-192 | posted progress strictly increases, lies in `[0, 1)`, is never 1, and a run that is not stopped ends on `(steps - 1) / steps` |
| CaptureProperties.SleepsOfRun | src/main.rs:180-182 | a run of `k` iterations sleeps `k` times, `k * wait` milliseconds in all |
| CaptureProperties.Post | src/main.rs:187-204 | a progress event sets the progress to `shot / total` and changes nothing else, the clean-up leaves the UI not in progress with progress 0, the other events post nothing, so no posted closure turns capture-in-progress on |
| CaptureProperties.Replay | src/main.rs:187-204 | running the posted closures in order never turns capture-in-progress on, a trace that posts nothing leaves the UI unchanged, and one ending with the clean-up leaves it idle with progress 0 |
| CaptureProperties.RunEndsIdle | src/main.rs:197-204 | completed or stopped, the run leaves the UI not in progress with progress 0, whatever it showed before |
| StopFlag.FlagAfter | src/main.rs:218-220 | every store overwrites: the flag is set exactly when the last command was a stop, and keeps its initial value when there was none |
| StopFlag.StopBeforeStartForgotten | src/main.rs:144-145 | whatever came before, the flag is clear after a start: a stop issued before a start is forgotten |
| StopFlag.StopOnlySets | src/main.rs:218-220 | without a start, stop commands never clear the flag and any stop leaves it set |
| HalfStep.RowActiveLines | src/gpio.c:76-85 | even rows drive exactly one line and odd rows exactly two, so no row is all off and none drives more than two |
| HalfStep.AdjacentRowsDifferInOneLine | src/gpio.c:76-85 | cyclically adjacent rows, row 7 to row 0 included, differ in exactly one line |
| HalfStep.CRem8 | src/gpio.c:87 | C's `% 8` agrees with the dividend modulo 8, lies in `[0, 8)` for non-negative and in `(-8, 0]` for negative dividends |
| HalfStep.RowIndex | src/gpio.c:87 | the table index is in bounds and equals `position % 8` for every non-negative position; a negative one not divisible by 8 indexes before the table |
| HalfStep.SetPosition | src/gpio.c:75-88 | the row written for a position has four values, one active line for an even position and two for an odd one |
| HalfStep.PeriodEight | src/gpio.c:87 | positions `p` and `p + 8` write the same four values |
| HalfStep.ConsecutivePositionsDifferInOneLine | src/gpio.c:75-88 | consecutive positions write rows that differ in exactly one line |
| GpioSetup.AddLines | src/gpio.c:45-54 | one add-settings call per line in request order, leaving at the first failure; success means all four lines 27, 22, 23, 24 were added |
| GpioSetup.SetupGpio | src/gpio.c:11-73 | a request is returned exactly when every allocation, every line addition and the line request succeeded; on success the chip was opened, the line settings were set to output, lines 27, 22, 23 and 24 were added in that order, the consumer was named, and the temporaries were released; a failed chip open does nothing else |
| GpioRelease.EarlyFailureReleases | src/gpio.c:26-43 | the paths leaving before the line loop release what they acquired, last in first out |
| GpioRelease.LoopPathReleases | src/gpio.c:45-72 | the paths through the line loop release what they acquired, last in first out |
| GpioRelease.SetupReleasesInReverse | src/gpio.c:26-72 | on every path each acquired resource is released exactly once, in reverse order of acquisition; a failed chip open releases nothing |
| GpioMain.DriveLoop | src/gpio.c:96-99 | positions 0..4095 are written in order, 512 passes of the 8-row cycle in which consecutive rows differ in exactly one line, ending on row 7 |
| GpioMain.StandaloneMain | src/gpio.c:91-104 | the program exits 0 exactly when set-up succeeded, and only then drives the motor and releases the request; otherwise it exits -1 |

## Left out

- Threads, `Arc<Mutex<..>>` and the relaxed `AtomicBool`: the worker's flag loads are the `stopSeen` oracle, so visibility delays of the stop are not modelled.
- Capture.OnStartCapture: does not tie `stopSeen` to the flag's stores, because with a separate thread and relaxed ordering the loads may see any later store.
- The Slint UI (`AppWindow`, `ErrorDialog`, callbacks, `invoke_from_event_loop`): only the values posted to the UI are kept, as trace events. A posted closure that finds the window gone does nothing; that case is not modelled.
- ADB transport (`scan_adb_devices`, `open_camera_app`, `shell_command`): foreign library calls; the device is only the `devicePresent` oracle, and the shutter command's result is discarded by the code, so the trace records the attempt only.
- `startup()` and the Rust `gpiod` line request: a thin wrapper over a library whose code is not part of this model.
- Sleeping: `thread::sleep` and `usleep` are recorded as durations; time is not modelled.
- Capture.WaitMillis: the `f32` product `camera_delay * 1000.0` is computed exactly, without `f32` rounding.
- CaptureProperties.ProgressOfRun: progress is the exact rational `i / steps`, not the `f32` quotient the code computes.
- CaptureProperties.ProgressIncreasesBelowOne: strict increase, staying below 1 and never reaching 1 hold for exact rationals only. In `f32` they fail once `steps > 2^24`: for `steps = 16777217` both `(steps - 1) as f32` and `steps as f32` round to 16777216.0, so the last progress posted is 1.0, and from `steps >= 2^25` neighbouring `i` round to the same `f32`.
- Capture.CaptureTrace: assumes the worker does not panic. `device_clone.lock().unwrap()` panics when the device mutex is poisoned, which happens after a panic while it was held: in `shell_command` or in `scan_adb_devices` under the lock. The worker then dies at its next iteration without posting the clean-up, and the UI stays in progress; `CaptureProperties.RunEndsIdle` and "exactly one clean-up" hold only for runs without such a panic.
- Capture.TotalShots: models the release build, where the `i32` product wraps; a debug build panics on overflow instead.
- `step_delay` and `step_size`: `step_delay` is read and never used, and `step_size` is only printed, in debug builds; the loop never moves the motor.
- libgpiod itself: every call whose result the code checks is an oracle. The code ignores the result of `gpiod_line_settings_set_direction`; `gpiod_request_config_set_consumer` returns nothing. Both are recorded as events without results.
- HalfStep.SetPosition: the code discards the result of `gpiod_line_request_set_values`, so a failed write goes unnoticed; the model takes every write to take effect, and `GpioMain.DriveLoop` records the rows written, not the lines' actual levels.
- Two workers running at once after two starts: they share the stop flag and the UI; each run is modelled on its own.
- `perror`, `println!` and `dbg!` output, and build.rs (build plumbing).
