/** `setup_gpio` (src/gpio.c:11-73): opens the GPIO chip and requests four
    output lines through libgpiod, releasing every temporary resource through
    a ladder of `goto` labels. Each libgpiod call that can fail is an oracle
    in `Libgpiod`; the function records what the C code does as events. */
module GpioSetup {
  import opened Wrappers

  const ChipPath: string := "/dev/gpiochip0"
  /** The requested lines, in request order. */
  const LineOffsets: seq<nat> := [27, 22, 23, 24]
  const Consumer: string := "Rotating Table"

  /** The temporary libgpiod objects `setup_gpio` allocates. */
  datatype Resource = Chip | LineSettings | LineConfig | RequestConfig

  datatype SetupEvent =
    | Acquire(resource: Resource)          // open/new call returned non-NULL
    | AcquireFailed(resource: Resource)    // open/new call returned NULL
    | Release(resource: Resource)          // close/free call
    | SetDirectionOutput                   // line settings set to output
    | AddLineSettings(offset: nat, ok: bool)
    | SetConsumer(name: string)
    | RequestLines(granted: bool)

  /** The outcome of every fallible libgpiod call: `lineAdded[i]` is the
      outcome of adding settings for the `i`-th line. */
  datatype Libgpiod = Libgpiod(
    chipOpens: bool,
    settingsAllocated: bool,
    configAllocated: bool,
    lineAdded: seq<bool>,
    requestConfigAllocated: bool,
    requestGranted: bool)

  predicate WellFormed(lib: Libgpiod) {
    |lib.lineAdded| == |LineOffsets|
  }

  /** The line request handed back to the caller. */
  datatype LineRequest = LineRequest(chip: string, offsets: seq<nat>, consumer: string, output: bool)

  /** What `setup_gpio` did, and the request it returns (`None` is NULL). */
  datatype Setup = Setup(events: seq<SetupEvent>, request: Option<LineRequest>)

  /** The loop of src/gpio.c:45-54 from line `i` on: one call per line, in
      order, leaving at the first failure. The flag is false on failure. */
  function AddLines(i: nat, added: seq<bool>): (r: (seq<SetupEvent>, bool))
    requires i <= |LineOffsets| == |added|
    ensures r.1 <==> forall j | i <= j < |LineOffsets| :: added[j]
    ensures i + |r.0| <= |LineOffsets|
    ensures forall j | 0 <= j < |r.0| :: r.0[j] == AddLineSettings(LineOffsets[i + j], added[i + j])
    ensures r.1 ==> i + |r.0| == |LineOffsets|
    ensures !r.1 ==> |r.0| > 0 && !added[i + |r.0| - 1]
    ensures forall j | 0 <= j < |r.0| - 1 :: r.0[j].ok
    decreases |LineOffsets| - i
  {
    if i == |LineOffsets| then ([], true)
    else if !added[i] then ([AddLineSettings(LineOffsets[i], false)], false)
    else
      var rest := AddLines(i + 1, added);
      ([AddLineSettings(LineOffsets[i], true)] + rest.0, rest.1)
  }

  /** Release ladder: the `close_chip`, `close_line_set` and `close_line_cfg`
      labels, each falling through to the next. */
  const CloseChip: seq<SetupEvent> := [Release(Chip)]
  const CloseLineSet: seq<SetupEvent> := [Release(LineSettings)] + CloseChip
  const CloseLineCfg: seq<SetupEvent> := [Release(LineConfig)] + CloseLineSet

  /** Everything `setup_gpio` does up to the line-settings loop. */
  const Opened: seq<SetupEvent> := [Acquire(Chip), Acquire(LineSettings), SetDirectionOutput, Acquire(LineConfig)]

  function SetupGpio(lib: Libgpiod): (s: Setup)
    requires WellFormed(lib)
    ensures s.request.Some? <==>
              && lib.chipOpens && lib.settingsAllocated && lib.configAllocated
              && (forall j | 0 <= j < |LineOffsets| :: lib.lineAdded[j])
              && lib.requestConfigAllocated && lib.requestGranted
    ensures s.request.Some? ==> s.request.value == LineRequest(ChipPath, [27, 22, 23, 24], "Rotating Table", true)
    ensures s.request.Some? ==>
              s.events == Opened
                          + [AddLineSettings(27, true), AddLineSettings(22, true),
                             AddLineSettings(23, true), AddLineSettings(24, true)]
                          + [Acquire(RequestConfig), SetConsumer(Consumer), RequestLines(true), Release(RequestConfig)]
                          + CloseLineCfg
    ensures !lib.chipOpens ==> s.events == [AcquireFailed(Chip)]
  {
    if !lib.chipOpens then
      Setup([AcquireFailed(Chip)], None)
    else if !lib.settingsAllocated then
      Setup([Acquire(Chip), AcquireFailed(LineSettings)] + CloseChip, None)
    else if !lib.configAllocated then
      Setup([Acquire(Chip), Acquire(LineSettings), SetDirectionOutput, AcquireFailed(LineConfig)] + CloseLineSet, None)
    else
      var (adds, allAdded) := AddLines(0, lib.lineAdded);
      if !allAdded then
        Setup(Opened + adds + CloseLineCfg, None)
      else if !lib.requestConfigAllocated then
        Setup(Opened + adds + [AcquireFailed(RequestConfig)] + CloseLineCfg, None)
      else
        assert |adds| == 4;
        assert adds == [AddLineSettings(27, true), AddLineSettings(22, true),
                        AddLineSettings(23, true), AddLineSettings(24, true)];
        var request := if lib.requestGranted then Some(LineRequest(ChipPath, LineOffsets, Consumer, true)) else None;
        Setup(Opened + adds
              + [Acquire(RequestConfig), SetConsumer(Consumer), RequestLines(lib.requestGranted), Release(RequestConfig)]
              + CloseLineCfg,
              request)
  }
}
