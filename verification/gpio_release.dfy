/** Resource discipline of `setup_gpio` (src/gpio.c:26-72): on every path,
    every temporary resource acquired is released exactly once, in reverse
    order of acquisition, and the function returns a request only when every
    step succeeded. */
module GpioRelease {
  import opened Wrappers
  import opened GpioSetup

  /** Replays `events` against a stack of held resources (most recent last).
      `None` when a release is not of the most recently acquired resource
      still held. */
  function Unwind(held: seq<Resource>, events: seq<SetupEvent>): Option<seq<Resource>>
    decreases |events|
  {
    if events == [] then Some(held)
    else match events[0]
      case Acquire(r) => Unwind(held + [r], events[1..])
      case Release(r) =>
        if held != [] && held[|held| - 1] == r then Unwind(held[..|held| - 1], events[1..]) else None
      case _ => Unwind(held, events[1..])
  }

  /** Every release undoes the latest acquisition still held, and nothing is
      held at the end. */
  ghost predicate ReleasedLastInFirstOut(events: seq<SetupEvent>) {
    Unwind([], events) == Some([])
  }

  /** The resources acquired, in order. */
  function Acquired(events: seq<SetupEvent>): seq<Resource> {
    if events == [] then []
    else (if events[0].Acquire? then [events[0].resource] else []) + Acquired(events[1..])
  }

  /** The resources released, in order. */
  function Released(events: seq<SetupEvent>): seq<Resource> {
    if events == [] then []
    else (if events[0].Release? then [events[0].resource] else []) + Released(events[1..])
  }

  function Reverse<T>(s: seq<T>): (r: seq<T>)
    ensures |r| == |s|
    ensures forall i | 0 <= i < |s| :: r[i] == s[|s| - 1 - i]
  {
    if s == [] then [] else Reverse(s[1..]) + [s[0]]
  }

  ghost predicate Distinct<T>(s: seq<T>) {
    forall i, j | 0 <= i < j < |s| :: s[i] != s[j]
  }

  lemma {:induction false} UnwindAppend(held: seq<Resource>, a: seq<SetupEvent>, b: seq<SetupEvent>)
    ensures Unwind(held, a + b) == match Unwind(held, a)
                                   case None => None
                                   case Some(h) => Unwind(h, b)
    decreases |a|
  {
    if a == [] {
      assert a + b == b;
    } else {
      assert (a + b)[1..] == a[1..] + b;
      assert (a + b)[0] == a[0];
      match a[0]
      case Acquire(r) => UnwindAppend(held + [r], a[1..], b);
      case Release(r) =>
        if held != [] && held[|held| - 1] == r {
          UnwindAppend(held[..|held| - 1], a[1..], b);
        }
      case _ => UnwindAppend(held, a[1..], b);
    }
  }

  lemma {:induction false} AcquiredAppend(a: seq<SetupEvent>, b: seq<SetupEvent>)
    ensures Acquired(a + b) == Acquired(a) + Acquired(b)
  {
    if a == [] {
      assert a + b == b;
    } else {
      assert (a + b)[1..] == a[1..] + b;
      assert (a + b)[0] == a[0];
      AcquiredAppend(a[1..], b);
    }
  }

  lemma {:induction false} ReleasedAppend(a: seq<SetupEvent>, b: seq<SetupEvent>)
    ensures Released(a + b) == Released(a) + Released(b)
  {
    if a == [] {
      assert a + b == b;
    } else {
      assert (a + b)[1..] == a[1..] + b;
      assert (a + b)[0] == a[0];
      ReleasedAppend(a[1..], b);
    }
  }

  /** Adding line settings neither acquires nor releases anything. */
  lemma {:induction false} LineSettingsNeutral(held: seq<Resource>, adds: seq<SetupEvent>)
    requires forall k | 0 <= k < |adds| :: adds[k].AddLineSettings?
    ensures Unwind(held, adds) == Some(held)
    ensures Acquired(adds) == [] && Released(adds) == []
  {
    if adds != [] {
      LineSettingsNeutral(held, adds[1..]);
    }
  }

  /** The three resources held when the line-settings loop starts. */
  const HeldInLoop: seq<Resource> := [Chip, LineSettings, LineConfig]

  lemma OpenedHolds()
    ensures Unwind([], Opened) == Some(HeldInLoop)
    ensures Acquired(Opened) == HeldInLoop && Released(Opened) == []
  {
    var ev := [Acquire(Chip), Acquire(LineSettings), SetDirectionOutput, Acquire(LineConfig)];
    assert Opened == ev;
    assert [Chip] + [LineSettings] == [Chip, LineSettings];
    assert [Chip, LineSettings] + [LineConfig] == [Chip, LineSettings, LineConfig];
    assert Unwind([Chip, LineSettings], [SetDirectionOutput, Acquire(LineConfig)]) == Some(HeldInLoop);
    assert Unwind([Chip], [Acquire(LineSettings), SetDirectionOutput, Acquire(LineConfig)]) == Some(HeldInLoop);
    assert [] + [Chip] == [Chip];
    assert Unwind([], ev) == Some(HeldInLoop);
    assert Acquired(ev) == HeldInLoop;
    assert Released(ev) == [];
  }

  lemma CloseLineCfgReleases()
    ensures Unwind(HeldInLoop, CloseLineCfg) == Some([])
    ensures Acquired(CloseLineCfg) == [] && Released(CloseLineCfg) == [LineConfig, LineSettings, Chip]
  {
    var ev := [Release(LineConfig), Release(LineSettings), Release(Chip)];
    assert CloseLineCfg == ev;
    assert Unwind([Chip], [Release(Chip)]) == Some([]);
    assert Unwind([Chip, LineSettings], [Release(LineSettings), Release(Chip)]) == Some([]);
    assert Unwind(HeldInLoop, ev) == Some([]);
    assert Acquired(ev) == [];
    assert Released(ev) == [LineConfig, LineSettings, Chip];
  }

  /** The three ways past the loop: its failure, a failed request-config
      allocation, or the request itself. */
  lemma MiddleNeutral(middle: seq<SetupEvent>, granted: bool)
    requires middle == [] || middle == [AcquireFailed(RequestConfig)]
             || middle == [Acquire(RequestConfig), SetConsumer(Consumer), RequestLines(granted), Release(RequestConfig)]
    ensures Unwind(HeldInLoop, middle) == Some(HeldInLoop)
    ensures Acquired(middle) == Released(middle)
    ensures Acquired(middle) == [] || Acquired(middle) == [RequestConfig]
  {
    if middle == [Acquire(RequestConfig), SetConsumer(Consumer), RequestLines(granted), Release(RequestConfig)] {
      var held4 := HeldInLoop + [RequestConfig];
      assert held4[..|held4| - 1] == HeldInLoop;
      assert Unwind(held4, [Release(RequestConfig)]) == Some(HeldInLoop);
      assert Unwind(held4, [RequestLines(granted), Release(RequestConfig)]) == Some(HeldInLoop);
      assert Unwind(held4, middle[1..]) == Some(HeldInLoop);
      assert Acquired([Release(RequestConfig)]) == [];
      assert Acquired([RequestLines(granted), Release(RequestConfig)]) == [];
      assert Acquired(middle[1..]) == [];
      assert Acquired(middle) == [RequestConfig];
      assert Released([Release(RequestConfig)]) == [RequestConfig];
      assert Released([RequestLines(granted), Release(RequestConfig)]) == [RequestConfig];
      assert Released(middle[1..]) == [RequestConfig];
    } else if middle == [AcquireFailed(RequestConfig)] {
      assert Acquired(middle) == [] && Released(middle) == [];
    }
  }

  /** The paths through the line-settings loop unwind the stack. */
  lemma LadderStack(adds: seq<SetupEvent>, middle: seq<SetupEvent>, granted: bool)
    requires forall k | 0 <= k < |adds| :: adds[k].AddLineSettings?
    requires middle == [] || middle == [AcquireFailed(RequestConfig)]
             || middle == [Acquire(RequestConfig), SetConsumer(Consumer), RequestLines(granted), Release(RequestConfig)]
    ensures ReleasedLastInFirstOut(Opened + adds + middle + CloseLineCfg)
  {
    OpenedHolds();
    LineSettingsNeutral(HeldInLoop, adds);
    MiddleNeutral(middle, granted);
    CloseLineCfgReleases();
    UnwindAppend([], Opened, adds);
    UnwindAppend([], Opened + adds, middle);
    UnwindAppend([], Opened + adds + middle, CloseLineCfg);
  }

  lemma LadderAcquired(adds: seq<SetupEvent>, middle: seq<SetupEvent>)
    requires forall k | 0 <= k < |adds| :: adds[k].AddLineSettings?
    ensures Acquired(Opened + adds + middle + CloseLineCfg) == HeldInLoop + Acquired(middle)
  {
    OpenedHolds();
    LineSettingsNeutral(HeldInLoop, adds);
    CloseLineCfgReleases();
    AcquiredAppend(Opened, adds);
    AcquiredAppend(Opened + adds, middle);
    AcquiredAppend(Opened + adds + middle, CloseLineCfg);
    assert Acquired(Opened + adds) == HeldInLoop;
  }

  lemma LadderReleased(adds: seq<SetupEvent>, middle: seq<SetupEvent>)
    requires forall k | 0 <= k < |adds| :: adds[k].AddLineSettings?
    ensures Released(Opened + adds + middle + CloseLineCfg) == Released(middle) + [LineConfig, LineSettings, Chip]
  {
    OpenedHolds();
    LineSettingsNeutral(HeldInLoop, adds);
    CloseLineCfgReleases();
    ReleasedAppend(Opened, adds);
    ReleasedAppend(Opened + adds, middle);
    ReleasedAppend(Opened + adds + middle, CloseLineCfg);
    assert Released(Opened + adds) == [];
  }

  /** The path through the loop and the release ladder, for every outcome. */
  lemma LadderPath(adds: seq<SetupEvent>, middle: seq<SetupEvent>, granted: bool)
    requires forall k | 0 <= k < |adds| :: adds[k].AddLineSettings?
    requires middle == [] || middle == [AcquireFailed(RequestConfig)]
             || middle == [Acquire(RequestConfig), SetConsumer(Consumer), RequestLines(granted), Release(RequestConfig)]
    ensures var ev := Opened + adds + middle + CloseLineCfg;
            && ReleasedLastInFirstOut(ev)
            && Distinct(Acquired(ev))
            && Released(ev) == Reverse(Acquired(ev))
  {
    LadderStack(adds, middle, granted);
    LadderAcquired(adds, middle);
    LadderReleased(adds, middle);
    MiddleNeutral(middle, granted);
    var ev := Opened + adds + middle + CloseLineCfg;
    if Acquired(middle) == [] {
      assert Acquired(ev) == [Chip, LineSettings, LineConfig];
      assert Released(ev) == [LineConfig, LineSettings, Chip];
    } else {
      assert Acquired(ev) == [Chip, LineSettings, LineConfig, RequestConfig];
      assert Released(ev) == [RequestConfig, LineConfig, LineSettings, Chip];
    }
  }

  /** `gpiod_line_settings_new` failed: only the chip is closed. */
  lemma SettingsFailureStack()
    ensures ReleasedLastInFirstOut([Acquire(Chip), AcquireFailed(LineSettings), Release(Chip)])
  {
    assert Unwind([Chip], [Release(Chip)]) == Some([]);
    assert Unwind([Chip], [AcquireFailed(LineSettings), Release(Chip)]) == Some([]);
    assert [] + [Chip] == [Chip];
  }

  lemma SettingsFailureLists()
    ensures Acquired([Acquire(Chip), AcquireFailed(LineSettings), Release(Chip)]) == [Chip]
    ensures Released([Acquire(Chip), AcquireFailed(LineSettings), Release(Chip)]) == [Chip]
  {
  }

  /** `gpiod_line_config_new` failed: the settings, then the chip are released. */
  lemma ConfigFailureStack()
    ensures ReleasedLastInFirstOut([Acquire(Chip), Acquire(LineSettings), SetDirectionOutput,
                                    AcquireFailed(LineConfig), Release(LineSettings), Release(Chip)])
  {
    assert [] + [Chip] == [Chip];
    assert [Chip] + [LineSettings] == [Chip, LineSettings];
    assert [Chip, LineSettings][..1] == [Chip];
    assert Unwind([Chip], [Release(Chip)]) == Some([]);
    assert Unwind([Chip, LineSettings], [Release(LineSettings), Release(Chip)]) == Some([]);
    assert Unwind([Chip, LineSettings], [AcquireFailed(LineConfig), Release(LineSettings), Release(Chip)]) == Some([]);
    assert Unwind([Chip, LineSettings], [SetDirectionOutput, AcquireFailed(LineConfig), Release(LineSettings), Release(Chip)]) == Some([]);
    assert Unwind([Chip], [Acquire(LineSettings), SetDirectionOutput, AcquireFailed(LineConfig), Release(LineSettings), Release(Chip)]) == Some([]);
  }

  lemma ConfigFailureLists()
    ensures Acquired([Acquire(Chip), Acquire(LineSettings), SetDirectionOutput,
                      AcquireFailed(LineConfig), Release(LineSettings), Release(Chip)]) == [Chip, LineSettings]
    ensures Released([Acquire(Chip), Acquire(LineSettings), SetDirectionOutput,
                      AcquireFailed(LineConfig), Release(LineSettings), Release(Chip)]) == [LineSettings, Chip]
  {
  }

  /** The paths that leave before the line-settings loop. */
  lemma EarlyFailureReleases(lib: Libgpiod)
    requires WellFormed(lib) && !(lib.chipOpens && lib.settingsAllocated && lib.configAllocated)
    ensures var ev := SetupGpio(lib).events;
            && ReleasedLastInFirstOut(ev)
            && Distinct(Acquired(ev))
            && Released(ev) == Reverse(Acquired(ev))
  {
    var ev := SetupGpio(lib).events;
    if !lib.chipOpens {
      assert ev == [AcquireFailed(Chip)];
      assert Unwind([], [AcquireFailed(Chip)]) == Some([]);
      assert Acquired([AcquireFailed(Chip)]) == [];
      assert Released([AcquireFailed(Chip)]) == [];
    } else if !lib.settingsAllocated {
      SettingsFailurePath(lib);
    } else {
      ConfigFailurePath(lib);
    }
  }

  lemma SettingsFailurePath(lib: Libgpiod)
    requires WellFormed(lib) && lib.chipOpens && !lib.settingsAllocated
    ensures var ev := SetupGpio(lib).events;
            && ReleasedLastInFirstOut(ev)
            && Distinct(Acquired(ev))
            && Released(ev) == Reverse(Acquired(ev))
  {
    assert CloseChip == [Release(Chip)];
    var ev := [Acquire(Chip), AcquireFailed(LineSettings), Release(Chip)];
    assert SetupGpio(lib).events == ev;
    SettingsFailureStack();
    SettingsFailureLists();
    assert Reverse([Chip]) == [Chip];
  }

  lemma ConfigFailurePath(lib: Libgpiod)
    requires WellFormed(lib) && lib.chipOpens && lib.settingsAllocated && !lib.configAllocated
    ensures var ev := SetupGpio(lib).events;
            && ReleasedLastInFirstOut(ev)
            && Distinct(Acquired(ev))
            && Released(ev) == Reverse(Acquired(ev))
  {
    assert CloseLineSet == [Release(LineSettings), Release(Chip)];
    var ev := [Acquire(Chip), Acquire(LineSettings), SetDirectionOutput,
               AcquireFailed(LineConfig), Release(LineSettings), Release(Chip)];
    assert SetupGpio(lib).events == ev;
    ConfigFailureStack();
    ConfigFailureLists();
    assert Reverse([Chip, LineSettings]) == [LineSettings, Chip];
  }

  /** The paths that reach the line-settings loop. */
  lemma LoopPathReleases(lib: Libgpiod)
    requires WellFormed(lib) && lib.chipOpens && lib.settingsAllocated && lib.configAllocated
    ensures var ev := SetupGpio(lib).events;
            && ReleasedLastInFirstOut(ev)
            && Distinct(Acquired(ev))
            && Released(ev) == Reverse(Acquired(ev))
  {
    var ev := SetupGpio(lib).events;
    var (adds, allAdded) := AddLines(0, lib.lineAdded);
    var middle: seq<SetupEvent>;
    if !allAdded {
      middle := [];
    } else if !lib.requestConfigAllocated {
      middle := [AcquireFailed(RequestConfig)];
    } else {
      middle := [Acquire(RequestConfig), SetConsumer(Consumer), RequestLines(lib.requestGranted), Release(RequestConfig)];
    }
    assert ev == Opened + adds + middle + CloseLineCfg;
    LadderPath(adds, middle, lib.requestGranted);
  }

  /** On every path of `setup_gpio`, the resources are released last in,
      first out; each acquired resource is released exactly once, the
      releases being the acquisitions reversed; a failed chip open releases
      nothing. */
  lemma SetupReleasesInReverse(lib: Libgpiod)
    requires WellFormed(lib)
    ensures var ev := SetupGpio(lib).events;
            && ReleasedLastInFirstOut(ev)
            && Distinct(Acquired(ev))
            && Released(ev) == Reverse(Acquired(ev))
            && (!lib.chipOpens ==> Released(ev) == [])
  {
    if lib.chipOpens && lib.settingsAllocated && lib.configAllocated {
      LoopPathReleases(lib);
    } else {
      EarlyFailureReleases(lib);
      if !lib.chipOpens {
        assert Released([AcquireFailed(Chip)]) == [];
      }
    }
  }
}
