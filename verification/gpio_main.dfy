/** The standalone test program of src/gpio.c:90-105: set up the lines,
    step through 4096 positions two milliseconds apart, release the request. */
module GpioMain {
  import opened GpioSetup
  import opened HalfStep

  const DrivePositions: nat := 4096
  const PauseMicros: nat := 2000

  /** One pass of the loop: the position, the line values written, the pause. */
  datatype DriveStep = DriveStep(position: nat, values: seq<bool>, pauseMicros: nat)

  /** Writing the positions `0, 1, 2, ...` in order changes one line at a time. */
  lemma PositionsInOrderChangeOneLine(steps: seq<DriveStep>)
    requires forall i | 0 <= i < |steps| :: steps[i].values == Table[i % |Table|]
    ensures forall i | 0 <= i < |steps| - 1 :: Differences(steps[i].values, steps[i + 1].values) == 1
  {
    forall i | 0 <= i < |steps| - 1
      ensures Differences(steps[i].values, steps[i + 1].values) == 1
    {
      ConsecutivePositionsDifferInOneLine(i);
    }
  }

  /** The loop of src/gpio.c:96-99. */
  method DriveLoop() returns (steps: seq<DriveStep>)
    ensures |steps| == DrivePositions == 512 * |Table|
    ensures forall i | 0 <= i < |steps| :: steps[i] == DriveStep(i, Table[i % |Table|], PauseMicros)
    ensures steps[|steps| - 1].values == Table[7]
    ensures forall i | 0 <= i < |steps| - 1 :: Differences(steps[i].values, steps[i + 1].values) == 1
  {
    steps := [];
    var i: nat := 0;
    while i < DrivePositions
      invariant i <= DrivePositions && |steps| == i
      invariant forall j | 0 <= j < i :: steps[j] == DriveStep(j, Table[j % |Table|], PauseMicros)
    {
      steps := steps + [DriveStep(i, SetPosition(i), PauseMicros)];
      i := i + 1;
    }
    PositionsInOrderChangeOneLine(steps);
  }

  /** What the program did: the set-up, the drive loop, whether it released
      the line request, and its exit status. */
  datatype MainRun = MainRun(setup: Setup, drive: seq<DriveStep>, releasedRequest: bool, exitCode: int)

  method StandaloneMain(lib: Libgpiod) returns (run: MainRun)
    requires WellFormed(lib)
    ensures run.setup == SetupGpio(lib)
    ensures run.exitCode == 0 <==>
              && lib.chipOpens && lib.settingsAllocated && lib.configAllocated
              && (forall j | 0 <= j < |LineOffsets| :: lib.lineAdded[j])
              && lib.requestConfigAllocated && lib.requestGranted
    ensures run.exitCode != 0 ==> run.exitCode == -1 && run.drive == [] && !run.releasedRequest
    ensures run.exitCode == 0 ==> |run.drive| == DrivePositions && run.releasedRequest
                                  && run.drive[|run.drive| - 1].values == Table[7]
  {
    var setup := SetupGpio(lib);
    if setup.request.None? {
      return MainRun(setup, [], false, -1);
    }
    var drive := DriveLoop();
    run := MainRun(setup, drive, true, 0);
  }
}
