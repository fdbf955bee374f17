/** The stop flag shared between the UI and the capture worker
    (src/main.rs:137, 145 and 218-220). Only the UI's stores are modelled:
    "start capture" stores false before the worker is spawned, "stop capture"
    stores true. The worker's loads are the `stopSeen` oracle of the capture
    model. */
module StopFlag {

  datatype Command = StartCapture | StopCapture

  /** The value one command stores. */
  function Store(c: Command): bool {
    c.StopCapture?
  }

  /** The flag after the UI ran `cs` in order, starting from `flag`. Every
      store overwrites, so the flag is set exactly when the last command was a
      stop, and keeps its initial value when there was none. */
  function FlagAfter(flag: bool, cs: seq<Command>): (r: bool)
    ensures r == if cs == [] then flag else cs[|cs| - 1].StopCapture?
    decreases |cs|
  {
    if cs == [] then flag else FlagAfter(Store(cs[0]), cs[1..])
  }

  /** Starting a capture clears the flag, so a stop issued before the start
      is forgotten. */
  lemma StopBeforeStartForgotten(flag: bool, before: seq<Command>)
    ensures !FlagAfter(flag, before + [StartCapture])
  {
  }

  /** Stop only ever sets the flag: with no start among the commands, a set
      flag stays set, and any stop leaves it set. */
  lemma StopOnlySets(flag: bool, cs: seq<Command>)
    requires StartCapture !in cs
    ensures flag ==> FlagAfter(flag, cs)
    ensures StopCapture in cs ==> FlagAfter(flag, cs)
  {
    if cs != [] {
      assert cs[|cs| - 1] in cs;
    }
  }
}
