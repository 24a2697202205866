/**
 * The two control signals a run shares with the window: the cancel flag and the pause
 * flag (both `threading.Event`s). The window's buttons are the only writers besides the
 * worker, which clears the cancel flag when it honours it.
 */
module Signals {

  /** The buttons that can be pressed while a run is active. */
  datatype Button = CancelButton | PauseButton

  /**
   * The two events. `cancel` set asks the run to stop; `pauseFlag` SET lets the run
   * proceed and CLEAR holds it in its wait loop.
   */
  datatype Flags = Flags(cancel: bool, pauseFlag: bool)

  /** One press: "Cancel Download" sets the cancel flag, "Pause/Resume Download" toggles the pause flag. */
  function Press(f: Flags, b: Button): Flags {
    match b
    case CancelButton => f.(cancel := true)
    case PauseButton => f.(pauseFlag := !f.pauseFlag)
  }

  /** Several presses, in order. */
  function PressAll(f: Flags, bs: seq<Button>): Flags
    decreases |bs|
  {
    if bs == [] then f else PressAll(Press(f, bs[0]), bs[1..])
  }

  function CountPauses(bs: seq<Button>): nat {
    if bs == [] then 0 else (if bs[0] == PauseButton then 1 else 0) + CountPauses(bs[1..])
  }

  /** The cancel flag ends up set exactly when it was set already or cancel was pressed; pressing never clears it. */
  lemma {:induction false} PressAllCancel(f: Flags, bs: seq<Button>)
    ensures PressAll(f, bs).cancel == (f.cancel || CancelButton in bs)
    decreases |bs|
  {
    if bs != [] {
      PressAllCancel(Press(f, bs[0]), bs[1..]);
      assert bs == [bs[0]] + bs[1..];
    }
  }

  /** The pause flag ends up flipped exactly when the pause button was pressed an odd number of times. */
  lemma {:induction false} PressAllPause(f: Flags, bs: seq<Button>)
    ensures PressAll(f, bs).pauseFlag == (f.pauseFlag != (CountPauses(bs) % 2 == 1))
    decreases |bs|
  {
    if bs != [] {
      PressAllPause(Press(f, bs[0]), bs[1..]);
    }
  }
}
