/** The program's global variables that the JTAG layer and the drivers share. */
module Globals {
  import opened Tap

  /** What becomes of an operation: it is done, it gives up a transfer, or it ends the program. */
  datatype Outcome = Done | Failed | Died

  class Globals {
    /** The tracked state of the TAP. */
    var state: State
    var bitsSend: nat

    constructor ()
      ensures state == TestLogicReset && bitsSend == 0
    {
      state, bitsSend := TestLogicReset, 0;
    }
  }
}
