/** What the DMX modules share: slot values, address constants and the size of a stepper board. */
module Dmx {
  type Slot = x: int | 0 <= x < 256

  /** Data as a driver gets it: the slots from 1 on, and the byte that memory holds in front of them. */
  datatype Frame = Frame(front: Slot, slots: seq<Slot>) {
    function Memory(): seq<Slot> {
      [front] + slots
    }
  }

  const UNIVERSE_SIZE: nat := 512

  /** The slots of a whole universe. */
  type Universe = u: seq<Slot> | |u| == UNIVERSE_SIZE witness seq(UNIVERSE_SIZE, _ => 0)

  const MAX_MOTORS: nat := 8
  const ADDRESS_INVALID: nat := 0xFFFF
}
