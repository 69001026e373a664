// The general-purpose I/O base class (C++ `Gpio`, C `struct Gpio`): the
// read-modify-write helpers every GPIO driver inherits, and the defaults a
// driver without interrupt support keeps. The data and direction registers
// are 32-bit words; a bit of the direction register reads 1 for an output
// pin and 0 for an input pin. The derived drivers' register accessors are
// modelled by two fields that read back what was last written.
module Gpio {
  import opened CTypes

  type Word = bv32

  /**
   * The word whose mask bits are 1 and whose other bits are those of `x`
   * (bitmask: 1 sets, 0 leaves unaffected).
   */
  function SetBits(x: Word, mask: Word): (r: Word)
    ensures r & mask == mask
    ensures r & !mask == x & !mask
  {
    x | mask
  }

  /**
   * The word whose mask bits are 0 and whose other bits are those of `x`
   * (bitmask: 1 clears, 0 leaves unaffected).
   */
  function ClearBits(x: Word, mask: Word): (r: Word)
    ensures r & mask == 0
    ensures r & !mask == x & !mask
  {
    x & !mask
  }

  /**
   * The contracts above characterise the helpers: a word with the mask bits
   * 1 (or 0) that agrees with `x` off the mask is the helper's result.
   */
  lemma MaskContractsDetermineResult(x: Word, mask: Word, r: Word)
    ensures r & mask == mask && r & !mask == x & !mask ==> r == SetBits(x, mask)
    ensures r & mask == 0 && r & !mask == x & !mask ==> r == ClearBits(x, mask)
  {
    WordSplitsOnMask(r, mask);
    WordSplitsOnMask(x, mask);
  }

  /** A word is its mask bits together with its other bits. */
  lemma WordSplitsOnMask(r: Word, mask: Word)
    ensures r == (r & mask) | (r & !mask)
  {
  }

  /** Setting and clearing the same mask twice changes nothing the first time did not. */
  lemma SetClearIdempotent(x: Word, mask: Word)
    ensures SetBits(SetBits(x, mask), mask) == SetBits(x, mask)
    ensures ClearBits(ClearBits(x, mask), mask) == ClearBits(x, mask)
  {
  }

  /**
   * Set then clear leaves the mask bits 0 and every other bit as it was;
   * clear then set leaves them 1 and every other bit as it was.
   */
  lemma SetThenClear(x: Word, mask: Word)
    ensures ClearBits(SetBits(x, mask), mask) == ClearBits(x, mask)
  {
    MaskContractsDetermineResult(x, mask, ClearBits(SetBits(x, mask), mask));
  }

  lemma ClearThenSet(x: Word, mask: Word)
    ensures SetBits(ClearBits(x, mask), mask) == SetBits(x, mask)
  {
    var cleared := ClearBits(x, mask);
    var r := SetBits(cleared, mask);
    assert r & !mask == x & !mask;
    MaskContractsDetermineResult(x, mask, r);
  }

  /** A mask of 0 leaves a register alone; a mask of all ones saturates it. */
  lemma MaskEdges(x: Word)
    ensures SetBits(x, 0) == x && ClearBits(x, 0) == x
    ensures SetBits(x, 0xFFFF_FFFF) == 0xFFFF_FFFF && ClearBits(x, 0xFFFF_FFFF) == 0
  {
  }

  class Gpio {
    /** What readData returns: the last value writeData wrote. */
    var data: Word
    /** What readDirection returns: the last value writeDirection wrote. */
    var direction: Word

    /** The derived driver's construction, which leaves the registers as the hardware holds them. */
    constructor (data0: Word, direction0: Word)
      ensures data == data0 && direction == direction0
    {
      data, direction := data0, direction0;
    }

    /** setDataBit: the mask bits of the data register become 1, the others are unaffected. */
    method SetDataBit(mask: Word)
      modifies this`data
      ensures data == SetBits(old(data), mask)
    {
      var value := data | mask;
      data := value;
    }

    /** clearDataBit: the mask bits of the data register become 0, the others are unaffected. */
    method ClearDataBit(mask: Word)
      modifies this`data
      ensures data == ClearBits(old(data), mask)
    {
      var value := data & !mask;
      data := value;
    }

    /** setOutputBit: the mask pins become outputs, the others keep their direction. */
    method SetOutputBit(mask: Word)
      modifies this`direction
      ensures direction == SetBits(old(direction), mask)
    {
      var value := direction | mask;
      direction := value;
    }

    /** setInputBit: the mask pins become inputs, the others keep their direction. */
    method SetInputBit(mask: Word)
      modifies this`direction
      ensures direction == ClearBits(old(direction), mask)
    {
      var value := direction & !mask;
      direction := value;
    }

    /** The default setupInterrupt: a driver without interrupt support reports failure. */
    method SetupInterrupt(interruptBits: Word) returns (rc: int)
      ensures rc == 1
    {
      rc := 1;
    }

    /**
     * The default enableMultipleInterrupts, disableMultipleInterrupts,
     * enableInterrupt and disableInterrupt: they change nothing.
     */
    method EnableMultipleInterrupts(mask: Word)
      ensures data == old(data) && direction == old(direction)
    {
    }

    method DisableMultipleInterrupts(mask: Word)
      ensures data == old(data) && direction == old(direction)
    {
    }

    method EnableInterrupt()
      ensures data == old(data) && direction == old(direction)
    {
    }

    method DisableInterrupt()
      ensures data == old(data) && direction == old(direction)
    {
    }
  }

  /**
   * Gpio_destroy: a NULL handle is returned as NULL without dispatching;
   * any other handle is handed to the driver's own destroy, whose result
   * (`derivedResult`) is returned.
   */
  method Destroy(self: Gpio?, derivedResult: Gpio?) returns (r: Gpio?, dispatched: bool)
    ensures self == null ==> r == null && !dispatched
    ensures self != null ==> dispatched && r == derivedResult
  {
    if self == null {
      return null, false;
    }
    return derivedResult, true;
  }

  /**
   * Driving pin 3 high as an output and then low: the pin ends an output at
   * 0, and the other pins keep their data and direction.
   */
  method PinScenario(data0: Word, direction0: Word) returns (data: Word, direction: Word)
    ensures data & 0x8 == 0 && direction & 0x8 == 0x8
    ensures data & !0x8 == data0 & !0x8 && direction & !0x8 == direction0 & !0x8
  {
    var g := new Gpio(data0, direction0);
    g.SetOutputBit(0x8);
    g.SetDataBit(0x8);
    g.ClearDataBit(0x8);
    data, direction := g.data, g.direction;
  }
}
