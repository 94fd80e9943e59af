/** The register and arithmetic macros of the Teensy support library (cab202_teensy/macros.h),
    over 8-bit registers. */
module Macros {

  /** The index of a bit inside an 8-bit register: the macros take `pin` in 0..7. */
  type Pin = p: nat | p < 8

  /** `1 << pin` as an 8-bit mask. */
  function Mask(pin: Pin): bv8 {
    (1 as bv8) << pin
  }

  /** `BIT_VALUE(reg, pin)`: bit `pin` of `reg`, as 0 or 1. */
  function BitValue(reg: bv8, pin: Pin): (b: bv8)
    ensures b == 0 || b == 1
    ensures b == 1 <==> reg & Mask(pin) != 0
  {
    (reg >> pin) & 1
  }

  /** `BIT_IS_SET(reg, pin)`. */
  predicate BitIsSet(reg: bv8, pin: Pin) {
    BitValue(reg, pin) == 1
  }

  /** Two registers agree on every bit other than `pin`. */
  predicate SameOtherBits(a: bv8, b: bv8, pin: Pin) {
    forall q: Pin :: q != pin ==> BitValue(a, q) == BitValue(b, q)
  }

  /** `SET_BIT(reg, pin)`. */
  function SetBit(reg: bv8, pin: Pin): (r: bv8)
    ensures BitValue(r, pin) == 1
    ensures SameOtherBits(r, reg, pin)
  {
    reg | Mask(pin)
  }

  /** `CLEAR_BIT(reg, pin)`. */
  function ClearBit(reg: bv8, pin: Pin): (r: bv8)
    ensures BitValue(r, pin) == 0
    ensures SameOtherBits(r, reg, pin)
  {
    reg & !Mask(pin)
  }

  /** `WRITE_BIT(reg, pin, value)`: clear the bit, then or in `value << pin`. Only for a `value`
      of 0 or 1 is this a write of one bit; larger values spill into higher bits. */
  function WriteBit(reg: bv8, pin: Pin, value: bv8): (r: bv8)
    ensures value == 0 || value == 1 ==> BitValue(r, pin) == value
    ensures value == 0 || value == 1 ==> SameOtherBits(r, reg, pin)
  {
    WriteBitIsSetOrClear(reg, pin, value);
    (reg & !Mask(pin)) | (value << pin)
  }

  /** `SET_INPUT(ddr, pin)`: a 0 in a data direction register makes the pin an input. */
  function SetInput(ddr: bv8, pin: Pin): (r: bv8)
    ensures !BitIsSet(r, pin)
    ensures SameOtherBits(r, ddr, pin)
  {
    ClearBit(ddr, pin)
  }

  /** `SET_OUTPUT(ddr, pin)`: a 1 in a data direction register makes the pin an output. */
  function SetOutput(ddr: bv8, pin: Pin): (r: bv8)
    ensures BitIsSet(r, pin)
    ensures SameOtherBits(r, ddr, pin)
  {
    SetBit(ddr, pin)
  }

  /** `~reg` flips every bit. */
  lemma ComplementFlipsBits(reg: bv8, pin: Pin)
    ensures BitIsSet(!reg, pin) <==> !BitIsSet(reg, pin)
  {
  }

  /** Registers that agree on all eight bits are equal. */
  lemma BitsDetermineRegister(a: bv8, b: bv8)
    requires forall q: Pin :: BitValue(a, q) == BitValue(b, q)
    ensures a == b
  {
    assert BitValue(a, 0) == BitValue(b, 0);
    assert BitValue(a, 1) == BitValue(b, 1);
    assert BitValue(a, 2) == BitValue(b, 2);
    assert BitValue(a, 3) == BitValue(b, 3);
    assert BitValue(a, 4) == BitValue(b, 4);
    assert BitValue(a, 5) == BitValue(b, 5);
    assert BitValue(a, 6) == BitValue(b, 6);
    assert BitValue(a, 7) == BitValue(b, 7);
  }

  /** Writing a bit with `WRITE_BIT` is setting it for 1 and clearing it for 0. */
  lemma WriteBitIsSetOrClear(reg: bv8, pin: Pin, value: bv8)
    ensures value == 1 ==> (reg & !Mask(pin)) | (value << pin) == SetBit(reg, pin)
    ensures value == 0 ==> (reg & !Mask(pin)) | (value << pin) == ClearBit(reg, pin)
  {
  }

  /** `ABS(x)`. */
  function Abs(x: int): (r: int)
    ensures r >= 0
    ensures r == x || r == -x
  {
    if x >= 0 then x else -x
  }

  /** `ABS(x)` on a floating-point operand, with exact reals. */
  function RealAbs(x: real): (r: real)
    ensures r >= 0.0
    ensures r == x || r == -x
  {
    if x >= 0.0 then x else -x
  }

  /** `SIGN(x)`: -1, 0 or 1, so that the sign times the magnitude gives back `x`. */
  function Sign(x: int): (r: int)
    ensures r == -1 || r == 0 || r == 1
    ensures r * Abs(x) == x
    ensures r == 0 <==> x == 0
  {
    (if x > 0 then 1 else 0) - (if x < 0 then 1 else 0)
  }
}
