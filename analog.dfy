/**
 * Firmware analog inputs (firmware/src/analog.c): the pin-number mapping
 * and the ADMUX channel selection of `readAdc`. The conversion itself (start
 * bit, busy-wait, result register) is an oracle: the sampled value is a
 * parameter.
 */
module Analog {
  import opened Bytes

  /** `analog_pin`: A0..A5 (enum values 0..5), TEMP (6) and A_ERR (7). */
  datatype AnalogPin = A(n: nat) | Temp | AErr

  /** The enum value `readAdc` returns for an invalid pin. */
  const A_ERR_VALUE: uint16 := 7

  /** The four MUX bits of ADMUX. */
  const MUX_MASK: bv8 := 0x0F

  /** `convertNumberToAnalog`: 0..5 name A0..A5, every other byte A_ERR. */
  function ConvertNumberToAnalog(n: byte): (p: AnalogPin)
    ensures n <= 5 ==> p == A(n)
    ensures n > 5 ==> p == AErr
  {
    if n <= 5 then A(n) else AErr
  }

  predicate ValidAnalogPin(p: AnalogPin)
  {
    p.A? ==> p.n <= 5
  }

  /** The channel code `readAdc` selects: the pin number for A0..A5, 8 for the temperature sensor. */
  function MuxCode(p: AnalogPin): (code: bv8)
    requires ValidAnalogPin(p) && !p.AErr?
    ensures code & MUX_MASK == code
    ensures p.A? ==> code as int == p.n
    ensures p.Temp? ==> code == 8
  {
    match p
    case A(n) => if n == 0 then 0 else if n == 1 then 1 else if n == 2 then 2
                 else if n == 3 then 3 else if n == 4 then 4 else 5
    case Temp => 8
  }

  /** ADMUX after channel selection. */
  function Select(admux: bv8, p: AnalogPin): bv8
    requires ValidAnalogPin(p) && !p.AErr?
  {
    (admux & !MUX_MASK) | MuxCode(p)
  }

  /**
   * Channel selection keeps every non-MUX bit (the reference selection) and
   * leaves exactly the pin's channel code in the MUX bits, whatever channel
   * was selected before.
   */
  lemma SelectBits(admux: bv8, p: AnalogPin)
    requires ValidAnalogPin(p) && !p.AErr?
    ensures Select(admux, p) & !MUX_MASK == admux & !MUX_MASK
    ensures Select(admux, p) & MUX_MASK == MuxCode(p)
  {
    var code := MuxCode(p);
    assert code & MUX_MASK == code;
    assert code & !MUX_MASK == 0 by {
      assert code & !MUX_MASK == (code & MUX_MASK) & !MUX_MASK;
    }
  }

  class Adc {
    var admux: bv8
    /** Set when a conversion was started. */
    var converted: bool

    constructor (admux0: bv8)
      ensures admux == admux0 && !converted
    {
      admux := admux0;
      converted := false;
    }

    /**
     * `readAdc`: clear the MUX bits, then select the pin's channel and
     * return the converted `sample`; an invalid pin returns A_ERR with the
     * MUX bits already cleared and no conversion started.
     */
    method ReadAdc(p: AnalogPin, sample: uint16) returns (res: uint16)
      requires ValidAnalogPin(p)
      modifies this
      ensures p.AErr? ==> res == A_ERR_VALUE && admux == old(admux) & !MUX_MASK && converted == old(converted)
      ensures !p.AErr? ==> res == sample && admux == Select(old(admux), p) && converted
    {
      admux := admux & !MUX_MASK;
      match p {
        case A(n) =>
          if n == 1 {
            admux := admux | 0x01;
          } else if n == 2 {
            admux := admux | 0x02;
          } else if n == 3 {
            admux := admux | 0x03;
          } else if n == 4 {
            admux := admux | 0x04;
          } else if n == 5 {
            admux := admux | 0x05;
          }
        case Temp =>
          admux := admux | 0x08;
        case AErr =>
          return A_ERR_VALUE;
      }
      converted := true;
      res := sample;
    }
  }
}
