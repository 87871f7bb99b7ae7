/**
 * Firmware edge counters (firmware/src/counter.c): two 8-bit counts for
 * pins D2 and D3, incremented by the INT0/INT1 interrupts, read and cleared
 * by `readCounter`, and the edge-sense bits of EICRA that `configCounter`
 * OR-s in. Pull-up and direction register writes are not modelled.
 */
module Counter {
  import opened Bytes

  /** `cnt_pin`. */
  datatype CntPin = CntD2 | CntD3

  /**
   * `cnt_options` as the integer the firmware passes: 0 is RISE, 1 FALL,
   * 2 BOTH; the parser can also pass a value that names none of them.
   */
  const RISE: nat := 0
  const FALL: nat := 1
  const BOTH: nat := 2

  /** Bit positions of EICRA and EIMSK on the ATmega328P. */
  const ISC00: bv8 := 0x01
  const ISC01: bv8 := 0x02
  const ISC10: bv8 := 0x04
  const ISC11: bv8 := 0x08
  const INT0: bv8 := 0x01
  const INT1: bv8 := 0x02

  /** The edge-sense bits `configCounter` adds for a pin and an option. */
  function SenseBits(p: CntPin, o: nat): (bits: bv8)
    ensures p.CntD2? ==> bits & (ISC11 | ISC10) == 0
    ensures p.CntD3? ==> bits & (ISC01 | ISC00) == 0
    ensures o > BOTH ==> bits == 0
  {
    match p
    case CntD2 => if o == RISE then ISC01 | ISC00 else if o == FALL then ISC01 else if o == BOTH then ISC00 else 0
    case CntD3 => if o == RISE then ISC11 | ISC10 else if o == FALL then ISC11 else if o == BOTH then ISC10 else 0
  }

  /** The interrupt-enable bit of a pin. */
  function IntBit(p: CntPin): bv8
  {
    if p.CntD2? then INT0 else INT1
  }

  /**
   * Configuring only adds bits: every bit set before stays set, and the
   * other pin's sense bits are left as they were.
   */
  lemma SenseOnlyAdds(eicra: bv8, p: CntPin, o: nat)
    ensures (eicra | SenseBits(p, o)) & eicra == eicra
    ensures p.CntD2? ==> (eicra | SenseBits(p, o)) & (ISC11 | ISC10) == eicra & (ISC11 | ISC10)
    ensures p.CntD3? ==> (eicra | SenseBits(p, o)) & (ISC01 | ISC00) == eicra & (ISC01 | ISC00)
  {
  }

  /** The count after one edge interrupt: 8-bit increment. */
  function Tick(c: byte): (c': byte)
    ensures c' == (c + 1) % 0x100
    ensures c < 0xFF ==> c' == c + 1
    ensures c == 0xFF ==> c' == 0
  {
    if c == 0xFF then 0 else c + 1
  }

  /** The count after `n` edges starting from `c`. */
  function Ticks(c: byte, n: nat): byte
  {
    if n == 0 then c else Tick(Ticks(c, n - 1))
  }

  /** `n` edges after a read-and-clear leave `n mod 256` to be read next. */
  lemma {:induction false} TicksCount(c: byte, n: nat)
    ensures Ticks(c, n) == (c + n) % 0x100
  {
    if n > 0 {
      TicksCount(c, n - 1);
    }
  }

  class CounterDriver {
    var cntD2: byte
    var cntD3: byte
    var eicra: bv8
    var eimsk: bv8

    /** Counts start at 0; the registers are at their reset value 0. */
    constructor ()
      ensures cntD2 == 0 && cntD3 == 0 && eicra == 0 && eimsk == 0
    {
      cntD2, cntD3, eicra, eimsk := 0, 0, 0, 0;
    }

    function Count(p: CntPin): byte
      reads this
    {
      if p.CntD2? then cntD2 else cntD3
    }

    /** `readCounter`: return the pin's count and set it to 0; the other count is left alone. */
    method ReadCounter(p: CntPin) returns (ret: byte)
      modifies this
      ensures ret == old(Count(p))
      ensures Count(p) == 0
      ensures p.CntD2? ==> cntD3 == old(cntD3)
      ensures p.CntD3? ==> cntD2 == old(cntD2)
      ensures eicra == old(eicra) && eimsk == old(eimsk)
    {
      ret := 0;
      if p.CntD2? {
        ret := cntD2;
        cntD2 := 0;
      } else {
        ret := cntD3;
        cntD3 := 0;
      }
    }

    /**
     * `configCounter`: OR in the sense bits of the option and the pin's
     * interrupt-enable bit, then clear the pin's count by reading it.
     */
    method ConfigCounter(p: CntPin, o: nat)
      modifies this
      ensures eicra == old(eicra) | SenseBits(p, o)
      ensures eimsk == old(eimsk) | IntBit(p)
      ensures Count(p) == 0
      ensures p.CntD2? ==> cntD3 == old(cntD3)
      ensures p.CntD3? ==> cntD2 == old(cntD2)
    {
      if p.CntD2? {
        if o == RISE {
          eicra := eicra | ISC01 | ISC00;
        } else if o == FALL {
          eicra := eicra | ISC01;
        } else if o == BOTH {
          eicra := eicra | ISC00;
        }
        eimsk := eimsk | INT0;
        var _ := ReadCounter(CntD2);
      } else {
        if o == RISE {
          eicra := eicra | ISC11 | ISC10;
        } else if o == FALL {
          eicra := eicra | ISC11;
        } else if o == BOTH {
          eicra := eicra | ISC10;
        }
        eimsk := eimsk | INT1;
        var _ := ReadCounter(CntD3);
      }
    }

    /** INT0: one edge on D2. */
    method Int0Isr()
      modifies this
      ensures cntD2 == Tick(old(cntD2)) && cntD3 == old(cntD3)
      ensures eicra == old(eicra) && eimsk == old(eimsk)
    {
      cntD2 := (cntD2 + 1) % 0x100;
    }

    /** INT1: one edge on D3. */
    method Int1Isr()
      modifies this
      ensures cntD3 == Tick(old(cntD3)) && cntD2 == old(cntD2)
      ensures eicra == old(eicra) && eimsk == old(eimsk)
    {
      cntD3 := (cntD3 + 1) % 0x100;
    }
  }
}
