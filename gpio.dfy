/**
 * Firmware GPIO bookkeeping (firmware/src/gpio.c): the pin-number mapping,
 * the per-pin record of value and sticky rise/fall flags, the read-and-clear
 * in `readGpio`, the value filter of `writeGpio`, and the per-pin edge rule
 * of the pin-change ISRs. Register programming in `configGpio` is not
 * modelled.
 */
module Gpio {
  import opened Bytes

  /** `gpio_pin`: D2..D13 and the error value D_ERR. */
  datatype GpioPin = D(n: nat) | DErr

  /** A pin number the firmware serves: 2..13. */
  predicate IsGpioNumber(n: int)
  {
    2 <= n <= 13
  }

  /** `convertNumberToGpio`: 2..13 name D2..D13, every other byte D_ERR. */
  function ConvertNumberToGpio(n: byte): (p: GpioPin)
    ensures IsGpioNumber(n) ==> p == D(n)
    ensures !IsGpioNumber(n) ==> p == DErr
  {
    if 2 <= n <= 13 then D(n) else DErr
  }

  /** `s_pin`: one bit each for the last sampled value and the two edge flags. */
  datatype PinRecord = PinRecord(value: bool, rise: bool, fall: bool)

  /** The position of pin `n` in the record array. */
  function Slot(n: nat): nat
    requires IsGpioNumber(n)
  {
    n - 2
  }

  /** The edge rule applied to an enabled pin with a new sample. */
  function Edge(r: PinRecord, sample: bool): (r': PinRecord)
  {
    if sample != r.value then
      if !sample then r.(fall := true, value := sample)
      else r.(rise := true, value := sample)
    else
      r
  }

  /** What `readGpio` leaves in the record: the value, with both flags cleared. */
  function Cleared(r: PinRecord): PinRecord
  {
    r.(rise := false, fall := false)
  }

  /**
   * The edge rule, stated pointwise: the value follows the sample, a change
   * to 0 sets `fall`, a change to 1 sets `rise`, and flags are never cleared.
   */
  lemma EdgeRule(r: PinRecord, sample: bool)
    ensures Edge(r, sample).value == sample
    ensures Edge(r, sample).fall == (r.fall || (r.value && !sample))
    ensures Edge(r, sample).rise == (r.rise || (!r.value && sample))
    ensures sample == r.value ==> Edge(r, sample) == r
  {
  }

  /** Edge flags are sticky: any sequence of edge steps only sets them. */
  function EdgeAll(r: PinRecord, samples: seq<bool>): PinRecord
    decreases |samples|
  {
    if samples == [] then r else EdgeAll(Edge(r, samples[0]), samples[1..])
  }

  lemma {:induction false} EdgeFlagsSticky(r: PinRecord, samples: seq<bool>)
    ensures r.rise ==> EdgeAll(r, samples).rise
    ensures r.fall ==> EdgeAll(r, samples).fall
    decreases |samples|
  {
    if samples != [] {
      EdgeFlagsSticky(Edge(r, samples[0]), samples[1..]);
    }
  }

  /**
   * A rise is recorded across a run of samples exactly when some sample is
   * 1 while the value held just before it was 0, or it was already set.
   */
  /** The value held just before sample `k`: the recorded one, then the previous sample. */
  function Before(r: PinRecord, samples: seq<bool>, k: nat): bool
    requires k < |samples|
  {
    if k == 0 then r.value else samples[k - 1]
  }

  /**
   * A rise is recorded across a run of samples exactly when it was already
   * set or some sample is 1 while the level just before it was 0.
   */
  lemma {:induction false} EdgeAllRise(r: PinRecord, samples: seq<bool>)
    ensures EdgeAll(r, samples).rise <==>
      r.rise || exists k :: 0 <= k < |samples| && samples[k] && !Before(r, samples, k)
    decreases |samples|
  {
    if samples != [] {
      var r1 := Edge(r, samples[0]);
      var tail := samples[1..];
      EdgeAllRise(r1, tail);
      assert r1.value == samples[0];
      assert r1.rise == (r.rise || (!r.value && samples[0]));
      forall k | 0 <= k < |tail|
        ensures Before(r1, tail, k) == Before(r, samples, k + 1)
        ensures tail[k] == samples[k + 1]
      {
      }
      if EdgeAll(r, samples).rise {
        if !r.rise && !(samples[0] && !r.value) {
          var k :| 0 <= k < |tail| && tail[k] && !Before(r1, tail, k);
          assert samples[k + 1] && !Before(r, samples, k + 1);
        } else if !r.rise {
          assert samples[0] && !Before(r, samples, 0);
        }
      } else {
        forall k | 0 <= k < |samples| && samples[k]
          ensures Before(r, samples, k)
        {
          if k > 0 {
            assert tail[k - 1];
          }
        }
      }
    }
  }

  /**
   * A fall is recorded across a run of samples exactly when it was already
   * set or some sample is 0 while the level just before it was 1.
   */
  lemma {:induction false} EdgeAllFall(r: PinRecord, samples: seq<bool>)
    ensures EdgeAll(r, samples).fall <==>
      r.fall || exists k :: 0 <= k < |samples| && !samples[k] && Before(r, samples, k)
    decreases |samples|
  {
    if samples != [] {
      var r1 := Edge(r, samples[0]);
      var tail := samples[1..];
      EdgeAllFall(r1, tail);
      assert r1.value == samples[0];
      assert r1.fall == (r.fall || (r.value && !samples[0]));
      forall k | 0 <= k < |tail|
        ensures Before(r1, tail, k) == Before(r, samples, k + 1)
        ensures tail[k] == samples[k + 1]
      {
      }
      if EdgeAll(r, samples).fall {
        if !r.fall && !(!samples[0] && r.value) {
          var k :| 0 <= k < |tail| && !tail[k] && Before(r1, tail, k);
          assert !samples[k + 1] && Before(r, samples, k + 1);
        } else if !r.fall {
          assert !samples[0] && Before(r, samples, 0);
        }
      } else {
        forall k | 0 <= k < |samples| && !samples[k]
          ensures !Before(r, samples, k)
        {
          if k > 0 {
            assert !tail[k - 1];
          }
        }
      }
    }
  }

  class GpioDriver {
    /** `io2` .. `io13`, at positions 0..11. */
    var pins: array<PinRecord>
    /** The PCMSK bit of each pin: its pin-change interrupt is enabled. */
    var enabled: seq<bool>
    /** The PORT output bit of each pin. */
    var port: seq<bool>

    ghost predicate Valid()
      reads this
    {
      pins.Length == 12 && |enabled| == 12 && |port| == 12
    }

    /** The records of static storage start zeroed. */
    constructor ()
      ensures Valid() && fresh(pins)
      ensures forall i :: 0 <= i < 12 ==> pins[i] == PinRecord(false, false, false)
      ensures forall i :: 0 <= i < 12 ==> !enabled[i] && !port[i]
    {
      pins := new PinRecord[12](_ => PinRecord(false, false, false));
      enabled := seq(12, _ => false);
      port := seq(12, _ => false);
    }

    /**
     * `readGpio`: hand out value, rise and fall of the selected pin and
     * clear both flags. For D_ERR nothing is written and nothing changes.
     */
    method ReadGpio(pin: GpioPin, value: bool, rise: bool, fall: bool)
      returns (value': bool, rise': bool, fall': bool)
      requires Valid()
      requires pin.D? ==> IsGpioNumber(pin.n)
      modifies pins
      ensures Valid()
      ensures pin.DErr? ==> pins[..] == old(pins[..]) && (value', rise', fall') == (value, rise, fall)
      ensures pin.D? ==>
        var r := old(pins[Slot(pin.n)]);
        && (value', rise', fall') == (r.value, r.rise, r.fall)
        && pins[..] == old(pins[..])[Slot(pin.n) := Cleared(r)]
    {
      value', rise', fall' := value, rise, fall;
      if pin.D? {
        var i := Slot(pin.n);
        var r := pins[i];
        value' := r.value;
        rise' := r.rise;
        fall' := r.fall;
        pins[i] := r.(rise := false, fall := false);
      }
    }

    /** `writeGpio`: 0 drives the pin low, 1 drives it high, any other value does nothing. */
    method WriteGpio(pin: GpioPin, value: byte)
      requires Valid()
      requires pin.D? ==> IsGpioNumber(pin.n)
      modifies this
      ensures Valid() && pins == old(pins) && enabled == old(enabled)
      ensures pin.D? && value == 0 ==> port == old(port)[Slot(pin.n) := false]
      ensures pin.D? && value == 1 ==> port == old(port)[Slot(pin.n) := true]
      ensures (pin.DErr? || value > 1) ==> port == old(port)
    {
      if pin.D? {
        var i := Slot(pin.n);
        if value == 0 {
          port := port[i := false];
        } else if value == 1 {
          port := port[i := true];
        }
      }
    }

    /**
     * A pin-change ISR over the six pins whose records start at `base`
     * (D2..D7 for PCINT2, D8..D13 for PCINT0): each enabled pin takes the
     * edge rule with its sampled level, the others are left alone.
     */
    method PinChangeIsr(base: nat, sample: seq<bool>)
      requires Valid() && (base == 0 || base == 6) && |sample| == 6
      modifies pins
      ensures Valid()
      ensures pins[..] == IsrEffect(old(pins[..]), enabled, base, sample, 6)
    {
      var k := 0;
      while k < 6
        invariant 0 <= k <= 6
        invariant pins[..] == IsrEffect(old(pins[..]), enabled, base, sample, k)
      {
        var i := base + k;
        if enabled[i] {
          var r := pins[i];
          if sample[k] != r.value {
            if !sample[k] {
              r := r.(fall := true);
            } else {
              r := r.(rise := true);
            }
            r := r.(value := sample[k]);
          }
          pins[i] := r;
        }
        k := k + 1;
      }
    }

    /** PCINT0: pins D8..D13. */
    method PcInt0Isr(sample: seq<bool>)
      requires Valid() && |sample| == 6
      modifies pins
      ensures Valid()
      ensures pins[..] == IsrEffect(old(pins[..]), enabled, 6, sample, 6)
    {
      PinChangeIsr(6, sample);
    }

    /** PCINT2: pins D2..D7. */
    method PcInt2Isr(sample: seq<bool>)
      requires Valid() && |sample| == 6
      modifies pins
      ensures Valid()
      ensures pins[..] == IsrEffect(old(pins[..]), enabled, 0, sample, 6)
    {
      PinChangeIsr(0, sample);
    }
  }

  /** The records after the first `k` of the six pins from `base` took their edge step. */
  function IsrEffect(ps: seq<PinRecord>, en: seq<bool>, base: nat, sample: seq<bool>, k: nat): (r: seq<PinRecord>)
    requires |ps| == 12 && |en| == 12 && base + 6 <= 12 && |sample| == 6 && k <= 6
    ensures |r| == 12
  {
    seq(12, i requires 0 <= i < 12 =>
      if base <= i < base + k && en[i] then Edge(ps[i], sample[i - base]) else ps[i])
  }

  /**
   * A pin-change ISR touches only its own six pins, and a pin whose
   * interrupt is disabled keeps its record.
   */
  lemma IsrFrame(ps: seq<PinRecord>, en: seq<bool>, base: nat, sample: seq<bool>, i: nat)
    requires |ps| == 12 && |en| == 12 && (base == 0 || base == 6) && |sample| == 6 && i < 12
    ensures !(base <= i < base + 6) ==> IsrEffect(ps, en, base, sample, 6)[i] == ps[i]
    ensures !en[i] ==> IsrEffect(ps, en, base, sample, 6)[i] == ps[i]
    ensures base <= i < base + 6 && en[i] ==>
      IsrEffect(ps, en, base, sample, 6)[i] == Edge(ps[i], sample[i - base])
  {
  }

  /**
   * Idempotent read-and-clear: two `readGpio` calls on one pin with no edge
   * step between them report no edge the second time, and the same value.
   */
  method ReadTwice(g: GpioDriver, n: nat) returns (second: PinRecord)
    requires g.Valid() && IsGpioNumber(n)
    modifies g.pins
    ensures !second.rise && !second.fall && second.value == old(g.pins[Slot(n)]).value
  {
    var v, r, f := g.ReadGpio(D(n), false, false, false);
    v, r, f := g.ReadGpio(D(n), v, r, f);
    second := PinRecord(v, r, f);
  }
}
