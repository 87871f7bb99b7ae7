/**
 * Firmware servo outputs (firmware/src/servo.c): hardware PWM on D9/D10
 * through the OCR1A/OCR1B compare values, clamped to 1000..2000 us, and
 * software PWM on D2..D7 driven by the 100 us TIMER0 overflow interrupt,
 * whose pulse widths are stored in 8 bits in units of 100 us. Timer and
 * direction register setup is not modelled.
 */
module ServoDriver {
  import opened Bytes

  const PWM_MIN: nat := 1000
  const PWM_MIDDLE: nat := 1500
  const PWM_MAX: nat := 2000
  /** TIMER0 ticks per 20 ms period, and the tick after which the CLRPIN phase ends. */
  const C_20_MS: nat := 200
  const C_10_MS: nat := 100
  /** The software pulse width every soft pin starts with. */
  const INITIAL_WIDTH: byte := 15

  /** `servo_pin`: the two hardware outputs and the six software ones, D2..D7. */
  datatype ServoPin = ServoD9 | ServoD10 | ServoSoft(n: nat)

  predicate ValidServoPin(p: ServoPin)
  {
    p.ServoSoft? ==> 2 <= p.n <= 7
  }

  /** Index of a software pin in the bitmap and width tables. */
  function SoftIndex(p: ServoPin): nat
    requires p.ServoSoft? && ValidServoPin(p)
  {
    p.n - 2
  }

  /** The compare value `setServoPwm` writes for D9/D10. */
  function Clamp(v: uint16): (r: uint16)
    ensures PWM_MIN <= r <= PWM_MAX
    ensures PWM_MIN <= v <= PWM_MAX ==> r == v
    ensures v < PWM_MIN ==> r == PWM_MIN
    ensures v > PWM_MAX ==> r == PWM_MAX
  {
    if v < PWM_MIN then PWM_MIN else if v > PWM_MAX then PWM_MAX else v
  }

  /** The `(uint8_t)` cast `setServoPwm` applies for D2..D7: no clamping, only truncation. */
  function Truncate(v: uint16): (r: byte)
    ensures r == v % 0x100
    ensures v < 0x100 ==> r == v
  {
    v % 0x100
  }

  /** The two phases of the TIMER0 state machine. */
  datatype TimerState = SetPin | ClrPin

  /** Everything the TIMER0 interrupt reads and writes. */
  datatype SoftPwm = SoftPwm(
    bitmap: seq<bool>,
    width: seq<byte>,
    port: seq<bool>,
    state: TimerState,
    cnt1: byte,
    cnt2: byte)

  predicate SoftPwmValid(s: SoftPwm)
  {
    |s.bitmap| == 6 && |s.width| == 6 && |s.port| == 6
  }

  /** One TIMER0 overflow: both counters advance (8-bit), then the phase acts. */
  function Tick(s: SoftPwm): (s': SoftPwm)
    requires SoftPwmValid(s)
    ensures SoftPwmValid(s') && s'.bitmap == s.bitmap && s'.width == s.width
  {
    var c1 := (s.cnt1 + 1) % 0x100;
    var c2 := (s.cnt2 + 1) % 0x100;
    match s.state
    case SetPin =>
      if c1 == C_20_MS then
        s.(port := seq(6, i requires 0 <= i < 6 => s.port[i] || s.bitmap[i]),
           state := ClrPin, cnt1 := 0, cnt2 := 0)
      else
        s.(cnt1 := c1, cnt2 := c2)
    case ClrPin =>
      s.(port := seq(6, i requires 0 <= i < 6 => s.port[i] && !(c2 == s.width[i] && s.bitmap[i])),
         state := if c1 > C_10_MS then SetPin else ClrPin,
         cnt1 := c1, cnt2 := c2)
  }

  /**
   * The tick drives only bitmap pins: it raises every one of them when the
   * 20 ms period ends in SETPIN, lowers one in CLRPIN exactly when the
   * pulse counter reaches its width, and leaves every other pin alone.
   */
  lemma TickPins(s: SoftPwm, i: nat)
    requires SoftPwmValid(s) && i < 6
    ensures !s.bitmap[i] ==> Tick(s).port[i] == s.port[i]
    ensures s.state.SetPin? && (s.cnt1 + 1) % 0x100 == C_20_MS ==>
      Tick(s).state == ClrPin && Tick(s).cnt1 == 0 && Tick(s).cnt2 == 0 &&
      Tick(s).port[i] == (s.port[i] || s.bitmap[i])
    ensures s.state.SetPin? && (s.cnt1 + 1) % 0x100 != C_20_MS ==>
      Tick(s) == s.(cnt1 := (s.cnt1 + 1) % 0x100, cnt2 := (s.cnt2 + 1) % 0x100)
    ensures s.state.ClrPin? ==>
      Tick(s).port[i] == (s.port[i] && !(s.bitmap[i] && (s.cnt2 + 1) % 0x100 == s.width[i])) &&
      (Tick(s).state == SetPin <==> (s.cnt1 + 1) % 0x100 > C_10_MS)
  {
  }

  function Ticks(s: SoftPwm, k: nat): (s': SoftPwm)
    requires SoftPwmValid(s)
    ensures SoftPwmValid(s') && s'.bitmap == s.bitmap && s'.width == s.width
  {
    if k == 0 then s else Tick(Ticks(s, k - 1))
  }

  /**
   * The pulse: right after the raise (CLRPIN, both counters 0, the pin
   * high), a bitmap pin with width w in 1..101 stays high for exactly w
   * ticks; the machine leaves CLRPIN at tick 101. A width of 0 or above
   * 101 is never matched in CLRPIN, so such a pin is never lowered.
   */
  lemma {:induction false} Pulse(s: SoftPwm, i: nat, k: nat)
    requires SoftPwmValid(s) && i < 6 && s.bitmap[i] && s.port[i]
    requires s.state == ClrPin && s.cnt1 == 0 && s.cnt2 == 0
    requires k <= C_10_MS + 1
    ensures Ticks(s, k).cnt1 == k && Ticks(s, k).cnt2 == k
    ensures Ticks(s, k).state == if k <= C_10_MS then ClrPin else SetPin
    ensures Ticks(s, k).port[i] == !(1 <= s.width[i] <= k)
  {
    if k > 0 {
      Pulse(s, i, k - 1);
      var t := Ticks(s, k - 1);
      assert t.state == ClrPin && (t.cnt1 + 1) % 0x100 == k && (t.cnt2 + 1) % 0x100 == k;
      TickPins(t, i);
    }
  }

  /**
   * From the end of CLRPIN (SETPIN, counter 101) the machine waits in
   * SETPIN for 98 ticks without touching a pin.
   */
  lemma {:induction false} Waiting(s: SoftPwm, k: nat)
    requires SoftPwmValid(s) && s.state == SetPin && s.cnt1 == C_10_MS + 1
    requires k <= C_20_MS - C_10_MS - 2
    ensures Ticks(s, k).state == SetPin && Ticks(s, k).cnt1 == C_10_MS + 1 + k
    ensures Ticks(s, k).port == s.port
  {
    if k > 0 {
      Waiting(s, k - 1);
      TickPins(Ticks(s, k - 1), 0);
    }
  }

  /**
   * The 99th tick after the end of CLRPIN closes the 200-tick period:
   * every bitmap pin is raised and CLRPIN starts again from zero.
   */
  lemma Period(s: SoftPwm, k: nat, i: nat)
    requires SoftPwmValid(s) && s.state == SetPin && s.cnt1 == C_10_MS + 1 && i < 6
    requires k == C_20_MS - C_10_MS - 1
    ensures Ticks(s, k).state == ClrPin && Ticks(s, k).cnt1 == 0 && Ticks(s, k).cnt2 == 0
    ensures Ticks(s, k).port[i] == (s.port[i] || s.bitmap[i])
  {
    Waiting(s, k - 1);
    TickPins(Ticks(s, k - 1), i);
  }

  class Servos {
    /** `servo_bitmap`: which of D2..D7 are servo outputs. */
    var bitmap: seq<bool>
    /** `timer0_pwm_value_D2` .. `_D7`. */
    var width: seq<byte>
    /** PORT bits of D2..D7. */
    var port: seq<bool>
    var state: TimerState
    var cnt1: byte
    var cnt2: byte
    var ocr1a: uint16
    var ocr1b: uint16

    ghost predicate Valid()
      reads this
    {
      |bitmap| == 6 && |width| == 6 && |port| == 6
    }

    function Abs(): SoftPwm
      reads this
    {
      SoftPwm(bitmap, width, port, state, cnt1, cnt2)
    }

    /** The state after the static initialisers and `initServo`. */
    constructor ()
      ensures Valid()
      ensures bitmap == seq(6, _ => false) && width == seq(6, _ => INITIAL_WIDTH)
      ensures ocr1a == PWM_MIDDLE && ocr1b == PWM_MIDDLE
      ensures state == SetPin && cnt1 == 0 && cnt2 == 0
    {
      bitmap := seq(6, _ => false);
      width := seq(6, _ => INITIAL_WIDTH);
      port := seq(6, _ => false);
      state := SetPin;
      cnt1, cnt2 := 0, 0;
      ocr1a, ocr1b := PWM_MIDDLE, PWM_MIDDLE;
    }

    /** `setServoPwm`: clamp for D9/D10, truncate to 8 bits for D2..D7. */
    method SetServoPwm(p: ServoPin, pwm: uint16)
      requires Valid() && ValidServoPin(p)
      modifies this
      ensures Valid() && bitmap == old(bitmap) && port == old(port)
      ensures state == old(state) && cnt1 == old(cnt1) && cnt2 == old(cnt2)
      ensures p.ServoD9? ==> ocr1a == Clamp(pwm) && ocr1b == old(ocr1b) && width == old(width)
      ensures p.ServoD10? ==> ocr1b == Clamp(pwm) && ocr1a == old(ocr1a) && width == old(width)
      ensures p.ServoSoft? ==>
        width == old(width)[SoftIndex(p) := Truncate(pwm)] && ocr1a == old(ocr1a) && ocr1b == old(ocr1b)
    {
      var v := 0;
      if p.ServoD9? || p.ServoD10? {
        if pwm < PWM_MIN {
          v := PWM_MIN;
        } else if pwm > PWM_MAX {
          v := PWM_MAX;
        } else {
          v := pwm;
        }
      }
      match p
      case ServoD9 => ocr1a := v;
      case ServoD10 => ocr1b := v;
      case ServoSoft(n) => width := width[n - 2 := pwm % 0x100];
    }

    /** `configServo`: set the pulse width, then mark a software pin in the bitmap. */
    method ConfigServo(p: ServoPin, pwm: uint16)
      requires Valid() && ValidServoPin(p)
      modifies this
      ensures Valid() && port == old(port)
      ensures state == old(state) && cnt1 == old(cnt1) && cnt2 == old(cnt2)
      ensures p.ServoD9? ==> ocr1a == Clamp(pwm) && ocr1b == old(ocr1b) && width == old(width) && bitmap == old(bitmap)
      ensures p.ServoD10? ==> ocr1b == Clamp(pwm) && ocr1a == old(ocr1a) && width == old(width) && bitmap == old(bitmap)
      ensures p.ServoSoft? ==>
        && width == old(width)[SoftIndex(p) := Truncate(pwm)]
        && bitmap == old(bitmap)[SoftIndex(p) := true]
        && ocr1a == old(ocr1a) && ocr1b == old(ocr1b)
    {
      SetServoPwm(p, pwm);
      if p.ServoSoft? {
        bitmap := bitmap[p.n - 2 := true];
        width := width[p.n - 2 := pwm % 0x100];
      }
    }

    /** TIMER0 overflow interrupt. */
    method TimerTick()
      requires Valid()
      modifies this
      ensures Valid() && Abs() == Tick(old(Abs()))
      ensures ocr1a == old(ocr1a) && ocr1b == old(ocr1b)
    {
      cnt1 := (cnt1 + 1) % 0x100;
      cnt2 := (cnt2 + 1) % 0x100;
      var ps := port;
      if state == SetPin {
        if cnt1 == C_20_MS {
          var i := 0;
          while i < 6
            invariant 0 <= i <= 6 && |ps| == 6
            invariant forall j :: 0 <= j < 6 ==> ps[j] == (port[j] || (j < i && bitmap[j]))
          {
            if bitmap[i] {
              ps := ps[i := true];
            }
            i := i + 1;
          }
          port := ps;
          state := ClrPin;
          cnt1 := 0;
          cnt2 := 0;
        }
      } else {
        var i := 0;
        while i < 6
          invariant 0 <= i <= 6 && |ps| == 6
          invariant forall j :: 0 <= j < 6 ==>
            ps[j] == (port[j] && !(j < i && cnt2 == width[j] && bitmap[j]))
        {
          if cnt2 == width[i] && bitmap[i] {
            ps := ps[i := false];
          }
          i := i + 1;
        }
        port := ps;
        if cnt1 > C_10_MS {
          state := SetPin;
        }
      }
    }
  }
}
