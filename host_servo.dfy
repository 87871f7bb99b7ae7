/**
 * The host's servo entity (framework/src/servo.cpp). Pulse widths are in
 * microseconds; for the six software-PWM pins the firmware counts in steps
 * of 100 us, so the host divides by 100 before sending and multiplies by
 * 100 when reporting.
 */
module HostServo {
  import opened Bytes
  import opened Tags
  import opened HostLink
  import opened HostPin
  import ParserSpec

  /** `minPulseWidth`, `maxPulseWidth`. */
  const MIN_PULSE: nat := 1000
  const MAX_PULSE: nat := 2000

  /** The range check of `setPwm`: widths outside 1000..2000 us are pulled to the nearer bound. */
  function ClampWidth(w: uint32): (r: uint32)
    ensures MIN_PULSE <= r <= MAX_PULSE
    ensures MIN_PULSE <= w <= MAX_PULSE ==> r == w
    ensures w > MAX_PULSE ==> r == MAX_PULSE
    ensures w < MIN_PULSE ==> r == MIN_PULSE
  {
    if w > MAX_PULSE then MAX_PULSE else if w < MIN_PULSE then MIN_PULSE else w
  }

  /** The width in the firmware's unit: hundreds of microseconds on a software-PWM pin, microseconds otherwise. */
  function WireWidth(p: Pin, w: uint32): uint32
  {
    if IsSoftServoPin(p) then w / 100 else w
  }

  /** The width `getPwm` reports for a stored width: scaled back to microseconds on a software-PWM pin. */
  function Reported(p: Pin, w: uint32): nat
  {
    if IsSoftServoPin(p) then w * 100 else w
  }

  /** The request arguments: pin number, then the width's low byte `w & 0xFF` and high byte `(w >> 8) & 0xFF`. */
  function WidthArgs(p: Pin, w: uint32): seq<byte>
  {
    [PinNumber(p), w % 0x100, (w / 0x100) % 0x100]
  }

  /** The firmware reads the two width bytes back to the width the host meant, for every width below 2^16. */
  lemma WidthRoundTrip(p: Pin, w: uint32)
    requires w < 0x1_0000
    ensures var a := WidthArgs(p, w); ParserSpec.Pwm(a[1], a[2]) == w
  {
  }

  /**
   * After a width is set, `getPwm` reports it exactly on a hardware pin and
   * rounded down to a multiple of 100 us on a software pin: never more than
   * asked, less by at most 99 us, and always within 1000..2000 us.
   */
  lemma SetThenReport(p: Pin, w: uint32)
    requires IsServoPin(p)
    ensures var c := ClampWidth(w); var r := Reported(p, WireWidth(p, c));
      && (!IsSoftServoPin(p) ==> r == c)
      && (IsSoftServoPin(p) ==> r <= c < r + 100 && r % 100 == 0)
      && MIN_PULSE <= r <= MAX_PULSE
  {
  }

  /**
   * `config` divides the stored width of a software-PWM servo by 100 every
   * time it runs: a second `config` sends a width of 0.
   */
  lemma ConfigTwice(p: Pin, w: uint32)
    requires IsSoftServoPin(p) && MIN_PULSE <= w <= MAX_PULSE
    ensures 10 <= WireWidth(p, w) <= 20
    ensures WireWidth(p, WireWidth(p, w)) == 0
  {
  }

  /** A servo on one pin: `m_pulseWidth_us` and the configured flag. */
  class Servo {
    const serial: Serial
    const pin: Pin
    var width: uint32
    var configured: bool

    /** The stored width never exceeds 2000 us: it starts in range and is only divided or replaced by a clamped width. */
    ghost predicate Valid()
      reads this
    {
      IsServoPin(pin) && width <= MAX_PULSE
    }

    /** The constructor's assertions: a width of 1000..2000 us on a servo pin. */
    constructor (serial: Serial, p: Pin, w: uint32)
      requires MIN_PULSE <= w <= MAX_PULSE && IsServoPin(p)
      ensures Valid()
      ensures this.serial == serial && pin == p && width == w && !configured
    {
      this.serial := serial;
      pin := p;
      width := w;
      configured := false;
    }

    /**
     * `config`: converts the stored width to the firmware's unit (this
     * happens before the request is sent and stays even when it fails) and
     * asks the board to start the servo with it.
     */
    method Config() returns (ok: bool)
      requires Valid()
      modifies this, serial
      ensures Valid()
      ensures width == WireWidth(pin, old(width))
      ensures serial.written == old(serial.written) + Frame(CT_SERVO, DT_SERVO_CONFIG, WidthArgs(pin, width))
      ensures serial.pos == old(serial.pos) + 4
      ensures ok == Accepted(old(serial.Upcoming(4)), CT_SERVO, DT_SERVO_CONFIG)
      ensures configured == (old(configured) || ok)
    {
      if IsSoftServoPin(pin) {
        width := width / 100;
      }
      var reply;
      reply, ok := Transact(serial, Frame(CT_SERVO, DT_SERVO_CONFIG, WidthArgs(pin, width)), 4, CT_SERVO, DT_SERVO_CONFIG);
      if ok {
        configured := true;
      }
    }

    /**
     * `setPwm`: clamps the width to 1000..2000 us, converts it to the
     * firmware's unit and sends it; the stored width changes only when the
     * board accepts. An unconfigured servo sends nothing.
     */
    method SetPwm(w: uint32) returns (ok: bool)
      requires Valid()
      modifies this, serial
      ensures Valid() && configured == old(configured)
      ensures var wire := WireWidth(pin, ClampWidth(w));
        && (configured ==> serial.written == old(serial.written) + Frame(CT_SERVO, DT_SERVO_SET, WidthArgs(pin, wire)))
        && (configured ==> serial.pos == old(serial.pos) + 4)
        && (!configured ==> serial.written == old(serial.written) && serial.pos == old(serial.pos))
        && ok == (configured && Accepted(old(serial.Upcoming(4)), CT_SERVO, DT_SERVO_SET))
        && width == if ok then wire else old(width)
    {
      if !configured {
        return false;
      }
      var tmp := ClampWidth(w);
      if IsSoftServoPin(pin) {
        tmp := tmp / 100;
      }
      var reply;
      reply, ok := Transact(serial, Frame(CT_SERVO, DT_SERVO_SET, WidthArgs(pin, tmp)), 4, CT_SERVO, DT_SERVO_SET);
      if ok {
        width := tmp;
      }
    }

    /** `getPwm`: the stored width in microseconds. */
    function GetPwm(): (w: nat)
      reads this
      ensures IsSoftServoPin(pin) ==> w == width * 100
      ensures !IsSoftServoPin(pin) ==> w == width
    {
      Reported(pin, width)
    }
  }
}
