/**
 * Host pin designators (framework/src/pin.h, framework/src/pin.cpp): the
 * `E_PIN` enumeration, the pin groups the io entities accept, and the
 * number each designator puts on the wire. Analog and digital designators
 * share the numbers 2..5, so the wire number alone does not say which pin
 * was meant: the firmware reads it in the frame's class.
 */
module HostPin {
  import opened Bytes
  import ParserSpec

  /** `E_PIN`: the analog inputs A0..A5 and the digital pins D2..D13. */
  datatype Pin =
    | A0 | A1 | A2 | A3 | A4 | A5
    | D2 | D3 | D4 | D5 | D6 | D7 | D8 | D9 | D10 | D11 | D12 | D13

  /** The enumerator's value: A0..A5 are 0..5, D2..D13 are 6..17. */
  function Ordinal(p: Pin): nat
  {
    match p
    case A0 => 0 case A1 => 1 case A2 => 2 case A3 => 3 case A4 => 4 case A5 => 5
    case D2 => 6 case D3 => 7 case D4 => 8 case D5 => 9 case D6 => 10 case D7 => 11
    case D8 => 12 case D9 => 13 case D10 => 14 case D11 => 15 case D12 => 16 case D13 => 17
  }

  predicate IsAnalog(p: Pin)
  {
    p.A0? || p.A1? || p.A2? || p.A3? || p.A4? || p.A5?
  }

  /** `CNT_PIN_1`, `CNT_PIN_2`: the pins with an external interrupt. */
  predicate IsCounterPin(p: Pin)
  {
    p == D2 || p == D3
  }

  /** `SW_SERVO_PIN_1..6`: servos driven by the firmware's software PWM. */
  predicate IsSoftServoPin(p: Pin)
  {
    p == D2 || p == D3 || p == D4 || p == D5 || p == D6 || p == D7
  }

  /** The software servo pins and `HW_SERVO_PIN_1`, `HW_SERVO_PIN_2`. */
  predicate IsServoPin(p: Pin)
  {
    IsSoftServoPin(p) || p == D9 || p == D10
  }

  /** `I2C_SDA_PIN`, `I2C_SCL_PIN`. */
  const I2C_PINS: seq<Pin> := [A4, A5]

  /**
   * `getPinNumber`: the number sent on the wire. An analog pin keeps its
   * enumerator value; a digital pin Dk sends k, four less than its value.
   */
  function PinNumber(p: Pin): (n: byte)
    ensures IsAnalog(p) ==> n == Ordinal(p)
    ensures !IsAnalog(p) ==> n == Ordinal(p) - 4
    ensures n <= 13
  {
    match p
    case A0 => 0 case A1 => 1 case A2 => 2 case A3 => 3 case A4 => 4 case A5 => 5
    case D2 => 2 case D3 => 3 case D4 => 4 case D5 => 5 case D6 => 6 case D7 => 7
    case D8 => 8 case D9 => 9 case D10 => 10 case D11 => 11 case D12 => 12 case D13 => 13
  }

  /** The digital pin a wire number 2..13 names. */
  function Digital(n: byte): (p: Pin)
    requires 2 <= n <= 13
    ensures !IsAnalog(p) && PinNumber(p) == n
  {
    match n
    case 2 => D2 case 3 => D3 case 4 => D4 case 5 => D5 case 6 => D6 case 7 => D7
    case 8 => D8 case 9 => D9 case 10 => D10 case 11 => D11 case 12 => D12
    case _ => D13
  }

  /**
   * Within one class the wire number identifies the pin; across classes
   * two designators share a number exactly when they are Ak and Dk for
   * some k in 2..5.
   */
  lemma NumberShared(p: Pin, q: Pin)
    ensures IsAnalog(p) == IsAnalog(q) ==> (PinNumber(p) == PinNumber(q) <==> p == q)
    ensures IsAnalog(p) && !IsAnalog(q) ==> (PinNumber(p) == PinNumber(q) <==> Ordinal(q) == Ordinal(p) + 4 && 2 <= Ordinal(p))
  {
  }

  /** A digital designator's number is one the firmware serves as a GPIO; an analog one is only when it is A2..A5, and it then drives D2..D5. */
  lemma GpioNumberServed(p: Pin)
    ensures !IsAnalog(p) ==> ParserSpec.GpioPinOk(PinNumber(p)) && Digital(PinNumber(p)) == p
    ensures IsAnalog(p) ==> (ParserSpec.GpioPinOk(PinNumber(p)) <==> 2 <= Ordinal(p))
  {
  }

  /** Among digital designators, the firmware takes a servo number exactly for the servo pins. */
  lemma ServoNumberServed(p: Pin)
    requires !IsAnalog(p)
    ensures ParserSpec.ServoPinOk(PinNumber(p)) <==> IsServoPin(p)
  {
  }

  /** The counter pins send 2 and 3, the numbers the firmware counts on. */
  lemma CounterNumberServed(p: Pin)
    requires !IsAnalog(p)
    ensures PinNumber(p) == 2 || PinNumber(p) == 3 <==> IsCounterPin(p)
  {
  }
}
