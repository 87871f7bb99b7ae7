# arduinoio: a verified model of the serial command protocol

arduinoio lets a PC drive an AVR board over a serial line. The host library
(C++, `framework/`) sends short command frames, and the firmware (C,
`firmware/`) answers each frame with exactly one reply frame. Every frame has
the same layout: a class tag, a data tag, the arguments, and a one-byte
checksum, which is the sum modulo 256 of all preceding bytes.

This project models both ends in Dafny and proves that they fit together.

**Firmware**
- `ParserSpec` is the protocol engine of `firmware/src/parser.c` as a pure
  state machine.
  - `Next` consumes one byte and returns the new state, the reply bytes and
    the driver calls.
  - `Run` folds `Next` over an input, as the main loop feeds bytes to
    `parse`.
  - The drivers' results are oracles: a value of type `Env` per byte.
- `FirmwareParser.Parser` is the same engine written as the C code is.
  - It is a class holding the state variables and the function-static
    accumulators, with the eight-byte `data_arr` as an `array`.
  - Replies are assembled in buffers and checksummed by loops.
  - Each method is proved to do exactly what `ParserSpec` says.
- `ParserProps` holds properties of every byte:
  - class-tag dispatch;
  - unknown data tags;
  - sub-states reset;
  - silence until the checksum byte, then exactly one well-formed reply;
  - the I2C read length hazard;
  - the halt after a reset.
- `ParserFrames` holds the behaviour of every complete request frame.
- The driver bookkeeping is modelled in five modules:
  - `Gpio`: edge flags, read-and-clear, the output filter;
  - `Counter`: 8-bit edge counters and sense bits;
  - `ServoDriver`: clamping, truncation and the TIMER0 soft-PWM state
    machine;
  - `Analog`: pin and MUX mapping;
  - `Uart`: the two 256-slot ring buffers with `uint8_t` counts.

**Host**
- `HostPin`: pin designators and their wire numbers.
- `Tags`: the checksum check and frame layout.
- `HostLink`: the shared serial line, modelled as the bytes written plus the
  stream of bytes the board sends, and the three-part reply check.
- One class per io entity: `HostI2c`, `HostServo`, `HostGpioIn`,
  `HostGpioOut`, `HostCounter`, `HostAnalog`, and `HostIoBoard`.

**Round trips**
- `RoundTrip` connects the two ends. For every request a host entity
  builds, it proves:
  - the firmware's reply length;
  - that the host accepts the reply exactly when the firmware validated
    the request;
  - that the host decodes the value the driver produced;
  - which driver call the firmware made.

Where a natural reading of the protocol and the code differ, the model
follows the code:
- `tx_cnt`/`rx_cnt` are `uint8_t`, so the guard `cnt < BUF_SIZE` always
  holds. The 256th unread byte wraps the count to 0 instead of being
  dropped (`Uart.PushWrapsAtFull`, `Uart.Saturation`).
- The firmware does not bound an I2C write's length against the eight-byte
  `data_arr`. Stores beyond index 7 are undefined behaviour in C; the model
  records them as an `overrun` flag and keeps them in a memory image shared
  with no other variable (`ParserFrames.I2cWriteFrame`).
- A length of 0 stores 256 bytes before the count wraps back to 0.
- The I2C read reply checksum loop has a `uint8_t` index bounded by
  `length+3`, so it never ends for a length of 253 or more. A length of
  exactly 252 sends zero bytes (`ParserProps.I2cReadReplyLength`).
- Servo pulse widths travel low byte first. All other 16-bit values travel
  high byte first.
- The firmware's GPIO commands accept pin numbers 2..13. The host sends 2..5
  for A2..A5 too, so a GPIO entity on A2 drives D2 (`HostPin.NumberShared`,
  `HostPin.GpioNumberServed`).
- `servo::config` divides the stored width by 100 on every call, before the
  request and regardless of the reply (`HostServo.ConfigTwice`).
- No `create*` method ever adds to `m_pinVect`, so the same pin can be
  claimed twice (`HostIoBoard.CreateTwice`).
- `getId` copies two bytes into an `unsigned int`. The upper bytes keep
  their old value (`HostIoBoard.WithLowHalf`).
- A counter configuration byte with none of bits 0x01, 0x02, 0x04 passes an
  uninitialised option. The model takes that value from the oracle
  (`Env.garbageOption`).
- The driver `i2c_read`/`i2c_write` reports failure for length 0
  (`firmware/i2c.c`), so a zero-length I2C request is answered NOK even when
  its checksum is right.

## Model

| member | source | states |
|---|---|---|
| Tags.IsChecksumOk | framework/src/tags.cpp:23-34 | the loop's verdict is true exactly when the last of the first `length` bytes equals the 8-bit sum of the bytes before it |
| Tags.ChecksumAppended | framework/src/tags.cpp:26-33 | any byte string followed by its 8-bit sum passes the check |
| Tags.CorruptionDetected | framework/src/tags.cpp:26-33 | changing any single byte of a passing message by an amount that is not a multiple of 256 makes the check fail |
| Tags.Frame | firmware/src/parser.c:558-564 | a reply frame carries the class and data tags, then the body, and always passes the checksum check; its length is the body's plus three |
| Tags.SealFrame | framework/src/i2cBridge.cpp:148-151 | the summing loop writes into slot `n` the 8-bit sum of the `n` bytes before it and changes no other slot |
| FirmwareParser.Sum8 | firmware/src/parser.c:593-597 | the byte-by-byte `uint8_t` accumulation equals the sum of the bytes modulo 256 |
| FirmwareParser.MakeReply | firmware/src/parser.c:558-564 | a reply built in a buffer with its checksum loop is exactly the well-formed frame for its tags and body |
| FirmwareParser.Parser.constructor | firmware/src/parser.c:484-491 | the parser starts in the class-tag state with every sub-parser at its data-tag state, zeroed accumulators, nothing sent and no driver called |
| FirmwareParser.Parser.Parse | firmware/src/parser.c:51-103 | one `parse(data)` call changes the fields exactly as `ParserSpec.Next` says, appends its reply bytes to what was sent and its driver calls to the log |
| FirmwareParser.Parser.ParseMisc | firmware/src/parser.c:132-210 | `parse_misc` follows `ParserSpec.NextMisc` on state, sent bytes and driver calls |
| FirmwareParser.Parser.AnswerMiscReset | firmware/src/parser.c:150-166 | the reset step replies and, on a good checksum, halts for good (the watchdog spin) |
| FirmwareParser.Parser.MiscResetReply | firmware/src/parser.c:150-160 | the reset reply built in the buffer is the specification's, and it is accepted exactly when the parser then halts |
| FirmwareParser.Parser.AnswerMiscId | firmware/src/parser.c:169-186 | the id step follows the specification |
| FirmwareParser.Parser.MiscIdReply | firmware/src/parser.c:169-186 | the id reply and the `getId` call are the specification's |
| FirmwareParser.Parser.AnswerMiscTemp | firmware/src/parser.c:189-205 | the temperature step follows the specification |
| FirmwareParser.Parser.MiscTempReply | firmware/src/parser.c:189-205 | the temperature reply and the sensor call are the specification's |
| FirmwareParser.Parser.ParseGpio | firmware/src/parser.c:246-353 | `parse_gpio` follows `ParserSpec.NextGpio` |
| FirmwareParser.Parser.AnswerGpioConfig | firmware/src/parser.c:277-297 | the GPIO config terminal step follows the specification |
| FirmwareParser.Parser.GpioConfigReply | firmware/src/parser.c:277-297 | the config reply and the `configGpio` call with the decoded option bits are the specification's |
| FirmwareParser.Parser.AnswerGpioRead | firmware/src/parser.c:305-321 | the GPIO read terminal step follows the specification |
| FirmwareParser.Parser.GpioReadReply | firmware/src/parser.c:305-321 | the read reply packs value, rise and fall as the specification says |
| FirmwareParser.Parser.AnswerGpioWrite | firmware/src/parser.c:334-348 | the GPIO write terminal step follows the specification |
| FirmwareParser.Parser.GpioWriteReply | firmware/src/parser.c:334-348 | the write reply and `writeGpio` call are the specification's |
| FirmwareParser.Parser.ParseAnalog | firmware/src/parser.c:377-449 | `parse_analog` follows `ParserSpec.NextAnalog` |
| FirmwareParser.Parser.AnswerAnalogRead | firmware/src/parser.c:397-413 | the analog read terminal step follows the specification |
| FirmwareParser.Parser.AnalogReadReply | firmware/src/parser.c:397-413 | the reading is sent high byte first after the status |
| FirmwareParser.Parser.AnswerAnalogReadAll | firmware/src/parser.c:416-444 | the read-all terminal step follows the specification |
| FirmwareParser.Parser.AnalogReadAllReply | firmware/src/parser.c:416-444 | the loop over the six channels builds the 16-byte reply and calls `readAdc` for A0..A5 in order |
| FirmwareParser.Parser.ParseI2c | firmware/src/parser.c:484-615 | `parse_i2c` follows `ParserSpec.NextI2c`, including stores into `data_arr` |
| FirmwareParser.Parser.StorePayload | firmware/src/parser.c:586-590 | a payload byte goes to `data_arr[data_cnt]` (recorded as an overrun past index 7), the 8-bit count advances and nothing is sent |
| FirmwareParser.Parser.AnswerI2cConfig | firmware/src/parser.c:513-528 | the I2C config terminal step follows the specification |
| FirmwareParser.Parser.I2cConfigReply | firmware/src/parser.c:513-528 | the config reply and call are the specification's |
| FirmwareParser.Parser.AnswerI2cRead | firmware/src/parser.c:546-567 | the I2C read terminal step follows the specification, including the hang for long reads |
| FirmwareParser.Parser.I2cReadReply | firmware/src/parser.c:546-564 | the read reply, its checksum summed over the first `length+3` bytes and cut to `(length+4) mod 256` bytes, equals the specification's; for length ≥ 253, where the source's 8-bit loop index never stops, nothing is built (the parser halts instead); the 8-bit index itself is not modelled |
| FirmwareParser.Parser.AnswerI2cWrite | firmware/src/parser.c:592-610 | the I2C write terminal step follows the specification |
| FirmwareParser.Parser.I2cWriteReply | firmware/src/parser.c:592-610 | the write reply and `i2c_write` call are the specification's |
| FirmwareParser.Parser.SumData | firmware/src/parser.c:593-597 | the checksum over header and the first `length` stored bytes equals the specification's |
| FirmwareParser.Parser.ParseServo | firmware/src/parser.c:644-776 | `parse_servo` follows `ParserSpec.NextServo` |
| FirmwareParser.Parser.AnswerServoConfig | firmware/src/parser.c:677-715 | the servo config terminal step follows the specification |
| FirmwareParser.Parser.ServoConfigReply | firmware/src/parser.c:677-715 | the reply and `configServo` call with width high·256+low are the specification's |
| FirmwareParser.Parser.AnswerServoSet | firmware/src/parser.c:733-771 | the servo set terminal step follows the specification |
| FirmwareParser.Parser.ServoSetReply | firmware/src/parser.c:733-771 | the reply and `setServoPwm` call are the specification's |
| FirmwareParser.Parser.ParseCounter | firmware/src/parser.c:802-885 | `parse_counter` follows `ParserSpec.NextCounter` |
| FirmwareParser.Parser.AnswerCounterConfig | firmware/src/parser.c:829-852 | the counter config terminal step follows the specification |
| FirmwareParser.Parser.CounterConfigReply | firmware/src/parser.c:829-852 | the reply and `configCounter` call with the decoded option are the specification's |
| FirmwareParser.Parser.AnswerCounterRead | firmware/src/parser.c:860-879 | the counter read terminal step follows the specification |
| FirmwareParser.Parser.CounterReadReply | firmware/src/parser.c:860-879 | the reply carries the count read by `readCounter` |
| ParserSpec.Initial | firmware/src/parser.c:45 | the power-up state is idle, well formed, not halted and without overrun |
| ParserSpec.Next | firmware/src/parser.c:51-103 | the per-byte semantics keep the state well formed (its properties are the `ParserProps` lemmas) |
| ParserSpec.Run | firmware/src/main.c:31-35 | feeding bytes in arrival order keeps the state well formed |
| ParserSpec.NextMisc | firmware/src/parser.c:132-210 | the misc sub-machine keeps the state well formed |
| ParserSpec.NextGpio | firmware/src/parser.c:246-353 | the GPIO sub-machine keeps the state well formed |
| ParserSpec.NextAnalog | firmware/src/parser.c:377-449 | the analog sub-machine keeps the state well formed |
| ParserSpec.NextI2c | firmware/src/parser.c:484-615 | the I2C sub-machine keeps the 256-byte memory image intact |
| ParserSpec.NextServo | firmware/src/parser.c:644-776 | the servo sub-machine keeps the state well formed |
| ParserSpec.NextCounter | firmware/src/parser.c:802-885 | the counter sub-machine keeps the state well formed |
| ParserSpec.ReadAllBody | firmware/src/parser.c:416-444 | the read-all body is 13 bytes led by the status |
| ParserSpec.I2cReadBody | firmware/src/parser.c:546-564 | the read body is `length+1` bytes led by the status |
| ParserSpec.ServoPinOf | firmware/src/parser.c:680-705 | every accepted servo number names a valid servo output |
| ParserProps.RunAppend | firmware/src/main.c:31-35 | running two inputs one after the other gives the concatenated replies and calls of running their concatenation |
| ParserProps.ClassTagDispatch | firmware/src/parser.c:55-74 | in the class-tag state bytes 1..6 select the matching sub-parser and change nothing else; any other byte is dropped and the state stays; nothing is sent |
| ParserProps.UnknownDataTag | firmware/src/parser.c:136-147 | at a data-tag state, a byte that is not a known data tag leaves the state unchanged (both directions), so the parser stays in the subsystem; nothing is sent |
| ParserProps.NextConsistent | firmware/src/parser.c:51-103 | every sub-parser other than the active one stays at its data-tag state |
| ParserProps.NonTerminalSilent | firmware/src/parser.c:51-103 | a byte that is not a frame's checksum byte never sends anything and calls no driver |
| ParserProps.TerminalReplies | firmware/src/parser.c:292-296 | a frame's last byte sends one reply that echoes the frame's tags and passes the checksum, and returns to the class-tag state; the parser halts exactly after an accepted reset |
| ParserProps.I2cReadTerminal | firmware/src/parser.c:546-567 | an I2C read of fewer than 252 bytes is answered by a well-formed frame and the parser returns to idle |
| ParserProps.I2cReadReplyLength | firmware/src/parser.c:561-564 | an I2C read of length ≥ 253 never answers and hangs; length 252 sends nothing; shorter reads send `length+4` bytes |
| ParserProps.HaltedStays | firmware/src/parser.c:163-165 | once halted, no input changes the state, sends a byte or calls a driver |
| ParserFrames.MiscResetFrame | firmware/src/parser.c:150-166 | a reset frame is answered OK and halts exactly when its checksum is right, NOK otherwise |
| ParserFrames.MiscIdFrame | firmware/src/parser.c:169-186 | an id frame returns board id 0x0002 high byte first on a good checksum, NOK with zeros otherwise |
| ParserFrames.MiscTempFrame | firmware/src/parser.c:189-205 | a temperature frame returns the sensor reading on a good checksum |
| ParserFrames.GpioConfigFrame | firmware/src/parser.c:267-297 | OK and a `configGpio` call with direction bit 0, value bit 1, pull-up bit 2 exactly when checksum right and pin 2..13 |
| ParserFrames.GpioReadFrame | firmware/src/parser.c:300-321 | OK with packed value/rise/fall and a `readGpio` call exactly when checksum right and pin 2..13 |
| ParserFrames.GpioWriteFrame | firmware/src/parser.c:324-348 | OK and a `writeGpio` call exactly when checksum right and pin 2..13 |
| ParserFrames.AnalogReadFrame | firmware/src/parser.c:392-413 | OK with the reading high byte first exactly when checksum right and pin ≤ 5 |
| ParserFrames.AnalogReadAllFrame | firmware/src/parser.c:416-444 | the 16-byte reply carries all six readings and `readAdc` is called for A0..A5 on a good checksum |
| ParserFrames.I2cConfigFrame | firmware/src/parser.c:508-528 | OK and a bus configuration exactly when checksum right and speed byte 0 or 1 |
| ParserFrames.I2cReadFrame | firmware/src/parser.c:531-567 | a read frame calls `i2c_read` on a good checksum and replies OK only when the read succeeded and the length is not 0 |
| ParserFrames.I2cReadLast | firmware/src/parser.c:546-567 | the checksum byte of a read frame produces the reply and call above and returns to idle |
| ParserFrames.Payload | firmware/src/parser.c:586-590 | the payload bytes of a write frame are stored one after the other, silently, until the 8-bit count reaches `length` |
| ParserFrames.WriteHeader | firmware/src/parser.c:570-584 | the write header records address, offset and length and zeroes the count |
| ParserFrames.I2cWriteFrame | firmware/src/parser.c:570-610 | a write frame is accepted exactly when the checksum covers header plus the first `length` payload bytes and the driver succeeds; payload beyond eight bytes (or length 0) sets the overrun flag, and for those lengths the reply and calls hold only for the memory layout the model assumes (see Left out) |
| ParserFrames.I2cWriteLast | firmware/src/parser.c:592-610 | the checksum byte of a write frame sums the stored bytes and calls `i2c_write` on a match |
| ParserFrames.ServoConfigFrame | firmware/src/parser.c:662-715 | OK and `configServo` with width high·256+low exactly when checksum right and pin in {2..7, 9, 10} |
| ParserFrames.ServoSetFrame | firmware/src/parser.c:718-771 | OK and `setServoPwm` with width high·256+low exactly when checksum right and pin in {2..7, 9, 10} |
| ParserFrames.CounterConfigFrame | firmware/src/parser.c:819-852 | OK and `configCounter` exactly when checksum right and pin 2 or 3 |
| ParserFrames.CounterReadFrame | firmware/src/parser.c:855-879 | OK with the count and a `readCounter` call exactly when checksum right and pin 2 or 3 |
| Uart.Push | firmware/src/uart.c:41-46 | a store writes the byte into the write slot only, advances the write pointer and the 8-bit count modulo 256, and keeps the read pointer; the guard `cnt < BUF_SIZE` never fails |
| Uart.Pop | firmware/src/uart.c:69-73 | a removal yields a byte exactly when the count is non-zero; it is the byte at the read pointer, which advances modulo 256 as the count drops by one; an empty ring is left unchanged |
| Uart.PushValid | firmware/src/uart.c:41-46 | a push keeps write pointer = read pointer + count (mod 256) |
| Uart.PopValid | firmware/src/uart.c:69-73 | a pop keeps the same pointer invariant |
| Uart.WritePointer | firmware/src/uart.c:16-20 | in every valid ring the write pointer is read pointer plus count modulo 256 |
| Uart.PushAppends | firmware/src/uart.c:41-46 | below 255 stored bytes a push appends the byte to the buffer's contents |
| Uart.PushWrapsAtFull | firmware/src/uart.c:41-46 | a push onto 255 stored bytes wraps the count to 0, so the buffer appears empty |
| Uart.PopTakesOldest | firmware/src/uart.c:69-73 | a pop returns the oldest byte and removes it; on an empty ring it changes nothing |
| Uart.PushAllCount | firmware/src/uart.c:56-60 | pushing a sequence adds its length to the count modulo 256 |
| Uart.PushAllAppends | firmware/src/uart.c:56-60 | while fewer than 256 bytes are stored, pushing a sequence appends it in order |
| Uart.Saturation | firmware/src/uart.c:14-20 | 256 pushes onto an empty ring leave it looking empty |
| Uart.Uart.constructor | firmware/src/uart.c:16-20 | both rings start empty and the data-register interrupt disabled |
| Uart.Uart.SendByte | firmware/src/uart.c:38-49 | the byte is pushed onto the transmit ring and the data-register interrupt enabled; the receive ring is untouched |
| Uart.Uart.SendByteArray | firmware/src/uart.c:56-60 | the first `size` bytes are pushed in index order |
| Uart.Uart.ReadByte | firmware/src/uart.c:66-76 | the oldest received byte is returned and removed; with nothing received `data` keeps its value |
| Uart.Uart.UartDataAvailable | firmware/src/uart.c:82-90 | returns the number of unread bytes and changes nothing |
| Uart.Uart.RxIsr | firmware/src/uart.c:95-101 | the received byte is pushed onto the receive ring |
| Uart.Uart.UdreIsr | firmware/src/uart.c:106-113 | one byte leaves the transmit ring, and the interrupt disables itself exactly when the count reaches 0 |
| Gpio.ConvertNumberToGpio | firmware/src/gpio.c:395-412 | 2..13 map to D2..D13, everything else to D_ERR |
| Gpio.EdgeRule | firmware/src/gpio.c:419-426 | the stored value follows the sample; rise is set on 0→1, fall on 1→0; an unchanged sample changes nothing |
| Gpio.EdgeFlagsSticky | firmware/src/gpio.c:421-424 | edge steps never clear rise or fall |
| Gpio.EdgeAllRise | firmware/src/gpio.c:417-472 | after a run of samples, rise is set exactly when it was set before or some sample was high while the previous value was low |
| Gpio.EdgeAllFall | firmware/src/gpio.c:417-472 | after a run of samples, fall is set exactly when it was set before or some sample was low while the previous value was high |
| Gpio.GpioDriver.constructor | firmware/src/gpio.c:23-38 | all pin records start zero, no pin enabled, all outputs low |
| Gpio.GpioDriver.ReadGpio | firmware/src/gpio.c:231-314 | returns the pin's value, rise and fall and clears only its flags; D_ERR changes nothing and leaves the outputs as they were |
| Gpio.GpioDriver.WriteGpio | firmware/src/gpio.c:321-388 | value 0 drives low, 1 drives high, anything else (or D_ERR) leaves the port unchanged |
| Gpio.GpioDriver.PinChangeIsr | firmware/src/gpio.c:417-472 | the ISR applies the edge rule to each enabled pin of its port and nothing else |
| Gpio.GpioDriver.PcInt0Isr | firmware/src/gpio.c:417-472 | PCINT0 updates D8..D13 by the edge rule |
| Gpio.GpioDriver.PcInt2Isr | firmware/src/gpio.c:477-533 | PCINT2 updates D2..D7 by the edge rule |
| Gpio.IsrFrame | firmware/src/gpio.c:417-472 | the ISR changes only enabled pins of its own port, each by the edge rule |
| Gpio.ReadTwice | firmware/src/gpio.c:236-240 | two reads with no edge between return no rise and no fall the second time, and the same value |
| Counter.SenseBits | firmware/src/counter.c:25-44 | the bits for D2 touch only ISC01/ISC00, those for D3 only ISC11/ISC10; an unknown option adds none |
| Counter.SenseOnlyAdds | firmware/src/counter.c:29-40 | configuring one counter never clears a sense bit and leaves the other counter's bits unchanged |
| Counter.Tick | firmware/src/counter.c:71-73 | an edge adds 1 to the count modulo 256 |
| Counter.TicksCount | firmware/src/counter.c:71-80 | `n` edges add `n` modulo 256 |
| Counter.CounterDriver.constructor | firmware/src/counter.c:17-18 | both counts start at 0, and the sense and enable registers at their reset value 0 |
| Counter.CounterDriver.ReadCounter | firmware/src/counter.c:51-66 | returns the selected count, zeroes it and leaves the other count and the registers unchanged |
| Counter.CounterDriver.ConfigCounter | firmware/src/counter.c:25-44 | ORs in the sense bits and the interrupt enable and zeroes the selected count |
| Counter.CounterDriver.Int0Isr | firmware/src/counter.c:71-73 | INT0 increments the D2 count modulo 256 and nothing else |
| Counter.CounterDriver.Int1Isr | firmware/src/counter.c:78-80 | INT1 increments the D3 count modulo 256 and nothing else |
| ServoDriver.Clamp | firmware/src/servo.c:142-152 | a hardware width is pulled into 1000..2000 and kept when inside |
| ServoDriver.Truncate | firmware/src/servo.c:163-185 | a software width keeps its low 8 bits, unclamped |
| ServoDriver.Tick | firmware/src/servo.c:203-241 | a tick keeps the bitmap and widths |
| ServoDriver.TickPins | firmware/src/servo.c:208-238 | SETPIN at count 200 raises every bitmap pin, goes to CLRPIN and zeroes both counters, otherwise only counts; CLRPIN lowers a bitmap pin when the second counter meets its width and returns to SETPIN after count 100; pins outside the bitmap are never driven |
| ServoDriver.Pulse | firmware/src/servo.c:227-238 | from the start of a period a servo pin stays high for exactly its width in ticks (width 0 never lowers it) through tick 101 |
| ServoDriver.Waiting | firmware/src/servo.c:208-226 | after the pulse window no pin changes until the period ends |
| ServoDriver.Period | firmware/src/servo.c:208-226 | 99 ticks after the pulse window every bitmap pin rises and a new period starts |
| ServoDriver.Servos.constructor | firmware/src/servo.c:48-62 | widths start at 15, compares at 1500, the bitmap empty |
| ServoDriver.Servos.SetServoPwm | firmware/src/servo.c:139-191 | D9/D10 get the clamped width, D2..D7 the truncated width; nothing else changes |
| ServoDriver.Servos.ConfigServo | firmware/src/servo.c:69-132 | sets the width as above and adds D2..D7 to the bitmap |
| ServoDriver.Servos.TimerTick | firmware/src/servo.c:203-241 | the ISR body performs one `Tick` of the soft-PWM state |
| Analog.ConvertNumberToAnalog | firmware/src/analog.c:61-71 | 0..5 map to A0..A5, everything else to A_ERR |
| Analog.MuxCode | firmware/src/analog.c:36-44 | A0..A5 select channels 0..5, the sensor channel 8, within the four MUX bits |
| Analog.SelectBits | firmware/src/analog.c:36-44 | selecting a channel sets the MUX bits to its code and keeps every other ADMUX bit |
| Analog.Adc.ReadAdc | firmware/src/analog.c:32-54 | a valid pin selects its channel and returns the conversion; A_ERR clears the MUX bits and returns 7 without converting |
| HostPin.PinNumber | framework/src/pin.cpp:55-120 | A0..A5 send 0..5, Dk sends k; never above 13 |
| HostPin.Digital | framework/src/pin.cpp:76-111 | every wire number 2..13 is sent by exactly one digital designator |
| HostPin.NumberShared | framework/src/pin.cpp:64-87 | within a class the wire number identifies the pin; Ak and Dk share a number exactly for k in 2..5 |
| HostPin.GpioNumberServed | framework/src/pin.cpp:76-111 | every digital pin's number is a GPIO the firmware serves; an analog one only for A2..A5 |
| HostPin.ServoNumberServed | framework/src/pin.cpp:76-102 | the firmware accepts a digital pin's servo number exactly for D2..D7, D9, D10 |
| HostPin.CounterNumberServed | framework/src/pin.cpp:76-83 | the firmware counts on a digital pin's number exactly for D2 and D3 |
| HostLink.Serial.WriteToSerial | framework/src/serial.cpp:47-49 | the whole buffer is appended to what has been written |
| HostLink.Serial.ReadFromSerial | framework/src/serial.cpp:54-60 | returns the next `size` bytes the board sends, in order |
| HostLink.CheckReply | framework/src/i2cBridge.cpp:58-70 | a reply is accepted exactly when its tags match, its checksum passes and its status is not NOK |
| HostLink.FrameAccepted | framework/src/i2cBridge.cpp:58-70 | a well-formed frame is accepted exactly when its tags are the expected ones and its status is not NOK |
| HostLink.Reading | framework/src/ioboard.cpp:230-231 | the two reply bytes swapped into a little-endian integer give high byte and low byte of the value |
| HostLink.Transact | framework/src/i2cBridge.cpp:53-70 | the request goes out whole, `replySize` bytes are consumed, and the verdict is the reply check |
| HostI2c.BaudByte | framework/src/i2cBridge.cpp:46-50 | the speed byte is 1 exactly for 400 kHz, 0 for any other rate |
| HostI2c.ReplyData | framework/src/i2cBridge.cpp:113-116 | the copied data are reply bytes 3..3+length |
| HostI2c.WriteRequest | framework/src/i2cBridge.cpp:138-151 | the loop-built request is the well-formed write frame for address, offset, length and the first `length` data bytes |
| HostI2c.I2cBridge.constructor | framework/src/i2cBridge.cpp:24-29 | the bridge claims SDA and SCL and starts unconfigured |
| HostI2c.I2cBridge.Config | framework/src/i2cBridge.cpp:42-75 | sends the configuration frame and becomes configured only on an accepted reply |
| HostI2c.I2cBridge.Read | framework/src/i2cBridge.cpp:85-119 | unconfigured sends nothing; otherwise sends the read frame, reads `4+length` bytes, and copies the data only when accepted, leaving `data` untouched otherwise |
| HostI2c.I2cBridge.Write | framework/src/i2cBridge.cpp:129-172 | unconfigured or length outside 1..8 sends nothing; otherwise sends the write frame and reports the reply check |
| HostServo.ClampWidth | framework/src/servo.cpp:104-109 | widths are pulled into 1000..2000 µs and kept when inside |
| HostServo.WidthRoundTrip | framework/src/servo.cpp:122-126 | the two width bytes sent low first decode in the firmware to the width meant |
| HostServo.SetThenReport | framework/src/servo.cpp:157-164 | after a set, `getPwm` reports the clamped width exactly on D9/D10 and rounded down to 100 µs on D2..D7, always within 1000..2000 |
| HostServo.ConfigTwice | framework/src/servo.cpp:50-55 | a second `config` on a software pin sends width 0 |
| HostServo.Servo.constructor | framework/src/servo.cpp:25-35 | a servo needs a width of 1000..2000 µs and a servo pin, and starts unconfigured |
| HostServo.Servo.Config | framework/src/servo.cpp:48-91 | divides a software pin's width by 100 whatever the reply, sends it, and becomes configured only on an accepted reply |
| HostServo.Servo.SetPwm | framework/src/servo.cpp:97-151 | unconfigured sends nothing; otherwise sends the clamped, scaled width and stores it only when accepted |
| HostServo.Servo.GetPwm | framework/src/servo.cpp:157-164 | the stored width, multiplied by 100 on the six software-PWM servo pins and returned as stored on the others |
| HostGpioIn.InputOptionsRead | framework/src/gpioInputPin.cpp:99-102 | the firmware reads the option byte as input direction, value 0, pull-up as asked |
| HostGpioIn.DecodePacked | framework/src/gpioInputPin.cpp:75-86 | decoding the firmware's packed byte gives back value, rise and fall |
| HostGpioIn.GpioInputPin.constructor | framework/src/gpioInputPin.cpp:25-30 | the pin starts unconfigured |
| HostGpioIn.GpioInputPin.Config | framework/src/gpioInputPin.cpp:95-129 | sends the input configuration and becomes configured only on an accepted reply |
| HostGpioIn.GpioInputPin.GetPinValue | framework/src/gpioInputPin.cpp:46-89 | unconfigured sends nothing; otherwise outputs the decoded bits only on an accepted reply and keeps the old ones otherwise |
| HostGpioOut.OutputOptionsRead | framework/gpioOutputPin.cpp:65-68 | the firmware reads the option byte as output direction, the initial value, no pull-up |
| HostGpioOut.GpioOutputPin.constructor | framework/gpioOutputPin.cpp:43-48 | the pin starts unconfigured with its initial value |
| HostGpioOut.GpioOutputPin.Config | framework/gpioOutputPin.cpp:61-95 | sends the output configuration and becomes configured only on an accepted reply |
| HostGpioOut.GpioOutputPin.SetPinValue | framework/gpioOutputPin.cpp:102-140 | unconfigured sends nothing; otherwise sends 1 or 0 and stores the value only when accepted |
| HostGpioOut.GpioOutputPin.GetPinValue | framework/src/gpioOutputPin.h:49-51 | returns the stored level: the constructor's initial value, or the last value `SetPinValue` saw accepted |
| HostCounter.OptionsRoundTrip | framework/src/counterPin.cpp:49-55 | every option's byte decodes in the firmware to the same option |
| HostCounter.OptionsDistinct | framework/src/counterPin.cpp:49-55 | distinct options reach the firmware as distinct options |
| HostCounter.CounterPin.constructor | framework/src/counterPin.cpp:23-30 | only D2 and D3 can count; the pin starts unconfigured |
| HostCounter.CounterPin.Config | framework/src/counterPin.cpp:43-83 | sends pin and option byte and becomes configured only on an accepted reply |
| HostCounter.CounterPin.ReadCounter | framework/src/counterPin.cpp:90-125 | unconfigured sends nothing; otherwise outputs reply byte 3 only on an accepted reply |
| HostAnalog.AnalogPin.constructor | framework/src/analogPin.cpp:24-28 | stores the serial link and the pin; the pin starts unconfigured |
| HostAnalog.AnalogPin.Config | framework/src/analogPin.cpp:41-44 | configuration always succeeds and sends nothing |
| HostAnalog.AnalogPin.GetPinVoltage | framework/src/analogPin.cpp:51-89 | unconfigured sends nothing; otherwise outputs the 16-bit reading only on an accepted 6-byte reply |
| HostIoBoard.AllReadings | framework/src/ioboard.cpp:312-352 | the six readings are reply bytes 3..14 taken in high/low pairs |
| HostIoBoard.WithLowHalf | framework/src/ioboard.cpp:230-231 | the two-byte copy sets the low 16 bits of the id and keeps the upper ones |
| HostIoBoard.IoBoard.IsPinInVect | framework/src/ioboard.h:85-87 | true exactly when some entry of the claimed-pin vector equals the pin, as the `std::find` search reports |
| HostIoBoard.IoBoard.constructor | framework/src/ioboard.cpp:45-56 | the board starts with no pins claimed and sends a reset |
| HostIoBoard.IoBoard.Reset | framework/src/ioboard.cpp:168-198 | sends the reset frame and forgets the claimed pins only on an accepted reply |
| HostIoBoard.IoBoard.GetId | framework/src/ioboard.cpp:205-234 | sends the id frame and on an accepted reply replaces only the low half of `id` |
| HostIoBoard.IoBoard.GetTemperature | framework/src/ioboard.cpp:241-278 | sends the temperature frame and outputs the raw reading only on an accepted reply |
| HostIoBoard.IoBoard.GetAllAnalog | framework/src/ioboard.cpp:285-355 | sends the read-all frame and outputs six raw readings only on an accepted 16-byte reply |
| HostIoBoard.IoBoard.CreateAnalogPin | framework/src/ioboard.cpp:65-78 | returns null exactly for a claimed pin, otherwise a configured analog pin; nothing is sent |
| HostIoBoard.IoBoard.CreateServoPin | framework/src/ioboard.cpp:80-94 | returns null for a claimed pin, otherwise a servo configured by one request |
| HostIoBoard.IoBoard.CreateI2cBridge | framework/src/ioboard.cpp:95-110 | returns null when SDA or SCL is claimed, otherwise a bridge configured by one request |
| HostIoBoard.IoBoard.CreateGpioInputPin | framework/src/ioboard.cpp:112-127 | returns null for a claimed pin, otherwise an input pin configured by one request |
| HostIoBoard.IoBoard.CreateGpioOutputPin | framework/src/ioboard.cpp:129-144 | returns null for a claimed pin, otherwise an output pin configured by one request |
| HostIoBoard.IoBoard.CreateCounterPin | framework/src/ioboard.cpp:146-162 | returns null for a claimed pin, otherwise a counter configured by one request |
| HostIoBoard.CreateTwice | framework/src/ioboard.cpp:112-127 | the same pin can be claimed twice: no `create*` method records the pin |
| RoundTrip.ReadAllDecoded | framework/src/ioboard.cpp:312-352 | the host's six decoded readings are the six ADC results the firmware sent |
| RoundTrip.GpioRead | framework/src/gpioInputPin.cpp:46-89 | a host GPIO read is accepted exactly when the firmware serves the pin number, and then decodes the sampled value and flags |
| RoundTrip.GpioInputConfig | framework/src/gpioInputPin.cpp:95-129 | an input configuration is accepted exactly for served pins and configures input with the requested pull-up |
| RoundTrip.GpioOutputConfig | framework/gpioOutputPin.cpp:61-95 | an output configuration is accepted exactly for served pins and configures output with the initial value |
| RoundTrip.GpioWrite | framework/gpioOutputPin.cpp:102-140 | a host write is accepted exactly for served pins and writes the requested level |
| RoundTrip.AnalogRead | framework/src/analogPin.cpp:51-89 | an analog read is accepted exactly for A0..A5 and decodes the ADC result |
| RoundTrip.AnalogReadAll | framework/src/ioboard.cpp:285-355 | the read-all request is always accepted and decodes all six results |
| RoundTrip.MiscReset | framework/src/ioboard.cpp:168-198 | the reset request is accepted and halts the firmware |
| RoundTrip.MiscId | framework/src/ioboard.cpp:205-234 | the id request is accepted and the host reads board id 0x0002 into the low half |
| RoundTrip.MiscTemp | framework/src/ioboard.cpp:241-278 | the temperature request is accepted and the host reads the sensor value |
| RoundTrip.I2cConfig | framework/src/i2cBridge.cpp:42-75 | the bridge configuration is always accepted and selects 400 kHz exactly for that rate |
| RoundTrip.I2cRead | framework/src/i2cBridge.cpp:85-119 | a read of fewer than 252 bytes gets `length+4` bytes, is accepted exactly when the bus read succeeded and the length is not 0, and the host copies the bytes read |
| RoundTrip.I2cWrite | framework/src/i2cBridge.cpp:129-172 | a write the host sends passes the firmware's checksum, never overruns, and is accepted exactly when the bus write succeeds |
| RoundTrip.ServoConfig | framework/src/servo.cpp:48-91 | a servo configuration is accepted exactly for firmware servo pins and configures the width sent |
| RoundTrip.ServoSet | framework/src/servo.cpp:97-151 | a width update is accepted exactly for firmware servo pins and sets the width sent |
| RoundTrip.CounterConfig | framework/src/counterPin.cpp:43-83 | a counter configuration is accepted exactly for D2/D3 and sets the requested edge option |
| RoundTrip.CounterRead | framework/src/counterPin.cpp:90-125 | a counter read is accepted exactly for D2/D3 and the host gets the count read |

## Left out

- Interrupts and the main loop run one step at a time. `cli()`/`sei()` critical sections and `volatile` sharing are not modelled, and each ISR body is one atomic method.
- Register programming is left out: DDR/PORT/PCMSK writes in `configGpio`, `initGpio`/`initUart`/`initAnalog`/`initServo` timer setup, and the ADC busy-wait.
  - `Gpio.GpioDriver` takes the enabled-pin mask as given; the `configGpio` call is recorded by the parser only.
- The TWI driver (`firmware/i2c.c`), the temperature sensor and `readAdc`'s conversion are oracles. Their results come from `Env` per byte.
- The watchdog reset after an accepted reset request is the `halted` flag.
  - The main loop is `ParserSpec.Run`, a fold over the received bytes.
- The host serial port (boost::asio) is the `Serial` class: bytes written, plus a stream of bytes the board sends.
  - `readFromSerial` blocks until bytes arrive. Timeouts, port errors and the ioboard constructor's `sleep` are not modelled.
- HostAnalog.AnalogPin.GetPinVoltage: returns the raw 16-bit reading, not the float voltage (`lsb` scaling), because floating point is out of scope.
- HostIoBoard.IoBoard.GetTemperature: returns the raw reading, not the float temperature, for the same reason.
- HostIoBoard.IoBoard.GetAllAnalog: returns six raw readings, not six floats, for the same reason.
- HostLink.Reading: assumes a little-endian host, as the `memcpy` of two swapped bytes does.
- ParserFrames.I2cReadFrame: stated for lengths below 252 only. `ParserProps.I2cReadReplyLength` covers the longer ones, where the firmware hangs or sends nothing.
- RoundTrip.I2cRead: stated for lengths below 252 only, for the same reason.
- RoundTrip.ServoConfig: stated for widths below 2^16. The host sends only the two low bytes of its `unsigned int`.
- RoundTrip.ServoSet: stated for widths below 2^16, for the same reason.
- ParserFrames.I2cWriteFrame: for lengths 0 and 9..255 the firmware stores past the end of `data_arr`, which is undefined behaviour in C; the stores may land on `data_cnt`, `length` or `offset` themselves. The model assumes that memory belongs to no other variable, so the lemma's `reply` and `calls` conjuncts for those lengths describe that assumed layout, not a guaranteed behaviour; its `overrun` conjunct is the part that holds for every layout, and it marks exactly the runs with undefined behaviour.
- ParserSpec.NextI2c: stores past `data_arr` go to the unaliased memory image `mem`, under the same assumption.
- FirmwareParser.Parser.StorePayload: the same assumption, in the imperative parser.
- The stack bytes that a NOK I2C read reply sums and sends uninitialised are not computed. They are the oracle `Env.i2cData`.
- The host entities' error printing to `std::cerr` is left out, because it has no effect on results.
- HostServo.Servo.constructor, HostCounter.CounterPin.constructor: the C++ constructors `assert` the pin (and the servo width), aborting the program otherwise; the model states those asserts as `requires`, so the abort path is a precondition of the call, and `IoBoard.CreateServoPin`/`CreateCounterPin` meet it as the source reaches the asserts before its `isPinInVect` check.
- The `ioentity_factory.h` plumbing is left out. Files present in two copies that differ only in their licence header are modelled once.
- `firmware/src/id.c` is not part of this model. The board id is the constant 0x0002.
