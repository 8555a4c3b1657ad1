# Greenhouse valve controller: a Dafny model

This project models the core of a small temperature-regulation system.

An STM32 Nucleo board does four things:

- It reads a BMP280 barometric sensor over I2C. The raw codes become hundredths of a degree and pascals through the sensor's 32-bit integer compensation formulas.
- It reads an MPU9250 inertial unit and decodes its big-endian burst.
- It answers a line protocol on a UART from a Raspberry Pi. The commands are `GET_T`, `GET_P`, `SET_K=<n>`, `GET_K` and `GET_A`; every other line gets `ERR=CMD`.
- It drives a valve through a stepper board on a CAN bus. A proportional law turns the temperature error and the gain K into a saturated angle.

On the Raspberry Pi side, a Python client frames the commands and parses the replies. A small FastAPI service edits a module-global sentence.

The model follows the source's own shape:

- **Stateful modules become classes.** The C modules with static state (the protocol's line buffer, the CAN encoder's base identifier, the valve's last command, the sensor handles) are classes whose methods change their fields. Each method is proved against a specification function.
- **Pure computations become functions with lemmas.** These include the compensation formulas, the byte decoding, `printf` and `atoi`, and Python's `strip`, `int` and `float`.
- **Loops stay loops.** The client's two loops are methods with loop invariants: reading a line up to CR/LF, and extracting the leading number.
- **C integers are modelled exactly.** Integer widths, two's-complement wrap-around, C's truncating `/` and `%`, and GCC's arithmetic right shift are all written out in `CInt`.

The modules are:

| module | file | models |
|---|---|---|
| `CInt`, `Hal`, `Wrappers` | cint.dfy | C integer types and operators, `HAL_StatusTypeDef`, `Option` |
| `Text` | text.dfy | `%ld`/`%0Nld` formatting, `snprintf` truncation, C strings, newlib `atoi` |
| `Bmp280` | bmp280.dfy | bmp280.c / bmp280.h |
| `Mpu9250` | mpu9250.dfy | mpu9250.c / mpu9250.h |
| `SensorsApp` | sensors_app.dfy | sensors_app.c |
| `RpiProtocol` | rpi_protocol.dfy | rpi/rpi_protocol.c |
| `NucleoMain` | nucleo_main.dfy | the inline protocol of the earlier firmware's main.c |
| `StepperCan` | stepper_can.dfy | stepper_can.c / stepper_can.h |
| `ValveControl` | valve_control.dfy | valve_control.c |
| `Stm32Client` | stm32_client.dfy | `send_command`, `_parse_value`, the getters and `set_K` of stm32_client_v3.py |
| `WelcomeApi` | welcome_api.dfy | the `welcome` handlers of fastapi.py |

### Where the code and its comments disagree (the model follows the code)

- **Default gain.** rpi_protocol.c initialises `s_K_centi` to 500, which is 5.00, although its comment says 1.00. The earlier main.c initialises `g_K_centi` to 100 (1.00). `RpiProtocol.DEFAULT_K_CENTI` and `NucleoMain.INITIAL_K_CENTI` keep the two values.
- **Valve angle range.** valve_control.h describes the target angle as 0..90 degrees and K as a band around 25 degrees. The code computes `k * err / 10000` and saturates it to [-90, 90]; `ValveControl.ControlAngle` follows the code.
- **Overlong lines.** The receive handlers say that an overflow discards the current command. In fact only the bytes received so far are dropped: the cursor restarts at 0 and reception continues. So 40 bytes and a terminator deliver bytes 33 to 40 as a command (`RpiProtocol.LineOnTerminator`).
- **Signs in replies.** `GET_K` and `GET_A` print `%ld.%02ld` from the truncated quotient and the magnitude of the remainder. A value strictly between -1 and 0 therefore comes back without its sign (`RpiProtocol.KReplyLosesSign`, `RpiProtocol.AngleReplyLosesSign`, `Stm32Client.ReadGain`, `Stm32Client.ReadAngle`).

## Model

| member | source | states |
|---|---|---|
| CInt.CDivModSpec | FIRMWARE/STM32_NUCLEO_CONTROLLER/COM_drivers/valve_control.c:40 | C's `/` truncates toward zero and `%` takes the dividend's sign, with `(a/b)*b + a%b == a` (section 6.5.5 of ISO C); it agrees with floor division on non-negative operands |
| CInt.AsrSpec | FIRMWARE/STM32_NUCLEO_CONTROLLER/COM_drivers/bmp280.c:212-219 | a signed `x >> n` is the floor of x / 2^n: `Asr(x,n)*2^n <= x < (Asr(x,n)+1)*2^n` |
| CInt.AsUint16OfAsInt16 | FIRMWARE/STM32_NUCLEO_CONTROLLER/COM_drivers/bmp280.c:64-76 | the `(int16_t)` cast of a 16-bit word loses no bits: casting back gives the word |
| CInt.Wrap32 | FIRMWARE/STM32_NUCLEO_CONTROLLER/COM_drivers/valve_control.c:39 | an int32 result equals the exact value when it fits and is congruent to it modulo 2^32 otherwise |
| Text.ValueOfDigits | FIRMWARE/STM32_NUCLEO_CONTROLLER/COM_drivers/rpi/rpi_protocol.c:59-64 | the decimal digits `%lu` prints for n denote n |
| Text.ValueAppend | FIRMWARE/STM32_NUCLEO_CONTROLLER/COM_drivers/rpi/rpi_protocol.c:75-85 | concatenated digit strings denote the left value shifted by the right length plus the right value |
| Text.FormatDec | FIRMWARE/STM32_NUCLEO_CONTROLLER/COM_drivers/rpi/rpi_protocol.c:54-55 | defines the `%0Nld` field: a '-' for a negative value, then the digits of the magnitude zero-padded to the width; `FormatDecValue` and `FormatDecLength` prove what it denotes and how wide it is |
| Text.FormatDecValue | FIRMWARE/STM32_NUCLEO_CONTROLLER/COM_drivers/rpi/rpi_protocol.c:45-57 | a `%0Nld` field starts with '-' exactly for negative values, its digits denote the magnitude, and it is at least N wide |
| Text.FormatDecLength | FIRMWARE/STM32_NUCLEO_CONTROLLER/COM_drivers/rpi/rpi_protocol.c:45-57 | a field of a value below 10^k in magnitude takes at most max(N, k + 1) characters |
| Text.CString | FIRMWARE/STM32_NUCLEO_CONTROLLER/COM_drivers/rpi/rpi_protocol.c:145-152 | the command handed over is the text before the buffer's first NUL: a prefix of the buffer with no NUL in it, followed in the buffer by a NUL whenever it is shorter than the buffer |
| Text.CStringOfTerminated | FIRMWARE/STM32_NUCLEO_CONTROLLER/COM_drivers/rpi/rpi_protocol.c:125-129 | a NUL written after NUL-free bytes makes the C string exactly those bytes |
| Text.Snprintf | FIRMWARE/STM32_NUCLEO_CONTROLLER/COM_drivers/rpi/rpi_protocol.c:54-55 | `snprintf` leaves a prefix of the text shorter than the buffer, and the whole text when it fits |
| Text.Atoi | FIRMWARE/STM32_NUCLEO_CONTROLLER/COM_drivers/rpi/rpi_protocol.c:66-73 | defines `atoi`: C white space, one optional sign, the leading digits, the value saturated to int32; `AtoiOfFormat` and `AtoiOfNonNumeric` prove what it reads |
| Text.AtoiOfFormat | FIRMWARE/STM32_NUCLEO_CONTROLLER/COM_drivers/rpi/rpi_protocol.c:66-73 | `atoi` reads back any int32 that `%ld` printed, whatever non-digit text follows |
| Text.AtoiOfNonNumeric | FIRMWARE/STM32_NUCLEO_CONTROLLER/COM_drivers/rpi/rpi_protocol.c:68-69 | text with no digits after the white space and an optional sign gives 0 |
| Bmp280.CalibBlockCoversRegisters | FIRMWARE/STM32_NUCLEO_CONTROLLER/COM_drivers/bmp280.h:33-34 | the 26-byte trimming block starting at 0x88 ends at register 0xA1 |
| Bmp280.DecodeCalib | FIRMWARE/STM32_NUCLEO_CONTROLLER/COM_drivers/bmp280.c:64-76 | defines coefficient i as the little-endian word at bytes 2i and 2i+1, T1 and P1 unsigned and the others signed; `EncodeDecodeCalib`, `DecodeEncodeCalib` and `ReservedBytesIgnored` prove it a bijection between the first 24 bytes and the coefficients |
| Bmp280.WordsLEOfWordsOf | FIRMWARE/STM32_NUCLEO_CONTROLLER/COM_drivers/bmp280.c:64-76 | laying out the little-endian words read from a byte string gives the string back |
| Bmp280.WordsOfWordsLE | FIRMWARE/STM32_NUCLEO_CONTROLLER/COM_drivers/bmp280.c:64-76 | reading the words of their little-endian layout gives the words back |
| Bmp280.EncodeDecodeCalib | FIRMWARE/STM32_NUCLEO_CONTROLLER/COM_drivers/bmp280.c:64-76 | the twelve decoded coefficients re-encode to the first 24 bytes of the block |
| Bmp280.DecodeEncodeCalib | FIRMWARE/STM32_NUCLEO_CONTROLLER/COM_drivers/bmp280.c:64-76 | decoding the encoding of any coefficients, with any two reserved bytes, gives them back |
| Bmp280.ReservedBytesIgnored | FIRMWARE/STM32_NUCLEO_CONTROLLER/COM_drivers/bmp280.c:78 | bytes 24 and 25 of the block never affect a coefficient |
| Bmp280.Raw20 | FIRMWARE/STM32_NUCLEO_CONTROLLER/COM_drivers/bmp280.c:133-139 | the raw code assembled from msb, lsb and xlsb is a 20-bit value |
| Bmp280.Raw20Fields | FIRMWARE/STM32_NUCLEO_CONTROLLER/COM_drivers/bmp280.c:133-139 | the 20-bit code determines msb, lsb and the high nibble of xlsb |
| Bmp280.Raw20Onto | FIRMWARE/STM32_NUCLEO_CONTROLLER/COM_drivers/bmp280.c:133-139 | every 20-bit code comes from some register contents, whatever the low nibble |
| Bmp280.FineTemperature | FIRMWARE/STM32_NUCLEO_CONTROLLER/COM_drivers/bmp280.c:210-219 | defines t_fine as var1 + var2 with int32 products and arithmetic shifts; `DatasheetTemperatureExample` evaluates it on the datasheet's sample |
| Bmp280.TemperatureFromFine | FIRMWARE/STM32_NUCLEO_CONTROLLER/COM_drivers/bmp280.c:220 | defines `(t_fine*5 + 128) >> 8` in int32; `TemperatureRounds` proves it the rounded hundredths of a degree |
| Bmp280.TemperatureRounds | FIRMWARE/STM32_NUCLEO_CONTROLLER/COM_drivers/bmp280.c:220 | `(t_fine*5 + 128) >> 8` is t_fine*5/256 rounded to the nearest hundredth |
| Bmp280.PressureDenominator | FIRMWARE/STM32_NUCLEO_CONTROLLER/COM_drivers/bmp280.c:232-244 | defines the scaled denominator var1 tested at the guard; `Pressure` returns 0 when it is 0 |
| Bmp280.PressureOffset | FIRMWARE/STM32_NUCLEO_CONTROLLER/COM_drivers/bmp280.c:232-236 | defines var2 after its three updates, with P4..P6 and int32 wrap-around; `PressureIgnoresTemperatureCoefficients` shows it depends on t_fine only |
| Bmp280.PressureNumerator | FIRMWARE/STM32_NUCLEO_CONTROLLER/COM_drivers/bmp280.c:250 | defines `((uint32)(1048576 - adc_P) - (var2 >> 12)) * 3125` in uint32; `DatasheetPressureExample` evaluates it |
| Bmp280.ScaledQuotient | FIRMWARE/STM32_NUCLEO_CONTROLLER/COM_drivers/bmp280.c:252-259 | defines the overflow-avoiding division; `ScaledQuotientSpec` and `HalvedQuotient` prove how close it is to 2p/d |
| Bmp280.ScaledQuotientSpec | FIRMWARE/STM32_NUCLEO_CONTROLLER/COM_drivers/bmp280.c:252-259 | below 2^31 the quotient is exactly 2p/d; above, it is twice the truncated p/d, or the wrapped 2p when d is 1 |
| Bmp280.HalvedQuotient | FIRMWARE/STM32_NUCLEO_CONTROLLER/COM_drivers/bmp280.c:256-258 | the second branch is within one of 2p/d and does not overflow |
| Bmp280.PressureCorrected | FIRMWARE/STM32_NUCLEO_CONTROLLER/COM_drivers/bmp280.c:261-266 | defines the second-order correction with P7..P9; `DatasheetPressureExample` evaluates it |
| Bmp280.Pressure | FIRMWARE/STM32_NUCLEO_CONTROLLER/COM_drivers/bmp280.c:244-248 | a zero denominator gives 0 Pa instead of a division by zero |
| Bmp280.PressureIgnoresTemperatureCoefficients | FIRMWARE/STM32_NUCLEO_CONTROLLER/COM_drivers/bmp280.c:226-269 | the pressure depends on T1..T3 only through t_fine |
| Bmp280.DatasheetTemperatureExample | FIRMWARE/STM32_NUCLEO_CONTROLLER/COM_drivers/bmp280.c:207-223 | with the datasheet's calibration, adc_T 519888 gives t_fine 128422 and 25.08 degrees |
| Bmp280.DatasheetPressureExample | FIRMWARE/STM32_NUCLEO_CONTROLLER/COM_drivers/bmp280.c:226-269 | with the same calibration and t_fine, adc_P 415148 gives 100656 Pa |
| Bmp280.Handle.constructor | FIRMWARE/STM32_NUCLEO_CONTROLLER/COM_drivers/bmp280.h:84-90 | a zero-initialised handle |
| Bmp280.Handle.ReadCalibration | FIRMWARE/STM32_NUCLEO_CONTROLLER/COM_drivers/bmp280.c:51-81 | the transfer's status is returned; on success the coefficients are the decoded block, on failure they are unchanged |
| Bmp280.Handle.Init | FIRMWARE/STM32_NUCLEO_CONTROLLER/COM_drivers/bmp280.c:144-182 | address stored and t_fine cleared; the status of the first failing transfer (id, calibration, config write, read-back) is returned and the calibration is loaded only when its read succeeds |
| Bmp280.Handle.ReadRaw | FIRMWARE/STM32_NUCLEO_CONTROLLER/COM_drivers/bmp280.c:116-142 | on failure both raw codes are 0; on success they are the 20-bit pressure (bytes 0-2) and temperature (bytes 3-5) codes |
| Bmp280.Handle.CompensateT | FIRMWARE/STM32_NUCLEO_CONTROLLER/COM_drivers/bmp280.c:207-223 | leaves the fine temperature in the handle and returns the temperature derived from it |
| Bmp280.Handle.CompensateP | FIRMWARE/STM32_NUCLEO_CONTROLLER/COM_drivers/bmp280.c:226-269 | returns the pressure for the stored t_fine, and 0 when the denominator is 0 |
| Mpu9250.BigEndianRoundTrip | STM32_NUCLEO_CONTROLLER_2_4_ACCEL_GIRO/COM_drivers/mpu9250.c:228-236 | decoding the two bytes of any int16 gives it back |
| Mpu9250.BigEndianBytesOfDecode | STM32_NUCLEO_CONTROLLER_2_4_ACCEL_GIRO/COM_drivers/mpu9250.c:228-236 | every byte pair is the encoding of what it decodes to |
| Mpu9250.DecodeBurst | STM32_NUCLEO_CONTROLLER_2_4_ACCEL_GIRO/COM_drivers/mpu9250.c:228-236 | defines the six axes as big-endian int16 pairs at bytes 0-5 and 8-13, skipping the temperature; `DecodeEncodeBurst` and `EncodeDecodeBurst` prove it inverts the burst layout |
| Mpu9250.DecodeEncodeBurst | STM32_NUCLEO_CONTROLLER_2_4_ACCEL_GIRO/COM_drivers/mpu9250.c:228-236 | the six axes are recovered from a burst whatever its temperature bytes |
| Mpu9250.EncodeDecodeBurst | STM32_NUCLEO_CONTROLLER_2_4_ACCEL_GIRO/COM_drivers/mpu9250.c:228-236 | re-encoding a decoded burst reproduces it, with the temperature bytes 6-7 put back |
| Mpu9250.ReadRaw | STM32_NUCLEO_CONTROLLER_2_4_ACCEL_GIRO/COM_drivers/mpu9250.c:206-239 | NULL gives HAL_ERROR; a failed transfer returns its status and leaves the sample; success stores the decoded burst |
| Mpu9250.AccelMg | STM32_NUCLEO_CONTROLLER_2_4_ACCEL_GIRO/COM_drivers/mpu9250.c:257-259 | defines `raw*1000/16384` in int32; `ConversionTruncates` and `AccelRange` prove it truncates toward zero and stays within -2000..1999 mg |
| Mpu9250.GyroMdps | STM32_NUCLEO_CONTROLLER_2_4_ACCEL_GIRO/COM_drivers/mpu9250.c:274-276 | defines `raw*1000/131` in int32; `ConversionTruncates` and `GyroRange` prove it truncates toward zero and stays within -250137..250129 mdps |
| Mpu9250.ConversionTruncates | STM32_NUCLEO_CONTROLLER_2_4_ACCEL_GIRO/COM_drivers/mpu9250.c:257-259 | `raw*1000/sens` is the thousandths of raw/sens truncated toward zero |
| Mpu9250.AccelRange | STM32_NUCLEO_CONTROLLER/COM_drivers/mpu9250.h:37-43 | at +-2 g every raw value reads as -2000..1999 mg, and 16384 LSB is exactly 1 g |
| Mpu9250.GyroRange | STM32_NUCLEO_CONTROLLER/COM_drivers/mpu9250.h:37-43 | at +-250 dps every raw value reads as -250137..250129 mdps, and 131 LSB is exactly 1 dps |
| Mpu9250.RawData.constructor | STM32_NUCLEO_CONTROLLER/COM_drivers/mpu9250.h:49-58 | a zeroed sample |
| Mpu9250.ConvertAccelMg | STM32_NUCLEO_CONTROLLER_2_4_ACCEL_GIRO/COM_drivers/mpu9250.c:245-260 | nothing is written if any pointer is NULL; otherwise x, y, z get the converted axes in that order, a later write winning when outputs alias |
| Mpu9250.ConvertGyroMdps | STM32_NUCLEO_CONTROLLER_2_4_ACCEL_GIRO/COM_drivers/mpu9250.c:262-277 | the same for the gyroscope axes in mdps |
| SensorsApp.SensorsState.constructor | FIRMWARE/STM32_NUCLEO_CONTROLLER/COM_drivers/sensors_app.c:16-21 | the state record starts at 0 |
| SensorsApp.Refreshed | FIRMWARE/STM32_NUCLEO_CONTROLLER/COM_drivers/sensors_app.c:49-55 | defines the published pair: the temperature from the sample's t_fine and the pressure for that same t_fine; `RefreshedExample` evaluates it |
| SensorsApp.RefreshedExample | FIRMWARE/STM32_NUCLEO_CONTROLLER/COM_drivers/sensors_app.c:43-63 | one refresh of the datasheet's sample publishes 25.08 degrees and 100656 Pa |
| SensorsApp.App.constructor | FIRMWARE/STM32_NUCLEO_CONTROLLER/COM_drivers/sensors_app.c:16-21 | fresh handle, sample and a zeroed state |
| SensorsApp.App.Init | FIRMWARE/STM32_NUCLEO_CONTROLLER/COM_drivers/sensors_app.c:23-41 | the BMP280 is initialised at 0x77 with t_fine cleared and its calibration loaded when read; HAL_ERROR unless every BMP280 transfer and the MPU9250 start succeed |
| SensorsApp.App.Update | FIRMWARE/STM32_NUCLEO_CONTROLLER/COM_drivers/sensors_app.c:43-63 | a successful raw read publishes the temperature and the pressure for the same sample, a failed one leaves them stale; a successful IMU read stores the decoded burst |
| SensorsApp.App.GetState | FIRMWARE/STM32_NUCLEO_CONTROLLER/COM_drivers/sensors_app.c:65-68 | every call returns the same state record |
| RpiProtocol.Initial | FIRMWARE/STM32_NUCLEO_CONTROLLER/COM_drivers/rpi/rpi_protocol.c:21-24 | the zeroed line buffer satisfies the buffer invariant |
| RpiProtocol.RxStep | FIRMWARE/STM32_NUCLEO_CONTROLLER/COM_drivers/rpi/rpi_protocol.c:120-143 | a received byte keeps the invariant: the cursor stays at most 31, so the NUL store never leaves the buffer |
| RpiProtocol.Feed | FIRMWARE/STM32_NUCLEO_CONTROLLER/COM_drivers/rpi/rpi_protocol.c:120-143 | any byte stream keeps the invariant |
| RpiProtocol.TerminatorOnEmptyLine | FIRMWARE/STM32_NUCLEO_CONTROLLER/COM_drivers/rpi/rpi_protocol.c:123-131 | CR or LF on an empty line changes nothing, so CR LF yields one command |
| RpiProtocol.FeedText | FIRMWARE/STM32_NUCLEO_CONTROLLER/COM_drivers/rpi/rpi_protocol.c:132-142 | after n plain bytes the cursor is n mod 32 and the buffer starts with the bytes since the last overflow |
| RpiProtocol.LineOnTerminator | FIRMWARE/STM32_NUCLEO_CONTROLLER/COM_drivers/rpi/rpi_protocol.c:120-143 | a terminator makes the bytes since the last overflow the ready command, or is ignored when there are none |
| RpiProtocol.ShortLine | FIRMWARE/STM32_NUCLEO_CONTROLLER/COM_drivers/rpi/rpi_protocol.c:120-143 | 1 to 31 bytes and a terminator deliver exactly those bytes as a ready command |
| RpiProtocol.Dispatch | FIRMWARE/STM32_NUCLEO_CONTROLLER/COM_drivers/rpi/rpi_protocol.c:37-103 | defines the command as the first prefix that matches, in the order GET_T, GET_P, SET_K=, GET_K, GET_A; `DispatchCommandText` and `UnknownIff` prove what each text dispatches to |
| RpiProtocol.KAfter | FIRMWARE/STM32_NUCLEO_CONTROLLER/COM_drivers/rpi/rpi_protocol.c:66-73 | defines the gain after a command: `atoi` of the SET_K= argument, otherwise unchanged; `NucleoMain.SessionSetThenGet` proves a later GET_K reads it |
| RpiProtocol.TempReply | FIRMWARE/STM32_NUCLEO_CONTROLLER/COM_drivers/rpi/rpi_protocol.c:45-57 | defines the GET_T reply; `TempReplyShape` and the two examples prove its sign, padding and digits |
| RpiProtocol.PressReply | FIRMWARE/STM32_NUCLEO_CONTROLLER/COM_drivers/rpi/rpi_protocol.c:59-64 | defines the GET_P reply `P=<digits>Pa`; `Text.ValueOfDigits` proves the digits denote the pressure |
| RpiProtocol.KReply | FIRMWARE/STM32_NUCLEO_CONTROLLER/COM_drivers/rpi/rpi_protocol.c:75-85 | defines the GET_K reply from the truncated quotient and the magnitude of the remainder; `KReplyExample` and `KReplyLosesSign` evaluate it |
| RpiProtocol.AngleReply | FIRMWARE/STM32_NUCLEO_CONTROLLER/COM_drivers/rpi/rpi_protocol.c:87-97 | defines the GET_A reply the same way in thousandths; `AngleReplyLosesSign` evaluates it |
| RpiProtocol.Reply | FIRMWARE/STM32_NUCLEO_CONTROLLER/COM_drivers/rpi/rpi_protocol.c:37-103 | defines the reply to each command, SET_K=OK and ERR=CMD included; `ReplyFits` proves every one fits the buffer |
| RpiProtocol.DispatchCommandText | FIRMWARE/STM32_NUCLEO_CONTROLLER/COM_drivers/rpi/rpi_protocol.c:45-87 | every command is recognised from its text followed by anything, and SET_K= keeps the rest as its argument |
| RpiProtocol.UnknownIff | FIRMWARE/STM32_NUCLEO_CONTROLLER/COM_drivers/rpi/rpi_protocol.c:98-102 | ERR=CMD is answered exactly when none of the five prefixes matches; bare "SET_K" is unknown |
| RpiProtocol.QuotientBound | FIRMWARE/STM32_NUCLEO_CONTROLLER/COM_drivers/rpi/rpi_protocol.c:75-97 | an int32 divided by 100 or 1000 has at most 8 or 7 digits and a remainder smaller than the divisor |
| RpiProtocol.ReplyFits | STM32_NUCLEO_CONTROLLER/Core/Src/main.c:133-208 | every reply, for every state, is shorter than 32 bytes, so neither transmit buffer truncates one |
| RpiProtocol.TempReplyPositiveExample | FIRMWARE/STM32_NUCLEO_CONTROLLER/COM_drivers/rpi/rpi_protocol.c:45-57 | 2550 is answered "T=+25.50_C" |
| RpiProtocol.TempReplyShape | FIRMWARE/STM32_NUCLEO_CONTROLLER/COM_drivers/rpi/rpi_protocol.c:45-57 | apart from INT32_MIN, the reply is the sign, the two-digit-padded degrees and the two-digit hundredths of the magnitude |
| RpiProtocol.TempReplyNegativeExample | FIRMWARE/STM32_NUCLEO_CONTROLLER/COM_drivers/rpi/rpi_protocol.c:45-57 | -75 is answered "T=-00.75_C" |
| RpiProtocol.KReplyExample | FIRMWARE/STM32_NUCLEO_CONTROLLER/COM_drivers/rpi/rpi_protocol.c:75-85 | a gain of 1234 reads "K=12.34000" |
| RpiProtocol.KReplyLosesSign | FIRMWARE/STM32_NUCLEO_CONTROLLER/COM_drivers/rpi/rpi_protocol.c:75-85 | a gain of -50 reads "K=0.50000": the sign is lost |
| RpiProtocol.AngleReplyLosesSign | FIRMWARE/STM32_NUCLEO_CONTROLLER/COM_drivers/rpi/rpi_protocol.c:87-97 | an angle of -500 reads "A=0.5000": the sign is lost |
| RpiProtocol.Proto.constructor | FIRMWARE/STM32_NUCLEO_CONTROLLER/COM_drivers/rpi/rpi_protocol.c:14-27 | empty buffer, gain 500, no UART and no state record |
| RpiProtocol.Proto.Init | FIRMWARE/STM32_NUCLEO_CONTROLLER/COM_drivers/rpi/rpi_protocol.c:105-118 | attaches the UART and state record and resets the cursor and ready flag, keeping the invariant |
| RpiProtocol.Proto.OnRxByte | FIRMWARE/STM32_NUCLEO_CONTROLLER/COM_drivers/rpi/rpi_protocol.c:120-143 | the buffer takes exactly the step `RxStep` and keeps the invariant |
| RpiProtocol.Proto.HandleCommand | FIRMWARE/STM32_NUCLEO_CONTROLLER/COM_drivers/rpi/rpi_protocol.c:37-103 | without a state record nothing happens; otherwise the gain becomes `KAfter` and the reply for the dispatched command is sent |
| RpiProtocol.Proto.SendString | FIRMWARE/STM32_NUCLEO_CONTROLLER/COM_drivers/rpi/rpi_protocol.c:29-35 | the text is transmitted only when a UART is attached |
| RpiProtocol.Proto.Task | FIRMWARE/STM32_NUCLEO_CONTROLLER/COM_drivers/rpi/rpi_protocol.c:145-152 | a ready line is handled once and the flag cleared; the buffer contents and cursor are untouched |
| RpiProtocol.Proto.GetKCenti | FIRMWARE/STM32_NUCLEO_CONTROLLER/COM_drivers/rpi/rpi_protocol.c:154-157 | returns the gain the last SET_K= left, 500 before any |
| NucleoMain.SessionOfTwo | STM32_NUCLEO_CONTROLLER/Core/Src/main.c:133-208 | the second of two lines is answered with the gain the first left |
| NucleoMain.SessionSetThenGet | STM32_NUCLEO_CONTROLLER/Core/Src/main.c:133-208 | after SET_K=&lt;arg&gt;, GET_K answers `atoi(arg)` whatever the gain was |
| NucleoMain.AtoiExample | STM32_NUCLEO_CONTROLLER/Core/Src/main.c:133-208 | `atoi("1234")` is 1234 |
| NucleoMain.SetKExample | STM32_NUCLEO_CONTROLLER/Core/Src/main.c:91-92 | SET_K=1234 then GET_K answers SET_K=OK and K=12.34000 and leaves the gain at 1234 |
| NucleoMain.AngleAtRest | STM32_NUCLEO_CONTROLLER/Core/Src/main.c:98-121 | the angle, always 0, is answered "A=0.0000" |
| NucleoMain.Controller.constructor | STM32_NUCLEO_CONTROLLER/Core/Src/main.c:87-96 | zeroed globals, gain 100 and an empty line buffer |
| NucleoMain.Controller.RxCallback | STM32_NUCLEO_CONTROLLER/Core/Src/main.c:516-559 | the USART1 branch takes exactly the `RxStep` of the protocol module and keeps its invariant |
| NucleoMain.Controller.SendString | STM32_NUCLEO_CONTROLLER/Core/Src/main.c:122-126 | the text is appended to USART1's output |
| NucleoMain.Controller.HandleCommand | STM32_NUCLEO_CONTROLLER/Core/Src/main.c:133-208 | the gain becomes `KAfter` and the full reply is sent, never cut by the 32-byte buffer |
| NucleoMain.Controller.SensorsUpdate | STM32_NUCLEO_CONTROLLER/Core/Src/main.c:98-121 | a successful raw read publishes the temperature and pressure of that sample and leaves its t_fine in the handle, a failed one leaves all three; the IMU sample is the decoded burst on success and unchanged otherwise |
| NucleoMain.Controller.ServeReadyLine | STM32_NUCLEO_CONTROLLER/Core/Src/main.c:275-282 | a ready line is handled exactly once, after clearing the flag |
| NucleoMain.Controller.LoopIteration | STM32_NUCLEO_CONTROLLER/Core/Src/main.c:269-282 | one pass refreshes the sensors (values, t_fine and IMU sample as in `SensorsUpdate`) and then answers the ready line from the values just published |
| StepperCan.DecodeEncode | FIRMWARE/STM32_NUCLEO_CONTROLLER/COM_drivers/stepper_can.h:59-87 | the board reads every sendable command back from its frame |
| StepperCan.Encode | FIRMWARE/STM32_NUCLEO_CONTROLLER/COM_drivers/stepper_can.c:56-94 | defines each command's frame: manual at base + 0 with direction, steps and speed, angle at base + 1 with the clamped angle and sign, zero at base + 2 with no data; `DecodeEncode`, `AngleClamped` and `FramesAreStandard` prove what the board reads |
| StepperCan.AngleClamped | FIRMWARE/STM32_NUCLEO_CONTROLLER/COM_drivers/stepper_can.c:73-86 | an angle above 180 is sent, and read, as 180 |
| StepperCan.FramesAreStandard | FIRMWARE/STM32_NUCLEO_CONTROLLER/COM_drivers/stepper_can.c:17-32 | every frame is a standard 11-bit data frame with DLC equal to its payload length, at most 8 |
| StepperCan.IdentifiersDistinct | FIRMWARE/STM32_NUCLEO_CONTROLLER/COM_drivers/stepper_can.h:15-29 | the twelve identifiers of the four switch settings are distinct |
| StepperCan.OtherBoardIgnores | FIRMWARE/STM32_NUCLEO_CONTROLLER/COM_drivers/stepper_can.h:15-29 | a frame for one board is never read as a command by a board with another base |
| StepperCan.Encoder.constructor | FIRMWARE/STM32_NUCLEO_CONTROLLER/COM_drivers/stepper_can.c:14 | the base identifier starts at 0x60 and nothing is sent |
| StepperCan.Encoder.Init | FIRMWARE/STM32_NUCLEO_CONTROLLER/COM_drivers/stepper_can.c:36-49 | HAL_OK exactly when the handle is present and the start succeeds |
| StepperCan.Encoder.SetBaseId | FIRMWARE/STM32_NUCLEO_CONTROLLER/COM_drivers/stepper_can.c:51-54 | the base becomes the chosen setting |
| StepperCan.Encoder.SendStd | FIRMWARE/STM32_NUCLEO_CONTROLLER/COM_drivers/stepper_can.c:17-32 | exactly one standard frame with the first `dlc` bytes is handed over and its status returned |
| StepperCan.Encoder.ManualMove | FIRMWARE/STM32_NUCLEO_CONTROLLER/COM_drivers/stepper_can.c:56-71 | zero steps or speed gives HAL_ERROR with nothing sent; otherwise the manual frame at base + 0 is sent |
| StepperCan.Encoder.SetAngle | FIRMWARE/STM32_NUCLEO_CONTROLLER/COM_drivers/stepper_can.c:73-86 | the angle frame at base + 1 is sent with the angle clamped to 180 |
| StepperCan.Encoder.SetZero | FIRMWARE/STM32_NUCLEO_CONTROLLER/COM_drivers/stepper_can.c:88-94 | an empty frame at base + 2 is sent |
| ValveControl.ControlAngle | FIRMWARE/STM32_NUCLEO_CONTROLLER/COM_drivers/valve_control.c:43-44 | the commanded angle always lies in [-90, 90] |
| ValveControl.ControlLaw | FIRMWARE/STM32_NUCLEO_CONTROLLER/COM_drivers/valve_control.c:28-44 | without overflow the angle is +90 exactly when k*(t - 2500) reaches 900000 and -90 exactly when it reaches -900000; in between it is k*(t - 2500)/10000 truncated toward zero |
| ValveControl.ErrorFits | FIRMWARE/STM32_NUCLEO_CONTROLLER/COM_drivers/valve_control.c:28-39 | a product that fits in int32 means its factors' int32 arithmetic is exact |
| ValveControl.QuotientSide | FIRMWARE/STM32_NUCLEO_CONTROLLER/COM_drivers/valve_control.c:40 | `prod / 10000` has the sign of `prod`, lies within one of prod/10000 on the side of zero, and reaches 90 in magnitude exactly when `prod` reaches 900000 |
| ValveControl.ControlExample | FIRMWARE/STM32_NUCLEO_CONTROLLER/COM_drivers/valve_control.c:25-44 | 26.00 degrees with K = 5.00 gives 5 degrees |
| ValveControl.AngleCommandRoundTrip | FIRMWARE/STM32_NUCLEO_CONTROLLER/COM_drivers/valve_control.c:53-62 | every saturated angle reaches the board as the same signed angle |
| ValveControl.Step | FIRMWARE/STM32_NUCLEO_CONTROLLER/COM_drivers/valve_control.c:46-50 | nothing is sent exactly when the saturated angle equals the last command; otherwise that angle, within [-90, 90], is sent and becomes the last command |
| ValveControl.RepeatSendsNothing | FIRMWARE/STM32_NUCLEO_CONTROLLER/COM_drivers/valve_control.c:47-50 | after an update the same inputs send nothing |
| ValveControl.FirstUpdateSends | FIRMWARE/STM32_NUCLEO_CONTROLLER/COM_drivers/valve_control.c:17-18 | the initial last command lies outside the range, so the first update always sends |
| ValveControl.Controller.constructor | FIRMWARE/STM32_NUCLEO_CONTROLLER/COM_drivers/valve_control.c:17-18 | last angle 999 and last command 9999 |
| ValveControl.Controller.Init | FIRMWARE/STM32_NUCLEO_CONTROLLER/COM_drivers/valve_control.c:20-23 | resets only the last angle |
| ValveControl.Controller.Update | FIRMWARE/STM32_NUCLEO_CONTROLLER/COM_drivers/valve_control.c:25-63 | the last command follows `Step`, and exactly one angle frame is sent when the angle changed |
| Stm32Client.StripLeft | FIRMWARE/python/stm32_client_v3.py:56 | removes exactly the leading white space |
| Stm32Client.StripRight | FIRMWARE/python/stm32_client_v3.py:56 | removes exactly the trailing white space |
| Stm32Client.Strip | FIRMWARE/python/stm32_client_v3.py:56 | defines `strip()` as removing the leading, then the trailing, white space; `StripIdempotent` proves nothing is left to strip |
| Stm32Client.StripIdempotent | FIRMWARE/python/stm32_client_v3.py:80-86 | `strip()` leaves no white space at either end, so stripping twice changes nothing |
| Stm32Client.IndexOf | FIRMWARE/python/stm32_client_v3.py:79 | the split point is the first '=' |
| Stm32Client.ExtractNumber | FIRMWARE/python/stm32_client_v3.py:94-99 | the loop keeps exactly the longest leading run of digits, signs and dots |
| Stm32Client.ParsedValue | FIRMWARE/python/stm32_client_v3.py:64-108 | defines `_parse_value`: an empty reply raises, a wrong prefix raises, otherwise the payload's value; `ParseOutcomes` and `ReadField` prove its outcomes |
| Stm32Client.PayloadValue | FIRMWARE/python/stm32_client_v3.py:88-108 | defines the payload's value: hexadecimal before a final 'H', otherwise the leading number, raising when there is none; `HexPayload`, `IntOfDigits` and `FloatOfParts` prove its readings |
| Stm32Client.ParseValue | FIRMWARE/python/stm32_client_v3.py:64-108 | the method computes `ParsedValue` |
| Stm32Client.ParsePayload | FIRMWARE/python/stm32_client_v3.py:88-108 | the method computes `PayloadValue` |
| Stm32Client.ParseOutcomes | FIRMWARE/python/stm32_client_v3.py:74-86 | an empty reply raises; without '=' the stripped reply is the payload; with '=' a stripped head other than the prefix raises, otherwise the stripped tail is the payload |
| Stm32Client.UnknownReplyRaises | FIRMWARE/python/stm32_client_v3.py:82-83 | the firmware's ERR=CMD makes every getter raise on its prefix |
| Stm32Client.HeadMismatch | FIRMWARE/python/stm32_client_v3.py:78-83 | a reply whose head before the first '=' is not the prefix raises |
| Stm32Client.HexPayload | FIRMWARE/python/stm32_client_v3.py:89-91 | hexadecimal digits followed by 'H' read as their hexadecimal value |
| Stm32Client.ResponseLine | FIRMWARE/python/stm32_client_v3.py:42-56 | defines the reply line: the bytes before the first CR or LF, non-ASCII dropped, stripped; `ResponseOfReply` and `ReadReply` prove a firmware line comes back intact |
| Stm32Client.SendCommand | FIRMWARE/python/stm32_client_v3.py:27-60 | writes the command with CR LF and returns the ASCII, stripped line before the first terminator |
| Stm32Client.ReadLine | FIRMWARE/python/stm32_client_v3.py:42-55 | the loop keeps exactly the bytes before the first CR or LF |
| Stm32Client.Query | FIRMWARE/python/stm32_client_v3.py:113-131 | a getter sends its command and parses the reply line with its prefix |
| Stm32Client.SetK | FIRMWARE/python/stm32_client_v3.py:133-139 | sends `SET_K=<k>` and returns the reply line unparsed |
| Stm32Client.SetKCommand | FIRMWARE/python/stm32_client_v3.py:137 | defines the f-string `SET_K=<k>`; `SetKCommandChars` proves it fits the firmware's line buffer and `SetKDispatched` that the firmware reads k back |
| Stm32Client.ResponseOfReply | FIRMWARE/python/stm32_client_v3.py:42-56 | an ASCII line without white space at its ends is read back exactly, whatever follows its terminator |
| Stm32Client.ReadReply | FIRMWARE/python/stm32_client_v3.py:42-56 | a printable firmware reply line reaches the parser intact |
| Stm32Client.ReadField | FIRMWARE/python/stm32_client_v3.py:64-108 | a reply `<p>=<number><suffix>` with the expected prefix parses as its number |
| Stm32Client.ParseField | FIRMWARE/python/stm32_client_v3.py:78-108 | the parser's side of `ReadField`, on the line itself |
| Stm32Client.PayloadOf | FIRMWARE/python/stm32_client_v3.py:78-83 | the payload of `<p>=<t>` with the expected prefix is t |
| Stm32Client.ReadPressure | FIRMWARE/python/stm32_client_v3.py:118-120 | `get_pressure` returns the published pressure as an int |
| Stm32Client.ReadTemperature | FIRMWARE/python/stm32_client_v3.py:113-115 | `get_temperature` returns the temperature in hundredths exactly, for every int32 but INT32_MIN |
| Stm32Client.ReadGain | FIRMWARE/python/stm32_client_v3.py:128-130 | `get_K` returns the gain with five decimals; between -1.00 and 0 it comes back positive |
| Stm32Client.ReadAngle | FIRMWARE/python/stm32_client_v3.py:123-125 | `get_acceleration` returns the angle with four decimals; between -1.000 and 0 it comes back positive |
| Stm32Client.IntOfDigits | FIRMWARE/python/stm32_client_v3.py:105-108 | digits without a dot read as the int they denote |
| Stm32Client.PyInt | FIRMWARE/python/stm32_client_v3.py:108 | defines `int(s, base)` for bases 10 and 16, None standing for ValueError; `PyIntOfDigits` and `GroupedDigits` prove it reads digits as their value |
| Stm32Client.PyFloat | FIRMWARE/python/stm32_client_v3.py:106 | defines `float()` exactly as a decimal, None standing for ValueError; `PyFloatOf` proves it reads sign, digits, dot and digits as their value |
| Stm32Client.PyIntOfDigits | FIRMWARE/python/stm32_client_v3.py:108 | `int()` of a digit string is its value |
| Stm32Client.GroupedDigits | FIRMWARE/python/stm32_client_v3.py:108 | the digits of an `int()` literal without underscores denote their value |
| Stm32Client.FloatOfParts | FIRMWARE/python/stm32_client_v3.py:105-106 | a sign, digits, a dot and digits read as that decimal number |
| Stm32Client.PyFloatOf | FIRMWARE/python/stm32_client_v3.py:106 | `float()` of such text is the exact decimal it denotes |
| Stm32Client.SetKDelivered | FIRMWARE/python/stm32_client_v3.py:133-139 | what `set_K` writes arrives at the firmware as one ready SET_K= command whose `atoi` is the gain sent |
| Stm32Client.SetKLine | FIRMWARE/python/stm32_client_v3.py:137-138 | the framed command arrives as one ready line, the LF after the CR ignored |
| Stm32Client.SetKDispatched | FIRMWARE/python/stm32_client_v3.py:137 | the line is dispatched as SET_K= and `atoi` gives the gain back |
| Stm32Client.SetKCommandChars | FIRMWARE/python/stm32_client_v3.py:137 | the command for any int32 gain is shorter than the 32-byte line buffer and holds no terminator or NUL |
| Stm32Client.SetKAcknowledged | FIRMWARE/python/stm32_client_v3.py:139 | the firmware's acknowledgement comes back as "SET_K=OK" |
| WelcomeApi.Letter | FIRMWARE/python/fastapi.py:63-67 | a letter exists exactly for 0 <= index < len, and it is the character there |
| WelcomeApi.Insert | FIRMWARE/python/fastapi.py:70-78 | accepted exactly for 0 <= index <= len; the text lands at index with the rest shifted |
| WelcomeApi.Patch | FIRMWARE/python/fastapi.py:81-92 | the index is checked before the length; only the indexed character changes |
| WelcomeApi.Delete | FIRMWARE/python/fastapi.py:95-103 | accepted exactly for 0 <= index < len; exactly that character goes |
| WelcomeApi.DeleteAfterInsert | FIRMWARE/python/fastapi.py:70-103 | deleting a just-inserted character gives the sentence back |
| WelcomeApi.InsertAfterDelete | FIRMWARE/python/fastapi.py:70-103 | re-inserting a deleted character gives the sentence back |
| WelcomeApi.LetterAfterPatch | FIRMWARE/python/fastapi.py:63-92 | reading a patched index gives the new character |
| WelcomeApi.PatchUndone | FIRMWARE/python/fastapi.py:81-92 | patching the old character back undoes a patch |
| WelcomeApi.LettersAfterInsert | FIRMWARE/python/fastapi.py:63-78 | the inserted text is read back letter by letter at its new place |
| WelcomeApi.LettersAfterDelete | FIRMWARE/python/fastapi.py:63-103 | after a deletion the letters past the index move down by one |
| WelcomeApi.InitialLetters | FIRMWARE/python/fastapi.py:14 | the initial sentence has 20 letters and starts with 'W' |
| WelcomeApi.Api.constructor | FIRMWARE/python/fastapi.py:14 | the module starts with the initial sentence |
| WelcomeApi.Api.GetSentence | FIRMWARE/python/fastapi.py:41-43 | answers 200 with the sentence |
| WelcomeApi.Api.UpdateSentence | FIRMWARE/python/fastapi.py:46-50 | replaces the sentence and answers 202 |
| WelcomeApi.Api.DeleteSentence | FIRMWARE/python/fastapi.py:53-57 | clears the sentence and answers 204 |
| WelcomeApi.Api.GetLetter | FIRMWARE/python/fastapi.py:63-67 | answers 400 "index out of range" or 200 with the index and letter |
| WelcomeApi.Api.InsertText | FIRMWARE/python/fastapi.py:70-78 | the sentence and answer follow `Insert`; a rejected request changes nothing |
| WelcomeApi.Api.PatchLetter | FIRMWARE/python/fastapi.py:81-92 | the sentence and answer follow `Patch`; a rejected request changes nothing |
| WelcomeApi.Api.DeleteLetter | FIRMWARE/python/fastapi.py:95-103 | the sentence and answer follow `Delete`; a rejected request changes nothing |

## Left out

- I/O is not modelled. Every HAL transfer (I2C, UART, CAN) is a parameter: its status and the bytes it delivers. Transmitted text is appended to a `sent` log.
- Interrupts and the super-loop are not modelled as concurrent. Each callback and each loop step is one atomic method, so races on the `volatile` globals are out of scope.
- The UART receive re-arm and main.c's USART2 echo branch are left out; they only restart the peripheral or copy bytes to a terminal.
- `HAL_Delay` and all timing are left out.
- `BMP280_ReadID`, and the register write and read-back of `BMP280_ConfigDefault`, appear only as the statuses `Bmp280.Handle.Init` takes. Neither the id nor the read-back value is compared with anything.
- `mpu9250_init` and `mpu9250_read_who_am_i` are not modelled, because their register sequences have no effect on the decoded data. Their outcome is the `mpuInit` parameter of `SensorsApp.App.Init`.
- The board main.c of the accelerometer/gyroscope variant is not part of this model.
- The Flask app.py and the package's `__init__.py` are not part of this model.
- `get_status` is not modelled; it returns a constant body.
- `send_command`'s one-second deadline and `reset_input_buffer` are left out. The bytes that arrive before the deadline are the parameter `rx`.
- The client's debug `print` is left out.
- Python floats are modelled as exact decimals (mantissa and scale). Binary rounding and the sign of -0.0 are not modelled.
- Python's `isdigit`, `int()` and `float()` also accept non-ASCII digits. The model accepts ASCII digits only, because the firmware never sends anything else.
- `int()` and `float()` of a malformed number raise ValueError in Python. The model has one `Raised` outcome per error kind and does not model the exception text.
- Stm32Client.ReadTemperature: excludes INT32_MIN, because the firmware's `t = -t` overflows there and the reply is then not a number of that value.
- Stm32Client.SetKDelivered: assumes the gain is an int32. A Python int is unbounded, and newlib's `atoi` saturates outside the int32 range.
- C signed overflow is undefined behaviour. The model gives it two's-complement wrap-around, which is what the Cortex-M target does with GCC.
- The gain register written by `SET_K=` is not connected to `ValveControl.Controller.Update`. The firmware that calls the valve controller is not part of this model, so the valve methods take the temperature and gain as parameters.
