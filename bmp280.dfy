/** The BMP280 barometric sensor driver: unpacking of the factory trimming
    registers, reassembly of the 20-bit ADC codes, and Bosch's 32-bit
    fixed-point compensation (BMP280 datasheet section 3.11.2 for the
    trimming-register layout, 3.11.3 for temperature, 8.2 for the 32-bit
    pressure variant). The I2C transfers are the HAL's; each one is given to
    the model as the status the HAL returned and the bytes it delivered. */
module Bmp280 {
  import opened CInt
  import opened Hal

  /** `BMP280_I2C_ADDR_DEFAULT`: 7-bit address 0x77 shifted left once. */
  const I2C_ADDR_DEFAULT: uint8 := 0x77 * 2
  const REG_ID: uint8 := 0xD0
  const REG_CTRL_MEAS: uint8 := 0xF4
  const REG_CALIB_START: uint8 := 0x88
  /** The trimming block spans registers 0x88 to 0xA1 inclusive. */
  const CALIB_LENGTH: nat := 26
  const REG_PRESS_TEMP: uint8 := 0xF7
  const CHIP_ID: uint8 := 0x58
  /** Normal mode, pressure oversampling x16, temperature oversampling x2. */
  const CTRL_MEAS_DEFAULT: uint8 := 0x57

  lemma CalibBlockCoversRegisters()
    ensures REG_CALIB_START as int + CALIB_LENGTH - 1 == 0xA1
  {
  }

  /** `BMP280_CalibData_t`: the twelve trimming coefficients. */
  datatype CalibData = CalibData(
    digT1: uint16, digT2: int16, digT3: int16,
    digP1: uint16, digP2: int16, digP3: int16, digP4: int16, digP5: int16,
    digP6: int16, digP7: int16, digP8: int16, digP9: int16)

  /** `buf[i+1] << 8 | buf[i]`: the high byte fills bits 8..15 and the low
      byte bits 0..7, so the OR adds them. */
  function LittleEndian16(buf: seq<uint8>, i: nat): uint16
    requires i + 1 < |buf|
  {
    (buf[i + 1] as int) * 0x100 + buf[i] as int
  }

  /** `BMP280_ReadCalibration`, lines 64-76: coefficient i comes from bytes
      2i and 2i+1, little-endian; T1 and P1 unsigned, the others signed. The
      reserved bytes 24 and 25 are not read. */
  function DecodeCalib(buf: seq<uint8>): CalibData
    requires |buf| == CALIB_LENGTH
  {
    CalibData(
      LittleEndian16(buf, 0), AsInt16(LittleEndian16(buf, 2)), AsInt16(LittleEndian16(buf, 4)),
      LittleEndian16(buf, 6), AsInt16(LittleEndian16(buf, 8)), AsInt16(LittleEndian16(buf, 10)),
      AsInt16(LittleEndian16(buf, 12)), AsInt16(LittleEndian16(buf, 14)),
      AsInt16(LittleEndian16(buf, 16)), AsInt16(LittleEndian16(buf, 18)),
      AsInt16(LittleEndian16(buf, 20)), AsInt16(LittleEndian16(buf, 22)))
  }

  /** Two bytes, low first. */
  function Le16Bytes(u: uint16): (r: seq<uint8>)
    ensures |r| == 2 && (r[1] as int) * 0x100 + r[0] as int == u
  {
    [u % 0x100, u / 0x100]
  }

  /** The first `n` little-endian 16-bit words of `buf`. */
  function WordsOf(buf: seq<uint8>, n: nat): (w: seq<uint16>)
    requires 2 * n <= |buf|
    ensures |w| == n && forall i | 0 <= i < n :: w[i] == LittleEndian16(buf, 2 * i)
  {
    seq(n, i requires 0 <= i < n => LittleEndian16(buf, 2 * i))
  }

  /** Words laid out little-endian, one after the other. */
  function WordsLE(w: seq<uint16>): (r: seq<uint8>)
    ensures |r| == 2 * |w|
  {
    if w == [] then [] else Le16Bytes(w[0]) + WordsLE(w[1..])
  }

  /** Laying out the words of a byte string gives the byte string back. */
  lemma {:induction false} WordsLEOfWordsOf(buf: seq<uint8>, n: nat)
    requires 2 * n == |buf|
    ensures WordsLE(WordsOf(buf, n)) == buf
  {
    if n > 0 {
      var w := WordsOf(buf, n);
      assert w[1..] == WordsOf(buf[2..], n - 1);
      WordsLEOfWordsOf(buf[2..], n - 1);
      assert Le16Bytes(w[0]) == buf[..2];
      assert buf == buf[..2] + buf[2..];
    }
  }

  /** The twelve coefficients as the sixteen-bit words the sensor stores. */
  function CalibWords(c: CalibData): (w: seq<uint16>)
    ensures |w| == 12
  {
    [c.digT1, AsUint16(c.digT2), AsUint16(c.digT3),
     c.digP1, AsUint16(c.digP2), AsUint16(c.digP3), AsUint16(c.digP4), AsUint16(c.digP5),
     AsUint16(c.digP6), AsUint16(c.digP7), AsUint16(c.digP8), AsUint16(c.digP9)]
  }

  /** The 24 meaningful bytes of the trimming block that hold `c`. */
  function EncodeCalib(c: CalibData): (r: seq<uint8>)
    ensures |r| == 24
  {
    WordsLE(CalibWords(c))
  }

  /** Re-encoding the decoded coefficients little-endian gives back the
      first 24 bytes of the block. */
  lemma {:induction false} EncodeDecodeCalib(buf: seq<uint8>)
    requires |buf| == CALIB_LENGTH
    ensures EncodeCalib(DecodeCalib(buf)) == buf[..24]
  {
    var w := WordsOf(buf[..24], 12);
    forall i | 0 <= i < 12
      ensures CalibWords(DecodeCalib(buf))[i] == w[i]
    {
      AsUint16OfAsInt16(LittleEndian16(buf, 2 * i));
    }
    assert CalibWords(DecodeCalib(buf)) == w;
    WordsLEOfWordsOf(buf[..24], 12);
  }

  /** Reading the words back from their little-endian layout. */
  lemma {:induction false} WordsOfWordsLE(w: seq<uint16>)
    ensures WordsOf(WordsLE(w), |w|) == w
  {
    if w != [] {
      WordsOfWordsLE(w[1..]);
      var b := WordsLE(w);
      assert b[2..] == WordsLE(w[1..]);
      forall i | 1 <= i < |w|
        ensures LittleEndian16(b, 2 * i) == w[i]
      {
        assert LittleEndian16(b, 2 * i) == LittleEndian16(b[2..], 2 * (i - 1));
      }
    }
  }

  /** Decoding a block made of the encoding of `c` and any two reserved
      bytes gives back `c`: the reserved bytes affect no coefficient. */
  lemma {:induction false} DecodeEncodeCalib(c: CalibData, reserved: seq<uint8>)
    requires |reserved| == 2
    ensures DecodeCalib(EncodeCalib(c) + reserved) == c
  {
    var b := EncodeCalib(c) + reserved;
    WordsOfWordsLE(CalibWords(c));
    var w := WordsOf(EncodeCalib(c), 12);
    assert w == CalibWords(c);
    assert WordsOf(b, 12) == w by {
      forall i | 0 <= i < 12
        ensures LittleEndian16(b, 2 * i) == LittleEndian16(EncodeCalib(c), 2 * i)
      {
      }
    }
    var v := WordsOf(b, 12);
    assert v[0] == c.digT1 && v[3] == c.digP1;
    assert AsInt16(v[1]) == c.digT2 && AsInt16(v[2]) == c.digT3;
    assert AsInt16(v[4]) == c.digP2 && AsInt16(v[5]) == c.digP3 && AsInt16(v[6]) == c.digP4;
    assert AsInt16(v[7]) == c.digP5 && AsInt16(v[8]) == c.digP6 && AsInt16(v[9]) == c.digP7;
    assert AsInt16(v[10]) == c.digP8 && AsInt16(v[11]) == c.digP9;
  }

  /** Bytes 24 and 25 of the block never affect any coefficient. */
  lemma ReservedBytesIgnored(buf: seq<uint8>, other: seq<uint8>)
    requires |buf| == CALIB_LENGTH && |other| == CALIB_LENGTH
    requires buf[..24] == other[..24]
    ensures DecodeCalib(buf) == DecodeCalib(other)
  {
    assert forall i | 0 <= i < 24 :: buf[i] == buf[..24][i] == other[..24][i] == other[i];
  }

  /** `BMP280_ReadRaw`, lines 133-139: `msb << 12 | lsb << 4 | xlsb >> 4`.
      The three fields occupy disjoint bits, so the OR is their sum. */
  function Raw20(msb: uint8, lsb: uint8, xlsb: uint8): (r: nat)
    ensures r < 0x10_0000
  {
    msb * 0x1000 + lsb * 0x10 + xlsb / 0x10
  }

  /** The 20-bit code determines the three register fields it came from,
      except the low nibble of xlsb, which is discarded. */
  lemma Raw20Fields(msb: uint8, lsb: uint8, xlsb: uint8)
    ensures Raw20(msb, lsb, xlsb) / 0x1000 == msb
    ensures Raw20(msb, lsb, xlsb) / 0x10 % 0x100 == lsb
    ensures Raw20(msb, lsb, xlsb) % 0x10 == xlsb / 0x10
  {
    var r := Raw20(msb, lsb, xlsb);
    assert r == msb * 0x1000 + (lsb * 0x10 + xlsb / 0x10);
    assert r / 0x10 == msb * 0x100 + lsb;
  }

  /** Every 20-bit code is produced by some register contents. */
  lemma Raw20Onto(r: nat, nibble: uint8)
    requires r < 0x10_0000 && nibble < 0x10
    ensures Raw20(r / 0x1000, r / 0x10 % 0x100, r % 0x10 * 0x10 + nibble) == r
  {
    var q, lo := r / 0x10, r % 0x10;
    var hi, mid := q / 0x100, q % 0x100;
    assert r == 0x10 * q + lo && q == 0x100 * hi + mid;
    assert r == 0x1000 * hi + (0x10 * mid + lo);
    DivUnique(r, 0x1000, hi, 0x10 * mid + lo);
    DivUnique(lo * 0x10 + nibble, 0x10, lo, nibble);
  }

  // ---------------------------------------------------------------------
  // Compensation (datasheet section 3.11.3 and 8.2), int32 arithmetic.
  // ---------------------------------------------------------------------

  /** `t_fine = var1 + var2` of `BMP280_Compensate_T_int32`, lines 212-219. */
  function FineTemperature(adcT: int32, c: CalibData): int32
  {
    var var1 := Asr(Mul32(Sub32(Asr(adcT, 3), c.digT1 * 2), c.digT2), 11);
    var d := Sub32(Asr(adcT, 4), c.digT1);
    var var2 := Asr(Mul32(Asr(Mul32(d, d), 12), c.digT3), 14);
    Add32(var1, var2)
  }

  /** `(t_fine * 5 + 128) >> 8`: the temperature in hundredths of a degree. */
  function TemperatureFromFine(tFine: int32): int32
  {
    Asr(Add32(Mul32(tFine, 5), 128), 8)
  }

  /** The returned temperature is t_fine * 5/256, rounded to the nearest
      hundredth of a degree (halves upward), whenever `t_fine * 5 + 128`
      fits in an int32 (|t_fine| below about 4.3e8, far beyond any sensor
      reading). */
  lemma {:induction false} TemperatureRounds(tFine: int32)
    requires InInt32(tFine * 5 + 128)
    ensures var t := TemperatureFromFine(tFine);
      256 * t - 128 <= 5 * tFine < 256 * t + 128
  {
    assert Pow2(8) == 256;
    AsrSpec(Add32(Mul32(tFine, 5), 128), 8);
  }

  /** The scaled denominator `var1` of `BMP280_Compensate_P_int32` as it
      stands at the guard, line 244 (lines 232 and 238-242). */
  function PressureDenominator(tFine: int32, c: CalibData): int32
  {
    var v := Sub32(Asr(tFine, 1), 64000);
    var sq := Mul32(Asr(v, 2), Asr(v, 2));
    var var1 := Asr(Add32(Asr(Mul32(c.digP3, Asr(sq, 13)), 3), Asr(Mul32(c.digP2, v), 1)), 18);
    Asr(Mul32(Add32(32768, var1), c.digP1), 15)
  }

  /** `var2` as it stands after line 236 (lines 232-236). */
  function PressureOffset(tFine: int32, c: CalibData): int32
  {
    var v := Sub32(Asr(tFine, 1), 64000);
    var sq := Mul32(Asr(v, 2), Asr(v, 2));
    var var2 := Mul32(Asr(sq, 11), c.digP6);
    var var2' := Add32(var2, Shl32(Mul32(v, c.digP5), 1));
    Add32(Asr(var2', 2), Shl32(c.digP4, 16))
  }

  /** Lines 252-259: divide by the denominator and double, choosing the order
      so that the doubling stays inside uint32. */
  function ScaledQuotient(p: uint32, d: uint32): uint32
    requires d != 0
  {
    if p < 0x8000_0000 then U32(p * 2) / d else U32((p / d) * 2)
  }

  /** Both branches compute about 2p/d: the first exactly, because `p << 1`
      still fits; the second as twice the truncated quotient, which is 2p/d
      or one below it, and fits in uint32 unless the denominator is 1. */
  lemma ScaledQuotientSpec(p: uint32, d: uint32)
    requires d != 0
    ensures p < 0x8000_0000 ==> p * 2 < 0x1_0000_0000 && ScaledQuotient(p, d) == (p * 2) / d
    ensures p >= 0x8000_0000 && d >= 2 ==>
      ScaledQuotient(p, d) == (p / d) * 2 && (p * 2) / d - 1 <= ScaledQuotient(p, d) <= (p * 2) / d
    ensures p >= 0x8000_0000 && d == 1 ==> ScaledQuotient(p, d) == p * 2 - 0x1_0000_0000
  {
    if p < 0x8000_0000 {
    } else if d >= 2 {
      HalvedQuotient(p, d);
    } else {
      assert p / d == p;
    }
  }

  /** Twice the truncated quotient is within one of the quotient of twice
      the dividend, and stays below 2^32 when the divisor is at least 2. */
  lemma HalvedQuotient(p: uint32, d: uint32)
    requires d >= 2
    ensures (p / d) * 2 < 0x1_0000_0000
    ensures (p * 2) / d - 1 <= (p / d) * 2 <= (p * 2) / d
  {
    var q, m := p / d, p % d;
    assert p == d * q + m && 0 <= m < d;
    assert q * 2 <= p by {
      TwiceQuotient(p, d, q, m);
    }
    assert (p * 2) / d - 1 <= q * 2 <= (p * 2) / d by {
      DoubledQuotient(p, d, q, m);
    }
  }

  /** A quotient by at least 2 is at most half the dividend. */
  lemma TwiceQuotient(p: int, d: int, q: int, m: int)
    requires d >= 2 && q >= 0 && m >= 0 && p == d * q + m
    ensures q * 2 <= p
  {
    if q >= 1 {
      MulGrows(q, d - 1);
      assert d * q == q + q * (d - 1);
    }
  }

  /** Doubling the dividend doubles the quotient, plus one when the
      doubled remainder reaches the divisor. */
  lemma DoubledQuotient(p: int, d: int, q: int, m: int)
    requires d >= 1 && 0 <= m < d && p == d * q + m
    ensures (p * 2) / d - 1 <= q * 2 <= (p * 2) / d
  {
    assert p * 2 == d * (2 * q) + 2 * m;
    if 2 * m < d {
      DivUnique(p * 2, d, 2 * q, 2 * m);
    } else {
      assert p * 2 == d * (2 * q + 1) + (2 * m - d);
      DivUnique(p * 2, d, 2 * q + 1, 2 * m - d);
    }
  }

  /** Line 250: `((uint32)(1048576 - adc_P) - (var2 >> 12)) * 3125u`, all in
      uint32 (the int32 `var2 >> 12` is converted to uint32 first). */
  function PressureNumerator(adcP: int32, var2: int32): uint32
  {
    var diff := U32(U32(Sub32(1048576, adcP)) - Asr(var2, 12));
    U32(diff * 3125)
  }

  /** Lines 261-266: the second-order correction with P7..P9. */
  function PressureCorrected(p: uint32, c: CalibData): uint32
  {
    var square := U32((p / 8) * (p / 8)) / 8192;
    var var1 := Asr(Mul32(c.digP9, Wrap32(square)), 12);
    var var2 := Asr(Mul32(Wrap32(p / 4), c.digP8), 13);
    U32(Add32(Wrap32(p), Asr(Add32(Add32(var1, var2), c.digP7), 4)))
  }

  /** The pressure in pascals, lines 232-266: depends on `adc_P`, `t_fine`
      and P1..P9 only, and is 0, with no division performed, when the scaled
      denominator is 0. */
  function Pressure(adcP: int32, tFine: int32, c: CalibData): (r: uint32)
    ensures PressureDenominator(tFine, c) == 0 ==> r == 0
  {
    var var1 := PressureDenominator(tFine, c);
    if var1 == 0 then 0
    else
      U32OfNonZero(var1);
      var p := ScaledQuotient(PressureNumerator(adcP, PressureOffset(tFine, c)), U32(var1));
      PressureCorrected(p, c)
  }

  lemma U32OfNonZero(x: int32)
    requires x != 0
    ensures U32(x) != 0
  {
  }

  /** The pressure does not depend on the temperature coefficients. */
  lemma PressureIgnoresTemperatureCoefficients(adcP: int32, tFine: int32, c: CalibData,
                                               t1: uint16, t2: int16, t3: int16)
    ensures Pressure(adcP, tFine, c.(digT1 := t1, digT2 := t2, digT3 := t3))
         == Pressure(adcP, tFine, c)
  {
  }

  /** The calibration of the worked example in section 3.12 of the datasheet. */
  const EXAMPLE_CALIB := CalibData(27504, 26435, -1000, 36477, -10685, 3024, 2855, 140, -7, 15500, -14600, 6000)

  /** The datasheet's worked example: adc_T 519888 gives t_fine 128422 and
      25.08 degrees. */
  lemma DatasheetTemperatureExample()
    ensures FineTemperature(519888, EXAMPLE_CALIB) == 128422
    ensures TemperatureFromFine(128422) == 2508
  {
    AsrOf(519888, 3, 64986);
    AsrOf(519888, 4, 32493);
    assert Mul32(Sub32(64986, 55008), 26435) == 263768430;
    AsrOf(263768430, 11, 128793);
    assert Mul32(Sub32(32493, 27504), Sub32(32493, 27504)) == 24890121;
    AsrOf(24890121, 12, 6076);
    assert Mul32(6076, -1000) == -6076000;
    AsrOf(-6076000, 14, -371);
    assert Add32(Mul32(128422, 5), 128) == 642238;
    AsrOf(642238, 8, 2508);
  }

  /** The temperature-dependent terms shared by both pressure stages. */
  lemma ExampleTemperatureTerms()
    ensures Sub32(Asr(128422, 1), 64000) == 211
    ensures Mul32(Asr(211, 2), Asr(211, 2)) == 2704
  {
    AsrOf(128422, 1, 64211);
    AsrOf(211, 2, 52);
  }

  lemma ExampleDenominator()
    ensures PressureDenominator(128422, EXAMPLE_CALIB) == 36471
  {
    ExampleTemperatureTerms();
    AsrOf(2704, 13, 0);
    AsrOf(0, 3, 0);
    assert Mul32(-10685, 211) == -2254535;
    AsrOf(-2254535, 1, -1127268);
    ExampleDenominatorTail();
  }

  lemma ExampleDenominatorTail()
    ensures Asr(Mul32(Add32(32768, Asr(Add32(0, -1127268), 18)), 36477), 15) == 36471
  {
    AsrOf(-1127268, 18, -5);
    assert Mul32(Add32(32768, -5), 36477) == 1195095951;
    AsrOf(1195095951, 15, 36471);
  }

  lemma ExampleOffset()
    ensures PressureOffset(128422, EXAMPLE_CALIB) == 187120048
  {
    ExampleTemperatureTerms();
    AsrOf(2704, 11, 1);
    assert Shl32(Mul32(211, 140), 1) == 59080;
    AsrOf(59073, 2, 14768);
    assert Shl32(2855, 16) == 187105280;
  }

  lemma ExampleCorrection()
    ensures PressureCorrected(100721, EXAMPLE_CALIB) == 100656
  {
    assert 100721 / 8 == 12590;
    assert U32(12590 * 12590) / 8192 == 19349;
    assert Mul32(6000, Wrap32(19349)) == 116094000;
    AsrOf(116094000, 12, 28343);
    assert 100721 / 4 == 25180;
    assert Mul32(Wrap32(25180), -14600) == -367628000;
    AsrOf(-367628000, 13, -44877);
    assert Add32(Add32(28343, -44877), 15500) == -1034;
    AsrOf(-1034, 4, -65);
    assert Add32(Wrap32(100721), -65) == 100656;
  }

  lemma ExampleQuotient()
    ensures ScaledQuotient(PressureNumerator(415148, 187120048), U32(36471)) == 100721
  {
    AsrOf(187120048, 12, 45683);
    assert U32(Sub32(1048576, 415148)) == 633428;
    assert U32(U32(633428 - 45683) * 3125) == 1836703125;
    assert U32(1836703125 * 2) / 36471 == 100721;
  }

  /** The 32-bit pressure routine on the same example: adc_P 415148 with
      t_fine 128422 gives 100656 Pa (the floating-point routine of the
      datasheet gives 100653.27 Pa). */
  lemma DatasheetPressureExample()
    ensures PressureDenominator(128422, EXAMPLE_CALIB) == 36471
    ensures Pressure(415148, 128422, EXAMPLE_CALIB) == 100656
  {
    ExampleDenominator();
    ExampleOffset();
    ExampleQuotient();
    ExampleCorrection();
  }

  /** `BMP280_HandleTypedef`: the I2C address, the trimming coefficients
      (filled once at initialisation) and `t_fine`, the only state linking
      a temperature compensation to the pressure compensation after it. */
  class Handle {
    var i2cAddr: uint8
    var calib: CalibData
    var tFine: int32

    /** A zero-initialised static handle. */
    constructor ()
      ensures i2cAddr == 0 && tFine == 0 && calib == CalibData(0, 0, 0, 0, 0, 0, 0, 0, 0, 0, 0, 0)
    {
      i2cAddr := 0;
      calib := CalibData(0, 0, 0, 0, 0, 0, 0, 0, 0, 0, 0, 0);
      tFine := 0;
    }

    /** `BMP280_ReadCalibration`: `transfer` and `block` are what the HAL's
        26-byte read of registers 0x88..0xA1 returned. On failure the error
        is returned and `calib` is left untouched. */
    method ReadCalibration(transfer: HalStatus, block: seq<uint8>) returns (status: HalStatus)
      requires |block| == CALIB_LENGTH
      modifies this`calib
      ensures status == transfer
      ensures calib == if transfer == Ok then DecodeCalib(block) else old(calib)
    {
      if transfer != Ok {
        return transfer;
      }
      calib := DecodeCalib(block);
      return Ok;
    }

    /** `BMP280_Init`: store the address, clear `t_fine`, then read the chip
        id, the trimming block and write/read back CTRL_MEAS, stopping at the
        first transfer that fails. The id and the read-back value are not
        compared with what is expected. */
    method Init(addr: uint8, idRead: HalStatus, calibRead: HalStatus, block: seq<uint8>,
                configWrite: HalStatus, configReadBack: HalStatus) returns (status: HalStatus)
      requires |block| == CALIB_LENGTH
      modifies this
      ensures i2cAddr == addr && tFine == 0
      ensures status == (if idRead != Ok then idRead
                         else if calibRead != Ok then calibRead
                         else if configWrite != Ok then configWrite
                         else configReadBack)
      ensures calib == if idRead == Ok && calibRead == Ok then DecodeCalib(block) else old(calib)
    {
      i2cAddr := addr;
      tFine := 0;
      if idRead != Ok {
        return idRead;
      }
      status := ReadCalibration(calibRead, block);
      if status != Ok {
        return status;
      }
      if configWrite != Ok {
        return configWrite;
      }
      if configReadBack != Ok {
        return configReadBack;
      }
      return Ok;
    }

    /** `BMP280_ReadRaw`: `transfer` and `data` are the HAL's 6-byte read from
        register 0xF7 (press msb, lsb, xlsb, then temp msb, lsb, xlsb). On
        failure both outputs are 0 and the error is returned. */
    method ReadRaw(transfer: HalStatus, data: seq<uint8>)
        returns (status: HalStatus, rawTemp: uint32, rawPress: uint32)
      requires |data| == 6
      ensures status == transfer
      ensures transfer != Ok ==> rawTemp == 0 && rawPress == 0
      ensures transfer == Ok ==>
        rawPress == Raw20(data[0], data[1], data[2]) && rawTemp == Raw20(data[3], data[4], data[5])
      ensures rawTemp < 0x10_0000 && rawPress < 0x10_0000
    {
      if transfer != Ok {
        rawTemp, rawPress := 0, 0;
        return transfer, rawTemp, rawPress;
      }
      rawPress := Raw20(data[0], data[1], data[2]);
      rawTemp := Raw20(data[3], data[4], data[5]);
      return Ok, rawTemp, rawPress;
    }

    /** `BMP280_Compensate_T_int32`: returns hundredths of a degree and leaves
        the fine temperature in `tFine`; no other field changes. */
    method CompensateT(adcT: int32) returns (t: int32)
      modifies this`tFine
      ensures tFine == FineTemperature(adcT, calib)
      ensures t == TemperatureFromFine(tFine)
    {
      tFine := FineTemperature(adcT, calib);
      t := TemperatureFromFine(tFine);
    }

    /** `BMP280_Compensate_P_int32`: reads `tFine`, writes nothing. */
    method CompensateP(adcP: int32) returns (p: uint32)
      ensures p == Pressure(adcP, tFine, calib)
      ensures PressureDenominator(tFine, calib) == 0 ==> p == 0
    {
      p := Pressure(adcP, tFine, calib);
    }
  }
}
