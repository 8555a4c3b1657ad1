/** The MPU9250 driver: decoding of the 14-byte accelerometer / temperature /
    gyroscope burst into six signed axes, and the fixed-point conversions to
    milli-g and milli-degrees per second. */
module Mpu9250 {
  import opened CInt
  import opened Hal

  /** The 7-bit address 0x68 shifted into the HAL's 8-bit form. */
  const I2C_ADDR: uint8 := 0x68 * 2
  const REG_ACCEL_XOUT_H: uint8 := 0x3B
  const REG_WHO_AM_I: uint8 := 0x75
  const WHO_AM_I_VALUE: uint8 := 0x71
  /** LSB per degree per second at the +-250 dps full scale. */
  const GYRO_SENS_250DPS_LSB: int := 131
  /** LSB per g at the +-2 g full scale. */
  const ACCEL_SENS_2G_LSB: int := 16384
  /** Bytes read from ACCEL_XOUT_H: 6 accelerometer, 2 temperature, 6 gyroscope. */
  const BURST_LENGTH: nat := 14

  /** `(int16_t)((hi << 8) | lo)`: a big-endian two's-complement word. */
  function BigEndianInt16(hi: uint8, lo: uint8): (r: int16)
  {
    AsInt16(hi * 0x100 + lo)
  }

  /** The two bytes the sensor sends for `v`, most significant first. */
  function BigEndianBytes(v: int16): (b: seq<uint8>)
    ensures |b| == 2
  {
    var u := AsUint16(v);
    [u / 0x100, u % 0x100]
  }

  /** Decoding the bytes of any value gives the value back. */
  lemma BigEndianRoundTrip(v: int16)
    ensures BigEndianInt16(BigEndianBytes(v)[0], BigEndianBytes(v)[1]) == v
  {
    var u := AsUint16(v);
    assert (u / 0x100) * 0x100 + u % 0x100 == u;
  }

  /** Every pair of bytes is the encoding of the value it decodes to. */
  lemma BigEndianBytesOfDecode(hi: uint8, lo: uint8)
    ensures BigEndianBytes(BigEndianInt16(hi, lo)) == [hi, lo]
  {
    var u := hi * 0x100 + lo;
    AsUint16OfAsInt16(u);
    assert u / 0x100 == hi && u % 0x100 == lo;
  }

  /** `mpu9250_raw_data_t`: six signed axes, filled in place by `ReadRaw`. */
  class RawData {
    var ax: int16
    var ay: int16
    var az: int16
    var gx: int16
    var gy: int16
    var gz: int16

    constructor ()
      ensures ax == 0 && ay == 0 && az == 0 && gx == 0 && gy == 0 && gz == 0
    {
      ax, ay, az, gx, gy, gz := 0, 0, 0, 0, 0, 0;
    }

    /** The six axes as a value. */
    function Axes(): (a: Sample)
      reads this
    {
      Sample(ax, ay, az, gx, gy, gz)
    }
  }

  datatype Sample = Sample(ax: int16, ay: int16, az: int16, gx: int16, gy: int16, gz: int16)

  /** The sample a 14-byte burst holds; bytes 6 and 7 (the die temperature)
      are not used. */
  function DecodeBurst(buf: seq<uint8>): Sample
    requires |buf| == BURST_LENGTH
  {
    Sample(BigEndianInt16(buf[0], buf[1]), BigEndianInt16(buf[2], buf[3]),
           BigEndianInt16(buf[4], buf[5]), BigEndianInt16(buf[8], buf[9]),
           BigEndianInt16(buf[10], buf[11]), BigEndianInt16(buf[12], buf[13]))
  }

  /** The burst the sensor sends for a sample with die temperature bytes `temp`. */
  function EncodeBurst(s: Sample, temp: seq<uint8>): (buf: seq<uint8>)
    requires |temp| == 2
    ensures |buf| == BURST_LENGTH
  {
    BigEndianBytes(s.ax) + BigEndianBytes(s.ay) + BigEndianBytes(s.az) + temp
      + BigEndianBytes(s.gx) + BigEndianBytes(s.gy) + BigEndianBytes(s.gz)
  }

  /** Decoding recovers every axis, whatever the temperature bytes are. */
  lemma DecodeEncodeBurst(s: Sample, temp: seq<uint8>)
    requires |temp| == 2
    ensures DecodeBurst(EncodeBurst(s, temp)) == s
  {
    BigEndianRoundTrip(s.ax);
    BigEndianRoundTrip(s.ay);
    BigEndianRoundTrip(s.az);
    BigEndianRoundTrip(s.gx);
    BigEndianRoundTrip(s.gy);
    BigEndianRoundTrip(s.gz);
  }

  /** Re-encoding a decoded burst reproduces it, apart from the ignored bytes 6 and 7. */
  lemma EncodeDecodeBurst(buf: seq<uint8>)
    requires |buf| == BURST_LENGTH
    ensures EncodeBurst(DecodeBurst(buf), buf[6..8]) == buf
  {
    BigEndianBytesOfDecode(buf[0], buf[1]);
    BigEndianBytesOfDecode(buf[2], buf[3]);
    BigEndianBytesOfDecode(buf[4], buf[5]);
    BigEndianBytesOfDecode(buf[8], buf[9]);
    BigEndianBytesOfDecode(buf[10], buf[11]);
    BigEndianBytesOfDecode(buf[12], buf[13]);
    assert buf == buf[0..2] + buf[2..4] + buf[4..6] + buf[6..8] + buf[8..10] + buf[10..12] + buf[12..14];
  }

  /** `mpu9250_read_raw`: `transfer` and `buf` are what the HAL's 14-byte
      read from ACCEL_XOUT_H returned. A NULL `data` is refused before the
      bus is used; a failed read returns its status and leaves `data` as it
      was; otherwise the six axes are decoded into `data`. */
  method ReadRaw(data: RawData?, transfer: HalStatus, buf: seq<uint8>) returns (status: HalStatus)
    requires |buf| == BURST_LENGTH
    modifies data
    ensures data == null ==> status == Error
    ensures data != null && transfer != Ok ==> status == transfer && data.Axes() == old(data.Axes())
    ensures data != null && transfer == Ok ==> status == Ok && data.Axes() == DecodeBurst(buf)
  {
    if data == null {
      return Error;
    }
    if transfer != Ok {
      return transfer;
    }
    data.ax := BigEndianInt16(buf[0], buf[1]);
    data.ay := BigEndianInt16(buf[2], buf[3]);
    data.az := BigEndianInt16(buf[4], buf[5]);
    data.gx := BigEndianInt16(buf[8], buf[9]);
    data.gy := BigEndianInt16(buf[10], buf[11]);
    data.gz := BigEndianInt16(buf[12], buf[13]);
    status := Ok;
  }

  /** `raw * 1000 / 16384` in int32: the acceleration in milli-g, truncated
      toward zero. */
  function AccelMg(raw: int16): (mg: int32)
  {
    CDiv(raw * 1000, ACCEL_SENS_2G_LSB)
  }

  /** `raw * 1000 / 131` in int32: the rotation rate in milli-degrees per
      second, truncated toward zero. */
  function GyroMdps(raw: int16): (mdps: int32)
  {
    CDiv(raw * 1000, GYRO_SENS_250DPS_LSB)
  }

  /** The conversion is `raw / sens` in thousandths, truncated toward zero:
      `mg * sens` lies within one `sens` of `raw * 1000`, on the side of 0. */
  lemma ConversionTruncates(raw: int16, sens: int, out: int)
    requires sens == ACCEL_SENS_2G_LSB || sens == GYRO_SENS_250DPS_LSB
    requires out == CDiv(raw * 1000, sens)
    ensures raw >= 0 ==> out * sens <= raw * 1000 < (out + 1) * sens
    ensures raw < 0 ==> (out - 1) * sens < raw * 1000 <= out * sens
  {
    CDivModSpec(raw * 1000, sens);
  }

  /** Full scale: +-2 g reads as -2000..1999 mg, with 16384 LSB giving exactly 1 g. */
  lemma AccelRange(raw: int16)
    ensures -2000 <= AccelMg(raw) <= 1999
    ensures AccelMg(16384) == 1000 && AccelMg(-16384) == -1000
  {
    ConversionTruncates(raw, ACCEL_SENS_2G_LSB, AccelMg(raw));
  }

  /** Full scale: +-250 dps reads as -250137..250129 mdps, with 131 LSB giving exactly 1 dps. */
  lemma GyroRange(raw: int16)
    ensures -250137 <= GyroMdps(raw) <= 250129
    ensures GyroMdps(131) == 1000 && GyroMdps(-131) == -1000
  {
    ConversionTruncates(raw, GYRO_SENS_250DPS_LSB, GyroMdps(raw));
  }

  /** An `int32_t` out-parameter. */
  class Int32Cell {
    var value: int32
    constructor (v: int32)
      ensures value == v
    {
      value := v;
    }
  }

  /** `mpu9250_convert_accel_mg`: nothing is written if any pointer is NULL;
      otherwise X, Y and Z are written in that order, so when two out
      pointers alias the later axis wins. */
  method ConvertAccelMg(raw: RawData?, x: Int32Cell?, y: Int32Cell?, z: Int32Cell?)
    modifies x, y, z
    ensures raw == null || x == null || y == null || z == null ==>
      (x != null ==> x.value == old(x.value)) && (y != null ==> y.value == old(y.value))
      && (z != null ==> z.value == old(z.value))
    ensures raw != null && x != null && y != null && z != null ==>
      z.value == AccelMg(raw.az)
      && y.value == (if y == z then AccelMg(raw.az) else AccelMg(raw.ay))
      && x.value == (if x == z then AccelMg(raw.az) else if x == y then AccelMg(raw.ay) else AccelMg(raw.ax))
  {
    if raw == null || x == null || y == null || z == null {
      return;
    }
    x.value := AccelMg(raw.ax);
    y.value := AccelMg(raw.ay);
    z.value := AccelMg(raw.az);
  }

  /** `mpu9250_convert_gyro_mdps`, with the same NULL and aliasing behaviour. */
  method ConvertGyroMdps(raw: RawData?, x: Int32Cell?, y: Int32Cell?, z: Int32Cell?)
    modifies x, y, z
    ensures raw == null || x == null || y == null || z == null ==>
      (x != null ==> x.value == old(x.value)) && (y != null ==> y.value == old(y.value))
      && (z != null ==> z.value == old(z.value))
    ensures raw != null && x != null && y != null && z != null ==>
      z.value == GyroMdps(raw.gz)
      && y.value == (if y == z then GyroMdps(raw.gz) else GyroMdps(raw.gy))
      && x.value == (if x == z then GyroMdps(raw.gz) else if x == y then GyroMdps(raw.gy) else GyroMdps(raw.gx))
  {
    if raw == null || x == null || y == null || z == null {
      return;
    }
    x.value := GyroMdps(raw.gx);
    y.value := GyroMdps(raw.gy);
    z.value := GyroMdps(raw.gz);
  }
}
