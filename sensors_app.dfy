/** The sensor application: a BMP280 handle, an MPU9250 sample and the
    published state record (`sensors_state_t`) that the serial protocol reads. */
module SensorsApp {
  import opened CInt
  import opened Hal
  import Bmp280
  import Mpu9250

  /** `sensors_state_t`: the last compensated values. */
  class SensorsState {
    /** Temperature in hundredths of a degree Celsius. */
    var tempCenti: int32
    /** Pressure in pascals. */
    var pressPa: uint32
    /** Angle in thousandths of a degree (never computed: always 0). */
    var angleMilli: int32

    /** The static initialiser: everything 0. */
    constructor ()
      ensures tempCenti == 0 && pressPa == 0 && angleMilli == 0
    {
      tempCenti, pressPa, angleMilli := 0, 0, 0;
    }
  }

  /** The values one refresh publishes when the raw read succeeds: the
      temperature first, which leaves the fine temperature the pressure
      compensation then uses. */
  function Refreshed(adcT: int32, adcP: int32, c: Bmp280.CalibData): (r: (int32, uint32))
  {
    var tFine := Bmp280.FineTemperature(adcT, c);
    (Bmp280.TemperatureFromFine(tFine), Bmp280.Pressure(adcP, tFine, c))
  }

  /** The published pressure is the one for the temperature of the same
      sample: it does not depend on `t_fine` left over from earlier samples,
      and at the datasheet's example it is 100656 Pa at 25.08 degrees. */
  lemma RefreshedExample()
    ensures Refreshed(519888, 415148, Bmp280.EXAMPLE_CALIB) == (2508, 100656)
  {
    Bmp280.DatasheetTemperatureExample();
    Bmp280.DatasheetPressureExample();
  }

  /** The module's static objects: the BMP280 handle `s_bmp`, the MPU9250
      sample `s_imu` and the state record `s_state`. */
  class App {
    const bmp: Bmp280.Handle
    const imu: Mpu9250.RawData
    const state: SensorsState

    ghost predicate Valid()
      reads this, state
    {
      state.angleMilli == 0
    }

    constructor ()
      ensures Valid() && fresh(bmp) && fresh(imu) && fresh(state)
      ensures state.tempCenti == 0 && state.pressPa == 0
    {
      bmp := new Bmp280.Handle();
      imu := new Mpu9250.RawData();
      state := new SensorsState();
    }

    /** `SensorsApp_Init`: initialise the BMP280 (the transfers of
        `BMP280_Init` are parameters), then the MPU9250, whose outcome
        `mpuInit` is a parameter because its register sequence is not
        modelled. Any failure gives HAL_ERROR, whatever status caused it. */
    method Init(idRead: HalStatus, calibRead: HalStatus, block: seq<uint8>,
                configWrite: HalStatus, configReadBack: HalStatus, mpuInit: HalStatus)
        returns (status: HalStatus)
      requires |block| == Bmp280.CALIB_LENGTH
      modifies bmp
      ensures bmp.i2cAddr == Bmp280.I2C_ADDR_DEFAULT && bmp.tFine == 0
      ensures var bmpOk := idRead == Ok && calibRead == Ok && configWrite == Ok && configReadBack == Ok;
        status == if bmpOk && mpuInit == Ok then Ok else Error
      ensures bmp.calib == if idRead == Ok && calibRead == Ok then Bmp280.DecodeCalib(block) else old(bmp.calib)
    {
      var bmpStatus := bmp.Init(Bmp280.I2C_ADDR_DEFAULT, idRead, calibRead, block, configWrite, configReadBack);
      if bmpStatus != Ok {
        return Error;
      }
      if mpuInit != Ok {
        return Error;
      }
      return Ok;
    }

    /** `SensorsApp_Update`: `bmpTransfer`/`bmpData` are the BMP280's raw
        read, `imuTransfer`/`imuData` the MPU9250's burst. Temperature and
        pressure are published only when the raw read succeeds (stale values
        stay otherwise); the angle is set to 0 when the IMU read succeeds. */
    method Update(bmpTransfer: HalStatus, bmpData: seq<uint8>, imuTransfer: HalStatus, imuData: seq<uint8>)
      requires |bmpData| == 6 && |imuData| == Mpu9250.BURST_LENGTH
      requires Valid()
      modifies bmp`tFine, imu, state
      ensures Valid()
      ensures bmpTransfer == Ok ==>
        var adcT := Bmp280.Raw20(bmpData[3], bmpData[4], bmpData[5]);
        var adcP := Bmp280.Raw20(bmpData[0], bmpData[1], bmpData[2]);
        (state.tempCenti, state.pressPa) == Refreshed(adcT, adcP, bmp.calib)
        && bmp.tFine == Bmp280.FineTemperature(adcT, bmp.calib)
      ensures bmpTransfer != Ok ==>
        state.tempCenti == old(state.tempCenti) && state.pressPa == old(state.pressPa)
        && bmp.tFine == old(bmp.tFine)
      ensures imu.Axes() == if imuTransfer == Ok then Mpu9250.DecodeBurst(imuData) else old(imu.Axes())
    {
      var status, rawTemp, rawPress := bmp.ReadRaw(bmpTransfer, bmpData);
      if status == Ok {
        var t := bmp.CompensateT(rawTemp);
        var p := bmp.CompensateP(rawPress);
        state.tempCenti := t;
        state.pressPa := p;
      }
      var imuStatus := Mpu9250.ReadRaw(imu, imuTransfer, imuData);
      if imuStatus == Ok {
        state.angleMilli := 0;
      }
    }

    /** `SensorsApp_GetState`: the same record on every call. */
    function GetState(): (s: SensorsState)
      ensures s == state
    {
      state
    }
  }
}
