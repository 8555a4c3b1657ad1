/** The earlier controller firmware, where the serial protocol lives inline
    in `main.c`: the USART1 receive interrupt fills the same 32-byte line
    buffer, the super-loop refreshes the sensors and then handles a ready
    line, and the handler answers from global variables with a 32-byte
    transmit buffer. The reply formats are those of `RpiProtocol`; the
    gain register starts at 1.00 instead of 5.00. */
module NucleoMain {
  import opened CInt
  import opened Hal
  import opened Text
  import Bmp280
  import Mpu9250
  import SensorsApp
  import opened RpiProtocol

  /** `g_K_centi`'s initial value: 1.00. */
  const INITIAL_K_CENTI: int32 := 100
  /** `Protocol_HandleCommand`'s transmit buffer `tx`. */
  const TX_SIZE: nat := 32

  /** The replies to a sequence of command lines handled one after the
      other, from the gain `k`, with the sensor values fixed; and the gain
      left at the end. */
  function Session(cmds: seq<seq<char>>, temp: int32, press: uint32, angle: int32, k: int32): (r: (seq<char>, int32))
  {
    if cmds == [] then ([], k)
    else
      var (out, k') := Session(cmds[..|cmds| - 1], temp, press, angle, k);
      var c := Dispatch(cmds[|cmds| - 1]);
      (out + Reply(c, temp, press, angle, k'), KAfter(c, k'))
  }

  /** Two lines: the second is answered with the gain the first left. */
  lemma SessionOfTwo(a: seq<char>, b: seq<char>, temp: int32, press: uint32, angle: int32, k: int32)
    ensures var k1 := KAfter(Dispatch(a), k);
      Session([a, b], temp, press, angle, k)
      == (Reply(Dispatch(a), temp, press, angle, k) + Reply(Dispatch(b), temp, press, angle, k1),
          KAfter(Dispatch(b), k1))
  {
    assert [a, b][..1] == [a] && [a][..0] == [];
    var c := Dispatch(a);
    assert Session([a], temp, press, angle, k) == ([] + Reply(c, temp, press, angle, k), KAfter(c, k));
    assert [] + Reply(c, temp, press, angle, k) == Reply(c, temp, press, angle, k);
  }

  /** A session that starts with SET_K= reads back, with GET_K, the gain it
      stored, whatever the gain was before. */
  lemma SessionSetThenGet(line: seq<char>, arg: seq<char>, temp: int32, press: uint32, angle: int32, k: int32)
    requires line == "SET_K=" + arg
    ensures Session([line, "GET_K"], temp, press, angle, k) == (SET_K_OK + KReply(Atoi(arg)), Atoi(arg))
  {
    SessionOfTwo(line, "GET_K", temp, press, angle, k);
    assert Dispatch(line) == SetK(arg) by {
      DispatchCommandText(SetK(arg), []);
      assert CommandText(SetK(arg)) + [] == line;
    }
    assert Dispatch("GET_K") == GetK by {
      DispatchCommandText(GetK, []);
      assert CommandText(GetK) + [] == "GET_K";
    }
  }

  /** `atoi` of "1234". */
  lemma AtoiExample()
    ensures Atoi("1234") == 1234
  {
    assert Digits(1234) == "1234";
    AtoiOfFormat(1234, []);
    assert FormatDec(1234, 0) + [] == "1234";
  }

  /** The documented exchange: SET_K=1234 then GET_K answers SET_K=OK and
      K=12.34000, and leaves the gain at 12.34. */
  lemma SetKExample(temp: int32, press: uint32, angle: int32)
    ensures Session(["SET_K=1234", "GET_K"], temp, press, angle, INITIAL_K_CENTI)
         == ("SET_K=OK\r\nK=12.34000\r\n", 1234)
  {
    var r := Session(["SET_K=1234", "GET_K"], temp, press, angle, INITIAL_K_CENTI);
    assert r == (SET_K_OK + KReply(Atoi("1234")), Atoi("1234")) by {
      SessionSetThenGet("SET_K=1234", "1234", temp, press, angle, INITIAL_K_CENTI);
    }
    assert Atoi("1234") == 1234 by { AtoiExample(); }
    assert KReply(1234) == "K=12.34000\r\n" by { KReplyExample(); }
    SetKExampleText();
  }

  lemma SetKExampleText()
    ensures SET_K_OK + "K=12.34000\r\n" == "SET_K=OK\r\nK=12.34000\r\n"
  {
  }

  /** The angle is never anything but 0, so GET_A always answers 0.0000. */
  lemma AngleAtRest()
    ensures AngleReply(0) == "A=0.0000\r\n"
  {
    assert CDiv(0, 1000) == 0 && CMod(0, 1000) == 0;
    assert FormatDec(0, 0) == "0";
    assert FormatDec(0, 3) == "000";
  }

  /** The globals of `main.c`: the published sensor values, the gain
      register, the line buffer and its cursor and flag, the BMP280 handle
      and the MPU9250 sample. `sent` is everything transmitted on USART1. */
  class Controller {
    var tempCenti: int32
    var pressPa: uint32
    var angleMilli: int32
    var kCenti: int32
    const buf: array<char>
    var idx: nat
    var ready: bool
    var sent: seq<char>
    const bmp: Bmp280.Handle
    const imu: Mpu9250.RawData

    /** The line buffer keeps `RpiProtocol.Inv` and the angle stays 0. */
    ghost predicate Valid()
      reads this, buf
    {
      buf.Length == CMD_BUF_LEN && Inv(Buffer()) && angleMilli == 0
    }

    /** The line buffer as a value. */
    function Buffer(): LineBuffer
      reads this, buf
    {
      LineBuffer(buf[..], idx, ready)
    }

    /** The static initialisers. */
    constructor ()
      ensures Valid() && Buffer() == Initial() && fresh(buf) && fresh(bmp) && fresh(imu)
      ensures tempCenti == 0 && pressPa == 0 && kCenti == INITIAL_K_CENTI && sent == []
    {
      tempCenti, pressPa, angleMilli := 0, 0, 0;
      kCenti := INITIAL_K_CENTI;
      buf := new char[CMD_BUF_LEN](_ => NUL);
      idx, ready := 0, false;
      sent := [];
      bmp := new Bmp280.Handle();
      imu := new Mpu9250.RawData();
    }

    /** The USART1 branch of `HAL_UART_RxCpltCallback`: the same step as
        `RpiProto_OnRxByte`. The fallback NUL write at index 31 sits behind
        a test that the cursor bound always passes. */
    method RxCallback(ch: Byte)
      requires Valid()
      modifies this`idx, this`ready, buf
      ensures Valid() && Buffer() == RxStep(old(Buffer()), ch)
    {
      if ch == '\r' || ch == '\n' {
        if idx > 0 {
          if idx < CMD_BUF_LEN {
            buf[idx] := NUL;
          } else {
            assert false;
          }
          ready := true;
          idx := 0;
        }
      } else {
        if idx < CMD_BUF_LEN - 1 {
          buf[idx] := ch;
          idx := idx + 1;
        } else {
          idx := 0;
        }
      }
    }

    /** `Protocol_SendString`: always transmits on USART1. */
    method SendString(s: seq<char>)
      modifies this`sent
      ensures sent == old(sent) + s
    {
      sent := sent + s;
    }

    /** `Protocol_HandleCommand`: no NULL tests here; every line gets its
        reply, formatted into 32 bytes without being cut short. */
    method HandleCommand(cmd: seq<char>)
      modifies this`kCenti, this`sent
      ensures kCenti == KAfter(Dispatch(cmd), old(kCenti))
      ensures sent == old(sent) + Reply(Dispatch(cmd), tempCenti, pressPa, angleMilli, old(kCenti))
    {
      var c := Dispatch(cmd);
      ReplyFits(c, tempCenti, pressPa, angleMilli, kCenti);
      var tx := Snprintf(Reply(c, tempCenti, pressPa, angleMilli, kCenti), TX_SIZE);
      kCenti := KAfter(c, kCenti);
      SendString(tx);
    }

    /** `Sensors_Update`: temperature and pressure are published only when
        the raw read succeeds, temperature first; the angle is set to 0 when
        the IMU read succeeds. */
    method SensorsUpdate(bmpTransfer: HalStatus, bmpData: seq<uint8>, imuTransfer: HalStatus, imuData: seq<uint8>)
      requires |bmpData| == 6 && |imuData| == Mpu9250.BURST_LENGTH
      requires Valid()
      modifies bmp`tFine, imu, this`tempCenti, this`pressPa, this`angleMilli
      ensures Valid()
      ensures bmpTransfer == Ok ==>
        var adcT := Bmp280.Raw20(bmpData[3], bmpData[4], bmpData[5]);
        var adcP := Bmp280.Raw20(bmpData[0], bmpData[1], bmpData[2]);
        (tempCenti, pressPa) == SensorsApp.Refreshed(adcT, adcP, bmp.calib)
        && bmp.tFine == Bmp280.FineTemperature(adcT, bmp.calib)
      ensures bmpTransfer != Ok ==>
        tempCenti == old(tempCenti) && pressPa == old(pressPa) && bmp.tFine == old(bmp.tFine)
      ensures imu.Axes() == if imuTransfer == Ok then Mpu9250.DecodeBurst(imuData) else old(imu.Axes())
    {
      var status, rawTemp, rawPress := bmp.ReadRaw(bmpTransfer, bmpData);
      if status == Ok {
        var t := bmp.CompensateT(rawTemp);
        var p := bmp.CompensateP(rawPress);
        tempCenti := t;
        pressPa := p;
      }
      var imuStatus := Mpu9250.ReadRaw(imu, imuTransfer, imuData);
      if imuStatus == Ok {
        angleMilli := 0;
      }
    }

    /** The ready-flag handling of the super-loop: a ready line is taken
        (the flag is cleared first) and handled once; otherwise nothing
        happens. */
    method ServeReadyLine()
      requires Valid()
      modifies this`ready, this`kCenti, this`sent
      ensures Valid() && !ready && buf[..] == old(buf[..]) && idx == old(idx)
      ensures old(ready) ==>
        var c := Dispatch(Line(old(Buffer())));
        kCenti == KAfter(c, old(kCenti))
        && sent == old(sent) + Reply(c, tempCenti, pressPa, angleMilli, old(kCenti))
      ensures !old(ready) ==> kCenti == old(kCenti) && sent == old(sent)
    {
      if ready {
        ready := false;
        HandleCommand(CString(buf[..]));
      }
    }

    /** One pass of the super-loop: refresh the sensors, then serve a ready
        line, answering from the values just refreshed. */
    method LoopIteration(bmpTransfer: HalStatus, bmpData: seq<uint8>, imuTransfer: HalStatus, imuData: seq<uint8>)
      requires |bmpData| == 6 && |imuData| == Mpu9250.BURST_LENGTH
      requires Valid()
      modifies bmp`tFine, imu, this`tempCenti, this`pressPa, this`angleMilli
      modifies this`ready, this`kCenti, this`sent
      ensures Valid() && !ready && buf[..] == old(buf[..]) && idx == old(idx)
      ensures bmpTransfer == Ok ==>
        var adcT := Bmp280.Raw20(bmpData[3], bmpData[4], bmpData[5]);
        var adcP := Bmp280.Raw20(bmpData[0], bmpData[1], bmpData[2]);
        (tempCenti, pressPa) == SensorsApp.Refreshed(adcT, adcP, bmp.calib)
        && bmp.tFine == Bmp280.FineTemperature(adcT, bmp.calib)
      ensures bmpTransfer != Ok ==>
        tempCenti == old(tempCenti) && pressPa == old(pressPa) && bmp.tFine == old(bmp.tFine)
      ensures old(ready) ==>
        var c := Dispatch(Line(old(Buffer())));
        kCenti == KAfter(c, old(kCenti))
        && sent == old(sent) + Reply(c, tempCenti, pressPa, angleMilli, old(kCenti))
      ensures imu.Axes() == if imuTransfer == Ok then Mpu9250.DecodeBurst(imuData) else old(imu.Axes())
      ensures !old(ready) ==> kCenti == old(kCenti) && sent == old(sent)
    {
      SensorsUpdate(bmpTransfer, bmpData, imuTransfer, imuData);
      ServeReadyLine();
    }
  }
}
