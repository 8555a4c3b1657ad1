/** The proportional valve controller (`valve_control.c`): the temperature
    error from 25.00 degrees, scaled by the gain K, gives a valve angle in
    whole degrees, saturated to +-90 and sent to the stepper board only when
    it differs from the last angle sent. */
module ValveControl {
  import opened CInt
  import opened Hal
  import opened Wrappers
  import StepperCan

  /** The reference temperature, 25.00 degrees, in hundredths. */
  const T_REF_CENTI: int32 := 2500
  /** The valve's mechanical range is [-90, 90] degrees. */
  const ANGLE_LIMIT_DEG: int32 := 90
  /** The initial `s_last_cmd`: outside the range, so the first update sends. */
  const NO_COMMAND: int32 := 9999
  /** The initial `s_last_angle`, which nothing reads. */
  const NO_ANGLE: int32 := 999

  /** `angle = (k * (t - 2500)) / 10000` in int32 arithmetic (truncating
      division), then saturated to [-90, 90]. */
  function ControlAngle(tempCenti: int32, kCenti: int32): (a: int32)
    ensures -ANGLE_LIMIT_DEG <= a <= ANGLE_LIMIT_DEG
  {
    var err := Sub32(tempCenti, T_REF_CENTI);
    var prod := Mul32(kCenti, err);
    var raw := CDiv(prod, 10000);
    if raw > ANGLE_LIMIT_DEG then ANGLE_LIMIT_DEG
    else if raw < -ANGLE_LIMIT_DEG then -ANGLE_LIMIT_DEG
    else raw
  }

  /** Within the range where the int32 arithmetic does not overflow, the
      angle is K times the error in degrees, truncated toward zero and then
      saturated: the angle is +90 exactly when `k * (t - 2500)` reaches
      900000 and -90 exactly when it reaches -900000; in between, `a * 10000`
      lies within 10000 of `k * (t - 2500)` on the side of zero. */
  lemma ControlLaw(tempCenti: int32, kCenti: int32)
    requires InInt32(kCenti * (tempCenti - T_REF_CENTI))
    ensures var p := kCenti * (tempCenti - T_REF_CENTI);
      var a := ControlAngle(tempCenti, kCenti);
      (a == ANGLE_LIMIT_DEG <==> p >= 900000)
      && (a == -ANGLE_LIMIT_DEG <==> p <= -900000)
      && (p >= 0 ==> a >= 0 && (a < ANGLE_LIMIT_DEG ==> a * 10000 <= p < (a + 1) * 10000))
      && (p < 0 ==> a <= 0 && (a > -ANGLE_LIMIT_DEG ==> (a - 1) * 10000 < p <= a * 10000))
  {
    var p := kCenti * (tempCenti - T_REF_CENTI);
    assert Mul32(kCenti, Sub32(tempCenti, T_REF_CENTI)) == p by {
      ErrorFits(tempCenti, kCenti);
    }
    QuotientSide(p);
  }

  /** The truncated quotient by 10000 has the sign of its dividend, and
      reaches 90 in magnitude exactly when the dividend reaches 900000. */
  lemma QuotientSide(p: int)
    ensures var q := CDiv(p, 10000);
      (q >= ANGLE_LIMIT_DEG <==> p >= 900000)
      && (q <= -ANGLE_LIMIT_DEG <==> p <= -900000)
      && (p >= 0 ==> q >= 0 && q * 10000 <= p < (q + 1) * 10000)
      && (p < 0 ==> q <= 0 && (q - 1) * 10000 < p <= q * 10000)
  {
    CDivModSpec(p, 10000);
  }

  /** With a product in range, the error itself is in range (K is not 0). */
  lemma ErrorFits(tempCenti: int32, kCenti: int32)
    requires InInt32(kCenti * (tempCenti - T_REF_CENTI))
    ensures kCenti != 0 ==> InInt32(tempCenti - T_REF_CENTI)
    ensures InInt32(tempCenti - T_REF_CENTI) ==> Sub32(tempCenti, T_REF_CENTI) == tempCenti - T_REF_CENTI
    ensures Mul32(kCenti, Sub32(tempCenti, T_REF_CENTI)) == kCenti * (tempCenti - T_REF_CENTI)
  {
    var e := tempCenti - T_REF_CENTI;
    if kCenti != 0 && e < 0 {
      ScaledNegative(kCenti, e);
    }
  }

  /** Scaling a negative value by a non-zero factor does not bring it closer to 0. */
  lemma ScaledNegative(k: int, e: int)
    requires k != 0 && e < 0
    ensures k * e <= e || k * e >= -e
  {
    if k > 0 {
      MulGrows(-e, k);
      assert k * e == -((-e) * k);
    } else {
      MulGrows(-e, -k);
      assert k * e == (-e) * (-k);
    }
  }

  /** The worked value: 26.00 degrees with K = 5.00 opens the valve by 5. */
  lemma ControlExample()
    ensures ControlAngle(2600, 500) == 5
  {
    assert Sub32(2600, T_REF_CENTI) == 100;
    assert Mul32(500, 100) == 50000;
    assert CDiv(50000, 10000) == 5;
  }

  /** The stepper command for a signed angle: its magnitude and sign. */
  function AngleCommand(a: int32): (c: StepperCan.Command)
    requires -ANGLE_LIMIT_DEG <= a <= ANGLE_LIMIT_DEG
  {
    if a < 0 then StepperCan.Angle(-a, StepperCan.Negative) else StepperCan.Angle(a, StepperCan.Positive)
  }

  /** The signed angle a stepper angle command stands for. */
  function SignedDegrees(c: StepperCan.Command): int
    requires c.Angle?
  {
    if c.sign == StepperCan.Negative then -(c.degrees as int) else c.degrees
  }

  /** Every saturated angle reaches the board intact: its magnitude stays
      below the 180-degree clamp, and the board reads back the same signed
      angle. */
  lemma AngleCommandRoundTrip(a: int32, b: StepperCan.BaseId)
    requires -ANGLE_LIMIT_DEG <= a <= ANGLE_LIMIT_DEG
    ensures var c := AngleCommand(a);
      StepperCan.Decode(StepperCan.Encode(c, StepperCan.BaseValue(b)), StepperCan.BaseValue(b)) == Some(c)
      && SignedDegrees(c) == a
  {
    StepperCan.DecodeEncode(AngleCommand(a), b);
  }

  /** One update from the last command sent: the new last command and the
      angle sent, if any. Nothing is sent when the angle equals the last one. */
  function Step(lastCmd: int32, tempCenti: int32, kCenti: int32): (r: (int32, Option<int32>))
    ensures r.1 == None <==> ControlAngle(tempCenti, kCenti) == lastCmd
    ensures r.1 != None ==> r.1 == Some(r.0) && -ANGLE_LIMIT_DEG <= r.0 <= ANGLE_LIMIT_DEG
    ensures r.1 == None ==> r.0 == lastCmd
  {
    var a := ControlAngle(tempCenti, kCenti);
    if a == lastCmd then (lastCmd, None) else (a, Some(a))
  }

  /** After any update, the last command is the angle for those inputs; so
      repeating the same inputs sends nothing, and two consecutive updates
      with the same temperature and gain send at most one frame. */
  lemma RepeatSendsNothing(lastCmd: int32, tempCenti: int32, kCenti: int32)
    ensures var (last1, _) := Step(lastCmd, tempCenti, kCenti);
      last1 == ControlAngle(tempCenti, kCenti)
      && Step(last1, tempCenti, kCenti) == (last1, None)
  {
  }

  /** The initial last command lies outside [-90, 90], so the first update
      always sends its angle. */
  lemma FirstUpdateSends(tempCenti: int32, kCenti: int32)
    ensures Step(NO_COMMAND, tempCenti, kCenti) == (ControlAngle(tempCenti, kCenti), Some(ControlAngle(tempCenti, kCenti)))
  {
  }

  /** The controller's state `s_last_angle` / `s_last_cmd`, and the stepper
      encoder it drives. */
  class Controller {
    var lastAngle: int32
    var lastCmd: int32
    const bus: StepperCan.Encoder

    constructor (bus: StepperCan.Encoder)
      ensures this.bus == bus && lastAngle == NO_ANGLE && lastCmd == NO_COMMAND
    {
      this.bus := bus;
      lastAngle := NO_ANGLE;
      lastCmd := NO_COMMAND;
    }

    /** `ValveControl_Init`: resets only `s_last_angle`, which nothing reads;
        the last command is kept, so it does not force a resend. */
    method Init()
      modifies this`lastAngle
      ensures lastAngle == NO_ANGLE
    {
      lastAngle := NO_ANGLE;
    }

    /** `ValveControl_Update`: `transfer` is the status of the CAN send,
        which is discarded; the last command is recorded before sending. */
    method Update(tempCenti: int32, kCenti: int32, transfer: HalStatus)
      requires bus.Valid()
      modifies this`lastCmd, bus`sent
      ensures lastCmd == Step(old(lastCmd), tempCenti, kCenti).0
      ensures bus.sent == old(bus.sent) + match Step(old(lastCmd), tempCenti, kCenti).1
        case None => []
        case Some(a) => [StepperCan.Encode(AngleCommand(a), bus.baseId)]
    {
      var angle := ControlAngle(tempCenti, kCenti);
      if angle == lastCmd {
        return;
      }
      lastCmd := angle;
      if angle < 0 {
        var _ := bus.SetAngle(-angle, StepperCan.Negative, transfer);
      } else {
        var _ := bus.SetAngle(angle, StepperCan.Positive, transfer);
      }
    }
  }
}
