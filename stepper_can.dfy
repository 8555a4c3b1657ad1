/** The CAN encoder for the stepper-motor board (`stepper_can.c`): a base
    identifier chosen by the board's two switches, and three commands, each
    sent as one standard-identifier data frame (ISO 11898-1, CAN 2.0A):
    manual move at base + 0, angle at base + 1, zero at base + 2.
    `HAL_CAN_AddTxMessage` is modelled by appending the frame to the log
    `sent`; the status it returns is a parameter. */
module StepperCan {
  import opened CInt
  import opened Hal
  import opened Wrappers

  /** `stepper_can_base_id_t`: the switch settings 00, 10, 01 and 11. */
  datatype BaseId = Base60 | Base70 | Base80 | Base90

  function BaseValue(b: BaseId): uint16
  {
    match b
    case Base60 => 0x60
    case Base70 => 0x70
    case Base80 => 0x80
    case Base90 => 0x90
  }

  /** `stepper_can_dir_t`. */
  datatype Direction = Ccw | Cw

  function DirectionCode(d: Direction): uint8
  {
    match d
    case Ccw => 0x00
    case Cw => 0x01
  }

  /** `stepper_can_sign_t`. */
  datatype Sign = Positive | Negative

  function SignCode(s: Sign): uint8
  {
    match s
    case Positive => 0x00
    case Negative => 0x01
  }

  /** Offsets of the three commands from the base identifier. */
  const MANUAL_OFFSET: nat := 0
  const ANGLE_OFFSET: nat := 1
  const ZERO_OFFSET: nat := 2
  /** The board clamps angles to this many degrees. */
  const MAX_ANGLE: uint8 := 180

  datatype IdKind = Standard | Extended
  datatype FrameKind = DataFrame | RemoteFrame

  /** The transmit header `CAN_TxHeaderTypeDef` together with the payload
      bytes the controller takes from the data pointer. */
  datatype Frame = Frame(stdId: uint16, extId: uint32, ide: IdKind, rtr: FrameKind, dlc: uint8, data: seq<uint8>)

  /** What `StepperCAN_SendStd` hands over: a standard data frame with
      extended identifier 0 and the first `dlc` bytes of `data`. */
  function StdFrame(id: uint16, data: seq<uint8>): (f: Frame)
    requires |data| <= 8
  {
    Frame(id, 0, Standard, DataFrame, |data|, data)
  }

  /** A stepper command as the board understands it. */
  datatype Command = Manual(dir: Direction, steps: uint8, speed: uint8)
                   | Angle(degrees: uint8, sign: Sign)
                   | Zero

  /** The frame each command is sent as, at base identifier `base`. */
  function Encode(c: Command, base: uint16): (f: Frame)
    requires base <= 0x90
  {
    match c
    case Manual(dir, steps, speed) => StdFrame(base + MANUAL_OFFSET, [DirectionCode(dir), steps, speed])
    case Angle(deg, sign) => StdFrame(base + ANGLE_OFFSET, [if deg > MAX_ANGLE then MAX_ANGLE else deg, SignCode(sign)])
    case Zero => StdFrame(base + ZERO_OFFSET, [])
  }

  /** The board's reading of a frame, given its base identifier: a standard
      data frame at one of the three identifiers, with the payload length
      and codes that command uses. */
  function Decode(f: Frame, base: uint16): (r: Option<Command>)
  {
    if f.ide != Standard || f.rtr != DataFrame || f.dlc != |f.data| then None
    else if f.stdId == base + MANUAL_OFFSET && |f.data| == 3 && f.data[0] <= 1 && f.data[1] > 0 && f.data[2] > 0 then
      Some(Manual(if f.data[0] == 0 then Ccw else Cw, f.data[1], f.data[2]))
    else if f.stdId == base + ANGLE_OFFSET && |f.data| == 2 && f.data[0] <= MAX_ANGLE && f.data[1] <= 1 then
      Some(Angle(f.data[0], if f.data[1] == 0 then Positive else Negative))
    else if f.stdId == base + ZERO_OFFSET && f.data == [] then Some(Zero)
    else None
  }

  /** The commands the encoder sends: manual moves with steps and speed in
      1..255 (zero is refused) and angles already within the board's clamp. */
  predicate Sendable(c: Command)
  {
    match c
    case Manual(_, steps, speed) => steps > 0 && speed > 0
    case Angle(deg, _) => deg <= MAX_ANGLE
    case Zero => true
  }

  /** The board reads back every sendable command from its frame. */
  lemma DecodeEncode(c: Command, b: BaseId)
    requires Sendable(c)
    ensures Decode(Encode(c, BaseValue(b)), BaseValue(b)) == Some(c)
  {
  }

  /** An angle above 180 is sent as 180, so the board reads the clamped angle. */
  lemma AngleClamped(deg: uint8, sign: Sign, b: BaseId)
    ensures var f := Encode(Angle(deg, sign), BaseValue(b));
      f.data[0] <= MAX_ANGLE
      && Decode(f, BaseValue(b)) == Some(Angle(if deg > MAX_ANGLE then MAX_ANGLE else deg, sign))
  {
  }

  /** Every frame is a valid CAN 2.0A data frame: an 11-bit identifier and
      at most 8 payload bytes, counted by its DLC. */
  lemma FramesAreStandard(c: Command, b: BaseId)
    ensures var f := Encode(c, BaseValue(b));
      f.ide == Standard && f.rtr == DataFrame && f.stdId < 0x800 && f.extId == 0
      && f.dlc == |f.data| <= 8
  {
  }

  /** The twelve identifiers of the four boards are distinct: an identifier
      tells both the board and the command. */
  lemma IdentifiersDistinct(b1: BaseId, o1: nat, b2: BaseId, o2: nat)
    requires o1 <= ZERO_OFFSET && o2 <= ZERO_OFFSET
    requires BaseValue(b1) + o1 == BaseValue(b2) + o2
    ensures b1 == b2 && o1 == o2
  {
  }

  /** A frame meant for one board is never read as a command by another. */
  lemma OtherBoardIgnores(c: Command, b: BaseId, other: BaseId)
    requires b != other
    ensures Decode(Encode(c, BaseValue(b)), BaseValue(other)) == None
  {
    var f := Encode(c, BaseValue(b));
    var o: nat := match c case Manual(_, _, _) => MANUAL_OFFSET case Angle(_, _) => ANGLE_OFFSET case Zero => ZERO_OFFSET;
    assert f.stdId == BaseValue(b) + o;
    if f.stdId == BaseValue(other) + MANUAL_OFFSET {
      IdentifiersDistinct(b, o, other, MANUAL_OFFSET);
    }
    if f.stdId == BaseValue(other) + ANGLE_OFFSET {
      IdentifiersDistinct(b, o, other, ANGLE_OFFSET);
    }
    if f.stdId == BaseValue(other) + ZERO_OFFSET {
      IdentifiersDistinct(b, o, other, ZERO_OFFSET);
    }
  }

  /** The module's state: the base identifier `s_base_id` and the frames
      handed to the CAN controller. */
  class Encoder {
    var baseId: uint16
    var sent: seq<Frame>

    ghost predicate Valid()
      reads this
    {
      exists b: BaseId :: baseId == BaseValue(b)
    }

    /** The static initialiser: base 0x60, as with both switches off. */
    constructor ()
      ensures Valid() && baseId == BaseValue(Base60) && sent == []
    {
      baseId := BaseValue(Base60);
      sent := [];
    }

    /** `StepperCAN_Init`: a NULL handle or a failed start gives HAL_ERROR;
        the outcome of enabling the transmit notification is ignored. */
    method Init(handlePresent: bool, start: HalStatus) returns (status: HalStatus)
      ensures status == if handlePresent && start == Ok then Ok else Error
    {
      if !handlePresent {
        return Error;
      }
      if start != Ok {
        return Error;
      }
      return Ok;
    }

    /** `StepperCAN_SetBaseId`. */
    method SetBaseId(b: BaseId)
      modifies this`baseId
      ensures Valid() && baseId == BaseValue(b)
    {
      baseId := BaseValue(b);
    }

    /** `StepperCAN_SendStd`: the frame is handed over once and the
        controller's status `transfer` is returned as it is. */
    method SendStd(id: uint16, data: array<uint8>, dlc: uint8, transfer: HalStatus) returns (status: HalStatus)
      requires dlc <= data.Length && dlc <= 8
      modifies this`sent
      ensures sent == old(sent) + [StdFrame(id, data[..dlc])]
      ensures status == transfer
    {
      sent := sent + [StdFrame(id, data[..dlc])];
      status := transfer;
    }

    /** `StepperCAN_ManualMove`: zero steps or speed is refused with
        HAL_ERROR and nothing is sent. */
    method ManualMove(dir: Direction, steps: uint8, speed: uint8, transfer: HalStatus) returns (status: HalStatus)
      requires Valid()
      modifies this`sent
      ensures steps == 0 || speed == 0 ==> status == Error && sent == old(sent)
      ensures steps > 0 && speed > 0 ==>
        status == transfer && sent == old(sent) + [Encode(Manual(dir, steps, speed), baseId)]
    {
      if steps == 0 || speed == 0 {
        return Error;
      }
      var d := new uint8[3];
      d[0] := DirectionCode(dir);
      d[1] := steps;
      d[2] := speed;
      assert d[..3] == [DirectionCode(dir), steps, speed];
      status := SendStd(baseId + MANUAL_OFFSET, d, 3, transfer);
    }

    /** `StepperCAN_SetAngle`: an angle above 180 is sent as 180. */
    method SetAngle(degrees: uint8, sign: Sign, transfer: HalStatus) returns (status: HalStatus)
      requires Valid()
      modifies this`sent
      ensures status == transfer && sent == old(sent) + [Encode(Angle(degrees, sign), baseId)]
    {
      var angle := degrees;
      if angle > MAX_ANGLE {
        angle := MAX_ANGLE;
      }
      var d := new uint8[2];
      d[0] := angle;
      d[1] := SignCode(sign);
      assert d[..2] == [angle, SignCode(sign)];
      status := SendStd(baseId + ANGLE_OFFSET, d, 2, transfer);
    }

    /** `StepperCAN_SetZero`: no payload. */
    method SetZero(transfer: HalStatus) returns (status: HalStatus)
      requires Valid()
      modifies this`sent
      ensures status == transfer && sent == old(sent) + [Encode(Zero, baseId)]
    {
      var d := new uint8[0];
      assert d[..0] == [];
      status := SendStd(baseId + ZERO_OFFSET, d, 0, transfer);
    }
  }
}
