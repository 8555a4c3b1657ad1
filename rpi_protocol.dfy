/** The line protocol between the Raspberry Pi and the controller
    (`rpi_protocol.c`): an interrupt-fed 32-byte line accumulator, a
    main-loop task that hands each completed line to the command handler,
    and the handler that answers GET_T / GET_P / GET_K / GET_A and stores the
    gain sent with SET_K=. */
module RpiProtocol {
  import opened CInt
  import opened Text
  import SensorsApp

  const CMD_BUF_LEN: nat := 32
  /** The handler's transmit buffer `tx`. */
  const TX_LEN: nat := 48
  /** The gain register's initial value in hundredths. */
  const DEFAULT_K_CENTI: int32 := 500

  predicate IsTerminator(c: char) { c == '\r' || c == '\n' }

  // ---------------------------------------------------------------------
  // Line accumulator
  // ---------------------------------------------------------------------

  /** `g_cmd_buf`, `g_cmd_idx` and `g_cmd_ready`. */
  datatype LineBuffer = LineBuffer(buf: seq<char>, idx: nat, ready: bool)

  /** What every step keeps: the cursor never passes index 31, so the NUL
      written on a terminator stays inside the buffer, and the last byte
      (zero from the static initialiser, never written with anything but
      NUL) ends every C string the buffer holds. */
  predicate Inv(b: LineBuffer)
  {
    |b.buf| == CMD_BUF_LEN && b.idx < CMD_BUF_LEN && b.buf[CMD_BUF_LEN - 1] == NUL
  }

  /** The zero-initialised static buffer. */
  function Initial(): (b: LineBuffer)
    ensures Inv(b)
  {
    LineBuffer(seq(CMD_BUF_LEN, _ => NUL), 0, false)
  }

  /** One received byte (`RpiProto_OnRxByte`). */
  function RxStep(b: LineBuffer, ch: char): (r: LineBuffer)
    requires Inv(b)
    ensures Inv(r)
  {
    if IsTerminator(ch) then
      if b.idx > 0 then LineBuffer(b.buf[b.idx := NUL], 0, true) else b.(idx := 0)
    else if b.idx < CMD_BUF_LEN - 1 then LineBuffer(b.buf[b.idx := ch], b.idx + 1, b.ready)
    else b.(idx := 0)
  }

  /** The bytes `s`, received in order. */
  function Feed(b: LineBuffer, s: seq<char>): (r: LineBuffer)
    requires Inv(b)
    ensures Inv(r)
  {
    if s == [] then b else RxStep(Feed(b, s[..|s| - 1]), s[|s| - 1])
  }

  /** The command the handler sees: the C string at the start of the buffer. */
  function Line(b: LineBuffer): seq<char>
  {
    CString(b.buf)
  }

  /** A terminator on an empty line changes nothing: no empty command is
      ever signalled, and a pending one stays pending. */
  lemma TerminatorOnEmptyLine(b: LineBuffer, t: char)
    requires Inv(b) && b.idx == 0 && IsTerminator(t)
    ensures RxStep(b, t) == b
  {
  }

  /** Text without terminators, received from the start of a line: the
      cursor is its length modulo 32 (the 32nd byte overflows, is dropped and
      restarts the line) and the buffer starts with the bytes received since
      the last restart. */
  lemma {:induction false} FeedText(b: LineBuffer, s: seq<char>)
    requires Inv(b) && b.idx == 0
    requires forall i | 0 <= i < |s| :: !IsTerminator(s[i])
    ensures var r := Feed(b, s);
      r.idx == |s| % CMD_BUF_LEN && r.ready == b.ready
      && forall i | 0 <= i < r.idx :: r.buf[i] == s[|s| - r.idx + i]
  {
    if s != [] {
      var s' := s[..|s| - 1];
      FeedText(b, s');
      var r' := Feed(b, s');
      var r := Feed(b, s);
      assert r == RxStep(r', s[|s| - 1]);
      if r'.idx < CMD_BUF_LEN - 1 {
        assert r.idx == r'.idx + 1;
        forall i | 0 <= i < r.idx ensures r.buf[i] == s[|s| - r.idx + i] {
          if i < r'.idx {
            assert r.buf[i] == r'.buf[i] == s'[|s'| - r'.idx + i];
          }
        }
      }
    }
  }

  /** A line and its terminator, received from the start of a line: if the
      bytes since the last overflow restart are not empty they become the
      ready command, otherwise the terminator is ignored. So 40 bytes and a
      terminator give the command made of bytes 33 to 40. */
  lemma LineOnTerminator(b: LineBuffer, s: seq<char>, t: char)
    requires Inv(b) && b.idx == 0 && IsTerminator(t)
    requires forall i | 0 <= i < |s| :: !IsTerminator(s[i]) && s[i] != NUL
    ensures var m := |s| % CMD_BUF_LEN;
      var r := Feed(b, s + [t]);
      r.idx == 0
      && (m > 0 ==> r.ready && Line(r) == s[|s| - m..])
      && (m == 0 ==> r.ready == b.ready && r.buf == Feed(b, s).buf)
  {
    var m := |s| % CMD_BUF_LEN;
    FeedText(b, s);
    var r' := Feed(b, s);
    assert (s + [t])[..|s|] == s;
    var r := Feed(b, s + [t]);
    assert r == RxStep(r', t);
    if m > 0 {
      assert r.buf[..m] == s[|s| - m..];
      assert NUL !in r.buf[..m];
      CStringOfTerminated(r.buf, m);
    }
  }

  /** The ordinary case: 1 to 31 bytes and a terminator deliver exactly those bytes. */
  lemma ShortLine(b: LineBuffer, s: seq<char>, t: char)
    requires Inv(b) && b.idx == 0 && IsTerminator(t) && 1 <= |s| < CMD_BUF_LEN
    requires forall i | 0 <= i < |s| :: !IsTerminator(s[i]) && s[i] != NUL
    ensures Feed(b, s + [t]).ready && Line(Feed(b, s + [t])) == s
  {
    assert |s| % CMD_BUF_LEN == |s|;
    LineOnTerminator(b, s, t);
    assert s[|s| - |s|..] == s;
  }

  // ---------------------------------------------------------------------
  // Commands
  // ---------------------------------------------------------------------

  datatype Command = GetT | GetP | SetK(arg: seq<char>) | GetK | GetA | Unknown

  /** `Proto_HandleCommand`'s chain of `strncmp` tests, in source order. */
  function Dispatch(cmd: seq<char>): (c: Command)
  {
    if StartsWith(cmd, "GET_T") then GetT
    else if StartsWith(cmd, "GET_P") then GetP
    else if StartsWith(cmd, "SET_K=") then SetK(cmd[6..])
    else if StartsWith(cmd, "GET_K") then GetK
    else if StartsWith(cmd, "GET_A") then GetA
    else Unknown
  }

  /** The canonical text of a command. */
  function CommandText(c: Command): seq<char>
  {
    match c
    case GetT => "GET_T"
    case GetP => "GET_P"
    case SetK(arg) => "SET_K=" + arg
    case GetK => "GET_K"
    case GetA => "GET_A"
    case Unknown => ""
  }

  /** Only the prefix is compared: every command is recognised from its
      text followed by anything (so "GET_TX" asks for the temperature), and
      SET_K= keeps all that follows as its argument. */
  lemma DispatchCommandText(c: Command, rest: seq<char>)
    requires c != Unknown
    ensures Dispatch(CommandText(c) + rest) == match c
      case SetK(arg) => SetK(arg + rest)
      case _ => c
  {
    var s := CommandText(c) + rest;
    assert CommandText(c) <= s;
    match c
    case SetK(arg) =>
      assert s[0] == 'S';
      assert s[6..] == arg + rest;
    case GetT =>
    case GetP => assert s[4] == 'P';
    case GetK => assert s[0] == 'G' && s[4] == 'K';
    case GetA => assert s[0] == 'G' && s[4] == 'A';
  }

  /** A line is answered with ERR=CMD exactly when it starts with none of the
      five command prefixes; a bare "SET_K" starts with none of them. */
  lemma UnknownIff(cmd: seq<char>)
    ensures Dispatch(cmd) == Unknown <==>
      !StartsWith(cmd, "GET_T") && !StartsWith(cmd, "GET_P") && !StartsWith(cmd, "SET_K=")
      && !StartsWith(cmd, "GET_K") && !StartsWith(cmd, "GET_A")
    ensures Dispatch("SET_K") == Unknown
  {
    var s := "SET_K";
    assert s[0] == 'S' && |s| == 5;
  }

  // ---------------------------------------------------------------------
  // Replies
  // ---------------------------------------------------------------------

  function Abs(x: int): nat { if x < 0 then -x else x }

  /** GET_T, `"T=%c%02ld.%02ld_C\r\n"`: the sign, then `t = -t` in int32
      (INT32_MIN stays negative), then the truncated quotient and remainder
      by 100. */
  function TempReply(t: int32): seq<char>
  {
    var m := if t < 0 then Wrap32(-(t as int)) else t;
    "T=" + [if t < 0 then '-' else '+'] + FormatDec(CDiv(m, 100), 2) + "."
      + FormatDec(CMod(m, 100), 2) + "_C\r\n"
  }

  /** GET_P, `"P=%luPa\r\n"`. */
  function PressReply(p: uint32): seq<char>
  {
    "P=" + Digits(p) + "Pa\r\n"
  }

  /** GET_K, `"K=%ld.%02ld000\r\n"` with the truncated quotient and the
      magnitude of the remainder by 100. */
  function KReply(k: int32): seq<char>
  {
    "K=" + FormatDec(CDiv(k, 100), 0) + "." + FormatDec(Abs(CMod(k, 100)), 2) + "000\r\n"
  }

  /** GET_A, `"A=%ld.%03ld0\r\n"` with the truncated quotient and the
      magnitude of the remainder by 1000. */
  function AngleReply(a: int32): seq<char>
  {
    "A=" + FormatDec(CDiv(a, 1000), 0) + "." + FormatDec(Abs(CMod(a, 1000)), 3) + "0\r\n"
  }

  const SET_K_OK: seq<char> := "SET_K=OK\r\n"
  const ERR_CMD: seq<char> := "ERR=CMD\r\n"

  /** The text the handler transmits for `c`, given the published state and
      the gain register before the command. */
  function Reply(c: Command, temp: int32, press: uint32, angle: int32, k: int32): seq<char>
  {
    match c
    case GetT => TempReply(temp)
    case GetP => PressReply(press)
    case SetK(_) => SET_K_OK
    case GetK => KReply(k)
    case GetA => AngleReply(angle)
    case Unknown => ERR_CMD
  }

  /** The gain register after `c`: SET_K= stores `atoi` of its argument. */
  function KAfter(c: Command, k: int32): int32
  {
    if c.SetK? then Atoi(c.arg) else k
  }

  /** The value printed in a `%ld` field of a quotient is below 10^k in
      magnitude, and the remainder is below the divisor. */
  lemma QuotientBound(x: int32, d: int, k: nat)
    requires (d == 100 && k == 8) || (d == 1000 && k == 7)
    ensures -(Pow10(k) as int) < CDiv(x, d) < Pow10(k)
    ensures -d < CMod(x, d) < d
  {
    CDivModSpec(x, d);
    var a := Abs(x);
    assert CDiv(x, d) == a / d || CDiv(x, d) == -(a / d);
    assert a <= 0x8000_0000;
    if d == 100 {
      assert Pow10(8) == 100000000;
      assert a / 100 <= 0x8000_0000 / 100;
    } else {
      assert Pow10(7) == 10000000;
      assert a / 1000 <= 0x8000_0000 / 1000;
    }
  }

  /** Every reply fits the 32-byte transmit buffer of the earlier firmware
      (and so the 48-byte one here): `snprintf` never cuts a reply short. */
  lemma ReplyFits(c: Command, temp: int32, press: uint32, angle: int32, k: int32)
    ensures |Reply(c, temp, press, angle, k)| < 32
  {
    match c
    case GetT =>
      var m := if temp < 0 then Wrap32(-(temp as int)) else temp;
      QuotientBound(m, 100, 8);
      FormatDecLength(CDiv(m, 100), 2, 8);
      FormatDecLength(CMod(m, 100), 2, 2);
    case GetP =>
      DigitsLength(press, 10);
    case GetK =>
      QuotientBound(k, 100, 8);
      FormatDecLength(CDiv(k, 100), 0, 8);
      FormatDecLength(Abs(CMod(k, 100)), 2, 2);
    case GetA =>
      QuotientBound(angle, 1000, 7);
      FormatDecLength(CDiv(angle, 1000), 0, 7);
      FormatDecLength(Abs(CMod(angle, 1000)), 3, 3);
    case _ =>
  }

  /** Two-digit numbers print as their two digits. */
  lemma TwoDigits(n: nat)
    requires 10 <= n < 100
    ensures Digits(n) == [DigitChar(n / 10), DigitChar(n % 10)]
    ensures FormatDec(n, 0) == Digits(n) && FormatDec(n, 2) == Digits(n)
  {
  }

  /** `%02ld` of a number below 100: exactly two digits. */
  lemma PadTwo(n: nat)
    requires n < 100
    ensures ZeroPad(Digits(n), 2) == [DigitChar(n / 10), DigitChar(n % 10)]
  {
    if n >= 10 {
      TwoDigits(n);
    }
  }

  /** The documented reply for 25.50 degrees. */
  lemma TempReplyPositiveExample()
    ensures TempReply(2550) == "T=+25.50_C\r\n"
  {
    assert CDiv(2550, 100) == 25 && CMod(2550, 100) == 50;
    TwoDigits(25);
    TwoDigits(50);
  }

  /** Apart from INT32_MIN, whose negation overflows, the reply shows the
      sign and then |t| / 100 and |t| % 100 as digit strings of at least two
      digits. */
  lemma TempReplyShape(t: int32)
    requires t != INT32_MIN
    ensures TempReply(t) == "T=" + [if t < 0 then '-' else '+'] + ZeroPad(Digits(Abs(t) / 100), 2) + "."
                            + ZeroPad(Digits(Abs(t) % 100), 2) + "_C\r\n"
  {
    var a := Abs(t);
    assert (if t < 0 then Wrap32(-(t as int)) else t) == a;
    assert CDiv(a, 100) == a / 100 && CMod(a, 100) == a % 100;
    assert FormatDec(a / 100, 2) == ZeroPad(Digits(a / 100), 2);
    assert FormatDec(a % 100, 2) == ZeroPad(Digits(a % 100), 2);
  }

  /** The documented reply for -0.75 degrees: the integer part is padded to two digits. */
  lemma TempReplyNegativeExample()
    ensures TempReply(-75) == "T=-00.75_C\r\n"
  {
    NegativeExampleFields();
    NegativeExampleText();
  }

  lemma NegativeExampleFields()
    ensures TempReply(-75) == "T=" + "-" + FormatDec(0, 2) + "." + FormatDec(75, 2) + "_C\r\n"
  {
    assert Wrap32(75) == 75;
    assert CDiv(75, 100) == 0 && CMod(75, 100) == 75;
  }

  lemma NegativeExampleText()
    ensures "T=" + "-" + FormatDec(0, 2) + "." + FormatDec(75, 2) + "_C\r\n" == "T=-00.75_C\r\n"
  {
    PadTwo(0);
    TwoDigits(75);
  }

  /** A gain of 12.34 reads back as 12.34000. */
  lemma KReplyExample()
    ensures KReply(1234) == "K=12.34000\r\n"
  {
    assert CDiv(1234, 100) == 12 && CMod(1234, 100) == 34;
    TwoDigits(12);
    TwoDigits(34);
  }

  /** A gain of -0.50 reads back as 0.50000: between -1 and 0 the sign is lost. */
  lemma KReplyLosesSign()
    ensures KReply(-50) == "K=0.50000\r\n"
  {
    assert CDiv(-50, 100) == 0 && CMod(-50, 100) == -50;
    assert FormatDec(0, 0) == "0";
    TwoDigits(50);
  }

  /** An angle of -0.5 degrees reads back as 0.5000. */
  lemma AngleReplyLosesSign()
    ensures AngleReply(-500) == "A=0.5000\r\n"
  {
    assert CDiv(-500, 1000) == 0 && CMod(-500, 1000) == -500;
    assert FormatDec(0, 0) == "0";
    assert Digits(500) == Digits(50) + ['0'];
    TwoDigits(50);
  }

  // ---------------------------------------------------------------------
  // The module's state
  // ---------------------------------------------------------------------

  /** The static state of `rpi_protocol.c`. `uartAttached` stands for
      `s_huart != NULL`; `sent` is everything handed to `HAL_UART_Transmit`. */
  class Proto {
    var uartAttached: bool
    var state: SensorsApp.SensorsState?
    var kCenti: int32
    const buf: array<char>
    var idx: nat
    var ready: bool
    var sent: seq<char>

    ghost predicate Valid()
      reads this, buf
    {
      buf.Length == CMD_BUF_LEN && Inv(Buffer())
    }

    /** The accumulator as a value. */
    function Buffer(): LineBuffer
      reads this, buf
    {
      LineBuffer(buf[..], idx, ready)
    }

    /** The static initialisers. */
    constructor ()
      ensures Valid() && Buffer() == Initial() && fresh(buf)
      ensures kCenti == DEFAULT_K_CENTI && state == null && !uartAttached && sent == []
    {
      uartAttached := false;
      state := null;
      kCenti := DEFAULT_K_CENTI;
      buf := new char[CMD_BUF_LEN](_ => NUL);
      idx := 0;
      ready := false;
      sent := [];
    }

    /** `RpiProto_Init`: attach the UART and the state record and restart
        the line; the buffer's bytes and the gain register are kept. */
    method Init(uart: bool, st: SensorsApp.SensorsState?)
      requires Valid()
      modifies this`uartAttached, this`state, this`idx, this`ready
      ensures Valid() && Buffer() == old(Buffer()).(idx := 0, ready := false)
      ensures uartAttached == uart && state == st
    {
      uartAttached := uart;
      state := st;
      idx := 0;
      ready := false;
    }

    /** `RpiProto_OnRxByte`. */
    method OnRxByte(ch: Byte)
      requires Valid()
      modifies this`idx, this`ready, buf
      ensures Valid() && Buffer() == RxStep(old(Buffer()), ch)
    {
      if ch == '\r' || ch == '\n' {
        if idx > 0 {
          buf[idx] := NUL;
          ready := true;
        }
        idx := 0;
      } else {
        if idx < CMD_BUF_LEN - 1 {
          buf[idx] := ch;
          idx := idx + 1;
        } else {
          idx := 0;
        }
      }
    }

    /** `Proto_HandleCommand`: nothing happens without a state record; the
        reply is transmitted only when a UART is attached, while SET_K=
        stores the gain either way. */
    method HandleCommand(cmd: seq<char>)
      modifies this`kCenti, this`sent
      ensures state == null ==> kCenti == old(kCenti) && sent == old(sent)
      ensures state != null ==> kCenti == KAfter(Dispatch(cmd), old(kCenti))
      ensures state != null ==>
        sent == old(sent) + (if uartAttached
                             then Reply(Dispatch(cmd), state.tempCenti, state.pressPa, state.angleMilli, old(kCenti))
                             else [])
    {
      if state == null {
        return;
      }
      var c := Dispatch(cmd);
      ReplyFits(c, state.tempCenti, state.pressPa, state.angleMilli, kCenti);
      var tx := Snprintf(Reply(c, state.tempCenti, state.pressPa, state.angleMilli, kCenti), TX_LEN);
      kCenti := KAfter(c, kCenti);
      SendString(tx);
    }

    /** `Proto_SendString`. */
    method SendString(s: seq<char>)
      modifies this`sent
      ensures sent == old(sent) + (if uartAttached then s else [])
    {
      if uartAttached {
        sent := sent + s;
      }
    }

    /** `RpiProto_Task`: a ready line is taken (the flag is cleared first)
        and handled once; otherwise nothing happens. */
    method Task()
      requires Valid()
      modifies this`ready, this`kCenti, this`sent
      ensures Valid() && !ready && buf[..] == old(buf[..]) && idx == old(idx)
      ensures old(ready) && state != null ==>
        var c := Dispatch(Line(old(Buffer())));
        kCenti == KAfter(c, old(kCenti))
        && sent == old(sent)
           + (if uartAttached then Reply(c, state.tempCenti, state.pressPa, state.angleMilli, old(kCenti)) else [])
      ensures !(old(ready) && state != null) ==> kCenti == old(kCenti) && sent == old(sent)
    {
      if ready {
        ready := false;
        HandleCommand(CString(buf[..]));
      }
    }

    /** `RpiProto_GetK_centi`: the gain the last SET_K= left, 500 before any. */
    function GetKCenti(): (k: int32)
      reads this
      ensures k == kCenti
    {
      kCenti
    }
  }
}
