/** The Raspberry Pi client (`stm32_client_v3.py`): the reply parser
    `_parse_value`, with the parts of Python's `str.strip`, `str.split`,
    `int()` and `float()` it relies on, the line `send_command` returns for
    a reply, and the framing of the commands it sends. */
module Stm32Client {
  import opened CInt
  import opened Wrappers
  import opened Text
  import RpiProtocol

  // ---------------------------------------------------------------------
  // Python string primitives
  // ---------------------------------------------------------------------

  /** `str.isspace`: the characters Python's `strip()` removes. */
  predicate IsPySpace(c: char)
  {
    var n := c as int;
    n == 0x20 || 0x09 <= n <= 0x0D || 0x1C <= n <= 0x1F || n == 0x85 || n == 0xA0 || n == 0x1680
    || 0x2000 <= n <= 0x200A || n == 0x2028 || n == 0x2029 || n == 0x202F || n == 0x205F || n == 0x3000
  }

  predicate AllPySpace(s: seq<char>) { forall i | 0 <= i < |s| :: IsPySpace(s[i]) }

  function StripLeft(s: seq<char>): (r: seq<char>)
    ensures |r| <= |s| && r == s[|s| - |r|..]
    ensures r == [] || !IsPySpace(r[0])
    ensures AllPySpace(s[..|s| - |r|])
  {
    if s != [] && IsPySpace(s[0]) then
      var r := StripLeft(s[1..]);
      assert s[..|s| - |r|] == [s[0]] + s[1..][..|s| - 1 - |r|];
      r
    else s
  }

  function StripRight(s: seq<char>): (r: seq<char>)
    ensures |r| <= |s| && r == s[..|r|]
    ensures r == [] || !IsPySpace(r[|r| - 1])
    ensures AllPySpace(s[|r|..])
  {
    if s != [] && IsPySpace(s[|s| - 1]) then
      var r := StripRight(s[..|s| - 1]);
      assert s[|r|..] == s[..|s| - 1][|r|..] + [s[|s| - 1]];
      r
    else s
  }

  /** `s.strip()`: white space removed at both ends. */
  function Strip(s: seq<char>): seq<char>
  {
    StripRight(StripLeft(s))
  }

  /** Stripping leaves no white space at either end, so stripping twice is
      stripping once. */
  lemma StripIdempotent(s: seq<char>)
    ensures var r := Strip(s); r == [] || (!IsPySpace(r[0]) && !IsPySpace(r[|r| - 1]))
    ensures Strip(Strip(s)) == Strip(s)
  {
    var l := StripLeft(s);
    var r := StripRight(l);
    if r != [] {
      assert r[0] == l[0];
    }
    StripUnchanged(r);
  }

  /** Text without white space at either end is left as it is. */
  lemma StripUnchanged(s: seq<char>)
    requires s == [] || (!IsPySpace(s[0]) && !IsPySpace(s[|s| - 1]))
    ensures Strip(s) == s
  {
  }

  /** The index of the first `c` in `s`, or |s| when there is none. */
  function IndexOf(s: seq<char>, c: char): (i: nat)
    ensures i <= |s| && c !in s[..i]
    ensures i < |s| ==> s[i] == c
  {
    if s == [] then 0
    else if s[0] == c then 0
    else
      var j := IndexOf(s[1..], c);
      assert s[..j + 1] == [s[0]] + s[1..][..j];
      1 + j
  }

  // ---------------------------------------------------------------------
  // int() and float()
  // ---------------------------------------------------------------------

  predicate IsBaseDigit(c: char, base: nat)
  {
    IsDigit(c) || (base == 16 && ('a' <= c <= 'f' || 'A' <= c <= 'F'))
  }

  function BaseDigitValue(c: char, base: nat): (d: nat)
    requires IsBaseDigit(c, base)
    ensures d < (if base == 16 then 16 else 10)
  {
    if IsDigit(c) then DigitValue(c)
    else if 'a' <= c <= 'f' then c as int - 'a' as int + 10
    else c as int - 'A' as int + 10
  }

  /** The digits of an `int()` literal: base digits, with single underscores
      allowed between two digits. */
  function Grouped(s: seq<char>, base: nat): (r: Option<nat>)
  {
    if s == [] || !IsBaseDigit(s[|s| - 1], base) then None
    else if |s| == 1 then Some(BaseDigitValue(s[0], base))
    else
      var rest := if s[|s| - 2] == '_' then s[..|s| - 2] else s[..|s| - 1];
      match Grouped(rest, base)
      case None => None
      case Some(v) => Some(v * base + BaseDigitValue(s[|s| - 1], base))
  }

  /** `int(s, base)` for base 10 or 16: surrounding white space, one
      optional sign, for base 16 an optional `0x`/`0X` prefix (which may be
      followed by one underscore), then grouped digits. `None` stands for
      the ValueError it raises otherwise. */
  function PyInt(s: seq<char>, base: nat): (r: Option<int>)
    requires base == 10 || base == 16
  {
    var t := Strip(s);
    var neg := t != [] && t[0] == '-';
    var body := if t != [] && (t[0] == '+' || t[0] == '-') then t[1..] else t;
    var digits :=
      if base == 16 && |body| >= 2 && body[0] == '0' && (body[1] == 'x' || body[1] == 'X') then
        var r := body[2..]; if r != [] && r[0] == '_' then r[1..] else r
      else body;
    match Grouped(digits, base)
    case None => None
    case Some(v) => Some(if neg then -(v as int) else v as int)
  }

  /** The characters the number extraction keeps: digits, signs and dots. */
  predicate IsNumChar(c: char) { IsDigit(c) || c == '+' || c == '-' || c == '.' }

  predicate AllNumChars(s: seq<char>) { forall i | 0 <= i < |s| :: IsNumChar(s[i]) }

  /** A decimal number exactly: `mantissa / 10^scale`. */
  datatype Decimal = Decimal(mantissa: int, scale: nat)

  /** The digits of the integer part and of the fraction, as one integer. */
  function Mantissa(ip: seq<char>, fp: seq<char>): int
    requires AllDigits(ip) && AllDigits(fp)
  {
    Value(ip) * Pow10(|fp|) + Value(fp)
  }

  /** `float(num)` on text made of digits, signs and dots: one optional
      sign, then digits with one dot and at least one digit. `None` stands
      for the ValueError raised otherwise. The value is kept exact. */
  function PyFloat(num: seq<char>): (r: Option<Decimal>)
    requires AllNumChars(num)
  {
    var neg := num != [] && num[0] == '-';
    var body := if num != [] && (num[0] == '+' || num[0] == '-') then num[1..] else num;
    UnsignedFloat(neg, body)
  }

  /** `float` after the sign: the digits around the one dot. */
  function UnsignedFloat(neg: bool, body: seq<char>): (r: Option<Decimal>)
  {
    var i := IndexOf(body, '.');
    if i == |body| then None
    else
      var ip, fp := body[..i], body[i + 1..];
      if AllDigits(ip) && AllDigits(fp) && (ip != [] || fp != []) then
        var m := Mantissa(ip, fp);
        Some(Decimal(if neg then -m else m, |fp|))
      else None
  }

  // ---------------------------------------------------------------------
  // _parse_value
  // ---------------------------------------------------------------------

  /** The RuntimeErrors `_parse_value` raises itself, and the ValueError
      `int()` or `float()` raise on a malformed number. */
  datatype ErrorKind = EmptyResponse | UnexpectedPrefix | NoNumber | BadLiteral

  datatype Parsed = IntValue(i: int) | FloatValue(d: Decimal) | Raised(kind: ErrorKind)

  /** The number at the start of the payload: the longest run of digits,
      signs and dots. */
  function NumberPrefix(s: seq<char>): (r: seq<char>)
    ensures r <= s && AllNumChars(r)
    ensures |r| < |s| ==> !IsNumChar(s[|r|])
  {
    if s != [] && IsNumChar(s[0]) then [s[0]] + NumberPrefix(s[1..]) else []
  }

  /** The value of an extracted number: a float when it holds a dot,
      otherwise an int. */
  function NumberValue(num: seq<char>): (r: Parsed)
    requires AllNumChars(num)
  {
    if '.' in num then
      match PyFloat(num)
      case None => Raised(BadLiteral)
      case Some(d) => FloatValue(d)
    else
      match PyInt(num, 10)
      case None => Raised(BadLiteral)
      case Some(v) => IntValue(v)
  }

  /** The payload: after the first '=' when there is one (the stripped part
      before it must be `prefix`), otherwise the whole response; stripped. */
  function Payload(resp: seq<char>, prefix: seq<char>): (r: Option<seq<char>>)
  {
    var i := IndexOf(resp, '=');
    if i < |resp| then
      if Strip(resp[..i]) != prefix then None else Some(Strip(resp[i + 1..]))
    else Some(Strip(resp))
  }

  /** `_parse_value(resp, prefix)`. */
  function ParsedValue(resp: seq<char>, prefix: seq<char>): (r: Parsed)
  {
    if resp == [] then Raised(EmptyResponse)
    else match Payload(resp, prefix)
      case None => Raised(UnexpectedPrefix)
      case Some(tail) => PayloadValue(tail)
  }

  /** The value of a payload: hexadecimal when it ends with 'H', otherwise
      the number at its start. */
  function PayloadValue(tail: seq<char>): (r: Parsed)
  {
    if tail != [] && tail[|tail| - 1] == 'H' then
      match PyInt(tail[..|tail| - 1], 16)
      case None => Raised(BadLiteral)
      case Some(v) => IntValue(v)
    else
      var num := NumberPrefix(tail);
      if num == [] then Raised(NoNumber) else NumberValue(num)
  }

  /** The extraction loop: characters are appended while they are digits,
      signs or dots. */
  method ExtractNumber(tail: seq<char>) returns (num: seq<char>)
    ensures num == NumberPrefix(tail)
  {
    num := [];
    var i := 0;
    while i < |tail| && IsNumChar(tail[i])
      invariant 0 <= i <= |tail| && num == tail[..i]
      invariant NumberPrefix(tail) == num + NumberPrefix(tail[i..])
      decreases |tail| - i
    {
      PrefixStep(tail, i, num);
      num := num + [tail[i]];
      i := i + 1;
    }
    PrefixStop(tail, i, num);
  }

  /** One step of the extraction loop. */
  lemma PrefixStep(tail: seq<char>, i: nat, num: seq<char>)
    requires i < |tail| && IsNumChar(tail[i]) && num == tail[..i]
    ensures num + [tail[i]] == tail[..i + 1]
    ensures num + NumberPrefix(tail[i..]) == (num + [tail[i]]) + NumberPrefix(tail[i + 1..])
  {
    assert tail[i..][1..] == tail[i + 1..];
    assert NumberPrefix(tail[i..]) == [tail[i]] + NumberPrefix(tail[i + 1..]);
  }

  /** The loop stops at the end or at the first other character. */
  lemma PrefixStop(tail: seq<char>, i: nat, num: seq<char>)
    requires i <= |tail| && (i == |tail| || !IsNumChar(tail[i]))
    ensures num + NumberPrefix(tail[i..]) == num
  {
    assert NumberPrefix(tail[i..]) == [];
  }

  /** `_parse_value`: the prefix check, then the payload's value. The
      method is proved against `ParsedValue`; what the parser promises is
      proved about that function (`ParseOutcomes`, `ReadField`). */
  method ParseValue(resp: seq<char>, prefix: seq<char>) returns (r: Parsed)
    ensures r == ParsedValue(resp, prefix)
  {
    if resp == [] {
      return Raised(EmptyResponse);
    }
    var payload := Payload(resp, prefix);
    if payload.None? {
      return Raised(UnexpectedPrefix);
    }
    var tail := payload.value;
    r := ParsePayload(tail);
  }

  /** The rest of `_parse_value`: the hexadecimal case, or the extraction
      loop and the conversion of the number it keeps. The method is proved
      against `PayloadValue`; its readings are proved about that function
      (`HexPayload`, `IntOfDigits`, `FloatOfParts`). */
  method ParsePayload(tail: seq<char>) returns (r: Parsed)
    ensures r == PayloadValue(tail)
  {
    if tail != [] && tail[|tail| - 1] == 'H' {
      var v := PyInt(tail[..|tail| - 1], 16);
      return if v.Some? then IntValue(v.value) else Raised(BadLiteral);
    }
    var num := ExtractNumber(tail);
    if num == [] {
      return Raised(NoNumber);
    }
    r := NumberValue(num);
  }

  /** The cases of `_parse_value`: an empty response raises; with an '='
      the stripped text before the first one must be the prefix, and the
      stripped text after it is the payload; without one the whole stripped
      response is. */
  lemma ParseOutcomes(resp: seq<char>, prefix: seq<char>)
    ensures resp == [] ==> ParsedValue(resp, prefix) == Raised(EmptyResponse)
    ensures resp != [] && '=' !in resp ==> ParsedValue(resp, prefix) == PayloadValue(Strip(resp))
    ensures resp != [] && '=' in resp ==>
      var i := IndexOf(resp, '=');
      ParsedValue(resp, prefix)
      == if Strip(resp[..i]) != prefix then Raised(UnexpectedPrefix) else PayloadValue(Strip(resp[i + 1..]))
  {
    if '=' in resp {
      assert resp[..|resp|] == resp;
    }
  }

  /** The controller's ERR=CMD answer makes every getter raise: its head
      "ERR" is none of the prefixes T, P, A, K. */
  lemma UnknownReplyRaises(prefix: seq<char>, rest: seq<char>)
    requires prefix != "ERR"
    ensures ParsedValue(ResponseLine(RpiProtocol.ERR_CMD + rest), prefix) == Raised(UnexpectedPrefix)
  {
    assert ResponseLine(RpiProtocol.ERR_CMD + rest) == "ERR=CMD" by {
      ErrLine(rest);
    }
    assert "ERR=CMD" == "ERR" + "=" + "CMD";
    HeadMismatch("ERR", "CMD", prefix);
  }

  lemma ErrLine(rest: seq<char>)
    ensures ResponseLine(RpiProtocol.ERR_CMD + rest) == "ERR=CMD"
  {
    assert RpiProtocol.ERR_CMD + rest == "ERR=CMD" + "\r\n" + rest;
    ReadReply("ERR=CMD", rest);
  }

  /** A response whose head before the first '=' is not the prefix raises. */
  lemma HeadMismatch(head: seq<char>, t: seq<char>, prefix: seq<char>)
    requires '=' !in head && head != prefix
    requires head == [] || (!IsPySpace(head[0]) && !IsPySpace(head[|head| - 1]))
    ensures ParsedValue(head + "=" + t, prefix) == Raised(UnexpectedPrefix)
  {
    var resp := head + "=" + t;
    assert resp[..|head|] == head && resp[|head|] == '=';
    IndexOfIs(resp, '=', |head|);
    StripUnchanged(head);
    PrefixMismatch(resp, prefix, |head|);
  }

  /** A head before the first '=' that is not the prefix raises. */
  lemma PrefixMismatch(resp: seq<char>, prefix: seq<char>, i: nat)
    requires i < |resp| && IndexOf(resp, '=') == i && Strip(resp[..i]) != prefix
    ensures ParsedValue(resp, prefix) == Raised(UnexpectedPrefix)
  {
  }

  predicate AllHexDigits(s: seq<char>) { forall i | 0 <= i < |s| :: IsBaseDigit(s[i], 16) }

  /** The number a string of hexadecimal digits denotes. */
  function HexValue(ds: seq<char>): nat
    requires AllHexDigits(ds)
  {
    if ds == [] then 0 else HexValue(ds[..|ds| - 1]) * 16 + BaseDigitValue(ds[|ds| - 1], 16)
  }

  /** A payload of hexadecimal digits followed by 'H' is read as the
      number those digits denote. */
  lemma HexPayload(ds: seq<char>)
    requires ds != [] && AllHexDigits(ds)
    ensures PayloadValue(ds + "H") == IntValue(HexValue(ds))
  {
    assert (ds + "H")[..|ds|] == ds;
    assert PyInt(ds, 16) == Some(HexValue(ds)) by {
      HexLiteral(ds);
    }
  }

  /** `int(ds, 16)` of hexadecimal digits: no white space, no sign, and no
      "0x" (an 'x' is not a digit). */
  lemma HexLiteral(ds: seq<char>)
    requires ds != [] && AllHexDigits(ds)
    ensures PyInt(ds, 16) == Some(HexValue(ds))
  {
    assert IsBaseDigit(ds[0], 16) && IsBaseDigit(ds[|ds| - 1], 16);
    assert |ds| >= 2 ==> IsBaseDigit(ds[1], 16);
    PlainLiteral(ds, 16);
    GroupedHex(ds);
  }

  /** `int()` of text with no white space at its ends, no sign and no
      "0x": the value of its digits. */
  lemma PlainLiteral(s: seq<char>, base: nat)
    requires base == 10 || base == 16
    requires s != [] && !IsPySpace(s[0]) && !IsPySpace(s[|s| - 1]) && s[0] != '+' && s[0] != '-'
    requires |s| >= 2 ==> s[1] != 'x' && s[1] != 'X'
    ensures Grouped(s, base).Some? ==> PyInt(s, base) == Some(Grouped(s, base).value as int)
  {
    StripUnchanged(s);
  }

  /** `int(ds, 16)` of plain hexadecimal digits. */
  lemma {:induction false} GroupedHex(ds: seq<char>)
    requires ds != [] && AllHexDigits(ds)
    ensures Grouped(ds, 16) == Some(HexValue(ds))
  {
    if |ds| > 1 {
      assert IsBaseDigit(ds[|ds| - 2], 16);
      GroupedHex(ds[..|ds| - 1]);
    }
  }

  // ---------------------------------------------------------------------
  // send_command and set_K
  // ---------------------------------------------------------------------

  predicate IsTerminator(c: char) { c == '\r' || c == '\n' }

  predicate NoTerminator(s: seq<char>) { forall i | 0 <= i < |s| :: !IsTerminator(s[i]) }

  /** The bytes read up to the first CR or LF. */
  function UpToTerminator(rx: seq<char>): (r: seq<char>)
    ensures r <= rx && NoTerminator(r)
    ensures |r| < |rx| ==> IsTerminator(rx[|r|])
  {
    if rx != [] && !IsTerminator(rx[0]) then [rx[0]] + UpToTerminator(rx[1..]) else []
  }

  /** `decode("ascii", errors="ignore")`: bytes above 0x7F are dropped. */
  function AsciiOnly(s: seq<char>): (r: seq<char>)
    ensures |r| <= |s| && forall i | 0 <= i < |r| :: r[i] as int < 0x80
  {
    if s == [] then []
    else if s[|s| - 1] as int < 0x80 then AsciiOnly(s[..|s| - 1]) + [s[|s| - 1]]
    else AsciiOnly(s[..|s| - 1])
  }

  /** The line `send_command` returns when the bytes `rx` arrive before the
      one-second deadline: up to the first CR or LF, non-ASCII bytes
      dropped, white space stripped. */
  function ResponseLine(rx: seq<char>): seq<char>
  {
    Strip(AsciiOnly(UpToTerminator(rx)))
  }

  /** The bytes `send_command` writes for a command. */
  function Framed(cmd: seq<char>): seq<char>
  {
    cmd + "\r\n"
  }

  /** `send_command`: the command is written with CR LF, then the reply
      is read from `rx` (what arrives before the deadline). The method is
      proved against `ResponseLine`; what a reply line becomes is proved
      about that function (`ResponseOfReply`, `ReadReply`). */
  method SendCommand(cmd: seq<char>, rx: seq<char>) returns (written: seq<char>, resp: seq<char>)
    ensures written == Framed(cmd) && resp == ResponseLine(rx)
  {
    written := Framed(cmd);
    var buf := ReadLine(rx);
    resp := Strip(AsciiOnly(buf));
  }

  /** The read loop of `send_command`: bytes are taken one at a time until
      a CR or LF (which is not kept) or the end of what arrived. */
  method ReadLine(rx: seq<char>) returns (buf: seq<char>)
    ensures buf == UpToTerminator(rx)
  {
    buf := [];
    var i := 0;
    while i < |rx| && !IsTerminator(rx[i])
      invariant 0 <= i <= |rx| && buf == rx[..i] && NoTerminator(buf)
      decreases |rx| - i
    {
      assert rx[..i + 1] == buf + [rx[i]];
      buf := buf + [rx[i]];
      i := i + 1;
    }
    UpToTerminatorAt(rx, i);
  }

  /** The line ends at the first terminator. */
  lemma {:induction false} UpToTerminatorAt(rx: seq<char>, i: nat)
    requires i <= |rx| && NoTerminator(rx[..i]) && (i == |rx| || IsTerminator(rx[i]))
    ensures UpToTerminator(rx) == rx[..i]
  {
    if i > 0 {
      assert rx[1..][..i - 1] == rx[1..i];
      assert NoTerminator(rx[1..i]) by {
        forall j | 0 <= j < i - 1 ensures !IsTerminator(rx[1..i][j]) {
          assert rx[1..i][j] == rx[..i][j + 1];
        }
      }
      assert !IsTerminator(rx[..i][0]);
      UpToTerminatorAt(rx[1..], i - 1);
    }
  }

  /** `get_temperature`, `get_pressure`, `get_acceleration`, `get_K`: a
      command and the parse of its answer. */
  method Query(cmd: seq<char>, prefix: seq<char>, rx: seq<char>) returns (written: seq<char>, r: Parsed)
    ensures written == Framed(cmd) && r == ParsedValue(ResponseLine(rx), prefix)
  {
    var resp;
    written, resp := SendCommand(cmd, rx);
    r := ParseValue(resp, prefix);
  }

  /** The command `set_K` sends: `f"SET_K={k_centi}"`. */
  function SetKCommand(kCenti: int): seq<char>
  {
    "SET_K=" + FormatDec(kCenti, 0)
  }

  /** `set_K`: the answer is returned as it is, not parsed. */
  method SetK(kCenti: int, rx: seq<char>) returns (written: seq<char>, resp: seq<char>)
    ensures written == Framed(SetKCommand(kCenti)) && resp == ResponseLine(rx)
  {
    written, resp := SendCommand("SET_K=" + FormatDec(kCenti, 0), rx);
  }

  // ---------------------------------------------------------------------
  // What the client reads from the controller's replies
  // ---------------------------------------------------------------------

  /** A reply line is read back as it was printed, whatever follows its
      terminator (the LF after the CR stays in the input). */
  lemma ResponseOfReply(line: seq<char>, t: char, rest: seq<char>)
    requires IsTerminator(t)
    requires forall i | 0 <= i < |line| :: !IsTerminator(line[i]) && line[i] as int < 0x80
    requires line == [] || (!IsPySpace(line[0]) && !IsPySpace(line[|line| - 1]))
    ensures ResponseLine(line + [t] + rest) == line
  {
    UpToTerminatorOf(line, t, rest);
    AsciiUnchanged(line);
    StripUnchanged(line);
  }

  lemma {:induction false} UpToTerminatorOf(line: seq<char>, t: char, rest: seq<char>)
    requires IsTerminator(t) && forall i | 0 <= i < |line| :: !IsTerminator(line[i])
    ensures UpToTerminator(line + [t] + rest) == line
  {
    if line != [] {
      assert (line + [t] + rest)[1..] == line[1..] + [t] + rest;
      UpToTerminatorOf(line[1..], t, rest);
    }
  }

  lemma {:induction false} AsciiUnchanged(s: seq<char>)
    requires forall i | 0 <= i < |s| :: s[i] as int < 0x80
    ensures AsciiOnly(s) == s
  {
    if s != [] {
      AsciiUnchanged(s[..|s| - 1]);
    }
  }

  /** The extraction keeps a run of number characters and stops at the
      first other character. */
  lemma {:induction false} NumberPrefixOf(num: seq<char>, suffix: seq<char>)
    requires AllNumChars(num) && (suffix == [] || !IsNumChar(suffix[0]))
    ensures NumberPrefix(num + suffix) == num
  {
    if num != [] {
      assert (num + suffix)[1..] == num[1..] + suffix;
      NumberPrefixOf(num[1..], suffix);
    }
  }

  /** The first `c` is at `i` when `c` is at `i` and nowhere before. */
  lemma IndexOfIs(s: seq<char>, c: char, i: nat)
    requires i < |s| && s[i] == c && c !in s[..i]
    ensures IndexOf(s, c) == i
  {
  }

  /** The payload after `<p>=` is the text that follows when it has no
      white space at either end. */
  lemma PayloadOf(p: char, t: seq<char>)
    requires p != '=' && !IsPySpace(p)
    requires t != [] && !IsPySpace(t[0]) && !IsPySpace(t[|t| - 1])
    ensures Payload([p] + "=" + t, [p]) == Some(t)
  {
    var resp := [p] + "=" + t;
    PayloadSplit(p, t, resp);
    PayloadFromParts(resp, [p], 1, t);
  }

  /** `<p>=<t>` splits at index 1 into its two stripped halves. */
  lemma PayloadSplit(p: char, t: seq<char>, resp: seq<char>)
    requires p != '=' && !IsPySpace(p)
    requires t != [] && !IsPySpace(t[0]) && !IsPySpace(t[|t| - 1])
    requires resp == [p] + "=" + t
    ensures IndexOf(resp, '=') == 1 && Strip(resp[..1]) == [p] && Strip(resp[1 + 1..]) == t
  {
    assert resp[..1] == [p] && resp[1] == '=' && resp[1 + 1..] == t;
    IndexOfIs(resp, '=', 1);
    StripUnchanged([p]);
    StripUnchanged(t);
  }

  /** `_parse_value`'s split: a prefix before the first `=` that matches
      leaves the stripped text after it. */
  lemma PayloadFromParts(resp: seq<char>, prefix: seq<char>, i: nat, t: seq<char>)
    requires i < |resp| && IndexOf(resp, '=') == i
    requires Strip(resp[..i]) == prefix && Strip(resp[i + 1..]) == t
    ensures Payload(resp, prefix) == Some(t)
  {
  }

  /** A field `<p>=<number><suffix>` with the expected one-letter prefix is
      parsed as its number. */
  lemma ParseField(p: char, num: seq<char>, suffix: seq<char>)
    requires p != '=' && ' ' < p <= '~'
    requires num != [] && AllNumChars(num) && (suffix == [] || !IsNumChar(suffix[0]))
    requires Printable(num + suffix) && EndsClean(num + suffix)
    ensures ParsedValue([p] + "=" + (num + suffix), [p]) == NumberValue(num)
  {
    var t := num + suffix;
    assert t[0] == num[0];
    assert ' ' <= t[|t| - 1] <= '~';
    PayloadOf(p, t);
    NumberPrefixOf(num, suffix);
  }

  /** `int()` of a digit string is its value. */
  lemma {:induction false} GroupedDigits(ds: seq<char>)
    requires ds != [] && AllDigits(ds)
    ensures Grouped(ds, 10) == Some(Value(ds))
  {
    if |ds| > 1 {
      GroupedDigits(ds[..|ds| - 1]);
    }
  }

  /** An integer printed with `%lu` is read as that int. */
  lemma IntOfDigits(n: nat)
    ensures AllNumChars(Digits(n)) && NumberValue(Digits(n)) == IntValue(n)
  {
    var ds := Digits(n);
    assert forall i | 0 <= i < |ds| :: ds[i] != '.';
    PyIntOfDigits(ds);
    ValueOfDigits(n);
  }

  /** `int()` of an unsigned digit string. */
  lemma PyIntOfDigits(ds: seq<char>)
    requires ds != [] && AllDigits(ds)
    ensures PyInt(ds, 10) == Some(Value(ds))
  {
    StripUnchanged(ds);
    assert IsDigit(ds[0]);
    GroupedDigits(ds);
  }

  /** The signs `%c`/`%ld` print in front of a number: none, '+' or '-'. */
  predicate IsSign(sign: seq<char>) { sign == [] || sign == "+" || sign == "-" }

  /** A number with an optional sign, an integer part, a dot and a fraction
      is read as a float with exactly that value: `v` with `scale` decimals. */
  lemma FloatOfParts(sign: seq<char>, ip: seq<char>, fp: seq<char>, v: int, scale: nat)
    requires IsSign(sign) && ip != [] && AllDigits(ip) && AllDigits(fp)
    requires v == (if sign == "-" then -Mantissa(ip, fp) else Mantissa(ip, fp)) && scale == |fp|
    ensures AllNumChars(sign + (ip + "." + fp))
    ensures NumberValue(sign + (ip + "." + fp)) == FloatValue(Decimal(v, scale))
  {
    var s := sign + (ip + "." + fp);
    PyFloatOf(sign, ip, fp, v, scale);
    assert s[|sign| + |ip|] == '.';
  }

  lemma PyFloatOf(sign: seq<char>, ip: seq<char>, fp: seq<char>, v: int, scale: nat)
    requires IsSign(sign) && ip != [] && AllDigits(ip) && AllDigits(fp)
    requires v == (if sign == "-" then -Mantissa(ip, fp) else Mantissa(ip, fp)) && scale == |fp|
    ensures AllNumChars(sign + (ip + "." + fp))
    ensures PyFloat(sign + (ip + "." + fp)) == Some(Decimal(v, scale))
  {
    var body := ip + "." + fp;
    var s := sign + body;
    SignedNumChars(sign, ip, fp);
    assert PyFloat(s) == UnsignedFloat(sign == "-", body) by {
      assert s[0] == if sign == [] then ip[0] else sign[0];
      assert (if s != [] && (s[0] == '+' || s[0] == '-') then s[1..] else s) == body;
    }
    UnsignedFloatOf(sign == "-", ip, fp, v, scale);
  }

  lemma UnsignedFloatOf(neg: bool, ip: seq<char>, fp: seq<char>, v: int, scale: nat)
    requires ip != [] && AllDigits(ip) && AllDigits(fp)
    requires v == (if neg then -Mantissa(ip, fp) else Mantissa(ip, fp)) && scale == |fp|
    ensures UnsignedFloat(neg, ip + "." + fp) == Some(Decimal(v, scale))
  {
    PyFloatBody(ip, fp);
  }

  /** A sign, digits, a dot and digits are all characters of a number. */
  lemma SignedNumChars(sign: seq<char>, ip: seq<char>, fp: seq<char>)
    requires IsSign(sign) && AllDigits(ip) && AllDigits(fp)
    ensures AllNumChars(sign + (ip + "." + fp))
  {
    var body := ip + "." + fp;
    var s := sign + body;
    BodyChars(ip, fp);
    forall i | 0 <= i < |s| ensures IsNumChar(s[i]) {
      if i >= |sign| { assert s[i] == body[i - |sign|]; }
    }
  }

  lemma BodyChars(ip: seq<char>, fp: seq<char>)
    requires AllDigits(ip) && AllDigits(fp)
    ensures var body := ip + "." + fp;
      AllNumChars(body) && body[..|ip|] == ip && body[|ip|] == '.' && body[|ip| + 1..] == fp
      && '.' !in ip
  {
    var body := ip + "." + fp;
    forall i | 0 <= i < |body| ensures IsNumChar(body[i]) {
      if i < |ip| { assert body[i] == ip[i]; }
      else if i > |ip| { assert body[i] == fp[i - |ip| - 1]; }
    }
    assert forall i | 0 <= i < |ip| :: ip[i] != '.';
  }

  /** The dot splits the body into the integer part and the fraction. */
  lemma PyFloatBody(ip: seq<char>, fp: seq<char>)
    requires AllDigits(ip) && AllDigits(fp)
    ensures var body := ip + "." + fp;
      IndexOf(body, '.') == |ip| && body[..|ip|] == ip && body[|ip| + 1..] == fp
  {
    BodyChars(ip, fp);
    IndexOfIs(ip + "." + fp, '.', |ip|);
  }

  // ---------------------------------------------------------------------
  // End to end: the controller's replies as the client reads them
  // ---------------------------------------------------------------------

  /** Characters from space to '~'. */
  predicate Printable(s: seq<char>) { forall i | 0 <= i < |s| :: ' ' <= s[i] <= '~' }

  lemma PrintableAppend(a: seq<char>, b: seq<char>)
    requires Printable(a) && Printable(b)
    ensures Printable(a + b)
  {
    forall i | 0 <= i < |a + b| ensures ' ' <= (a + b)[i] <= '~' {
      if i >= |a| { assert (a + b)[i] == b[i - |a|]; }
    }
  }

  lemma DigitsPrintable(ds: seq<char>)
    requires AllDigits(ds)
    ensures Printable(ds) && AllNumChars(ds)
  {
    assert forall i | 0 <= i < |ds| :: IsDigit(ds[i]);
  }

  /** A printable reply line, with no white space at its ends, is what
      `send_command` returns for it, whatever follows the CR. */
  lemma ReadReply(line: seq<char>, rest: seq<char>)
    requires Printable(line) && line != [] && line[0] != ' ' && EndsClean(line)
    ensures ResponseLine(line + "\r\n" + rest) == line
  {
    assert line + "\r\n" + rest == line + ['\r'] + ("\n" + rest);
    ResponseOfReply(line, '\r', "\n" + rest);
  }

  /** Text whose last character is neither 'H' (the hexadecimal marker)
      nor a space. */
  predicate EndsClean(t: seq<char>) { t != [] && t[|t| - 1] != 'H' && t[|t| - 1] != ' ' }

  lemma EndsCleanAppend(a: seq<char>, b: seq<char>)
    requires EndsClean(b)
    ensures EndsClean(a + b) && (a + b)[|a + b| - 1] == b[|b| - 1]
  {
  }

  /** A field `<p>=<num><suffix>\r\n` reaches the client's parser intact. */
  lemma ReadField(p: char, num: seq<char>, suffix: seq<char>, rest: seq<char>)
    requires p != '=' && ' ' < p <= '~'
    requires num != [] && AllNumChars(num) && (suffix == [] || !IsNumChar(suffix[0]))
    requires Printable(num + suffix) && EndsClean(num + suffix)
    ensures ParsedValue(ResponseLine([p] + "=" + (num + suffix) + "\r\n" + rest), [p]) == NumberValue(num)
  {
    var t := num + suffix;
    var line := [p] + "=" + t;
    PrintableAppend([p] + "=", t);
    EndsCleanAppend([p] + "=", t);
    ReadReply(line, rest);
    ParseField(p, num, suffix);
  }

  /** GET_P: `get_pressure` returns the published pressure as an int. */
  lemma ReadPressure(press: uint32, rest: seq<char>)
    ensures ParsedValue(ResponseLine(RpiProtocol.PressReply(press) + rest), "P") == IntValue(press)
  {
    var ds := Digits(press);
    DigitsPrintable(ds);
    assert RpiProtocol.PressReply(press) + rest == ['P'] + "=" + (ds + "Pa") + "\r\n" + rest;
    EndsCleanAppend(ds, "Pa");
    PrintableAppend(ds, "Pa");
    ReadField('P', ds, "Pa", rest);
    IntOfDigits(press);
  }

  lemma {:induction false} Pow10Add(a: nat, b: nat)
    ensures Pow10(a + b) == Pow10(a) * Pow10(b)
  {
    if a > 0 {
      Pow10Add(a - 1, b);
    }
  }

  /** A zero-padded field of a value below 10^w holds exactly w digits. */
  lemma PaddedField(n: nat, w: nat)
    requires 1 <= w && n < Pow10(w)
    ensures var f := ZeroPad(Digits(n), w);
      |f| == w && AllDigits(f) && Value(f) == n
  {
    DigitsLength(n, w);
    ValueOfZeroPad(Digits(n), w);
    ValueOfDigits(n);
  }

  /** GET_T: `get_temperature` returns the temperature in degrees exactly,
      as hundredths; INT32_MIN, whose negation overflows, is not printed
      as a number. */
  lemma ReadTemperature(temp: int32, rest: seq<char>)
    requires temp != INT32_MIN
    ensures ParsedValue(ResponseLine(RpiProtocol.TempReply(temp) + rest), "T") == FloatValue(Decimal(temp, 2))
  {
    var num := TempNumber(temp);
    assert RpiProtocol.TempReply(temp) + rest == ['T'] + "=" + (num + "_C") + "\r\n" + rest by {
      TempReplyAsField(temp, rest);
    }
    assert num != [] && AllNumChars(num) && NumberValue(num) == FloatValue(Decimal(temp, 2)) by {
      TempNumberText(temp);
      TempNumberValue(temp);
    }
    TempFieldText(temp);
    ReadField('T', num, "_C", rest);
  }

  lemma TempFieldText(temp: int32)
    ensures Printable(TempNumber(temp) + "_C") && EndsClean(TempNumber(temp) + "_C")
  {
    var num := TempNumber(temp);
    assert Printable(num) by {
      TempNumberText(temp);
    }
    assert Printable("_C") && EndsClean("_C") by {
      assert "_C"[0] == '_' && "_C"[1] == 'C';
    }
    EndsCleanAppend(num, "_C");
    PrintableAppend(num, "_C");
  }

  /** The number in a temperature reply: the sign, then |t| / 100 and
      |t| % 100 with two digits each. */
  function TempNumber(temp: int32): seq<char>
  {
    var a := RpiProtocol.Abs(temp);
    (if temp < 0 then "-" else "+") + (ZeroPad(Digits(a / 100), 2) + "." + ZeroPad(Digits(a % 100), 2))
  }

  lemma TempReplyAsField(temp: int32, rest: seq<char>)
    requires temp != INT32_MIN
    ensures RpiProtocol.TempReply(temp) + rest == ['T'] + "=" + (TempNumber(temp) + "_C") + "\r\n" + rest
  {
    RpiProtocol.TempReplyShape(temp);
  }

  lemma TempFields(temp: int32)
    ensures var a := RpiProtocol.Abs(temp);
      var ip, fp := ZeroPad(Digits(a / 100), 2), ZeroPad(Digits(a % 100), 2);
      ip != [] && AllDigits(ip) && AllDigits(fp) && Value(ip) == a / 100 && Value(fp) == a % 100 && |fp| == 2
  {
    var a := RpiProtocol.Abs(temp);
    ValueOfZeroPad(Digits(a / 100), 2);
    ValueOfDigits(a / 100);
    assert a % 100 < Pow10(2);
    PaddedField(a % 100, 2);
  }

  lemma TempNumberText(temp: int32)
    ensures var num := TempNumber(temp); num != [] && AllNumChars(num) && Printable(num)
  {
    var a := RpiProtocol.Abs(temp);
    TempFields(temp);
    NumPrintable(if temp < 0 then "-" else "+", ZeroPad(Digits(a / 100), 2), ZeroPad(Digits(a % 100), 2));
    SignedNumChars(if temp < 0 then "-" else "+", ZeroPad(Digits(a / 100), 2), ZeroPad(Digits(a % 100), 2));
  }

  lemma TempNumberValue(temp: int32)
    ensures AllNumChars(TempNumber(temp)) && NumberValue(TempNumber(temp)) == FloatValue(Decimal(temp, 2))
  {
    var a := RpiProtocol.Abs(temp);
    var sign := if temp < 0 then "-" else "+";
    var ip, fp := ZeroPad(Digits(a / 100), 2), ZeroPad(Digits(a % 100), 2);
    TempFields(temp);
    assert Mantissa(ip, fp) == a by {
      assert Pow10(|fp|) == 100;
      assert Mantissa(ip, fp) == (a / 100) * 100 + a % 100;
    }
    FloatOfParts(sign, ip, fp, temp, 2);
  }

  lemma NumPrintable(sign: seq<char>, ip: seq<char>, fp: seq<char>)
    requires IsSign(sign) && AllDigits(ip) && AllDigits(fp)
    ensures Printable(sign + (ip + "." + fp))
  {
    DigitsPrintable(ip);
    DigitsPrintable(fp);
    PrintableAppend(ip, ".");
    PrintableAppend(ip + ".", fp);
    PrintableAppend(sign, ip + "." + fp);
  }

  /** The number in a reply printed as `%ld.%0<w>ld` from a quotient `q`
      and a remainder magnitude `r`, followed by `z` literal zeros: the
      sign of `q`, the digits of |q|, a dot and the padded fraction. */
  function FixedText(q: int, r: nat, w: nat, z: nat): seq<char>
  {
    (if q < 0 then "-" else []) + (Digits(RpiProtocol.Abs(q)) + "." + (ZeroPad(Digits(r), w) + Zeros(z)))
  }

  /** It is what `%ld.%0<w>ld` prints, followed by the zeros. */
  lemma FixedTextPrinted(q: int, r: nat, w: nat, z: nat)
    ensures FixedText(q, r, w, z) == FormatDec(q, 0) + "." + FormatDec(r, w) + Zeros(z)
  {
    assert ZeroPad(Digits(RpiProtocol.Abs(q)), 0) == Digits(RpiProtocol.Abs(q));
  }

  /** The fraction holds w + z digits and denotes r * 10^z. */
  lemma FractionDigits(r: nat, w: nat, z: nat)
    requires 1 <= w && r < Pow10(w)
    ensures var fp := ZeroPad(Digits(r), w) + Zeros(z);
      AllDigits(fp) && |fp| == w + z && Value(fp) == r * Pow10(z)
  {
    PaddedField(r, w);
    ZerosValue(z);
    ValueAppend(ZeroPad(Digits(r), w), Zeros(z));
  }

  /** (a * 10^w + r) * 10^z. */
  function Scaled(a: nat, r: nat, w: nat, z: nat): int
  {
    (a * Pow10(w) + r) * Pow10(z)
  }

  /** Such a number is read back as ±(|q| * 10^w + r) * 10^z with w + z
      decimals, negative exactly when `q` is: a negative value whose
      quotient is 0 is read back positive. The caller names that value `b`
      and that scale. */
  lemma FixedTextValue(q: int, r: nat, w: nat, z: nat, b: int, scale: nat)
    requires 1 <= w && r < Pow10(w)
    requires b == (if q < 0 then -Scaled(RpiProtocol.Abs(q), r, w, z) else Scaled(RpiProtocol.Abs(q), r, w, z))
    requires scale == w + z
    ensures var num := FixedText(q, r, w, z); num != [] && AllNumChars(num) && Printable(num) && EndsClean(num)
    ensures NumberValue(FixedText(q, r, w, z)) == FloatValue(Decimal(b, scale))
  {
    FixedTextChars(q, r, w, z);
    FixedValueCore(q, r, w, z, b, scale);
  }

  lemma FixedValueCore(q: int, r: nat, w: nat, z: nat, b: int, scale: nat)
    requires 1 <= w && r < Pow10(w)
    requires b == (if q < 0 then -Scaled(RpiProtocol.Abs(q), r, w, z) else Scaled(RpiProtocol.Abs(q), r, w, z))
    requires scale == w + z
    ensures var sign: seq<char> := if q < 0 then "-" else [];
      var ip := Digits(RpiProtocol.Abs(q));
      var fp := ZeroPad(Digits(r), w) + Zeros(z);
      AllNumChars(sign + (ip + "." + fp))
      && NumberValue(sign + (ip + "." + fp)) == FloatValue(Decimal(b, scale))
  {
    var sign: seq<char> := if q < 0 then "-" else [];
    var ip := Digits(RpiProtocol.Abs(q));
    var fp := ZeroPad(Digits(r), w) + Zeros(z);
    assert IsSign(sign) && (sign == "-" <==> q < 0);
    assert AllDigits(fp) && |fp| == w + z && Mantissa(ip, fp) == Scaled(RpiProtocol.Abs(q), r, w, z) by {
      FractionDigits(r, w, z);
      ValueOfDigits(RpiProtocol.Abs(q));
      MantissaSplit(ip, fp, RpiProtocol.Abs(q), r, w, z);
    }
    FloatOfParts(sign, ip, fp, b, scale);
  }

  lemma FixedTextChars(q: int, r: nat, w: nat, z: nat)
    requires 1 <= w && r < Pow10(w)
    ensures var num := FixedText(q, r, w, z); num != [] && AllNumChars(num) && Printable(num) && EndsClean(num)
  {
    var sign: seq<char> := if q < 0 then "-" else [];
    var ip := Digits(RpiProtocol.Abs(q));
    var fp := ZeroPad(Digits(r), w) + Zeros(z);
    FractionDigits(r, w, z);
    NumPrintable(sign, ip, fp);
    SignedNumChars(sign, ip, fp);
    var num := sign + (ip + "." + fp);
    assert num[|num| - 1] == fp[|fp| - 1];
    assert IsDigit(fp[|fp| - 1]);
  }

  /** With |fp| = w + z and fp = b * 10^z, the mantissa is (a * 10^w + b) * 10^z. */
  lemma MantissaSplit(ip: seq<char>, fp: seq<char>, a: nat, b: nat, w: nat, z: nat)
    requires AllDigits(ip) && AllDigits(fp) && Value(ip) == a && |fp| == w + z && Value(fp) == b * Pow10(z)
    ensures Mantissa(ip, fp) == Scaled(a, b, w, z)
  {
    var d, p := Pow10(w), Pow10(z);
    Pow10Add(w, z);
    Distribute(a, d, p, b);
  }

  lemma Distribute(a: int, d: int, p: int, b: int)
    ensures a * (d * p) + b * p == (a * d + b) * p
  {
  }

  /** What a fixed-point reply of `v` split by `d` and followed by a factor
      `p` of zeros reads back as: `v * p`, but positive when the quotient is
      0 and `v` negative. */
  function Shifted(v: int, d: int, p: int): int
  {
    if -d < v < 0 then -v * p else v * p
  }

  /** The arithmetic of truncating division: `mag` = (|q| * d + |m|) * p,
      signed like `q`, is `Shifted(v, d, p)`. */
  lemma FixedArith(v: int, q: int, m: int, d: int, p: int, mag: int)
    requires d > 0 && p >= 1 && q * d + m == v
    requires v >= 0 ==> 0 <= m < d
    requires v < 0 ==> -d < m <= 0
    requires mag == (RpiProtocol.Abs(q) * d + RpiProtocol.Abs(m)) * p
    ensures (if q < 0 then -mag else mag) == Shifted(v, d, p)
  {
    var aq, am := RpiProtocol.Abs(q), RpiProtocol.Abs(m);
    if q <= -1 {
      MulGrows(d, -q);
      assert aq * d == -(q * d) && aq * d >= d;
      assert v < 0 && !(-d < v) && am == -m;
      assert aq * d + am == -v;
      assert -mag == v * p;
    } else if q >= 1 {
      MulGrows(d, q);
      assert v >= 0 && am == m && aq == q;
      assert aq * d + am == v;
    } else {
      assert aq * d == 0 && v == m;
      assert mag == am * p;
    }
  }


  /** GET_K: `get_K` returns the gain with five decimals; a gain between
      -1.00 and 0 comes back positive. */
  lemma ReadGain(k: int32, rest: seq<char>)
    ensures ParsedValue(ResponseLine(RpiProtocol.KReply(k) + rest), "K")
         == FloatValue(Decimal(if -100 < k < 0 then -(k as int) * 1000 else k * 1000, 5))
  {
    var num := FixedText(CDiv(k, 100), RpiProtocol.Abs(CMod(k, 100)), 2, 3);
    assert RpiProtocol.KReply(k) + rest == ['K'] + "=" + (num + []) + "\r\n" + rest by {
      KReplyAsField(k);
      assert num + [] == num;
    }
    GainValue(k);
    ReadField('K', num, [], rest);
  }

  lemma KReplyAsField(k: int32)
    ensures RpiProtocol.KReply(k) == ['K'] + "=" + FixedText(CDiv(k, 100), RpiProtocol.Abs(CMod(k, 100)), 2, 3) + "\r\n"
  {
    var a, b := FormatDec(CDiv(k, 100), 0), FormatDec(RpiProtocol.Abs(CMod(k, 100)), 2);
    assert FixedText(CDiv(k, 100), RpiProtocol.Abs(CMod(k, 100)), 2, 3) == a + "." + b + "000" by {
      FixedTextPrinted(CDiv(k, 100), RpiProtocol.Abs(CMod(k, 100)), 2, 3);
      assert Zeros(3) == "000";
    }
  }

  /** The number in a gain reply is the gain times 1000 with five decimals,
      but for the sign lost between -1.00 and 0. */
  lemma GainValue(k: int32)
    ensures var num := FixedText(CDiv(k, 100), RpiProtocol.Abs(CMod(k, 100)), 2, 3);
      num != [] && AllNumChars(num) && Printable(num) && EndsClean(num + [])
      && NumberValue(num) == FloatValue(Decimal(if -100 < k < 0 then -(k as int) * 1000 else k * 1000, 5))
  {
    var q, m := CDiv(k, 100), CMod(k, 100);
    assert q * 100 + m == k && (k >= 0 ==> 0 <= m < 100) && (k < 0 ==> -100 < m <= 0) by {
      CDivModSpec(k, 100);
    }
    assert Pow10(2) == 100 && Pow10(3) == 1000;
    var t := if -100 < k < 0 then -(k as int) * 1000 else k * 1000;
    assert t == Shifted(k, 100, 1000);
    FixedValueOf(k, q, m, 2, 3, 100, 1000, t, 5);
  }

  /** GET_A: `get_acceleration` returns the angle with four decimals; an
      angle between -1.000 and 0 comes back positive. */
  lemma ReadAngle(a: int32, rest: seq<char>)
    ensures ParsedValue(ResponseLine(RpiProtocol.AngleReply(a) + rest), "A")
         == FloatValue(Decimal(if -1000 < a < 0 then -(a as int) * 10 else a * 10, 4))
  {
    var num := FixedText(CDiv(a, 1000), RpiProtocol.Abs(CMod(a, 1000)), 3, 1);
    assert RpiProtocol.AngleReply(a) + rest == ['A'] + "=" + (num + []) + "\r\n" + rest by {
      AngleReplyAsField(a);
      assert num + [] == num;
    }
    AngleValue(a);
    ReadField('A', num, [], rest);
  }

  lemma AngleReplyAsField(a: int32)
    ensures RpiProtocol.AngleReply(a) == ['A'] + "=" + FixedText(CDiv(a, 1000), RpiProtocol.Abs(CMod(a, 1000)), 3, 1) + "\r\n"
  {
    var x, y := FormatDec(CDiv(a, 1000), 0), FormatDec(RpiProtocol.Abs(CMod(a, 1000)), 3);
    assert FixedText(CDiv(a, 1000), RpiProtocol.Abs(CMod(a, 1000)), 3, 1) == x + "." + y + "0" by {
      FixedTextPrinted(CDiv(a, 1000), RpiProtocol.Abs(CMod(a, 1000)), 3, 1);
      assert Zeros(1) == "0";
    }
  }

  /** The number in an angle reply is the angle times 10 with four
      decimals, but for the sign lost between -1.000 and 0. */
  lemma AngleValue(a: int32)
    ensures var num := FixedText(CDiv(a, 1000), RpiProtocol.Abs(CMod(a, 1000)), 3, 1);
      num != [] && AllNumChars(num) && Printable(num) && EndsClean(num + [])
      && NumberValue(num) == FloatValue(Decimal(if -1000 < a < 0 then -(a as int) * 10 else a * 10, 4))
  {
    var q, m := CDiv(a, 1000), CMod(a, 1000);
    assert q * 1000 + m == a && (a >= 0 ==> 0 <= m < 1000) && (a < 0 ==> -1000 < m <= 0) by {
      CDivModSpec(a, 1000);
    }
    assert Pow10(3) == 1000 && Pow10(1) == 10;
    var t := if -1000 < a < 0 then -(a as int) * 10 else a * 10;
    assert t == Shifted(a, 1000, 10);
    FixedValueOf(a, q, m, 3, 1, 1000, 10, t, 4);
  }

  /** A value split by truncating division into a quotient and a remainder
      and printed as `%ld.%0<w>ld` followed by `z` zeros reads back as the
      value times 10^z with w + z decimals, but for the sign lost when the
      quotient is 0. */
  lemma FixedValueOf(v: int, q: int, m: int, w: nat, z: nat, d: int, p: int, t: int, scale: nat)
    requires 1 <= w && d == Pow10(w) && p == Pow10(z)
    requires q * d + m == v
    requires v >= 0 ==> 0 <= m < d
    requires v < 0 ==> -d < m <= 0
    requires t == Shifted(v, d, p) && scale == w + z
    ensures var num := FixedText(q, RpiProtocol.Abs(m), w, z);
      num != [] && AllNumChars(num) && Printable(num) && EndsClean(num + [])
      && NumberValue(num) == FloatValue(Decimal(t, scale))
  {
    var num := FixedText(q, RpiProtocol.Abs(m), w, z);
    var mag := Scaled(RpiProtocol.Abs(q), RpiProtocol.Abs(m), w, z);
    assert (if q < 0 then -mag else mag) == t by {
      ScaledBy(RpiProtocol.Abs(q), RpiProtocol.Abs(m), w, z, d, p);
      FixedArith(v, q, m, d, p, mag);
    }
    FixedTextValue(q, RpiProtocol.Abs(m), w, z, t, scale);
    assert num + [] == num;
  }

  lemma ScaledBy(a: nat, r: nat, w: nat, z: nat, d: int, p: int)
    requires d == Pow10(w) && p == Pow10(z)
    ensures Scaled(a, r, w, z) == (a * d + r) * p
  {
  }

  // ---------------------------------------------------------------------
  // set_K against the firmware
  // ---------------------------------------------------------------------

  /** What `set_K` writes, received by the firmware from the start of a
      line, becomes one ready SET_K= command whose argument `atoi` reads
      back as the gain sent; the '\n' after the '\r' is ignored. */
  lemma SetKDelivered(b: RpiProtocol.LineBuffer, kCenti: int32, k: int32)
    requires RpiProtocol.Inv(b) && b.idx == 0
    ensures var r := RpiProtocol.Feed(b, Framed(SetKCommand(kCenti)));
      var c := RpiProtocol.Dispatch(RpiProtocol.Line(r));
      r.ready && r.idx == 0 && c == RpiProtocol.SetK(FormatDec(kCenti, 0))
      && RpiProtocol.KAfter(c, k) == kCenti
  {
    SetKLine(b, kCenti);
    SetKDispatched(kCenti, k);
  }

  /** The framed command arrives as one ready line. */
  lemma SetKLine(b: RpiProtocol.LineBuffer, kCenti: int32)
    requires RpiProtocol.Inv(b) && b.idx == 0
    ensures var r := RpiProtocol.Feed(b, Framed(SetKCommand(kCenti)));
      r.ready && r.idx == 0 && RpiProtocol.Line(r) == SetKCommand(kCenti)
  {
    var s := SetKCommand(kCenti);
    var r := RpiProtocol.Feed(b, s + ['\r']);
    assert r.ready && r.idx == 0 && RpiProtocol.Line(r) == s by {
      SetKCommandChars(kCenti);
      RpiProtocol.LineOnTerminator(b, s, '\r');
      RpiProtocol.ShortLine(b, s, '\r');
    }
    assert Framed(s) == (s + ['\r']) + ['\n'];
    assert (s + ['\r'] + ['\n'])[..|s| + 1] == s + ['\r'];
    RpiProtocol.TerminatorOnEmptyLine(r, '\n');
  }

  /** The line is dispatched as SET_K= and `atoi` gives the gain back. */
  lemma SetKDispatched(kCenti: int32, k: int32)
    ensures var c := RpiProtocol.Dispatch(SetKCommand(kCenti));
      c == RpiProtocol.SetK(FormatDec(kCenti, 0)) && RpiProtocol.KAfter(c, k) == kCenti
  {
    var s := SetKCommand(kCenti);
    var arg := FormatDec(kCenti, 0);
    assert RpiProtocol.Dispatch(s) == RpiProtocol.SetK(arg) by {
      RpiProtocol.DispatchCommandText(RpiProtocol.SetK(arg), []);
      assert RpiProtocol.CommandText(RpiProtocol.SetK(arg)) + [] == s;
      assert arg + [] == arg;
    }
    assert Atoi(arg) == kCenti by {
      AtoiOfFormat(kCenti, []);
      assert arg + [] == arg;
    }
  }

  /** The SET_K= command for an int32 gain fits the 32-byte line buffer and
      holds neither terminators nor NUL. */
  lemma SetKCommandChars(kCenti: int32)
    ensures var s := SetKCommand(kCenti);
      1 <= |s| < RpiProtocol.CMD_BUF_LEN && forall i | 0 <= i < |s| :: !IsTerminator(s[i]) && s[i] != NUL
  {
    var arg := FormatDec(kCenti, 0);
    assert Pow10(10) == 10000000000;
    FormatDecLength(kCenti, 0, 10);
    FormatDecValue(kCenti, 0);
    var body := if kCenti < 0 then arg[1..] else arg;
    forall i | 0 <= i < |arg| ensures arg[i] == '-' || IsDigit(arg[i]) {
      if kCenti < 0 && i > 0 {
        assert arg[i] == body[i - 1];
      }
    }
    var s := SetKCommand(kCenti);
    forall i | 0 <= i < |s| ensures !IsTerminator(s[i]) && s[i] != NUL {
      if i >= 6 {
        assert s[i] == arg[i - 6];
      }
    }
  }

  /** The firmware's acknowledgement is what `set_K` returns: "SET_K=OK". */
  lemma SetKAcknowledged(rest: seq<char>)
    ensures ResponseLine(RpiProtocol.SET_K_OK + rest) == "SET_K=OK"
  {
    var line := "SET_K=OK";
    assert Printable(line);
    assert RpiProtocol.SET_K_OK + rest == line + "\r\n" + rest;
    ReadReply(line, rest);
  }
}
