/** Decimal text as the firmware's C library produces and consumes it:
    digit strings, `printf`'s `%ld` / `%0Nld` / `%lu` conversions, C strings
    ending at the first NUL, `strncmp` prefix tests and `atoi`. */
module Text {
  import opened CInt

  /** A byte received on the UART, read as a C `char`. */
  type Byte = c: char | c as int < 0x100

  const NUL: char := '\0'

  predicate IsDigit(c: char) { '0' <= c <= '9' }

  predicate AllDigits(s: seq<char>) { forall i | 0 <= i < |s| :: IsDigit(s[i]) }

  function DigitChar(d: nat): (c: char)
    requires d < 10
    ensures IsDigit(c)
  {
    ('0' as int + d) as char
  }

  function DigitValue(c: char): (d: nat)
    requires IsDigit(c)
    ensures d < 10 && DigitChar(d) == c
  {
    c as int - '0' as int
  }

  /** The decimal digits of `n`, most significant first, without leading
      zeros ("0" for 0): what `%lu` prints. */
  function Digits(n: nat): (s: seq<char>)
    ensures 1 <= |s| && AllDigits(s)
    ensures |s| > 1 ==> s[0] != '0'
  {
    if n < 10 then [DigitChar(n)] else Digits(n / 10) + [DigitChar(n % 10)]
  }

  /** The number a digit string denotes (leading zeros allowed). */
  function Value(s: seq<char>): nat
    requires AllDigits(s)
  {
    if s == [] then 0 else Value(s[..|s| - 1]) * 10 + DigitValue(s[|s| - 1])
  }

  /** Reading back what was printed gives the number. */
  lemma {:induction false} ValueOfDigits(n: nat)
    ensures Value(Digits(n)) == n
  {
    if n >= 10 {
      var s := Digits(n);
      assert s[..|s| - 1] == Digits(n / 10);
      ValueOfDigits(n / 10);
    }
  }

  /** Concatenating digit strings shifts the left part by the length of the right. */
  lemma {:induction false} ValueAppend(a: seq<char>, b: seq<char>)
    requires AllDigits(a) && AllDigits(b)
    ensures AllDigits(a + b)
    ensures Value(a + b) == Value(a) * Pow10(|b|) + Value(b)
  {
    assert AllDigits(a + b) by {
      forall i | 0 <= i < |a + b| ensures IsDigit((a + b)[i]) {
        if i < |a| { assert (a + b)[i] == a[i]; } else { assert (a + b)[i] == b[i - |a|]; }
      }
    }
    if b == [] {
      assert a + b == a;
    } else {
      var ab, b' := a + b, b[..|b| - 1];
      assert ab[..|ab| - 1] == a + b';
      assert ab[|ab| - 1] == b[|b| - 1];
      ValueAppend(a, b');
      var d := DigitValue(b[|b| - 1]);
      assert Value(ab) == Value(a + b') * 10 + d;
      assert Value(b) == Value(b') * 10 + d;
      ShiftByOneDigit(Value(a), Pow10(|b'|), Value(b'), d);
    }
  }

  lemma ShiftByOneDigit(va: int, p: int, vb: int, d: int)
    ensures (va * p + vb) * 10 + d == va * (10 * p) + (vb * 10 + d)
  {
  }

  /** A digit string of length k is below 10^k. */
  lemma {:induction false} ValueBound(s: seq<char>)
    requires AllDigits(s)
    ensures Value(s) < Pow10(|s|)
  {
    if s != [] {
      ValueBound(s[..|s| - 1]);
    }
  }

  /** `n` needs at most k digits when it is below 10^k. */
  lemma {:induction false} DigitsLength(n: nat, k: nat)
    requires 1 <= k && n < Pow10(k)
    ensures |Digits(n)| <= k
  {
    if n >= 10 {
      assert n / 10 < Pow10(k - 1);
      DigitsLength(n / 10, k - 1);
    }
  }

  function Zeros(k: nat): (s: seq<char>)
    ensures |s| == k && AllDigits(s)
    ensures forall i | 0 <= i < k :: s[i] == '0'
  {
    seq(k, _ => '0')
  }

  /** Left-pads with '0' up to `width` characters; longer text is not cut. */
  function ZeroPad(s: seq<char>, width: nat): (r: seq<char>)
    ensures |r| == if |s| < width then width else |s|
  {
    if |s| < width then Zeros(width - |s|) + s else s
  }

  /** Padding with zeros does not change the number. */
  lemma ValueOfZeroPad(s: seq<char>, width: nat)
    requires AllDigits(s)
    ensures AllDigits(ZeroPad(s, width)) && Value(ZeroPad(s, width)) == Value(s)
  {
    if |s| < width {
      ZerosValue(width - |s|);
      ValueAppend(Zeros(width - |s|), s);
    }
  }

  lemma {:induction false} ZerosValue(k: nat)
    ensures Value(Zeros(k)) == 0
  {
    if k > 0 {
      assert Zeros(k)[..k - 1] == Zeros(k - 1);
      ZerosValue(k - 1);
    }
  }

  /** `printf("%0<width>ld", v)`: a '-' for negative values, then the
      magnitude's digits, zero-padded so that the whole field (sign
      included) has at least `width` characters. `%ld` is width 0. */
  function FormatDec(v: int, width: nat): (s: seq<char>)
  {
    if v < 0 then "-" + ZeroPad(Digits(-v), if width > 0 then width - 1 else 0)
    else ZeroPad(Digits(v), width)
  }

  /** The printed field denotes `v`: its sign is '-' exactly for negative
      values and the rest is a digit string whose value is |v|. */
  lemma FormatDecValue(v: int, width: nat)
    ensures v < 0 ==> |FormatDec(v, width)| >= 2 && FormatDec(v, width)[0] == '-'
    ensures var body := if v < 0 then FormatDec(v, width)[1..] else FormatDec(v, width);
      1 <= |body| && AllDigits(body) && Value(body) == (if v < 0 then -v else v)
    ensures |FormatDec(v, width)| >= width
  {
    var m := if v < 0 then -v else v;
    var w := if v < 0 && width > 0 then width - 1 else width;
    ValueOfZeroPad(Digits(m), w);
    ValueOfDigits(m);
    if v < 0 {
      assert FormatDec(v, width)[1..] == ZeroPad(Digits(m), w);
    }
  }

  /** A field for |v| < 10^k takes at most max(width, k + 1) characters. */
  lemma FormatDecLength(v: int, width: nat, k: nat)
    requires 1 <= k && -(Pow10(k) as int) < v < Pow10(k)
    ensures |FormatDec(v, width)| <= (if width > k + 1 then width else k + 1)
  {
    DigitsLength(if v < 0 then -v else v, k);
  }

  /** The C string stored in a buffer: everything before the first NUL. */
  function CString(buf: seq<char>): (s: seq<char>)
    ensures s <= buf && NUL !in s
    ensures |s| < |buf| ==> buf[|s|] == NUL
  {
    if buf == [] || buf[0] == NUL then [] else [buf[0]] + CString(buf[1..])
  }

  /** A NUL written right after NUL-free text delimits exactly that text. */
  lemma {:induction false} CStringOfTerminated(buf: seq<char>, n: nat)
    requires n < |buf| && buf[n] == NUL && NUL !in buf[..n]
    ensures CString(buf) == buf[..n]
  {
    if n > 0 {
      assert buf[0] in buf[..n];
      assert buf[1..][..n - 1] == buf[1..n];
      assert forall c | c in buf[1..n] :: c in buf[..n];
      CStringOfTerminated(buf[1..], n - 1);
    }
  }

  /** What `snprintf` leaves in a buffer of `size` bytes: the text, cut to
      `size - 1` characters so that the NUL still fits. */
  function Snprintf(s: seq<char>, size: nat): (r: seq<char>)
    requires size >= 1
    ensures r <= s && |r| < size
    ensures |s| < size ==> r == s
  {
    if |s| < size then s else s[..size - 1]
  }

  /** `strncmp(s, p, |p|) == 0` on a NUL-free `s` and `p`: `p` is a prefix of `s`. */
  predicate StartsWith(s: seq<char>, p: seq<char>) { p <= s }

  /** The characters C's `isspace` accepts in the "C" locale. */
  predicate IsCSpace(c: char) { c == ' ' || '\t' <= c <= '\r' }

  function SkipCSpaces(s: seq<char>): (r: seq<char>)
    ensures |r| <= |s| && r == s[|s| - |r|..] && (r == [] || !IsCSpace(r[0]))
  {
    if s != [] && IsCSpace(s[0]) then SkipCSpaces(s[1..]) else s
  }

  /** The longest run of decimal digits at the start of `s`. */
  function LeadingDigits(s: seq<char>): (r: seq<char>)
    ensures r <= s && AllDigits(r)
    ensures |r| < |s| ==> !IsDigit(s[|r|])
  {
    if s != [] && IsDigit(s[0]) then [s[0]] + LeadingDigits(s[1..]) else []
  }

  /** `atoi` of newlib (`(int)strtol(s, NULL, 10)` with a 32-bit `long`):
      leading white space is skipped, one optional sign is taken, then the
      longest run of digits; out-of-range values saturate at INT32_MIN and
      INT32_MAX as `strtol` does, and text without digits gives 0. */
  function Atoi(s: seq<char>): (r: int32)
  {
    SignedDecimal(SkipCSpaces(s))
  }

  /** The conversion after the white space: sign, digits, saturation. */
  function SignedDecimal(t: seq<char>): (r: int32)
  {
    var neg := t != [] && t[0] == '-';
    var body := if t != [] && (t[0] == '-' || t[0] == '+') then t[1..] else t;
    var m: int := Value(LeadingDigits(body));
    var v: int := if neg then -m else m;
    if v < INT32_MIN then INT32_MIN else if v > INT32_MAX then INT32_MAX else v
  }

  /** `atoi` reads back what `%ld` printed, for any int32. */
  lemma AtoiOfFormat(v: int32, suffix: seq<char>)
    requires suffix == [] || !IsDigit(suffix[0])
    ensures Atoi(FormatDec(v, 0) + suffix) == v
  {
    var m: nat := if v < 0 then -(v as int) else v;
    var ds := Digits(m);
    assert FormatDec(v, 0) == (if v < 0 then "-" else []) + ds by {
      assert ZeroPad(ds, 0) == ds;
    }
    AtoiOfSignedDigits(v < 0, m, suffix, FormatDec(v, 0) + suffix);
  }

  /** `atoi` of an optional '-', the digits of `m`, and text that does not
      start with a digit. */
  lemma AtoiOfSignedDigits(neg: bool, m: nat, suffix: seq<char>, s: seq<char>)
    requires suffix == [] || !IsDigit(suffix[0])
    requires InInt32(if neg then -(m as int) else m)
    requires s == (if neg then "-" else []) + Digits(m) + suffix
    ensures Atoi(s) == if neg then -(m as int) else m
  {
    var ds := Digits(m);
    assert Value(ds) == m by {
      ValueOfDigits(m);
    }
    assert LeadingDigits(ds + suffix) == ds by {
      LeadingDigitsOf(ds, suffix);
    }
    assert s[0] == (if neg then '-' else ds[0]);
    SignedDecimalOf(neg, ds, suffix, s);
    AtoiNoSpace(s);
  }

  lemma AtoiNoSpace(s: seq<char>)
    requires s != [] && !IsCSpace(s[0])
    ensures Atoi(s) == SignedDecimal(s)
  {
  }

  lemma SignedDecimalOf(neg: bool, ds: seq<char>, suffix: seq<char>, t: seq<char>)
    requires AllDigits(ds) && ds != [] && LeadingDigits(ds + suffix) == ds
    requires InInt32(if neg then -(Value(ds) as int) else Value(ds))
    requires t == (if neg then ['-'] else []) + ds + suffix
    ensures SignedDecimal(t) == (if neg then -(Value(ds) as int) else Value(ds))
  {
    if neg {
      assert t[1..] == ds + suffix;
    } else {
      assert t == ds + suffix && IsDigit(t[0]);
    }
  }

  lemma {:induction false} LeadingDigitsOf(ds: seq<char>, suffix: seq<char>)
    requires AllDigits(ds) && (suffix == [] || !IsDigit(suffix[0]))
    ensures LeadingDigits(ds + suffix) == ds
  {
    if ds != [] {
      assert (ds + suffix)[1..] == ds[1..] + suffix;
      LeadingDigitsOf(ds[1..], suffix);
    } else {
      assert ds + suffix == suffix;
    }
  }

  /** Text that does not start with a number (after white space and a sign) gives 0. */
  lemma AtoiOfNonNumeric(s: seq<char>)
    requires var t := SkipCSpaces(s);
      var body := if t != [] && (t[0] == '-' || t[0] == '+') then t[1..] else t;
      body == [] || !IsDigit(body[0])
    ensures Atoi(s) == 0
  {
  }
}
