/** Numbers as text and back: the digits the formatter prints, and strtol and strtoul reading them. */
module NumberFormat {
  import opened Words
  import opened Arithmetic

  /** `n` copies of a character, none for a negative `n`. */
  function Fill(c: char, n: int): (s: string)
    ensures |s| == if n <= 0 then 0 else n
    decreases n
  {
    if n <= 0 then "" else Fill(c, n - 1) + [c]
  }

  function DigitChar(d: nat, upper: bool): char
    requires d < 16
  {
    if upper then "0123456789ABCDEF"[d] else "0123456789abcdef"[d]
  }

  /** The digits of a value, most significant first; none for 0. */
  function Digits(value: nat, base: nat, upper: bool): string
    requires 2 <= base <= 16
  {
    if value == 0 then "" else Digits(value / base, base, upper) + [DigitChar(value % base, upper)]
  }

  /** The digits as fmt_number collects them: 0 shows unless the precision is 0. */
  function Shown(value: nat, base: nat, upper: bool, precision: int): string
    requires 2 <= base <= 16
  {
    if value == 0 && precision != 0 then "0" else Digits(value, base, upper)
  }

  function HexPrefix(value: nat, base: nat, upper: bool, altForm: bool): string {
    if altForm && base == 16 && value != 0 then ['0', if upper then 'X' else 'x'] else ""
  }

  /** What a number conversion asks for beside the value. */
  datatype Layout = Layout(width: int, precision: int, leftAlign: bool, zeroPad: bool, altForm: bool)

  /** The zeros between the prefix and the digits. */
  function ZeroCount(lay: Layout, prefix: nat, digits: nat): (z: nat) {
    var zeros := if lay.precision > digits then lay.precision - digits else 0;
    var body := prefix + zeros + digits;
    if lay.zeroPad && !lay.leftAlign && lay.precision < 0 && lay.width > body then zeros + (lay.width - body) else zeros
  }

  /** fmt_number: padding, prefix, zeros, digits, padding. */
  function NumberText(value: nat, base: nat, upper: bool, sign: string, lay: Layout): string
    requires 2 <= base <= 16
  {
    var digits := Shown(value, base, upper, lay.precision);
    var prefix := sign + HexPrefix(value, base, upper, lay.altForm);
    var zeros := ZeroCount(lay, |prefix|, |digits|);
    var pad := lay.width - (|prefix| + zeros + |digits|);
    (if lay.leftAlign then "" else Fill(' ', pad)) + prefix + Fill('0', zeros) + digits
    + (if lay.leftAlign then Fill(' ', pad) else "")
  }

  /** The 64 places of the digit buffer are enough for every 64-bit value in every base. */
  lemma {:induction false} DigitsFit(value: nat, base: nat, upper: bool, bits: nat, bound: nat)
    requires 2 <= base <= 16 && value < bound && bound == Pow2(bits)
    ensures |Digits(value, base, upper)| <= bits
    decreases bits
  {
    if value > 0 {
      Quotient(value, base);
      DigitsFit(value / base, base, upper, bits - 1, bound / 2);
    }
  }

  lemma Quotient(value: nat, base: nat)
    requires value > 0 && base >= 2
    ensures 2 * (value / base) <= value && value / base < value
    ensures value / base * base + value % base == value
  {
    var q := value / base;
    assert value == q * base + value % base;
    MulLe(2, base, q);
  }

  // ---- Parsing ---------------------------------------------------------------------------------

  predicate IsBlank(c: char) {
    c == ' ' || c == '\t'
  }

  function SkipBlanks(s: string): (r: string)
    ensures |r| <= |s|
  {
    if s != "" && IsBlank(s[0]) then SkipBlanks(s[1..]) else s
  }

  /** The value of a digit or letter, or -1. */
  function DigitValue(c: char): (d: int)
    ensures -1 <= d < 36
  {
    if '0' <= c <= '9' then c as int - '0' as int
    else if 'a' <= c <= 'z' then c as int - 'a' as int + 10
    else if 'A' <= c <= 'Z' then c as int - 'A' as int + 10
    else -1
  }

  /** A 32-bit result, signed or not. */
  function Keep(signed: bool, x: int): int {
    if signed then S32(x) else U32(x)
  }

  function ParseDigits(s: string, base: int, signed: bool, result: int): (int, string) {
    if s == "" then (result, s)
    else
      var d := DigitValue(s[0]);
      if d < 0 || d >= base then (result, s) else ParseDigits(s[1..], base, signed, Keep(signed, result * base + d))
  }

  predicate HexMark(s: string) {
    |s| >= 2 && s[0] == '0' && (s[1] == 'x' || s[1] == 'X')
  }

  /** The base to use and where the digits start. */
  function BaseAndStart(s: string, base: int): (int, string) {
    if base == 0 then
      if s != "" && s[0] == '0' then
        if HexMark(s) then (16, s[2..]) else (8, s[1..])
      else (10, s)
    else if base == 16 && HexMark(s) then (16, s[2..])
    else (base, s)
  }

  /** strtol: the value, and what is left of the string. */
  function Strtol(s: string, base: int): (int, string) {
    var t := SkipBlanks(s);
    var negative := t != "" && t[0] == '-';
    var u := if t != "" && (t[0] == '-' || t[0] == '+') then t[1..] else t;
    var (b, digits) := BaseAndStart(u, base);
    var (result, rest) := ParseDigits(digits, b, true, 0);
    (S32(if negative then -result else result), rest)
  }

  /** strtoul: no minus sign. */
  function Strtoul(s: string, base: int): (int, string) {
    var t := SkipBlanks(s);
    var u := if t != "" && t[0] == '+' then t[1..] else t;
    var (b, digits) := BaseAndStart(u, base);
    ParseDigits(digits, b, false, 0)
  }

  // ---- Reading back what was printed ---------------------------------------------------------------

  lemma {:induction false} FillFront(c: char, n: nat)
    requires n > 0
    ensures Fill(c, n) == [c] + Fill(c, n - 1)
  {
    if n > 1 {
      FillFront(c, n - 1);
    }
  }

  lemma {:induction false} BlanksSkipped(n: int, t: string)
    ensures SkipBlanks(Fill(' ', n) + t) == SkipBlanks(t)
    decreases n
  {
    var s := Fill(' ', n) + t;
    if n <= 0 {
      assert s == t;
    } else {
      FillFront(' ', n);
      assert s[0] == ' ' && s[1..] == Fill(' ', n - 1) + t;
      BlanksSkipped(n - 1, t);
    }
  }

  lemma {:induction false} ZerosRead(n: nat, t: string, base: int, signed: bool)
    requires 2 <= base
    ensures ParseDigits(Fill('0', n) + t, base, signed, 0) == ParseDigits(t, base, signed, 0)
  {
    var s := Fill('0', n) + t;
    if n == 0 {
      assert s == t;
    } else {
      FillFront('0', n);
      assert s[0] == '0' && s[1..] == Fill('0', n - 1) + t;
      ZerosRead(n - 1, t, base, signed);
    }
  }

  lemma DigitBack(d: nat, upper: bool)
    requires d < 16
    ensures DigitValue(DigitChar(d, upper)) == d
    ensures !IsBlank(DigitChar(d, upper)) && DigitChar(d, upper) !in "xX+-"
  {
  }

  /** Wrapping early changes nothing. */
  lemma KeepStep(signed: bool, x: int, base: int, d: int)
    ensures Keep(signed, Keep(signed, x) * base + d) == Keep(signed, x * base + d)
  {
    hide S32, U32;
    var turns: int;
    if signed {
      turns := S32Turns(x);
    } else {
      turns := U32Turns(x);
    }
    assert (x + turns * TWO_32) * base + d == x * base + d + turns * base * TWO_32;
    Turns32(x * base + d, turns * base);
  }

  lemma {:induction false} DigitsRead(value: nat, base: nat, upper: bool, t: string, signed: bool)
    requires 2 <= base <= 16
    ensures ParseDigits(Digits(value, base, upper) + t, base, signed, 0)
         == ParseDigits(t, base, signed, Keep(signed, value))
    decreases value
  {
    hide DigitChar, Keep, ParseDigits;
    if value == 0 {
      KeepSame(signed, 0);
      assert Digits(value, base, upper) + t == t;
    } else {
      Quotient(value, base);
      var q, d := value / base, value % base;
      var u := [DigitChar(d, upper)] + t;
      assert Digits(value, base, upper) + t == Digits(q, base, upper) + u;
      DigitsRead(q, base, upper, u, signed);
      OneDigitRead(d, base, upper, t, signed, Keep(signed, q));
      KeepStep(signed, q, base, d);
    }
  }

  lemma OneDigitRead(d: nat, base: nat, upper: bool, t: string, signed: bool, result: int)
    requires d < base <= 16
    ensures ParseDigits([DigitChar(d, upper)] + t, base, signed, result)
         == ParseDigits(t, base, signed, Keep(signed, result * base + d))
  {
    hide DigitChar, DigitValue, Keep;
    DigitBack(d, upper);
    assert ([DigitChar(d, upper)] + t)[1..] == t;
  }

  lemma KeepSame(signed: bool, x: int)
    requires if signed then -0x8000_0000 <= x < 0x8000_0000 else 0 <= x < TWO_32
    ensures Keep(signed, x) == x
  {
  }

  /** Zeros, digits and trailing blanks. */
  function Tail(value: nat, base: nat, upper: bool, precision: int, zeros: nat, trail: int): string
    requires 2 <= base <= 16
  {
    Fill('0', zeros) + (Shown(value, base, upper, precision) + Fill(' ', trail))
  }

  lemma BlanksStop(n: int, base: int, signed: bool, result: int)
    ensures ParseDigits(Fill(' ', n), base, signed, result).0 == result
  {
    if n > 0 {
      FillFront(' ', n);
    }
  }

  lemma TailRead(value: nat, base: nat, upper: bool, precision: int, zeros: nat, trail: int, signed: bool)
    requires 2 <= base <= 16
    ensures ParseDigits(Tail(value, base, upper, precision, zeros, trail), base, signed, 0).0 == Keep(signed, value)
  {
    hide ParseDigits, Keep, Digits, Fill;
    var end := Fill(' ', trail);
    ZerosRead(zeros, Shown(value, base, upper, precision) + end, base, signed);
    KeepSame(signed, 0);
    if value == 0 && precision != 0 {
      OneDigitRead(0, base, upper, end, signed, 0);
      assert [DigitChar(0, upper)] == "0";
    } else {
      DigitsRead(value, base, upper, end, signed);
    }
    BlanksStop(trail, base, signed, Keep(signed, value));
  }

  /** Digits contain no mark, sign or tab, and no blank. */
  predicate DigitsOnly(s: string) {
    forall k :: 0 <= k < |s| ==> s[k] !in "xX+-\t "
  }

  lemma {:induction false} DigitsAreDigits(value: nat, base: nat, upper: bool)
    requires 2 <= base <= 16
    ensures DigitsOnly(Digits(value, base, upper))
    ensures value > 0 ==> Digits(value, base, upper) != ""
    decreases value
  {
    hide DigitChar;
    if value > 0 {
      Quotient(value, base);
      DigitsAreDigits(value / base, base, upper);
      DigitBack(value % base, upper);
    }
  }

  lemma {:induction false} FillIs(c: char, n: int)
    ensures forall k :: 0 <= k < |Fill(c, n)| ==> Fill(c, n)[k] == c
    decreases n
  {
    if n > 0 {
      FillIs(c, n - 1);
    }
  }

  /** The tail starts with a digit, unless the value is 0 and nothing of it shows. */
  lemma TailStart(value: nat, base: nat, upper: bool, precision: int, zeros: nat, trail: int)
    requires 2 <= base <= 16
    ensures var t := Tail(value, base, upper, precision, zeros, trail);
            && !HexMark(t) && (t != "" ==> t[0] !in "xX+-")
            && ((t != "" && t[0] !in "\t ") || (value == 0 && t == Fill(' ', trail)))
  {
    hide Digits, Fill;
    var t := Tail(value, base, upper, precision, zeros, trail);
    DigitsAreDigits(value, base, upper);
    FillIs('0', zeros);
    FillIs(' ', trail);
    assert forall k :: 0 <= k < |t| ==> t[k] !in "xX+-";
    if zeros == 0 {
      assert t == Shown(value, base, upper, precision) + Fill(' ', trail);
    }
  }

  /** The number without its sign: the prefix and the tail. */
  lemma UnsignedRead(value: nat, base: nat, upper: bool, lay: Layout, zeros: nat, trail: int, signed: bool)
    requires base == 8 || base == 10 || base == 16
    ensures var r := HexPrefix(value, base, upper, lay.altForm) + Tail(value, base, upper, lay.precision, zeros, trail);
            && ParseDigits(BaseAndStart(r, base).1, base, signed, 0).0 == Keep(signed, value)
            && BaseAndStart(r, base).0 == base
            && (r != "" ==> r[0] != '+' && r[0] != '-')
            && (SkipBlanks(r) == r || (value == 0 && SkipBlanks(r) == ""))
  {
    hide ParseDigits, Keep, Tail;
    var hex, t := HexPrefix(value, base, upper, lay.altForm), Tail(value, base, upper, lay.precision, zeros, trail);
    var r := hex + t;
    TailRead(value, base, upper, lay.precision, zeros, trail, signed);
    TailStart(value, base, upper, lay.precision, zeros, trail);
    BlanksSkipped(trail, "");
    assert Fill(' ', trail) + "" == Fill(' ', trail);
    if hex == "" {
      assert r == t;
    } else {
      assert HexMark(r) && r[2..] == t;
    }
  }

  lemma TextParts(value: nat, base: nat, upper: bool, sign: string, lay: Layout)
    returns (pad: int, zeros: nat, trail: int)
    requires 2 <= base <= 16
    ensures NumberText(value, base, upper, sign, lay)
         == Fill(' ', pad) + (sign + (HexPrefix(value, base, upper, lay.altForm)
                                      + Tail(value, base, upper, lay.precision, zeros, trail)))
  {
    hide Digits, Fill, Shown, HexPrefix, ZeroCount;
    var digits := Shown(value, base, upper, lay.precision);
    var prefix := sign + HexPrefix(value, base, upper, lay.altForm);
    zeros := ZeroCount(lay, |prefix|, |digits|);
    var blanks := lay.width - (|prefix| + zeros + |digits|);
    pad, trail := if lay.leftAlign then 0 else blanks, if lay.leftAlign then blanks else 0;
    NoFill(' ');
    Regroup(Fill(' ', pad), sign, HexPrefix(value, base, upper, lay.altForm), Fill('0', zeros), digits,
            Fill(' ', trail));
  }

  lemma NoFill(c: char)
    ensures Fill(c, 0) == ""
  {
  }

  lemma Regroup(a: string, b: string, c: string, d: string, e: string, f: string)
    ensures a + (b + c) + d + e + f == a + (b + (c + (d + (e + f))))
  {
  }

  /** What the formatter puts before a signed value. */
  function SignOf(value: int, signChar: char): string {
    if value < 0 then "-" else if signChar == '+' then "+" else if signChar == ' ' then " " else ""
  }

  /**
   * strtol reads the low 32 bits of any value that was printed in decimal, however it was laid out: the value
   * itself exactly if 32 bits hold it.
   */
  lemma SignedBack(value: int, signChar: char, lay: Layout)
    ensures var mag := if value < 0 then -value else value;
            var r := Strtol(NumberText(mag, 10, false, SignOf(value, signChar), lay.(altForm := false)), 10).0;
            r == S32(value) && (r == value <==> -0x8000_0000 <= value < 0x8000_0000)
  {
    hide ParseDigits, Keep, Tail, SkipBlanks, BaseAndStart, HexPrefix, NumberText, S32;
    S32Same(value);
    var mag := if value < 0 then -value else value;
    var sign := SignOf(value, signChar);
    var plain := lay.(altForm := false);
    var pad, zeros, trail := TextParts(mag, 10, false, sign, plain);
    var r := HexPrefix(mag, 10, false, false) + Tail(mag, 10, false, lay.precision, zeros, trail);
    UnsignedRead(mag, 10, false, plain, zeros, trail, true);
    BlanksSkipped(pad, sign + r);
    SignSkipped(sign, r);
    ResultSigned(mag, value < 0);
    if sign == "-" || sign == "+" {
      assert (sign + r)[1..] == r;
    } else {
      NothingRead(10, true);
    }
  }

  lemma SignSkipped(sign: string, r: string)
    requires sign == "" || sign == " " || sign == "+" || sign == "-"
    ensures SkipBlanks(sign + r) == if sign == "+" || sign == "-" then sign + r else SkipBlanks(r)
  {
    if sign == "" {
      assert sign + r == r;
    } else {
      assert (sign + r)[0] == sign[0] && (sign + r)[1..] == r;
    }
  }

  lemma S32Same(x: int)
    ensures S32(x) == x <==> -0x8000_0000 <= x < 0x8000_0000
  {
  }

  lemma ResultSigned(mag: int, negative: bool)
    ensures S32(if negative then -Keep(true, mag) else Keep(true, mag)) == S32(if negative then -mag else mag)
  {
    hide S32, U32;
    var turns := S32Turns(mag);
    Turns32(if negative then -mag else mag, if negative then -turns else turns);
  }

  lemma NothingRead(base: int, signed: bool)
    ensures base != 0 ==> BaseAndStart("", base) == (base, "")
    ensures ParseDigits("", base, signed, 0) == (0, "")
    ensures Keep(signed, 0) == 0
  {
  }

  /** strtoul and strtol read the low 32 bits of any value printed in octal, decimal or hexadecimal. */
  lemma UnsignedBack(value: nat, base: nat, upper: bool, lay: Layout)
    requires base == 8 || base == 10 || base == 16
    ensures var r := Strtoul(NumberText(value, base, upper, "", lay), base).0;
            r == U32(value) && (r == value <==> value < TWO_32)
    ensures var r := Strtol(NumberText(value, base, upper, "", lay), base).0;
            r == S32(value) && (r == value <==> value < 0x8000_0000)
  {
    hide ParseDigits, Tail, SkipBlanks, BaseAndStart, HexPrefix, NumberText, S32;
    var pad, zeros, trail := TextParts(value, base, upper, "", lay);
    var r := HexPrefix(value, base, upper, lay.altForm) + Tail(value, base, upper, lay.precision, zeros, trail);
    UnsignedRead(value, base, upper, lay, zeros, trail, false);
    UnsignedRead(value, base, upper, lay, zeros, trail, true);
    BlanksSkipped(pad, "" + r);
    SignSkipped("", r);
    NothingRead(base, false);
    NothingRead(base, true);
    S32Same(value);
    ResultSigned(value, false);
  }

  // ---- The source's loops -----------------------------------------------------------------------

  /** The character a pointer into a C string points to. */
  function CharAt(s: string, p: nat): char {
    if p < |s| then s[p] else '\0'
  }

  method SkipBlankChars(str: string) returns (p: nat)
    ensures p <= |str| && str[p..] == SkipBlanks(str)
  {
    p := 0;
    while CharAt(str, p) == ' ' || CharAt(str, p) == '\t'
      invariant p <= |str| && SkipBlanks(str) == SkipBlanks(str[p..])
      decreases |str| - p
    {
      assert str[p..][1..] == str[p + 1..];
      p := p + 1;
    }
  }

  method FindBase(str: string, start: nat, wanted: int) returns (base: int, p: nat)
    requires start <= |str|
    ensures start <= p <= |str| && (base, str[p..]) == BaseAndStart(str[start..], wanted)
  {
    base, p := wanted, start;
    if base == 0 {
      if CharAt(str, p) == '0' {
        if CharAt(str, p + 1) == 'x' || CharAt(str, p + 1) == 'X' {
          base, p := 16, p + 2;
        } else {
          base, p := 8, p + 1;
        }
      } else {
        base := 10;
      }
    } else if base == 16 && CharAt(str, p) == '0' && (CharAt(str, p + 1) == 'x' || CharAt(str, p + 1) == 'X') {
      p := p + 2;
    }
    assert str[p..] == str[start..][p - start..];
  }

  method ReadDigits(str: string, start: nat, base: int, signed: bool) returns (result: int, p: nat)
    requires start <= |str|
    ensures start <= p <= |str| && (result, str[p..]) == ParseDigits(str[start..], base, signed, 0)
  {
    hide Keep;
    result, p := 0, start;
    while CharAt(str, p) != '\0'
      invariant start <= p <= |str|
      invariant ParseDigits(str[start..], base, signed, 0) == ParseDigits(str[p..], base, signed, result)
      decreases |str| - p
    {
      var digit := DigitValue(str[p]);
      if digit < 0 || digit >= base {
        return;
      }
      assert str[p..][1..] == str[p + 1..];
      result := Keep(signed, result * base + digit);
      p := p + 1;
    }
  }

  /** strtol. */
  method ReadLong(str: string, base: int) returns (value: int, end: nat)
    ensures end <= |str| && (value, str[end..]) == Strtol(str, base)
  {
    hide ParseDigits, SkipBlanks, BaseAndStart, Keep;
    var p := SkipBlankChars(str);
    var sign := 1;
    if CharAt(str, p) == '-' {
      sign := -1;
      p := p + 1;
    } else if CharAt(str, p) == '+' {
      p := p + 1;
    }
    var b, digits := FindBase(str, p, base);
    var result, rest := ReadDigits(str, digits, b, true);
    return S32(result * sign), rest;
  }

  /** strtoul. */
  method ReadUnsignedLong(str: string, base: int) returns (value: int, end: nat)
    ensures end <= |str| && (value, str[end..]) == Strtoul(str, base)
  {
    hide ParseDigits, SkipBlanks, BaseAndStart, Keep;
    var p := SkipBlankChars(str);
    if CharAt(str, p) == '+' {
      p := p + 1;
    }
    var b, digits := FindBase(str, p, base);
    value, end := ReadDigits(str, digits, b, false);
  }
}
