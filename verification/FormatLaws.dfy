/**
 * What a format prints, told character by character: a grammar of formats that the formatter reads as it is meant, and
 * the exact text of each conversion.
 */
module FormatLaws {
  import opened Words
  import opened NumberFormat
  import opened Format

  // ---- Padding -----------------------------------------------------------------------------------

  /** `text` is `body` in a field of this width, with blanks on one side. */
  ghost predicate InField(text: string, body: string, width: int, leftAlign: bool) {
    && |text| == (if width > |body| then width else |body|)
    && (leftAlign ==> text[..|body|] == body && forall k :: |body| <= k < |text| ==> text[k] == ' ')
    && (!leftAlign ==>
          text[|text| - |body|..] == body && forall k :: 0 <= k < |text| - |body| ==> text[k] == ' ')
  }

  lemma PaddedIs(body: string, width: int, leftAlign: bool)
    ensures InField(Padded(body, width, leftAlign), body, width, leftAlign)
  {
    hide Fill;
    FillIs(' ', width - |body|);
    var blanks := Fill(' ', width - |body|);
    if leftAlign {
      assert (body + blanks)[..|body|] == body;
    } else {
      assert (blanks + body)[|blanks|..] == body;
    }
  }

  // ---- Characters and strings ----------------------------------------------------------------------

  /** How much of a C string is shown: up to its NUL, and no more than the precision, if there is one. */
  ghost predicate ShownLength(chars: string, precision: int, n: nat) {
    && n <= |chars| && (precision >= 0 ==> n <= precision)
    && (forall k :: 0 <= k < n ==> chars[k] != '\0')
    && (n == |chars| || chars[n] == '\0' || n == precision)
  }

  lemma {:induction false} ShownIs(chars: string, precision: int, n: nat)
    requires ShownLength(chars, precision, n)
    ensures ShownChars(chars, precision) == chars[..n]
    decreases n
  {
    if n > 0 {
      ShownIs(chars[1..], precision - 1, n - 1);
      assert chars[..n] == [chars[0]] + chars[1..][..n - 1];
    }
  }

  /** %s: the shown part of the string, or of "(null)" for an argument that is none, in its field. */
  lemma StringText(d: Directive, a: Arg, chars: string, n: nat, doubles: DoubleText)
    requires d.conv == 's' && chars == (if a.Str? then a.chars else "(null)") && ShownLength(chars, d.precision, n)
    ensures InField(Converted(d, a, doubles), chars[..n], d.width, d.flags.leftAlign)
  {
    hide ShownChars, Padded;
    ShownIs(chars, d.precision, n);
    PaddedIs(chars[..n], d.width, d.flags.leftAlign);
  }

  /** %c: one character, NUL included, in its field. */
  lemma CharText(d: Directive, value: int, doubles: DoubleText)
    requires d.conv == 'c'
    ensures InField(Converted(d, Int(value), doubles), [(value % 256) as char], d.width, d.flags.leftAlign)
  {
    hide Padded;
    PaddedIs([(value % 256) as char], d.width, d.flags.leftAlign);
  }

  /** %p of the null pointer. */
  lemma NullText(d: Directive, doubles: DoubleText)
    requires d.conv == 'p'
    ensures InField(Converted(d, Ptr(0), doubles), "(nil)", d.width, d.flags.leftAlign)
  {
    hide Padded;
    PaddedIs("(nil)", d.width, d.flags.leftAlign);
  }

  /** %% and a percent sign at the end of the format, and a conversion there is not, which stays as it is. */
  lemma OtherText(d: Directive, a: Arg, doubles: DoubleText)
    ensures d.conv == '%' || d.conv == '\0' ==> Converted(d, a, doubles) == "%"
    ensures d.conv !in "diuoxXcspfFgGeE%\0" ==> Converted(d, a, doubles) == ['%', d.conv]
  {
  }

  // ---- Numbers -------------------------------------------------------------------------------------

  function Numeral(c: char): nat {
    if '0' <= c <= '9' then c as nat - '0' as nat
    else if 'a' <= c <= 'f' then c as nat - 'a' as nat + 10
    else if 'A' <= c <= 'F' then c as nat - 'A' as nat + 10 else 16
  }

  function ValueOf(s: string, base: nat): nat {
    if s == "" then 0 else ValueOf(s[..|s| - 1], base) * base + Numeral(s[|s| - 1])
  }

  /** `s` writes `value` in this base, without a zero in front, and its letters are of one case. */
  ghost predicate Writes(s: string, value: nat, base: nat, upper: bool) {
    && ValueOf(s, base) == value
    && (forall k :: 0 <= k < |s| ==>
          Numeral(s[k]) < base && if upper then !('a' <= s[k] <= 'f') else !('A' <= s[k] <= 'F'))
    && (s != "" ==> s[0] != '0')
  }

  lemma DigitIs(d: nat, upper: bool)
    requires d < 16
    ensures Numeral(DigitChar(d, upper)) == d && (DigitChar(d, upper) == '0' <==> d == 0)
    ensures if upper then !('a' <= DigitChar(d, upper) <= 'f') else !('A' <= DigitChar(d, upper) <= 'F')
  {
  }

  lemma {:induction false} DigitsWrite(value: nat, base: nat, upper: bool)
    requires 2 <= base <= 16
    ensures Writes(Digits(value, base, upper), value, base, upper)
    ensures value > 0 ==> Digits(value, base, upper) != ""
    decreases value
  {
    hide DigitChar, Numeral;
    if value > 0 {
      Quotient(value, base);
      var q, d := value / base, value % base;
      DigitsWrite(q, base, upper);
      DigitIs(d, upper);
      var front, s := Digits(q, base, upper), Digits(value, base, upper);
      assert s[..|s| - 1] == front;
      if q == 0 {
        assert front == "" && d > 0;
      }
    }
  }

  function Same(c: char, n: nat): (s: string)
    ensures |s| == n && forall k :: 0 <= k < n ==> s[k] == c
  {
    seq(n, _ => c)
  }

  lemma FillSame(c: char, n: nat)
    ensures Fill(c, n) == Same(c, n)
  {
    hide Fill, Same;
    FillIs(c, n);
  }

  /** The parts of a printed number. */
  datatype Parts = Parts(left: nat, sign: string, prefix: string, zeros: nat, digits: string, right: nat)

  ghost function Joined(p: Parts): string {
    Same(' ', p.left) + (p.sign + p.prefix) + Same('0', p.zeros) + p.digits + Same(' ', p.right)
  }

  /** The digits write the value; 0 shows as one digit, or as none when the precision is 0. */
  ghost predicate GoodDigits(digits: string, value: nat, base: nat, upper: bool, precision: int) {
    if value == 0 then digits == (if precision == 0 then "" else "0") else Writes(digits, value, base, upper)
  }

  /** 0x or 0X stands before a hexadecimal value that is not 0, if asked for. */
  ghost predicate GoodPrefix(prefix: string, value: nat, base: nat, upper: bool, altForm: bool) {
    prefix == if altForm && base == 16 && value != 0 then (if upper then "0X" else "0x") else ""
  }

  /**
   * The field is filled on the one side or the other, or with zeros before the digits if neither left alignment nor a
   * precision forbids it; else there are as many zeros as the precision asks for.
   */
  ghost predicate GoodFill(p: Parts, width: int, precision: int, leftAlign: bool, zeroPad: bool) {
    var body := |p.sign| + |p.prefix| + p.zeros + |p.digits|;
    && p.left + body + p.right == (if width > body then width else body)
    && (if leftAlign then p.left == 0 else p.right == 0)
    && (if zeroPad && !leftAlign && precision < 0 then p.left == 0 && (p.zeros == 0 || body == width)
        else p.zeros == if precision > |p.digits| then precision - |p.digits| else 0)
  }

  ghost predicate NumberIs(text: string, p: Parts, value: nat, base: nat, upper: bool, sign: string, lay: Layout) {
    && text == Joined(p) && p.sign == sign
    && GoodDigits(p.digits, value, base, upper, lay.precision)
    && GoodPrefix(p.prefix, value, base, upper, lay.altForm)
    && GoodFill(p, lay.width, lay.precision, lay.leftAlign, lay.zeroPad)
  }

  /** Every printed number has such parts. */
  lemma NumberShown(value: nat, base: nat, upper: bool, sign: string, lay: Layout) returns (p: Parts)
    requires 2 <= base <= 16
    ensures NumberIs(NumberText(value, base, upper, sign, lay), p, value, base, upper, sign, lay)
  {
    hide Fill, Same, Digits, Writes;
    var digits := Shown(value, base, upper, lay.precision);
    var prefix := HexPrefix(value, base, upper, lay.altForm);
    ShownDigits(value, base, upper, lay.precision);
    var zeros := ZeroCount(lay, |sign + prefix|, |digits|);
    var blanks := lay.width - (|sign + prefix| + zeros + |digits|);
    var pad: nat := if blanks > 0 then blanks else 0;
    p := Parts(if lay.leftAlign then 0 else pad, sign, prefix, zeros, digits, if lay.leftAlign then pad else 0);
    FillSame('0', zeros);
    FillSame(' ', pad);
    FillSame(' ', 0);
    NoFillAt(' ', blanks);
  }

  lemma NoFillAt(c: char, n: int)
    ensures n <= 0 ==> Fill(c, n) == "" && Fill(c, 0) == ""
  {
  }

  lemma ShownDigits(value: nat, base: nat, upper: bool, precision: int)
    requires 2 <= base <= 16
    ensures GoodDigits(Shown(value, base, upper, precision), value, base, upper, precision)
  {
    hide Writes;
    DigitsWrite(value, base, upper);
  }

  /** The value a conversion sees of its argument: what the length modifier leaves of it. */
  ghost predicate CutTo(lenMod: LenMod, signed: bool, x: int, v: int) {
    match lenMod
    case LEN_CHAR => (v - x) % 0x100 == 0 && if signed then -0x80 <= v < 0x80 else 0 <= v < 0x100
    case LEN_SHORT => (v - x) % 0x1_0000 == 0 && if signed then -0x8000 <= v < 0x8000 else 0 <= v < 0x1_0000
    case LEN_LLONG =>
      && (v - x) % 0x1_0000_0000_0000_0000 == 0
      && if signed then -0x8000_0000_0000_0000 <= v < 0x8000_0000_0000_0000 else 0 <= v < 0x1_0000_0000_0000_0000
    case LEN_SIZET => (v - x) % 0x1_0000_0000 == 0 && 0 <= v < 0x1_0000_0000
    case _ =>
      (v - x) % 0x1_0000_0000 == 0 && if signed then -0x8000_0000 <= v < 0x8000_0000 else 0 <= v < 0x1_0000_0000
  }

  lemma Cut8(x: int)
    ensures (U8(x) - x) % 0x100 == 0 && (S8(x) - x) % 0x100 == 0
  {
    assert U8(x) - x == -(x / 0x100) * 0x100 && S8(x) - x == -((x + 0x80) / 0x100) * 0x100;
  }

  lemma Cut16(x: int)
    ensures (U16(x) - x) % 0x1_0000 == 0 && (S16(x) - x) % 0x1_0000 == 0
  {
    assert U16(x) - x == -(x / 0x1_0000) * 0x1_0000 && S16(x) - x == -((x + 0x8000) / 0x1_0000) * 0x1_0000;
  }

  lemma Cut32(x: int)
    ensures (U32(x) - x) % 0x1_0000_0000 == 0 && (S32(x) - x) % 0x1_0000_0000 == 0
  {
    assert U32(x) - x == -(x / 0x1_0000_0000) * 0x1_0000_0000;
    assert S32(x) - x == -((x + 0x8000_0000) / 0x1_0000_0000) * 0x1_0000_0000;
  }

  lemma Cut64(x: int)
    ensures (U64(x) - x) % 0x1_0000_0000_0000_0000 == 0 && (S64(x) - x) % 0x1_0000_0000_0000_0000 == 0
  {
    assert U64(x) - x == -(x / 0x1_0000_0000_0000_0000) * 0x1_0000_0000_0000_0000;
    assert S64(x) - x == -((x + 0x8000_0000_0000_0000) / 0x1_0000_0000_0000_0000) * 0x1_0000_0000_0000_0000;
  }

  lemma ArgIsCut(lenMod: LenMod, x: int)
    ensures CutTo(lenMod, true, x, SignedArg(lenMod, x)) && CutTo(lenMod, false, x, UnsignedArg(lenMod, x))
  {
    hide U8, S8, U16, S16, U32, S32, U64, S64;
    Cut8(x);
    Cut16(x);
    Cut32(x);
    Cut64(x);
  }

  /** %d and %i: the sign, the decimal digits of the value, and what the directive puts around them. */
  lemma SignedText(d: Directive, x: int, doubles: DoubleText) returns (v: int, p: Parts)
    requires d.conv == 'd' || d.conv == 'i'
    ensures CutTo(d.lenMod, true, x, v)
    ensures var sign := if v < 0 then "-" else if d.flags.signChar == '+' then "+"
                        else if d.flags.signChar == ' ' then " " else "";
            NumberIs(Converted(d, Int(x), doubles), p, if v < 0 then -v else v, 10, false, sign,
                     Layout(d.width, d.precision, d.flags.leftAlign, d.flags.zeroPad, false))
  {
    hide NumberText, NumberIs, SignedArg, CutTo;
    v := SignedArg(d.lenMod, x);
    ArgIsCut(d.lenMod, x);
    p := NumberShown(Magnitude(v), 10, false, SignOf(v, d.flags.signChar), LayoutOf(d).(altForm := false));
  }

  /** %u, %o, %x and %X: no sign, digits to base 10, 8 or 16, of which only those of %X are capitals. */
  lemma UnsignedText(d: Directive, x: int, doubles: DoubleText) returns (v: nat, p: Parts)
    requires d.conv in "uoxX"
    ensures CutTo(d.lenMod, false, x, v)
    ensures NumberIs(Converted(d, Int(x), doubles), p, v, if d.conv == 'u' then 10 else if d.conv == 'o' then 8 else 16,
                     d.conv == 'X', "",
                     Layout(d.width, d.precision, d.flags.leftAlign, d.flags.zeroPad, d.flags.altForm))
  {
    hide NumberText, NumberIs, UnsignedArg, CutTo;
    v := UnsignedArg(d.lenMod, x);
    ArgIsCut(d.lenMod, x);
    p := NumberShown(v, BaseOf(d.conv), d.conv == 'X', "", LayoutOf(d));
  }

  /** %p of a pointer that is not null: 0x and small hexadecimal digits. */
  lemma PointerText(d: Directive, address: nat, doubles: DoubleText) returns (p: Parts)
    requires d.conv == 'p' && 0 < address < TWO_32
    ensures NumberIs(Converted(d, Ptr(address), doubles), p, address, 16, false, "0x",
                     Layout(d.width, d.precision, d.flags.leftAlign, d.flags.zeroPad, false))
  {
    hide NumberText, NumberIs;
    U32Same(address);
    p := NumberShown(address, 16, false, "0x", LayoutOf(d).(altForm := false));
  }
}
