/** The bounded formatter of the C library: what a format and its arguments stand for, and the sink that stores it. */
module Format {
  import opened Words
  import opened NumberFormat

  // ---- The text of a format ---------------------------------------------------------------------

  /**
   * An argument. The formatter takes what the format asks for; an argument that is missing or of another
   * kind, undefined in C, reads as 0 or as the null pointer.
   */
  datatype Arg = Int(value: int) | Str(chars: string) | Ptr(address: nat) | Double(bits: nat) | Missing

  /** fmt_double is not interpreted: any function from its parameters to a text. */
  type DoubleText = (Arg, int, int, bool, bool, bool) -> string

  datatype LenMod = LEN_INT | LEN_CHAR | LEN_SHORT | LEN_LONG | LEN_LLONG | LEN_SIZET

  datatype Flags = Flags(leftAlign: bool, zeroPad: bool, altForm: bool, signChar: char)

  datatype Directive = Directive(flags: Flags, width: int, precision: int, lenMod: LenMod, conv: char)

  function FirstArg(args: seq<Arg>): Arg {
    if args == [] then Missing else args[0]
  }

  function RestArgs(args: seq<Arg>): seq<Arg> {
    if args == [] then [] else args[1..]
  }

  function IntOf(a: Arg): int {
    if a.Int? then a.value else 0
  }

  function At(f: string): char {
    if f == "" then '\0' else f[0]
  }

  predicate IsFlag(c: char) {
    c == '-' || c == '0' || c == '#' || c == '+' || c == ' '
  }

  function WithFlag(fl: Flags, c: char): Flags {
    if c == '-' then fl.(leftAlign := true)
    else if c == '0' then fl.(zeroPad := true)
    else if c == '#' then fl.(altForm := true)
    else if c == '+' then fl.(signChar := '+')
    else if fl.signChar == '\0' then fl.(signChar := ' ') else fl
  }

  function ParseFlags(f: string, fl: Flags): (r: (Flags, string))
    ensures |r.1| <= |f|
  {
    if IsFlag(At(f)) then ParseFlags(f[1..], WithFlag(fl, f[0])) else (fl, f)
  }

  function ParseNumber(f: string, n: int): (r: (int, string))
    ensures |r.1| <= |f|
  {
    if '0' <= At(f) <= '9' then ParseNumber(f[1..], n * 10 + (f[0] as int - '0' as int)) else (n, f)
  }

  function ParseLength(f: string): (r: (LenMod, string))
    ensures |r.1| <= |f|
  {
    if At(f) == 'h' then
      if At(f[1..]) == 'h' then (LEN_CHAR, f[2..]) else (LEN_SHORT, f[1..])
    else if At(f) == 'l' then
      if At(f[1..]) == 'l' then (LEN_LLONG, f[2..]) else (LEN_LONG, f[1..])
    else if At(f) == 'z' then (LEN_SIZET, f[1..])
    else if At(f) == 'j' then (LEN_LLONG, f[1..])
    else if At(f) == 't' then (LEN_LONG, f[1..])
    else if At(f) == 'L' then (LEN_LLONG, f[1..])
    else (LEN_INT, f)
  }

  /** The width, and whether it asks for left alignment. */
  function ParseWidth(f: string, args: seq<Arg>): (r: (int, bool, string, seq<Arg>))
    ensures |r.2| <= |f|
  {
    if At(f) == '*' then
      var w := S32(IntOf(FirstArg(args)));
      (if w < 0 then -w else w, w < 0, f[1..], RestArgs(args))
    else
      var (w, f') := ParseNumber(f, 0);
      (w, false, f', args)
  }

  function ParsePrecision(f: string, args: seq<Arg>): (r: (int, string, seq<Arg>))
    ensures |r.1| <= |f|
  {
    if At(f) != '.' then (-1, f, args)
    else if At(f[1..]) == '*' then (S32(IntOf(FirstArg(args))), f[2..], RestArgs(args))
    else
      var (n, f') := ParseNumber(f[1..], 0);
      (n, f', args)
  }

  const NO_FLAGS := Flags(false, false, false, '\0')

  /** What follows a percent sign. */
  function ParseDirective(f: string, args: seq<Arg>): (r: (Directive, string, seq<Arg>))
    ensures |r.1| <= |f|
  {
    var (fl, f1) := ParseFlags(f, NO_FLAGS);
    var (width, left, f2, args2) := ParseWidth(f1, args);
    var (precision, f3, args3) := ParsePrecision(f2, args2);
    var (lenMod, f4) := ParseLength(f3);
    var flags := fl.(leftAlign := fl.leftAlign || left);
    (Directive(flags, width, precision, lenMod, At(f4)), if At(f4) == '\0' then f4 else f4[1..], args3)
  }

  function SignedArg(lenMod: LenMod, x: int): (r: int)
    ensures -0x8000_0000_0000_0000 <= r < 0x8000_0000_0000_0000
  {
    match lenMod
    case LEN_CHAR => S8(x)
    case LEN_SHORT => S16(x)
    case LEN_LLONG => S64(x)
    case LEN_SIZET => U32(x)
    case _ => S32(x)
  }

  function UnsignedArg(lenMod: LenMod, x: int): (r: nat)
    ensures r < TWO_64
  {
    match lenMod
    case LEN_CHAR => U8(x)
    case LEN_SHORT => U16(x)
    case LEN_LLONG => U64(x)
    case _ => U32(x)
  }

  function Padded(body: string, width: int, leftAlign: bool): string {
    if leftAlign then body + Fill(' ', width - |body|) else Fill(' ', width - |body|) + body
  }

  /** The part of a C string that is shown. */
  function ShownChars(s: string, precision: int): string {
    if At(s) == '\0' || precision == 0 then "" else [s[0]] + ShownChars(s[1..], precision - 1)
  }

  function LayoutOf(d: Directive): Layout {
    Layout(d.width, d.precision, d.flags.leftAlign, d.flags.zeroPad, d.flags.altForm)
  }

  function BaseOf(conv: char): (b: nat)
    ensures 2 <= b <= 16
  {
    if conv == 'u' then 10 else if conv == 'o' then 8 else 16
  }

  function Magnitude(v: int): nat {
    if v < 0 then -v else v
  }

  predicate IsDouble(conv: char) {
    conv in "fFgGeE"
  }

  predicate TakesArg(conv: char) {
    conv in "diuoxXcsp" || IsDouble(conv)
  }

  /** The text of one conversion of argument `a`. */
  function Converted(d: Directive, a: Arg, doubles: DoubleText): string {
    var lay := LayoutOf(d);
    if d.conv == 'd' || d.conv == 'i' then
      var v := SignedArg(d.lenMod, IntOf(a));
      NumberText(Magnitude(v), 10, false, SignOf(v, d.flags.signChar), lay.(altForm := false))
    else if d.conv in "uoxX" then
      NumberText(UnsignedArg(d.lenMod, IntOf(a)), BaseOf(d.conv), d.conv == 'X', "", lay)
    else if d.conv == 'c' then Padded([(U8(IntOf(a))) as char], d.width, d.flags.leftAlign)
    else if d.conv == 's' then
      Padded(ShownChars(if a.Str? then a.chars else "(null)", d.precision), d.width, d.flags.leftAlign)
    else if d.conv == 'p' then
      if a.Ptr? && U32(a.address) != 0 then NumberText(U32(a.address), 16, false, "0x", lay.(altForm := false))
      else Padded("(nil)", d.width, d.flags.leftAlign)
    else if IsDouble(d.conv) then
      doubles(a, if d.precision < 0 then 6 else d.precision, d.width, d.flags.leftAlign, d.flags.zeroPad,
              d.conv == 'g' || d.conv == 'G')
    else if d.conv == '%' || d.conv == '\0' then "%"
    else ['%', d.conv]
  }

  /** The whole text a format and its arguments stand for, whatever the size of the buffer. */
  function FormatText(f: string, args: seq<Arg>, doubles: DoubleText): string
    decreases |f|
  {
    if At(f) == '\0' then ""
    else if f[0] != '%' then [f[0]] + FormatText(f[1..], args, doubles)
    else
      var (d, f', args') := ParseDirective(f[1..], args);
      Converted(d, FirstArg(args'), doubles)
      + FormatText(f', if TakesArg(d.conv) then RestArgs(args') else args', doubles)
  }

  /**
   * Printing an integer argument of any length with any flags, width and precision and reading it with strtol:
   * the low 32 bits of the value the conversion sees, which are that value exactly if 32 bits hold it.
   */
  lemma SignedConversionBack(d: Directive, value: int, doubles: DoubleText)
    requires d.conv == 'd' || d.conv == 'i'
    ensures var v, r := SignedArg(d.lenMod, value), Strtol(Converted(d, Int(value), doubles), 10).0;
            && r == S32(v) && (r == v <==> -0x8000_0000 <= v < 0x8000_0000)
            && (d.lenMod != LEN_LLONG && d.lenMod != LEN_SIZET ==> r == v)
  {
    hide Strtol, NumberText, Padded, SignOf;
    SignedBack(SignedArg(d.lenMod, value), d.flags.signChar, LayoutOf(d));
  }

  /** The same for the unsigned conversions, each in its own base. */
  lemma UnsignedConversionBack(d: Directive, value: int, doubles: DoubleText)
    requires d.conv in "uoxX"
    ensures var v, r := UnsignedArg(d.lenMod, value), Strtoul(Converted(d, Int(value), doubles), BaseOf(d.conv)).0;
            && r == U32(v) && (r == v <==> v < TWO_32)
            && (d.lenMod != LEN_LLONG ==> r == v)
  {
    hide Strtol, Strtoul, NumberText, Padded, SignOf;
    UnsignedBack(UnsignedArg(d.lenMod, value), BaseOf(d.conv), d.conv == 'X', LayoutOf(d));
  }
}
