/** vsnprintf and vasprintf over the sink. */
module Printf {
  import opened Words
  import opened NumberFormat
  import opened Format
  import opened FormatSink

  lemma Tails(format: string, p: nat)
    requires p <= |format|
    ensures At(format[p..]) == CharAt(format, p)
    ensures p < |format| ==> format[p..][1..] == format[p + 1..]
  {
  }

  method ReadFlags(format: string, start: nat) returns (flags: Flags, p: nat)
    requires start <= |format|
    ensures start <= p <= |format| && (flags, format[p..]) == ParseFlags(format[start..], NO_FLAGS)
  {
    hide WithFlag;
    flags, p := NO_FLAGS, start;
    while IsFlag(CharAt(format, p))
      invariant start <= p <= |format|
      invariant ParseFlags(format[start..], NO_FLAGS) == ParseFlags(format[p..], flags)
      decreases |format| - p
    {
      Tails(format, p);
      flags := WithFlag(flags, format[p]);
      p := p + 1;
    }
  }

  method ReadNumber(format: string, start: nat) returns (n: int, p: nat)
    requires start <= |format|
    ensures start <= p <= |format| && (n, format[p..]) == ParseNumber(format[start..], 0)
  {
    n, p := 0, start;
    while '0' <= CharAt(format, p) <= '9'
      invariant start <= p <= |format|
      invariant ParseNumber(format[start..], 0) == ParseNumber(format[p..], n)
      decreases |format| - p
    {
      Tails(format, p);
      n := n * 10 + (format[p] as int - '0' as int);
      p := p + 1;
    }
  }

  method ReadLength(format: string, start: nat) returns (lenMod: LenMod, p: nat)
    requires start <= |format|
    ensures start <= p <= |format| && (lenMod, format[p..]) == ParseLength(format[start..])
  {
    lenMod, p := LEN_INT, start;
    var c := CharAt(format, p);
    Tails(format, start);
    if start + 1 <= |format| {
      Tails(format, start + 1);
    }
    if start + 2 <= |format| {
      assert format[start..][2..] == format[start + 2..];
    }
    if c == 'h' || c == 'l' {
      p := p + 1;
      if CharAt(format, p) == c {
        p := p + 1;
        lenMod := if c == 'h' then LEN_CHAR else LEN_LLONG;
      } else {
        lenMod := if c == 'h' then LEN_SHORT else LEN_LONG;
      }
    } else if c == 'z' {
      p, lenMod := p + 1, LEN_SIZET;
    } else if c == 'j' {
      p, lenMod := p + 1, LEN_LLONG;
    } else if c == 't' {
      p, lenMod := p + 1, LEN_LONG;
    } else if c == 'L' {
      p, lenMod := p + 1, LEN_LLONG;
    }
  }

  method ReadWidth(format: string, start: nat, args: seq<Arg>) returns (width: int, left: bool, p: nat, more: seq<Arg>)
    requires start <= |format|
    ensures start <= p <= |format| && (width, left, format[p..], more) == ParseWidth(format[start..], args)
  {
    hide ParseNumber;
    left, p, more := false, start, args;
    Tails(format, p);
    if CharAt(format, p) == '*' {
      width := S32(IntOf(FirstArg(more)));
      more := RestArgs(more);
      if width < 0 {
        left := true;
        width := -width;
      }
      p := p + 1;
    } else {
      width, p := ReadNumber(format, p);
    }
  }

  method ReadPrecision(format: string, start: nat, args: seq<Arg>) returns (precision: int, p: nat, more: seq<Arg>)
    requires start <= |format|
    ensures start <= p <= |format| && (precision, format[p..], more) == ParsePrecision(format[start..], args)
  {
    hide ParseNumber;
    precision, p, more := -1, start, args;
    Tails(format, p);
    if CharAt(format, p) == '.' {
      p := p + 1;
      Tails(format, p);
      if CharAt(format, p) == '*' {
        assert format[start..][2..] == format[p + 1..];
        precision := S32(IntOf(FirstArg(more)));
        more := RestArgs(more);
        p := p + 1;
      } else {
        precision, p := ReadNumber(format, p);
      }
    }
  }

  /** Flags, width, precision, length and conversion, taking the arguments that asterisks ask for. */
  method ReadDirective(format: string, start: nat, args: seq<Arg>) returns (d: Directive, p: nat, left: seq<Arg>)
    requires start <= |format|
    ensures start <= p <= |format| && (d, format[p..], left) == ParseDirective(format[start..], args)
  {
    hide ParseFlags, ParseWidth, ParsePrecision, ParseLength, At, CharAt;
    var flags, width, leftAlign, precision, lenMod;
    flags, p := ReadFlags(format, start);
    width, leftAlign, p, left := ReadWidth(format, p, args);
    precision, p, left := ReadPrecision(format, p, left);
    lenMod, p := ReadLength(format, p);
    Tails(format, p);
    CharInside(format, p);
    d := Directive(flags.(leftAlign := flags.leftAlign || leftAlign), width, precision, lenMod, CharAt(format, p));
    if d.conv != '\0' {
      p := p + 1;
    }
  }

  lemma CharInside(s: string, p: nat)
    ensures CharAt(s, p) != '\0' ==> p < |s| && CharAt(s, p) == s[p]
  {
  }

  /** The %s loop that measures the string: it stops at the NUL or at the precision. */
  method MeasureString(s: string, precision: int) returns (len: nat)
    ensures len <= |s| && s[..len] == ShownChars(s, precision)
  {
    hide ShownChars;
    len := 0;
    assert s[0..] == s && s[..0] == "";
    while CharAt(s, len) != '\0' && (precision < 0 || len < precision)
      invariant len <= |s| && (precision >= 0 ==> len <= precision)
      invariant ShownChars(s, precision) == s[..len] + ShownChars(s[len..], precision - len)
      decreases |s| - len
    {
      Tails(s, len);
      ShownStep(s[len..], precision - len);
      assert s[..len + 1] == s[..len] + [s[len]];
      len := len + 1;
    }
    Tails(s, len);
    ShownStep(s[len..], precision - len);
  }

  lemma ShownStep(s: string, precision: int)
    ensures ShownChars(s, precision)
         == if At(s) == '\0' || precision == 0 then "" else [s[0]] + ShownChars(s[1..], precision - 1)
  {
  }

  /** One conversion. */
  method Convert(sink: FmtSink, d: Directive, a: Arg, doubles: DoubleText)
    requires sink.Valid()
    modifies sink, sink.buf
    ensures sink.Valid() && sink.text == old(sink.text) + Converted(d, a, doubles)
  {
    hide NumberText, Padded, SignOf, ShownChars, Kept;
    var lay := LayoutOf(d);
    if d.conv == 'd' || d.conv == 'i' {
      var v := SignedArg(d.lenMod, IntOf(a));
      sink.EmitNumber(Magnitude(v), 10, false, SignOf(v, d.flags.signChar), lay.(altForm := false));
    } else if d.conv in "uoxX" {
      sink.EmitNumber(UnsignedArg(d.lenMod, IntOf(a)), BaseOf(d.conv), d.conv == 'X', "", lay);
    } else if d.conv == 'c' {
      sink.EmitPadded([U8(IntOf(a)) as char], d.width, d.flags.leftAlign);
    } else if d.conv == 's' {
      var s := if a.Str? then a.chars else "(null)";
      var len := MeasureString(s, d.precision);
      sink.EmitPadded(s[..len], d.width, d.flags.leftAlign);
    } else if d.conv == 'p' {
      if a.Ptr? && U32(a.address) != 0 {
        sink.EmitNumber(U32(a.address), 16, false, "0x", lay.(altForm := false));
      } else {
        sink.EmitPadded("(nil)", d.width, d.flags.leftAlign);
      }
    } else if IsDouble(d.conv) {
      sink.EmitAll(doubles(a, if d.precision < 0 then 6 else d.precision, d.width, d.flags.leftAlign,
                           d.flags.zeroPad, d.conv == 'g' || d.conv == 'G'));
    } else if d.conv == '%' || d.conv == '\0' {
      sink.Emit('%');
    } else {
      sink.EmitAll(['%', d.conv]);
    }
  }

  /** What the first character of a format stands for. */
  lemma FormatStep(f: string, args: seq<Arg>, doubles: DoubleText)
    ensures At(f) == '\0' ==> FormatText(f, args, doubles) == ""
    ensures At(f) != '\0' && f[0] != '%' ==> FormatText(f, args, doubles) == [f[0]] + FormatText(f[1..], args, doubles)
    ensures At(f) != '\0' && f[0] == '%' ==>
      var (d, f', args') := ParseDirective(f[1..], args);
      FormatText(f, args, doubles)
      == Converted(d, FirstArg(args'), doubles)
         + FormatText(f', if TakesArg(d.conv) then RestArgs(args') else args', doubles)
  {
  }

  /** The main loop: everything is emitted, whatever the buffer keeps of it. */
  method EmitFormat(sink: FmtSink, format: string, arguments: seq<Arg>, doubles: DoubleText)
    requires sink.Valid() && sink.text == ""
    modifies sink, sink.buf
    ensures sink.Valid() && sink.text == FormatText(format, arguments, doubles)
  {
    hide ParseDirective, Converted, Kept, TakesArg, FormatText, At, CharAt, RestArgs, FirstArg;
    assert format[0..] == format;
    var p, args := 0, arguments;
    while CharAt(format, p) != '\0'
      invariant p <= |format| && sink.Valid()
      invariant FormatText(format, arguments, doubles) == sink.text + FormatText(format[p..], args, doubles)
      decreases |format| - p
    {
      Tails(format, p);
      CharInside(format, p);
      FormatStep(format[p..], args, doubles);
      if format[p] != '%' {
        sink.Emit(format[p]);
        p := p + 1;
      } else {
        var d;
        d, p, args := ReadDirective(format, p + 1, args);
        Convert(sink, d, FirstArg(args), doubles);
        if TakesArg(d.conv) {
          args := RestArgs(args);
        }
      }
    }
    Tails(format, p);
    FormatStep(format[p..], args, doubles);
  }

  /**
   * vsnprintf: of the whole text the first size - 1 characters are stored, then a NUL, and nothing else; the
   * length returned is that of the whole text, whatever the size.
   */
  method VsnPrintf(str: array?<char>, size: nat, format: string, args: seq<Arg>, doubles: DoubleText) returns (r: int)
    requires str != null ==> size <= str.Length
    modifies str
    ensures r == S32(|FormatText(format, args, doubles)|)
    ensures str != null && size > 0 ==>
      var text := FormatText(format, args, doubles);
      var n := if |text| < size then |text| else size - 1;
      str[..n] == text[..n] && str[n] == '\0' && str[n + 1..] == old(str[n + 1..])
    ensures str != null && size == 0 ==> str[..] == old(str[..])
  {
    hide FormatText;
    var sink := new FmtSink(str, size);
    EmitFormat(sink, format, args, doubles);
    if str != null && size > 0 {
      str[if sink.count < size then sink.count else size - 1] := '\0';
    }
    r := S32(sink.count);
  }

  /**
   * vasprintf: with memory to be had, the string returned is the whole text, whether it fits the first 256
   * characters or needs the second pass. A text whose length reads as negative in 32 bits is an error.
   */
  method VasPrintf(format: string, args: seq<Arg>, doubles: DoubleText, gotFirst: bool, gotMore: bool)
    returns (strp: array?<char>, needed: int)
    ensures var text := FormatText(format, args, doubles);
      if gotFirst && |text| < 0x8000_0000 && (|text| < 256 || gotMore) then
        strp != null && needed == |text| < strp.Length && strp[..needed] == text && strp[needed] == '\0'
      else |text| < TWO_32 ==> strp == null && needed == -1
  {
    hide FormatText;
    if !gotFirst {
      return null, -1;
    }
    var size := 256;
    var buf := new char[size];
    needed := VsnPrintf(buf, size, format, args, doubles);
    if needed < 0 {
      return null, -1;
    }
    if needed >= size {
      if !gotMore {
        return null, -1;
      }
      buf := new char[needed + 1];
      var again := VsnPrintf(buf, needed + 1, format, args, doubles);
    }
    return buf, needed;
  }
}
