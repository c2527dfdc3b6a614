/** What strtol and strtoul make of any string: its parts, the value of the digits in any base, and where they end. */
module NumberLaws {
  import opened Words
  import opened NumberFormat

  /** The value of a digit or a letter of either case, 36 for any other character. */
  function Digit36(c: char): nat {
    if '0' <= c <= '9' then c as nat - '0' as nat
    else if 'a' <= c <= 'z' then c as nat - 'a' as nat + 10
    else if 'A' <= c <= 'Z' then c as nat - 'A' as nat + 10 else 36
  }

  /** A digit of the base, which may be any number: no base has more than 36. */
  predicate IsDigit(c: char, base: int) {
    Digit36(c) < 36 && Digit36(c) < base
  }

  function Horner(s: string, base: int): int {
    if s == "" then 0 else Horner(s[..|s| - 1], base) * base + Digit36(s[|s| - 1])
  }

  predicate Blank(c: char) {
    c == ' ' || c == '\t'
  }

  predicate Marked(s: string) {
    |s| >= 2 && s[0] == '0' && (s[1] == 'x' || s[1] == 'X')
  }

  /** The prefix of a number in base 0 or 16, and the base it is read in. */
  predicate PrefixIs(base: int, prefix: string, after: string, used: int) {
    if base == 0 && prefix + after != "" && (prefix + after)[0] == '0' then
      if Marked(prefix + after) then |prefix| == 2 && used == 16 else |prefix| == 1 && used == 8
    else if base == 16 && Marked(prefix + after) then |prefix| == 2 && used == 16
    else prefix == "" && used == if base == 0 then 10 else base
  }

  /** The parts of a string that holds a number: blanks, a sign, a prefix, as many digits as there are, and the rest. */
  datatype Split = Split(blanks: string, sign: string, prefix: string, digits: string, rest: string, used: int)

  ghost predicate Splits(s: string, base: int, signs: string, p: Split) {
    && s == p.blanks + (p.sign + (p.prefix + (p.digits + p.rest)))
    && (forall k :: 0 <= k < |p.blanks| ==> Blank(p.blanks[k]))
    && (var t := p.sign + (p.prefix + (p.digits + p.rest));
        (t != "" ==> !Blank(t[0])) && |p.sign| == if t != "" && t[0] in signs then 1 else 0)
    && PrefixIs(base, p.prefix, p.digits + p.rest, p.used)
    && (forall k :: 0 <= k < |p.digits| ==> IsDigit(p.digits[k], p.used))
    && (p.rest != "" ==> !IsDigit(p.rest[0], p.used))
  }

  // ---- The parts are read one after the other ------------------------------------------------------

  lemma {:induction false} BlanksRead(blanks: string, t: string)
    requires forall k :: 0 <= k < |blanks| ==> Blank(blanks[k])
    requires t != "" ==> !Blank(t[0])
    ensures SkipBlanks(blanks + t) == t
    decreases |blanks|
  {
    if blanks == "" {
      assert blanks + t == t;
    } else {
      assert (blanks + t)[1..] == blanks[1..] + t;
      BlanksRead(blanks[1..], t);
    }
  }

  lemma DigitSame(c: char, base: int)
    ensures IsDigit(c, base) <==> 0 <= DigitValue(c) < base
    ensures IsDigit(c, base) ==> DigitValue(c) == Digit36(c)
  {
  }

  /** Digits after others: their value, reduced to 32 bits at every step or only at the end. */
  function HornerOn(n: int, s: string, base: int): int {
    if s == "" then n else HornerOn(n, s[..|s| - 1], base) * base + Digit36(s[|s| - 1])
  }

  lemma {:induction false} HornerFirst(n: int, s: string, base: int)
    requires s != ""
    ensures HornerOn(n, s, base) == HornerOn(n * base + Digit36(s[0]), s[1..], base)
    decreases |s|
  {
    hide Digit36;
    if |s| > 1 {
      var front := s[..|s| - 1];
      HornerFirst(n, front, base);
      assert front[1..] == s[1..][..|s[1..]| - 1];
    }
  }

  lemma {:induction false} HornerIs(s: string, base: int)
    ensures HornerOn(0, s, base) == Horner(s, base)
    decreases |s|
  {
    if s != "" {
      HornerIs(s[..|s| - 1], base);
    }
  }

  lemma {:induction false} DigitsParsed(n: int, digits: string, rest: string, base: int, signed: bool)
    requires forall k :: 0 <= k < |digits| ==> IsDigit(digits[k], base)
    requires rest != "" ==> !IsDigit(rest[0], base)
    ensures ParseDigits(digits + rest, base, signed, Keep(signed, n)) == (Keep(signed, HornerOn(n, digits, base)), rest)
    decreases |digits|
  {
    hide Keep, Digit36, DigitValue, IsDigit;
    if digits == "" {
      assert digits + rest == rest;
      if rest != "" {
        DigitSame(rest[0], base);
      }
    } else {
      assert (digits + rest)[1..] == digits[1..] + rest;
      DigitSame(digits[0], base);
      var d := Digit36(digits[0]);
      KeepStep(signed, n, base, d);
      DigitsParsed(n * base + d, digits[1..], rest, base, signed);
      HornerFirst(n, digits, base);
    }
  }

  lemma PrefixRead(base: int, prefix: string, after: string, used: int)
    requires PrefixIs(base, prefix, after, used)
    ensures BaseAndStart(prefix + after, base) == (used, after)
  {
    var s := prefix + after;
    assert s[|prefix|..] == after;
  }

  /** The number after the sign. */
  lemma NumberParsed(base: int, p: Split, signed: bool)
    requires PrefixIs(base, p.prefix, p.digits + p.rest, p.used)
    requires forall k :: 0 <= k < |p.digits| ==> IsDigit(p.digits[k], p.used)
    requires p.rest != "" ==> !IsDigit(p.rest[0], p.used)
    ensures var (b, digits) := BaseAndStart(p.prefix + (p.digits + p.rest), base);
            ParseDigits(digits, b, signed, 0) == (Keep(signed, Horner(p.digits, p.used)), p.rest)
  {
    hide PrefixIs, BaseAndStart, ParseDigits, IsDigit, Keep;
    PrefixRead(base, p.prefix, p.digits + p.rest, p.used);
    KeepSame(signed, 0);
    DigitsParsed(0, p.digits, p.rest, p.used, signed);
    HornerIs(p.digits, p.used);
  }

  lemma SignRead(sign: string, after: string, signs: string)
    requires signs == "+-" || signs == "+"
    requires var t := sign + after; |sign| == if t != "" && t[0] in signs then 1 else 0
    ensures var t := sign + after;
            && (if t != "" && t[0] in signs then t[1..] else t) == after
            && (sign == "" || sign == "+" || (sign == "-" && signs == "+-"))
  {
    var t := sign + after;
    if sign == "" {
      assert t == after;
    } else {
      assert t[1..] == after && t[0] == sign[0] && sign == [sign[0]];
    }
  }

  lemma ResultOf(value: int, negative: bool)
    ensures S32(if negative then -Keep(true, value) else Keep(true, value)) == S32(if negative then -value else value)
  {
    ResultSigned(value, negative);
  }

  /**
   * strtol: the value of the digits, with the sign, in 32 bits; and it ends at the first character that is no digit.
   */
  lemma LongIs(s: string, base: int, p: Split)
    requires Splits(s, base, "+-", p)
    ensures Strtol(s, base)
         == (S32(if p.sign == "-" then -Horner(p.digits, p.used) else Horner(p.digits, p.used)), p.rest)
  {
    hide PrefixIs, BaseAndStart, ParseDigits, IsDigit, Keep, Horner, SkipBlanks, S32, Blank;
    var after := p.prefix + (p.digits + p.rest);
    BlanksRead(p.blanks, p.sign + after);
    SignRead(p.sign, after, "+-");
    NumberParsed(base, p, true);
    ResultOf(Horner(p.digits, p.used), p.sign == "-");
    SignIs(p.sign, after);
  }

  lemma SignIs(sign: string, after: string)
    requires var t := sign + after; |sign| == if t != "" && t[0] in "+-" then 1 else 0
    ensures sign == "-" <==> sign + after != "" && (sign + after)[0] == '-'
  {
    if sign != "" {
      assert (sign + after)[0] == sign[0] && sign == [sign[0]];
    }
  }

  /** strtoul: the same without a minus sign. */
  lemma UnsignedLongIs(s: string, base: int, p: Split)
    requires Splits(s, base, "+", p)
    ensures Strtoul(s, base) == (U32(Horner(p.digits, p.used)), p.rest)
  {
    hide PrefixIs, BaseAndStart, ParseDigits, IsDigit, Horner, SkipBlanks, Blank;
    var after := p.prefix + (p.digits + p.rest);
    BlanksRead(p.blanks, p.sign + after);
    SignRead(p.sign, after, "+");
    NumberParsed(base, p, false);
  }

  // ---- Every string has such parts ------------------------------------------------------------------

  lemma {:induction false} BlanksEnd(s: string) returns (blanks: string, t: string)
    ensures s == blanks + t && (forall k :: 0 <= k < |blanks| ==> Blank(blanks[k])) && (t != "" ==> !Blank(t[0]))
    decreases |s|
  {
    hide Blank;
    blanks, t := "", s;
    if s != "" && Blank(s[0]) {
      blanks, t := BlanksEnd(s[1..]);
      blanks := [s[0]] + blanks;
    }
  }

  lemma {:induction false} DigitsEnd(s: string, base: int) returns (digits: string, t: string)
    ensures s == digits + t
    ensures (forall k :: 0 <= k < |digits| ==> IsDigit(digits[k], base)) && (t != "" ==> !IsDigit(t[0], base))
    decreases |s|
  {
    hide IsDigit;
    digits, t := "", s;
    if s != "" && IsDigit(s[0], base) {
      digits, t := DigitsEnd(s[1..], base);
      digits := [s[0]] + digits;
    }
  }

  lemma PrefixEnd(s: string, base: int) returns (prefix: string, t: string, used: int)
    ensures s == prefix + t && PrefixIs(base, prefix, t, used)
  {
    var n: nat := 0;
    used := base;
    if base == 0 && s != "" && s[0] == '0' {
      n, used := if Marked(s) then 2 else 1, if Marked(s) then 16 else 8;
    } else if base == 16 && Marked(s) {
      n := 2;
    } else if base == 0 {
      used := 10;
    }
    prefix, t := s[..n], s[n..];
    assert prefix + t == s;
  }

  lemma SignEnd(s: string, signs: string) returns (sign: string, t: string)
    ensures s == sign + t && |sign| == if s != "" && s[0] in signs then 1 else 0
  {
    var n: nat := if s != "" && s[0] in signs then 1 else 0;
    sign, t := s[..n], s[n..];
  }

  /** So the laws cover every string and every base. */
  lemma SplitExists(s: string, base: int, signs: string) returns (p: Split)
    ensures Splits(s, base, signs, p)
  {
    hide Blank, IsDigit, PrefixIs;
    var blanks, t := BlanksEnd(s);
    var sign, u := SignEnd(t, signs);
    var prefix, v, used := PrefixEnd(u, base);
    var digits, rest := DigitsEnd(v, used);
    p := Split(blanks, sign, prefix, digits, rest, used);
  }
}
