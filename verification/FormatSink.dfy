/** vsnprintf and vasprintf: the loops of the formatter and the buffer they fill. */
module FormatSink {
  import opened Words
  import opened Arithmetic
  import opened NumberFormat
  import opened Format

  /** How many characters of a text of length `n` a buffer of `size` keeps. */
  function Kept(n: nat, size: nat): nat {
    if size == 0 then 0 else if n < size - 1 then n else size - 1
  }

  class FmtSink {
    const buf: array?<char>
    const size: nat
    var count: nat
    ghost var text: string          // everything emitted so far
    ghost const initial: seq<char>  // what the buffer held at the start

    /**
     * The buffer holds the start of the text as far as it fits, one place left for the NUL, and is untouched
     * after it.
     */
    ghost predicate Valid()
      reads this, buf
    {
      && count == |text|
      && (buf != null ==>
            && size <= buf.Length == |initial|
            && forall k :: 0 <= k < buf.Length ==> buf[k] == if k < Kept(count, size) then text[k] else initial[k])
    }

    constructor (str: array?<char>, capacity: nat)
      requires str != null ==> capacity <= str.Length
      ensures Valid() && text == "" && buf == str && size == capacity
      ensures str != null ==> initial == str[..]
    {
      buf, size, count, text := str, capacity, 0, "";
      initial := if str == null then [] else str[..];
    }

    /** fmt_emit. */
    method Emit(c: char)
      requires Valid()
      modifies this, buf
      ensures Valid() && text == old(text) + [c]
    {
      if buf != null && size > 0 && count + 1 < size {
        buf[count] := c;
      }
      count := count + 1;
      text := text + [c];
    }

    /** fmt_pad. */
    method Pad(c: char, n: int)
      requires Valid()
      modifies this, buf
      ensures Valid() && text == old(text) + Fill(c, n)
    {
      var i := 0;
      while i < n
        invariant Valid() && 0 <= i <= if n < 0 then 0 else n
        invariant text == old(text) + Fill(c, i)
      {
        Emit(c);
        i := i + 1;
      }
    }

    method EmitAll(s: string)
      requires Valid()
      modifies this, buf
      ensures Valid() && text == old(text) + s
    {
      var i := 0;
      while i < |s|
        invariant Valid() && i <= |s| && text == old(text) + s[..i]
      {
        Emit(s[i]);
        i := i + 1;
      }
    }

    /** The stores of a string conversion: padding on one side. */
    method EmitPadded(s: string, width: int, leftAlign: bool)
      requires Valid()
      modifies this, buf
      ensures Valid() && text == old(text) + Padded(s, width, leftAlign)
    {
      if !leftAlign {
        Pad(' ', width - |s|);
      }
      EmitAll(s);
      if leftAlign {
        Pad(' ', width - |s|);
      }
    }

    /** Emit characters last to first. */
    method EmitBackwards(digits: array<char>, len: nat)
      requires Valid() && len <= digits.Length && digits != buf
      modifies this, buf
      ensures Valid() && text == old(text) + Reverse(digits[..len])
    {
      var i := len;
      while i > 0
        invariant Valid() && 0 <= i <= len
        invariant digits[..] == old(digits[..])
        invariant text + Reverse(digits[..i]) == old(text) + Reverse(digits[..len])
      {
        i := i - 1;
        assert digits[..i + 1][..i] == digits[..i];
        Emit(digits[i]);
      }
    }

    /** The stores of fmt_number, once it has its parts. */
    method EmitParts(pad: int, leftAlign: bool, prefix: string, zeros: nat, digits: array<char>, len: nat)
      requires Valid() && len <= digits.Length && digits != buf
      modifies this, buf
      ensures Valid()
      ensures text == old(text) + ((if leftAlign then "" else Fill(' ', pad)) + prefix + Fill('0', zeros)
                                   + Reverse(old(digits[..len])) + (if leftAlign then Fill(' ', pad) else ""))
    {
      hide Fill, Reverse;
      if !leftAlign {
        Pad(' ', pad);
      }
      EmitAll(prefix);
      Pad('0', zeros);
      EmitBackwards(digits, len);
      if leftAlign {
        Pad(' ', pad);
      }
    }

    /** fmt_number. */
    method EmitNumber(value: nat, base: nat, upper: bool, sign: string, lay: Layout)
      requires Valid() && value < TWO_64 && 2 <= base <= 16
      modifies this, buf
      ensures Valid() && text == old(text) + NumberText(value, base, upper, sign, lay)
    {
      hide Shown, Fill, HexPrefix, ZeroCount, Reverse;
      var digits, len := CollectDigits(value, base, upper, lay.precision);
      ReverseLength(digits[..len]);
      var prefix := sign + HexPrefix(value, base, upper, lay.altForm);
      var zeros := ZeroCount(lay, |prefix|, len);
      EmitParts(lay.width - (|prefix| + zeros + len), lay.leftAlign, prefix, zeros, digits, len);
    }
  }

  function Reverse(s: string): (r: string) {
    if s == "" then "" else [s[|s| - 1]] + Reverse(s[..|s| - 1])
  }

  lemma {:induction false} ReverseLength(s: string)
    ensures |Reverse(s)| == |s|
  {
    if s != "" {
      ReverseLength(s[..|s| - 1]);
    }
  }

  /** The digits of fmt_number, least significant first. */
  method CollectDigits(value: nat, base: nat, upper: bool, precision: int) returns (digits: array<char>, len: nat)
    requires value < TWO_64 && 2 <= base <= 16
    ensures fresh(digits) && len <= digits.Length && Reverse(digits[..len]) == Shown(value, base, upper, precision)
  {
    hide Digits, Reverse;
    digits, len := new char[64], 0;
    NoDigits(base, upper);
    ReverseAppend("", '0');
    if value != 0 {
      len := DigitLoop(digits, value, base, upper);
    } else if precision != 0 {
      digits[0], len := '0', 1;
      assert digits[..1] == "" + ['0'];
    } else {
      assert digits[..0] == "";
    }
  }

  /** The digit loop; its guard on the buffer is never what ends it. */
  method DigitLoop(digits: array<char>, value: nat, base: nat, upper: bool) returns (len: nat)
    requires value < TWO_64 && 2 <= base <= 16 && digits.Length == 64
    modifies digits
    ensures len <= 64 && Reverse(digits[..len]) == Digits(value, base, upper)
  {
    hide Digits, Reverse, Pow2;
    NoDigits(base, upper);
    ReverseAppend("", '0');
    Pow2Of64();
    DigitsFit(value, base, upper, 64, TWO_64);
    var left: nat := value;
    ghost var done: string := "";
    len := 0;
    while left > 0 && len < 64
      invariant len == |done| <= 64 && done == digits[..len]
      invariant |Digits(left, base, upper)| + len <= 64
      invariant Digits(left, base, upper) + Reverse(done) == Digits(value, base, upper)
      decreases left
    {
      var c := DigitChar(left % base, upper);
      LastDigit(left, base, upper, Reverse(done));
      ReverseAppend(done, c);
      digits[len] := c;
      done := done + [c];
      left := left / base;
      len := len + 1;
    }
    if left > 0 {
      LastDigit(left, base, upper, "");
    }
  }

  lemma ReverseAppend(s: string, c: char)
    ensures Reverse(s + [c]) == [c] + Reverse(s) && Reverse("") == ""
  {
    assert (s + [c])[..|s|] == s;
  }

  lemma NoDigits(base: nat, upper: bool)
    requires 2 <= base <= 16
    ensures Digits(0, base, upper) == ""
  {
  }

  lemma LastDigit(left: nat, base: nat, upper: bool, after: string)
    requires left > 0 && 2 <= base <= 16
    ensures left / base < left && |Digits(left, base, upper)| == |Digits(left / base, base, upper)| + 1
    ensures Digits(left, base, upper) + after
         == Digits(left / base, base, upper) + ([DigitChar(left % base, upper)] + after)
  {
    hide DigitChar;
    Quotient(left, base);
  }
}
