/** The bitmap decompressor (dcmp 2) as functions of the input and the bytes written so far, and an encoder for it. */
module Greggy {
  import opened Words
  import opened Wrappers
  import opened Arithmetic
  import opened ByteTables
  import opened VariableTable
  import opened ExtendedOps
  import opened ExtendedLaws

  const RUN_WORDS: nat := 32

  /** Not errors of the source: a read past the end of the input, and a shift by a negative count. */
  const INPUT_OVERRUN: int := 1
  const BAD_SHIFT: int := 2

  /** Bit `bit` of a run's flags, counted from the most significant one. */
  predicate Flag(flags: nat, bit: nat)
    requires bit < RUN_WORDS
  {
    flags / Pow2(RUN_WORDS - 1 - bit) % 2 == 1
  }

  ghost predicate ByteTable(table: seq<nat>) {
    |table| == 256 && forall k :: 0 <= k < 256 ==> table[k] < TWO_16
  }

  /** One word: from the table through the next byte, or as two literal bytes. */
  function OneWord(input: seq<Byte>, s: St, table: seq<nat>, expanded: bool, cap: nat): (r: Outcome)
    requires s.pos <= |input| && |table| == 256
    ensures s.pos <= r.st.pos <= |input|
  {
    if expanded then
      if s.pos == |input| then Fail(s, inputOutOfBounds)
      else Emit(s.(pos := s.pos + 1), BE16(table[input[s.pos]]), cap)
    else if s.pos + 2 > |input| then Fail(s, inputOutOfBounds)
    else if |s.out| + 2 > cap then Fail(s, outputOutOfBounds)
    else Outcome(0, St(s.pos + 2, s.out + input[s.pos..s.pos + 2], s.last))
  }

  /** The words `bit` to `count` of a run. */
  function RunFrom(input: seq<Byte>, s: St, table: seq<nat>, flags: nat, bit: nat, count: nat, cap: nat): (r: Outcome)
    requires s.pos <= |input| && |table| == 256
    ensures s.pos <= r.st.pos <= |input|
    decreases count - bit
  {
    if bit >= count then Outcome(0, s)
    else if bit >= RUN_WORDS then Outcome(BAD_SHIFT, s)
    else
      var e := OneWord(input, s, table, Flag(flags, bit), cap);
      if e.err != 0 then e else RunFrom(input, e.st, table, flags, bit + 1, count, cap)
  }

  /** `left` runs of 32 words each, the last one of `last` words unless that is 0. */
  function Runs(input: seq<Byte>, s: St, table: seq<nat>, left: nat, last: nat, cap: nat): (r: Outcome)
    requires s.pos <= |input| && |table| == 256
    ensures s.pos <= r.st.pos <= |input|
    decreases left
  {
    if left == 0 then Outcome(0, s)
    else if s.pos + 4 > |input| then Fail(s, inputOutOfBounds)
    else
      var count := if left == 1 && last > 0 then last else RUN_WORDS;
      var e := RunFrom(input, s.(pos := s.pos + 4), table, Read32(input, s.pos), 0, count, cap);
      if e.err != 0 then e else Runs(input, e.st, table, left - 1, last, cap)
  }

  /** GreggyBits_ProcessBitmap on bitmapped data. The second length byte is read without a check. */
  function Bitmapped(input: seq<Byte>, s: St, table: seq<nat>, cap: nat): (r: Outcome)
    requires s.pos <= |input| && |table| == 256
    ensures s.pos <= r.st.pos <= |input|
  {
    if s.pos == |input| then Fail(s, inputOutOfBounds)
    else if s.pos + 1 == |input| then Outcome(INPUT_OVERRUN, s.(pos := s.pos + 1))
    else Runs(input, s.(pos := s.pos + 2), table, input[s.pos], input[s.pos + 1], cap)
  }

  // ---- An encoder -----------------------------------------------------------------------------

  /** A word of the table as its place there, any other as itself. */
  function WordCode(word: nat, table: seq<nat>): (s: seq<Byte>)
    requires |table| == 256
  {
    var k := IndexOf(word, table);
    if k < 256 then [k] else BE16(word)
  }

  function ItemCodes(words: seq<nat>, table: seq<nat>): seq<Byte>
    requires |table| == 256
  {
    if words == [] then [] else WordCode(words[0], table) + ItemCodes(words[1..], table)
  }

  /** The flags of a run: the first word's flag is the highest of the `width` bits. */
  function FlagsOf(words: seq<nat>, table: seq<nat>, width: nat): (v: nat)
    requires |table| == 256 && |words| <= width
    ensures v < Pow2(width)
    decreases width
  {
    if words == [] then 0
    else (if IndexOf(words[0], table) < 256 then Pow2(width - 1) else 0) + FlagsOf(words[1..], table, width - 1)
  }

  function RunCode(words: seq<nat>, table: seq<nat>): seq<Byte>
    requires |table| == 256 && |words| <= RUN_WORDS
  {
    BE32(FlagsOf(words, table, RUN_WORDS)) + ItemCodes(words, table)
  }

  function RunCodes(words: seq<nat>, table: seq<nat>): seq<Byte>
    requires |table| == 256
  {
    if |words| <= RUN_WORDS then RunCode(words, table)
    else RunCode(words[..RUN_WORDS], table) + RunCodes(words[RUN_WORDS..], table)
  }

  function RunCount(words: seq<nat>): (n: nat)
    ensures |words| <= 255 * RUN_WORDS ==> n <= 255
  {
    (|words| + RUN_WORDS - 1) / RUN_WORDS
  }

  function LastCount(words: seq<nat>): (n: nat)
    requires words != []
    ensures 1 <= n <= RUN_WORDS
  {
    |words| - RUN_WORDS * (RunCount(words) - 1)
  }

  function RunHeader(words: seq<nat>): (s: seq<Byte>)
    requires 0 < |words| <= 255 * RUN_WORDS
  {
    [RunCount(words), LastCount(words)]
  }

  /** The counts of a run list that goes on after its first run, and of one that does not. */
  lemma CountsStep(words: seq<nat>)
    requires words != []
    ensures |words| <= RUN_WORDS ==> RunCount(words) == 1 && LastCount(words) == |words|
    ensures |words| > RUN_WORDS ==>
              RunCount(words[RUN_WORDS..]) == RunCount(words) - 1 && LastCount(words[RUN_WORDS..]) == LastCount(words)
  {
  }

  /** The number of runs, the length of the last one, and the runs. */
  function BitmapCode(words: seq<nat>, table: seq<nat>): seq<Byte>
    requires |table| == 256 && 0 < |words| <= 255 * RUN_WORDS
  {
    RunHeader(words) + RunCodes(words, table)
  }

  function WordBytes(words: seq<nat>): (s: seq<Byte>)
    ensures |s| == 2 * |words|
  {
    if words == [] then [] else BE16(words[0]) + WordBytes(words[1..])
  }

  // ---- The decoder undoes the encoder ------------------------------------------------------------

  /** A multiple of an even multiple of the divisor does not change the last bit of the quotient. */
  lemma EvenShift(r: nat, half: nat, d: nat)
    requires d > 0
    ensures (2 * half * d + r) / d % 2 == r / d % 2
  {
    var k := r / d;
    assert r == k * d + r % d;
    Distribute(2 * half, k, d);
    QuotientIs(2 * half * d + r, d, 2 * half + k, r % d);
  }

  /** The bits of the flags say which words are in the table. */
  lemma {:induction false} FlagBack(words: seq<nat>, table: seq<nat>, width: nat, k: nat)
    requires |table| == 256 && k < |words| <= width
    ensures FlagsOf(words, table, width) / Pow2(width - 1 - k) % 2 == if IndexOf(words[k], table) < 256 then 1 else 0
    decreases k
  {
    hide IndexOf;
    var rest := FlagsOf(words[1..], table, width - 1);
    var v := FlagsOf(words, table, width);
    var first := IndexOf(words[0], table) < 256;
    if k == 0 {
      QuotientIs(v, Pow2(width - 1), if first then 1 else 0, rest);
    } else {
      FlagBack(words[1..], table, width - 1, k - 1);
      var d := Pow2(width - 1 - k);
      if first {
        Pow2Plus(k, width - 1 - k);
        assert Pow2(k) == 2 * Pow2(k - 1);
        EvenShift(rest, Pow2(k - 1), d);
      }
    }
  }

  lemma OneWordBack(input: seq<Byte>, s: St, table: seq<nat>, word: nat, cap: nat)
    requires ByteTable(table) && word < TWO_16
    requires s.pos <= |input| && Follows(input, s.pos, WordCode(word, table)) && |s.out| + 2 <= cap
    ensures OneWord(input, s, table, IndexOf(word, table) < 256, cap)
         == Outcome(0, St(s.pos + |WordCode(word, table)|, s.out + BE16(word), s.last))
  {
    hide IndexOf, BE16;
    assert IndexOf(word, table) < 256 ==> input[s.pos] == input[s.pos..s.pos + 1][0];
  }

  lemma {:induction false} RunBack(input: seq<Byte>, s: St, table: seq<nat>, words: seq<nat>, bit: nat, cap: nat)
    requires ByteTable(table) && bit <= |words| <= RUN_WORDS && forall k :: 0 <= k < |words| ==> words[k] < TWO_16
    requires s.pos <= |input| && Follows(input, s.pos, ItemCodes(words[bit..], table))
    requires |s.out| + 2 * (|words| - bit) <= cap
    ensures RunFrom(input, s, table, FlagsOf(words, table, RUN_WORDS), bit, |words|, cap)
         == Outcome(0, St(s.pos + |ItemCodes(words[bit..], table)|, s.out + WordBytes(words[bit..]), s.last))
    decreases |words| - bit
  {
    hide IndexOf, BE16, FlagsOf, WordCode, OneWord, Pow2;
    var rest := words[bit..];
    if bit < |words| {
      var code := WordCode(words[bit], table);
      assert rest[1..] == words[bit + 1..];
      FollowsSplit(input, s.pos, code, ItemCodes(rest[1..], table));
      FlagBack(words, table, RUN_WORDS, bit);
      OneWordBack(input, s, table, words[bit], cap);
      RunBack(input, St(s.pos + |code|, s.out + BE16(words[bit]), s.last), table, words, bit + 1, cap);
      assert s.out + BE16(words[bit]) + WordBytes(rest[1..]) == s.out + WordBytes(rest);
    }
  }

  /** One whole run: its flags, then its words. */
  lemma WholeRunBack(input: seq<Byte>, s: St, table: seq<nat>, words: seq<nat>, cap: nat)
    requires ByteTable(table) && |words| <= RUN_WORDS && forall k :: 0 <= k < |words| ==> words[k] < TWO_16
    requires s.pos <= |input| && Follows(input, s.pos, RunCode(words, table))
    requires |s.out| + 2 * |words| <= cap
    ensures s.pos + 4 <= |input|
    ensures RunFrom(input, s.(pos := s.pos + 4), table, Read32(input, s.pos), 0, |words|, cap)
         == Outcome(0, St(s.pos + |RunCode(words, table)|, s.out + WordBytes(words), s.last))
  {
    hide FlagsOf, BE32, ItemCodes, RunFrom, WordBytes, Pow2;
    var flags := FlagsOf(words, table, RUN_WORDS);
    FollowsSplit(input, s.pos, BE32(flags), ItemCodes(words, table));
    Pow2Of32();
    Read32Back(input, s.pos, flags);
    U32Same(flags);
    assert words[0..] == words;
    RunBack(input, s.(pos := s.pos + 4), table, words, 0, cap);
  }

  lemma {:induction false} WordBytesAppend(a: seq<nat>, b: seq<nat>)
    ensures WordBytes(a + b) == WordBytes(a) + WordBytes(b)
  {
    hide BE16;
    if a == [] {
      assert a + b == b;
    } else {
      assert (a + b)[1..] == a[1..] + b;
      WordBytesAppend(a[1..], b);
    }
  }

  lemma {:induction false} RunsBack(input: seq<Byte>, s: St, table: seq<nat>, words: seq<nat>, last: nat, cap: nat)
    requires ByteTable(table) && words != [] && forall k :: 0 <= k < |words| ==> words[k] < TWO_16
    requires last == LastCount(words)
    requires s.pos <= |input| && Follows(input, s.pos, RunCodes(words, table)) && |s.out| + 2 * |words| <= cap
    ensures Runs(input, s, table, RunCount(words), last, cap)
         == Outcome(0, St(s.pos + |RunCodes(words, table)|, s.out + WordBytes(words), s.last))
    decreases |words|
  {
    hide RunCode, RunFrom, WordBytes, Read32, RunCount, LastCount;
    CountsStep(words);
    if |words| <= RUN_WORDS {
      WholeRunBack(input, s, table, words, cap);
    } else {
      var first, rest := words[..RUN_WORDS], words[RUN_WORDS..];
      FollowsSplit(input, s.pos, RunCode(first, table), RunCodes(rest, table));
      WholeRunBack(input, s, table, first, cap);
      var next := St(s.pos + |RunCode(first, table)|, s.out + WordBytes(first), s.last);
      RunsBack(input, next, table, rest, last, cap);
      assert first + rest == words;
      WordBytesAppend(first, rest);
      assert s.out + WordBytes(first) + WordBytes(rest) == s.out + WordBytes(words);
    }
  }

  /** Decoding undoes the encoding of every word sequence the format can hold, for every table. */
  lemma BitmapBack(input: seq<Byte>, s: St, table: seq<nat>, words: seq<nat>, cap: nat)
    requires ByteTable(table) && 0 < |words| <= 255 * RUN_WORDS && forall k :: 0 <= k < |words| ==> words[k] < TWO_16
    requires s.pos <= |input| && Follows(input, s.pos, BitmapCode(words, table)) && |s.out| + 2 * |words| <= cap
    ensures Bitmapped(input, s, table, cap)
         == Outcome(0, St(s.pos + |BitmapCode(words, table)|, s.out + WordBytes(words), s.last))
  {
    hide RunCodes, Runs, WordBytes, RunCount, LastCount;
    var n, last := RunCount(words), LastCount(words);
    FollowsSplit(input, s.pos, [n, last], RunCodes(words, table));
    var head := input[s.pos..s.pos + 2];
    assert input[s.pos] == head[0] && input[s.pos + 1] == head[1];
    RunsBack(input, s.(pos := s.pos + 2), table, words, last, cap);
  }
}
