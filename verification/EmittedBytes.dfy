/** The bytes that the decompressors put out, one by one and without the encoders' own words for them. */
module EmittedBytes {
  import opened Words
  import opened ByteTables
  import opened EncodedValue
  import opened VariableTable
  import opened ExtendedOps
  import opened ExtendedLaws
  import opened Dcmp1

  /** The most significant byte comes first. */
  lemma FieldsWritten()
    ensures BE16(0x1234) == [0x12, 0x34] && BE24(0x12_3456) == [0x12, 0x34, 0x56]
    ensures BE32(0x1234_5678) == [0x12, 0x34, 0x56, 0x78]
  {
  }

  lemma FieldsRead(s: seq<Byte>)
    requires s == [0x12, 0x34, 0x56, 0x78]
    ensures Read16(s, 0) == 0x1234 && Read24(s, 0) == 0x12_3456 && Read32(s, 0) == 0x1234_5678
  {
  }

  // ---- Differences -----------------------------------------------------------------------------

  /** How many bytes a value of the kind takes. */
  function Width(kind: DiffKind): nat {
    if kind == LongDelta then 4 else 2
  }

  /** The value of the kind that stands at `at`. */
  function ValueAt(kind: DiffKind, s: seq<Byte>, at: nat): nat
    requires at + Width(kind) <= |s|
  {
    if kind == LongDelta then Read32(s, at) else Read16(s, at)
  }

  lemma StoredIs(kind: DiffKind, pre: seq<Byte>, value: nat, after: seq<Byte>)
    requires Storable(kind, value)
    ensures |Stored(kind, value)| == Width(kind)
    ensures ValueAt(kind, pre + Stored(kind, value) + after, |pre|) == value
  {
    hide BE16, BE32, Read16, Read32;
    var s, v := pre + Stored(kind, value) + after, Stored(kind, value);
    assert s[|pre|..|pre| + |v|] == v;
    if kind == LongDelta {
      Read32Back(s, |pre|, value);
      U32Same(value);
    } else {
      Read16Back(s, |pre|, value);
      U16Same(value);
    }
  }

  lemma {:induction false} ValuesAre(kind: DiffKind, pre: seq<Byte>, values: seq<nat>)
    requires forall k :: 0 <= k < |values| ==> Storable(kind, values[k])
    ensures |ValueBytes(kind, values)| == Width(kind) * |values|
    ensures forall k :: 0 <= k < |values| ==>
              ValueAt(kind, pre + ValueBytes(kind, values), |pre| + Width(kind) * k) == values[k]
    decreases |values|
  {
    hide Stored, ValueAt;
    if values != [] {
      var first, rest := Stored(kind, values[0]), ValueBytes(kind, values[1..]);
      StoredIs(kind, pre, values[0], rest);
      ValuesAre(kind, pre + first, values[1..]);
      assert pre + ValueBytes(kind, values) == pre + first + rest;
      forall k | 0 <= k < |values|
        ensures ValueAt(kind, pre + ValueBytes(kind, values), |pre| + Width(kind) * k) == values[k]
      {
        if k > 0 {
          assert values[1..][k - 1] == values[k];
          assert |pre + first| + Width(kind) * (k - 1) == |pre| + Width(kind) * k;
        }
      }
    }
  }

  /** A difference operation puts out its values and nothing else: words of two bytes each, or longs of four. */
  lemma DiffOutput(input: seq<Byte>, kind: DiffKind, s: St, cap: nat, values: seq<nat>)
    requires 0 < |values| <= TWO_32 && AllStorable(kind, values)
    requires s.pos <= |input| && Follows(input, s.pos, DiffCode(kind, values))
    requires |s.out| + (if kind == LongDelta then 4 else 2) * |values| <= cap
    ensures var r := Extended(input, s, cap);
            && r.err == 0 && r.st.last == s.last && r.st.pos == s.pos + |DiffCode(kind, values)|
            && s.out <= r.st.out
            && (kind == LongDelta ==>
                  && |r.st.out| == |s.out| + 4 * |values|
                  && forall k :: 0 <= k < |values| ==> Read32(r.st.out, |s.out| + 4 * k) == values[k])
            && (kind != LongDelta ==>
                  && |r.st.out| == |s.out| + 2 * |values|
                  && forall k :: 0 <= k < |values| ==> Read16(r.st.out, |s.out| + 2 * k) == values[k])
  {
    hide Extended, DiffCode, ValueBytes, Follows, Read16, Read32, Encodable;
    ValuesAre(kind, s.out, values);
    DiffBack(input, kind, s, cap, values);
    var out := s.out + ValueBytes(kind, values);
    forall k | 0 <= k < |values|
      ensures if kind == LongDelta then Read32(out, |s.out| + 4 * k) == values[k]
              else Read16(out, |s.out| + 2 * k) == values[k]
    {
      assert ValueAt(kind, out, |s.out| + Width(kind) * k) == values[k];
    }
  }

  // ---- Runs ------------------------------------------------------------------------------------

  lemma {:induction false} ByteCopies(b: Byte, n: nat)
    ensures |Copies([b], n)| == n && forall k :: 0 <= k < n ==> Copies([b], n)[k] == b
    decreases n
  {
    if n > 0 {
      ByteCopies(b, n - 1);
    }
  }

  lemma {:induction false} WordCopies(pre: seq<Byte>, value: nat, n: nat)
    requires value < TWO_16
    ensures |Copies(BE16(value), n)| == 2 * n
    ensures forall k :: 0 <= k < n ==> Read16(pre + Copies(BE16(value), n), |pre| + 2 * k) == value
    decreases n
  {
    hide BE16, Read16;
    if n > 0 {
      var first, rest := BE16(value), Copies(BE16(value), n - 1);
      WordIs(pre, value, rest);
      WordCopies(pre + first, value, n - 1);
      assert pre + Copies(BE16(value), n) == pre + first + rest;
      forall k | 0 <= k < n
        ensures Read16(pre + Copies(BE16(value), n), |pre| + 2 * k) == value
      {
        if k > 0 {
          assert |pre + first| + 2 * (k - 1) == |pre| + 2 * k;
        }
      }
    }
  }

  lemma WordIs(pre: seq<Byte>, value: int, after: seq<Byte>)
    ensures Read16(pre + BE16(value) + after, |pre|) == U16(value)
    ensures 0 <= value < TWO_16 ==> Read16(pre + BE16(value) + after, |pre|) == value
  {
    hide BE16, Read16;
    var s := pre + BE16(value) + after;
    assert s[|pre|..|pre| + 2] == BE16(value);
    Read16Back(s, |pre|, value);
  }

  /** The run-length operations put out the byte, or the word, as often as asked for. */
  lemma RunOutput(input: seq<Byte>, s: St, cap: nat, op: Byte, value: nat, n: nat)
    requires op == EXT_RUN_LENGTH_BYTE || op == EXT_RUN_LENGTH_WORD
    requires value < (if op == EXT_RUN_LENGTH_BYTE then TWO_8 else TWO_16) && 0 < n <= TWO_32
    requires s.pos <= |input| && Follows(input, s.pos, RunLengthCode(op, value, n))
    requires |s.out| + (if op == EXT_RUN_LENGTH_BYTE then 1 else 2) * n <= cap
    ensures var r := Extended(input, s, cap);
            && r.err == 0 && r.st.last == s.last && r.st.pos == s.pos + |RunLengthCode(op, value, n)|
            && s.out <= r.st.out
            && (op == EXT_RUN_LENGTH_BYTE ==>
                  && |r.st.out| == |s.out| + n
                  && forall k :: |s.out| <= k < |r.st.out| ==> r.st.out[k] == value)
            && (op == EXT_RUN_LENGTH_WORD ==>
                  && |r.st.out| == |s.out| + 2 * n
                  && forall k :: 0 <= k < n ==> Read16(r.st.out, |s.out| + 2 * k) == value)
  {
    hide Extended, RunLengthCode, Copies, Follows, Read16, BE16;
    if op == EXT_RUN_LENGTH_BYTE {
      ByteCopies(value as Byte, n);
    } else {
      WordCopies(s.out, value, n);
    }
    RunLengthBack(input, s, cap, op, value, n);
  }

  // ---- Jump tables and entry vectors -----------------------------------------------------------------

  /** An entry of a jump table without its offset: a constant, the segment, and another constant. */
  ghost predicate JumpEntryAt(s: seq<Byte>, at: nat, seg: nat) {
    && at + 6 <= |s| && s[at] == 0x3F && s[at + 1] == 0x3C && Read16(s, at + 2) == seg
    && s[at + 4] == 0xA9 && s[at + 5] == 0xF0
  }

  lemma JumpEntryIs(pre: seq<Byte>, seg: nat, after: seq<Byte>)
    requires seg < TWO_16
    ensures JumpEntryAt(pre + JumpEntry(seg) + after, |pre|, seg)
  {
    hide BE16, Read16;
    var s := pre + JumpEntry(seg) + after;
    var head, tail: seq<Byte> := [0x3F, 0x3C], [0xA9, 0xF0];
    assert s == (pre + head) + BE16(seg) + (tail + after);
    WordIs(pre + head, seg, tail + after);
    assert s[|pre|] == 0x3F && s[|pre| + 1] == 0x3C && s[|pre| + 4] == 0xA9 && s[|pre| + 5] == 0xF0;
  }

  lemma {:induction false} JumpTableIs(pre: seq<Byte>, seg: nat, offsets: seq<nat>)
    requires seg < TWO_16 && forall k :: 0 <= k < |offsets| ==> offsets[k] < TWO_16
    ensures |JumpTableBytes(seg, offsets)| == 8 * |offsets| + 6
    ensures forall k :: 0 <= k <= |offsets| ==> JumpEntryAt(pre + JumpTableBytes(seg, offsets), |pre| + 8 * k, seg)
    ensures forall k :: 0 <= k < |offsets| ==>
              Read16(pre + JumpTableBytes(seg, offsets), |pre| + 8 * k + 6) == offsets[k]
    decreases |offsets|
  {
    hide BE16, Read16, JumpEntry, JumpEntryAt;
    JumpEntryLength(seg);
    var all := pre + JumpTableBytes(seg, offsets);
    if offsets == [] {
      JumpEntryIs(pre, seg, []);
      assert all == pre + JumpEntry(seg) + [];
    } else {
      var entry, off, rest := JumpEntry(seg), BE16(offsets[0]), JumpTableBytes(seg, offsets[1..]);
      JumpEntryIs(pre, seg, off + rest);
      assert all == pre + entry + (off + rest);
      WordIs(pre + entry, offsets[0], rest);
      assert all == (pre + entry) + off + rest;
      JumpTableIs(pre + entry + off, seg, offsets[1..]);
      assert all == (pre + entry + off) + rest;
      forall k | 0 < k <= |offsets|
        ensures JumpEntryAt(all, |pre| + 8 * k, seg)
        ensures k < |offsets| ==> Read16(all, |pre| + 8 * k + 6) == offsets[k]
      {
        assert |pre + entry + off| + 8 * (k - 1) == |pre| + 8 * k;
        assert k < |offsets| ==> offsets[1..][k - 1] == offsets[k];
      }
    }
  }

  lemma JumpEntryLength(seg: nat)
    ensures |JumpEntry(seg)| == 6
  {
  }

  /** The jump table operation puts out eight bytes for each offset, and six without one at the end. */
  lemma JumpTableOutput(input: seq<Byte>, s: St, cap: nat, seg: nat, offsets: seq<nat>)
    requires seg < TWO_16 && |offsets| < TWO_32 && forall k :: 0 <= k < |offsets| ==> offsets[k] < TWO_16
    requires s.pos <= |input| && Follows(input, s.pos, JumpTableCode(seg, offsets))
    requires |s.out| + 8 * |offsets| + 6 <= cap
    ensures var r := Extended(input, s, cap);
            && r.err == 0 && r.st.last == s.last && r.st.pos == s.pos + |JumpTableCode(seg, offsets)|
            && s.out <= r.st.out && |r.st.out| == |s.out| + 8 * |offsets| + 6
            && (forall k :: 0 <= k <= |offsets| ==> JumpEntryAt(r.st.out, |s.out| + 8 * k, seg))
            && forall k :: 0 <= k < |offsets| ==> Read16(r.st.out, |s.out| + 8 * k + 6) == offsets[k]
  {
    hide Extended, JumpTableCode, JumpTableBytes, Follows, Read16, JumpEntryAt;
    JumpTableIs(s.out, seg, offsets);
    JumpTableBack(input, s, cap, seg, offsets);
  }

  /** An entry vector: a branch by a distance in 16 bits, and a jump to an offset. */
  ghost predicate VectorAt(s: seq<Byte>, at: nat, branch: int, offset: nat) {
    && at + 8 <= |s| && s[at] == 0x61 && s[at + 1] == 0x00 && Read16(s, at + 2) == U16(branch)
    && s[at + 4] == 0x4E && s[at + 5] == 0xED && Read16(s, at + 6) == offset
  }

  lemma VectorIs(pre: seq<Byte>, branch: int, offset: nat, after: seq<Byte>)
    requires offset < TWO_16
    ensures |VectorEntry(branch, offset)| == 8
    ensures VectorAt(pre + VectorEntry(branch, offset) + after, |pre|, branch, offset)
  {
    hide BE16, Read16, U16;
    var s := pre + VectorEntry(branch, offset) + after;
    var head, middle: seq<Byte> := [0x61, 0x00], [0x4E, 0xED];
    assert s == (pre + head) + BE16(branch) + (middle + BE16(offset) + after);
    WordIs(pre + head, branch, middle + BE16(offset) + after);
    assert s == (pre + head + BE16(branch) + middle) + BE16(offset) + after;
    WordIs(pre + head + BE16(branch) + middle, offset, after);
    assert s[|pre|] == 0x61 && s[|pre| + 1] == 0x00 && s[|pre| + 4] == 0x4E && s[|pre| + 5] == 0xED;
  }

  lemma U16OfS16(x: int, less: int)
    ensures U16(S16(x) - less) == U16(x - less)
  {
    var turns := (x + 0x8000) / TWO_16;
    assert S16(x) == x - turns * TWO_16;
    Turns16(x - less, -turns);
  }

  lemma {:induction false} VectorsAre(pre: seq<Byte>, branch: int, offsets: seq<nat>)
    requires forall k :: 0 <= k < |offsets| ==> offsets[k] < TWO_16
    ensures |VectorBytes(branch, offsets)| == 8 * |offsets|
    ensures forall k :: 0 <= k < |offsets| ==>
              VectorAt(pre + VectorBytes(branch, offsets), |pre| + 8 * k, branch - 8 * k, offsets[k])
    decreases |offsets|
  {
    hide VectorEntry, VectorAt, S16, U16;
    if offsets != [] {
      var all := pre + VectorBytes(branch, offsets);
      var first, rest := VectorEntry(branch, offsets[0]), VectorBytes(S16(branch - 8), offsets[1..]);
      VectorIs(pre, branch, offsets[0], rest);
      assert all == pre + first + rest;
      VectorsAre(pre + first, S16(branch - 8), offsets[1..]);
      forall k | 0 < k < |offsets|
        ensures VectorAt(all, |pre| + 8 * k, branch - 8 * k, offsets[k])
      {
        assert |pre + first| + 8 * (k - 1) == |pre| + 8 * k && offsets[1..][k - 1] == offsets[k];
        U16OfS16(branch - 8, 8 * (k - 1));
        SameBranch(all, |pre| + 8 * k, S16(branch - 8) - 8 * (k - 1), branch - 8 * k, offsets[k]);
      }
    }
  }

  lemma SameBranch(s: seq<Byte>, at: nat, a: int, b: int, offset: nat)
    requires U16(a) == U16(b) && VectorAt(s, at, a, offset)
    ensures VectorAt(s, at, b, offset)
  {
  }

  /** The entry vector operation puts out eight bytes for each offset, each branching 8 bytes less far. */
  lemma EntryVectorOutput(input: seq<Byte>, s: St, cap: nat, branch: int, delta: int, offsets: seq<nat>)
    requires 0 < |offsets| < TWO_32 && Stepped(delta, offsets)
    requires -0x8000 <= branch < 0x8000 && -0x8000 <= delta < 0x8000
    requires s.pos <= |input| && Follows(input, s.pos, EntryVectorCode(branch, delta, offsets))
    requires |s.out| + 8 * |offsets| <= cap
    ensures var r := Extended(input, s, cap);
            && r.err == 0 && r.st.last == s.last && r.st.pos == s.pos + |EntryVectorCode(branch, delta, offsets)|
            && s.out <= r.st.out && |r.st.out| == |s.out| + 8 * |offsets|
            && forall k :: 0 <= k < |offsets| ==> VectorAt(r.st.out, |s.out| + 8 * k, branch - 8 * k, offsets[k])
  {
    hide Extended, EntryVectorCode, VectorBytes, Follows, VectorAt, U16;
    VectorsAre(s.out, branch, offsets);
    EntryVectorBack(input, s, cap, branch, delta, offsets);
  }

  // ---- Values and tokens ----------------------------------------------------------------------------

  /**
   * How a value is read, byte by byte: one byte below 80, five bytes after FF, and else two bytes, of which the first
   * counts from C0. What ends too early reads as 0 and is noted.
   */
  lemma ValueRead(input: seq<Byte>, pos: nat)
    requires pos <= |input|
    ensures var r := Decode(input, pos);
            if pos == |input| then r == Reading(0, pos, true)
            else
              var a: int := input[pos] as int;
              if a < 0x80 then r == Reading(a, pos + 1, false)
              else if a == 0xFF then
                if pos + 5 > |input| then r == Reading(0, pos + 1, true)
                else
                  && r.next == pos + 5 && !r.underrun
                  && r.value == 0x100_0000 * input[pos + 1] as int + 0x1_0000 * input[pos + 2] as int
                                + 0x100 * input[pos + 3] as int + input[pos + 4] as int
              else if pos + 2 > |input| then r == Reading(0, pos + 1, true)
              else
                var v := 0x100 * (a - 0xC0) + input[pos + 1] as int;
                r == Reading(if v < 0 then v + 0x1_0000_0000 else v, pos + 2, false)
  {
    if pos + 1 < |input| && 0x80 <= input[pos] < 0xFF {
      TwoBytes(input[pos] as int - 0xC0, input[pos + 1] as int);
    }
  }

  lemma TwoBytes(high: int, low: int)
    requires -0x40 <= high < 0x3F && 0 <= low < 0x100
    ensures var v := 0x100 * high + low;
            U32(S16(high * 0x200 + low * 2) / 2) == if v < 0 then v + 0x1_0000_0000 else v
  {
    var v := 0x100 * high + low;
    assert S16(2 * v) == 2 * v;
  }

  /** The bytes after a token, as far as input and output have room for them. */
  ghost predicate CopiedFrom(input: seq<Byte>, s: St, n: nat, cap: nat, r: Progress) {
    if s.pos + n > |input| then r.err == -190 && r.dec.st.out == s.out
    else if |s.out| + n > cap then r.err == -191 && r.dec.st.out == s.out
    else r.err == 0 && r.dec.st.pos == s.pos + n && r.dec.st.out == s.out + input[s.pos..s.pos + n]
  }

  /** Tokens 00 to 0F: 1 to 16 bytes are copied. */
  lemma CopyToken(input: seq<Byte>, d: Decoder, token: nat, room: Limits)
    requires d.st.pos <= |input| && token <= 0x0F
    ensures var r := Token(input, d, token, room);
            r.dec.dict == d.dict && CopiedFrom(input, d.st, token + 1, room.output, r)
  {
    hide Extended, ReuseLiteral, RememberLiteral, BE16, CONSTANT_WORDS;
  }

  /** Tokens 10 to 1F: 1 to 16 bytes are remembered, if the table has room for them, and copied. */
  lemma RememberToken(input: seq<Byte>, d: Decoder, token: nat, room: Limits)
    requires d.st.pos <= |input| && 0x10 <= token <= 0x1F
    ensures var r, n := Token(input, d, token, room), token - 0x0F;
            if d.st.pos + n > |input| || Size(d.dict) + n > room.table then
              r.err == -190 && r.dec.dict == d.dict && r.dec.st.out == d.st.out
            else if |d.dict| + 1 >= room.entries then r.err == ENTRY_OVERRUN
            else
              && r.dec.dict == d.dict + [input[d.st.pos..d.st.pos + n]]
              && CopiedFrom(input, d.st, n, room.output, r)
  {
    hide Extended, ReuseLiteral, BE16, CONSTANT_WORDS, Size;
  }

  /** Tokens 20 to BF: a remembered literal once more, or none for 20; tokens C0 to CF are errors. */
  lemma ReuseToken(input: seq<Byte>, d: Decoder, token: nat, room: Limits)
    requires d.st.pos <= |input| && 0x20 <= token <= 0xCF
    ensures var r, index := Token(input, d, token, room), token - 0x20;
            && r.dec.dict == d.dict
            && if token >= 0xC0 then r.err == -186 && r.dec.st.out == d.st.out
               else if index > |d.dict| then r.err == -190 && r.dec.st.out == d.st.out
               else
                 var literal := if index == 0 then [] else d.dict[index - 1];
                 if |d.st.out| + |literal| > room.output then r.err == -191 && r.dec.st.out == d.st.out
                 else r.err == 0 && r.dec.st.pos == d.st.pos && r.dec.st.out == d.st.out + literal
  {
    hide Token, BE16, CONSTANT_WORDS;
    ShortToken(input, d, token, room);
  }

  // ---- Constant words ------------------------------------------------------------------------------

  /** The bytes of the tokens D0 to F8. */
  const CONSTANT_BYTES: seq<seq<Byte>> := [
    [0x00, 0x00], [0x00, 0x01], [0x00, 0x02], [0x00, 0x03], [0x2E, 0x01], [0x3E, 0x01], [0x01, 0x01], [0x1E, 0x01],
    [0xFF, 0xFF], [0x0E, 0x01], [0x31, 0x00], [0x11, 0x12], [0x01, 0x07], [0x33, 0x32], [0x12, 0x39], [0xED, 0x10],
    [0x01, 0x27], [0x23, 0x22], [0x01, 0x37], [0x07, 0x06], [0x01, 0x17], [0x01, 0x23], [0x00, 0xFF], [0x00, 0x2F],
    [0x07, 0x0E], [0xFD, 0x3C], [0x01, 0x35], [0x01, 0x15], [0x01, 0x02], [0x00, 0x07], [0x00, 0x3E], [0x05, 0xD5],
    [0x02, 0x01], [0x06, 0x07], [0x07, 0x08], [0x30, 0x01], [0x01, 0x33], [0x00, 0x10], [0x17, 0x16], [0x37, 0x3E],
    [0x36, 0x37]]

  lemma ConstantWord(k: nat)
    requires k < 41
    ensures |CONSTANT_WORDS| == 41 && |CONSTANT_BYTES| == 41
    ensures BE16(CONSTANT_WORDS[k]) == CONSTANT_BYTES[k]
  {
    hide BE16;
    WordOfBytes(CONSTANT_WORDS[k], CONSTANT_BYTES[k]);
  }

  lemma WordOfBytes(word: nat, bytes: seq<Byte>)
    requires |bytes| == 2
    ensures word == 0x100 * bytes[0] as int + bytes[1] as int ==> BE16(word) == bytes
  {
    var high: int, low: int := bytes[0] as int, bytes[1] as int;
    if word == 0x100 * high + low {
      U16Same(word);
      assert word / 0x100 == high && word % 0x100 == low;
    }
  }

  /** A token from D0 to F8 puts out its two bytes, and one from F9 to FD is an error. */
  lemma ConstantOutput(input: seq<Byte>, d: Decoder, token: nat, room: Limits)
    requires d.st.pos <= |input| && 0xD0 <= token <= 0xFD
    ensures |CONSTANT_BYTES| == 41
    ensures var r := Token(input, d, token, room);
            if token > 0xF8 then r.err == -186 && r.dec.st.out == d.st.out
            else if |d.st.out| + 2 > room.output then r.err == -191 && r.dec.st.out == d.st.out
            else
              && r.err == 0 && r.dec.st.pos == d.st.pos && r.dec.dict == d.dict
              && r.dec.st.out == d.st.out + CONSTANT_BYTES[token - 0xD0]
  {
    hide Token, CONSTANT_WORDS, CONSTANT_BYTES, BE16;
    ShortToken(input, d, token, room);
    ConstantWord(if token <= 0xF8 then token - 0xD0 else 0);
  }
}
