/**
 * The accesses the resource decompressors do not check: exactly when a stream makes them, which inputs never do,
 * and an input that does for each.
 */
module Overruns {
  import opened Words
  import opened Wrappers
  import opened ByteTables
  import opened VariableTable
  import opened ExtendedOps
  import opened Dcmp1
  import opened Greggy

  // ---- The entry table of the byte-wise decompressor --------------------------------------------

  /** One token adds at most one entry, and then moves the input by at least one byte more. */
  lemma TokenGrows(input: seq<Byte>, d: Decoder, token: nat, room: Limits)
    requires d.st.pos <= |input| && token < TERMINATOR
    ensures var r := Token(input, d, token, room);
            && |d.dict| <= |r.dec.dict| <= |d.dict| + 1
            && (r.err == 0 && |r.dec.dict| > |d.dict| ==> r.dec.st.pos > d.st.pos)
            && (r.err == ENTRY_OVERRUN ==> d.st.pos < |input| && |d.dict| + 1 >= room.entries)
  {
    hide Extended, BE16, CONSTANT_WORDS;
  }

  /** The dictionary only grows. */
  lemma {:induction false} RunGrows(input: seq<Byte>, d: Decoder, room: Limits)
    requires d.st.pos <= |input|
    ensures |d.dict| <= |Run(input, d, room).dec.dict|
    decreases |input| - d.st.pos
  {
    hide Token;
    if d.st.pos < |input| && |d.st.out| < room.output && input[d.st.pos] != TERMINATOR {
      var d1 := d.(st := d.st.(pos := d.st.pos + 1));
      var p := Token(input, d1, input[d.st.pos], room);
      TokenGrows(input, d1, input[d.st.pos], room);
      if p.err == 0 {
        RunGrows(input, p.dec, room);
      }
    }
  }

  /** With an entry for every two bytes of input that are left, the table is never too small. */
  lemma {:induction false} NoEntryOverrun(input: seq<Byte>, d: Decoder, room: Limits)
    requires d.st.pos <= |input| && |d.dict| + 1 + (|input| - d.st.pos) / 2 <= room.entries
    ensures Run(input, d, room).err != ENTRY_OVERRUN
    decreases |input| - d.st.pos
  {
    hide Token;
    if d.st.pos < |input| && |d.st.out| < room.output && input[d.st.pos] != TERMINATOR {
      var d1 := d.(st := d.st.(pos := d.st.pos + 1));
      var p := Token(input, d1, input[d.st.pos], room);
      TokenGrows(input, d1, input[d.st.pos], room);
      if p.err == 0 {
        NoEntryOverrun(input, p.dec, room);
      }
    }
  }

  /** What a larger entry table changes about one token. */
  lemma TokenWithMore(input: seq<Byte>, d: Decoder, token: nat, room: Limits, more: nat)
    requires d.st.pos <= |input| && token < TERMINATOR && |d.dict| < room.entries <= more
    requires Token(input, d, token, room.(entries := more)).err != ENTRY_OVERRUN
    ensures var r, big := Token(input, d, token, room), Token(input, d, token, room.(entries := more));
            if |big.dec.dict| < room.entries then r == big else r.err == ENTRY_OVERRUN
  {
    hide Extended, BE16, CONSTANT_WORDS, CopyLiteral;
  }

  lemma {:induction false} RunWithMore(input: seq<Byte>, d: Decoder, room: Limits, more: nat)
    requires d.st.pos <= |input| && |d.dict| < room.entries <= more
    requires Run(input, d, room.(entries := more)).err != ENTRY_OVERRUN
    ensures var r, big := Run(input, d, room), Run(input, d, room.(entries := more));
            if |big.dec.dict| < room.entries then r == big else r.err == ENTRY_OVERRUN
    decreases |input| - d.st.pos
  {
    hide Token;
    if d.st.pos < |input| && |d.st.out| < room.output && input[d.st.pos] != TERMINATOR {
      var d1 := d.(st := d.st.(pos := d.st.pos + 1));
      var ample := room.(entries := more);
      var big := Token(input, d1, input[d.st.pos], ample);
      TokenWithMore(input, d1, input[d.st.pos], room, more);
      if big.err == 0 {
        RunGrows(input, big.dec, ample);
        if |big.dec.dict| < room.entries {
          RunWithMore(input, big.dec, room, more);
        }
      }
    }
  }

  /** A table with an entry for every two bytes of input, if it was smaller. */
  function Ample(input: seq<Byte>, d: Decoder, room: Limits): Limits
    requires d.st.pos <= |input|
  {
    var enough := |d.dict| + 1 + (|input| - d.st.pos) / 2;
    room.(entries := if room.entries < enough then enough else room.entries)
  }

  /**
   * The decoder stores an entry past the end of the table exactly if the stream, decoded with a table that is
   * never too small, remembers as many literals as the table has entries (the first of which is not a literal's).
   * Otherwise the size of the table makes no difference.
   */
  lemma EntryOverrunExactly(input: seq<Byte>, d: Decoder, room: Limits)
    requires d.st.pos <= |input| && |d.dict| < room.entries
    ensures var r, ample := Run(input, d, room), Run(input, d, Ample(input, d, room));
            && ample.err != ENTRY_OVERRUN
            && (r.err == ENTRY_OVERRUN <==> |ample.dec.dict| >= room.entries)
            && (r.err != ENTRY_OVERRUN ==> r == ample)
  {
    hide Run;
    NoEntryOverrun(input, d, Ample(input, d, room));
    RunWithMore(input, d, room, Ample(input, d, room).entries);
  }

  /** A stream that remembers one byte, when the table has its first entry only. */
  lemma EntryOverrunExample(header: seq<Byte>)
    requires |header| == HEADER_END
    ensures Run(header + [DCMP1_DEFS_ENCODED, 7], Decoder(St(HEADER_END, [], 0), []), Limits(1, 2, 1)).err
         == ENTRY_OVERRUN
  {
    var input := header + [DCMP1_DEFS_ENCODED, 7];
    assert input[HEADER_END] == DCMP1_DEFS_ENCODED;
    assert Size([]) == 0;
    assert Token(input, Decoder(St(HEADER_END + 1, [], 0), []), DCMP1_DEFS_ENCODED, Limits(1, 2, 1)).err
        == ENTRY_OVERRUN;
  }

  // ---- The shift and the length byte of the bitmap decompressor -----------------------------------

  /** Within the 32 flags of a run no shift is bad. */
  lemma {:induction false} RunInRange(input: seq<Byte>, s: St, table: seq<nat>, flags: nat, bit: nat, count: nat,
                                      cap: nat)
    requires s.pos <= |input| && |table| == 256 && count <= RUN_WORDS
    ensures RunFrom(input, s, table, flags, bit, count, cap).err <= 0
    decreases count - bit
  {
    hide Flag, BE16;
    if bit < count {
      var e := OneWord(input, s, table, Flag(flags, bit), cap);
      if e.err == 0 {
        RunInRange(input, e.st, table, flags, bit + 1, count, cap);
      }
    }
  }

  /** A run of more words than flags: its first 32 words, and then the bad shift. */
  lemma {:induction false} RunPastFlags(input: seq<Byte>, s: St, table: seq<nat>, flags: nat, bit: nat, count: nat,
                                        cap: nat)
    requires s.pos <= |input| && |table| == 256 && bit <= RUN_WORDS < count
    ensures var first := RunFrom(input, s, table, flags, bit, RUN_WORDS, cap);
            RunFrom(input, s, table, flags, bit, count, cap)
            == if first.err == 0 then Outcome(BAD_SHIFT, first.st) else first
    decreases RUN_WORDS - bit
  {
    hide Flag, OneWord;
    if bit < RUN_WORDS {
      var e := OneWord(input, s, table, Flag(flags, bit), cap);
      if e.err == 0 {
        RunPastFlags(input, e.st, table, flags, bit + 1, count, cap);
      }
    }
  }

  lemma {:induction false} RunsInRange(input: seq<Byte>, s: St, table: seq<nat>, left: nat, last: nat, cap: nat)
    requires s.pos <= |input| && |table| == 256 && last <= RUN_WORDS
    ensures Runs(input, s, table, left, last, cap).err <= 0
    decreases left
  {
    hide RunFrom, Read32;
    if left > 0 && s.pos + 4 <= |input| {
      var count := if left == 1 && last > 0 then last else RUN_WORDS;
      RunInRange(input, s.(pos := s.pos + 4), table, Read32(input, s.pos), 0, count, cap);
      var e := RunFrom(input, s.(pos := s.pos + 4), table, Read32(input, s.pos), 0, count, cap);
      if e.err == 0 {
        RunsInRange(input, e.st, table, left - 1, last, cap);
      }
    }
  }

  lemma {:induction false} RunsPastFlags(input: seq<Byte>, s: St, table: seq<nat>, left: nat, last: nat, cap: nat)
    requires s.pos <= |input| && |table| == 256 && left > 0 && last > RUN_WORDS
    ensures var whole := Runs(input, s, table, left, RUN_WORDS, cap);
            Runs(input, s, table, left, last, cap)
            == if whole.err == 0 then Outcome(BAD_SHIFT, whole.st) else whole
    decreases left
  {
    hide RunFrom, Read32;
    if s.pos + 4 <= |input| {
      var s4, flags := s.(pos := s.pos + 4), Read32(input, s.pos);
      if left == 1 {
        RunPastFlags(input, s4, table, flags, 0, last, cap);
      } else {
        var e := RunFrom(input, s4, table, flags, 0, RUN_WORDS, cap);
        if e.err == 0 {
          RunsPastFlags(input, e.st, table, left - 1, last, cap);
        }
      }
    }
  }

  /**
   * A read past the end of the input is made exactly if the input ends after the number of runs; a bad shift
   * exactly if the last run claims more than 32 words and the stream decodes with 32 instead.
   */
  lemma BitmapOverruns(input: seq<Byte>, s: St, table: seq<nat>, cap: nat)
    requires s.pos <= |input| && |table| == 256
    ensures var r := Bitmapped(input, s, table, cap);
            && (r.err == INPUT_OVERRUN <==> s.pos + 1 == |input|)
            && (r.err == BAD_SHIFT <==>
                  && s.pos + 1 < |input| && input[s.pos] > 0 && input[s.pos + 1] > RUN_WORDS
                  && Runs(input, s.(pos := s.pos + 2), table, input[s.pos], RUN_WORDS, cap).err == 0)
  {
    hide Runs;
    if s.pos + 1 < |input| {
      var s2, left, last := s.(pos := s.pos + 2), input[s.pos], input[s.pos + 1];
      RunsInRange(input, s2, table, left, RUN_WORDS, cap);
      if last <= RUN_WORDS {
        RunsInRange(input, s2, table, left, last, cap);
      } else if left > 0 {
        RunsPastFlags(input, s2, table, left, last, cap);
      } else {
        NoRuns(input, s2, table, last, cap);
      }
    }
  }

  lemma NoRuns(input: seq<Byte>, s: St, table: seq<nat>, last: nat, cap: nat)
    requires s.pos <= |input| && |table| == 256
    ensures Runs(input, s, table, 0, last, cap).err == 0
  {
  }

  /** The code of 32 words with 33 for the length of its only run; and an input that ends after the run count. */
  lemma BitmapOverrunExamples(table: seq<nat>, words: seq<nat>)
    requires ByteTable(table) && |words| == RUN_WORDS && forall k :: 0 <= k < |words| ==> words[k] < TWO_16
    ensures Bitmapped([1, 33] + RunCodes(words, table), St(0, [], 0), table, 64).err == BAD_SHIFT
    ensures Bitmapped([1], St(0, [], 0), table, 64).err == INPUT_OVERRUN
  {
    hide RunCodes, Runs, WordBytes, Bitmapped;
    var input := [1, 33] + RunCodes(words, table);
    var s := St(2, [], 0);
    assert input[2..2 + |RunCodes(words, table)|] == RunCodes(words, table);
    RunsBack(input, s, table, words, RUN_WORDS, 64);
    BitmapOverruns(input, St(0, [], 0), table, 64);
    BitmapOverruns([1], St(0, [], 0), table, 64);
  }
}
