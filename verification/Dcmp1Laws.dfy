/** What the byte-wise decompressor promises: every chunking of a byte string is undone, references included. */
module Dcmp1Laws {
  import opened Words
  import opened Wrappers
  import opened ByteTables
  import opened VariableTable
  import opened ExtendedOps
  import opened ExtendedLaws
  import opened Dcmp1

  /** The pieces a compressed stream is made of. */
  datatype Chunk =
    | Literal(bytes: seq<Byte>)
    | Remember(bytes: seq<Byte>)
    | Reference(index: nat)
    | Word(k: nat)
    | Values(kind: DiffKind, values: seq<nat>)

  ghost function ChunkCode(c: Chunk): (s: seq<Byte>)
    requires WellFormed(c)
    ensures |s| >= 1 && s[0] != TERMINATOR
  {
    match c
    case Literal(bytes) => [|bytes| - 1] + bytes
    case Remember(bytes) => [DCMP1_DEFS_ENCODED + |bytes| - 1] + bytes
    case Reference(index) => [DCMP1_VARIABLE_REFS + index]
    case Word(k) => [DCMP1_CONSTANT_ITEMS + k]
    case Values(kind, values) => [EXTENDED_TOKEN] + DiffCode(kind, values)
  }

  ghost predicate WellFormed(c: Chunk) {
    match c
    case Literal(bytes) => 1 <= |bytes| <= 16
    case Remember(bytes) => 1 <= |bytes| <= 16
    case Reference(index) => index < REUSE_LIMIT
    case Word(k) => k < |CONSTANT_WORDS|
    case Values(kind, values) => 0 < |values| < TWO_32 && AllStorable(kind, values)
  }

  /** The compressed stream: the chunks and a terminator. */
  ghost function StreamCode(chunks: seq<Chunk>): (s: seq<Byte>)
    ensures |s| >= 1
  {
    if chunks == [] then [TERMINATOR]
    else (if WellFormed(chunks[0]) then ChunkCode(chunks[0]) else []) + StreamCode(chunks[1..])
  }

  /** What a chunk stands for, given what has been remembered. */
  function ChunkMeaning(c: Chunk, dict: seq<seq<Byte>>): seq<Byte> {
    match c
    case Literal(bytes) => bytes
    case Remember(bytes) => bytes
    case Reference(index) => if 0 < index <= |dict| then dict[index - 1] else []
    case Word(k) => if k < |CONSTANT_WORDS| then BE16(CONSTANT_WORDS[k]) else []
    case Values(kind, values) => ValueBytes(kind, values)
  }

  function DictAfter(c: Chunk, dict: seq<seq<Byte>>): seq<seq<Byte>> {
    if c.Remember? then dict + [c.bytes] else dict
  }

  function Meaning(chunks: seq<Chunk>, dict: seq<seq<Byte>>): seq<Byte> {
    if chunks == [] then []
    else ChunkMeaning(chunks[0], dict) + Meaning(chunks[1..], DictAfter(chunks[0], dict))
  }

  function DictAfterAll(chunks: seq<Chunk>, dict: seq<seq<Byte>>): seq<seq<Byte>> {
    if chunks == [] then dict else DictAfterAll(chunks[1..], DictAfter(chunks[0], dict))
  }

  /** A reference points to something remembered before, and what is remembered fits the table. */
  ghost predicate ChunkFits(c: Chunk, dict: seq<seq<Byte>>, room: Limits) {
    && WellFormed(c)
    && (c.Reference? ==> c.index <= |dict|)
    && (c.Remember? ==> Size(dict) + |c.bytes| <= room.table && |dict| + 1 < room.entries)
  }

  ghost predicate Sound(chunks: seq<Chunk>, dict: seq<seq<Byte>>, room: Limits) {
    chunks == [] || (ChunkFits(chunks[0], dict, room) && Sound(chunks[1..], DictAfter(chunks[0], dict), room))
  }

  /** Copying the bytes that follow a token. */
  lemma CopyBack(input: seq<Byte>, s: St, bytes: seq<Byte>, cap: nat)
    requires Follows(input, s.pos, bytes) && |s.out| + |bytes| <= cap
    ensures CopyLiteral(input, s, |bytes|, cap) == Outcome(0, St(s.pos + |bytes|, s.out + bytes, s.last))
    ensures s.pos + |bytes| <= |input| && input[s.pos..s.pos + |bytes|] == bytes
  {
  }

  /** The token of a chunk does what the chunk stands for. */
  ghost predicate Undone(input: seq<Byte>, d: Decoder, c: Chunk, room: Limits)
    requires WellFormed(c) && d.st.pos < |input|
  {
    Token(input, d.(st := d.st.(pos := d.st.pos + 1)), ChunkCode(c)[0], room)
    == Progress(0, Decoder(St(d.st.pos + |ChunkCode(c)|, d.st.out + ChunkMeaning(c, d.dict), d.st.last),
                           DictAfter(c, d.dict)))
  }

  /** The code of a chunk stands in the input where the decoder is, and there is room for what it stands for. */
  ghost predicate Next(input: seq<Byte>, d: Decoder, c: Chunk, room: Limits) {
    && ChunkFits(c, d.dict, room)
    && d.st.pos < |input| && Follows(input, d.st.pos, ChunkCode(c))
    && |d.st.out| + |ChunkMeaning(c, d.dict)| <= room.output
  }

  /** What `Next` and `Undone` come to for a literal whose code is the token `t` and the bytes. */
  lemma BytesBack(input: seq<Byte>, d: Decoder, bytes: seq<Byte>, t: Byte, room: Limits)
    requires d.st.pos < |input| && Follows(input, d.st.pos, [t] + bytes)
    requires |d.st.out| + |bytes| <= room.output
    ensures var st := d.st.(pos := d.st.pos + 1);
            && CopyLiteral(input, st, |bytes|, room.output)
            == Outcome(0, St(d.st.pos + |[t] + bytes|, d.st.out + bytes, d.st.last))
            && st.pos + |bytes| <= |input| && input[st.pos..st.pos + |bytes|] == bytes
  {
    hide CopyLiteral, Follows;
    FollowsSplit(input, d.st.pos, [t], bytes);
    CopyBack(input, d.st.(pos := d.st.pos + 1), bytes, room.output);
  }

  lemma LiteralBack(input: seq<Byte>, d: Decoder, c: Chunk, room: Limits)
    requires Next(input, d, c, room) && c.Literal?
    ensures Undone(input, d, c, room)
  {
    hide Size, CopyLiteral, Follows, Token, AllStorable;
    BytesBack(input, d, c.bytes, |c.bytes| - 1, room);
    BytesTokens(input, d.(st := d.st.(pos := d.st.pos + 1)), |c.bytes|, room);
  }

  lemma RememberBack(input: seq<Byte>, d: Decoder, c: Chunk, room: Limits)
    requires Next(input, d, c, room) && c.Remember?
    ensures Undone(input, d, c, room)
  {
    hide Size, CopyLiteral, Follows, Token, AllStorable;
    BytesBack(input, d, c.bytes, DCMP1_DEFS_ENCODED + |c.bytes| - 1, room);
    BytesTokens(input, d.(st := d.st.(pos := d.st.pos + 1)), |c.bytes|, room);
  }

  /** The two kinds of tokens with a length in their low four bits. */
  lemma BytesTokens(input: seq<Byte>, d: Decoder, length: nat, room: Limits)
    requires d.st.pos <= |input| && 1 <= length <= 16
    ensures Token(input, d, length - 1, room) == Wrote(CopyLiteral(input, d.st, length, room.output), d.dict)
    ensures Token(input, d, DCMP1_DEFS_ENCODED + length - 1, room) == RememberLiteral(input, d, length, room)
  {
    hide CopyLiteral, RememberLiteral, ReuseLiteral, Extended, BE16, CONSTANT_WORDS;
  }

  lemma ValuesBack(input: seq<Byte>, d: Decoder, c: Chunk, room: Limits)
    requires Next(input, d, c, room) && c.Values?
    ensures Undone(input, d, c, room)
  {
    hide ValueBytes, DiffCode, Extended, CopyLiteral, Follows, CONSTANT_WORDS;
    FollowsSplit(input, d.st.pos, [EXTENDED_TOKEN], DiffCode(c.kind, c.values));
    DiffBack(input, c.kind, d.st.(pos := d.st.pos + 1), room.output, c.values);
  }

  /** One token undoes the code of one chunk. */
  lemma ChunkBack(input: seq<Byte>, d: Decoder, c: Chunk, room: Limits)
    requires Next(input, d, c, room)
    ensures Undone(input, d, c, room)
  {
    match c
    case Literal(_) => LiteralBack(input, d, c, room);
    case Remember(_) => RememberBack(input, d, c, room);
    case Values(_, _) => ValuesBack(input, d, c, room);
    case Reference(_) => ShortBack(input, d, c, room);
    case Word(_) => ShortBack(input, d, c, room);
  }

  lemma ShortBack(input: seq<Byte>, d: Decoder, c: Chunk, room: Limits)
    requires Next(input, d, c, room) && (c.Reference? || c.Word?)
    ensures Undone(input, d, c, room)
  {
    hide Size, CopyLiteral, Follows, Extended, BE16;
  }

  /**
   * Decoding the code of a chunk list gives what the list stands for, when the output has room. (With the
   * output full the decoder stops early; what is left then stands for nothing.)
   */
  lemma {:induction false} StreamBack(input: seq<Byte>, d: Decoder, chunks: seq<Chunk>, room: Limits)
    requires Sound(chunks, d.dict, room)
    requires d.st.pos <= |input| && Follows(input, d.st.pos, StreamCode(chunks))
    requires |d.st.out| + |Meaning(chunks, d.dict)| <= room.output
    ensures var r := Run(input, d, room);
            r.err == 0 && r.dec.st.out == d.st.out + Meaning(chunks, d.dict) && r.dec.st.last == d.st.last
    decreases |chunks|
  {
    hide Token, ChunkCode, ChunkMeaning, WellFormed, Size, Follows, Run;
    RunEnds(input, d, room);
    if |d.st.out| < room.output {
      FollowsFirst(input, d.st.pos, StreamCode(chunks));
      if chunks != [] {
        var c := chunks[0];
        FollowsSplit(input, d.st.pos, ChunkCode(c), StreamCode(chunks[1..]));
        ChunkBack(input, d, c, room);
        var next := Decoder(St(d.st.pos + |ChunkCode(c)|, d.st.out + ChunkMeaning(c, d.dict), d.st.last),
                            DictAfter(c, d.dict));
        RunGoesOn(input, d, room, next);
        StreamBack(input, next, chunks[1..], room);
        assert next.st.out + Meaning(chunks[1..], next.dict) == d.st.out + Meaning(chunks, d.dict);
      }
    }
  }

  lemma RunEnds(input: seq<Byte>, d: Decoder, room: Limits)
    requires d.st.pos <= |input|
    ensures |d.st.out| >= room.output ==> Run(input, d, room) == Progress(0, d)
    ensures d.st.pos < |input| && |d.st.out| < room.output && input[d.st.pos] == TERMINATOR ==>
              Run(input, d, room) == Progress(0, d.(st := d.st.(pos := d.st.pos + 1)))
  {
    hide Token;
  }

  lemma RunGoesOn(input: seq<Byte>, d: Decoder, room: Limits, next: Decoder)
    requires d.st.pos < |input| && |d.st.out| < room.output && input[d.st.pos] != TERMINATOR
    requires Token(input, d.(st := d.st.(pos := d.st.pos + 1)), input[d.st.pos], room) == Progress(0, next)
    ensures next.st.pos <= |input| && Run(input, d, room) == Run(input, next, room)
  {
    hide Token;
  }

  lemma {:induction false} MeaningAppend(a: seq<Chunk>, b: seq<Chunk>, dict: seq<seq<Byte>>, room: Limits)
    ensures Meaning(a + b, dict) == Meaning(a, dict) + Meaning(b, DictAfterAll(a, dict))
    ensures Sound(a + b, dict, room) <==> Sound(a, dict, room) && Sound(b, DictAfterAll(a, dict), room)
    decreases |a|
  {
    hide ChunkMeaning, ChunkFits, DictAfter;
    if a == [] {
      assert a + b == b;
    } else {
      assert (a + b)[1..] == a[1..] + b;
      MeaningAppend(a[1..], b, DictAfter(a[0], dict), room);
    }
  }

  /** A literal may be replaced by a reference to an equal remembered one. */
  lemma ReferenceForLiteral(before: seq<Chunk>, bytes: seq<Byte>, k: nat, after: seq<Chunk>,
                            dict: seq<seq<Byte>>, room: Limits)
    requires Sound(before + ([Literal(bytes)] + after), dict, room)
    requires var known := DictAfterAll(before, dict); 0 < k <= |known| && k < REUSE_LIMIT && known[k - 1] == bytes
    ensures Sound(before + ([Reference(k)] + after), dict, room)
    ensures Meaning(before + ([Reference(k)] + after), dict) == Meaning(before + ([Literal(bytes)] + after), dict)
  {
    var known := DictAfterAll(before, dict);
    MeaningAppend(before, [Literal(bytes)] + after, dict, room);
    MeaningAppend(before, [Reference(k)] + after, dict, room);
    assert ([Literal(bytes)] + after)[1..] == after && ([Reference(k)] + after)[1..] == after;
  }

  /** The decoder gives the same output for both. */
  lemma SameOutput(header: seq<Byte>, before: seq<Chunk>, bytes: seq<Byte>, k: nat, after: seq<Chunk>, room: Limits)
    requires |header| == HEADER_END
    requires Sound(before + ([Literal(bytes)] + after), [], room)
    requires var known := DictAfterAll(before, []); 0 < k <= |known| && k < REUSE_LIMIT && known[k - 1] == bytes
    requires |Meaning(before + ([Literal(bytes)] + after), [])| <= room.output
    ensures var plain := Decoded(header, before + ([Literal(bytes)] + after), room);
            var shared := Decoded(header, before + ([Reference(k)] + after), room);
            plain.err == 0 && shared.err == 0 && plain.dec.st.out == shared.dec.st.out
  {
    ReferenceForLiteral(before, bytes, k, after, [], room);
    DecodedBack(header, before + ([Literal(bytes)] + after), room);
    DecodedBack(header, before + ([Reference(k)] + after), room);
  }

  /** A whole resource through the decoder. */
  ghost function Decoded(header: seq<Byte>, chunks: seq<Chunk>, room: Limits): Progress
    requires |header| == HEADER_END
  {
    Run(header + StreamCode(chunks), Decoder(St(HEADER_END, [], 0), []), room)
  }

  lemma DecodedBack(header: seq<Byte>, chunks: seq<Chunk>, room: Limits)
    requires |header| == HEADER_END && Sound(chunks, [], room) && |Meaning(chunks, [])| <= room.output
    ensures Decoded(header, chunks, room).err == 0
    ensures Decoded(header, chunks, room).dec.st.out == Meaning(chunks, [])
  {
    hide Run, StreamCode, Meaning, Sound;
    var input, code := header + StreamCode(chunks), StreamCode(chunks);
    assert input[HEADER_END..HEADER_END + |code|] == code;
    StreamBack(input, Decoder(St(HEADER_END, [], 0), []), chunks, room);
  }

  // ---- A compressor -------------------------------------------------------------------------

  function Join(pieces: seq<seq<Byte>>): seq<Byte> {
    if pieces == [] then [] else pieces[0] + Join(pieces[1..])
  }

  /** A reference if there is one to make, else a remembered literal if there is room, else a literal. */
  function Choose(piece: seq<Byte>, dict: seq<seq<Byte>>, room: Limits): Chunk {
    var k := IndexOf(piece, dict);
    if k < |dict| && k + 1 < REUSE_LIMIT then Reference(k + 1)
    else if Size(dict) + |piece| <= room.table && |dict| + 1 < room.entries then Remember(piece)
    else Literal(piece)
  }

  function Compress(pieces: seq<seq<Byte>>, dict: seq<seq<Byte>>, room: Limits): seq<Chunk> {
    if pieces == [] then []
    else
      var c := Choose(pieces[0], dict, room);
      [c] + Compress(pieces[1..], DictAfter(c, dict), room)
  }

  lemma {:induction false} CompressMeans(pieces: seq<seq<Byte>>, dict: seq<seq<Byte>>, room: Limits)
    requires forall k :: 0 <= k < |pieces| ==> 1 <= |pieces[k]| <= 16
    ensures Sound(Compress(pieces, dict, room), dict, room)
    ensures Meaning(Compress(pieces, dict, room), dict) == Join(pieces)
    decreases |pieces|
  {
    hide IndexOf, Size;
    if pieces != [] {
      var c := Choose(pieces[0], dict, room);
      CompressMeans(pieces[1..], DictAfter(c, dict), room);
      assert Compress(pieces, dict, room)[1..] == Compress(pieces[1..], DictAfter(c, dict), room);
    }
  }

  /** Compressing a byte string, however it is cut, and decompressing it gives the string back. */
  lemma CompressedBack(header: seq<Byte>, pieces: seq<seq<Byte>>, room: Limits)
    requires |header| == HEADER_END && forall k :: 0 <= k < |pieces| ==> 1 <= |pieces[k]| <= 16
    requires |Join(pieces)| <= room.output
    ensures Decoded(header, Compress(pieces, [], room), room).err == 0
    ensures Decoded(header, Compress(pieces, [], room), room).dec.st.out == Join(pieces)
  {
    CompressMeans(pieces, [], room);
    DecodedBack(header, Compress(pieces, [], room), room);
  }
}
