/** The byte-wise decompressor (dcmp 1) as a function from compressed bytes to bytes and remembered literals. */
module Dcmp1 {
  import opened Words
  import opened ByteTables
  import opened VariableTable
  import opened ExtendedOps

  const HEADER_END: nat := 20               // the size field and the 16-byte header
  const DCMP1_DEFS_ENCODED: nat := 0x10
  const DCMP1_VARIABLE_REFS: nat := 0x20
  const DCMP1_CONSTANT_ITEMS: nat := 0xD0
  const EXTENDED_TOKEN: nat := 0xFE
  const TERMINATOR: nat := 0xFF
  const REUSE_LIMIT: nat := 160             // MAX_1BYTE_REUSE * 4

  const CONSTANT_WORDS: seq<nat> := [
    0x0000, 0x0001, 0x0002, 0x0003, 0x2E01, 0x3E01, 0x0101, 0x1E01,
    0xFFFF, 0x0E01, 0x3100, 0x1112, 0x0107, 0x3332, 0x1239, 0xED10,
    0x0127, 0x2322, 0x0137, 0x0706, 0x0117, 0x0123, 0x00FF, 0x002F,
    0x070E, 0xFD3C, 0x0135, 0x0115, 0x0102, 0x0007, 0x003E, 0x05D5,
    0x0201, 0x0607, 0x0708, 0x3001, 0x0133, 0x0010, 0x1716, 0x373E,
    0x3637]

  /** Not an error of the source: here it would store an entry past the end of the entry table, unchecked. */
  const ENTRY_OVERRUN: int := 1

  /** The room there is: output bytes, table bytes and table entries, the first of which is in use from the start. */
  datatype Limits = Limits(output: nat, table: nat, entries: nat)

  /** A decoder: its position, output and last error, and the literals it has remembered. */
  datatype Decoder = Decoder(st: St, dict: seq<seq<Byte>>)

  datatype Progress = Progress(err: int, dec: Decoder)

  function Stop(d: Decoder, err: int): Progress {
    Progress(err, d.(st := d.st.(last := err)))
  }

  function Wrote(e: Outcome, dict: seq<seq<Byte>>): Progress {
    Progress(e.err, Decoder(e.st, dict))
  }

  /** DonnBits_CopyLiteral. */
  function CopyLiteral(input: seq<Byte>, s: St, length: nat, cap: nat): (r: Outcome)
    ensures s.pos <= |input| ==> s.pos <= r.st.pos <= |input|
  {
    if s.pos + length > |input| then Fail(s, inputOutOfBounds)
    else if |s.out| + length > cap then Fail(s, outputOutOfBounds)
    else Outcome(0, St(s.pos + length, s.out + input[s.pos..s.pos + length], s.last))
  }

  /** DonnBits_RememberLiteral: the literal enters the table before it is known whether the output has room. */
  function RememberLiteral(input: seq<Byte>, d: Decoder, length: nat, room: Limits): (r: Progress)
    ensures d.st.pos <= |input| ==> d.st.pos <= r.dec.st.pos <= |input|
  {
    if d.st.pos + length > |input| then Stop(d, inputOutOfBounds)
    else if Size(d.dict) + length > room.table then Stop(d, inputOutOfBounds)
    else if |d.dict| + 1 >= room.entries then Progress(ENTRY_OVERRUN, d)
    else Wrote(CopyLiteral(input, d.st, length, room.output), d.dict + [input[d.st.pos..d.st.pos + length]])
  }

  /** DonnBits_ReuseLiteral: index 0 stands for the empty literal. */
  function ReuseLiteral(d: Decoder, index: nat, room: Limits): (r: Progress)
    ensures r.dec.st.pos == d.st.pos
  {
    if index > |d.dict| then Stop(d, inputOutOfBounds)
    else Wrote(Emit(d.st, if index == 0 then [] else d.dict[index - 1], room.output), d.dict)
  }

  /** What one token does, the terminator excepted. */
  function Token(input: seq<Byte>, d: Decoder, token: nat, room: Limits): (r: Progress)
    requires d.st.pos <= |input| && token < TERMINATOR
    ensures d.st.pos <= r.dec.st.pos <= |input|
  {
    if token == EXTENDED_TOKEN then Wrote(Extended(input, d.st, room.output), d.dict)
    else if token >= DCMP1_CONSTANT_ITEMS then
      var k := token - DCMP1_CONSTANT_ITEMS;
      if k < |CONSTANT_WORDS| then Wrote(Emit(d.st, BE16(CONSTANT_WORDS[k]), room.output), d.dict)
      else Stop(d, CantDecompress)
    else if token >= DCMP1_VARIABLE_REFS then
      var index := token - DCMP1_VARIABLE_REFS;
      if index < REUSE_LIMIT then ReuseLiteral(d, index, room) else Stop(d, CantDecompress)
    else if token >= DCMP1_DEFS_ENCODED then RememberLiteral(input, d, token % 0x10 + 1, room)
    else Wrote(CopyLiteral(input, d.st, token % 0x10 + 1, room.output), d.dict)
  }

  /** The tokens for constant words and for references. */
  lemma ShortToken(input: seq<Byte>, d: Decoder, token: nat, room: Limits)
    requires d.st.pos <= |input| && DCMP1_VARIABLE_REFS <= token < EXTENDED_TOKEN
    ensures var k, index := token - DCMP1_CONSTANT_ITEMS, token - DCMP1_VARIABLE_REFS;
            Token(input, d, token, room)
            == if 0 <= k < |CONSTANT_WORDS| then Wrote(Emit(d.st, BE16(CONSTANT_WORDS[k]), room.output), d.dict)
               else if k < 0 && index < REUSE_LIMIT then ReuseLiteral(d, index, room)
               else Stop(d, CantDecompress)
  {
    hide Emit, Extended, CopyLiteral, RememberLiteral, ReuseLiteral, BE16;
  }

  /** The main loop: tokens from left to right until the input, the output or the stream ends. */
  function Run(input: seq<Byte>, d: Decoder, room: Limits): (r: Progress)
    requires d.st.pos <= |input|
    decreases |input| - d.st.pos
  {
    if d.st.pos == |input| || |d.st.out| >= room.output then Progress(0, d)
    else
      var token := input[d.st.pos];
      var d1 := d.(st := d.st.(pos := d.st.pos + 1));
      if token == TERMINATOR then Progress(0, d1)
      else
        var p := Token(input, d1, token, room);
        if p.err != 0 then p else Run(input, p.dec, room)
  }
}
