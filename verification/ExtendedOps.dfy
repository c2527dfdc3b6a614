/** The extended operations of the resource decompressors as functions of the input and the bytes written so far. */
module ExtendedOps {
  import opened Words
  import opened ByteTables
  import opened EncodedValue
  import opened VariableTable

  // The numbers of the operations are not in the repository's headers; these follow the order of the dispatch.
  const EXT_JUMP_TABLE: nat := 0
  const EXT_ENTRY_VECTOR: nat := 1
  const EXT_RUN_LENGTH_BYTE: nat := 2
  const EXT_RUN_LENGTH_WORD: nat := 3
  const EXT_DIFF_WORD: nat := 4
  const EXT_DIFF_ENC_WORD: nat := 5
  const EXT_DIFF_ENC_LONG: nat := 6

  /** Where a decoder stands: input position, bytes written, last error noted. */
  datatype St = St(pos: nat, out: seq<Byte>, last: int)

  /** A step that may stop the decoder. */
  datatype Outcome = Outcome(err: int, st: St)

  function Fail(s: St, err: int): Outcome {
    Outcome(err, s.(last := err))
  }

  /** Reading a value: running out of input is noted, but the decoder goes on with 0. */
  function Get(input: seq<Byte>, s: St): (St, nat)
    requires s.pos <= |input|
  {
    var r := Decode(input, s.pos);
    (s.(pos := r.next, last := if r.underrun then inputOutOfBounds else s.last), r.value)
  }

  function Emit(s: St, piece: seq<Byte>, cap: nat): Outcome {
    if |s.out| + |piece| > cap then Fail(s, outputOutOfBounds) else Outcome(0, s.(out := s.out + piece))
  }

  /** The same piece `left` times. */
  function Repeat(s: St, cap: nat, piece: seq<Byte>, left: nat): (r: Outcome)
    ensures r.err <= 0
    ensures r.st.pos == s.pos
    decreases left
  {
    if left == 0 then Outcome(0, s)
    else
      var e := Emit(s, piece, cap);
      if e.err != 0 then e else Repeat(e.st, cap, piece, left - 1)
  }

  /** How a difference operation stores its deltas and its values. */
  datatype DiffKind = ByteDelta | WordDelta | LongDelta

  function Stored(kind: DiffKind, value: int): seq<Byte> {
    if kind == LongDelta then BE32(value) else BE16(value)
  }

  /** The next delta: a signed byte, whose absence stops the decoder, or an encoded value. */
  function NextDelta(input: seq<Byte>, kind: DiffKind, s: St): (Outcome, int)
    requires s.pos <= |input|
  {
    if kind == ByteDelta then
      if s.pos == |input| then (Fail(s, inputOutOfBounds), 0)
      else (Outcome(0, s.(pos := s.pos + 1)), S8(input[s.pos]))
    else
      var (s', v) := Get(input, s);
      (Outcome(0, s'), S32(v))
  }

  /** `value`, then `left` more values, each given by its difference to the one before. */
  function Differences(input: seq<Byte>, kind: DiffKind, s: St, cap: nat, value: int, left: nat): (r: Outcome)
    requires s.pos <= |input|
    ensures r.err <= 0
    ensures s.pos <= r.st.pos <= |input|
    decreases left, 1
  {
    var e := Emit(s, Stored(kind, value), cap);
    if e.err != 0 then e else MoreDifferences(input, kind, e.st, cap, value, left)
  }

  /** The values after `value`. */
  function MoreDifferences(input: seq<Byte>, kind: DiffKind, s: St, cap: nat, value: int, left: nat): (r: Outcome)
    requires s.pos <= |input|
    ensures r.err <= 0
    ensures s.pos <= r.st.pos <= |input|
    decreases left, 0
  {
    if left == 0 then Outcome(0, s)
    else
      var (d, delta) := NextDelta(input, kind, s);
      if d.err != 0 then d else Differences(input, kind, d.st, cap, S32(value + delta), left - 1)
  }

  function JumpEntry(seg: nat): seq<Byte> {
    [0x3F, 0x3C] + BE16(seg) + [0xA9, 0xF0]
  }

  /** `left` jump table entries with an offset each, and one without. */
  function JumpTable(input: seq<Byte>, s: St, cap: nat, seg: nat, offset: nat, left: nat): (r: Outcome)
    requires s.pos <= |input|
    ensures r.err <= 0
    ensures s.pos <= r.st.pos <= |input|
    decreases left
  {
    if left == 0 then Emit(s, JumpEntry(seg), cap)
    else
      var (s', v) := Get(input, s);
      var off := U16(offset + S32(v) - 6);
      var e := Emit(s', JumpEntry(seg) + BE16(off), cap);
      if e.err != 0 then e else JumpTable(input, e.st, cap, seg, off, left - 1)
  }

  function VectorEntry(branch: int, offset: nat): seq<Byte> {
    [0x61, 0x00] + BE16(branch) + [0x4E, 0xED] + BE16(offset)
  }

  /** `left` entry vectors, the first with the given branch and offset, each branching 8 bytes less far. */
  function EntryVectors(input: seq<Byte>, s: St, cap: nat, branch: int, delta: int, offset: nat, left: nat)
    : (r: Outcome)
    requires s.pos <= |input|
    ensures r.err <= 0
    ensures s.pos <= r.st.pos <= |input|
    decreases left, 0
  {
    if left == 0 then Outcome(0, s)
    else
      var e := Emit(s, VectorEntry(branch, offset), cap);
      if e.err != 0 then e else MoreVectors(input, e.st, cap, branch, delta, offset, left - 1)
  }

  /** The entry vectors after one with the given branch and offset. */
  function MoreVectors(input: seq<Byte>, s: St, cap: nat, branch: int, delta: int, offset: nat, left: nat): (r: Outcome)
    requires s.pos <= |input|
    ensures r.err <= 0
    ensures s.pos <= r.st.pos <= |input|
    decreases left, 1
  {
    if left == 0 then Outcome(0, s)
    else
      var (s', v) := if delta != 0 then (s, offset + delta) else Get(input, s);
      EntryVectors(input, s', cap, S16(branch - 8), delta, U16(v), left)
  }

  /** DonnBits_HandleExtended. */
  function Extended(input: seq<Byte>, s: St, cap: nat): (r: Outcome)
    requires s.pos <= |input|
    ensures r.err <= 0
    ensures s.pos <= r.st.pos <= |input|
  {
    if s.pos == |input| then Fail(s, inputOutOfBounds)
    else
      var op := input[s.pos];
      var s1 := s.(pos := s.pos + 1);
      if op == EXT_JUMP_TABLE then
        var (s2, seg) := Get(input, s1);
        var (s3, n) := Get(input, s2);
        JumpTable(input, s3, cap, U16(seg), 6, n)
      else if op == EXT_ENTRY_VECTOR then
        var (s2, branch) := Get(input, s1);
        var (s3, delta) := Get(input, s2);
        var (s4, n) := Get(input, s3);
        var (s5, offset) := Get(input, s4);
        EntryVectors(input, s5, cap, S16(branch), S16(delta), U16(offset), n)
      else if op == EXT_RUN_LENGTH_BYTE || op == EXT_RUN_LENGTH_WORD then
        var (s2, value) := Get(input, s1);
        var (s3, n) := Get(input, s2);
        Repeat(s3, cap, if op == EXT_RUN_LENGTH_BYTE then [U8(value)] else BE16(value), n + 1)
      else if op == EXT_DIFF_WORD || op == EXT_DIFF_ENC_WORD || op == EXT_DIFF_ENC_LONG then
        var (s2, value) := Get(input, s1);
        var (s3, n) := Get(input, s2);
        Differences(input, DiffKindOf(op), s3, cap, S32(value), n)
      else Fail(s1, CantDecompress)
  }

  function DiffKindOf(op: nat): DiffKind {
    if op == EXT_DIFF_WORD then ByteDelta else if op == EXT_DIFF_ENC_WORD then WordDelta else LongDelta
  }
}
