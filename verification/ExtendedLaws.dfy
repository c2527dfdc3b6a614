/** Encoders for the extended operations, each undone by its operation. */
module ExtendedLaws {
  import opened Words
  import opened ByteTables
  import opened EncodedValue
  import opened VariableTable
  import opened ExtendedOps

  /** The code stands in the input at `pos`. */
  ghost predicate Follows(input: seq<Byte>, pos: nat, code: seq<Byte>) {
    pos + |code| <= |input| && input[pos..pos + |code|] == code
  }

  lemma FollowsSplit(input: seq<Byte>, pos: nat, a: seq<Byte>, b: seq<Byte>)
    requires Follows(input, pos, a + b)
    ensures Follows(input, pos, a) && Follows(input, pos + |a|, b)
  {
    assert input[pos..pos + |a|] == input[pos..pos + |a + b|][..|a|] == a;
    assert input[pos + |a|..pos + |a + b|] == input[pos..pos + |a + b|][|a|..] == b;
  }

  lemma FollowsFirst(input: seq<Byte>, pos: nat, code: seq<Byte>)
    requires Follows(input, pos, code) && code != []
    ensures pos < |input| && input[pos] == code[0]
  {
    assert input[pos] == input[pos..pos + |code|][0];
  }

  lemma GetBack(input: seq<Byte>, s: St, value: nat)
    requires value < TWO_32 && s.pos <= |input| && Follows(input, s.pos, Encode(value))
    ensures Get(input, s) == (s.(pos := s.pos + |Encode(value)|), value)
  {
    DecodeBack(input, s.pos, value);
  }

  // ---- Differences -----------------------------------------------------------------------------

  /** The values a difference operation can store: longs, or words. */
  predicate Storable(kind: DiffKind, value: nat) {
    value < if kind == LongDelta then TWO_32 else TWO_16
  }

  /** A difference the operation can read: any, or one that fits a signed byte. */
  predicate Encodable(kind: DiffKind, delta: int) {
    kind == ByteDelta ==> -0x80 <= delta < 0x80
  }

  ghost predicate AllStorable(kind: DiffKind, values: seq<nat>) {
    && (forall k :: 0 <= k < |values| ==> Storable(kind, values[k]))
    && (forall k :: 0 <= k < |values| - 1 ==> Encodable(kind, (values[k + 1] as int) - values[k]))
  }

  function DeltaCode(kind: DiffKind, delta: int): seq<Byte> {
    if kind == ByteDelta then [U8(delta)] else Encode(U32(delta))
  }

  /** The differences of the values after `value`. */
  function DeltaCodes(kind: DiffKind, value: nat, values: seq<nat>): seq<Byte>
    decreases |values|
  {
    if values == [] then [] else DeltaCode(kind, values[0] - value) + DeltaCodes(kind, values[0], values[1..])
  }

  function DiffOp(kind: DiffKind): Byte {
    match kind
    case ByteDelta => EXT_DIFF_WORD
    case WordDelta => EXT_DIFF_ENC_WORD
    case LongDelta => EXT_DIFF_ENC_LONG
  }

  /** A non-empty list of values as one difference operation. */
  function DiffCode(kind: DiffKind, values: seq<nat>): seq<Byte>
    requires 0 < |values| <= TWO_32 && values[0] < TWO_32
  {
    [DiffOp(kind)] + (Encode(values[0]) + (Encode(|values| - 1) + DeltaCodes(kind, values[0], values[1..])))
  }

  function ValueBytes(kind: DiffKind, values: seq<nat>): seq<Byte> {
    if values == [] then [] else Stored(kind, values[0]) + ValueBytes(kind, values[1..])
  }

  /** A value plus the difference that was read is the next value, in 32 bits. */
  lemma DifferenceBack(value: nat, next: nat)
    ensures S32(S32(value) + S32(U32(next - value))) == S32(next)
    ensures S32(S32(value) + (next - value)) == S32(next)
  {
    hide S32, U32;
    var a := S32Turns(value);
    var b := U32Turns(next - value);
    var c := S32Turns(U32(next - value));
    Turns32(next, a + b + c);
    Turns32(next, a);
  }

  lemma StoredBack(kind: DiffKind, value: nat)
    ensures Stored(kind, S32(value)) == Stored(kind, value)
  {
    hide S32, BE16;
    U32OfS32(value);
    U16OfS32(value);
    assert BE16(S32(value)) == BE16(value) by { SameWord(S32(value), value); }
  }

  lemma SameWord(x: int, y: int)
    requires U16(x) == U16(y)
    ensures BE16(x) == BE16(y)
  {
  }

  lemma U16OfS32(x: int)
    ensures U16(S32(x)) == U16(x)
  {
    hide S32, U16;
    var turns := S32Turns(x);
    Turns16(x, turns * TWO_16);
  }

  lemma ByteDeltaBack(delta: int)
    requires -0x80 <= delta < 0x80
    ensures S8(U8(delta)) == delta
  {
  }

  /** Reading the code of a difference. */
  lemma DeltaBack(input: seq<Byte>, kind: DiffKind, s: St, value: nat, next: nat)
    requires Encodable(kind, next - value)
    requires s.pos <= |input| && Follows(input, s.pos, DeltaCode(kind, next - value))
    ensures var (d, delta) := NextDelta(input, kind, s);
            && d == Outcome(0, s.(pos := s.pos + |DeltaCode(kind, next - value)|))
            && S32(S32(value) + delta) == S32(next)
  {
    hide S32, U32, Encode, Get, S8, U8;
    DifferenceBack(value, next);
    if kind == ByteDelta {
      FollowsFirst(input, s.pos, DeltaCode(kind, next - value));
      ByteDeltaBack(next - value);
    } else {
      GetBack(input, s, U32(next - value));
    }
  }

  lemma {:induction false} DifferencesBack(input: seq<Byte>, kind: DiffKind, s: St, cap: nat, value: nat,
                                           values: seq<nat>)
    requires AllStorable(kind, [value] + values)
    requires s.pos <= |input| && Follows(input, s.pos, DeltaCodes(kind, value, values))
    requires |s.out| + |Stored(kind, value)| + |ValueBytes(kind, values)| <= cap
    ensures Differences(input, kind, s, cap, S32(value), |values|)
         == Outcome(0, St(s.pos + |DeltaCodes(kind, value, values)|,
                       s.out + ValueBytes(kind, [value] + values), s.last))
    decreases |values|
  {
    hide S32, Stored, DeltaCode, NextDelta, Follows, Storable, Encodable;
    StoredBack(kind, value);
    var all := [value] + values;
    assert all[1..] == values;
    var e := Emit(s, Stored(kind, value), cap).st;
    if values != [] {
      var next, code := values[0], DeltaCode(kind, values[0] - value);
      FollowsSplit(input, s.pos, code, DeltaCodes(kind, next, values[1..]));
      assert (all[1] as int) - all[0] == next - value;
      DeltaBack(input, kind, e, value, next);
      assert [next] + values[1..] == values;
      RestStorable(kind, all);
      FollowsInside(input, s.pos, code);
      DifferencesBack(input, kind, e.(pos := e.pos + |code|), cap, next, values[1..]);
    }
  }

  lemma FollowsInside(input: seq<Byte>, pos: nat, code: seq<Byte>)
    requires Follows(input, pos, code)
    ensures pos + |code| <= |input|
  {
  }

  lemma RestStorable(kind: DiffKind, values: seq<nat>)
    requires values != [] && AllStorable(kind, values)
    ensures AllStorable(kind, values[1..])
  {
    hide Storable, Encodable;
    var rest := values[1..];
    assert forall k :: 0 <= k < |rest| ==> rest[k] == values[k + 1];
  }

  /** Each difference operation undoes the encoding of every list of values it can hold, when the output has room. */
  lemma DiffBack(input: seq<Byte>, kind: DiffKind, s: St, cap: nat, values: seq<nat>)
    requires 0 < |values| <= TWO_32 && AllStorable(kind, values)
    requires s.pos <= |input| && Follows(input, s.pos, DiffCode(kind, values))
    requires |s.out| + |ValueBytes(kind, values)| <= cap
    ensures Extended(input, s, cap)
         == Outcome(0, St(s.pos + |DiffCode(kind, values)|, s.out + ValueBytes(kind, values), s.last))
  {
    hide Get, Encode, S32, Stored, DeltaCodes, Differences, Follows;
    var deltas := DeltaCodes(kind, values[0], values[1..]);
    var s2 := TwoValuesRead(input, s, DiffOp(kind), values[0], |values| - 1, deltas);
    assert [values[0]] + values[1..] == values;
    DifferencesBack(input, kind, s2, cap, values[0], values[1..]);
  }

  /** Two values in front of the rest of an operation. */
  lemma TwoValues(input: seq<Byte>, s: St, a: nat, b: nat, rest: seq<Byte>) returns (after: St)
    requires a < TWO_32 && b < TWO_32
    requires s.pos <= |input| && Follows(input, s.pos, Encode(a) + (Encode(b) + rest))
    ensures var (s1, x) := Get(input, s); x == a && s1.pos <= |input| && Get(input, s1) == (after, b)
    ensures after == s.(pos := s.pos + |Encode(a)| + |Encode(b)|) && after.pos <= |input|
    ensures Follows(input, after.pos, rest)
  {
    hide Encode, Get;
    FollowsSplit(input, s.pos, Encode(a), Encode(b) + rest);
    FollowsSplit(input, s.pos + |Encode(a)|, Encode(b), rest);
    GetBack(input, s, a);
    GetBack(input, s.(pos := s.pos + |Encode(a)|), b);
    after := s.(pos := s.pos + |Encode(a)| + |Encode(b)|);
  }

  /** The same after an operation code. */
  lemma TwoValuesRead(input: seq<Byte>, s: St, op: Byte, a: nat, b: nat, rest: seq<Byte>) returns (after: St)
    requires a < TWO_32 && b < TWO_32
    requires s.pos <= |input| && Follows(input, s.pos, [op] + (Encode(a) + (Encode(b) + rest)))
    ensures s.pos < |input| && input[s.pos] == op
    ensures var (s1, x) := Get(input, s.(pos := s.pos + 1)); x == a && s1.pos <= |input| && Get(input, s1) == (after, b)
    ensures after == s.(pos := s.pos + 1 + |Encode(a)| + |Encode(b)|) && after.pos <= |input|
    ensures Follows(input, after.pos, rest)
  {
    hide Encode, Get;
    FollowsSplit(input, s.pos, [op], Encode(a) + (Encode(b) + rest));
    FollowsFirst(input, s.pos, [op]);
    after := TwoValues(input, s.(pos := s.pos + 1), a, b, rest);
  }

  // ---- Runs --------------------------------------------------------------------------------------

  function Copies(piece: seq<Byte>, n: nat): seq<Byte> {
    if n == 0 then [] else piece + Copies(piece, n - 1)
  }

  /** A run of `n` equal bytes or words. */
  function RunLengthCode(op: Byte, value: nat, n: nat): seq<Byte>
    requires value < TWO_32 && 0 < n <= TWO_32
  {
    [op] + (Encode(value) + (Encode(n - 1) + []))
  }

  lemma {:induction false} RepeatBack(s: St, cap: nat, piece: seq<Byte>, n: nat)
    requires |s.out| + |Copies(piece, n)| <= cap
    ensures Repeat(s, cap, piece, n) == Outcome(0, s.(out := s.out + Copies(piece, n)))
    decreases n
  {
    if n > 0 {
      var e := s.(out := s.out + piece);
      RepeatBack(e, cap, piece, n - 1);
      assert e.out + Copies(piece, n - 1) == s.out + Copies(piece, n);
    }
  }

  /** The run-length operations undo the encoding of every run. */
  lemma RunLengthBack(input: seq<Byte>, s: St, cap: nat, op: Byte, value: nat, n: nat)
    requires op == EXT_RUN_LENGTH_BYTE || op == EXT_RUN_LENGTH_WORD
    requires value < (if op == EXT_RUN_LENGTH_BYTE then TWO_8 else TWO_16) && 0 < n <= TWO_32
    requires s.pos <= |input| && Follows(input, s.pos, RunLengthCode(op, value, n))
    requires var piece := if op == EXT_RUN_LENGTH_BYTE then [value as Byte] else BE16(value);
             |s.out| + |Copies(piece, n)| <= cap
    ensures var piece := if op == EXT_RUN_LENGTH_BYTE then [value as Byte] else BE16(value);
            Extended(input, s, cap)
            == Outcome(0, St(s.pos + |RunLengthCode(op, value, n)|, s.out + Copies(piece, n), s.last))
  {
    hide Get, Encode, BE16, Repeat, Copies, Follows;
    var piece := if op == EXT_RUN_LENGTH_BYTE then [value as Byte] else BE16(value);
    var s2 := TwoValuesRead(input, s, op, value, n - 1, []);
    RepeatBack(s2, cap, piece, n);
  }

  // ---- Jump tables ----------------------------------------------------------------------------------

  /** The offsets of a jump table, each by its distance from the one before plus the bias of 6. */
  function OffsetCodes(last: nat, offsets: seq<nat>): seq<Byte>
    decreases |offsets|
  {
    if offsets == [] then [] else Encode(U32(offsets[0] - last + 6)) + OffsetCodes(offsets[0], offsets[1..])
  }

  function JumpTableCode(seg: nat, offsets: seq<nat>): seq<Byte>
    requires seg < TWO_16 && |offsets| < TWO_32
  {
    [EXT_JUMP_TABLE] + (Encode(seg) + (Encode(|offsets|) + OffsetCodes(6, offsets)))
  }

  /** One entry for each offset, and a last one without. */
  function JumpTableBytes(seg: nat, offsets: seq<nat>): seq<Byte> {
    if offsets == [] then JumpEntry(seg) else JumpEntry(seg) + BE16(offsets[0]) + JumpTableBytes(seg, offsets[1..])
  }

  lemma OffsetBack(last: nat, next: nat)
    requires next < TWO_16
    ensures U16(last + S32(U32(next - last + 6)) - 6) == next
  {
    hide S32, U32, U16;
    var b := U32Turns(next - last + 6);
    var c := S32Turns(U32(next - last + 6));
    Turns16(next, (b + c) * TWO_16);
    U16Same(next);
  }

  lemma {:induction false} JumpEntriesBack(input: seq<Byte>, s: St, cap: nat, seg: nat, last: nat, offsets: seq<nat>)
    requires forall k :: 0 <= k < |offsets| ==> offsets[k] < TWO_16
    requires s.pos <= |input| && Follows(input, s.pos, OffsetCodes(last, offsets))
    requires |s.out| + |JumpTableBytes(seg, offsets)| <= cap
    ensures JumpTable(input, s, cap, seg, last, |offsets|)
         == Outcome(0, St(s.pos + |OffsetCodes(last, offsets)|, s.out + JumpTableBytes(seg, offsets), s.last))
    decreases |offsets|
  {
    hide Get, Encode, BE16, JumpEntry, U32, S32, U16, Follows;
    if offsets != [] {
      var delta := U32(offsets[0] - last + 6);
      FollowsSplit(input, s.pos, Encode(delta), OffsetCodes(offsets[0], offsets[1..]));
      GetBack(input, s, delta);
      FollowsInside(input, s.pos, Encode(delta));
      OffsetBack(last, offsets[0]);
      var piece := JumpEntry(seg) + BE16(offsets[0]);
      var next := St(s.pos + |Encode(delta)|, s.out + piece, s.last);
      JumpEntriesBack(input, next, cap, seg, offsets[0], offsets[1..]);
      assert next.out + JumpTableBytes(seg, offsets[1..]) == s.out + JumpTableBytes(seg, offsets);
    }
  }

  /** The jump table operation undoes the encoding of every jump table. */
  lemma JumpTableBack(input: seq<Byte>, s: St, cap: nat, seg: nat, offsets: seq<nat>)
    requires seg < TWO_16 && |offsets| < TWO_32 && forall k :: 0 <= k < |offsets| ==> offsets[k] < TWO_16
    requires s.pos <= |input| && Follows(input, s.pos, JumpTableCode(seg, offsets))
    requires |s.out| + |JumpTableBytes(seg, offsets)| <= cap
    ensures Extended(input, s, cap)
         == Outcome(0, St(s.pos + |JumpTableCode(seg, offsets)|, s.out + JumpTableBytes(seg, offsets), s.last))
  {
    hide Get, Encode, JumpTable, JumpTableBytes, OffsetCodes, Follows;
    var s2 := TwoValuesRead(input, s, EXT_JUMP_TABLE, seg, |offsets|, OffsetCodes(6, offsets));
    U16Same(seg);
    JumpEntriesBack(input, s2, cap, seg, 6, offsets);
  }

  // ---- Entry vectors ----------------------------------------------------------------------------------

  /** With a constant step the offsets follow from the first one; with step 0 each is given. */
  ghost predicate Stepped(delta: int, offsets: seq<nat>) {
    && (forall k :: 0 <= k < |offsets| ==> offsets[k] < TWO_16)
    && (delta != 0 ==> forall k :: 0 < k < |offsets| ==> offsets[k] == U16(offsets[k - 1] + delta))
  }

  function GivenOffsets(delta: int, offsets: seq<nat>): seq<Byte>
    requires forall k :: 0 <= k < |offsets| ==> offsets[k] < TWO_16
  {
    if delta != 0 || offsets == [] then [] else Encode(offsets[0]) + GivenOffsets(delta, offsets[1..])
  }

  function EntryVectorCode(branch: int, delta: int, offsets: seq<nat>): seq<Byte>
    requires 0 < |offsets| < TWO_32 && forall k :: 0 <= k < |offsets| ==> offsets[k] < TWO_16
  {
    [EXT_ENTRY_VECTOR] + (Encode(U32(branch)) + (Encode(U32(delta))
      + (Encode(|offsets|) + (Encode(offsets[0]) + GivenOffsets(delta, offsets[1..])))))
  }

  /** The vectors: each branches 8 bytes less far than the one before. */
  function VectorBytes(branch: int, offsets: seq<nat>): seq<Byte>
    decreases |offsets|
  {
    if offsets == [] then [] else VectorEntry(branch, offsets[0]) + VectorBytes(S16(branch - 8), offsets[1..])
  }

  lemma {:induction false} VectorsBack(input: seq<Byte>, s: St, cap: nat, branch: int, delta: int, offsets: seq<nat>)
    requires offsets != [] && Stepped(delta, offsets)
    requires s.pos <= |input| && Follows(input, s.pos, GivenOffsets(delta, offsets[1..]))
    requires |s.out| + |VectorBytes(branch, offsets)| <= cap
    ensures EntryVectors(input, s, cap, branch, delta, offsets[0], |offsets|)
         == Outcome(0, St(s.pos + |GivenOffsets(delta, offsets[1..])|, s.out + VectorBytes(branch, offsets), s.last))
    decreases |offsets|
  {
    hide Get, Encode, VectorEntry, S16, U16, Follows;
    var rest := offsets[1..];
    var e := s.(out := s.out + VectorEntry(branch, offsets[0]));
    if rest != [] {
      assert rest[0] == offsets[1];
      U16Same(rest[0]);
      var next := e;
      if delta == 0 {
        FollowsSplit(input, s.pos, Encode(rest[0]), GivenOffsets(delta, rest[1..]));
        FollowsInside(input, s.pos, Encode(rest[0]));
        GetBack(input, e, rest[0]);
        next := e.(pos := e.pos + |Encode(rest[0])|);
      }
      RestStepped(delta, offsets);
      VectorsBack(input, next, cap, S16(branch - 8), delta, rest);
      assert next.out + VectorBytes(S16(branch - 8), rest) == s.out + VectorBytes(branch, offsets);
    }
  }

  lemma RestStepped(delta: int, offsets: seq<nat>)
    requires offsets != [] && Stepped(delta, offsets)
    ensures Stepped(delta, offsets[1..])
  {
    hide U16;
    var rest := offsets[1..];
    assert forall k :: 0 <= k < |rest| ==> rest[k] == offsets[k + 1];
  }

  lemma S16OfU32(x: int)
    requires -0x8000 <= x < 0x8000
    ensures S16(U32(x)) == x
  {
  }

  /** The entry vector operation undoes the encoding of every list of entry vectors, stepped or given. */
  lemma EntryVectorBack(input: seq<Byte>, s: St, cap: nat, branch: int, delta: int, offsets: seq<nat>)
    requires 0 < |offsets| < TWO_32 && Stepped(delta, offsets)
    requires -0x8000 <= branch < 0x8000 && -0x8000 <= delta < 0x8000
    requires s.pos <= |input| && Follows(input, s.pos, EntryVectorCode(branch, delta, offsets))
    requires |s.out| + |VectorBytes(branch, offsets)| <= cap
    ensures Extended(input, s, cap)
         == Outcome(0, St(s.pos + |EntryVectorCode(branch, delta, offsets)|,
                       s.out + VectorBytes(branch, offsets), s.last))
  {
    hide Get, Encode, EntryVectors, VectorBytes, GivenOffsets, Follows, S16, U32, U16;
    var given := GivenOffsets(delta, offsets[1..]);
    var s2 := TwoValuesRead(input, s, EXT_ENTRY_VECTOR, U32(branch), U32(delta),
                            Encode(|offsets|) + (Encode(offsets[0]) + given));
    var s4 := TwoValues(input, s2, |offsets|, offsets[0], given);
    S16OfU32(branch);
    S16OfU32(delta);
    U16Same(offsets[0]);
    VectorsBack(input, s4, cap, branch, delta, offsets);
  }
}
