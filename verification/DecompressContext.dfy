/** The decompression context: one input, one output buffer, and the dictionary of remembered literals. */
module DecompressContext {
  import opened Words
  import opened ByteTables
  import opened EncodedValue
  import opened VariableTable
  import opened ExtendedOps
  import Dcmp1
  import Greggy

  class Context {
    const input: seq<Byte>
    const output: array<Byte>
    const table: VarTable
    var inputPos: nat
    var outputPos: nat
    var lastError: int

    ghost predicate Placed()
      reads this
    {
      inputPos <= |input| && outputPos <= output.Length
    }

    ghost function State(): (s: St)
      requires Placed()
      reads this, output
      ensures s.pos == inputPos && |s.out| == outputPos
    {
      St(inputPos, output[..outputPos], lastError)
    }

    /** Dcmp1_Init, its header read: the output and the dictionary start empty. */
    constructor (compressed: seq<Byte>, outputSize: nat, tableSize: nat, slots: nat)
      requires |compressed| >= Dcmp1.HEADER_END && tableSize <= 0xFFFF && slots >= 1
      ensures Placed() && State() == St(Dcmp1.HEADER_END, [], 0)
      ensures input == compressed && output.Length == outputSize && fresh(output)
      ensures table.Valid() && table.literals == [] && fresh(table) && fresh(table.entries) && fresh(table.data)
      ensures table.allocSize == tableSize && table.entries.Length == slots
    {
      input := compressed;
      output := new Byte[outputSize](_ => 0);
      table := new VarTable(tableSize, slots);
      inputPos, outputPos, lastError := Dcmp1.HEADER_END, 0, 0;
    }

    /** DonnBits_GetEncodedValue. */
    method GetEncodedValue() returns (value: nat)
      requires Placed()
      modifies this
      ensures Placed()
      ensures (State(), value) == Get(input, old(State()))
    {
      if inputPos >= |input| {
        lastError := inputOutOfBounds;
        return 0;
      }
      var firstByte := input[inputPos];
      inputPos := inputPos + 1;
      if firstByte < TWO_BYTE_VALUE {
        return firstByte;
      }
      if firstByte == FOUR_BYTE_VALUE {
        if inputPos + 4 > |input| {
          lastError := inputOutOfBounds;
          return 0;
        }
        value := Read32(input, inputPos);
        inputPos := inputPos + 4;
        return value;
      }
      if inputPos >= |input| {
        lastError := inputOutOfBounds;
        return 0;
      }
      var word := S16((firstByte - 0xC0) * 0x200 + input[inputPos] as int * 2);
      inputPos := inputPos + 1;
      return U32(word / 2);
    }

    /** The room check and the byte stores that the operations end in. */
    method Put(piece: seq<Byte>) returns (err: int)
      requires Placed()
      modifies this, output
      ensures Placed() && inputPos == old(inputPos)
      ensures Outcome(err, State()) == Emit(old(State()), piece, output.Length)
    {
      if outputPos + |piece| > output.Length {
        lastError := outputOutOfBounds;
        return outputOutOfBounds;
      }
      var i := 0;
      while i < |piece|
        invariant i <= |piece| && outputPos == old(outputPos) + i && outputPos <= output.Length
        invariant inputPos == old(inputPos) && lastError == old(lastError)
        invariant output[..outputPos] == old(output[..outputPos]) + piece[..i]
      {
        output[outputPos] := piece[i];
        outputPos := outputPos + 1;
        i := i + 1;
      }
      return 0;
    }

    /** The EXT_RUN_LENGTH cases: the value `count + 1` times. */
    method RunLength(piece: seq<Byte>, count: nat) returns (err: int)
      requires Placed()
      modifies this, output
      ensures Placed()
      ensures Outcome(err, State()) == Repeat(old(State()), output.Length, piece, count + 1)
    {
      hide Emit;
      ghost var start := State();
      var i := 0;
      while i <= count
        invariant i <= count + 1 && Placed()
        invariant Repeat(start, output.Length, piece, count + 1) == Repeat(State(), output.Length, piece, count + 1 - i)
      {
        err := Put(piece);
        if err != 0 {
          return;
        }
        i := i + 1;
      }
      return 0;
    }

    /** The EXT_DIFF cases. */
    method DiffRun(kind: DiffKind, first: int, count: nat) returns (err: int)
      requires Placed()
      modifies this, output
      ensures Placed()
      ensures Outcome(err, State()) == Differences(input, kind, old(State()), output.Length, first, count)
    {
      hide Emit, Get;
      ghost var start := State();
      var value := first;
      err := Put(Stored(kind, value));
      if err != 0 {
        return;
      }
      var i := 1;
      while i <= count
        invariant 1 <= i <= count + 1 && Placed()
        invariant Differences(input, kind, start, output.Length, first, count)
               == MoreDifferences(input, kind, State(), output.Length, value, count + 1 - i)
      {
        var delta;
        if kind == ByteDelta {
          if inputPos >= |input| {
            lastError := inputOutOfBounds;
            return inputOutOfBounds;
          }
          delta := S8(input[inputPos]);
          inputPos := inputPos + 1;
        } else {
          var encoded := GetEncodedValue();
          delta := S32(encoded);
        }
        value := S32(value + delta);
        err := Put(Stored(kind, value));
        if err != 0 {
          return;
        }
        i := i + 1;
      }
      return 0;
    }

    /** The EXT_JUMP_TABLE case. */
    method JumpTableRun(seg: nat, numEntries: nat) returns (err: int)
      requires Placed()
      modifies this, output
      ensures Placed()
      ensures Outcome(err, State()) == JumpTable(input, old(State()), output.Length, seg, 6, numEntries)
    {
      hide Emit, Get, JumpEntry;
      ghost var start := State();
      var offset: nat := 6;
      var i := 0;
      while i <= numEntries
        invariant i <= numEntries + 1 && Placed() && offset < TWO_16
        invariant JumpTable(input, start, output.Length, seg, 6, numEntries)
               == if i <= numEntries then JumpTable(input, State(), output.Length, seg, offset, numEntries - i)
                  else Outcome(0, State())
      {
        if i < numEntries {
          var encoded := GetEncodedValue();
          offset := U16(offset + S32(encoded) - 6);
          err := Put(JumpEntry(seg) + BE16(offset));
        } else {
          err := Put(JumpEntry(seg));
        }
        if err != 0 {
          return;
        }
        i := i + 1;
      }
      return 0;
    }

    /** The EXT_ENTRY_VECTOR case. */
    method EntryVectorRun(firstBranch: int, delta: int, numEntries: nat, firstOffset: nat) returns (err: int)
      requires Placed()
      modifies this, output
      ensures Placed()
      ensures Outcome(err, State())
           == EntryVectors(input, old(State()), output.Length, firstBranch, delta, firstOffset, numEntries)
    {
      hide Emit, Get, VectorEntry;
      ghost var start := State();
      var branchOffset, offset: nat := firstBranch, firstOffset;
      var i := 0;
      while i < numEntries
        invariant i <= numEntries && Placed()
        invariant EntryVectors(input, start, output.Length, firstBranch, delta, firstOffset, numEntries)
               == if i == 0 then EntryVectors(input, State(), output.Length, branchOffset, delta, offset, numEntries)
                  else MoreVectors(input, State(), output.Length, branchOffset, delta, offset, numEntries - i)
      {
        if i > 0 {
          branchOffset := S16(branchOffset - 8);
          if delta != 0 {
            offset := U16(offset + delta);
          } else {
            var encoded := GetEncodedValue();
            offset := U16(encoded);
          }
        }
        err := Put(VectorEntry(branchOffset, offset));
        if err != 0 {
          return;
        }
        i := i + 1;
      }
      return 0;
    }

    /** DonnBits_HandleExtended. */
    method HandleExtended() returns (err: int)
      requires Placed()
      modifies this, output
      ensures Placed()
      ensures Outcome(err, State()) == Extended(input, old(State()), output.Length)
    {
      hide Get, Repeat, Differences, JumpTable, EntryVectors, BE16;
      if inputPos >= |input| {
        lastError := inputOutOfBounds;
        return inputOutOfBounds;
      }
      var opCode := input[inputPos];
      inputPos := inputPos + 1;
      if opCode == EXT_JUMP_TABLE {
        var seg := GetEncodedValue();
        var numEntries := GetEncodedValue();
        err := JumpTableRun(U16(seg), numEntries);
      } else if opCode == EXT_ENTRY_VECTOR {
        var branchOffset := GetEncodedValue();
        var delta := GetEncodedValue();
        var numEntries := GetEncodedValue();
        var offset := GetEncodedValue();
        err := EntryVectorRun(S16(branchOffset), S16(delta), numEntries, U16(offset));
      } else if opCode == EXT_RUN_LENGTH_BYTE || opCode == EXT_RUN_LENGTH_WORD {
        var value := GetEncodedValue();
        var count := GetEncodedValue();
        err := RunLength(if opCode == EXT_RUN_LENGTH_BYTE then [U8(value)] else BE16(value), count);
      } else if opCode == EXT_DIFF_WORD || opCode == EXT_DIFF_ENC_WORD || opCode == EXT_DIFF_ENC_LONG {
        var value := GetEncodedValue();
        var count := GetEncodedValue();
        err := DiffRun(DiffKindOf(opCode), S32(value), count);
      } else {
        lastError := CantDecompress;
        err := CantDecompress;
      }
    }

    /** The dictionary is in order and its storage is not the output. */
    ghost predicate Valid()
      reads this, table, table.entries, table.data
    {
      && Placed() && table.Valid()
      && output != table.data
    }

    ghost function Decoder(): Dcmp1.Decoder
      requires Placed()
      reads this, output, table
    {
      Dcmp1.Decoder(State(), table.literals)
    }

    ghost function Room(): Dcmp1.Limits {
      Dcmp1.Limits(output.Length, table.allocSize, table.entries.Length)
    }

    /** DonnBits_CopyLiteral. */
    method CopyLiteral(length: nat) returns (err: int)
      requires Placed()
      modifies this, output
      ensures Placed()
      ensures Outcome(err, State()) == Dcmp1.CopyLiteral(input, old(State()), length, output.Length)
    {
      if inputPos + length > |input| {
        lastError := inputOutOfBounds;
        return inputOutOfBounds;
      }
      err := Put(input[inputPos..inputPos + length]);
      if err == 0 {
        inputPos := inputPos + length;
      }
    }

    /** DonnBits_RememberLiteral. */
    method RememberLiteral(length: nat) returns (err: int)
      requires Valid()
      modifies this, output, table, table.entries, table.data
      ensures Valid()
      ensures Dcmp1.Progress(err, Decoder()) == Dcmp1.RememberLiteral(input, old(Decoder()), length, Room())
    {
      hide Dcmp1.CopyLiteral;
      if inputPos + length > |input| {
        lastError := inputOutOfBounds;
        return inputOutOfBounds;
      }
      if table.dataSize + length <= table.allocSize && table.nextVarIndex >= table.entries.Length {
        return Dcmp1.ENTRY_OVERRUN;
      }
      var result := table.Remember(input[inputPos..inputPos + length]);
      if result != 0 {
        lastError := result;
        return result;
      }
      err := CopyLiteral(length);
    }

    /** DonnBits_ReuseLiteral. */
    method ReuseLiteral(index: nat) returns (err: int)
      requires Valid()
      modifies this, output
      ensures Valid()
      ensures Dcmp1.Progress(err, Decoder()) == Dcmp1.ReuseLiteral(old(Decoder()), index, Room())
    {
      hide Emit;
      var result, start, length := table.Fetch(index);
      if result != 0 {
        lastError := result;
        return result;
      }
      err := Put(table.data[start..start + length]);
    }

    /** Dcmp1_Decompress. */
    method Dcmp1Decompress() returns (err: int)
      requires Valid() && |input| >= Dcmp1.HEADER_END
      modifies this, output, table, table.entries, table.data
      ensures Valid()
      ensures Dcmp1.Progress(err, Decoder())
           == Dcmp1.Run(input, old(Decoder()).(st := old(State()).(pos := Dcmp1.HEADER_END)), Room())
    {
      hide Emit, Extended, Dcmp1.CopyLiteral, Dcmp1.RememberLiteral, Dcmp1.ReuseLiteral, BE16;
      inputPos := Dcmp1.HEADER_END;
      ghost var start := Decoder();
      while inputPos < |input| && outputPos < output.Length
        invariant Valid()
        invariant Dcmp1.Run(input, start, Room()) == Dcmp1.Run(input, Decoder(), Room())
        decreases |input| - inputPos
      {
        var token := input[inputPos];
        inputPos := inputPos + 1;
        var result;
        if token == Dcmp1.TERMINATOR {
          return 0;
        }
        result := Dispatch(token);
        if result != 0 {
          return result;
        }
      }
      return 0;
    }

    /** One token of the main loop. */
    method Dispatch(token: nat) returns (result: int)
      requires Valid() && token < Dcmp1.TERMINATOR
      modifies this, output, table, table.entries, table.data
      ensures Valid()
      ensures Dcmp1.Progress(result, Decoder()) == Dcmp1.Token(input, old(Decoder()), token, Room())
    {
      hide Emit, Extended, Dcmp1.CopyLiteral, Dcmp1.RememberLiteral, Dcmp1.ReuseLiteral, BE16;
      if token == Dcmp1.EXTENDED_TOKEN {
        result := HandleExtended();
      } else if token >= Dcmp1.DCMP1_VARIABLE_REFS {
        result := WordOrReuse(token);
      } else if token >= Dcmp1.DCMP1_DEFS_ENCODED {
        result := RememberLiteral(token % 0x10 + 1);
      } else {
        result := CopyLiteral(token % 0x10 + 1);
      }
    }

    /** The tokens for constant words and for references. */
    method WordOrReuse(token: nat) returns (result: int)
      requires Valid() && Dcmp1.DCMP1_VARIABLE_REFS <= token < Dcmp1.EXTENDED_TOKEN
      modifies this, output
      ensures Valid()
      ensures Dcmp1.Progress(result, Decoder()) == Dcmp1.Token(input, old(Decoder()), token, Room())
    {
      hide Emit, Dcmp1.Token, Dcmp1.ReuseLiteral, BE16;
      Dcmp1.ShortToken(input, Decoder(), token, Room());
      if token >= Dcmp1.DCMP1_CONSTANT_ITEMS {
        var wordIndex := token - Dcmp1.DCMP1_CONSTANT_ITEMS;
        if wordIndex < |Dcmp1.CONSTANT_WORDS| {
          result := Put(BE16(Dcmp1.CONSTANT_WORDS[wordIndex]));
        } else {
          lastError := CantDecompress;
          result := CantDecompress;
        }
      } else {
        var index := token - Dcmp1.DCMP1_VARIABLE_REFS;
        if index < Dcmp1.REUSE_LIMIT {
          result := ReuseLiteral(index);
        } else {
          lastError := CantDecompress;
          result := CantDecompress;
        }
      }
    }

    /** The words of one run of GreggyBits_ProcessBitmap. */
    method ProcessRun(byteTable: seq<nat>, bitmap: nat, wordsInRun: nat) returns (err: int)
      requires Placed() && |byteTable| == 256
      modifies this, output
      ensures Placed()
      ensures Outcome(err, State())
           == Greggy.RunFrom(input, old(State()), byteTable, bitmap, 0, wordsInRun, output.Length)
    {
      hide Greggy.Flag, BE16;
      ghost var start := State();
      var bit := 0;
      while bit < wordsInRun
        invariant bit <= wordsInRun && Placed()
        invariant Greggy.RunFrom(input, start, byteTable, bitmap, 0, wordsInRun, output.Length)
               == Greggy.RunFrom(input, State(), byteTable, bitmap, bit, wordsInRun, output.Length)
      {
        if bit >= Greggy.RUN_WORDS {
          return Greggy.BAD_SHIFT;
        }
        if Greggy.Flag(bitmap, bit) {
          if inputPos >= |input| {
            lastError := inputOutOfBounds;
            return inputOutOfBounds;
          }
          var byte := input[inputPos];
          inputPos := inputPos + 1;
          err := Put(BE16(byteTable[byte]));
          if err != 0 {
            return;
          }
        } else {
          if inputPos + 2 > |input| {
            lastError := inputOutOfBounds;
            return inputOutOfBounds;
          }
          err := Put(input[inputPos..inputPos + 2]);
          if err != 0 {
            return;
          }
          inputPos := inputPos + 2;
        }
        bit := bit + 1;
      }
      return 0;
    }

    /** GreggyBits_ProcessBitmap on bitmapped data. */
    method ProcessBitmap(byteTable: seq<nat>) returns (err: int)
      requires Placed() && |byteTable| == 256
      modifies this, output
      ensures Placed()
      ensures Outcome(err, State()) == Greggy.Bitmapped(input, old(State()), byteTable, output.Length)
    {
      hide Greggy.RunFrom, Read32;
      if inputPos >= |input| {
        lastError := inputOutOfBounds;
        return inputOutOfBounds;
      }
      var numRuns := input[inputPos];
      inputPos := inputPos + 1;
      if inputPos >= |input| {
        return Greggy.INPUT_OVERRUN;
      }
      var lastRunWords := input[inputPos];
      inputPos := inputPos + 1;
      ghost var start := State();
      var run := 0;
      while run < numRuns
        invariant run <= numRuns && Placed()
        invariant Greggy.Runs(input, start, byteTable, numRuns, lastRunWords, output.Length)
               == Greggy.Runs(input, State(), byteTable, numRuns - run, lastRunWords, output.Length)
      {
        var wordsInRun := Greggy.RUN_WORDS;
        if run == numRuns - 1 && lastRunWords > 0 {
          wordsInRun := lastRunWords;
        }
        if inputPos + 4 > |input| {
          lastError := inputOutOfBounds;
          return inputOutOfBounds;
        }
        var bitmap := Read32(input, inputPos);
        inputPos := inputPos + 4;
        err := ProcessRun(byteTable, bitmap, wordsInRun);
        if err != 0 {
          return;
        }
        run := run + 1;
      }
      return 0;
    }
  }
}
