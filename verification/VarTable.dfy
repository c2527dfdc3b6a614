/** The dictionary of remembered literals of the resource decompressors, packed from the end of its data area down. */
module VariableTable {
  import opened Words
  import opened ByteSlices
  import opened ByteTables

  const inputOutOfBounds: int := -190
  const outputOutOfBounds: int := -191
  const CantDecompress: int := -186

  /** The literal between two neighbouring offsets. */
  function Literal(data: seq<Byte>, offsets: seq<nat>, k: nat): seq<Byte>
    requires 0 < k < |offsets| && offsets[k] <= offsets[k - 1] <= |data|
  {
    data[offsets[k]..offsets[k - 1]]
  }

  ghost predicate Descending(offsets: seq<nat>, top: nat) {
    && offsets != [] && offsets[0] == top
    && forall i, j :: 0 <= i < j < |offsets| ==> offsets[j] <= offsets[i]
  }

  class VarTable {
    const entries: array<nat>     // the offset of each entry, 16 bits wide
    const data: array<Byte>
    const allocSize: nat
    var nextVarIndex: nat
    var dataSize: nat
    ghost var literals: seq<seq<Byte>>   // what has been remembered, in order

    /** The offsets in use; entry 0 marks the end of the data area. */
    ghost function Offsets(): seq<nat>
      requires nextVarIndex <= entries.Length
      reads this, entries
    {
      entries[..nextVarIndex]
    }

    ghost predicate Valid()
      reads this, entries, data
    {
      && allocSize == data.Length <= 0xFFFF
      && 1 <= nextVarIndex <= entries.Length
      && Descending(Offsets(), allocSize)
      && dataSize == allocSize - entries[nextVarIndex - 1]
      && |literals| == nextVarIndex - 1 && dataSize == Size(literals)
      && forall k :: 0 < k < nextVarIndex ==> Literal(data[..], Offsets(), k) == literals[k - 1]
    }

    /** VarTable_Init on fresh storage with room for `slots` entries. */
    constructor (size: nat, slots: nat)
      requires size <= 0xFFFF && slots >= 1
      ensures Valid() && fresh(entries) && fresh(data)
      ensures literals == [] && allocSize == size && entries.Length == slots && dataSize == 0
    {
      entries := new nat[slots](_ => 0);
      data := new Byte[size](_ => 0);
      allocSize := size;
      nextVarIndex, dataSize, literals := 1, 0, [];
      new;
      entries[0] := U16(size);
    }

    /**
     * VarTable_Remember: a literal that fits is appended to the dictionary, one that does not changes
     * nothing. The source does not check that the entry table has room for a literal that fits; the caller has to.
     */
    method Remember(src: seq<Byte>) returns (err: int)
      requires Valid() && (dataSize + |src| > allocSize || nextVarIndex < entries.Length)
      modifies this, entries, data
      ensures Valid()
      ensures err == if old(dataSize) + |src| > allocSize then inputOutOfBounds else 0
      ensures literals == old(literals) + if err == 0 then [src] else []
      ensures dataSize == old(dataSize) + if err == 0 then |src| else 0
      ensures nextVarIndex == old(nextVarIndex) + if err == 0 then 1 else 0
      ensures err == 0 ==> entries[nextVarIndex - 1] == allocSize - dataSize
    {
      var length := |src|;
      if dataSize + length > allocSize {
        return inputOutOfBounds;
      }
      var prevOffset := entries[nextVarIndex - 1];
      if length > 0xFFFF {
        return inputOutOfBounds;
      }
      var newOffset := U16(prevOffset - U16(length));
      ghost var before, offsets := data[..], Offsets();
      entries[nextVarIndex] := newOffset;
      CopyIn(src, newOffset);
      nextVarIndex := nextVarIndex + 1;
      dataSize := dataSize + length;
      literals := literals + [src];
      assert Offsets() == offsets + [newOffset];
      LiteralsAfter(before, offsets, src, newOffset);
      return 0;
    }

    method CopyIn(src: seq<Byte>, at: nat)
      requires at + |src| <= data.Length
      modifies data
      ensures data[..] == Overlay(old(data[..]), at, src)
    {
      var i := 0;
      while i < |src|
        invariant i <= |src|
        invariant forall j :: 0 <= j < data.Length ==> data[j] == if at <= j < at + i then src[j - at] else old(data[j])
      {
        data[at + i] := src[i];
        i := i + 1;
      }
    }

    /** VarTable_Fetch: index `k` of the dictionary gives its `k`-th literal; index 0 gives nothing. */
    method Fetch(index: nat) returns (err: int, start: nat, length: nat)
      requires Valid()
      ensures err == if index >= nextVarIndex then inputOutOfBounds else 0
      ensures err == 0 ==> start + length <= data.Length
      ensures err == 0 ==> data[start..start + length] == if index == 0 then [] else literals[index - 1]
    {
      if index >= nextVarIndex {
        return inputOutOfBounds, 0, 0;
      }
      var startOffset := entries[index];
      var endOffset := if index > 0 then entries[index - 1] else U16(allocSize);
      assert index > 0 ==> Literal(data[..], Offsets(), index) == literals[index - 1];
      return 0, startOffset, endOffset - startOffset;
    }
  }

  /** Writing a new literal just below the others leaves the others alone. */
  lemma LiteralsAfter(data: seq<Byte>, offsets: seq<nat>, src: seq<Byte>, at: nat)
    requires Descending(offsets, |data|) && at + |src| == offsets[|offsets| - 1]
    ensures var after, more := Overlay(data, at, src), offsets + [at];
            && Descending(more, |data|)
            && (forall k :: 0 < k < |offsets| ==> Literal(after, more, k) == Literal(data, offsets, k))
            && Literal(after, more, |offsets|) == src
  {
    var after, more := Overlay(data, at, src), offsets + [at];
    forall k | 0 < k < |offsets|
      ensures Literal(after, more, k) == Literal(data, offsets, k)
    {
      assert offsets[|offsets| - 1] <= offsets[k];
    }
  }
}
