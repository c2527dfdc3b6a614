/** GetResource on a resource file in memory (src/simple_resource_manager.c). */
module ResourceReader {
  import opened Words
  import opened ByteTables

  /**
   * What a lookup comes to. `Outside` stands for a read beyond the registered bytes, which the source does
   * not check for.
   */
  datatype Lookup = Found(data: seq<Byte>) | Missing | Outside

  /** The data of the resource that starts at `at`. */
  function Fetch(s: seq<Byte>, at: nat): Lookup {
    if at + 4 > |s| then Outside
    else if at + 4 + Read32(s, at) > |s| then Outside
    else Found(s[at + 4..at + 4 + Read32(s, at)])
  }

  /** The reference entries from the `j`-th on: of each the id is read, of the one found the data offset too. */
  function ScanRefs(s: seq<Byte>, dataStart: nat, refList: nat, numRes: nat, id: int, j: nat): Lookup
    requires j <= numRes
    decreases numRes - j
  {
    var at := refList + 12 * j;
    if j == numRes then Missing
    else if at + 2 > |s| then Outside
    else if S16(Read16(s, at)) == id then
      if at + 8 > |s| then Outside else Fetch(s, dataStart + Read24(s, at + 5))
    else ScanRefs(s, dataStart, refList, numRes, id, j + 1)
  }

  /** The type entries from the `i`-th on. */
  function ScanTypes(s: seq<Byte>, dataStart: nat, typeList: nat, numTypes: nat, tag: nat, id: int, i: nat): Lookup
    requires i <= numTypes
    decreases numTypes - i
  {
    var at := typeList + 2 + 8 * i;
    if i == numTypes then Missing
    else if at + 8 > |s| then Outside
    else
      var here := if Read32(s, at) != tag then Missing
                  else ScanRefs(s, dataStart, typeList + Read16(s, at + 6), U16(Read16(s, at + 4) + 1), id, 0);
      if here == Missing then ScanTypes(s, dataStart, typeList, numTypes, tag, id, i + 1) else here
  }

  function LookUp(s: seq<Byte>, tag: nat, id: int): Lookup {
    if |s| < 16 then Missing
    else
      var dataStart, mapStart := Read32(s, 0), Read32(s, 4);
      if U32(dataStart + Read32(s, 8)) > |s| || U32(mapStart + Read32(s, 12)) > |s| then Missing
      else if mapStart + 26 > |s| then Outside
      else
        var typeList := mapStart + Read16(s, mapStart + 24);
        if typeList + 2 > |s| then Outside
        else ScanTypes(s, dataStart, typeList, U16(Read16(s, typeList) + 1), tag, id, 0)
  }

  /** GetResource, given the registered bytes. */
  method GetResource(rsrc: array<Byte>, tag: nat, id: int) returns (r: Lookup)
    ensures r == LookUp(rsrc[..], tag, id)
  {
    hide ScanTypes, ScanRefs, Fetch, Read16, Read24, Read32, S16;
    ghost var s := rsrc[..];
    if rsrc.Length < 16 {
      return Missing;
    }
    var dataOffset := Read32(rsrc[..], 0);
    var mapOffset := Read32(rsrc[..], 4);
    var dataLength := Read32(rsrc[..], 8);
    var mapLength := Read32(rsrc[..], 12);
    if U32(dataOffset + dataLength) > rsrc.Length || U32(mapOffset + mapLength) > rsrc.Length {
      return Missing;
    }
    if mapOffset + 26 > rsrc.Length {
      return Outside;
    }
    var typeList := mapOffset + Read16(rsrc[..], mapOffset + 24);
    if typeList + 2 > rsrc.Length {
      return Outside;
    }
    var numTypes := U16(Read16(rsrc[..], typeList) + 1);
    r := FindType(rsrc, dataOffset, typeList, numTypes, tag, id);
  }

  /** The loop of GetResource over the types. */
  method FindType(rsrc: array<Byte>, dataOffset: nat, typeList: nat, numTypes: nat, tag: nat, id: int)
    returns (r: Lookup)
    ensures r == ScanTypes(rsrc[..], dataOffset, typeList, numTypes, tag, id, 0)
  {
    hide ScanRefs, Fetch, Read16, Read24, Read32;
    var i := 0;
    while i < numTypes
      invariant i <= numTypes
      invariant ScanTypes(rsrc[..], dataOffset, typeList, numTypes, tag, id, 0)
                == ScanTypes(rsrc[..], dataOffset, typeList, numTypes, tag, id, i)
    {
      var at := typeList + 2 + 8 * i;
      if at + 8 > rsrc.Length {
        return Outside;
      }
      var resType := Read32(rsrc[..], at);
      var numRes := U16(Read16(rsrc[..], at + 4) + 1);
      var refListOffset := Read16(rsrc[..], at + 6);
      if resType == tag {
        var here := FindId(rsrc, dataOffset, typeList + refListOffset, numRes, id);
        if here != Missing {
          return here;
        }
      }
      i := i + 1;
    }
    return Missing;
  }

  /** The loop of GetResource over the references of one type. */
  method FindId(rsrc: array<Byte>, dataOffset: nat, refList: nat, numRes: nat, id: int) returns (r: Lookup)
    ensures r == ScanRefs(rsrc[..], dataOffset, refList, numRes, id, 0)
  {
    hide Read16, Read24, Read32;
    var j := 0;
    while j < numRes
      invariant j <= numRes
      invariant ScanRefs(rsrc[..], dataOffset, refList, numRes, id, 0)
                == ScanRefs(rsrc[..], dataOffset, refList, numRes, id, j)
    {
      var at := refList + 12 * j;
      if at + 2 > rsrc.Length {
        return Outside;
      }
      var resID := S16(Read16(rsrc[..], at));
      if resID == id {
        if at + 8 > rsrc.Length {
          return Outside;
        }
        var data := dataOffset + Read24(rsrc[..], at + 5);
        if data + 4 > rsrc.Length {
          return Outside;
        }
        var dataSize := Read32(rsrc[..], data);
        if data + 4 + dataSize > rsrc.Length {
          return Outside;
        }
        return Found(rsrc[data + 4..data + 4 + dataSize]);
      }
      j := j + 1;
    }
    return Missing;
  }
}
