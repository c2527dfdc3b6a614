/** The volume control block: the bitmap cache and its counters, changed in place. */
module VolumeControl {
  import opened Words
  import opened Bitmap
  import opened Allocation
  import opened Extents

  class VCB {
    const bitmap: array<bv8>      // the block vcbMAdr points to, with what may follow it in memory
    const alBlkSiz: nat           // vcbAlBlkSiz
    const clpSiz: int             // vcbClpSiz
    const alBlSt: nat             // vcbAlBlSt
    var loaded: bool              // vcbMAdr is not NULL
    var nmAlBlks: nat             // vcbNmAlBlks
    var freeBks: nat              // vcbFreeBks
    var allocPtr: int             // vcbAllocPtr

    constructor (bytes: array<bv8>, blockSize: nat, clump: int, firstBlock: nat,
                 blocks: nat, freeBlocks: nat, searchFrom: int)
      ensures bitmap == bytes && Geo() == Geometry(blockSize, clump) && alBlSt == firstBlock
      ensures Map() == AllocMap(true, Bits(bytes[..]), blocks, freeBlocks, searchFrom)
    {
      bitmap, loaded := bytes, true;
      alBlkSiz, clpSiz, alBlSt := blockSize, clump, firstBlock;
      nmAlBlks, freeBks, allocPtr := blocks, freeBlocks, searchFrom;
    }

    /** The allocator's value held by this volume. */
    ghost function Map(): AllocMap
      reads this, bitmap
    {
      AllocMap(loaded, Bits(bitmap[..]), nmAlBlks, freeBks, allocPtr)
    }

    function Geo(): Geometry {
      Geometry(alBlkSiz, clpSiz)
    }

    ghost predicate Valid()
      reads this, bitmap
    {
      WellFormed(Map()) && bitmap.Length >= (nmAlBlks + 7) / 8
    }

    /** Alloc_Blocks. The hint may lie in the bitmap's padding, but not beyond the cached bytes. */
    method Allocate(startHint: nat, minBlocks: nat, maxBlocks: nat, write: OSErr)
      returns (err: OSErr, actualStart: nat, actualCount: nat)
      requires Valid()
      requires startHint < 8 * bitmap.Length || startHint == 0
      modifies this, bitmap
      ensures AllocResult(Map(), err, actualStart, actualCount)
              == AllocBlocks(old(Map()), startHint, minBlocks, maxBlocks, write)
    {
      hide Bits, BitOf, Mask, ChosenStart, RunLen, SetRun, CountClear, U16, S16;
      if minBlocks == 0 || minBlocks > maxBlocks {
        return paramErr, 0, 0;
      }
      if !loaded {
        return ioErr, 0, 0;
      }
      if freeBks < minBlocks {
        return dskFulErr, 0, 0;
      }
      var foundStart := FindSpace(startHint, minBlocks);
      if foundStart == NO_RUN {
        return dskFulErr, 0, 0;
      }
      var foundCount := CountRun(foundStart, maxBlocks);
      MarkRun(foundStart, foundCount);
      freeBks := U16(freeBks - foundCount);
      allocPtr := S16(foundStart + foundCount);
      if allocPtr >= nmAlBlks {
        allocPtr := 0;
      }
      if write != noErr {
        return write, 0, 0;
      }
      return noErr, foundStart, foundCount;
    }

    /** The search of Alloc_Blocks: from the hint (the allocation pointer if there is none), then from block 0. */
    method FindSpace(startHint: nat, minBlocks: nat) returns (foundStart: nat)
      requires Valid() && nmAlBlks > 0 && minBlocks > 0
      requires startHint < 8 * bitmap.Length || startHint == 0
      ensures foundStart == ChosenStart(Map(), startHint, minBlocks)
    {
      hide Bits, BitOf, Mask, FoundRun, CountClear, U32;
      U32Same(allocPtr);
      var hint := startHint;
      if hint == 0 {
        hint := U32(allocPtr);
      }
      foundStart := FindFreeRun(bitmap, nmAlBlks, hint, minBlocks);
      if foundStart == NO_RUN {
        foundStart := FindFreeRun(bitmap, nmAlBlks, 0, minBlocks);
      }
    }

    /** The recount of Alloc_Blocks: clear blocks from the found start on. */
    method CountRun(foundStart: nat, maxBlocks: nat) returns (foundCount: nat)
      requires Valid()
      ensures foundCount == RunLen(Map().bits, nmAlBlks, foundStart, maxBlocks)
    {
      hide Bits, BitOf, Mask;
      foundCount := 0;
      var i := foundStart;
      while i < nmAlBlks && foundCount < maxBlocks
        invariant i == foundStart + foundCount && foundCount <= maxBlocks
        invariant RunLen(Map().bits, nmAlBlks, foundStart, maxBlocks)
                  == foundCount + RunLen(Map().bits, nmAlBlks, i, maxBlocks - foundCount)
        decreases maxBlocks - foundCount
      {
        BitsAt(bitmap[..], i);
        if !TestBit(bitmap, i) {
          foundCount := foundCount + 1;
        } else {
          break;
        }
        i := i + 1;
      }
    }

    /** The marking loop of Alloc_Blocks. */
    method MarkRun(start: nat, count: nat)
      requires start + count <= 8 * bitmap.Length || count == 0
      modifies bitmap
      ensures Bits(bitmap[..]) == SetRun(old(Bits(bitmap[..])), start, count, true)
    {
      hide Bits, BitOf, Mask;
      var i := 0;
      while i < count
        invariant i <= count
        invariant Bits(bitmap[..]) == SetRun(old(Bits(bitmap[..])), start, i, true)
      {
        SetBit(bitmap, start + i);
        i := i + 1;
      }
    }

    /** The clearing loop of Alloc_Free, counting the blocks that were in use. */
    method ClearRun(start: nat, count: nat)
      requires start + count <= 8 * bitmap.Length
      requires freeBks < TWO_16
      modifies `freeBks, bitmap
      ensures Bits(bitmap[..]) == SetRun(old(Bits(bitmap[..])), start, count, false)
      ensures freeBks == U16(old(freeBks) + CountUsed(old(Bits(bitmap[..])), start, count))
    {
      hide Bits, BitOf, Mask, SetRun, CountUsed, U16;
      RunStart(Bits(bitmap[..]), start);
      U16Same(freeBks);
      ghost var bits, free := Bits(bitmap[..]), freeBks;
      var i := 0;
      while i < count
        invariant i <= count
        invariant Bits(bitmap[..]) == SetRun(bits, start, i, false)
        invariant freeBks == U16(free + CountUsed(bits, start, i))
      {
        RunStep(bits, start, i);
        U16Step(free + CountUsed(bits, start, i));
        BitsAt(bitmap[..], start + i);
        if TestBit(bitmap, start + i) {
          ClearBit(bitmap, start + i);
          freeBks := U16(freeBks + 1);
        }
        i := i + 1;
      }
    }

    /** Alloc_Free. */
    method Free(startBlock: nat, blockCount: nat, write: OSErr) returns (err: OSErr)
      requires Valid()
      requires startBlock + blockCount < TWO_32
      modifies this, bitmap
      ensures AllocResult(Map(), err, 0, 0) == FreeBlocks(old(Map()), startBlock, blockCount, write)
    {
      hide Bits, BitOf, Mask, SetRun, CountUsed, CountClear, U16, U32, S16;
      if blockCount == 0 {
        return paramErr;
      }
      if startBlock + blockCount > nmAlBlks {
        return paramErr;
      }
      if !loaded {
        return ioErr;
      }
      U16Same(freeBks);
      ClearRun(startBlock, blockCount);
      if startBlock < U32(allocPtr) {
        allocPtr := S16(startBlock);
      }
      return write;
    }
  }
}
