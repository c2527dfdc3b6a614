/** The file control block, and the extent operations that change it in place. */
module FileControl {
  import opened Words
  import opened Allocation
  import opened Extents
  import opened ExtentLaws
  import opened GrowthLaws
  import opened VolumeControl

  /**
   * The data fork of an open file. Lengths and positions exist twice in the source, in the base record and
   * around it.
   */
  class FCB {
    var ext: seq<Extent>     // base.fcbExtRec
    var pLen: nat            // base.fcbPLen, kept by Ext_Extend and Ext_Truncate
    var clpSiz: int          // base.fcbClpSiz
    var eof: nat             // base.fcbEOF
    var crPs: nat            // base.fcbCrPs, kept by FSSetFPos and FSSetEOF
    var writePerm: bool      // FCB_WRITE_PERM in base.fcbFlags
    var outerPLen: nat       // fcbPLen, read by IO_WriteFork
    var outerCrPs: nat       // fcbCrPs, kept by IO_ReadFork and IO_WriteFork

    constructor (extents: seq<Extent>, physical: nat, logical: nat, clump: int)
      ensures AsFork() == Fork(extents, physical, clump) && eof == logical && writePerm
      ensures crPs == outerCrPs == outerPLen == 0
    {
      ext, pLen, clpSiz, eof := extents, physical, clump, logical;
      crPs, outerCrPs, outerPLen, writePerm := 0, 0, 0, true;
    }

    function AsFork(): Fork
      reads this
    {
      Fork(ext, pLen, clpSiz)
    }
  }

  // ---- Ext_Map -----------------------------------------------------------------------------

  /** File block `end` is where slot `i` ends. */
  ghost predicate SlotEnds(ext: seq<Extent>, i: nat, end: nat) {
    i < |ext| && end == Total(ext[..i]) + ext[i].count
  }

  /** Some slot ends at file block `end`. */
  ghost predicate AtSlotEnd(ext: seq<Extent>, end: nat) {
    exists i: nat :: SlotEnds(ext, i, end)
  }

  lemma ThreeParts(p: seq<nat>, q: seq<nat>, r: seq<nat>)
    ensures (p + q + r)[0..|p|] == p
    ensures (p + q + r)[|p|..|p| + |q|] == q
    ensures (p + q + r)[|p| + |q|..|p| + |q| + |r|] == r
  {
  }

  lemma SubSlice(s: seq<nat>, from: nat, to: nat, k: nat)
    requires from <= to <= |s| && k < to - from
    ensures s[from..to][k..] == s[from + k..to] && s[from..to][k] == s[from + k]
  {
  }

  /** Slot `i` holds a contiguous stretch of the file's block list. */
  lemma SlotInBlocks(ext: seq<Extent>, i: nat)
    requires |ext| == 3 && i < 3
    ensures Total(ext[..i + 1]) == Total(ext[..i]) + ext[i].count <= Total(ext)
    ensures Blocks(ext)[Total(ext[..i])..Total(ext[..i]) + ext[i].count] == Run(ext[i])
  {
    hide Run, Blocks, Total;
    TotalOfThree(ext);
    PrefixTotals(ext);
    ThreeParts(Run(ext[0]), Run(ext[1]), Run(ext[2]));
    assert i == 0 || i == 1 || i == 2;
  }

  lemma PrefixTotals(ext: seq<Extent>)
    requires |ext| == 3
    ensures Total(ext[..0]) == 0
    ensures Total(ext[..1]) == ext[0].count
    ensures Total(ext[..2]) == ext[0].count + ext[1].count
    ensures Total(ext[..3]) == ext[0].count + ext[1].count + ext[2].count
  {
    hide Blocks;
    assert ext[..3][..2] == ext[..2] && ext[..2][..1] == ext[..1] && ext[..1][..0] == [];
  }

  /** A block inside slot `i` is followed by the rest of that slot. */
  lemma RestOfSlot(ext: seq<Extent>, i: nat, k: nat)
    requires |ext| == 3 && i < 3 && k < ext[i].count
    ensures var at := Total(ext[..i]) + k;
            && at + (ext[i].count - k) <= Total(ext)
            && Blocks(ext)[at] == ext[i].start + k
            && Blocks(ext)[at..at + (ext[i].count - k)] == Run(Extent(ext[i].start + k, ext[i].count - k))
  {
    hide Blocks, Total, Run;
    SlotInBlocks(ext, i);
    RestOfRun(ext[i], k);
    SubSlice(Blocks(ext), Total(ext[..i]), Total(ext[..i]) + ext[i].count, k);
  }

  lemma RestOfRun(e: Extent, k: nat)
    requires k < e.count
    ensures Run(e)[k..] == Run(Extent(e.start + k, e.count - k)) && Run(e)[k] == e.start + k
  {
  }

  /**
   * Ext_Map. A block of the file is found at the place the block list gives it, with the number of blocks
   * from there to the end of its slot, all adjacent on the volume; any other block is looked up in the
   * overflow tree, which holds nothing.
   */
  method MapBlock(fcb: FCB, fileBlock: nat) returns (err: OSErr, physBlock: nat, contiguous: nat)
    requires |fcb.ext| == 3 && Packed(fcb.ext)
    ensures err == if fileBlock < Total(fcb.ext) then noErr else ioErr
    ensures err == noErr ==>
              && physBlock == Blocks(fcb.ext)[fileBlock]
              && contiguous > 0
              && AtSlotEnd(fcb.ext, fileBlock + contiguous)
              && fileBlock + contiguous <= Total(fcb.ext)
              && Blocks(fcb.ext)[fileBlock..fileBlock + contiguous] == Run(Extent(physBlock, contiguous))
  {
    hide Blocks, Run;
    var currentBlock := 0;
    var i := 0;
    while i < 3
      invariant 0 <= i <= 3
      invariant currentBlock == Total(fcb.ext[..i]) && currentBlock <= fileBlock
    {
      SlotInBlocks(fcb.ext, i);
      if fcb.ext[i].count == 0 {
        break;
      }
      if fileBlock < currentBlock + fcb.ext[i].count {
        RestOfSlot(fcb.ext, i, fileBlock - currentBlock);
        physBlock := fcb.ext[i].start + (fileBlock - currentBlock);
        contiguous := fcb.ext[i].count - (fileBlock - currentBlock);
        assert SlotEnds(fcb.ext, i, fileBlock + contiguous);
        return noErr, physBlock, contiguous;
      }
      currentBlock := currentBlock + fcb.ext[i].count;
      i := i + 1;
    }
    TrailingEmpty(fcb.ext, i);
    return ioErr, 0, 0;
  }

  // ---- Ext_Extend --------------------------------------------------------------------------

  /** Ext_Extend. `write` is what writing the bitmap back answers, `insert` what the overflow tree answers. */
  method ExtendFile(vcb: VCB, fcb: FCB, newSize: nat, write: OSErr, insert: OSErr) returns (err: OSErr)
    requires vcb.Valid() && vcb.alBlkSiz > 0
    requires HintInReach(vcb.Map(), fcb.AsFork(), vcb.Geo())
    requires insert != noErr
    modifies vcb, vcb.bitmap, fcb`ext, fcb`pLen
    ensures ExtentResult(vcb.Map(), fcb.AsFork(), err)
            == Extend(old(vcb.Map()), old(fcb.AsFork()), vcb.Geo(), newSize, write, insert)
    ensures vcb.Valid()
  {
    hide ExtendAlloc, FreeBlocks, SlotFor, Grown, WellFormed;
    var blk := vcb.alBlkSiz;
    var currentBlocks := U32(fcb.pLen + blk - 1) / blk;
    var neededBlocks := U32(newSize + blk - 1) / blk;
    if neededBlocks <= currentBlocks {
      return noErr;
    }
    var allocStart, allocCount;
    err, allocStart, allocCount := AllocateForFile(vcb, fcb, newSize, write);
    if err != noErr {
      return err;
    }
    var extentAdded := AddExtent(fcb, allocStart, allocCount);
    if !extentAdded {
      var _ := vcb.Free(allocStart, allocCount, write);
      return insert;
    }
    fcb.pLen := U32((currentBlocks + allocCount) * blk);
    return noErr;
  }

  /** The two allocation attempts of Ext_Extend. */
  method AllocateForFile(vcb: VCB, fcb: FCB, newSize: nat, write: OSErr)
    returns (err: OSErr, allocStart: nat, allocCount: nat)
    requires vcb.Valid() && vcb.alBlkSiz > 0
    requires HintInReach(vcb.Map(), fcb.AsFork(), vcb.Geo())
    requires Grows(fcb.AsFork(), vcb.Geo(), newSize)
    modifies vcb, vcb.bitmap
    ensures AllocResult(vcb.Map(), err, allocStart, allocCount)
            == ExtendAlloc(old(vcb.Map()), fcb.AsFork(), vcb.Geo(), newSize, write)
    ensures vcb.Valid() && allocStart + allocCount < TWO_32
  {
    hide AllocBlocks, CountClear, LastEnd, U32;
    var blk := vcb.alBlkSiz;
    var currentBlocks := U32(fcb.pLen + blk - 1) / blk;
    var neededBlocks := U32(newSize + blk - 1) / blk;
    var clumpSize := if fcb.clpSiz != 0 then U32(fcb.clpSiz) else U32(vcb.clpSiz);
    var clumpBlocks := U32(clumpSize + blk - 1) / blk;
    var blocksToAlloc := neededBlocks - currentBlocks;
    if blocksToAlloc < clumpBlocks {
      blocksToAlloc := clumpBlocks;
    }
    var lastBlock := 0;
    if currentBlocks > 0 {
      lastBlock := FindLastBlock(fcb);
    }
    err, allocStart, allocCount := vcb.Allocate(lastBlock, blocksToAlloc, blocksToAlloc, write);
    if err != noErr {
      blocksToAlloc := neededBlocks - currentBlocks;
      err, allocStart, allocCount := vcb.Allocate(0, blocksToAlloc, blocksToAlloc, write);
    }
  }

  /** The hint loop of Ext_Extend. */
  method FindLastBlock(fcb: FCB) returns (lastBlock: nat)
    ensures lastBlock == LastEnd(fcb.ext)
  {
    lastBlock := 0;
    var i := 0;
    while i < |fcb.ext|
      invariant i <= |fcb.ext| && lastBlock == LastEnd(fcb.ext[..i])
    {
      assert fcb.ext[..i + 1][..i] == fcb.ext[..i];
      if fcb.ext[i].count > 0 {
        lastBlock := fcb.ext[i].start + fcb.ext[i].count;
      }
      i := i + 1;
    }
    assert fcb.ext[..i] == fcb.ext;
  }

  /** The recording loop of Ext_Extend. */
  method AddExtent(fcb: FCB, allocStart: nat, allocCount: nat) returns (extentAdded: bool)
    modifies fcb`ext
    ensures var i := SlotFor(old(fcb.ext), allocStart, 0);
            if i == |old(fcb.ext)| then !extentAdded && fcb.ext == old(fcb.ext)
            else extentAdded && fcb.ext == old(fcb.ext)[i := Grown(old(fcb.ext)[i], allocStart, allocCount)]
  {
    var i := 0;
    while i < |fcb.ext|
      invariant i <= |fcb.ext| && fcb.ext == old(fcb.ext)
      invariant SlotFor(fcb.ext, allocStart, 0) == SlotFor(fcb.ext, allocStart, i)
    {
      var e := fcb.ext[i];
      if e.count == 0 {
        fcb.ext := fcb.ext[i := Extent(U16(allocStart), U16(allocCount))];
        return true;
      } else if e.start + e.count == allocStart {
        fcb.ext := fcb.ext[i := Extent(e.start, U16(e.count + U16(allocCount)))];
        return true;
      }
      i := i + 1;
    }
    return false;
  }

  // ---- Ext_Truncate ------------------------------------------------------------------------

  /** Ext_Truncate on a resident file. */
  method TruncateFile(vcb: VCB, fcb: FCB, newSize: nat, write: OSErr) returns (err: OSErr)
    requires vcb.Valid()
    requires Resident(fcb.AsFork(), vcb.nmAlBlks, vcb.alBlkSiz)
    modifies vcb, vcb.bitmap, fcb`ext, fcb`pLen
    ensures ExtentResult(vcb.Map(), fcb.AsFork(), err)
            == Truncate(old(vcb.Map()), old(fcb.AsFork()), vcb.Geo(), newSize, write)
    ensures vcb.Valid()
  {
    hide FreeBlocks, CountClear;
    var blk := vcb.alBlkSiz;
    var currentBlocks := U32(fcb.pLen + blk - 1) / blk;
    var neededBlocks := U32(newSize + blk - 1) / blk;
    if neededBlocks >= currentBlocks {
      return noErr;
    }
    err := CutExtents(vcb, fcb, currentBlocks - neededBlocks, write);
    if err != noErr {
      return err;
    }
    fcb.pLen := U32(neededBlocks * blk);
    return noErr;
  }

  /** The freeing loop of Ext_Truncate over the slots of the control block, last slot first. */
  method CutExtents(vcb: VCB, fcb: FCB, toFree: nat, write: OSErr) returns (err: OSErr)
    requires vcb.Valid() && vcb.nmAlBlks <= 0x7FFF && toFree > 0
    requires |fcb.ext| == 3
    requires forall i :: 0 <= i < 3 && fcb.ext[i].count > 0 ==> fcb.ext[i].start + fcb.ext[i].count <= vcb.nmAlBlks
    modifies vcb, vcb.bitmap, fcb`ext
    ensures CutResult(vcb.Map(), fcb.ext, err) == CutSlots(old(vcb.Map()), old(fcb.ext), 3, toFree, write)
    ensures vcb.Valid()
  {
    hide FreeBlocks, WellFormed, U16, CutSlots;
    ghost var want := CutSlots(vcb.Map(), fcb.ext, 3, toFree, write);
    var blocksToFree := toFree;
    var i := 2;
    while i >= 0
      invariant -1 <= i <= 2 && |fcb.ext| == 3 && vcb.Valid() && blocksToFree > 0
      invariant vcb.nmAlBlks == old(vcb.nmAlBlks)
      invariant forall j :: 0 <= j < 3 && fcb.ext[j].count > 0 ==> fcb.ext[j].start + fcb.ext[j].count <= vcb.nmAlBlks
      invariant CutSlots(vcb.Map(), fcb.ext, i + 1, blocksToFree, write) == want
    {
      CutOneSlot(vcb.Map(), fcb.ext, i + 1, blocksToFree, write);
      var e := fcb.ext[i];
      if e.count > 0 {
        if blocksToFree >= e.count {
          err := vcb.Free(e.start, e.count, write);
          if err != noErr {
            return err;
          }
          blocksToFree := blocksToFree - e.count;
          fcb.ext := fcb.ext[i := Extent(0, 0)];
        } else {
          var keepBlocks := e.count - blocksToFree;
          err := vcb.Free(e.start + keepBlocks, blocksToFree, write);
          if err != noErr {
            return err;
          }
          fcb.ext := fcb.ext[i := Extent(e.start, U16(keepBlocks))];
          blocksToFree := 0;
        }
        if blocksToFree == 0 {
          return noErr;
        }
      }
      i := i - 1;
    }
    CutNoSlot(vcb.Map(), fcb.ext, blocksToFree, write);
    return noErr;
  }

  /** What the freeing loop does with one slot. */
  lemma CutOneSlot(a: AllocMap, ext: seq<Extent>, n: nat, toFree: nat, write: OSErr)
    requires WellFormed(a) && 0 < n <= |ext|
    requires forall i :: 0 <= i < |ext| && ext[i].count > 0 ==> ext[i].start + ext[i].count <= a.total
    ensures var e := ext[n - 1];
            var cut := CutSlots(a, ext, n, toFree, write);
            if e.count == 0 then cut == CutSlots(a, ext, n - 1, toFree, write)
            else
              var keep := if toFree >= e.count then 0 else e.count - toFree;
              var r := FreeBlocks(a, e.start + keep, e.count - keep, write);
              if r.err != noErr then cut == CutResult(r.after, ext, r.err)
              else if keep > 0 then cut == CutResult(r.after, ext[n - 1 := Extent(e.start, U16(keep))], noErr)
              else if toFree == e.count then cut == CutResult(r.after, ext[n - 1 := Extent(0, 0)], noErr)
              else cut == CutSlots(r.after, ext[n - 1 := Extent(0, 0)], n - 1, toFree - e.count, write)
  {
    hide FreeBlocks, CountClear, U16;
  }

  lemma CutNoSlot(a: AllocMap, ext: seq<Extent>, toFree: nat, write: OSErr)
    requires WellFormed(a)
    requires forall i :: 0 <= i < |ext| && ext[i].count > 0 ==> ext[i].start + ext[i].count <= a.total
    ensures CutSlots(a, ext, 0, toFree, write) == CutResult(a, ext, noErr)
  {
  }
}
