/** Moving a file's mark and setting its logical length (src/FileManager.c). */
module FilePosition {
  import opened Words
  import opened Allocation
  import opened Extents
  import opened GrowthLaws
  import opened VolumeControl
  import opened FileControl
  import opened ExtentLaws
  import opened ExtensionLaws

  const fsFromStart: int := 1
  const fsFromLEOF: int := 2
  const fsFromMark: int := 3

  /**
   * FSSetFPos. The mark goes where it is asked to go exactly if that is within the file; a target past the end of
   * the 32-bit range, which only a mark beyond 2 gigabytes can reach, counts as 2^32 less.
   */
  method SetFPos(fcb: FCB, posMode: int, posOffset: int) returns (err: OSErr)
    requires fcb.eof < TWO_32 && fcb.crPs < TWO_32
    requires -0x8000_0000 <= posOffset < 0x8000_0000
    modifies fcb`crPs
    ensures posMode !in {1, 2, 3} ==> err == paramErr
    ensures posMode in {1, 2, 3} ==>
              var from: int := if posMode == 1 then 0 else if posMode == 2 then fcb.eof else old(fcb.crPs);
              var target := from + posOffset;
              var reached := if target >= TWO_32 && posMode == 3 then target - TWO_32 else target;
              && (err == noErr <==> 0 <= reached <= fcb.eof) && (err == noErr ==> fcb.crPs == reached)
              && (target < 0 ==> err == posErr)
    ensures err != noErr ==> fcb.crPs == old(fcb.crPs)
  {
    hide U32;
    LowBits(-posOffset);
    LowBits(fcb.eof + posOffset);
    LowBits(fcb.crPs + posOffset);
    LowBits(posOffset);
    var newPos: nat;
    if posMode == fsFromStart {
      if posOffset < 0 {
        return posErr;
      }
      newPos := U32(posOffset);
    } else if posMode == fsFromLEOF {
      if posOffset > 0 || U32(-posOffset) > fcb.eof {
        return posErr;
      }
      newPos := U32(fcb.eof + posOffset);
    } else if posMode == fsFromMark {
      if (posOffset < 0 && U32(-posOffset) > fcb.crPs) || (posOffset > 0 && U32(fcb.crPs + posOffset) > fcb.eof) {
        return posErr;
      }
      newPos := U32(fcb.crPs + posOffset);
    } else {
      return paramErr;
    }
    if newPos > fcb.eof {
      return eofErr;
    }
    fcb.crPs := newPos;
    return noErr;
  }

  lemma LowBits(x: int)
    ensures -TWO_32 <= x < 0 ==> U32(x) == x + TWO_32
    ensures 0 <= x < TWO_32 ==> U32(x) == x
    ensures TWO_32 <= x < 2 * TWO_32 ==> U32(x) == x - TWO_32
  {
  }

  /** What FSSetEOF does to the volume and to the file's extents. */
  ghost function Resized(a: AllocMap, f: Fork, g: Geometry, eof: nat, newEof: nat, write: OSErr, insert: OSErr)
    : ExtentResult
    requires WellFormed(a) && SearchInReach(a, f, g) && Resident(f, a.total, g.blk)
  {
    if newEof > eof then Extend(a, f, g, newEof, write, insert)
    else if newEof < eof then Truncate(a, f, g, newEof, write)
    else ExtentResult(a, f, noErr)
  }

  /** FSSetEOF: the extents follow the new length, and the length and the mark follow only if they could. */
  method SetEOF(vcb: VCB, fcb: FCB, eof: nat, write: OSErr, insert: OSErr) returns (err: OSErr)
    requires vcb.Valid() && SearchInReach(vcb.Map(), fcb.AsFork(), vcb.Geo())
    requires Resident(fcb.AsFork(), vcb.nmAlBlks, vcb.alBlkSiz) && insert != noErr
    modifies vcb, vcb.bitmap, fcb`ext, fcb`pLen, fcb`eof, fcb`crPs
    ensures vcb.Valid()
    ensures var x := if fcb.writePerm
                     then Resized(old(vcb.Map()), old(fcb.AsFork()), vcb.Geo(), old(fcb.eof), eof, write, insert)
                     else ExtentResult(old(vcb.Map()), old(fcb.AsFork()), wrPermErr);
            && err == x.err && vcb.Map() == x.after && fcb.AsFork() == x.fork
    ensures fcb.eof == if err == noErr then eof else old(fcb.eof)
    ensures fcb.crPs == if err == noErr && old(fcb.crPs) > eof then eof else old(fcb.crPs)
  {
    hide Extend, Truncate, WellFormed, Resident, HintInReach;
    if !fcb.writePerm {
      return wrPermErr;
    }
    if eof > fcb.eof {
      err := ExtendFile(vcb, fcb, eof, write, insert);
    } else if eof < fcb.eof {
      err := TruncateFile(vcb, fcb, eof, write);
    } else {
      err := noErr;
    }
    if err == noErr {
      fcb.eof := eof;
      if fcb.crPs > eof {
        fcb.crPs := eof;
      }
    }
  }

  /** With successful bitmap writes the volume and the file stay consistent, whatever length is asked for. */
  lemma ResizedKeeps(a: AllocMap, f: Fork, g: Geometry, eof: nat, newEof: nat, insert: OSErr)
    requires Kept(a, f, g) && a.loaded && SearchInReach(a, f, g) && insert != noErr
    ensures var x := Resized(a, f, g, eof, newEof, noErr, insert); Kept(x.after, x.fork, g)
  {
    hide Extend, Truncate, WellFormed, Resident, HintInReach, BlocksFor;
    if newEof > eof {
      ExtendLaw(a, f, g, newEof, insert);
    } else if newEof < eof {
      NothingToCut(a, f, g, newEof);
      if BlocksFor(newEof, g.blk) < BlocksFor(f.pLen, g.blk) {
        TruncateLaw(a, f, g, newEof);
      }
    }
  }

  lemma NothingToCut(a: AllocMap, f: Fork, g: Geometry, newSize: nat)
    requires WellFormed(a) && Resident(f, a.total, g.blk)
    ensures BlocksFor(newSize, g.blk) >= BlocksFor(f.pLen, g.blk) ==>
              Truncate(a, f, g, newSize, noErr) == ExtentResult(a, f, noErr)
  {
  }

  /**
   * The blocks of the file after a change of length that succeeds: those that were there if they are enough; after a
   * cut exactly those the new length needs; after a growth at least those it needs, unless its run is cut off at the
   * end of the volume, and at most a clump more than there were, or what was lacking if that is more.
   */
  lemma ResizedHas(a: AllocMap, f: Fork, g: Geometry, eof: nat, newEof: nat, insert: OSErr)
    requires Kept(a, f, g) && a.loaded && SearchInReach(a, f, g) && insert != noErr
    requires Resized(a, f, g, eof, newEof, noErr, insert).err == noErr
    ensures var need, had := BlocksFor(newEof, g.blk), Total(f.ext);
            var has := Total(Resized(a, f, g, eof, newEof, noErr, insert).fork.ext);
            && (newEof <= eof ==> has == if newEof < eof && need < had then need else had)
            && (newEof > eof && need <= had ==> has == had)
            && (newEof > eof && need > had ==>
                  && Grows(f, g, newEof)
                  && (need <= has <==> ExtendAlloc(a, f, g, newEof, noErr).start + (need - had) <= a.total)
                  && has <= had + if need - had < ClumpBlocks(f, g) then ClumpBlocks(f, g) else need - had)
  {
    hide Extend, Truncate, HintInReach, BlocksFor, ClumpBlocks, Blocks, Resident, WellFormed, Total, InUse;
    BlocksNow(a, f, g);
    if newEof > eof {
      GrowthHas(a, f, g, newEof, insert);
    } else if newEof < eof {
      CutHas(a, f, g, newEof);
    }
  }

  lemma GrowthHas(a: AllocMap, f: Fork, g: Geometry, newSize: nat, insert: OSErr)
    requires Kept(a, f, g) && a.loaded && SearchInReach(a, f, g) && insert != noErr
    requires Extend(a, f, g, newSize, noErr, insert).err == noErr
    ensures var need, had := BlocksFor(newSize, g.blk), Total(f.ext);
            var has := Total(Extend(a, f, g, newSize, noErr, insert).fork.ext);
            if need <= had then has == had
            else
              && Grows(f, g, newSize)
              && (need <= has <==> ExtendAlloc(a, f, g, newSize, noErr).start + (need - had) <= a.total)
              && has <= had + if need - had < ClumpBlocks(f, g) then ClumpBlocks(f, g) else need - had
  {
    hide HintInReach, BlocksFor, ClumpBlocks, Blocks, Resident, WellFormed, Total, InUse, ExtendAlloc, Record;
    BlocksNow(a, f, g);
    var need, had := BlocksFor(newSize, g.blk), Total(f.ext);
    if need > had {
      var lacks := need - had;
      GrownBy(a, f, g, newSize, insert, lacks, if lacks < ClumpBlocks(f, g) then ClumpBlocks(f, g) else lacks);
    }
  }

  lemma CutHas(a: AllocMap, f: Fork, g: Geometry, newSize: nat)
    requires Kept(a, f, g) && a.loaded
    ensures var need, had := BlocksFor(newSize, g.blk), Total(f.ext);
            Total(Truncate(a, f, g, newSize, noErr).fork.ext) == if need < had then need else had
  {
    hide BlocksFor, Truncate, WellFormed, Total, InUse, OnlyCleared, SlotwiseWithout;
    BlocksNow(a, f, g);
    NothingToCut(a, f, g, newSize);
    if BlocksFor(newSize, g.blk) < BlocksFor(f.pLen, g.blk) {
      TruncateLaw(a, f, g, newSize);
      var ext := Truncate(a, f, g, newSize, noErr).fork.ext;
      assert |Blocks(ext)| == Total(ext);
    }
  }
}
