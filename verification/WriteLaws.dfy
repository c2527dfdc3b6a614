/** IO_WriteFork from end to end: what it and a read after it do to the file as it was, and to the other files. */
module WriteLaws {
  import opened Words
  import opened Allocation
  import opened Extents
  import opened ExtentLaws
  import opened GrowthLaws
  import opened VolumeRuns
  import opened VolumeControl
  import opened FileControl
  import opened ByteSlices
  import opened ForkBytes
  import opened ForkIO
  import opened ForkLaws

  // ---- The bytes of the file that is written -----------------------------------------------

  /** The run that the write takes, if it takes one, does not merge into an earlier slot of the file. */
  ghost predicate AppendsRun(a: AllocMap, f: Fork, g: Geometry, outer: nat, offset: nat, count: nat)
    requires Kept(a, f, g) && HintInReach(a, f, g)
  {
    U32(offset + count) > outer && Grows(f, g, U32(offset + count)) ==>
      var run := ExtendAlloc(a, f, g, U32(offset + count), noErr);
      run.count == 0 || !MergesEarly(f.ext, run.start)
  }

  /** The extension before a write leaves the file's bytes where they were. */
  lemma ExtensionKeepsBytes(a: AllocMap, f: Fork, g: Geometry, outer: nat, offset: nat, count: nat,
                            write: OSErr, insert: OSErr, disk: seq<Byte>, base: nat)
    requires Kept(a, f, g) && HintInReach(a, f, g) && insert != noErr
    requires DiskFits(|disk|, base, a.total, g.blk)
    requires write == noErr && a.loaded ==> AppendsRun(a, f, g, outer, offset, count)
    ensures OnDisk(|disk|, g.blk, FileStarts(base, g.blk, f.ext))
    ensures var x := WriteExtend(a, f, g, outer, offset, count, write, insert).fork;
            && OnDisk(|disk|, g.blk, FileStarts(base, g.blk, x.ext))
            && Flat(disk, base, g.blk, f.ext) <= Flat(disk, base, g.blk, x.ext)
  {
    hide Extend, ExtendAlloc, Kept, HintInReach, Blocks, FileBytes, FileStarts, Grows;
    KeptOnDisk(a, f, g, |disk|, base);
    if U32(offset + count) > outer {
      if write == noErr && a.loaded {
        GrowthKeepsBytes(a, f, g, U32(offset + count), insert, disk, base);
      } else {
        FailedExtendLaw(a, f, g, U32(offset + count), write, insert);
      }
    }
  }

  lemma KeptOnDisk(a: AllocMap, f: Fork, g: Geometry, size: nat, base: nat)
    requires Kept(a, f, g) && DiskFits(size, base, a.total, g.blk)
    ensures OnDisk(size, g.blk, FileStarts(base, g.blk, f.ext))
  {
    StartsOnDisk(size, base, a.total, g.blk, f.ext);
  }

  /** A file is shorter than 2^32 bytes. */
  lemma FlatIsShort(a: AllocMap, f: Fork, g: Geometry)
    requires Kept(a, f, g)
    ensures Times(Total(f.ext), g.blk) < TWO_32
  {
    hide CountClear, InUse, Packed;
    TimesIs(Total(f.ext), g.blk);
    SizeFits(Total(f.ext), a.total, g.blk);
  }

  /** Every byte that was in the file and is not one of those written is still there. */
  ghost predicate OthersKept(before: seq<Byte>, after: seq<Byte>, offset: nat, actual: nat) {
    |before| <= |after| && forall i :: 0 <= i < |before| && !(offset <= i < offset + actual) ==> after[i] == before[i]
  }

  lemma OthersKeptByWrite(before: seq<Byte>, grown: FileState, after: FileState, offset: nat, data: seq<Byte>,
                          err: OSErr, actual: nat)
    requires before <= grown.flat && Written(grown, after, offset, data, err, actual)
    ensures OthersKept(before, after.flat, offset, actual)
  {
    PartialWriteKeepsRest(grown, after, offset, data, err, actual);
  }

  /** What IO_WriteFork leaves for a read of the same range. */
  ghost predicate Readable(vcb: VCB, fcb: FCB, disk: array<Byte>, offset: nat, data: seq<Byte>)
    reads vcb, fcb, disk
  {
    && Transferable(disk, vcb, fcb)
    && OnDisk(disk.Length, vcb.alBlkSiz, FileStarts(vcb.alBlSt, vcb.alBlkSiz, fcb.ext))
    && var flat := Flat(disk[..], vcb.alBlSt, vcb.alBlkSiz, fcb.ext);
       data != [] ==>
         && offset < fcb.eof
         && var n := ReadRequest(offset, |data|, fcb.eof);
            Reachable(offset, n, |flat|) == |data| && Piece(flat, offset, |data|) == data
  }

  /**
   * IO_WriteFork on the file as it was before the call: every byte that is not written stays, and after a complete
   * transfer the range reads back as the data.
   */
  method WriteInPlace(vcb: VCB, fcb: FCB, disk: array<Byte>, offset: nat, count: nat, src: array<Byte>,
                      write: OSErr, insert: OSErr)
    returns (err: OSErr, actual: nat)
    requires vcb.Valid() && Kept(vcb.Map(), fcb.AsFork(), vcb.Geo())
    requires DiskFits(disk.Length, vcb.alBlSt, vcb.nmAlBlks, vcb.alBlkSiz)
    requires HintInReach(vcb.Map(), fcb.AsFork(), vcb.Geo())
    requires AppendsRun(vcb.Map(), fcb.AsFork(), vcb.Geo(), fcb.outerPLen, offset, count)
    requires insert != noErr && disk != src && count <= src.Length
    requires disk as object != vcb.bitmap && src as object != vcb.bitmap
    requires offset < TWO_32 && count < TWO_32
    modifies vcb, vcb.bitmap, disk, fcb`ext, fcb`pLen, fcb`eof, fcb`outerCrPs
    ensures vcb.Valid() && Kept(vcb.Map(), fcb.AsFork(), vcb.Geo()) && vcb.nmAlBlks == old(vcb.nmAlBlks)
    ensures OnDisk(disk.Length, vcb.alBlkSiz, FileStarts(vcb.alBlSt, vcb.alBlkSiz, old(fcb.ext)))
    ensures OnDisk(disk.Length, vcb.alBlkSiz, FileStarts(vcb.alBlSt, vcb.alBlkSiz, fcb.ext))
    ensures OthersKept(Flat(old(disk[..]), vcb.alBlSt, vcb.alBlkSiz, old(fcb.ext)),
                       Flat(disk[..], vcb.alBlSt, vcb.alBlkSiz, fcb.ext), offset, actual)
    ensures err == noErr && actual == count ==> Readable(vcb, fcb, disk, offset, src[..count])
    ensures Follows(old(fcb.eof), fcb.eof, offset, count, err, actual)
    ensures Follows(old(fcb.outerCrPs), fcb.outerCrPs, offset, count, err, actual)
    ensures WriteTold(fcb.writePerm,
                      GrowthError(old(vcb.Map()), old(fcb.AsFork()), vcb.Geo(), fcb.outerPLen, offset, count,
                                  write, insert),
                      fcb.outerPLen, Flat(disk[..], vcb.alBlSt, vcb.alBlkSiz, fcb.ext), offset, old(src[..count]),
                      err, actual)
  {
    hide GrowthError, WriteTold, Follows, Kept, FileBytes, FileStarts, SameOutside, AppendsRun, HintInReach,
         WriteExtend, Outcome, OthersKept, Readable;
    ghost var a, f, g, bytes, eof, mark := vcb.Map(), fcb.AsFork(), vcb.Geo(), disk[..], fcb.eof, fcb.outerCrPs;
    ghost var base, blk, data := vcb.alBlSt, vcb.alBlkSiz, src[..count];
    KeptHasBlocks(a, f, g);
    KeptOnDisk(a, f, g, disk.Length, base);
    ExtensionKeepsBytes(a, f, g, fcb.outerPLen, offset, count, write, insert, bytes, base);
    err, actual := WriteFork(vcb, fcb, disk, offset, count, src, write, insert);
    ghost var before := Flat(bytes, base, blk, f.ext);
    ghost var grown := FileState(Flat(bytes, base, blk, fcb.ext), eof, mark);
    ghost var after := FileState(Flat(disk[..], base, blk, fcb.ext), fcb.eof, fcb.outerCrPs);
    OutcomeLaw(a, f, g, fcb.writePerm, fcb.outerPLen, write, insert, before, grown, after, offset, data, err, actual);
    ToldByOutcome(a, f, g, fcb.writePerm, fcb.outerPLen, write, insert, grown, after, offset, data, err, actual);
    if err == noErr && actual == count {
      ReadableAfter(vcb, fcb, disk, offset, data, grown);
    }
  }

  lemma KeptHasBlocks(a: AllocMap, f: Fork, g: Geometry)
    requires Kept(a, f, g)
    ensures WellFormed(a) && g.blk > 0
  {
  }

  /**
   * How the logical length, and the mark, follow a write: after a complete transfer to its end, if that is further;
   * they never go back, and nowhere else.
   */
  ghost predicate Follows(before: nat, after: nat, offset: nat, count: nat, err: OSErr, actual: nat) {
    && before <= after && (after == before || after == offset + actual)
    && (err == noErr && actual == count ==> after == if offset + count > before then offset + count else before)
  }

  /** The error of the extension that a write asks for, if it asks for one. */
  ghost function GrowthError(a: AllocMap, f: Fork, g: Geometry, outer: nat, offset: nat, count: nat,
                             write: OSErr, insert: OSErr): OSErr
    requires WellFormed(a) && g.blk > 0 && HintInReach(a, f, g)
  {
    var end := (offset + count) % 0x1_0000_0000;
    if end > outer then Extend(a, f, g, end, write, insert).err else 0
  }

  /**
   * When a write succeeds and how much it moves: nothing without permission; all the file has blocks for, if it did not
   * have to grow or could; and else what lies below the outer length. What is moved is the beginning of the data.
   */
  ghost predicate WriteTold(writePerm: bool, growthError: OSErr, outer: nat, flat: seq<Byte>, offset: nat,
                            data: seq<Byte>, err: OSErr, actual: nat) {
    && (!writePerm ==> err == -61 && actual == 0)
    && (writePerm && growthError == 0 ==> Moves(|flat|, offset, |data|, err, actual))
    && (writePerm && growthError != 0 ==>
          if offset >= outer then err == growthError && actual == 0
          else Moves(|flat|, offset, outer - offset, err, actual))
    && (actual > 0 ==>
          actual <= |data| && offset + actual <= |flat| && flat[offset..offset + actual] == data[..actual])
  }

  lemma ToldByOutcome(a: AllocMap, f: Fork, g: Geometry, writePerm: bool, outer: nat, write: OSErr, insert: OSErr,
                      grown: FileState, after: FileState, offset: nat, data: seq<Byte>, err: OSErr, actual: nat)
    requires WellFormed(a) && g.blk > 0 && HintInReach(a, f, g)
    requires var x := if writePerm then WriteExtend(a, f, g, outer, offset, |data|, write, insert)
                      else ExtentResult(a, f, wrPermErr);
             Outcome(x, writePerm, outer, grown, after, offset, data, err, actual)
    ensures WriteTold(writePerm, GrowthError(a, f, g, outer, offset, |data|, write, insert), outer, after.flat, offset,
                      data, err, actual)
  {
    hide Extend, WellFormed, HintInReach, Written;
    var x := if writePerm then WriteExtend(a, f, g, outer, offset, |data|, write, insert)
             else ExtentResult(a, f, wrPermErr);
    if writePerm && !(x.err != noErr && offset >= outer) {
      var n := if x.err == noErr then |data| else outer - offset;
      ToldByWritten(grown, after, offset, data[..n], err, actual);
      assert data[..n][..actual] == data[..actual];
    }
  }

  lemma ToldByWritten(before: FileState, after: FileState, offset: nat, data: seq<Byte>, err: OSErr, actual: nat)
    requires Written(before, after, offset, data, err, actual)
    ensures |after.flat| == |before.flat| && Moves(|after.flat|, offset, |data|, err, actual) && actual <= |data|
    ensures actual > 0 ==> offset + actual <= |after.flat| && after.flat[offset..offset + actual] == data[..actual]
  {
  }

  /** What IO_WriteFork comes to, told of the file as it was. */
  lemma OutcomeLaw(a: AllocMap, f: Fork, g: Geometry, writePerm: bool, outer: nat, write: OSErr, insert: OSErr,
                   before: seq<Byte>, grown: FileState, after: FileState, offset: nat, data: seq<Byte>,
                   err: OSErr, actual: nat)
    requires WellFormed(a) && g.blk > 0 && HintInReach(a, f, g) && before <= grown.flat
    requires var x := if writePerm then WriteExtend(a, f, g, outer, offset, |data|, write, insert)
                      else ExtentResult(a, f, wrPermErr);
             Outcome(x, writePerm, outer, grown, after, offset, data, err, actual)
    ensures OthersKept(before, after.flat, offset, actual)
    ensures err == noErr && actual == |data| ==> Written(grown, after, offset, data, noErr, |data|)
    ensures Follows(grown.eof, after.eof, offset, |data|, err, actual)
    ensures Follows(grown.mark, after.mark, offset, |data|, err, actual)
  {
    hide Extend, WellFormed, HintInReach, Written, U32;
    var x := if writePerm then WriteExtend(a, f, g, outer, offset, |data|, write, insert)
             else ExtentResult(a, f, wrPermErr);
    if x.err != noErr && (!writePerm || offset >= outer) {
      NothingMoved(before, after.flat, offset);
    } else {
      U32AtMost(offset + |data|);
      var n := if x.err == noErr then |data| else outer - offset;
      OthersKeptByWrite(before, grown, after, offset, data[..n], err, actual);
      AtMostMoved(grown, after, offset, data[..n], err, actual);
      FollowsWritten(grown, after, offset, data[..n], |data|, err, actual);
      assert data[..|data|] == data;
    }
  }

  lemma FollowsWritten(before: FileState, after: FileState, offset: nat, data: seq<Byte>, count: nat, err: OSErr,
                       actual: nat)
    requires Written(before, after, offset, data, err, actual) && |data| <= count
    ensures Follows(before.eof, after.eof, offset, count, err, actual)
    ensures Follows(before.mark, after.mark, offset, count, err, actual)
  {
    hide Overlay;
  }

  lemma AtMostMoved(before: FileState, after: FileState, offset: nat, data: seq<Byte>, err: OSErr, actual: nat)
    requires Written(before, after, offset, data, err, actual)
    ensures actual <= |data|
  {
  }

  lemma NothingMoved(before: seq<Byte>, after: seq<Byte>, offset: nat)
    requires before <= after
    ensures OthersKept(before, after, offset, 0)
  {
  }

  /** After a complete transfer the range reads back as the data. */
  lemma ReadableAfter(vcb: VCB, fcb: FCB, disk: array<Byte>, offset: nat, data: seq<Byte>, grown: FileState)
    requires vcb.Valid() && Kept(vcb.Map(), fcb.AsFork(), vcb.Geo())
    requires DiskFits(disk.Length, vcb.alBlSt, vcb.nmAlBlks, vcb.alBlkSiz)
    requires OnDisk(disk.Length, vcb.alBlkSiz, FileStarts(vcb.alBlSt, vcb.alBlkSiz, fcb.ext))
    requires var flat := Flat(disk[..], vcb.alBlSt, vcb.alBlkSiz, fcb.ext);
             Written(grown, FileState(flat, fcb.eof, fcb.outerCrPs), offset, data, noErr, |data|)
    ensures Readable(vcb, fcb, disk, offset, data)
  {
    hide FileStarts, FileBytes, WellFormed, Packed, Total;
    FlatIsShort(vcb.Map(), fcb.AsFork(), vcb.Geo());
    var after := FileState(Flat(disk[..], vcb.alBlSt, vcb.alBlkSiz, fcb.ext), fcb.eof, fcb.outerCrPs);
    if data != [] {
      ReadAfterWrite(grown, after, offset, data);
    }
  }

  /** IO_WriteFork, and then IO_ReadFork of the same range: what was written completely is what is read. */
  method WriteThenRead(vcb: VCB, fcb: FCB, disk: array<Byte>, offset: nat, count: nat, src: array<Byte>,
                       write: OSErr, insert: OSErr, buffer: array<Byte>)
    returns (err: OSErr, actual: nat, readErr: OSErr, got: nat)
    requires vcb.Valid() && Kept(vcb.Map(), fcb.AsFork(), vcb.Geo())
    requires DiskFits(disk.Length, vcb.alBlSt, vcb.nmAlBlks, vcb.alBlkSiz)
    requires HintInReach(vcb.Map(), fcb.AsFork(), vcb.Geo())
    requires AppendsRun(vcb.Map(), fcb.AsFork(), vcb.Geo(), fcb.outerPLen, offset, count)
    requires insert != noErr && disk != src && count <= src.Length
    requires disk as object != vcb.bitmap && src as object != vcb.bitmap
    requires buffer != disk && buffer as object != vcb.bitmap && count <= buffer.Length
    requires offset < TWO_32 && count < TWO_32
    modifies vcb, vcb.bitmap, disk, buffer, fcb`ext, fcb`pLen, fcb`eof, fcb`outerCrPs
    ensures vcb.Valid() && Kept(vcb.Map(), fcb.AsFork(), vcb.Geo()) && vcb.nmAlBlks == old(vcb.nmAlBlks)
    ensures OnDisk(disk.Length, vcb.alBlkSiz, FileStarts(vcb.alBlSt, vcb.alBlkSiz, old(fcb.ext)))
    ensures OnDisk(disk.Length, vcb.alBlkSiz, FileStarts(vcb.alBlSt, vcb.alBlkSiz, fcb.ext))
    ensures OthersKept(Flat(old(disk[..]), vcb.alBlSt, vcb.alBlkSiz, old(fcb.ext)),
                       Flat(disk[..], vcb.alBlSt, vcb.alBlkSiz, fcb.ext), offset, actual)
    ensures Follows(old(fcb.eof), fcb.eof, offset, count, err, actual)
    ensures err == noErr && actual == count ==>
              buffer[..count] == old(src[..count]) && (count > 0 ==> readErr == noErr && got == count)
  {
    hide Kept, FileBytes, FileStarts, AppendsRun, HintInReach, OthersKept, Transferable, Overlay;
    ghost var data := src[..count];
    err, actual := WriteInPlace(vcb, fcb, disk, offset, count, src, write, insert);
    ghost var before := buffer[..];
    ghost var flat := Flat(disk[..], vcb.alBlSt, vcb.alBlkSiz, fcb.ext);
    KeptTransfers(vcb, fcb, disk);
    readErr, got := ReadFork(vcb, fcb, disk, offset, count, buffer);
    if err == noErr && actual == count && count > 0 {
      OverlaidStart(before, data);
    }
  }

  lemma KeptTransfers(vcb: VCB, fcb: FCB, disk: array<Byte>)
    requires vcb.Valid() && Kept(vcb.Map(), fcb.AsFork(), vcb.Geo())
    requires DiskFits(disk.Length, vcb.alBlSt, vcb.nmAlBlks, vcb.alBlkSiz)
    ensures Transferable(disk, vcb, fcb)
  {
  }

  lemma OverlaidStart(s: seq<Byte>, data: seq<Byte>)
    requires |data| <= |s|
    ensures Overlay(s, 0, data)[..|data|] == data
  {
  }

  // ---- The other files of the volume ---------------------------------------------------------

  /** Whether IO_WriteFork asks for an extension. */
  predicate AsksToGrow(writePerm: bool, outer: nat, offset: nat, count: nat) {
    writePerm && U32(offset + count) > outer
  }

  /** The volume after the extension of file `i`. */
  function Extended(v: Volume, i: nat, x: ExtentResult): Volume
    requires i < |v.files|
  {
    Volume(x.after, v.files[i := x.fork])
  }

  function WriteOps(grows: bool, i: nat, size: nat, insert: OSErr): seq<DiskOp> {
    if grows then [Resize(Grow(i, size, insert)), Store(i)] else [Store(i)]
  }

  function WriteStates(grows: bool, v: Volume, after: Volume, disk: seq<Byte>, written: seq<Byte>): seq<State> {
    if grows then [State(v, disk), State(after, disk), State(after, written)]
    else [State(v, disk), State(after, written)]
  }

  /**
   * A write with a successful bitmap write is the resize it asks for, if any, and then a store in the file's
   * blocks.
   */
  lemma WriteIsSteps(v: Volume, g: Geometry, base: nat, i: nat, grows: bool, size: nat, insert: OSErr, x: ExtentResult,
                     disk: seq<Byte>, written: seq<Byte>)
    requires i < |v.files| && Kept(v.alloc, v.files[i], g) && HintInReach(v.alloc, v.files[i], g) && insert != noErr
    requires if grows then x == Extend(v.alloc, v.files[i], g, size, noErr, insert)
             else x.after == v.alloc && x.fork == v.files[i]
    requires SameOutside(disk, written, g.blk, FileStarts(base, g.blk, x.fork.ext))
    ensures IsDiskRun(WriteStates(grows, v, Extended(v, i, x), disk, written), g, base,
                      WriteOps(grows, i, size, insert))
  {
    hide Extend, SameOutside, FileStarts, HintInReach;
    KeptHasBlocks(v.alloc, v.files[i], g);
  }

  /** What a write leaves of the volume and of the other files, told by what its contract says of the written one. */
  lemma WriteSparesFiles(v: Volume, g: Geometry, base: nat, reserved: set<nat>, i: nat, grows: bool, size: nat,
                         write: OSErr, insert: OSErr, x: ExtentResult, disk: seq<Byte>, written: seq<Byte>, h: nat)
    requires SoundState(State(v, disk), g, base, reserved) && i < |v.files| && h < |v.files| && h != i
    requires HintInReach(v.alloc, v.files[i], g) && insert != noErr && Kept(v.alloc, v.files[i], g)
    requires if grows then x == Extend(v.alloc, v.files[i], g, size, write, insert)
             else x.after == v.alloc && x.fork == v.files[i]
    requires SameOutside(disk, written, g.blk, FileStarts(base, g.blk, x.fork.ext))
    ensures OnDisk(|disk|, g.blk, FileStarts(base, g.blk, v.files[h].ext))
    ensures |written| == |disk| && Flat(written, base, g.blk, v.files[h].ext) == Flat(disk, base, g.blk, v.files[h].ext)
  {
    hide Extend, SameOutside, FileStarts, FileBytes, HintInReach, IsDiskRun, Kept, Sound, WellFormed;
    SameSize(disk, written, g.blk, FileStarts(base, g.blk, x.fork.ext));
    if write == noErr {
      WriteIsSteps(v, g, base, i, grows, size, insert, x, disk, written);
      var ss, ops := WriteStates(grows, v, Extended(v, i, x), disk, written), WriteOps(grows, i, size, insert);
      RunSparesFile(ss, g, base, ops, reserved, h, |ops|);
    } else {
      if grows {
        FailedExtendLaw(v.alloc, v.files[i], g, size, write, insert);
      }
      WriteSparesOthers(v, g, reserved, i, h, base, disk, written);
    }
  }

  /** After a write with a successful bitmap write the volume is sound. */
  lemma WriteKeepsSound(v: Volume, g: Geometry, reserved: set<nat>, i: nat, grows: bool, size: nat, insert: OSErr,
                        x: ExtentResult)
    requires Sound(v, g, reserved) && i < |v.files| && insert != noErr
    requires HintInReach(v.alloc, v.files[i], g) && Kept(v.alloc, v.files[i], g)
    requires if grows then x == Extend(v.alloc, v.files[i], g, size, noErr, insert)
             else x.after == v.alloc && x.fork == v.files[i]
    ensures Sound(Extended(v, i, x), g, reserved)
  {
    hide Extend, HintInReach, Sound;
    KeptHasBlocks(v.alloc, v.files[i], g);
    if grows {
      StepKeepsSound(v, g, reserved, Grow(i, size, insert), Extended(v, i, x));
    } else {
      assert Extended(v, i, x) == v;
    }
  }

  /** The volume the control blocks stand for: file `i` is the one that is open, the others are as in `v`. */
  ghost predicate Stands(vcb: VCB, fcb: FCB, v: Volume, i: nat)
    reads vcb, vcb.bitmap, fcb
  {
    i < |v.files| && v.alloc == vcb.Map() && v.files[i] == fcb.AsFork()
  }

  /**
   * IO_WriteFork on a sound volume of any number of files. With a successful bitmap write it is a run of the steps that
   * every run is made of and leaves the volume sound; in any case no byte of any other file changes.
   */
  method WriteAmongFiles(vcb: VCB, fcb: FCB, disk: array<Byte>, offset: nat, count: nat, src: array<Byte>,
                         write: OSErr, insert: OSErr, ghost v: Volume, ghost i: nat, ghost reserved: set<nat>)
    returns (err: OSErr, actual: nat, ghost after: Volume)
    requires vcb.Valid() && Stands(vcb, fcb, v, i)
    requires SoundState(State(v, disk[..]), vcb.Geo(), vcb.alBlSt, reserved)
    requires SearchInReach(vcb.Map(), fcb.AsFork(), vcb.Geo())
    requires insert != noErr && disk != src && count <= src.Length
    requires disk as object != vcb.bitmap && src as object != vcb.bitmap
    requires offset < TWO_32 && count < TWO_32
    modifies vcb, vcb.bitmap, disk, fcb`ext, fcb`pLen, fcb`eof, fcb`outerCrPs
    ensures vcb.Valid() && Stands(vcb, fcb, after, i) && after.files == v.files[i := fcb.AsFork()]
    ensures write == noErr ==>
              var grows := AsksToGrow(fcb.writePerm, fcb.outerPLen, offset, count);
              && SoundState(State(after, disk[..]), vcb.Geo(), vcb.alBlSt, reserved)
              && IsDiskRun(WriteStates(grows, v, after, old(disk[..]), disk[..]), vcb.Geo(), vcb.alBlSt,
                           WriteOps(grows, i, U32(offset + count), insert))
    ensures forall h :: 0 <= h < |v.files| && h != i ==>
              && OnDisk(disk.Length, vcb.alBlkSiz, FileStarts(vcb.alBlSt, vcb.alBlkSiz, v.files[h].ext))
              && Flat(disk[..], vcb.alBlSt, vcb.alBlkSiz, v.files[h].ext)
                 == Flat(old(disk[..]), vcb.alBlSt, vcb.alBlkSiz, v.files[h].ext)
  {
    hide Extend, SameOutside, FileStarts, FileBytes, HintInReach, IsDiskRun, Kept, Sound, WellFormed, Outcome, U32;
    ghost var g, base, bytes := vcb.Geo(), vcb.alBlSt, disk[..];
    ghost var grows, size := AsksToGrow(fcb.writePerm, fcb.outerPLen, offset, count), U32(offset + count);
    SoundIsKept(v, g, reserved, i);
    err, actual := WriteFork(vcb, fcb, disk, offset, count, src, write, insert);
    ghost var x := ExtentResult(vcb.Map(), fcb.AsFork(),
                                if grows then Extend(v.alloc, v.files[i], g, size, write, insert).err else noErr);
    after := Extended(v, i, x);
    if write == noErr {
      WriteKeepsSound(v, g, reserved, i, grows, size, insert, x);
      WriteIsSteps(v, g, base, i, grows, size, insert, x, bytes, disk[..]);
    }
    forall h | 0 <= h < |v.files| && h != i
      ensures OnDisk(disk.Length, vcb.alBlkSiz, FileStarts(base, vcb.alBlkSiz, v.files[h].ext))
           && Flat(disk[..], base, vcb.alBlkSiz, v.files[h].ext) == Flat(bytes, base, vcb.alBlkSiz, v.files[h].ext)
    {
      WriteSparesFiles(v, g, base, reserved, i, grows, size, write, insert, x, bytes, disk[..], h);
    }
  }
}
