/** What reading and writing through the block map promise about files as flat byte sequences. */
module ForkLaws {
  import opened Words
  import opened Arithmetic
  import opened Allocation
  import opened Extents
  import opened ExtentLaws
  import opened GrowthLaws
  import opened Ownership
  import opened VolumeRuns
  import opened ByteSlices
  import opened ForkBytes
  import opened ForkIO

  /**
   * Reading back what was written. A complete write makes a read of the same range move exactly the data,
   * and every other byte of the file is what it was.
   */
  lemma ReadAfterWrite(before: FileState, after: FileState, offset: nat, data: seq<Byte>)
    requires Written(before, after, offset, data, noErr, |data|)
    requires |data| > 0 && |before.flat| < TWO_32
    ensures offset < after.eof
    ensures var n := ReadRequest(offset, |data|, after.eof);
            && Reachable(offset, n, |after.flat|) == |data|
            && Piece(after.flat, offset, |data|) == data
    ensures |after.flat| == |before.flat|
    ensures forall i :: 0 <= i < |before.flat| && !(offset <= i < offset + |data|) ==> after.flat[i] == before.flat[i]
  {
    assert data[..|data|] == data;
  }

  /** A write that runs out of blocks still leaves the bytes it moved, and all the others, in place. */
  lemma PartialWriteKeepsRest(before: FileState, after: FileState, offset: nat, data: seq<Byte>, err: OSErr,
                              actual: nat)
    requires Written(before, after, offset, data, err, actual)
    ensures |after.flat| == |before.flat|
    ensures actual <= |data|
    ensures Piece(after.flat, offset, actual) == if actual > 0 then data[..actual] else []
    ensures forall i :: 0 <= i < |before.flat| && !(offset <= i < offset + actual) ==> after.flat[i] == before.flat[i]
    ensures actual < |data| ==> after.eof == before.eof && offset + |data| > |before.flat|
  {
  }

  /** The read is held back at the end of the file exactly if the 32-bit end of the request does not wrap below it. */
  lemma ReadStopsAtEnd(offset: nat, count: nat, eof: nat)
    requires offset < eof < TWO_32 && count < TWO_32
    ensures offset + ReadRequest(offset, count, eof) <= eof
            <==> !(offset + count >= TWO_32 && offset + count - TWO_32 <= eof)
  {
  }

  /** Ten bytes into a file of a hundred, a request for 2^32 - 1 bytes is not held back at all. */
  lemma ReadPastEndExample()
    ensures ReadRequest(10, 0xFFFF_FFFF, 100) == 0xFFFF_FFFF
  {
  }

  // ---- Growing and cutting keep bytes ------------------------------------------------------

  /** Taking a run that does not merge into an earlier slot leaves every byte of the file where it was. */
  lemma GrowthKeepsBytes(a: AllocMap, f: Fork, g: Geometry, newSize: nat, insert: OSErr, disk: seq<Byte>, base: nat)
    requires Kept(a, f, g) && a.loaded && HintInReach(a, f, g) && insert != noErr
    requires DiskFits(|disk|, base, a.total, g.blk)
    requires Grows(f, g, newSize) ==>
               var run := ExtendAlloc(a, f, g, newSize, noErr); run.count == 0 || !MergesEarly(f.ext, run.start)
    ensures OnDisk(|disk|, g.blk, FileStarts(base, g.blk, f.ext))
    ensures var x := Extend(a, f, g, newSize, noErr, insert).fork;
            && OnDisk(|disk|, g.blk, FileStarts(base, g.blk, x.ext))
            && Flat(disk, base, g.blk, f.ext) <= Flat(disk, base, g.blk, x.ext)
  {
    hide Blocks, Extend, ExtendAlloc, SetRun, CountClear, BlocksFor, InUse, FileBytes;
    ExtendLaw(a, f, g, newSize, insert);
    var x := Extend(a, f, g, newSize, noErr, insert).fork;
    StartsOnDisk(|disk|, base, a.total, g.blk, f.ext);
    StartsOnDisk(|disk|, base, a.total, g.blk, x.ext);
    if Blocks(x.ext) != Blocks(f.ext) {
      var run := ExtendAlloc(a, f, g, newSize, noErr);
      var more := Run(Extent(run.start, run.count));
      LongerFile(disk, base, g.blk, Blocks(f.ext), more);
    } else {
      assert FileStarts(base, g.blk, f.ext) == FileStarts(base, g.blk, x.ext);
    }
  }

  /** A run that merges early moves bytes: on some disk the file no longer starts with the bytes it had. */
  lemma EarlyMergeMovesBytes(a: AllocMap, f: Fork, g: Geometry, newSize: nat, insert: OSErr, size: nat, base: nat)
    returns (disk: seq<Byte>)
    requires Kept(a, f, g) && a.loaded && HintInReach(a, f, g) && insert != noErr
    requires DiskFits(size, base, a.total, g.blk) && Grows(f, g, newSize)
    requires Extend(a, f, g, newSize, noErr, insert).err == noErr
    requires var run := ExtendAlloc(a, f, g, newSize, noErr); run.count > 0 && MergesEarly(f.ext, run.start)
    ensures |disk| == size && OnDisk(size, g.blk, FileStarts(base, g.blk, f.ext))
    ensures var x := Extend(a, f, g, newSize, noErr, insert).fork;
            && OnDisk(size, g.blk, FileStarts(base, g.blk, x.ext))
            && !(Flat(disk, base, g.blk, f.ext) <= Flat(disk, base, g.blk, x.ext))
  {
    hide Blocks, Extend, ExtendAlloc, SetRun, CountClear, BlocksFor, InUse, FileBytes, FileStarts, Times, Run, Total;
    ExtendLaw(a, f, g, newSize, insert);
    var x := Extend(a, f, g, newSize, noErr, insert).fork;
    StartsOnDisk(size, base, a.total, g.blk, f.ext);
    StartsOnDisk(size, base, a.total, g.blk, x.ext);
    var k := MovedBlock(a, f, g, newSize, insert);
    disk := OneMarked(size, (base + Blocks(f.ext)[k]) * g.blk);
    FlatPart(disk, base, g.blk, f.ext, k, 0, 1);
    FlatPart(disk, base, g.blk, x.ext, k, 0, 1);
    DifferentBlocksApart(base, Blocks(f.ext)[k], Blocks(x.ext)[k], g.blk);
    DifferentAt(Flat(disk, base, g.blk, f.ext), Flat(disk, base, g.blk, x.ext), Times(k, g.blk),
                disk, (base + Blocks(f.ext)[k]) * g.blk, (base + Blocks(x.ext)[k]) * g.blk);
  }

  /** After an early merge some block of the file is another one. */
  lemma MovedBlock(a: AllocMap, f: Fork, g: Geometry, newSize: nat, insert: OSErr) returns (k: nat)
    requires Kept(a, f, g) && a.loaded && HintInReach(a, f, g) && insert != noErr && Grows(f, g, newSize)
    requires Extend(a, f, g, newSize, noErr, insert).err == noErr
    requires var run := ExtendAlloc(a, f, g, newSize, noErr); run.count > 0 && MergesEarly(f.ext, run.start)
    ensures var x := Extend(a, f, g, newSize, noErr, insert).fork;
            k < Total(f.ext) && k < Total(x.ext) && Blocks(x.ext)[k] != Blocks(f.ext)[k]
  {
    hide Blocks, ExtendAlloc, CountClear, BlocksFor, Grown, SetRun, Total;
    ExtendIsFresh(a, f, g, newSize);
    var run := ExtendAlloc(a, f, g, newSize, noErr);
    k := MergedBlock(f.ext, run.start, run.count, a.total);
    assert Blocks(f.ext)[k] in Blocks(f.ext);
    BlocksHeld(f.ext, Blocks(f.ext)[k]);
    assert !a.bits[run.start];
  }

  function OneMarked(size: nat, at: nat): (s: seq<Byte>)
    ensures |s| == size
  {
    seq(size, n => if n == at then 1 else 0)
  }

  lemma DifferentAt(s: seq<Byte>, t: seq<Byte>, p: nat, disk: seq<Byte>, at: nat, other: nat)
    requires p + 1 <= |s| && p + 1 <= |t| && at + 1 <= |disk| && other + 1 <= |disk| && at != other
    requires disk == OneMarked(|disk|, at)
    requires s[p..p + 1] == disk[at..at + 1] && t[p..p + 1] == disk[other..other + 1]
    ensures !(s <= t)
  {
    assert s[p] == s[p..p + 1][0] == disk[at] == 1;
    assert t[p] == t[p..p + 1][0] == disk[other] == 0;
  }

  lemma LongerFile(disk: seq<Byte>, base: nat, blk: nat, blocks: seq<nat>, more: seq<nat>)
    requires OnDisk(|disk|, blk, Starts(base, blk, blocks))
    requires OnDisk(|disk|, blk, Starts(base, blk, blocks + more))
    ensures FileBytes(disk, blk, Starts(base, blk, blocks)) <= FileBytes(disk, blk, Starts(base, blk, blocks + more))
  {
    hide FileBytes;
    assert Starts(base, blk, blocks + more) == Starts(base, blk, blocks) + Starts(base, blk, more);
    AppendedBlocks(disk, blk, Starts(base, blk, blocks), Starts(base, blk, more));
  }

  /** Cutting a file keeps exactly the bytes of its needed blocks. */
  lemma TruncationKeepsBytes(a: AllocMap, f: Fork, g: Geometry, newSize: nat, disk: seq<Byte>, base: nat)
    requires Kept(a, f, g) && a.loaded && DiskFits(|disk|, base, a.total, g.blk)
    requires BlocksFor(newSize, g.blk) < BlocksFor(f.pLen, g.blk)
    ensures OnDisk(|disk|, g.blk, FileStarts(base, g.blk, f.ext))
    ensures var x := Truncate(a, f, g, newSize, noErr).fork;
            && OnDisk(|disk|, g.blk, FileStarts(base, g.blk, x.ext))
            && Flat(disk, base, g.blk, x.ext) <= Flat(disk, base, g.blk, f.ext)
            && |Flat(disk, base, g.blk, x.ext)| == BlocksFor(newSize, g.blk) * g.blk
  {
    hide Blocks, Truncate, OnlyCleared, SlotwiseWithout, CountClear, BlocksFor, InUse, FileBytes, Times;
    var need := BlocksFor(newSize, g.blk);
    TruncateLaw(a, f, g, newSize);
    var x := Truncate(a, f, g, newSize, noErr).fork;
    StartsOnDisk(|disk|, base, a.total, g.blk, f.ext);
    StartsOnDisk(|disk|, base, a.total, g.blk, x.ext);
    assert Blocks(f.ext) == Blocks(x.ext) + Blocks(f.ext)[need..];
    LongerFile(disk, base, g.blk, Blocks(x.ext), Blocks(f.ext)[need..]);
    TimesIs(need, g.blk);
  }

  // ---- The other files ---------------------------------------------------------------------

  /** Two files of a sound volume have no block in common. */
  lemma FilesApart(v: Volume, g: Geometry, reserved: set<nat>, f: nat, h: nat, base: nat)
    requires Sound(v, g, reserved) && f < |v.files| && h < |v.files| && f != h
    ensures var mine, theirs := FileStarts(base, g.blk, v.files[f].ext), FileStarts(base, g.blk, v.files[h].ext);
            forall k :: 0 <= k < |theirs| ==> ApartFrom(g.blk, mine, theirs[k])
  {
    hide Blocks, Apart;
    var x, y := v.files[f].ext, v.files[h].ext;
    var mine, theirs := FileStarts(base, g.blk, x), FileStarts(base, g.blk, y);
    forall k, j | 0 <= k < |theirs| && 0 <= j < |mine|
      ensures Apart(g.blk, mine[j], theirs[k])
    {
      var b, c := Blocks(x)[j], Blocks(y)[k];
      BlockOwned(v, f, b);
      BlockOwned(v, h, c);
      DifferentBlocksApart(base, b, c, g.blk);
    }
  }

  lemma BlockOwned(v: Volume, f: nat, b: nat)
    requires f < |v.files| && b in Blocks(v.files[f].ext)
    ensures exists i: nat :: Owns(Exts(v.files), f, i, b)
  {
    BlocksHeld(v.files[f].ext, b);
    var i :| 0 <= i < |v.files[f].ext| && Holds(v.files[f].ext[i], b);
    assert Owns(Exts(v.files), f, i, b);
  }

  /** A write to one file changes no byte of any other file of the volume. */
  lemma WriteSparesOthers(v: Volume, g: Geometry, reserved: set<nat>, f: nat, h: nat, base: nat,
                          before: seq<Byte>, after: seq<Byte>)
    requires Sound(v, g, reserved) && f < |v.files| && h < |v.files| && f != h
    requires DiskFits(|before|, base, v.alloc.total, g.blk)
    requires SameOutside(before, after, g.blk, FileStarts(base, g.blk, v.files[f].ext))
    ensures OnDisk(|before|, g.blk, FileStarts(base, g.blk, v.files[h].ext))
    ensures Flat(after, base, g.blk, v.files[h].ext) == Flat(before, base, g.blk, v.files[h].ext)
  {
    hide FileBytes, SameOutside, Sound, Blocks;
    assert |after| == |before| by { SameSize(before, after, g.blk, FileStarts(base, g.blk, v.files[f].ext)); }
    SoundIsKept(v, g, reserved, h);
    StartsOnDisk(|before|, base, v.alloc.total, g.blk, v.files[h].ext);
    FilesApart(v, g, reserved, f, h, base);
    OtherFileSafe(before, after, g.blk, FileStarts(base, g.blk, v.files[f].ext),
                  FileStarts(base, g.blk, v.files[h].ext));
  }

  lemma SameSize(before: seq<Byte>, after: seq<Byte>, blk: nat, starts: seq<nat>)
    requires SameOutside(before, after, blk, starts)
    ensures |after| == |before|
  {
  }

  datatype State = State(volume: Volume, disk: seq<Byte>)

  /**
   * A step on the volume with its disk: resizing a file, or storing bytes in blocks of a file. A write is one of
   * each.
   */
  datatype DiskOp =
    | Resize(op: Op)
    | Store(file: nat)
  {
    function Target(): nat {
      match this
      case Resize(op) => op.file
      case Store(f) => f
    }
  }

  ghost predicate DiskStep(s: State, g: Geometry, base: nat, op: DiskOp, s': State) {
    match op
    case Resize(o) => Step(s.volume, g, o, s'.volume) && s'.disk == s.disk
    case Store(f) =>
      && s'.volume == s.volume && f < |s.volume.files|
      && SameOutside(s.disk, s'.disk, g.blk, FileStarts(base, g.blk, s.volume.files[f].ext))
  }

  ghost predicate IsDiskRun(ss: seq<State>, g: Geometry, base: nat, ops: seq<DiskOp>) {
    |ss| == |ops| + 1 && forall k :: 0 <= k < |ops| ==> DiskStep(ss[k], g, base, ops[k], ss[k + 1])
  }

  /** The volume is sound and the disk holds it. */
  ghost predicate SoundState(s: State, g: Geometry, base: nat, reserved: set<nat>) {
    Sound(s.volume, g, reserved) && DiskFits(|s.disk|, base, s.volume.alloc.total, g.blk)
  }

  ghost predicate SameFile(s: State, s': State, g: Geometry, base: nat, h: nat)
    requires h < |s.volume.files| && h < |s'.volume.files|
    requires OnDisk(|s.disk|, g.blk, FileStarts(base, g.blk, s.volume.files[h].ext))
    requires OnDisk(|s'.disk|, g.blk, FileStarts(base, g.blk, s'.volume.files[h].ext))
  {
    && s'.volume.files[h] == s.volume.files[h]
    && Flat(s'.disk, base, g.blk, s'.volume.files[h].ext) == Flat(s.disk, base, g.blk, s.volume.files[h].ext)
  }

  lemma SoundOnDisk(s: State, g: Geometry, base: nat, reserved: set<nat>, h: nat)
    requires SoundState(s, g, base, reserved) && h < |s.volume.files|
    ensures OnDisk(|s.disk|, g.blk, FileStarts(base, g.blk, s.volume.files[h].ext))
  {
    hide Blocks;
    SoundIsKept(s.volume, g, reserved, h);
    StartsOnDisk(|s.disk|, base, s.volume.alloc.total, g.blk, s.volume.files[h].ext);
  }

  lemma StepSparesFile(s: State, g: Geometry, base: nat, op: DiskOp, s': State, reserved: set<nat>, h: nat)
    requires SoundState(s, g, base, reserved) && DiskStep(s, g, base, op, s')
    requires h < |s.volume.files| && op.Target() != h
    ensures SoundState(s', g, base, reserved) && |s'.volume.files| == |s.volume.files|
    ensures OnDisk(|s.disk|, g.blk, FileStarts(base, g.blk, s.volume.files[h].ext))
    ensures OnDisk(|s'.disk|, g.blk, FileStarts(base, g.blk, s'.volume.files[h].ext))
    ensures SameFile(s, s', g, base, h)
  {
    hide Sound, FileBytes, Blocks, SameOutside, Extend, Truncate, WellFormed;
    match op
    case Resize(o) =>
      StepKeepsSound(s.volume, g, reserved, o, s'.volume);
      SoundOnDisk(s, g, base, reserved, h);
    case Store(f) =>
      WriteSparesOthers(s.volume, g, reserved, f, h, base, s.disk, s'.disk);
      SameSize(s.disk, s'.disk, g.blk, FileStarts(base, g.blk, s.volume.files[f].ext));
  }

  /** Over every run of resizes and stores, a file that is not their target keeps its blocks and its bytes. */
  lemma {:induction false} RunSparesFile(ss: seq<State>, g: Geometry, base: nat, ops: seq<DiskOp>,
                                         reserved: set<nat>, h: nat, k: nat)
    requires IsDiskRun(ss, g, base, ops) && SoundState(ss[0], g, base, reserved)
    requires k < |ss| && h < |ss[0].volume.files|
    requires forall i :: 0 <= i < k ==> ops[i].Target() != h
    ensures SoundState(ss[k], g, base, reserved) && |ss[k].volume.files| == |ss[0].volume.files|
    ensures OnDisk(|ss[0].disk|, g.blk, FileStarts(base, g.blk, ss[0].volume.files[h].ext))
    ensures OnDisk(|ss[k].disk|, g.blk, FileStarts(base, g.blk, ss[k].volume.files[h].ext))
    ensures SameFile(ss[0], ss[k], g, base, h)
  {
    hide SoundState, DiskStep, FileStarts, FileBytes;
    if k == 0 {
      SoundOnDisk(ss[0], g, base, reserved, h);
    } else {
      RunSparesFile(ss, g, base, ops, reserved, h, k - 1);
      assert DiskStep(ss[k - 1], g, base, ops[k - 1], ss[k - 1 + 1]);
      StepSparesFile(ss[k - 1], g, base, ops[k - 1], ss[k], reserved, h);
    }
  }

  // ---- When a write is complete ------------------------------------------------------------

  /**
   * After the extension IO_WriteFork asks for, the whole range has blocks exactly if it lay within the
   * physical length already or the run found starts early enough before the end of the volume.
   */
  lemma WholeRangeMapped(a: AllocMap, f: Fork, g: Geometry, outer: nat, offset: nat, count: nat, insert: OSErr)
    requires Kept(a, f, g) && a.loaded && HintInReach(a, f, g) && insert != noErr
    requires outer <= f.pLen && offset + count + g.blk <= TWO_32 && count > 0
    requires WriteExtend(a, f, g, outer, offset, count, noErr, insert).err == noErr
    ensures var x := WriteExtend(a, f, g, outer, offset, count, noErr, insert).fork;
            offset + count <= Times(Total(x.ext), g.blk)
            <==> offset + count <= f.pLen
                 || (Grows(f, g, offset + count)
                     && var run := ExtendAlloc(a, f, g, offset + count, noErr);
                        var missing := BlocksFor(offset + count, g.blk) - BlocksFor(f.pLen, g.blk);
                        run.start + missing <= a.total)
  {
    hide Blocks, Extend, ExtendAlloc, SetRun, CountClear, InUse, BlocksFor;
    var size := offset + count;
    TimesIs(Total(f.ext), g.blk);
    BlocksNow(a, f, g);
    NeedIs(size, g.blk, Total(f.ext));
    if size > f.pLen {
      ExtendReaches(a, f, g, size, insert);
      var x := Extend(a, f, g, size, noErr, insert).fork;
      NeedIs(size, g.blk, Total(x.ext));
      TimesIs(Total(x.ext), g.blk);
    } else if U32(size) > outer {
      ExtendLaw(a, f, g, size, insert);
    }
  }

  /** `n` blocks hold `size` bytes exactly if at least the blocks needed. */
  lemma NeedIs(size: nat, blk: nat, n: nat)
    requires blk > 0 && size + blk <= TWO_32
    ensures BlocksFor(size, blk) <= n <==> size <= n * blk
  {
    var q := (size + blk - 1) / blk;
    var r := (size + blk - 1) % blk;
    assert size + blk - 1 == q * blk + r;
    if q <= n {
      MulLe(q, n, blk);
    } else {
      MulLe(n + 1, q, blk);
      assert (n + 1) * blk == n * blk + blk;
    }
  }
}
