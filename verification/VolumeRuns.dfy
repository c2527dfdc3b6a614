/** Runs of extensions and truncations over all the files of a volume. */
module VolumeRuns {
  import opened Words
  import opened Allocation
  import opened Extents
  import opened ExtentLaws
  import opened GrowthLaws
  import opened Ownership

  datatype Volume = Volume(alloc: AllocMap, files: seq<Fork>)

  function Exts(files: seq<Fork>): (s: seq<seq<Extent>>)
    ensures |s| == |files| && forall f :: 0 <= f < |files| ==> s[f] == files[f].ext
  {
    seq(|files|, f requires 0 <= f < |files| => files[f].ext)
  }

  /**
   * A sound volume: the free-block counter is exact, every physical length is the block size times the
   * file's blocks, and set bits, owned blocks and reserved blocks agree.
   */
  ghost predicate Sound(v: Volume, g: Geometry, reserved: set<nat>) {
    && WellFormed(v.alloc) && v.alloc.loaded
    && (forall f :: 0 <= f < |v.files| ==> Resident(v.files[f], v.alloc.total, g.blk))
    && Conserved(v.alloc.bits, v.alloc.total, Exts(v.files), reserved)
  }

  datatype Op =
    | Grow(file: nat, size: nat, insert: OSErr)
    | Cut(file: nat, size: nat)

  /** One call of Ext_Extend or Ext_Truncate whose bitmap writes succeed. */
  ghost predicate Step(v: Volume, g: Geometry, op: Op, v': Volume) {
    && WellFormed(v.alloc) && g.blk > 0 && op.file < |v.files|
    && var f := v.files[op.file];
       match op
       case Grow(_, size, insert) =>
         && insert != noErr && HintInReach(v.alloc, f, g)
         && var r := Extend(v.alloc, f, g, size, noErr, insert);
            v' == Volume(r.after, v.files[op.file := r.fork])
       case Cut(_, size) =>
         && Resident(f, v.alloc.total, g.blk)
         && var r := Truncate(v.alloc, f, g, size, noErr);
            v' == Volume(r.after, v.files[op.file := r.fork])
  }

  ghost predicate IsRun(vs: seq<Volume>, g: Geometry, ops: seq<Op>) {
    |vs| == |ops| + 1 && forall k :: 0 <= k < |ops| ==> Step(vs[k], g, ops[k], vs[k + 1])
  }

  /** Blocks that belong to files. */
  function FileBlocks(files: seq<Fork>): nat {
    if files == [] then 0 else FileBlocks(files[..|files| - 1]) + Total(files[|files| - 1].ext)
  }

  lemma SoundIsKept(v: Volume, g: Geometry, reserved: set<nat>, f: nat)
    requires Sound(v, g, reserved) && f < |v.files|
    ensures Kept(v.alloc, v.files[f], g)
  {
    var ext := v.files[f].ext;
    var exts := Exts(v.files);
    hide Exts, WellFormed, Resident;
    forall i, b: nat {:trigger Holds(ext[i], b)} | 0 <= i < |ext| && Holds(ext[i], b)
      ensures b < v.alloc.total <= |v.alloc.bits| && v.alloc.bits[b]
    {
      assert Owns(exts, f, i, b);
    }
    forall i, j, b: nat {:trigger Holds(ext[i], b), Holds(ext[j], b)} | 0 <= i < j < |ext| && Holds(ext[i], b)
      ensures !Holds(ext[j], b)
    {
      var slot: nat := j;
      assert Owns(exts, f, i, b);
      assert Owns(exts, f, slot, b) == Holds(ext[j], b);
    }
  }

  lemma {:induction false} FileBlocksUpdate(files: seq<Fork>, f: nat, x: Fork)
    requires f < |files|
    ensures FileBlocks(files[f := x]) + Total(files[f].ext) == FileBlocks(files) + Total(x.ext)
  {
    var n := |files| - 1;
    if f < n {
      assert files[f := x][..n] == files[..n][f := x];
      FileBlocksUpdate(files[..n], f, x);
    } else {
      assert files[f := x][..n] == files[..n];
    }
  }

  /** The other files do not notice a change to the allocator of the same size. */
  lemma OthersResident(v: Volume, g: Geometry, reserved: set<nat>, f: nat, alloc: AllocMap, x: Fork)
    requires Sound(v, g, reserved) && f < |v.files|
    requires alloc.total == v.alloc.total && Resident(x, alloc.total, g.blk)
    ensures var files := v.files[f := x];
            forall h :: 0 <= h < |files| ==> Resident(files[h], alloc.total, g.blk)
    ensures Exts(v.files[f := x]) == Exts(v.files)[f := x.ext]
  {
    hide Resident;
  }

  lemma GrowOwnership(v: Volume, g: Geometry, reserved: set<nat>, op: Op, v': Volume)
    requires Sound(v, g, reserved) && op.Grow? && Step(v, g, op, v')
    ensures Conserved(v'.alloc.bits, v.alloc.total, Exts(v'.files), reserved)
  {
    var f := v.files[op.file];
    var exts := Exts(v.files);
    var r := Extend(v.alloc, f, g, op.size, noErr, op.insert);
    SoundIsKept(v, g, reserved, op.file);
    ExtendLaw(v.alloc, f, g, op.size, op.insert);
    assert Exts(v'.files) == exts[op.file := r.fork.ext];
    hide ExtendAlloc, WellFormed, SetRun, BlocksFor, Blocks, Run, U32, FreeBlocks, Grown, Resident, InUse, Conserved,
         Exts;
    if Grows(f, g, op.size) && r.err == noErr {
      var run := ExtendAlloc(v.alloc, f, g, op.size, noErr);
      var i := SlotFor(f.ext, run.start, 0);
      GrowSlot(v, g, reserved, op.file, i, run.start, run.count);
    } else {
      assert exts[op.file := f.ext] == exts;
    }
  }

  lemma GrowSlot(v: Volume, g: Geometry, reserved: set<nat>, f: nat, i: nat, start: nat, count: nat)
    requires Sound(v, g, reserved) && f < |v.files| && i < 3
    requires var e := v.files[f].ext[i]; e.count == 0 || e.start + e.count == start
    requires start + count <= |v.alloc.bits| && (count > 0 ==> start + count <= v.alloc.total)
    requires forall b :: start <= b < start + count ==> !v.alloc.bits[b]
    ensures var e := v.files[f].ext[i];
            Conserved(SetRun(v.alloc.bits, start, count, true), v.alloc.total,
                      Exts(v.files)[f := v.files[f].ext[i := Grown(e, start, count)]], reserved)
  {
    var e := v.files[f].ext[i];
    GrownHolds(e, start, count, v.alloc.total);
    hide Conserved, Grown, SetRun, CountClear;
    GrowKeeps(v.alloc.bits, v.alloc.total, Exts(v.files), reserved, f, i, Grown(e, start, count), start, count);
  }

  lemma GrowKeepsSound(v: Volume, g: Geometry, reserved: set<nat>, op: Op, v': Volume)
    requires Sound(v, g, reserved) && op.Grow? && Step(v, g, op, v')
    ensures Sound(v', g, reserved) && v'.alloc.total == v.alloc.total
    ensures v'.alloc.free + FileBlocks(v'.files) == v.alloc.free + FileBlocks(v.files)
  {
    GrowOwnership(v, g, reserved, op, v');
    GrowCounts(v, g, reserved, op);
    hide Conserved, Extend, Resident, FileBlocks, CountClear, Exts;
    var f := v.files[op.file];
    var r := Extend(v.alloc, f, g, op.size, noErr, op.insert);
    OthersResident(v, g, reserved, op.file, r.after, r.fork);
    FileBlocksUpdate(v.files, op.file, r.fork);
  }

  /** What an extension takes from the free blocks it adds to the file. */
  lemma GrowCounts(v: Volume, g: Geometry, reserved: set<nat>, op: Op)
    requires Sound(v, g, reserved) && op.Grow? && op.file < |v.files| && op.insert != noErr
    requires g.blk > 0 && HintInReach(v.alloc, v.files[op.file], g)
    ensures var f := v.files[op.file];
            var r := Extend(v.alloc, f, g, op.size, noErr, op.insert);
            && WellFormed(r.after) && r.after.total == v.alloc.total && r.after.loaded
            && Resident(r.fork, v.alloc.total, g.blk)
            && r.after.free + Total(r.fork.ext) == v.alloc.free + Total(f.ext)
  {
    var f := v.files[op.file];
    SoundIsKept(v, g, reserved, op.file);
    ExtendLaw(v.alloc, f, g, op.size, op.insert);
  }

  lemma CutKeepsSound(v: Volume, g: Geometry, reserved: set<nat>, op: Op, v': Volume)
    requires Sound(v, g, reserved) && op.Cut? && Step(v, g, op, v')
    ensures Sound(v', g, reserved) && v'.alloc.total == v.alloc.total
    ensures v'.alloc.free + FileBlocks(v'.files) == v.alloc.free + FileBlocks(v.files)
  {
    var f := v.files[op.file];
    var r := Truncate(v.alloc, f, g, op.size, noErr);
    SoundIsKept(v, g, reserved, op.file);
    hide Conserved, BlocksFor, Blocks, Run, InUse, CountClear, Resident, CutSlots;
    FileBlocksUpdate(v.files, op.file, r.fork);
    if BlocksFor(op.size, g.blk) < BlocksFor(f.pLen, g.blk) {
      TruncateLaw(v.alloc, f, g, op.size);
      OthersResident(v, g, reserved, op.file, r.after, r.fork);
      CutOwnership(v, g, reserved, op.file, r.after, r.fork.ext, Blocks(f.ext)[BlocksFor(op.size, g.blk)..]);
    } else {
      assert v.files[op.file := f] == v.files;
    }
  }

  lemma CutOwnership(v: Volume, g: Geometry, reserved: set<nat>, f: nat, alloc: AllocMap, cut: seq<Extent>,
                     gone: seq<nat>)
    requires Sound(v, g, reserved) && f < |v.files|
    requires OnlyCleared(v.alloc, alloc, gone) && SlotwiseWithout(v.files[f].ext, cut, gone)
    requires forall b: nat :: b in gone ==> b in Blocks(v.files[f].ext)
    ensures Conserved(alloc.bits, v.alloc.total, Exts(v.files)[f := cut], reserved)
  {
    var ext := v.files[f].ext;
    forall b: nat | b in gone
      ensures exists i: nat :: Owns(Exts(v.files), f, i, b)
    {
      BlocksHeld(ext, b);
      var i :| 0 <= i < |ext| && Holds(ext[i], b);
      assert Owns(Exts(v.files), f, i, b);
    }
    hide Conserved, Blocks;
    CutKeeps(v.alloc.bits, alloc.bits, v.alloc.total, Exts(v.files), reserved, f, cut, gone);
  }

  /** Soundness and the sum of free blocks and file blocks survive every step. */
  lemma StepKeepsSound(v: Volume, g: Geometry, reserved: set<nat>, op: Op, v': Volume)
    requires Sound(v, g, reserved) && Step(v, g, op, v')
    ensures Sound(v', g, reserved) && v'.alloc.total == v.alloc.total
    ensures v'.alloc.free + FileBlocks(v'.files) == v.alloc.free + FileBlocks(v.files)
  {
    hide Sound, Step, FileBlocks;
    match op
    case Grow(_, _, _) => GrowKeepsSound(v, g, reserved, op, v');
    case Cut(_, _) => CutKeepsSound(v, g, reserved, op, v');
  }

  /** ... and every run, of any length, over any files. */
  lemma {:induction false} RunKeepsSound(vs: seq<Volume>, g: Geometry, ops: seq<Op>, reserved: set<nat>, k: nat)
    requires IsRun(vs, g, ops) && Sound(vs[0], g, reserved) && k < |vs|
    ensures Sound(vs[k], g, reserved)
    ensures vs[k].alloc.free + FileBlocks(vs[k].files) == vs[0].alloc.free + FileBlocks(vs[0].files)
  {
    hide Sound, Step, FileBlocks;
    if k > 0 {
      RunKeepsSound(vs, g, ops, reserved, k - 1);
      assert Step(vs[k - 1], g, ops[k - 1], vs[k - 1 + 1]);
      StepKeepsSound(vs[k - 1], g, reserved, ops[k - 1], vs[k]);
    }
  }
}
