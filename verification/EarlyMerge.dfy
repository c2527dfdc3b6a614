/** A concrete growth that breaks the order of a file's blocks: a run that joins a slot that is not the last. */
module EarlyMerge {
  import opened Words
  import opened Allocation
  import opened Extents
  import opened ExtentLaws
  import opened GrowthLaws

  /** Five blocks, of which only block 1 is clear. */
  const VOLUME := AllocMap(true, [true, false, true, true, true, false, false, false], 5, 1, 0)
  const GEOMETRY := Geometry(512, 512)

  /** A file of blocks 0, 2 and 3. */
  const FILE := Fork([Extent(0, 1), Extent(2, 2), Extent(0, 0)], 1536, 512)

  lemma OneClearBlock()
    ensures WellFormed(VOLUME)
  {
    var bits := VOLUME.bits[..5];
    assert bits == [true, false, true, true, true];
    assert bits[..4] == [true, false, true, true];
    assert bits[..4][..3] == [true, false, true];
    assert [true, false, true][..2] == [true, false];
    assert [true, false][..1] == [true];
    assert CountClear([true]) == 0;
    assert CountClear([true, false]) == 1;
    assert CountClear([true, false, true]) == 1;
    assert CountClear([true, false, true, true]) == 1;
  }

  lemma ThreeBlocks(e: Extent, f: Extent)
    ensures Total([e, f, Extent(0, 0)]) == e.count + f.count
    ensures Blocks([e, f, Extent(0, 0)]) == Run(e) + Run(f)
  {
    TotalOfThree([e, f, Extent(0, 0)]);
    assert Run(Extent(0, 0)) == [];
  }

  lemma FileBlocks()
    ensures Total(FILE.ext) == 3 && Blocks(FILE.ext) == [0, 2, 3]
    ensures Blocks([Extent(0, 2), Extent(2, 2), Extent(0, 0)]) == [0, 1, 2, 3]
  {
    ThreeBlocks(Extent(0, 1), Extent(2, 2));
    ThreeBlocks(Extent(0, 2), Extent(2, 2));
    assert Run(Extent(0, 1)) == [0] && Run(Extent(2, 2)) == [2, 3] && Run(Extent(0, 2)) == [0, 1];
  }

  lemma FileIsKept()
    ensures Kept(VOLUME, FILE, GEOMETRY)
  {
    hide CountClear, Blocks, Total;
    OneClearBlock();
    FileBlocks();
  }

  /** From the end of the file the search looks at blocks 4, 0 and 1, and takes block 1. */
  lemma GrantsBlockOne()
    ensures WellFormed(VOLUME)
    ensures var r := AllocBlocks(VOLUME, 4, 1, 1, noErr); r.err == noErr && r.start == 1 && r.count == 1
  {
    OneClearBlock();
    hide CountClear;
    var bits := VOLUME.bits;
    assert Visit(5, 4, 0) == 4 && Visit(5, 4, 1) == 0 && Visit(5, 4, 2) == 1;
    assert ClearWindow(bits, 5, 4, 2, 1);
    assert !ClearWindow(bits, 5, 4, 0, 1) by { assert bits[Visit(5, 4, 0)]; }
    assert !ClearWindow(bits, 5, 4, 1, 1) by { assert bits[Visit(5, 4, 1)]; }
    assert FirstWindow(bits, 5, 4, 1, 0) == 2;
    assert RunLen(bits, 5, 2, 0) == 0;
    assert RunLen(bits, 5, 1, 1) == 1;
  }

  lemma WantsOneBlock()
    ensures BlocksFor(FILE.pLen, 512) == 3 && BlocksFor(2048, 512) == 4
    ensures Wanted(FILE, GEOMETRY, 2048) == 1 && ExtendHint(FILE, GEOMETRY) == 4
  {
    assert FILE.ext[..2] == [Extent(0, 1), Extent(2, 2)];
    assert LastEnd([Extent(0, 1), Extent(2, 2)]) == 4;
  }

  /** Growing the file to four blocks puts block 1 second in it: what was file block 1 becomes file block 2. */
  lemma OrderIsLost(insert: OSErr)
    ensures Kept(VOLUME, FILE, GEOMETRY) && HintInReach(VOLUME, FILE, GEOMETRY)
    ensures var r := Extend(VOLUME, FILE, GEOMETRY, 2048, noErr, insert);
            r.err == noErr && Blocks(FILE.ext) == [0, 2, 3] && Blocks(r.fork.ext) == [0, 1, 2, 3]
  {
    hide CountClear, AllocBlocks, Blocks, Kept, BlocksFor, Wanted, ExtendHint, SlotFor;
    FileIsKept();
    FileBlocks();
    WantsOneBlock();
    GrantsBlockOne();
    FirstSlotTakesIt();
  }

  lemma FirstSlotTakesIt()
    ensures SlotFor(FILE.ext, 1, 0) == 0
    ensures FILE.ext[0 := Grown(FILE.ext[0], 1, 1)] == [Extent(0, 2), Extent(2, 2), Extent(0, 0)]
  {
  }
}
