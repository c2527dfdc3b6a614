/** When Ext_Extend succeeds, how many blocks it adds, and where: a clump, or what is needed, or nothing. */
module ExtensionLaws {
  import opened Words
  import opened Arithmetic
  import opened Allocation
  import opened AllocationLaws
  import opened Extents
  import opened ExtentLaws
  import opened GrowthLaws
  import opened SearchHint

  /** A run of `n` clear blocks somewhere on the volume. */
  ghost predicate HasRun(a: AllocMap, n: nat) {
    exists t: nat :: ClearRun(a.bits, a.total, t, n)
  }

  /** The blocks for a size are as many as hold it and no more. */
  lemma BlocksForIs(size: nat, blk: nat, n: nat)
    requires blk > 0 && size + blk <= TWO_32
    ensures n == BlocksFor(size, blk) <==> size <= n * blk < size + blk
  {
    U32Same(size + blk - 1);
    var x := size + blk - 1;
    if n == x / blk {
      assert x == n * blk + x % blk;
    } else if size <= n * blk < size + blk {
      QuotientIs(x, blk, n, x - n * blk);
    }
  }

  /** The first window of a search straddles the end of the volume, so that the grant is cut short. */
  ghost predicate CutShort(a: AllocMap, hint: int, n: nat) {
    hint >= 0 && InReach(a.bits, a.total, hint) && Straddles(a.bits, a.total, hint, n)
  }

  /** One attempt, for as many blocks as are granted at most. */
  lemma OneAttempt(a: AllocMap, hint: nat, n: nat)
    requires WellFormed(a) && a.loaded && 0 < a.total && n > 0
    requires hint < |a.bits| || hint == 0
    ensures var r := AllocBlocks(a, hint, n, n, noErr);
            && (HasRun(a, n) ==> r.err == noErr)
            && (!CutShort(a, EffectiveHint(a, hint), n) ==>
                  if HasRun(a, n) then r.err == noErr && r.count == n else r.err == dskFulErr)
            && (r.err != noErr ==> r.err == dskFulErr && r.after == a)
  {
    hide AllocBlocks, CountClear, SetRun;
    GrantIsFull(a, hint, n, n);
    GrantIsSafe(a, hint, n, n, noErr);
    var r := AllocBlocks(a, hint, n, n, noErr);
    if r.err == noErr && r.count >= n {
      assert ClearRun(a.bits, a.total, r.start, n);
    }
  }

  /** Where the first attempt searches from: the file's end, or for an empty file the allocator's own pointer. */
  ghost function SearchStart(a: AllocMap, f: Fork): int {
    if LastEnd(f.ext) > 0 then LastEnd(f.ext) else a.ptr
  }

  /** The blocks of the file's clump size, or of the volume's if the file has none. */
  ghost function ClumpBlocks(f: Fork, g: Geometry): nat
    requires g.blk > 0
  {
    U32(U32(if f.clump != 0 then f.clump else g.clump) + g.blk - 1) / g.blk
  }

  /** What a growth lacks, and what it asks for first. */
  ghost predicate Asks(f: Fork, g: Geometry, newSize: nat, lacks: nat, n: nat) {
    && g.blk > 0 && lacks > 0
    && Total(f.ext) + lacks == BlocksFor(newSize, g.blk)
    && n == if lacks < ClumpBlocks(f, g) then ClumpBlocks(f, g) else lacks
  }

  lemma AskedFor(a: AllocMap, f: Fork, g: Geometry, newSize: nat, lacks: nat, n: nat)
    requires Kept(a, f, g) && Asks(f, g, newSize, lacks, n)
    ensures Grows(f, g, newSize) && BlocksFor(newSize, g.blk) - BlocksFor(f.pLen, g.blk) == lacks
    ensures Wanted(f, g, newSize) == n
    ensures EffectiveHint(a, ExtendHint(f, g)) == SearchStart(a, f)
  {
    hide CountClear, Blocks, LastEnd, InUse, Total;
    BlocksNow(a, f, g);
    HintIsEnd(a, f, g);
  }

  ghost predicate HasSlot(ext: seq<Extent>, start: nat) {
    exists i :: 0 <= i < |ext| && (ext[i].count == 0 || ext[i].start + ext[i].count == start)
  }

  /**
   * What a growth comes to once its run is found: the file takes it if a slot is free or ends where the run starts, and
   * otherwise the call fails as the overflow tree does.
   */
  lemma SlotDecides(a: AllocMap, f: Fork, g: Geometry, newSize: nat, insert: OSErr)
    requires Kept(a, f, g) && a.loaded && HintInReach(a, f, g) && insert != noErr && Grows(f, g, newSize)
    ensures var r, run := Extend(a, f, g, newSize, noErr, insert), ExtendAlloc(a, f, g, newSize, noErr);
            && r.err == (if run.err != noErr then run.err
                         else if HasSlot(f.ext, run.start) then noErr else insert)
            && (r.err == noErr ==> Total(r.fork.ext) == Total(f.ext) + run.count)
  {
    hide ExtendAlloc, CountClear, SetRun, BlocksFor, Blocks, Run, U32, FreeBlocks, Grown, InUse;
    ExtendLaw(a, f, g, newSize, insert);
    var run := ExtendAlloc(a, f, g, newSize, noErr);
    if run.err == noErr {
      var i := SlotFor(f.ext, run.start, 0);
      assert i < 3 ==> f.ext[i].count == 0 || f.ext[i].start + f.ext[i].count == run.start;
    }
  }

  /** The two attempts of the source: a clump near the file, and only then just what is lacking. */
  lemma TwoAttempts(a: AllocMap, f: Fork, g: Geometry, newSize: nat, lacks: nat, n: nat)
    requires Kept(a, f, g) && a.loaded && HintInReach(a, f, g) && Asks(f, g, newSize, lacks, n) && 0 < a.total
    ensures Grows(f, g, newSize)
    ensures var first, r := AllocBlocks(a, ExtendHint(f, g), n, n, noErr), ExtendAlloc(a, f, g, newSize, noErr);
            r == if first.err == noErr then first else AllocBlocks(a, 0, lacks, lacks, noErr)
  {
    hide AllocBlocks, CountClear, BlocksFor, Wanted, Straddles, Blocks, LastEnd, InUse, Total;
    AskedFor(a, f, g, newSize, lacks, n);
    OneAttempt(a, ExtendHint(f, g), n);
  }

  /**
   * When Ext_Extend succeeds, and how many blocks it adds. It never fails while the blocks that are lacking are to be
   * had in one run. It adds a clump, or what is lacking if that is more, if there is such a run; else what is lacking,
   * if there is such a run; and else it reports a full disk. (A search whose first window straddles the end of the
   * volume grants less: `ExtendReaches`.)
   */
  lemma ExtendAdds(a: AllocMap, f: Fork, g: Geometry, newSize: nat, insert: OSErr, lacks: nat, n: nat)
    requires Kept(a, f, g) && a.loaded && HintInReach(a, f, g) && insert != noErr && Asks(f, g, newSize, lacks, n)
    requires f.ext[2].count == 0 && 0 < a.total
    ensures var r := Extend(a, f, g, newSize, noErr, insert);
            && (HasRun(a, lacks) ==> r.err == noErr)
            && (!CutShort(a, SearchStart(a, f), n) ==>
                  if HasRun(a, n) then r.err == noErr && Total(r.fork.ext) == Total(f.ext) + n
                  else !CutShort(a, a.ptr, lacks) ==>
                         if HasRun(a, lacks) then r.err == noErr && Total(r.fork.ext) == Total(f.ext) + lacks
                         else r.err == dskFulErr)
  {
    hide AllocBlocks, CountClear, BlocksFor, CutShort, Extend, Wanted, HasRun, Blocks, InUse, LastEnd, ExtendAlloc,
         Total;
    AskedFor(a, f, g, newSize, lacks, n);
    SlotDecides(a, f, g, newSize, insert);
    assert f.ext[2].count == 0;
    TwoAttempts(a, f, g, newSize, lacks, n);
    OneAttempt(a, ExtendHint(f, g), n);
    OneAttempt(a, 0, lacks);
  }

  /** A clear run that starts where the search does is the one that is taken. */
  lemma TakenAtStart(a: AllocMap, hint: nat, n: nat)
    requires WellFormed(a) && a.loaded && n > 0 && (hint < |a.bits| || hint == 0)
    requires ClearRun(a.bits, a.total, EffectiveHint(a, hint), n)
    ensures var r := AllocBlocks(a, hint, n, n, noErr);
            r.err == noErr && r.start == EffectiveHint(a, hint) && r.count == n
  {
    hide CountClear, SetRun, RunLen;
    var h := EffectiveHint(a, hint);
    RunIsCounted(a.bits, a.total, h, n);
    forall j | 0 <= j < n
      ensures !a.bits[Visit(a.total, h, j)]
    {
      assert Visit(a.total, h, j) == h + j;
    }
    assert ClearWindow(a.bits, a.total, h, 0, n);
    RecountFull(a.bits, a.total, h, n, n);
  }

  /** The end of the file is the end of its last used slot only: a run from there on goes to that slot, or a new one. */
  lemma EndIsLast(ext: seq<Extent>, start: nat)
    requires |ext| == 3 && Packed(ext) && Disjoint(ext)
    requires if LastEnd(ext) > 0 then start == LastEnd(ext) else ext[0].count == 0
    ensures SlotFor(ext, start, 0) < 3 && !MergesEarly(ext, start)
  {
    hide Packed, LastEnd, Disjoint, SlotFor;
    LastEndIs(ext);
    PackedIs(ext);
    var i := SlotFor(ext, start, 0);
    if i + 1 < 3 && ext[i].count > 0 && ext[i + 1].count > 0 {
      EndsApart(ext, i, i + 1);
      if i == 0 && ext[2].count > 0 {
        EndsApart(ext, 0, 2);
      }
    }
  }

  lemma PackedIs(ext: seq<Extent>)
    requires |ext| == 3 && Packed(ext)
    ensures ext[0].count == 0 ==> ext[1].count == 0
    ensures ext[1].count == 0 ==> ext[2].count == 0
  {
  }

  lemma EndsApart(ext: seq<Extent>, i: nat, j: nat)
    requires i < j < |ext| && Disjoint(ext) && ext[i].count > 0 && ext[j].count > 0
    ensures ext[i].start + ext[i].count != ext[j].start + ext[j].count
  {
    var b := ext[i].start + ext[i].count - 1;
    assert Holds(ext[i], b);
    if ext[i].start + ext[i].count == ext[j].start + ext[j].count {
      assert Holds(ext[j], b);
    }
  }

  /**
   * A growth is contiguous where it can be. If a clump, or what is lacking if that is more, is clear from the file's
   * end on, the file gets exactly these blocks, in this order, after the ones it has; none of its slots need be free.
   */
  lemma ClumpAtEnd(a: AllocMap, f: Fork, g: Geometry, newSize: nat, insert: OSErr, lacks: nat, n: nat)
    requires Kept(a, f, g) && a.loaded && HintInReach(a, f, g) && insert != noErr && Asks(f, g, newSize, lacks, n)
    requires SearchStart(a, f) >= 0 && ClearRun(a.bits, a.total, SearchStart(a, f), n)
    ensures var r := Extend(a, f, g, newSize, noErr, insert);
            && r.err == noErr && |Blocks(r.fork.ext)| == |Blocks(f.ext)| + n
            && Blocks(f.ext) == Blocks(r.fork.ext)[..|Blocks(f.ext)|]
            && forall k :: |Blocks(f.ext)| <= k < |Blocks(f.ext)| + n ==>
                 Blocks(r.fork.ext)[k] == SearchStart(a, f) + (k - |Blocks(f.ext)|)
  {
    hide AllocBlocks, CountClear, BlocksFor, Wanted, Blocks, LastEnd, InUse, Total, SlotFor, Disjoint, MergesEarly,
         SetRun, Grown, FreeBlocks, Run, ClumpBlocks, Extend;
    var start := SearchStart(a, f);
    AskedFor(a, f, g, newSize, lacks, n);
    TakenAtStart(a, ExtendHint(f, g), n);
    KeptParts(a, f, g);
    EndIsLast(f.ext, start);
    ExtendLaw(a, f, g, newSize, insert);
    SlotDecides(a, f, g, newSize, insert);
    assert SlotFor(f.ext, start, 0) < 3;
    RunIs(start, n);
  }

  lemma KeptParts(a: AllocMap, f: Fork, g: Geometry)
    requires Kept(a, f, g)
    ensures |f.ext| == 3 && Packed(f.ext) && Disjoint(f.ext)
    ensures LastEnd(f.ext) == 0 ==> f.ext[0].count == 0
  {
    LastEndIs(f.ext);
  }

  lemma RunIs(start: nat, n: nat)
    ensures |Run(Extent(start, n))| == n && forall k :: 0 <= k < n ==> Run(Extent(start, n))[k] == start + k
  {
  }

  /** The most a growth adds, and the least unless its run is cut off at the end of the volume. */
  lemma GrownBy(a: AllocMap, f: Fork, g: Geometry, newSize: nat, insert: OSErr, lacks: nat, n: nat)
    requires Kept(a, f, g) && a.loaded && HintInReach(a, f, g) && insert != noErr && Asks(f, g, newSize, lacks, n)
    requires Extend(a, f, g, newSize, noErr, insert).err == noErr
    ensures Grows(f, g, newSize)
    ensures var blocks := Total(Extend(a, f, g, newSize, noErr, insert).fork.ext);
            && blocks <= Total(f.ext) + n
            && (BlocksFor(newSize, g.blk) <= blocks
                <==> ExtendAlloc(a, f, g, newSize, noErr).start + lacks <= a.total)
  {
    hide AllocBlocks, CountClear, BlocksFor, Wanted, Blocks, LastEnd, InUse, Total, SetRun, Record, ClumpBlocks;
    AskedFor(a, f, g, newSize, lacks, n);
    ExtendLaw(a, f, g, newSize, insert);
    ExtendReaches(a, f, g, newSize, insert);
  }

  /**
   * Eight blocks of which only the last is clear, a file of one block and a clump of four: the clump is not to be had,
   * and the file gets the one block it lacks.
   */
  lemma SecondAttemptExample(insert: OSErr)
    requires insert != noErr
    ensures var bits := [true, true, true, true, true, true, true, false];
            var a, g := AllocMap(true, bits, 8, 1, 0), Geometry(512, 2048);
            var f := Fork([Extent(0, 1), Extent(0, 0), Extent(0, 0)], 512, 0);
            && Kept(a, f, g) && HintInReach(a, f, g)
            && Extend(a, f, g, 1024, noErr, insert).err == noErr
  {
    hide Extend;
    var bits := [true, true, true, true, true, true, true, false];
    var a, g := AllocMap(true, bits, 8, 1, 0), Geometry(512, 2048);
    var f := Fork([Extent(0, 1), Extent(0, 0), Extent(0, 0)], 512, 0);
    assert bits[..8] == bits;
    OneClear();
    TotalOfThree(f.ext);
    LastEndIs(f.ext);
    assert ClearRun(bits, 8, 7, 1);
    ExtendAdds(a, f, g, 1024, insert, 1, 4);
  }

  lemma OneClear()
    ensures CountClear([true, true, true, true, true, true, true, false]) == 1
  {
    var bits := [true, true, true, true, true, true, true, false];
    NoneClear(bits[..7]);
  }

  lemma {:induction false} NoneClear(bits: seq<bool>)
    requires forall k :: 0 <= k < |bits| ==> bits[k]
    ensures CountClear(bits) == 0
  {
    if bits != [] {
      NoneClear(bits[..|bits| - 1]);
    }
  }
}
