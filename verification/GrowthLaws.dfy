/** The laws of Ext_Extend and Ext_Truncate on one file. */
module GrowthLaws {
  import opened Words
  import opened Arithmetic
  import opened Allocation
  import opened AllocationLaws
  import opened Extents
  import opened ExtentLaws

  /** A file as its volume knows it: resident, and its blocks are its own. */
  ghost predicate Kept(a: AllocMap, f: Fork, g: Geometry) {
    WellFormed(a) && Resident(f, a.total, g.blk) && InUse(a, f.ext)
  }

  lemma BlocksNow(a: AllocMap, f: Fork, g: Geometry)
    requires Kept(a, f, g)
    ensures BlocksFor(f.pLen, g.blk) == Total(f.ext)
  {
    hide BlocksFor, InUse, CountClear, Packed;
    MulLe(Total(f.ext), a.total, g.blk);
    RoundUpExact(Total(f.ext), g.blk);
  }

  lemma SizeFits(n: nat, total: nat, blk: nat)
    requires n <= total && total * blk + blk <= TWO_32 && blk > 0
    ensures U32(n * blk) == n * blk
  {
    assert n * blk <= total * blk;
  }

  lemma TotalOfThree(ext: seq<Extent>)
    requires |ext| == 3
    ensures Total(ext) == ext[0].count + ext[1].count + ext[2].count
    ensures Blocks(ext) == Run(ext[0]) + Run(ext[1]) + Run(ext[2])
  {
    assert ext[..2][..1] == ext[..1];
    assert ext[..1][..0] == [];
    assert Blocks(ext[..1]) == Run(ext[0]);
    assert Blocks(ext[..2]) == Run(ext[0]) + Run(ext[1]);
  }

  /** Two disjoint non-empty runs lie one after the other. */
  lemma OneBeforeTheOther(ext: seq<Extent>, i: nat, j: nat)
    requires i < j < |ext| && Disjoint(ext)
    requires ext[i].count > 0 && ext[j].count > 0
    ensures ext[i].start + ext[i].count <= ext[j].start || ext[j].start + ext[j].count <= ext[i].start
  {
    var b := if ext[i].start > ext[j].start then ext[i].start else ext[j].start;
    assert !(Holds(ext[i], b) && Holds(ext[j], b));
  }

  /** A file cannot own more blocks than the volume has. */
  lemma FitsVolume(ext: seq<Extent>, total: nat)
    requires |ext| == 3 && Disjoint(ext)
    requires forall i :: 0 <= i < 3 && ext[i].count > 0 ==> ext[i].start + ext[i].count <= total
    ensures Total(ext) <= total
  {
    TotalOfThree(ext);
    if ext[0].count > 0 && ext[1].count > 0 { OneBeforeTheOther(ext, 0, 1); }
    if ext[0].count > 0 && ext[2].count > 0 { OneBeforeTheOther(ext, 0, 2); }
    if ext[1].count > 0 && ext[2].count > 0 { OneBeforeTheOther(ext, 1, 2); }
  }

  // ---- Truncation --------------------------------------------------------------------------

  /**
   * Ext_Truncate keeps exactly the needed prefix of the file's blocks, frees exactly the rest, and leaves
   * the physical length equal to the blocks that remain.
   */
  lemma TruncateLaw(a: AllocMap, f: Fork, g: Geometry, newSize: nat)
    requires Kept(a, f, g) && a.loaded
    requires BlocksFor(newSize, g.blk) < BlocksFor(f.pLen, g.blk)
    ensures var need := BlocksFor(newSize, g.blk);
            var r := Truncate(a, f, g, newSize, noErr);
            && need < |Blocks(f.ext)|
            && r.err == noErr && r.after.total == a.total
            && Blocks(r.fork.ext) == Blocks(f.ext)[..need]
            && OnlyCleared(a, r.after, Blocks(f.ext)[need..])
            && SlotwiseWithout(f.ext, r.fork.ext, Blocks(f.ext)[need..])
            && Kept(r.after, r.fork, g)
  {
    hide OnlyCleared, CountClear, Blocks, CutSlots, BlocksFor, U32;
    BlocksNow(a, f, g);
    var need := BlocksFor(newSize, g.blk);
    var toFree := Total(f.ext) - need;
    CutSlotsLaw(a, f.ext, 3, toFree);
    var c := CutSlots(a, f.ext, 3, toFree, noErr);
    ClearedKeeps(a, c.after, Dropped(f.ext, toFree));
    StillInUse(a, c.after, f.ext, c.ext, Dropped(f.ext, toFree));
    SizeFits(need, a.total, g.blk);
    InsideVolume(c.after, c.ext);
    assert Total(c.ext) == |Blocks(c.ext)|;
  }

  lemma InsideVolume(a: AllocMap, ext: seq<Extent>)
    requires InUse(a, ext)
    ensures forall i :: 0 <= i < |ext| && ext[i].count > 0 ==> ext[i].start + ext[i].count <= a.total
  {
    forall i | 0 <= i < |ext| && ext[i].count > 0
      ensures ext[i].start + ext[i].count <= a.total
    {
      assert Holds(ext[i], ext[i].start + ext[i].count - 1);
    }
  }

  // ---- Extension ---------------------------------------------------------------------------

  /** The allocation of Ext_Extend takes a clear run of the volume, or nothing. */
  lemma ExtendAllocSafe(a: AllocMap, f: Fork, g: Geometry, newSize: nat)
    requires WellFormed(a) && g.blk > 0 && HintInReach(a, f, g)
    requires BlocksFor(newSize, g.blk) > BlocksFor(f.pLen, g.blk)
    ensures var r := ExtendAlloc(a, f, g, newSize, noErr);
            && (r.err != noErr ==> r.after == a)
            && (r.count > 0 ==> r.start + r.count <= a.total)
            && (forall b :: r.start <= b < r.start + r.count ==> !a.bits[b])
            && r.after.bits == SetRun(a.bits, r.start, r.count, true)
            && r.after.free == a.free - r.count
            && r.after.loaded == a.loaded
  {
    hide AllocBlocks, CountClear, BlocksFor, Wanted, SetRun;
    var want := Wanted(f, g, newSize);
    var min := BlocksFor(newSize, g.blk) - BlocksFor(f.pLen, g.blk);
    GrantIsSafe(a, ExtendHint(f, g), want, want, noErr);
    var first := AllocBlocks(a, ExtendHint(f, g), want, want, noErr);
    if first.err != noErr {
      GrantIsSafe(first.after, 0, min, min, noErr);
    }
  }

  /** A slot that takes a run holds exactly that run besides what it held; the 16-bit fields do not overflow. */
  lemma GrownHolds(e: Extent, start: nat, count: nat, total: nat)
    requires e.count == 0 || e.start + e.count == start
    requires e.count > 0 ==> e.start + e.count <= total
    requires total <= 0x7FFF && start <= 0x8000 && (count > 0 ==> start + count <= total)
    ensures Grown(e, start, count) == if e.count == 0 then Extent(start, count) else Extent(e.start, e.count + count)
    ensures forall b: nat :: Holds(Grown(e, start, count), b) <==> Holds(e, b) || start <= b < start + count
  {
    U16Same(start);
    U16Same(count);
    U16Same(e.count + count);
  }

  /** What Ext_Extend knows when it records a freshly taken run. */
  ghost predicate FreshRun(a: AllocMap, b: AllocMap, f: Fork, g: Geometry, start: nat, count: nat) {
    && Kept(a, f, g)
    && WellFormed(b) && b.total == a.total && |b.bits| == |a.bits|
    && start + count <= |a.bits|
    && (count > 0 ==> start + count <= a.total)
    && (forall k :: start <= k < start + count ==> !a.bits[k])
    && b.bits == SetRun(a.bits, start, count, true)
  }

  lemma GrownInUse(a: AllocMap, b: AllocMap, f: Fork, g: Geometry, start: nat, count: nat, i: nat)
    requires FreshRun(a, b, f, g, start, count)
    requires i < 3 && (f.ext[i].count == 0 || f.ext[i].start + f.ext[i].count == start)
    ensures InUse(b, f.ext[i := Grown(f.ext[i], start, count)])
  {
    var e := Grown(f.ext[i], start, count);
    var ext := f.ext[i := e];
    GrownHolds(f.ext[i], start, count, a.total);
    hide Grown, CountClear;
    forall j, k: nat {:trigger Holds(ext[j], k)} | 0 <= j < 3 && Holds(ext[j], k)
      ensures k < b.total <= |b.bits| && b.bits[k]
    {
      assert Holds(f.ext[j], k) || start <= k < start + count;
    }
    forall j, l, k: nat {:trigger Holds(ext[j], k), Holds(ext[l], k)} | 0 <= j < l < 3 && Holds(ext[j], k)
      ensures !Holds(ext[l], k)
    {
      if start <= k < start + count {
        assert !Holds(f.ext[j], k) && !Holds(f.ext[l], k);
      }
    }
  }

  lemma GrownTotal(ext: seq<Extent>, i: nat, start: nat, count: nat, total: nat)
    requires |ext| == 3 && i < 3 && Packed(ext)
    requires ext[i].count == 0 || ext[i].start + ext[i].count == start
    requires ext[i].count > 0 ==> ext[i].start + ext[i].count <= total
    requires forall j :: 0 <= j < i ==> ext[j].count > 0
    requires total <= 0x7FFF && start <= 0x8000 && (count > 0 ==> start + count <= total)
    ensures Total(ext[i := Grown(ext[i], start, count)]) == Total(ext) + count
    ensures Packed(ext[i := Grown(ext[i], start, count)])
  {
    GrownHolds(ext[i], start, count, total);
    TotalOfThree(ext);
    TotalOfThree(ext[i := Grown(ext[i], start, count)]);
  }

  /** Recording a run keeps the file resident and its blocks its own. */
  lemma RecordKeeps(a: AllocMap, b: AllocMap, f: Fork, g: Geometry, start: nat, count: nat, insert: OSErr)
    requires FreshRun(a, b, f, g, start, count)
    requires SlotFor(f.ext, start, 0) < 3
    ensures var r := Record(b, f, g, start, count, noErr, insert);
            && r.after == b && r.err == noErr
            && Kept(b, r.fork, g)
            && Total(r.fork.ext) == Total(f.ext) + count
  {
    var i := SlotFor(f.ext, start, 0);
    var ext := f.ext[i := Grown(f.ext[i], start, count)];
    hide Blocks, SetRun, CountClear, Grown, BlocksFor, U32;
    GrownInUse(a, b, f, g, start, count, i);
    GrownTotal(f.ext, i, start, count, a.total);
    InsideVolume(b, ext);
    FitsVolume(ext, b.total);
    BlocksNow(a, f, g);
    SizeFits(Total(ext), b.total, g.blk);
  }

  /** The run lands at the end of a slot that is not the file's last used one. */
  ghost predicate MergesEarly(ext: seq<Extent>, start: nat) {
    var i := SlotFor(ext, start, 0);
    i + 1 < |ext| && ext[i].count > 0 && ext[i + 1].count > 0
  }

  function Inserted(p: seq<nat>, q: seq<nat>, r: seq<nat>, x: seq<nat>, i: nat): seq<nat> {
    if i == 0 then p + x + q + r else if i == 1 then p + q + x + r else p + q + r + x
  }

  /** Inserting after part `i` is appending exactly if nothing is inserted or nothing follows. */
  lemma InsertedIsAppended(p: seq<nat>, q: seq<nat>, r: seq<nat>, x: seq<nat>, i: nat)
    requires i < 3 && (q == [] ==> r == [])
    requires x != [] && q != [] ==> q[0] != x[0]
    requires x != [] && r != [] ==> r[0] != x[0]
    ensures Inserted(p, q, r, x, i) == p + q + r + x
            <==> x == [] || !((i == 0 && q != []) || (i == 1 && r != []))
  {
    if x == [] {
      assert p + x + q + r == p + q + r && p + q + x + r == p + q + r && p + q + r + x == p + q + r;
    } else if i == 0 && q != [] {
      assert Inserted(p, q, r, x, i)[|p|] == x[0] && (p + q + r + x)[|p|] == q[0];
    } else if i == 1 && r != [] {
      assert Inserted(p, q, r, x, i)[|p| + |q|] == x[0] && (p + q + r + x)[|p| + |q|] == r[0];
    } else if i == 0 {
      assert p + x + [] + [] == p + [] + [] + x;
    } else if i == 1 {
      assert p + q + x + [] == p + q + [] + x;
    }
  }

  lemma GrownBlocks(ext: seq<Extent>, i: nat, start: nat, count: nat, total: nat)
    requires |ext| == 3 && i < 3
    requires ext[i].count == 0 || ext[i].start + ext[i].count == start
    requires ext[i].count > 0 ==> ext[i].start + ext[i].count <= total
    requires total <= 0x7FFF && start <= 0x8000 && (count > 0 ==> start + count <= total)
    ensures Blocks(ext[i := Grown(ext[i], start, count)])
            == Inserted(Run(ext[0]), Run(ext[1]), Run(ext[2]), Run(Extent(start, count)), i)
  {
    hide Run, Blocks, Grown;
    GrownRun(ext[i], start, count, total);
    TotalOfThree(ext[i := Grown(ext[i], start, count)]);
    InsertedParts(Run(ext[0]), Run(ext[1]), Run(ext[2]), Run(Extent(start, count)));
  }

  lemma GrownRun(e: Extent, start: nat, count: nat, total: nat)
    requires e.count == 0 || e.start + e.count == start
    requires e.count > 0 ==> e.start + e.count <= total
    requires total <= 0x7FFF && start <= 0x8000 && (count > 0 ==> start + count <= total)
    ensures Run(Grown(e, start, count)) == Run(e) + Run(Extent(start, count))
  {
    GrownHolds(e, start, count, total);
  }

  lemma InsertedParts(p: seq<nat>, q: seq<nat>, r: seq<nat>, x: seq<nat>)
    ensures Inserted(p, q, r, x, 0) == (p + x) + q + r
    ensures Inserted(p, q, r, x, 1) == p + (q + x) + r
    ensures Inserted(p, q, r, x, 2) == p + q + (r + x)
  {
    assert p + (q + x) + r == p + q + x + r;
    assert p + q + (r + x) == p + q + r + x;
  }

  /** Recording appends the run to the file's blocks, unless it merges into an earlier slot. */
  lemma RecordAppends(ext: seq<Extent>, start: nat, count: nat, total: nat)
    requires |ext| == 3 && Packed(ext)
    requires SlotFor(ext, start, 0) < 3
    requires forall j :: 0 <= j < 3 && ext[j].count > 0 ==> ext[j].start + ext[j].count <= total
    requires total <= 0x7FFF && start <= 0x8000 && (count > 0 ==> start + count <= total)
    requires count > 0 ==> forall j :: 0 <= j < 3 ==> !Holds(ext[j], start)
    ensures var i := SlotFor(ext, start, 0);
            Blocks(ext[i := Grown(ext[i], start, count)]) == Blocks(ext) + Run(Extent(start, count))
            <==> count == 0 || !MergesEarly(ext, start)
  {
    var i := SlotFor(ext, start, 0);
    TotalOfThree(ext);
    GrownBlocks(ext, i, start, count, total);
    hide Blocks, Grown;
    InsertedIsAppended(Run(ext[0]), Run(ext[1]), Run(ext[2]), Run(Extent(start, count)), i);
  }

  /** A run that merges early puts its first block among the blocks the file had. */
  lemma MergedBlock(ext: seq<Extent>, start: nat, count: nat, total: nat) returns (k: nat)
    requires |ext| == 3 && Packed(ext) && count > 0 && MergesEarly(ext, start)
    requires forall j :: 0 <= j < 3 && ext[j].count > 0 ==> ext[j].start + ext[j].count <= total
    requires total <= 0x7FFF && start + count <= total
    ensures var i := SlotFor(ext, start, 0);
            var grown := Blocks(ext[i := Grown(ext[i], start, count)]);
            k < Total(ext) && k < |grown| && grown[k] == start
  {
    hide Blocks, Grown, Run;
    var i := SlotFor(ext, start, 0);
    TotalOfThree(ext);
    GrownBlocks(ext, i, start, count, total);
    var p, q, r, x := Run(ext[0]), Run(ext[1]), Run(ext[2]), Run(Extent(start, count));
    k := if i == 0 then |p| else |p| + |q|;
    assert Inserted(p, q, r, x, i)[k] == x[0] == start by { RunStartsAt(start, count); }
  }

  lemma RunStartsAt(start: nat, count: nat)
    requires count > 0
    ensures Run(Extent(start, count))[0] == start
  {
  }

  /** A run refused by the overflow tree is given back: bitmap and counter are as before the call. */
  lemma RollbackRestores(a: AllocMap, b: AllocMap, f: Fork, g: Geometry, start: nat, count: nat)
    requires FreshRun(a, b, f, g, start, count) && a.loaded && b.loaded
    requires b.free == a.free - count
    ensures var back := FreeBlocks(b, start, count, noErr).after;
            WellFormed(back) && back.bits == a.bits && back.free == a.free && back.total == a.total && back.loaded
  {
    if count > 0 {
      ReleaseIsExact(b, start, count);
    }
    hide CountClear;
    assert SetRun(b.bits, start, count, false) == a.bits;
  }

  /** The run that an extension takes, when one is needed. */
  ghost predicate Grows(f: Fork, g: Geometry, newSize: nat)
    requires g.blk > 0
  {
    BlocksFor(newSize, g.blk) > BlocksFor(f.pLen, g.blk)
  }

  lemma ExtendIsFresh(a: AllocMap, f: Fork, g: Geometry, newSize: nat)
    requires Kept(a, f, g) && HintInReach(a, f, g) && Grows(f, g, newSize)
    ensures var r := ExtendAlloc(a, f, g, newSize, noErr);
            FreshRun(a, r.after, f, g, r.start, r.count) && r.after.free == a.free - r.count
            && r.after.loaded == a.loaded && (r.err != noErr ==> r.after == a)
  {
    hide ExtendAlloc, CountClear, SetRun, BlocksFor, Blocks;
    ExtendAllocSafe(a, f, g, newSize);
  }

  /**
   * The law of Ext_Extend. The file stays resident with its blocks its own. On success its block list
   * is the old list followed by the run taken, exactly if that run did not merge into an earlier slot;
   * on failure, including a refused fourth extent, nothing has changed.
   */
  lemma ExtendLaw(a: AllocMap, f: Fork, g: Geometry, newSize: nat, insert: OSErr)
    requires Kept(a, f, g) && a.loaded && HintInReach(a, f, g)
    requires insert != noErr
    ensures var r := Extend(a, f, g, newSize, noErr, insert);
            && Kept(r.after, r.fork, g) && r.after.total == a.total && r.after.loaded
            && r.after.free + Total(r.fork.ext) == a.free + Total(f.ext)
            && (!Grows(f, g, newSize) ==> r == ExtentResult(a, f, noErr))
            && (r.err != noErr ==> r.fork == f && r.after.bits == a.bits && r.after.free == a.free)
            && (Grows(f, g, newSize) && r.err == noErr ==>
                  var run := ExtendAlloc(a, f, g, newSize, noErr);
                  && r.after.bits == SetRun(a.bits, run.start, run.count, true)
                  && (run.count > 0 ==> run.start + run.count <= a.total)
                  && (forall b :: run.start <= b < run.start + run.count ==> !a.bits[b])
                  && Total(r.fork.ext) == Total(f.ext) + run.count
                  && (Blocks(r.fork.ext) == Blocks(f.ext) + Run(Extent(run.start, run.count))
                      <==> run.count == 0 || !MergesEarly(f.ext, run.start)))
  {
    if Grows(f, g, newSize) {
      hide ExtendAlloc, CountClear, SetRun, BlocksFor, Blocks, Run, U32, FreeBlocks, Grown;
      ExtendIsFresh(a, f, g, newSize);
      var run := ExtendAlloc(a, f, g, newSize, noErr);
      if run.err == noErr {
        if SlotFor(f.ext, run.start, 0) < 3 {
          RecordKeeps(a, run.after, f, g, run.start, run.count, insert);
          RecordAppends(f.ext, run.start, run.count, a.total);
        } else {
          RollbackRestores(a, run.after, f, g, run.start, run.count);
          SameInUse(a, FreeBlocks(run.after, run.start, run.count, noErr).after, f, g);
        }
      }
    }
  }

  /**
   * Without a bitmap, or when it cannot be written back, Ext_Extend fails if blocks are needed. The file keeps its
   * blocks, and they stay its own; blocks that were marked are lost to all files.
   */
  lemma FailedExtendLaw(a: AllocMap, f: Fork, g: Geometry, newSize: nat, write: OSErr, insert: OSErr)
    requires Kept(a, f, g) && HintInReach(a, f, g)
    requires !a.loaded || write != noErr
    ensures var r := Extend(a, f, g, newSize, write, insert);
            && Kept(r.after, r.fork, g) && r.after.total == a.total && r.after.loaded == a.loaded
            && r.fork == f
            && (r.err != noErr <==> Grows(f, g, newSize))
  {
    hide AllocBlocks, CountClear, BlocksFor, Wanted, Blocks;
    if Grows(f, g, newSize) {
      var want := Wanted(f, g, newSize);
      var min := BlocksFor(newSize, g.blk) - BlocksFor(f.pLen, g.blk);
      GrantFails(a, ExtendHint(f, g), want, want, write);
      GrantFails(AllocBlocks(a, ExtendHint(f, g), want, want, write).after, 0, min, min, write);
      MoreInUse(a, Extend(a, f, g, newSize, write, insert).after, f.ext);
    }
  }

  lemma MoreInUse(a: AllocMap, b: AllocMap, ext: seq<Extent>)
    requires InUse(a, ext) && b.total == a.total && |b.bits| == |a.bits|
    requires forall k :: 0 <= k < |a.bits| && a.bits[k] ==> b.bits[k]
    ensures InUse(b, ext)
  {
  }

  /** Whatever the bitmap writes answer, Ext_Extend leaves a file resident, and its blocks its own. */
  lemma ExtendKeeps(a: AllocMap, f: Fork, g: Geometry, newSize: nat, write: OSErr, insert: OSErr)
    requires Kept(a, f, g) && HintInReach(a, f, g) && insert != noErr
    ensures var r := Extend(a, f, g, newSize, write, insert);
            Kept(r.after, r.fork, g) && r.after.total == a.total && r.after.loaded == a.loaded
  {
    hide Extend, Kept, HintInReach;
    if a.loaded && write == noErr {
      ExtendLaw(a, f, g, newSize, insert);
    } else {
      FailedExtendLaw(a, f, g, newSize, write, insert);
    }
  }

  /**
   * Ext_Truncate clears the bits of a slot before it tries to write them back, and gives the slot up only after: when
   * the write fails, the file still holds blocks that the bitmap calls free. So a failing write keeps the file's
   * blocks its own exactly if there is nothing to cut.
   */
  lemma FailedTruncateLaw(a: AllocMap, f: Fork, g: Geometry, newSize: nat, write: OSErr)
    requires Kept(a, f, g) && a.loaded && write != noErr
    ensures var r := Truncate(a, f, g, newSize, write);
            && r.fork == f
            && (Kept(r.after, f, g) <==> BlocksFor(newSize, g.blk) >= BlocksFor(f.pLen, g.blk))
  {
    hide Blocks, CountClear, BlocksFor, U32;
    BlocksNow(a, f, g);
    var need := BlocksFor(newSize, g.blk);
    if need < Total(f.ext) {
      FailedCut(a, f.ext, 3, Total(f.ext) - need, write);
    }
  }

  lemma {:induction false} FailedCut(a: AllocMap, ext: seq<Extent>, n: nat, toFree: nat, write: OSErr)
    requires WellFormed(a) && a.loaded && write != noErr && n <= |ext| == 3 && 0 < toFree
    requires forall i :: 0 <= i < 3 && ext[i].count > 0 ==> ext[i].start + ext[i].count <= a.total
    requires forall i :: n <= i < 3 ==> ext[i].count == 0
    requires Total(ext) > 0
    ensures var r := CutSlots(a, ext, n, toFree, write);
            r.err == write && r.ext == ext && !InUse(r.after, ext)
    decreases n
  {
    hide Blocks, CountClear;
    if n == 0 {
      TotalOfThree(ext);
      assert false;
    } else if ext[n - 1].count == 0 {
      FailedCut(a, ext, n - 1, toFree, write);
    } else {
      var r := CutSlots(a, ext, n, toFree, write);
      var last := ext[n - 1].start + ext[n - 1].count - 1;
      assert Holds(ext[n - 1], last) && !r.after.bits[last];
    }
  }

  lemma SameInUse(a: AllocMap, b: AllocMap, f: Fork, g: Geometry)
    requires Kept(a, f, g) && WellFormed(b) && b.bits == a.bits && b.total == a.total
    ensures Kept(b, f, g)
  {
  }

  lemma ExtendAllocLength(a: AllocMap, f: Fork, g: Geometry, newSize: nat)
    requires WellFormed(a) && g.blk > 0 && HintInReach(a, f, g) && Grows(f, g, newSize)
    requires ExtendAlloc(a, f, g, newSize, noErr).err == noErr
    ensures var run := ExtendAlloc(a, f, g, newSize, noErr);
            var missing := BlocksFor(newSize, g.blk) - BlocksFor(f.pLen, g.blk);
            run.count >= missing <==> run.start + missing <= a.total
  {
    hide AllocBlocks, CountClear, BlocksFor, U32;
    var want := Wanted(f, g, newSize);
    var min := BlocksFor(newSize, g.blk) - BlocksFor(f.pLen, g.blk);
    var first := AllocBlocks(a, ExtendHint(f, g), want, want, noErr);
    if first.err == noErr {
      GrantLength(a, ExtendHint(f, g), want);
    } else {
      GrantLength(first.after, 0, min);
    }
  }

  /**
   * An extension covers the size asked for exactly if the run it found starts early enough before the end
   * of the volume; the search does not see to that when it wraps.
   */
  lemma ExtendReaches(a: AllocMap, f: Fork, g: Geometry, newSize: nat, insert: OSErr)
    requires Kept(a, f, g) && a.loaded && HintInReach(a, f, g)
    requires insert != noErr && Grows(f, g, newSize)
    requires Extend(a, f, g, newSize, noErr, insert).err == noErr
    ensures var run := ExtendAlloc(a, f, g, newSize, noErr);
            var r := Extend(a, f, g, newSize, noErr, insert);
            var missing := BlocksFor(newSize, g.blk) - BlocksFor(f.pLen, g.blk);
            BlocksFor(newSize, g.blk) <= Total(r.fork.ext) <==> run.start + missing <= a.total
  {
    hide CountClear, SetRun, BlocksFor, Blocks, Run, ExtendAlloc, Record, InUse;
    ExtendLaw(a, f, g, newSize, insert);
    BlocksNow(a, f, g);
    ExtendAllocLength(a, f, g, newSize);
  }
}
