/** How growing and cutting change the list of a file's blocks. */
module ExtentLaws {
  import opened Words
  import opened Arithmetic
  import opened Allocation
  import opened AllocationLaws
  import opened Extents

  // ---- Arithmetic --------------------------------------------------------------------------

  /** Rounding a whole number of blocks up to blocks changes nothing. */
  lemma RoundUpExact(n: nat, blk: nat)
    requires blk > 0 && n * blk + blk <= TWO_32
    ensures BlocksFor(n * blk, blk) == n
  {
    var x := n * blk + blk - 1;
    assert x / blk == n by {
      QuotientIs(x, blk, n, blk - 1);
    }
  }

  // ---- Blocks ------------------------------------------------------------------------------

  /** Trailing empty slots contribute nothing. */
  lemma {:induction false} TrailingEmpty(ext: seq<Extent>, n: nat)
    requires n <= |ext|
    requires forall j :: n <= j < |ext| ==> ext[j].count == 0
    ensures Blocks(ext) == Blocks(ext[..n]) && Total(ext) == Total(ext[..n])
  {
    if n < |ext| {
      TrailingEmpty(ext[..|ext| - 1], n);
      assert ext[..|ext| - 1][..n] == ext[..n];
    } else {
      assert ext[..n] == ext;
    }
  }

  /** The blocks of a record whose slot `n - 1` is the last used one. */
  lemma LastSlot(ext: seq<Extent>, n: nat)
    requires 0 < n <= |ext|
    requires forall j :: n <= j < |ext| ==> ext[j].count == 0
    ensures Blocks(ext) == Blocks(ext[..n - 1]) + Run(ext[n - 1])
    ensures Total(ext) == Total(ext[..n - 1]) + ext[n - 1].count
  {
    hide Run;
    TrailingEmpty(ext, n);
    var used := ext[..n];
    assert used[..n - 1] == ext[..n - 1] && used[n - 1] == ext[n - 1];
  }

  /** Replacing the last used slot replaces the end of the block list. */
  lemma ReplaceLast(ext: seq<Extent>, n: nat, e: Extent)
    requires 0 < n <= |ext|
    requires forall j :: n <= j < |ext| ==> ext[j].count == 0
    ensures Blocks(ext[n - 1 := e]) == Blocks(ext[..n - 1]) + Run(e)
    ensures Total(ext[n - 1 := e]) == Total(ext[..n - 1]) + e.count
  {
    LastSlot(ext[n - 1 := e], n);
    assert ext[n - 1 := e][..n - 1] == ext[..n - 1];
  }

  lemma RunSplit(e: Extent, keep: nat)
    requires keep <= e.count
    ensures Run(e) == Run(Extent(e.start, keep)) + Run(Extent(e.start + keep, e.count - keep))
  {
  }

  /** A block is in the list exactly when a slot holds it. */
  lemma {:induction false} BlocksHeld(ext: seq<Extent>, b: nat)
    ensures b in Blocks(ext) <==> exists i :: 0 <= i < |ext| && Holds(ext[i], b)
  {
    if ext != [] {
      var n := |ext| - 1;
      BlocksHeld(ext[..n], b);
      if b in Run(ext[n]) {
        assert Holds(ext[n], b);
      }
      if Holds(ext[n], b) {
        assert Run(ext[n])[b - ext[n].start] == b;
      }
      assert forall i :: 0 <= i < n ==> ext[..n][i] == ext[i];
    }
  }

  // ---- Ext_Truncate ------------------------------------------------------------------------

  /** A used slot has been freed by `n` blocks from its end: the bits of the run are clear, all else is as before. */
  ghost predicate OnlyCleared(before: AllocMap, after: AllocMap, gone: seq<nat>) {
    && after.total == before.total && after.loaded == before.loaded && |after.bits| == |before.bits|
    && WellFormed(after)
    && after.free == before.free + |gone|
    && forall b: nat :: b < |before.bits| ==> after.bits[b] == (before.bits[b] && b !in gone)
  }

  /** Freeing a run that is wholly in use. */
  lemma FreeUsedRun(a: AllocMap, start: nat, count: nat)
    requires WellFormed(a) && a.loaded && count > 0 && start + count <= a.total
    requires forall b :: start <= b < start + count ==> a.bits[b]
    ensures var r := FreeBlocks(a, start, count, noErr);
            && r.err == noErr
            && OnlyCleared(a, r.after, Run(Extent(start, count)))
  {
    ReleaseIsExact(a, start, count);
    var run := Run(Extent(start, count));
    forall b: nat
      ensures b in run <==> start <= b < start + count
    {
      if start <= b < start + count {
        assert run[b - start] == b;
      }
    }
  }

  /** The file's own part of the conservation law: its slots are disjoint and their blocks in use. */
  ghost predicate InUse(a: AllocMap, ext: seq<Extent>) {
    && (forall i, b: nat {:trigger Holds(ext[i], b)} ::
          0 <= i < |ext| && Holds(ext[i], b) ==> b < a.total <= |a.bits| && a.bits[b])
    && Disjoint(ext)
  }

  /** Slot by slot, `cut` holds what `ext` holds except the blocks in `gone`. */
  ghost predicate SlotwiseWithout(ext: seq<Extent>, cut: seq<Extent>, gone: seq<nat>) {
    && |cut| == |ext|
    && forall i, b: nat :: 0 <= i < |ext| ==> HoldsWithout(ext[i], cut[i], gone, b)
  }

  ghost predicate HoldsWithout(e: Extent, c: Extent, gone: seq<nat>, b: nat) {
    Holds(c, b) <==> Holds(e, b) && b !in gone
  }

  /** The blocks that the cut drops are the last `toFree` of the file. */
  ghost function Dropped(ext: seq<Extent>, toFree: nat): seq<nat>
    requires toFree <= Total(ext)
  {
    Blocks(ext)[Total(ext) - toFree..]
  }

  ghost predicate CutDone(a: AllocMap, ext: seq<Extent>, toFree: nat, r: CutResult)
    requires toFree <= Total(ext)
  {
    && r.err == noErr
    && OnlyCleared(a, r.after, Dropped(ext, toFree))
    && SlotwiseWithout(ext, r.ext, Dropped(ext, toFree))
    && Blocks(r.ext) == Blocks(ext)[..Total(ext) - toFree]
    && Packed(r.ext)
  }

  ghost predicate CutReady(a: AllocMap, ext: seq<Extent>, n: nat, toFree: nat) {
    && WellFormed(a) && a.loaded && InUse(a, ext)
    && |ext| == 3 && n <= 3 && Packed(ext)
    && (forall j :: n <= j < 3 ==> ext[j].count == 0)
    && (forall j :: 0 <= j < 3 && ext[j].count > 0 ==> ext[j].start + ext[j].count <= a.total)
    && 0 < toFree <= Total(ext)
  }

  lemma RunHolds(e: Extent)
    ensures forall b: nat :: b in Run(e) <==> Holds(e, b)
  {
    forall b: nat | Holds(e, b)
      ensures b in Run(e)
    {
      assert Run(e)[b - e.start] == b;
    }
  }

  ghost predicate Disjoint(ext: seq<Extent>) {
    forall i, j, b: nat {:trigger Holds(ext[i], b), Holds(ext[j], b)} ::
      0 <= i < j < |ext| && Holds(ext[i], b) ==> !Holds(ext[j], b)
  }

  function Shortened(e: Extent, toFree: nat): Extent
    requires toFree <= e.count
  {
    if e.count == toFree then Extent(0, 0) else Extent(e.start, e.count - toFree)
  }

  function Tail(e: Extent, toFree: nat): Extent
    requires toFree <= e.count
  {
    Extent(e.start + e.count - toFree, toFree)
  }

  /** Dropping the last blocks of the last used slot drops the last blocks of the file. */
  lemma ShortenBlocks(ext: seq<Extent>, n: nat, toFree: nat)
    requires 0 < n <= |ext| && toFree <= ext[n - 1].count
    requires forall j :: n <= j < |ext| ==> ext[j].count == 0
    ensures toFree <= Total(ext)
    ensures var cut := ext[n - 1 := Shortened(ext[n - 1], toFree)];
            && Dropped(ext, toFree) == Run(Tail(ext[n - 1], toFree))
            && Blocks(cut) == Blocks(ext)[..Total(ext) - toFree]
            && Total(cut) == Total(ext) - toFree
  {
    var e := ext[n - 1];
    var keep := e.count - toFree;
    RunSplit(e, keep);
    LastSlot(ext, n);
    ReplaceLast(ext, n, Shortened(e, toFree));
    assert Run(Shortened(e, toFree)) == Run(Extent(e.start, keep));
  }

  /** ... and changes no other slot. */
  lemma ShortenSlots(ext: seq<Extent>, k: nat, toFree: nat)
    requires k < |ext| && toFree <= ext[k].count && Disjoint(ext)
    ensures SlotwiseWithout(ext, ext[k := Shortened(ext[k], toFree)], Run(Tail(ext[k], toFree)))
  {
    var cut := ext[k := Shortened(ext[k], toFree)];
    var gone := Run(Tail(ext[k], toFree));
    RunHolds(Tail(ext[k], toFree));
    forall i, b: nat | 0 <= i < |ext|
      ensures HoldsWithout(ext[i], cut[i], gone, b)
    {
      if i != k && Holds(ext[i], b) {
        assert !Holds(ext[k], b);
      }
    }
  }

  /** Freeing the tail of a used slot. */
  lemma FreeTail(a: AllocMap, ext: seq<Extent>, k: nat, toFree: nat)
    requires WellFormed(a) && a.loaded && InUse(a, ext)
    requires k < |ext| && 0 < toFree <= ext[k].count && ext[k].start + ext[k].count <= a.total
    ensures var tail := Tail(ext[k], toFree);
            var r := FreeBlocks(a, tail.start, tail.count, noErr);
            r.err == noErr && OnlyCleared(a, r.after, Run(tail))
  {
    var tail := Tail(ext[k], toFree);
    forall b | tail.start <= b < tail.start + tail.count
      ensures a.bits[b]
    {
      assert Holds(ext[k], b);
    }
    FreeUsedRun(a, tail.start, tail.count);
  }

  lemma CutLastStep(a: AllocMap, ext: seq<Extent>, n: nat, toFree: nat)
    requires WellFormed(a) && 0 < n <= |ext|
    requires forall i :: 0 <= i < |ext| && ext[i].count > 0 ==> ext[i].start + ext[i].count <= a.total
    requires 0 < toFree <= ext[n - 1].count
    requires var tail := Tail(ext[n - 1], toFree); FreeBlocks(a, tail.start, tail.count, noErr).err == noErr
    ensures var tail := Tail(ext[n - 1], toFree);
            CutSlots(a, ext, n, toFree, noErr)
            == CutResult(FreeBlocks(a, tail.start, tail.count, noErr).after,
                         ext[n - 1 := Shortened(ext[n - 1], toFree)], noErr)
  {
    hide FreeBlocks, U16, WellFormed;
    KeptFits(a, ext[n - 1], toFree);
  }

  lemma KeptFits(a: AllocMap, e: Extent, toFree: nat)
    requires WellFormed(a) && e.start + e.count <= a.total && toFree <= e.count
    ensures U16(e.count - toFree) == e.count - toFree
  {
    U16Same(e.count - toFree);
  }

  /** The last used slot is shortened and the cut ends there. */
  lemma CutLast(a: AllocMap, ext: seq<Extent>, n: nat, toFree: nat)
    requires CutReady(a, ext, n, toFree) && n > 0 && toFree <= ext[n - 1].count
    ensures CutDone(a, ext, toFree, CutSlots(a, ext, n, toFree, noErr))
  {
    hide Blocks, Run, Total, SlotwiseWithout, FreeBlocks, OnlyCleared, Dropped, CutSlots, WellFormed;
    ShortenBlocks(ext, n, toFree);
    ShortenSlots(ext, n - 1, toFree);
    FreeTail(a, ext, n - 1, toFree);
    CutLastStep(a, ext, n, toFree);
  }

  /** Two clearings in a row. */
  lemma ClearedTwice(a: AllocMap, b: AllocMap, c: AllocMap, first: seq<nat>, second: seq<nat>)
    requires OnlyCleared(a, b, first) && OnlyCleared(b, c, second)
    ensures OnlyCleared(a, c, second + first)
  {
  }

  lemma WithoutTwice(x: seq<Extent>, y: seq<Extent>, z: seq<Extent>, first: seq<nat>, second: seq<nat>)
    requires SlotwiseWithout(x, y, first) && SlotwiseWithout(y, z, second)
    ensures SlotwiseWithout(x, z, second + first)
  {
    forall i, b: nat | 0 <= i < |x|
      ensures HoldsWithout(x[i], z[i], second + first, b)
    {
      assert HoldsWithout(x[i], y[i], first, b) && HoldsWithout(y[i], z[i], second, b);
    }
  }

  /** What is left of a file after a cut is still in use and disjoint. */
  lemma StillInUse(a: AllocMap, after: AllocMap, ext: seq<Extent>, cut: seq<Extent>, gone: seq<nat>)
    requires InUse(a, ext) && OnlyCleared(a, after, gone) && SlotwiseWithout(ext, cut, gone)
    ensures InUse(after, cut)
  {
    forall i, b: nat {:trigger Holds(cut[i], b)} | 0 <= i < |cut| && Holds(cut[i], b)
      ensures b < after.total <= |after.bits| && after.bits[b]
    {
      assert HoldsWithout(ext[i], cut[i], gone, b);
    }
    forall i, j, b: nat {:trigger Holds(cut[i], b), Holds(cut[j], b)} | 0 <= i < j < |cut| && Holds(cut[i], b)
      ensures !Holds(cut[j], b)
    {
      assert HoldsWithout(ext[i], cut[i], gone, b) && HoldsWithout(ext[j], cut[j], gone, b);
    }
  }

  /** The whole last used slot is freed and the cut goes on below it. */
  lemma DropSlot(a: AllocMap, ext: seq<Extent>, n: nat, toFree: nat)
    requires CutReady(a, ext, n, toFree) && n > 0 && 0 < ext[n - 1].count < toFree
    ensures var e := ext[n - 1];
            var r := FreeBlocks(a, e.start, e.count, noErr);
            var rest := ext[n - 1 := Extent(0, 0)];
            && r.err == noErr
            && OnlyCleared(a, r.after, Run(e))
            && SlotwiseWithout(ext, rest, Run(e))
            && CutReady(r.after, rest, n - 1, toFree - e.count)
            && Dropped(ext, toFree) == Dropped(rest, toFree - e.count) + Run(e)
            && Blocks(rest)[..Total(rest) - (toFree - e.count)] == Blocks(ext)[..Total(ext) - toFree]
  {
    hide Run, FreeBlocks, OnlyCleared, SlotwiseWithout, InUse, WellFormed, Blocks, Total;
    var e := ext[n - 1];
    var rest := ext[n - 1 := Extent(0, 0)];
    assert Tail(e, e.count) == e;
    UsedIsDisjoint(a, ext);
    ShortenBlocks(ext, n, e.count);
    ShortenSlots(ext, n - 1, e.count);
    FreeTail(a, ext, n - 1, e.count);
    var r := FreeBlocks(a, e.start, e.count, noErr);
    StillInUse(a, r.after, ext, rest, Run(e));
    ClearedKeeps(a, r.after, Run(e));
    TakeTwice(Blocks(ext), Total(ext) - e.count, Total(ext) - toFree);
  }

  lemma UsedIsDisjoint(a: AllocMap, ext: seq<Extent>)
    requires WellFormed(a) && InUse(a, ext)
    ensures Disjoint(ext) && a.total <= 0x7FFF
  {
  }

  lemma TakeTwice(s: seq<nat>, keep: nat, m: nat)
    requires m <= keep <= |s|
    ensures s[..keep][..m] == s[..m] && s[m..] == s[..keep][m..] + s[keep..]
  {
  }

  lemma ClearedKeeps(a: AllocMap, after: AllocMap, gone: seq<nat>)
    requires OnlyCleared(a, after, gone)
    ensures WellFormed(after) && after.total == a.total && after.loaded == a.loaded
  {
  }

  lemma CutWholeStep(a: AllocMap, ext: seq<Extent>, n: nat, toFree: nat)
    requires WellFormed(a) && 0 < n <= |ext|
    requires forall i :: 0 <= i < |ext| && ext[i].count > 0 ==> ext[i].start + ext[i].count <= a.total
    requires 0 < ext[n - 1].count < toFree
    requires FreeBlocks(a, ext[n - 1].start, ext[n - 1].count, noErr).err == noErr
    ensures CutSlots(a, ext, n, toFree, noErr)
            == CutSlots(FreeBlocks(a, ext[n - 1].start, ext[n - 1].count, noErr).after,
                        ext[n - 1 := Extent(0, 0)], n - 1, toFree - ext[n - 1].count, noErr)
  {
    hide FreeBlocks, CountClear;
  }

  /**
   * The law of the freeing loop: it drops exactly the last `toFree` blocks of the file, clears exactly
   * their bits and leaves the slots packed.
   */
  lemma {:induction false} CutSlotsLaw(a: AllocMap, ext: seq<Extent>, n: nat, toFree: nat)
    requires CutReady(a, ext, n, toFree)
    ensures CutDone(a, ext, toFree, CutSlots(a, ext, n, toFree, noErr))
    decreases n
  {
    hide OnlyCleared, SlotwiseWithout, CountClear, InUse, Dropped, Blocks, FreeBlocks, Run;
    if n == 0 {
      TrailingEmpty(ext, 0);
    } else if ext[n - 1].count == 0 {
      CutSlotsLaw(a, ext, n - 1, toFree);
    } else if toFree <= ext[n - 1].count {
      CutLast(a, ext, n, toFree);
    } else {
      hide CutSlots;
      var e := ext[n - 1];
      DropSlot(a, ext, n, toFree);
      CutWholeStep(a, ext, n, toFree);
      var rest := ext[n - 1 := Extent(0, 0)];
      var b := FreeBlocks(a, e.start, e.count, noErr).after;
      CutSlotsLaw(b, rest, n - 1, toFree - e.count);
      var r := CutSlots(b, rest, n - 1, toFree - e.count, noErr);
      ClearedTwice(a, b, r.after, Run(e), Dropped(rest, toFree - e.count));
      WithoutTwice(ext, rest, r.ext, Run(e), Dropped(rest, toFree - e.count));
    }
  }
}
