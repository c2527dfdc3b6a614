/** When the search of Ext_Extend leaves the cached bitmap, and what the bit it finds there does. */
module SearchHint {
  import opened Words
  import opened Allocation
  import opened AllocationLaws
  import opened Extents
  import opened ExtentLaws
  import opened GrowthLaws

  /** The hint is the end of one of the three slots. */
  lemma LastEndIs(ext: seq<Extent>)
    requires |ext| == 3
    ensures LastEnd(ext) == if ext[2].count > 0 then ext[2].start + ext[2].count
                            else if ext[1].count > 0 then ext[1].start + ext[1].count
                            else if ext[0].count > 0 then ext[0].start + ext[0].count else 0
  {
    assert ext[..2][..1] == ext[..1] && ext[..1][..0] == [];
    assert LastEnd(ext[..1]) == if ext[0].count > 0 then ext[0].start + ext[0].count else 0;
  }

  /**
   * With just the bitmap bytes in the cache, the search reads past them exactly for a file that ends on the last
   * block of a volume of a multiple of 8 blocks. With one byte more to read it never leaves what there is.
   */
  lemma HintOutOfReach(a: AllocMap, f: Fork, g: Geometry)
    requires Kept(a, f, g)
    ensures |a.bits| == 8 * ((a.total + 7) / 8) ==>
              (!HintInReach(a, f, g) <==> LastEnd(f.ext) == a.total && a.total > 0 && a.total % 8 == 0)
    ensures |a.bits| > a.total ==> HintInReach(a, f, g)
  {
    hide Kept, BlocksFor, LastEnd, Total;
    BlocksNow(a, f, g);
    HintIsEnd(a, f, g);
  }

  lemma HintIsEnd(a: AllocMap, f: Fork, g: Geometry)
    requires Kept(a, f, g)
    ensures g.blk > 0 && a.total <= |a.bits|
    ensures Total(f.ext) > 0 ==> LastEnd(f.ext) <= a.total
    ensures Total(f.ext) == 0 ==> LastEnd(f.ext) == 0
  {
    hide CountClear, InUse, LastEnd;
    TotalOfThree(f.ext);
    LastEndIs(f.ext);
  }

  /** Eight blocks in one byte of bitmap, and a file whose only block is the last one. */
  lemma OutOfReachExample()
    ensures var a := AllocMap(true, [false, false, false, false, false, false, false, true], 8, 7, 0);
            var f := Fork([Extent(7, 1), Extent(0, 0), Extent(0, 0)], 512, 512);
            var g := Geometry(512, 512);
            Kept(a, f, g) && !HintInReach(a, f, g)
  {
    var bits := [false, false, false, false, false, false, false, true];
    var a := AllocMap(true, bits, 8, 7, 0);
    var f := Fork([Extent(7, 1), Extent(0, 0), Extent(0, 0)], 512, 512);
    assert bits[..8] == bits;
    SevenClear();
    TotalOfThree(f.ext);
    LastEndIs(f.ext);
    hide CountClear, Blocks, LastEnd;
    HintOutOfReach(a, f, Geometry(512, 512));
  }

  lemma SevenClear()
    ensures CountClear([false, false, false, false, false, false, false, true]) == 7
  {
    var bits := [false, false, false, false, false, false, false, true];
    AllClear(bits[..7]);
  }

  lemma {:induction false} AllClear(bits: seq<bool>)
    requires forall k :: 0 <= k < |bits| ==> !bits[k]
    ensures CountClear(bits) == |bits|
  {
    if bits != [] {
      AllClear(bits[..|bits| - 1]);
    }
  }

  /**
   * A search from the block count looks first at the bit after the last block. The call then succeeds without a single
   * block exactly if that bit is clear and so are the first blocks of the volume, one fewer than asked for; otherwise a
   * grant is complete.
   */
  lemma HintAtVolumeEnd(a: AllocMap, m: nat)
    requires WellFormed(a) && 0 < a.total < |a.bits| && 0 < m
    requires AllocBlocks(a, a.total, m, m, noErr).err == noErr
    ensures var r := AllocBlocks(a, a.total, m, m, noErr);
            var phantom := m - 1 <= a.total && !a.bits[a.total] && forall b :: 0 <= b < m - 1 ==> !a.bits[b];
            r.count == if phantom then 0 else m
  {
    hide CountClear, FirstWindow, RunLen, SetRun;
    var k := FirstWindow(a.bits, a.total, a.total, m, 0);
    GrantLength(a, a.total, m);
    WindowAtEnd(a.bits, a.total, m);
    if k == -1 {
      LowestRun(a.bits, a.total, m);
    }
  }

  /** The windows of a search from the block count: the first takes the bit after the volume, the others lie inside. */
  lemma WindowAtEnd(bits: seq<bool>, total: nat, m: nat)
    requires 0 < total < |bits| && 0 < m
    ensures var k := FirstWindow(bits, total, total, m, 0);
            && (k == 0 <==> m - 1 <= total && !bits[total] && forall b :: 0 <= b < m - 1 ==> !bits[b])
            && (k > 0 ==> Visit(total, total, k) == k - 1 && k - 1 + m <= total)
  {
    hide FirstWindow;
    if m - 1 <= total {
      assert Visit(total, total, 0) == total;
      if ClearWindow(bits, total, total, 0, m) {
        forall b | 0 <= b < m - 1
          ensures !bits[b]
        {
          assert Visit(total, total, b + 1) == b;
        }
      }
    }
  }
}
