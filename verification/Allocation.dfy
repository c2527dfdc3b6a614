/** Block allocation on the volume bitmap (src/FileManagerStubs.c). */
module Allocation {
  import opened Words
  import opened Bitmap

  /** What FindFreeRun answers when it finds nothing. */
  const NO_RUN: nat := 0xFFFF_FFFF

  /** The allocator as a value: the bitmap's flags, padded to whole bytes,
      whether it is in memory, and the two counters of the VCB. */
  datatype AllocMap = AllocMap(loaded: bool, bits: seq<bool>, total: nat, free: nat, ptr: int)

  // ---- The order in which FindFreeRun visits blocks ---------------------------------------

  /** Blocks visited before the search wraps to block 0. A hint beyond the volume is itself looked at once. */
  function TailLen(total: nat, hint: nat): (n: nat)
    ensures n >= 1
  {
    if hint < total then total - hint else 1
  }

  function VisitLen(total: nat, hint: nat): nat {
    TailLen(total, hint) + if hint < total then hint else total
  }

  /** The `k`-th block the search looks at. */
  function Visit(total: nat, hint: nat, k: nat): nat {
    if k < TailLen(total, hint) then hint + k else k - TailLen(total, hint)
  }

  /** Every visited block lies in the padded bitmap. */
  ghost predicate InReach(bits: seq<bool>, total: nat, hint: nat) {
    0 < total <= |bits| && hint < |bits|
  }

  /** The `m` blocks visited from step `k` on are all clear. */
  predicate ClearWindow(bits: seq<bool>, total: nat, hint: nat, k: nat, m: nat)
    requires InReach(bits, total, hint)
    requires k + m <= VisitLen(total, hint)
  {
    forall j :: k <= j < k + m ==> !bits[Visit(total, hint, j)]
  }

  /** The first step at or after `k` that starts a clear window of `m` visited blocks. */
  function FirstWindow(bits: seq<bool>, total: nat, hint: nat, m: nat, k: nat): (r: int)
    requires InReach(bits, total, hint)
    ensures r == -1 || (k <= r && r + m <= VisitLen(total, hint) && ClearWindow(bits, total, hint, r, m))
    ensures forall i :: k <= i && i + m <= VisitLen(total, hint) && (r == -1 || i < r)
              ==> !ClearWindow(bits, total, hint, i, m)
    decreases VisitLen(total, hint) - k
  {
    if k + m > VisitLen(total, hint) then -1
    else if ClearWindow(bits, total, hint, k, m) then k
    else if k == VisitLen(total, hint) then -1
    else FirstWindow(bits, total, hint, m, k + 1)
  }

  /** The start block of the first window, in the source's encoding. */
  function FoundRun(bits: seq<bool>, total: nat, hint: nat, m: nat): (r: nat)
    requires InReach(bits, total, hint)
    ensures r == NO_RUN || m == 0 || r < |bits|
  {
    var k := FirstWindow(bits, total, hint, m, 0);
    if k == -1 then NO_RUN else Visit(total, hint, k)
  }

  method FindFreeRun(bitmap: array<bv8>, totalBlocks: nat, startHint: nat, minBlocks: nat) returns (found: nat)
    requires minBlocks > 0
    requires InReach(Bits(bitmap[..]), totalBlocks, startHint)
    ensures found == FoundRun(Bits(bitmap[..]), totalBlocks, startHint, minBlocks)
  {
    hide Bits, BitOf, Mask;
    ghost var bits := Bits(bitmap[..]);
    ghost var k: nat := 0;
    var start, count, firstFree, wrapped := startHint, 0, 0, false;
    while true
      invariant ScanState(bits, totalBlocks, startHint, minBlocks, k, count)
      invariant k < VisitLen(totalBlocks, startHint)
      invariant start == Visit(totalBlocks, startHint, k)
      invariant wrapped <==> k >= TailLen(totalBlocks, startHint)
      invariant count > 0 ==> firstFree == Visit(totalBlocks, startHint, k - count)
      decreases VisitLen(totalBlocks, startHint) - k
    {
      BitsAt(bitmap[..], start);
      ScanStep(bits, totalBlocks, startHint, minBlocks, k, count);
      NextVisit(totalBlocks, startHint, k);
      if !TestBit(bitmap, start) {
        if count == 0 {
          firstFree := start;
        }
        count := count + 1;
        if count >= minBlocks {
          return firstFree;
        }
      } else {
        count := 0;
      }
      k := k + 1;
      start := start + 1;
      if start >= totalBlocks {
        if wrapped {
          break;
        }
        start := 0;
        wrapped := true;
      }
      if wrapped && start >= startHint {
        break;
      }
    }
    found := NO_RUN;
  }

  /** Where the scan goes after step `k`, and when it ends. */
  lemma NextVisit(total: nat, hint: nat, k: nat)
    requires total > 0 && k < VisitLen(total, hint)
    ensures var start := Visit(total, hint, k) + 1;
            var next := if start >= total then 0 else start;
            var wrapped := k + 1 >= TailLen(total, hint);
            && wrapped == (start >= total || k >= TailLen(total, hint))
            && (k + 1 < VisitLen(total, hint) ==> Visit(total, hint, k + 1) == next)
            && (k + 1 == VisitLen(total, hint) <==>
                  (start >= total && k >= TailLen(total, hint)) || (wrapped && next >= hint))
  {
  }

  /** After `k` steps the last `count` visited blocks are clear, that run is too short, and no window is complete. */
  ghost predicate ScanState(bits: seq<bool>, total: nat, hint: nat, m: nat, k: nat, count: nat) {
    && InReach(bits, total, hint)
    && k <= VisitLen(total, hint)
    && count < m && count <= k
    && ClearWindow(bits, total, hint, k - count, count)
    && (count < k ==> bits[Visit(total, hint, k - count - 1)])
    && var r := FirstWindow(bits, total, hint, m, 0); r == -1 || r + m > k
  }

  lemma ScanStep(bits: seq<bool>, total: nat, hint: nat, m: nat, k: nat, count: nat)
    requires ScanState(bits, total, hint, m, k, count)
    requires k < VisitLen(total, hint)
    ensures var c := if bits[Visit(total, hint, k)] then 0 else count + 1;
            if c < m then ScanState(bits, total, hint, m, k + 1, c)
            else FoundRun(bits, total, hint, m) == Visit(total, hint, k - count)
  {
    var r := FirstWindow(bits, total, hint, m, 0);
    if bits[Visit(total, hint, k)] {
      assert r + m == k + 1 ==> r <= k < r + m;
    } else if count + 1 < m {
      assert r + m == k + 1 ==> r <= k - count - 1 < r + m;
    } else {
      assert ClearWindow(bits, total, hint, k - count, m);
    }
  }

  // ---- Allocating and freeing as functions of the allocator's value ------------------------

  /** The number of clear blocks from `start` on, inside the volume, up to `max`. */
  function RunLen(bits: seq<bool>, total: nat, start: nat, max: nat): (n: nat)
    requires total <= |bits|
    ensures n <= max && (n > 0 ==> start + n <= total)
    ensures forall b :: start <= b < start + n ==> !bits[b]
    ensures n == max || start + n >= total || bits[start + n]
    decreases max
  {
    if max == 0 || start >= total || bits[start] then 0 else 1 + RunLen(bits, total, start + 1, max - 1)
  }

  function SetRun(bits: seq<bool>, start: nat, count: nat, value: bool): (s: seq<bool>)
    requires start + count <= |bits| || count == 0
    ensures |s| == |bits|
    ensures forall b :: 0 <= b < |bits| ==> s[b] == if start <= b < start + count then value else bits[b]
    decreases count
  {
    if count == 0 then bits else SetRun(bits, start, count - 1, value)[start + count - 1 := value]
  }

  function CountClear(bits: seq<bool>): (n: nat)
    ensures n <= |bits|
  {
    if bits == [] then 0
    else CountClear(bits[..|bits| - 1]) + if bits[|bits| - 1] then 0 else 1
  }

  /** How many blocks of the run are in use. */
  function CountUsed(bits: seq<bool>, start: nat, count: nat): (n: nat)
    requires start + count <= |bits|
    ensures n <= count
  {
    if count == 0 then 0
    else CountUsed(bits, start, count - 1) + if bits[start + count - 1] then 1 else 0
  }

  lemma RunStart(bits: seq<bool>, start: nat)
    requires start <= |bits|
    ensures SetRun(bits, start, 0, false) == bits && CountUsed(bits, start, 0) == 0
  {
  }

  /** Extending a cleared run by one block. */
  lemma RunStep(bits: seq<bool>, start: nat, i: nat)
    requires start + i < |bits|
    ensures var done := SetRun(bits, start, i, false);
            && done[start + i] == bits[start + i]
            && SetRun(bits, start, i + 1, false) == (if bits[start + i] then done[start + i := false] else done)
            && CountUsed(bits, start, i + 1) == CountUsed(bits, start, i) + if bits[start + i] then 1 else 0
  {
  }

  datatype AllocResult = AllocResult(after: AllocMap, err: OSErr, start: nat, count: nat)

  ghost predicate WellFormed(a: AllocMap) {
    && a.total <= 0x7FFF
    && a.total <= |a.bits| <= 0x8000
    && a.free == CountClear(a.bits[..a.total])
    && 0 <= a.ptr && (a.ptr < a.total || a.ptr == 0)
  }

  function Taken(a: AllocMap, start: nat, count: nat): AllocMap
    requires start + count <= |a.bits| || count == 0
  {
    var next := S16(start + count);
    a.(bits := SetRun(a.bits, start, count, true),
       free := U16(a.free - count),
       ptr := if next >= a.total then 0 else next)
  }

  // ---- The free-block counter --------------------------------------------------------------

  lemma {:induction false} CountClearUpdate(bits: seq<bool>, i: nat, value: bool)
    requires i < |bits|
    ensures CountClear(bits[i := value]) + (if bits[i] then 0 else 1) == CountClear(bits) + (if value then 0 else 1)
  {
    var n := |bits| - 1;
    if i < n {
      assert bits[i := value][..n] == bits[..n][i := value];
      CountClearUpdate(bits[..n], i, value);
    } else {
      assert bits[i := value][..n] == bits[..n];
    }
  }

  /** Setting a clear run takes exactly its length off the number of clear blocks. */
  lemma {:induction false} CountAfterTaking(bits: seq<bool>, total: nat, start: nat, count: nat)
    requires start + count <= total <= |bits|
    requires forall b :: start <= b < start + count ==> !bits[b]
    ensures CountClear(SetRun(bits, start, count, true)[..total]) == CountClear(bits[..total]) - count
  {
    if count > 0 {
      var s := SetRun(bits, start, count - 1, true);
      CountAfterTaking(bits, total, start, count - 1);
      CountClearUpdate(s[..total], start + count - 1, true);
      assert s[start + count - 1 := true][..total] == s[..total][start + count - 1 := true];
    }
  }

  /** Taking the recounted run keeps the allocator well formed and its counter exact. */
  lemma TakingIsSafe(a: AllocMap, start: nat, max: nat)
    requires WellFormed(a) && start < |a.bits|
    ensures var count := RunLen(a.bits, a.total, start, max);
            && WellFormed(Taken(a, start, count))
            && Taken(a, start, count).free == a.free - count
  {
    hide RunLen, SetRun, CountClear, U16, S16;
    var count := RunLen(a.bits, a.total, start, max);
    U16Same(a.free);
    PointerAfter(a.total, start + count);
    if count > 0 {
      CountAfterTaking(a.bits, a.total, start, count);
      U16Same(a.free - count);
    } else {
      NothingTaken(a.bits, start);
    }
  }

  lemma NothingTaken(bits: seq<bool>, start: nat)
    ensures SetRun(bits, start, 0, true) == bits
  {
  }

  /** The search pointer stays on the volume. */
  lemma PointerAfter(total: nat, end: nat)
    requires total <= 0x7FFF && end <= 0x7FFF
    ensures S16(end) == end
  {
  }

  /** Where Alloc_Blocks places a run: the search from the hint, then the search from block 0. */
  ghost function ChosenStart(a: AllocMap, startHint: nat, minBlocks: nat): (r: nat)
    requires WellFormed(a) && 0 < a.total
    requires startHint < |a.bits| || startHint == 0
    ensures r == NO_RUN || minBlocks == 0 || r < |a.bits|
  {
    var first := FoundRun(a.bits, a.total, if startHint == 0 then a.ptr else startHint, minBlocks);
    if first == NO_RUN then FoundRun(a.bits, a.total, 0, minBlocks) else first
  }

  /** Alloc_Blocks: `write` is the result of writing the bitmap back to the disk. */
  ghost function AllocBlocks(a: AllocMap, startHint: nat, minBlocks: nat, maxBlocks: nat, write: OSErr)
    : (r: AllocResult)
    requires WellFormed(a)
    requires startHint < |a.bits| || startHint == 0
    ensures WellFormed(r.after) && r.after.total == a.total && |r.after.bits| == |a.bits|
    ensures r.count <= maxBlocks && r.start + r.count < |a.bits| + 1
  {
    if minBlocks == 0 || minBlocks > maxBlocks then AllocResult(a, paramErr, 0, 0)
    else if !a.loaded then AllocResult(a, ioErr, 0, 0)
    else if a.free < minBlocks then AllocResult(a, dskFulErr, 0, 0)
    else
      var start := ChosenStart(a, startHint, minBlocks);
      if start == NO_RUN then AllocResult(a, dskFulErr, 0, 0)
      else
        var count := RunLen(a.bits, a.total, start, maxBlocks);
        TakingIsSafe(a, start, maxBlocks);
        var after := Taken(a, start, count);
        if write != noErr then AllocResult(after, write, 0, 0) else AllocResult(after, noErr, start, count)
  }

  function Released(a: AllocMap, start: nat, count: nat): AllocMap
    requires start + count <= |a.bits|
  {
    a.(bits := SetRun(a.bits, start, count, false),
       free := U16(a.free + CountUsed(a.bits, start, count)),
       ptr := if start < U32(a.ptr) then S16(start) else a.ptr)
  }

  /** Clearing a run gives back exactly the blocks of it that were in use. */
  lemma {:induction false} CountAfterReleasing(bits: seq<bool>, total: nat, start: nat, count: nat)
    requires start + count <= total <= |bits|
    ensures CountClear(SetRun(bits, start, count, false)[..total])
            == CountClear(bits[..total]) + CountUsed(bits, start, count)
  {
    if count > 0 {
      var s := SetRun(bits, start, count - 1, false);
      CountAfterReleasing(bits, total, start, count - 1);
      CountClearUpdate(s[..total], start + count - 1, false);
      assert s[start + count - 1 := false][..total] == s[..total][start + count - 1 := false];
    }
  }

  lemma ReleasingIsSafe(a: AllocMap, start: nat, count: nat)
    requires WellFormed(a)
    requires start + count <= a.total
    ensures WellFormed(Released(a, start, count))
    ensures Released(a, start, count).free == a.free + CountUsed(a.bits, start, count)
  {
    CountAfterReleasing(a.bits, a.total, start, count);
  }

  /** Alloc_Free. */
  ghost function FreeBlocks(a: AllocMap, start: nat, count: nat, write: OSErr): (r: AllocResult)
    requires WellFormed(a)
    requires start + count < TWO_32
    ensures WellFormed(r.after) && r.after.total == a.total && |r.after.bits| == |a.bits|
  {
    if count == 0 || start + count > a.total then AllocResult(a, paramErr, 0, 0)
    else if !a.loaded then AllocResult(a, ioErr, 0, 0)
    else
      ReleasingIsSafe(a, start, count);
      AllocResult(Released(a, start, count), write, 0, 0)
  }
}
