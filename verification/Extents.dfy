/** The three-slot extent record of a file: mapping, growing and cutting back (src/FileManagerStubs.c). */
module Extents {
  import opened Words
  import opened Allocation

  datatype Extent = Extent(start: nat, count: nat)

  /** What Ext_Extend and Ext_Truncate read and change in a file control block. */
  datatype Fork = Fork(ext: seq<Extent>, pLen: nat, clump: int)

  /** The constants of the volume: allocation block size and default clump size. */
  datatype Geometry = Geometry(blk: nat, clump: int)

  ghost predicate Holds(e: Extent, b: nat) {
    e.start <= b < e.start + e.count
  }

  // ---- The file's blocks in file order -----------------------------------------------------

  function Run(e: Extent): (s: seq<nat>)
    ensures |s| == e.count
  {
    seq(e.count, i requires 0 <= i => e.start + i)
  }

  /** The concatenation of the extents' runs: element `k` is the volume block of file block `k`. */
  function Blocks(ext: seq<Extent>): (s: seq<nat>)
    ensures |s| == Total(ext)
  {
    if ext == [] then [] else Blocks(ext[..|ext| - 1]) + Run(ext[|ext| - 1])
  }

  function Total(ext: seq<Extent>): nat {
    if ext == [] then 0 else Total(ext[..|ext| - 1]) + ext[|ext| - 1].count
  }

  /** No empty slot comes before a used one. */
  ghost predicate Packed(ext: seq<Extent>) {
    forall i, j :: 0 <= i < j < |ext| && ext[i].count == 0 ==> ext[j].count == 0
  }

  /** Blocks needed for a size in bytes, in 32-bit unsigned arithmetic. */
  function BlocksFor(size: nat, blk: nat): nat
    requires blk > 0
  {
    U32(size + blk - 1) / blk
  }

  /** A file whose blocks all lie in its three slots. */
  ghost predicate Resident(f: Fork, total: nat, blk: nat) {
    && |f.ext| == 3
    && Packed(f.ext)
    && blk > 0
    && f.pLen == Total(f.ext) * blk
    && Total(f.ext) <= total
    && (forall i :: 0 <= i < 3 && f.ext[i].count > 0 ==> f.ext[i].start + f.ext[i].count <= total)
    && total * blk + blk <= TWO_32
  }

  // ---- Ext_Extend --------------------------------------------------------------------------

  /** The end of the last used slot: the hint Ext_Extend searches from. */
  function LastEnd(ext: seq<Extent>): nat {
    if ext == [] then 0
    else
      var e := ext[|ext| - 1];
      if e.count > 0 then e.start + e.count else LastEnd(ext[..|ext| - 1])
  }

  /** The slot that takes a new run: the first that is empty or ends where the run starts. */
  function SlotFor(ext: seq<Extent>, start: nat, i: nat): (r: nat)
    requires i <= |ext|
    ensures i <= r <= |ext|
    ensures r < |ext| ==> ext[r].count == 0 || ext[r].start + ext[r].count == start
    ensures forall j :: i <= j < r ==> ext[j].count > 0 && ext[j].start + ext[j].count != start
    decreases |ext| - i
  {
    if i == |ext| then i
    else if ext[i].count == 0 || ext[i].start + ext[i].count == start then i
    else SlotFor(ext, start, i + 1)
  }

  function Grown(e: Extent, start: nat, count: nat): Extent {
    if e.count == 0 then Extent(U16(start), U16(count)) else Extent(e.start, U16(e.count + U16(count)))
  }

  /** The number of blocks the first attempt of Ext_Extend asks for. */
  function Wanted(f: Fork, g: Geometry, newSize: nat): nat
    requires g.blk > 0
  {
    var cur, need := BlocksFor(f.pLen, g.blk), BlocksFor(newSize, g.blk);
    var clumpSize := if f.clump != 0 then U32(f.clump) else U32(g.clump);
    var clumpBlocks := BlocksFor(clumpSize, g.blk);
    if need > cur && need - cur >= clumpBlocks then need - cur else clumpBlocks
  }

  datatype ExtentResult = ExtentResult(after: AllocMap, fork: Fork, err: OSErr)

  function ExtendHint(f: Fork, g: Geometry): nat
    requires g.blk > 0
  {
    if BlocksFor(f.pLen, g.blk) > 0 then LastEnd(f.ext) else 0
  }

  /** The file's bitmap search starts inside the cached bitmap. */
  ghost predicate HintInReach(a: AllocMap, f: Fork, g: Geometry)
    requires g.blk > 0
  {
    ExtendHint(f, g) < |a.bits| || ExtendHint(f, g) == 0
  }

  ghost predicate SearchInReach(a: AllocMap, f: Fork, g: Geometry) {
    g.blk > 0 && HintInReach(a, f, g)
  }

  /** The allocation of Ext_Extend: a clump after the file's end, else just the blocks needed, anywhere. */
  ghost function ExtendAlloc(a: AllocMap, f: Fork, g: Geometry, newSize: nat, write: OSErr): (r: AllocResult)
    requires WellFormed(a) && g.blk > 0 && HintInReach(a, f, g)
    requires BlocksFor(newSize, g.blk) > BlocksFor(f.pLen, g.blk)
    ensures WellFormed(r.after) && r.after.total == a.total && |r.after.bits| == |a.bits|
    ensures r.start + r.count <= |a.bits|
  {
    var want := Wanted(f, g, newSize);
    var min := BlocksFor(newSize, g.blk) - BlocksFor(f.pLen, g.blk);
    var first := AllocBlocks(a, ExtendHint(f, g), want, want, write);
    if first.err != noErr then AllocBlocks(first.after, 0, min, min, write) else first
  }

  /** Recording a granted run in the file, or giving it back when all three slots are taken. */
  ghost function Record(a: AllocMap, f: Fork, g: Geometry, start: nat, count: nat, write: OSErr, insert: OSErr)
    : ExtentResult
    requires WellFormed(a) && g.blk > 0 && start + count <= |a.bits|
  {
    var i := SlotFor(f.ext, start, 0);
    if i == |f.ext| then ExtentResult(FreeBlocks(a, start, count, write).after, f, insert)
    else
      var pLen := U32((BlocksFor(f.pLen, g.blk) + count) * g.blk);
      ExtentResult(a, f.(ext := f.ext[i := Grown(f.ext[i], start, count)], pLen := pLen), noErr)
  }

  /** Ext_Extend. `insert` is the error with which the overflow B-tree refuses a fourth extent. */
  ghost function Extend(a: AllocMap, f: Fork, g: Geometry, newSize: nat, write: OSErr, insert: OSErr): ExtentResult
    requires WellFormed(a) && g.blk > 0 && HintInReach(a, f, g)
  {
    if BlocksFor(newSize, g.blk) <= BlocksFor(f.pLen, g.blk) then ExtentResult(a, f, noErr)
    else
      var r := ExtendAlloc(a, f, g, newSize, write);
      if r.err != noErr then ExtentResult(r.after, f, r.err)
      else Record(r.after, f, g, r.start, r.count, write, insert)
  }

  // ---- Ext_Truncate ------------------------------------------------------------------------

  datatype CutResult = CutResult(after: AllocMap, ext: seq<Extent>, err: OSErr)

  /** Freeing `toFree` blocks from slots `n - 1` down to 0. */
  ghost function CutSlots(a: AllocMap, ext: seq<Extent>, n: nat, toFree: nat, write: OSErr): CutResult
    requires WellFormed(a) && n <= |ext|
    requires forall i :: 0 <= i < |ext| && ext[i].count > 0 ==> ext[i].start + ext[i].count <= a.total
    decreases n
  {
    if n == 0 then CutResult(a, ext, noErr)
    else
      var e := ext[n - 1];
      if e.count == 0 then CutSlots(a, ext, n - 1, toFree, write)
      else if toFree >= e.count then
        var r := FreeBlocks(a, e.start, e.count, write);
        if r.err != noErr then CutResult(r.after, ext, r.err)
        else if toFree == e.count then CutResult(r.after, ext[n - 1 := Extent(0, 0)], noErr)
        else CutSlots(r.after, ext[n - 1 := Extent(0, 0)], n - 1, toFree - e.count, write)
      else
        var keep := e.count - toFree;
        var r := FreeBlocks(a, e.start + keep, toFree, write);
        if r.err != noErr then CutResult(r.after, ext, r.err)
        else CutResult(r.after, ext[n - 1 := Extent(e.start, U16(keep))], noErr)
  }

  /** Ext_Truncate on a resident file. */
  ghost function Truncate(a: AllocMap, f: Fork, g: Geometry, newSize: nat, write: OSErr): ExtentResult
    requires WellFormed(a) && Resident(f, a.total, g.blk)
  {
    var cur, need := BlocksFor(f.pLen, g.blk), BlocksFor(newSize, g.blk);
    if need >= cur then ExtentResult(a, f, noErr)
    else
      var c := CutSlots(a, f.ext, 3, cur - need, write);
      if c.err != noErr then ExtentResult(c.after, f.(ext := c.ext), c.err)
      else ExtentResult(c.after, f.(ext := c.ext, pLen := U32(need * g.blk)), noErr)
  }
}
