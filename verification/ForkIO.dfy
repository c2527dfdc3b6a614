/** Reading and writing a file through its block map (IO_ReadFork and IO_WriteFork). */
module ForkIO {
  import opened Words
  import opened Arithmetic
  import opened Allocation
  import opened Extents
  import opened ExtentLaws
  import opened GrowthLaws
  import opened VolumeControl
  import opened FileControl
  import opened ByteSlices
  import opened ForkBytes

  /** Where the blocks of a file start on the disk. */
  function Starts(base: nat, blk: nat, blocks: seq<nat>): (s: seq<nat>)
    ensures |s| == |blocks|
    ensures forall k :: 0 <= k < |s| ==> s[k] == (base + blocks[k]) * blk
  {
    seq(|blocks|, k requires 0 <= k < |blocks| => (base + blocks[k]) * blk)
  }

  function FileStarts(base: nat, blk: nat, ext: seq<Extent>): (s: seq<nat>)
    ensures |s| == Total(ext)
    ensures forall k :: 0 <= k < |s| ==> s[k] == (base + Blocks(ext)[k]) * blk
  {
    Starts(base, blk, Blocks(ext))
  }

  /** The disk has room for all the blocks of the volume. */
  ghost predicate DiskFits(size: nat, base: nat, total: nat, blk: nat) {
    (base + total) * blk <= size
  }

  lemma {:induction false} BlocksBelow(ext: seq<Extent>, total: nat)
    requires forall i :: 0 <= i < |ext| && ext[i].count > 0 ==> ext[i].start + ext[i].count <= total
    ensures forall k :: 0 <= k < |Blocks(ext)| ==> Blocks(ext)[k] < total
  {
    if ext != [] {
      BlocksBelow(ext[..|ext| - 1], total);
    }
  }

  /** Disjoint slots make a list of different blocks. */
  lemma {:induction false} BlocksDiffer(ext: seq<Extent>, i: nat, j: nat)
    requires Disjoint(ext) && i < j < |Blocks(ext)|
    ensures Blocks(ext)[i] != Blocks(ext)[j]
  {
    var n := |ext| - 1;
    if j < |Blocks(ext[..n])| {
      BlocksDiffer(ext[..n], i, j);
    } else if i < |Blocks(ext[..n])| {
      var b := Blocks(ext)[i];
      assert Blocks(ext[..n])[i] == b && b in Blocks(ext[..n]);
      BlocksHeld(ext[..n], b);
      var s :| 0 <= s < n && Holds(ext[..n][s], b);
      assert Holds(ext[s], b) && !Holds(ext[n], b);
    }
  }

  /** A file's blocks are on the disk. */
  lemma StartsOnDisk(size: nat, base: nat, total: nat, blk: nat, ext: seq<Extent>)
    requires DiskFits(size, base, total, blk)
    requires forall i :: 0 <= i < |ext| && ext[i].count > 0 ==> ext[i].start + ext[i].count <= total
    ensures OnDisk(size, blk, FileStarts(base, blk, ext))
  {
    hide Blocks;
    BlocksBelow(ext, total);
    var s := FileStarts(base, blk, ext);
    forall k | 0 <= k < |s|
      ensures s[k] + blk <= size
    {
      BlockEnds(base, Blocks(ext)[k], total, blk);
    }
  }

  lemma BlockEnds(base: nat, b: nat, total: nat, blk: nat)
    requires b < total
    ensures (base + b) * blk + blk <= (base + total) * blk
  {
    assert (base + b) * blk + blk == (base + b + 1) * blk;
    MulLe(base + b + 1, base + total, blk);
  }

  lemma DifferentBlocksApart(base: nat, b: nat, c: nat, blk: nat)
    requires b != c
    ensures Apart(blk, (base + b) * blk, (base + c) * blk)
  {
    if b < c {
      BlockEnds(base, b, c, blk);
    } else {
      BlockEnds(base, c, b, blk);
    }
  }

  /** A file's blocks do not overlap on the disk. */
  lemma StartsApart(base: nat, blk: nat, ext: seq<Extent>)
    requires Disjoint(ext)
    ensures AllApart(blk, FileStarts(base, blk, ext))
  {
    hide Blocks, Apart;
    var s := FileStarts(base, blk, ext);
    forall i, j | 0 <= i < j < |s|
      ensures Apart(blk, s[i], s[j])
    {
      BlocksDiffer(ext, i, j);
      DifferentBlocksApart(base, Blocks(ext)[i], Blocks(ext)[j], blk);
    }
  }

  /** Byte `offset` of a file of `n` blocks lies in block `offset / blk`, if the file reaches that far. */
  lemma Locate(offset: nat, blk: nat, n: nat)
    requires blk > 0
    ensures Times(offset / blk, blk) + offset % blk == offset
    ensures offset / blk < n <==> offset < Times(n, blk)
    ensures 0 <= offset / blk && 0 <= offset % blk < blk
  {
    var k := offset / blk;
    assert offset == k * blk + offset % blk;
    TimesIs(k, blk);
    if k < n {
      TimesLe(k, n, blk);
    } else if n < k {
      TimesLe(n, k, blk);
    }
  }

  /** memcpy and the device hooks move `count` bytes. */
  method CopyBytes(src: array<Byte>, from: nat, dst: array<Byte>, to: nat, count: nat)
    requires src != dst && from + count <= src.Length && to + count <= dst.Length
    modifies dst
    ensures dst[..] == Overlay(old(dst[..]), to, src[from..from + count])
  {
    var i := 0;
    while i < count
      invariant i <= count
      invariant forall j :: 0 <= j < dst.Length ==>
                  dst[j] == if to <= j < to + i then src[from + (j - to)] else old(dst[j])
    {
      dst[to + i] := src[from + i];
      i := i + 1;
    }
  }

  /** How many of `count` bytes at `offset` lie within `mapped` bytes. */
  function Reachable(offset: nat, count: nat, mapped: nat): (n: nat)
    ensures n <= count
  {
    if offset + count <= mapped then count else if offset < mapped then mapped - offset else 0
  }

  /**
   * What a transfer of `n` bytes at `offset` comes to in a file with blocks for `len` bytes: as much as there are
   * blocks for is moved, and only a transfer that moves nothing of what it should is an error.
   */
  predicate Moves(len: nat, offset: nat, n: nat, err: OSErr, actual: nat) {
    && actual == (if offset + n <= len then n else if offset < len then len - offset else 0)
    && err == if n > 0 && actual == 0 then -36 else 0
  }

  /** The bytes of a file on a disk, in file order. */
  ghost function Flat(disk: seq<Byte>, base: nat, blk: nat, ext: seq<Extent>): (r: seq<Byte>)
    requires OnDisk(|disk|, blk, FileStarts(base, blk, ext))
    ensures |r| == Times(Total(ext), blk)
  {
    FileBytes(disk, blk, FileStarts(base, blk, ext))
  }

  /** The part of one block that a transfer touches is the same part of the flat file. */
  lemma FlatPart(disk: seq<Byte>, base: nat, blk: nat, ext: seq<Extent>, k: nat, o: nat, len: nat)
    requires OnDisk(|disk|, blk, FileStarts(base, blk, ext)) && k < Total(ext) && o + len <= blk
    ensures Times(k, blk) + blk <= Times(Total(ext), blk)
    ensures (base + Blocks(ext)[k]) * blk + blk <= |disk|
    ensures var start := (base + Blocks(ext)[k]) * blk;
            Flat(disk, base, blk, ext)[Times(k, blk) + o..Times(k, blk) + o + len] == disk[start + o..start + o + len]
  {
    hide Times, FileBytes, FileStarts, Blocks, Total;
    var starts := FileStarts(base, blk, ext);
    FileBlock(disk, blk, starts, k);
    PartOfBlock(FileBytes(disk, blk, starts), Times(k, blk), disk, starts[k], blk, o, len);
  }

  lemma PartOfBlock(s: seq<Byte>, at: nat, t: seq<Byte>, from: nat, blk: nat, o: nat, len: nat)
    requires at + blk <= |s| && from + blk <= |t| && o + len <= blk
    requires s[at..at + blk] == t[from..from + blk]
    ensures s[at + o..at + o + len] == t[from + o..from + o + len]
  {
    SliceOfSlice(s, at, at + blk, o, len);
    SliceOfSlice(t, from, from + blk, o, len);
  }

  /** What the volume promises about a file before a transfer. */
  ghost predicate Transferable(disk: array<Byte>, vcb: VCB, fcb: FCB)
    reads vcb, fcb
  {
    && Resident(fcb.AsFork(), vcb.nmAlBlks, vcb.alBlkSiz)
    && Disjoint(fcb.ext)
    && DiskFits(disk.Length, vcb.alBlSt, vcb.nmAlBlks, vcb.alBlkSiz)
  }

  /** Moving one piece of a block into the caller's buffer: whole blocks directly, parts by way of a block buffer. */
  method ReadPiece(disk: array<Byte>, blk: nat, start: nat, o: nat, len: nat, buffer: array<Byte>, at: nat)
    requires disk != buffer && o + len <= blk && start + blk <= disk.Length && at + len <= buffer.Length
    modifies buffer
    ensures buffer[..] == Overlay(old(buffer[..]), at, disk[start + o..start + o + len])
  {
    hide Overlay;
    if o != 0 || len < blk {
      var blockBuffer := new Byte[blk];
      ReadWholeBlock(disk, start, blockBuffer);
      SliceOfSlice(disk[..], start, start + blk, o, len);
      SliceOfSlice(blockBuffer[..], 0, blk, o, len);
      CopyBytes(blockBuffer, o, buffer, at, len);
    } else {
      CopyBytes(disk, start + o, buffer, at, len);
    }
  }

  /** DeviceRead of one block. */
  method ReadWholeBlock(disk: array<Byte>, start: nat, blockBuffer: array<Byte>)
    requires disk != blockBuffer && start + blockBuffer.Length <= disk.Length
    modifies blockBuffer
    ensures blockBuffer[..] == disk[start..start + blockBuffer.Length]
  {
    hide Overlay;
    OverlayAll(blockBuffer[..], disk[start..start + blockBuffer.Length]);
    CopyBytes(disk, start, blockBuffer, 0, blockBuffer.Length);
  }

  /** The bytes of `flat` at `offset`, as many as there are up to `n`. */
  function Piece(flat: seq<Byte>, offset: nat, n: nat): (r: seq<Byte>)
    ensures offset + n <= |flat| ==> |r| == n
    ensures n == 0 ==> r == []
  {
    if offset + n <= |flat| then flat[offset..offset + n] else []
  }

  lemma PieceGrows(flat: seq<Byte>, offset: nat, m: nat, len: nat, s: seq<Byte>)
    requires offset + m + len <= |flat| && m + len <= |s|
    ensures Overlay(Overlay(s, 0, Piece(flat, offset, m)), m, flat[offset + m..offset + m + len])
            == Overlay(s, 0, Piece(flat, offset, m + len))
  {
    hide Overlay;
    OverlayTwice(s, 0, Piece(flat, offset, m), flat[offset + m..offset + m + len]);
    SlicesJoin(flat, offset, offset + m, offset + m + len);
  }

  lemma SlicesJoin(s: seq<Byte>, a: nat, b: nat, c: nat)
    requires a <= b <= c <= |s|
    ensures s[a..b] + s[b..c] == s[a..c]
  {
  }

  /** The number of bytes IO_ReadFork sets out to move; the end of the request is computed in 32 bits. */
  function ReadRequest(offset: nat, count: nat, eof: nat): (n: nat)
    requires offset < eof
  {
    if U32(offset + count) > eof then eof - offset else count
  }

  /** One pass of the read loop: what is left of the request in the block at `pos`. */
  method ReadNext(vcb: VCB, fcb: FCB, disk: array<Byte>, pos: nat, left: nat, buffer: array<Byte>, at: nat)
    returns (err: OSErr, moved: nat)
    requires Transferable(disk, vcb, fcb)
    requires OnDisk(disk.Length, vcb.alBlkSiz, FileStarts(vcb.alBlSt, vcb.alBlkSiz, fcb.ext))
    requires disk != buffer && left > 0 && at + left <= buffer.Length
    modifies buffer
    ensures var flat := Flat(disk[..], vcb.alBlSt, vcb.alBlkSiz, fcb.ext);
            if pos >= |flat| then err == ioErr && moved == 0 && buffer[..] == old(buffer[..])
            else
              && err == noErr && 0 < moved <= left && pos + moved <= |flat|
              && buffer[..] == Overlay(old(buffer[..]), at, flat[pos..pos + moved])
  {
    hide Flat, FileStarts, Blocks, Times, Overlay, Total;
    var blk := vcb.alBlkSiz;
    var fileBlock, blockOffset := pos / blk, pos % blk;
    Locate(pos, blk, Total(fcb.ext));
    var physBlock, contiguous;
    err, physBlock, contiguous := MapBlock(fcb, fileBlock);
    if err != noErr {
      return err, 0;
    }
    moved := blk - blockOffset;
    if moved > left {
      moved := left;
    }
    FlatPart(disk[..], vcb.alBlSt, blk, fcb.ext, fileBlock, blockOffset, moved);
    ReadPiece(disk, blk, (vcb.alBlSt + physBlock) * blk, blockOffset, moved, buffer, at);
  }

  lemma NothingYet(s: seq<Byte>, flat: seq<Byte>, offset: nat)
    ensures Piece(flat, offset, 0) == [] && Overlay(s, 0, Piece(flat, offset, 0)) == s
  {
  }

  /** The read loop of IO_ReadFork, with its error: what is asked for as far as it has blocks. */
  method ReadMapped(vcb: VCB, fcb: FCB, disk: array<Byte>, offset: nat, n: nat, buffer: array<Byte>)
    returns (err: OSErr, actual: nat)
    requires Transferable(disk, vcb, fcb)
    requires OnDisk(disk.Length, vcb.alBlkSiz, FileStarts(vcb.alBlSt, vcb.alBlkSiz, fcb.ext))
    requires disk != buffer && n <= buffer.Length
    modifies buffer
    ensures var flat := Flat(disk[..], vcb.alBlSt, vcb.alBlkSiz, fcb.ext);
            && actual == Reachable(offset, n, |flat|)
            && err == (if n > 0 && actual == 0 then ioErr else noErr)
            && |Piece(flat, offset, actual)| <= buffer.Length
            && buffer[..] == Overlay(old(buffer[..]), 0, Piece(flat, offset, actual))
  {
    hide Flat, FileStarts, Blocks, Times, Overlay, Total, Piece;
    var left := n;
    actual := 0;
    ghost var flat := Flat(disk[..], vcb.alBlSt, vcb.alBlkSiz, fcb.ext);
    ghost var before := buffer[..];
    NothingYet(before, flat, offset);
    while left > 0
      invariant actual + left == n
      invariant actual > 0 ==> offset + actual <= |flat|
      invariant |Piece(flat, offset, actual)| == actual && |before| == buffer.Length
      invariant buffer[..] == Overlay(before, 0, Piece(flat, offset, actual))
    {
      var moved;
      err, moved := ReadNext(vcb, fcb, disk, offset + actual, left, buffer, actual);
      if err != noErr {
        if actual > 0 {
          return noErr, actual;
        }
        return err, 0;
      }
      PieceGrows(flat, offset, actual, moved, before);
      left := left - moved;
      actual := actual + moved;
    }
    err := noErr;
  }

  /**
   * What a read comes to: nothing at the end of the file or after it, else what lies before the end as it is checked.
   */
  ghost predicate ReadTold(eof: nat, flat: seq<Byte>, offset: nat, count: nat, err: OSErr, actual: nat) {
    if offset >= eof then err == -39 && actual == 0
    else Moves(|flat|, offset, if (offset + count) % 0x1_0000_0000 > eof then eof - offset else count, err, actual)
  }

  lemma ReadIs(flat: seq<Byte>, offset: nat, n: nat, actual: nat, buffer: seq<Byte>)
    requires actual == Reachable(offset, n, |flat|) && |Piece(flat, offset, actual)| <= |buffer| && actual <= |buffer|
    ensures var after := Overlay(buffer, 0, Piece(flat, offset, actual));
            && (actual > 0 ==> offset + actual <= |flat| && after[..actual] == flat[offset..offset + actual])
            && after[actual..] == buffer[actual..]
  {
  }

  /**
   * IO_ReadFork. It moves the file's bytes at `offset` into the buffer, as many as are asked for, lie
   * before the end the code checks, and have blocks; the rest of the buffer is untouched.
   */
  method ReadFork(vcb: VCB, fcb: FCB, disk: array<Byte>, offset: nat, count: nat, buffer: array<Byte>)
    returns (err: OSErr, actual: nat)
    requires Transferable(disk, vcb, fcb)
    requires disk != buffer && count <= buffer.Length
    requires offset < TWO_32 && count < TWO_32
    modifies buffer, fcb`outerCrPs
    ensures OnDisk(disk.Length, vcb.alBlkSiz, FileStarts(vcb.alBlSt, vcb.alBlkSiz, fcb.ext))
    ensures offset >= fcb.eof ==>
              err == eofErr && actual == 0 && buffer[..] == old(buffer[..]) && fcb.outerCrPs == old(fcb.outerCrPs)
    ensures offset < fcb.eof ==>
              var flat := Flat(disk[..], vcb.alBlSt, vcb.alBlkSiz, fcb.ext);
              var n := ReadRequest(offset, count, fcb.eof);
              && actual == Reachable(offset, n, |flat|) <= buffer.Length
              && err == (if n > 0 && actual == 0 then ioErr else noErr)
              && |Piece(flat, offset, actual)| <= buffer.Length
              && buffer[..] == Overlay(old(buffer[..]), 0, Piece(flat, offset, actual))
              && fcb.outerCrPs == if actual == n then U32(offset + n) else old(fcb.outerCrPs)
    ensures var flat := Flat(disk[..], vcb.alBlSt, vcb.alBlkSiz, fcb.ext);
            && ReadTold(fcb.eof, flat, offset, count, err, actual)
            && |buffer[..]| == |old(buffer[..])| && actual <= buffer.Length
            && (actual > 0 ==> offset + actual <= |flat| && buffer[..actual] == flat[offset..offset + actual])
            && buffer[actual..] == old(buffer[actual..])
  {
    hide Flat, FileStarts, Blocks, Times, Overlay, Total, Piece;
    StartsOnDisk(disk.Length, vcb.alBlSt, vcb.nmAlBlks, vcb.alBlkSiz, fcb.ext);
    if offset >= fcb.eof {
      return eofErr, 0;
    }
    var n: nat := count;
    if U32(offset + count) > fcb.eof {
      n := fcb.eof - offset;
    }
    err, actual := ReadMapped(vcb, fcb, disk, offset, n, buffer);
    ReadIs(Flat(disk[..], vcb.alBlSt, vcb.alBlkSiz, fcb.ext), offset, n, actual, old(buffer[..]));
    if actual == n {
      fcb.outerCrPs := U32(offset + actual);
    }
  }

  // ---- Writing -----------------------------------------------------------------------------

  /** A part of one block written over: whole blocks directly, parts by reading, changing and writing the block. */
  method WritePiece(disk: array<Byte>, blk: nat, start: nat, o: nat, len: nat, src: array<Byte>, at: nat)
    requires disk != src && o + len <= blk && start + blk <= disk.Length && at + len <= src.Length
    modifies disk
    ensures disk[..] == Overlay(old(disk[..]), start + o, src[at..at + len])
  {
    hide Overlay;
    if o != 0 || len < blk {
      var blockBuffer := new Byte[blk];
      ReadWholeBlock(disk, start, blockBuffer);
      ChangedBlock(disk[..], start, blk, o, src[at..at + len]);
      CopyBytes(src, at, blockBuffer, o, len);
      assert blockBuffer[0..blk] == blockBuffer[..];
      CopyBytes(blockBuffer, 0, disk, start, blk);
    } else {
      CopyBytes(src, at, disk, start + o, len);
    }
  }

  /** Writing a changed block back is writing the change. */
  lemma ChangedBlock(disk: seq<Byte>, start: nat, blk: nat, o: nat, data: seq<Byte>)
    requires start + blk <= |disk| && o + |data| <= blk
    ensures Overlay(disk, start, Overlay(disk[start..start + blk], o, data)) == Overlay(disk, start + o, data)
  {
  }

  /** A write inside one block of a file is the same write on the flat file, and touches nothing else. */
  lemma FlatWrite(disk: seq<Byte>, base: nat, blk: nat, ext: seq<Extent>, k: nat, o: nat, data: seq<Byte>)
    requires OnDisk(|disk|, blk, FileStarts(base, blk, ext)) && Disjoint(ext)
    requires k < Total(ext) && o + |data| <= blk
    ensures (base + Blocks(ext)[k]) * blk + blk <= |disk|
    ensures Times(k, blk) + blk <= Times(Total(ext), blk)
    ensures var after := Overlay(disk, (base + Blocks(ext)[k]) * blk + o, data);
            && Flat(after, base, blk, ext) == Overlay(Flat(disk, base, blk, ext), Times(k, blk) + o, data)
            && SameOutside(disk, after, blk, FileStarts(base, blk, ext))
  {
    hide Times, FileBytes, FileStarts, Blocks, Total;
    var starts := FileStarts(base, blk, ext);
    StartsApart(base, blk, ext);
    WriteInBlock(disk, blk, starts, k, o, data);
    OverlayOutside(disk, blk, starts, k, o, data);
  }

  /** The same at position `pos` of the file, where block `phys` is. */
  lemma WriteAt(disk: seq<Byte>, base: nat, blk: nat, ext: seq<Extent>, pos: nat, phys: nat, data: seq<Byte>)
    requires blk > 0 && OnDisk(|disk|, blk, FileStarts(base, blk, ext)) && Disjoint(ext)
    requires pos / blk < Total(ext) && phys == Blocks(ext)[pos / blk] && pos % blk + |data| <= blk
    ensures (base + phys) * blk + blk <= |disk| && pos + |data| <= Times(Total(ext), blk)
    ensures var after := Overlay(disk, (base + phys) * blk + pos % blk, data);
            && Flat(after, base, blk, ext) == Overlay(Flat(disk, base, blk, ext), pos, data)
            && SameOutside(disk, after, blk, FileStarts(base, blk, ext))
  {
    hide Flat, FileStarts, Blocks, Times, Overlay, Total, SameOutside, OnDisk;
    Locate(pos, blk, Total(ext));
    FlatWrite(disk, base, blk, ext, pos / blk, pos % blk, data);
  }

  lemma OverlayOutside(disk: seq<Byte>, blk: nat, starts: seq<nat>, k: nat, o: nat, data: seq<Byte>)
    requires k < |starts| && o + |data| <= blk && starts[k] + blk <= |disk|
    ensures SameOutside(disk, Overlay(disk, starts[k] + o, data), blk, starts)
  {
  }

  lemma OutsideTwice(a: seq<Byte>, b: seq<Byte>, c: seq<Byte>, blk: nat, starts: seq<nat>)
    requires SameOutside(a, b, blk, starts) && SameOutside(b, c, blk, starts)
    ensures SameOutside(a, c, blk, starts)
  {
  }

  /** One pass of the write loop. */
  method WriteNext(vcb: VCB, fcb: FCB, disk: array<Byte>, pos: nat, left: nat, src: array<Byte>, at: nat)
    returns (err: OSErr, moved: nat)
    requires Transferable(disk, vcb, fcb)
    requires OnDisk(disk.Length, vcb.alBlkSiz, FileStarts(vcb.alBlSt, vcb.alBlkSiz, fcb.ext))
    requires disk != src && left > 0 && at + left <= src.Length
    modifies disk
    ensures var starts := FileStarts(vcb.alBlSt, vcb.alBlkSiz, fcb.ext);
            var flat := Flat(old(disk[..]), vcb.alBlSt, vcb.alBlkSiz, fcb.ext);
            if pos >= |flat| then err == ioErr && moved == 0 && disk[..] == old(disk[..])
            else
              && err == noErr && 0 < moved <= left && pos + moved <= |flat|
              && Flat(disk[..], vcb.alBlSt, vcb.alBlkSiz, fcb.ext) == Overlay(flat, pos, src[at..at + moved])
              && SameOutside(old(disk[..]), disk[..], vcb.alBlkSiz, starts)
  {
    hide Flat, FileStarts, Blocks, Times, Overlay, Total, SameOutside;
    var blk := vcb.alBlkSiz;
    var fileBlock, blockOffset := pos / blk, pos % blk;
    Locate(pos, blk, Total(fcb.ext));
    var physBlock, contiguous;
    err, physBlock, contiguous := MapBlock(fcb, fileBlock);
    if err != noErr {
      return err, 0;
    }
    moved := blk - blockOffset;
    if moved > left {
      moved := left;
    }
    WriteAt(disk[..], vcb.alBlSt, blk, fcb.ext, pos, physBlock, src[at..at + moved]);
    WritePiece(disk, blk, (vcb.alBlSt + physBlock) * blk, blockOffset, moved, src, at);
  }

  /**
   * The write loop: the flat file is overwritten at `offset` with as much of the data as has blocks, and
   * not a byte outside the file's blocks changes.
   */
  method WriteMapped(vcb: VCB, fcb: FCB, disk: array<Byte>, offset: nat, count: nat, src: array<Byte>)
    returns (err: OSErr, actual: nat)
    requires Transferable(disk, vcb, fcb)
    requires OnDisk(disk.Length, vcb.alBlkSiz, FileStarts(vcb.alBlSt, vcb.alBlkSiz, fcb.ext))
    requires disk != src && count <= src.Length
    modifies disk
    ensures var flat := Flat(old(disk[..]), vcb.alBlSt, vcb.alBlkSiz, fcb.ext);
            && actual == Reachable(offset, count, |flat|)
            && err == (if count > 0 && actual == 0 then ioErr else noErr)
            && (actual > 0 ==> offset + actual <= |flat|)
            && Flat(disk[..], vcb.alBlSt, vcb.alBlkSiz, fcb.ext)
               == (if actual > 0 then Overlay(flat, offset, src[..actual]) else flat)
            && SameOutside(old(disk[..]), disk[..], vcb.alBlkSiz, FileStarts(vcb.alBlSt, vcb.alBlkSiz, fcb.ext))
  {
    hide Flat, FileStarts, Blocks, Times, Overlay, Total, SameOutside;
    actual := 0;
    var left: nat := count;
    ghost var flat := Flat(disk[..], vcb.alBlSt, vcb.alBlkSiz, fcb.ext);
    ghost var starts := FileStarts(vcb.alBlSt, vcb.alBlkSiz, fcb.ext);
    UnchangedOutside(disk[..], vcb.alBlkSiz, starts);
    while left > 0
      invariant actual + left == count && src[..] == old(src[..])
      invariant actual > 0 ==> offset + actual <= |flat|
      invariant Flat(disk[..], vcb.alBlSt, vcb.alBlkSiz, fcb.ext)
                == if actual > 0 then Overlay(flat, offset, src[..actual]) else flat
      invariant SameOutside(old(disk[..]), disk[..], vcb.alBlkSiz, starts)
    {
      ghost var before := disk[..];
      var moved;
      err, moved := WriteNext(vcb, fcb, disk, offset + actual, left, src, actual);
      if err != noErr {
        if actual > 0 {
          return noErr, actual;
        }
        return err, 0;
      }
      WriteGrows(flat, offset, src[..], actual, moved);
      OutsideTwice(old(disk[..]), before, disk[..], vcb.alBlkSiz, starts);
      left := left - moved;
      actual := actual + moved;
    }
    return noErr, actual;
  }

  lemma UnchangedOutside(disk: seq<Byte>, blk: nat, starts: seq<nat>)
    ensures SameOutside(disk, disk, blk, starts)
  {
  }

  lemma WriteGrows(flat: seq<Byte>, offset: nat, src: seq<Byte>, m: nat, len: nat)
    requires offset + m + len <= |flat| && m + len <= |src|
    ensures src[0..m] == src[..m]
    ensures Overlay(if m > 0 then Overlay(flat, offset, src[..m]) else flat, offset + m, src[m..m + len])
            == Overlay(flat, offset, src[..m + len])
  {
    hide Overlay;
    if m > 0 {
      OverlayTwice(flat, offset, src[..m], src[m..m + len]);
      SlicesJoin(src, 0, m, m + len);
    } else {
      assert src[m..m + len] == src[..m + len];
    }
  }

  /** The extension IO_WriteFork asks for; the end of the request is computed in 32 bits. */
  ghost function WriteExtend(a: AllocMap, f: Fork, g: Geometry, outer: nat, offset: nat, count: nat,
                             write: OSErr, insert: OSErr): ExtentResult
    requires WellFormed(a) && g.blk > 0 && HintInReach(a, f, g)
  {
    if U32(offset + count) > outer then Extend(a, f, g, U32(offset + count), write, insert)
    else ExtentResult(a, f, noErr)
  }

  lemma WriteExtendKeeps(a: AllocMap, f: Fork, g: Geometry, outer: nat, offset: nat, count: nat,
                         write: OSErr, insert: OSErr)
    requires Kept(a, f, g) && HintInReach(a, f, g) && insert != noErr
    ensures var x := WriteExtend(a, f, g, outer, offset, count, write, insert);
            Kept(x.after, x.fork, g) && x.after.total == a.total && x.after.loaded == a.loaded
  {
    hide Extend, Kept, HintInReach;
    ExtendKeeps(a, f, g, U32(offset + count), write, insert);
  }

  /** What a transfer changes in a file: its bytes, its logical length and the outer mark. */
  datatype FileState = FileState(flat: seq<Byte>, eof: nat, mark: nat)

  function Max(a: nat, b: nat): nat {
    if a < b then b else a
  }

  /**
   * The file after writing `data` at `offset`: as much of the data as the file has blocks for lies over the
   * old bytes, and the logical length and the mark follow only a transfer that is complete.
   */
  ghost predicate Written(before: FileState, after: FileState, offset: nat, data: seq<Byte>, err: OSErr, actual: nat) {
    && actual == Reachable(offset, |data|, |before.flat|)
    && err == (if |data| > 0 && actual == 0 then ioErr else noErr)
    && (actual > 0 ==> offset + actual <= |before.flat|)
    && after.flat == (if actual > 0 then Overlay(before.flat, offset, data[..actual]) else before.flat)
    && after.eof == (if actual == |data| then Max(before.eof, offset + |data|) else before.eof)
    && after.mark == (if actual == |data| then Max(before.mark, offset + |data|) else before.mark)
  }

  /**
   * What IO_WriteFork comes to after its extension `x`: nothing if that was refused and `offset` is not below the outer
   * length `outer` (or the file may not be written at all); else the data is written, up to the outer length if the
   * extension was refused.
   */
  ghost predicate Outcome(x: ExtentResult, writePerm: bool, outer: nat, before: FileState, after: FileState,
                          offset: nat, data: seq<Byte>, err: OSErr, actual: nat) {
    if x.err != noErr && (!writePerm || offset >= outer) then err == x.err && actual == 0 && after == before
    else
      var n := if x.err == noErr then |data| else outer - offset;
      n <= |data| && Written(before, after, offset, data[..n], err, actual)
  }

  /** The write loop with the bookkeeping after it. */
  method WriteAndMark(vcb: VCB, fcb: FCB, disk: array<Byte>, offset: nat, count: nat, src: array<Byte>)
    returns (err: OSErr, actual: nat)
    requires Transferable(disk, vcb, fcb)
    requires OnDisk(disk.Length, vcb.alBlkSiz, FileStarts(vcb.alBlSt, vcb.alBlkSiz, fcb.ext))
    requires disk != src && count <= src.Length
    modifies disk, fcb`eof, fcb`outerCrPs
    ensures var base, blk := vcb.alBlSt, vcb.alBlkSiz;
            && Written(FileState(Flat(old(disk[..]), base, blk, fcb.ext), old(fcb.eof), old(fcb.outerCrPs)),
                       FileState(Flat(disk[..], base, blk, fcb.ext), fcb.eof, fcb.outerCrPs),
                       offset, src[..count], err, actual)
            && SameOutside(old(disk[..]), disk[..], blk, FileStarts(base, blk, fcb.ext))
  {
    hide Flat, FileStarts, Blocks, Times, Overlay, Total, SameOutside;
    err, actual := WriteMapped(vcb, fcb, disk, offset, count, src);
    assert src[..count][..actual] == src[..actual];
    if actual < count {
      return err, actual;
    }
    if fcb.outerCrPs < offset + count {
      fcb.outerCrPs := offset + count;
    }
    if offset + count > fcb.eof {
      fcb.eof := offset + count;
    }
  }

  /**
   * IO_WriteFork. After the extension it asks for, the file is written as `Written` says, and no byte
   * outside its blocks changes. A refused extension leaves the part of the request below the outer length.
   */
  method WriteFork(vcb: VCB, fcb: FCB, disk: array<Byte>, offset: nat, count: nat, src: array<Byte>,
                   write: OSErr, insert: OSErr)
    returns (err: OSErr, actual: nat)
    requires vcb.Valid() && Kept(vcb.Map(), fcb.AsFork(), vcb.Geo())
    requires DiskFits(disk.Length, vcb.alBlSt, vcb.nmAlBlks, vcb.alBlkSiz)
    requires HintInReach(vcb.Map(), fcb.AsFork(), vcb.Geo())
    requires insert != noErr && disk != src && count <= src.Length
    requires disk as object != vcb.bitmap && src as object != vcb.bitmap
    requires offset < TWO_32 && count < TWO_32
    modifies vcb, vcb.bitmap, disk, fcb`ext, fcb`pLen, fcb`eof, fcb`outerCrPs
    ensures vcb.Valid() && Kept(vcb.Map(), fcb.AsFork(), vcb.Geo())
    ensures OnDisk(disk.Length, vcb.alBlkSiz, FileStarts(vcb.alBlSt, vcb.alBlkSiz, fcb.ext))
    ensures var base, blk := vcb.alBlSt, vcb.alBlkSiz;
            var x := if fcb.writePerm
                     then WriteExtend(old(vcb.Map()), old(fcb.AsFork()), vcb.Geo(), fcb.outerPLen, offset, count,
                                      write, insert)
                     else ExtentResult(old(vcb.Map()), old(fcb.AsFork()), wrPermErr);
            && vcb.Map() == x.after && vcb.nmAlBlks == old(vcb.nmAlBlks) && fcb.AsFork() == x.fork
            && Outcome(x, fcb.writePerm, fcb.outerPLen,
                       FileState(Flat(old(disk[..]), base, blk, fcb.ext), old(fcb.eof), old(fcb.outerCrPs)),
                       FileState(Flat(disk[..], base, blk, fcb.ext), fcb.eof, fcb.outerCrPs),
                       offset, src[..count], err, actual)
            && SameOutside(old(disk[..]), disk[..], blk, FileStarts(base, blk, fcb.ext))
  {
    hide Flat, FileStarts, Blocks, Written, Total, SameOutside, Extend, WellFormed;
    StartsOnDisk(disk.Length, vcb.alBlSt, vcb.nmAlBlks, vcb.alBlkSiz, fcb.ext);
    UnchangedOutside(disk[..], vcb.alBlkSiz, FileStarts(vcb.alBlSt, vcb.alBlkSiz, fcb.ext));
    if !fcb.writePerm {
      return wrPermErr, 0;
    }
    WriteExtendKeeps(vcb.Map(), fcb.AsFork(), vcb.Geo(), fcb.outerPLen, offset, count, write, insert);
    var left := count;
    if U32(offset + count) > fcb.outerPLen {
      err := ExtendFile(vcb, fcb, U32(offset + count), write, insert);
      StartsOnDisk(disk.Length, vcb.alBlSt, vcb.nmAlBlks, vcb.alBlkSiz, fcb.ext);
      if err != noErr {
        if offset >= fcb.outerPLen {
          UnchangedOutside(disk[..], vcb.alBlkSiz, FileStarts(vcb.alBlSt, vcb.alBlkSiz, fcb.ext));
          return err, 0;
        }
        U32AtMost(offset + count);
        left := fcb.outerPLen - offset;
      }
    }
    assert src[..count][..left] == src[..left];
    err, actual := WriteAndMark(vcb, fcb, disk, offset, left, src);
  }

  lemma U32AtMost(x: nat)
    ensures U32(x) <= x
  {
  }
}
