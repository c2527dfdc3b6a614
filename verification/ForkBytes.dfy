/** A file as one flat sequence of bytes, whatever stretches of the disk hold its blocks. */
module ForkBytes {
  import opened Words
  import opened ByteSlices

  /** `n` blocks in bytes, by addition. */
  function Times(n: nat, blk: nat): nat {
    if n == 0 then 0 else Times(n - 1, blk) + blk
  }

  lemma {:induction false} TimesIs(n: nat, blk: nat)
    ensures Times(n, blk) == n * blk
  {
    if n > 0 {
      TimesIs(n - 1, blk);
      assert (n - 1) * blk + blk == n * blk;
    }
  }

  lemma {:induction false} TimesLe(k: nat, n: nat, blk: nat)
    requires k < n
    ensures Times(k, blk) + blk <= Times(n, blk)
  {
    if k < n - 1 {
      TimesLe(k, n - 1, blk);
    }
  }

  /** The block of the disk that starts at byte `start`. */
  function BlockOf(disk: seq<Byte>, blk: nat, start: nat): (r: seq<Byte>)
    requires start + blk <= |disk|
    ensures |r| == blk
  {
    disk[start..start + blk]
  }

  ghost predicate OnDisk(size: nat, blk: nat, starts: seq<nat>) {
    forall k :: 0 <= k < |starts| ==> starts[k] + blk <= size
  }

  /** Two blocks do not overlap. */
  ghost predicate Apart(blk: nat, s: nat, t: nat) {
    s + blk <= t || t + blk <= s
  }

  ghost predicate AllApart(blk: nat, starts: seq<nat>) {
    forall i, j :: 0 <= i < j < |starts| ==> Apart(blk, starts[i], starts[j])
  }

  ghost predicate ApartFrom(blk: nat, starts: seq<nat>, t: nat) {
    forall i :: 0 <= i < |starts| ==> Apart(blk, starts[i], t)
  }

  /** The bytes of a file whose blocks start at these places of the disk, in this order. */
  function FileBytes(disk: seq<Byte>, blk: nat, starts: seq<nat>): (r: seq<Byte>)
    requires OnDisk(|disk|, blk, starts)
    ensures |r| == Times(|starts|, blk)
  {
    if starts == [] then []
    else FileBytes(disk, blk, starts[..|starts| - 1]) + BlockOf(disk, blk, starts[|starts| - 1])
  }

  /** The `k`-th stretch of the file is the `k`-th of its blocks. */
  lemma {:induction false} FileBlock(disk: seq<Byte>, blk: nat, starts: seq<nat>, k: nat)
    requires OnDisk(|disk|, blk, starts) && k < |starts|
    ensures Times(k, blk) + blk <= Times(|starts|, blk)
    ensures FileBytes(disk, blk, starts)[Times(k, blk)..Times(k, blk) + blk] == BlockOf(disk, blk, starts[k])
  {
    var n := |starts| - 1;
    TimesLe(k, |starts|, blk);
    if k < n {
      FileBlock(disk, blk, starts[..n], k);
    }
  }

  /** A write inside one block leaves every other block alone. */
  lemma OtherBlock(disk: seq<Byte>, blk: nat, s: nat, t: nat, o: nat, data: seq<Byte>)
    requires (Apart(blk, s, t) || Apart(blk, t, s)) && o + |data| <= blk
    requires s + blk <= |disk| && t + blk <= |disk|
    ensures BlockOf(Overlay(disk, t + o, data), blk, s) == BlockOf(disk, blk, s)
  {
  }

  lemma SameBlock(disk: seq<Byte>, blk: nat, s: nat, o: nat, data: seq<Byte>)
    requires o + |data| <= blk && s + blk <= |disk|
    ensures BlockOf(Overlay(disk, s + o, data), blk, s) == Overlay(BlockOf(disk, blk, s), o, data)
  {
  }

  /** A write inside a block that the file does not have leaves the file alone. */
  lemma {:induction false} WriteElsewhere(disk: seq<Byte>, blk: nat, starts: seq<nat>, t: nat, o: nat, data: seq<Byte>)
    requires OnDisk(|disk|, blk, starts) && ApartFrom(blk, starts, t)
    requires t + blk <= |disk| && o + |data| <= blk
    ensures FileBytes(Overlay(disk, t + o, data), blk, starts) == FileBytes(disk, blk, starts)
  {
    if starts != [] {
      var n := |starts| - 1;
      WriteElsewhere(disk, blk, starts[..n], t, o, data);
      OtherBlock(disk, blk, starts[n], t, o, data);
    }
  }

  /** A write inside one block of a file is the same write on the flat file. */
  lemma {:induction false} WriteInBlock(disk: seq<Byte>, blk: nat, starts: seq<nat>, k: nat, o: nat, data: seq<Byte>)
    requires OnDisk(|disk|, blk, starts) && AllApart(blk, starts) && k < |starts|
    requires o + |data| <= blk
    ensures Times(k, blk) + blk <= Times(|starts|, blk)
    ensures FileBytes(Overlay(disk, starts[k] + o, data), blk, starts)
            == Overlay(FileBytes(disk, blk, starts), Times(k, blk) + o, data)
  {
    hide FileBytes, Overlay, Apart, Times;
    var n := |starts| - 1;
    TimesLe(k, |starts|, blk);
    if k < n {
      TimesLe(k, n, blk);
      WriteInBlock(disk, blk, starts[..n], k, o, data);
      WriteBeforeLast(disk, blk, starts, k, o, data);
    } else {
      WriteInLast(disk, blk, starts, o, data);
    }
  }

  lemma WriteBeforeLast(disk: seq<Byte>, blk: nat, starts: seq<nat>, k: nat, o: nat, data: seq<Byte>)
    requires OnDisk(|disk|, blk, starts) && AllApart(blk, starts) && k < |starts| - 1
    requires o + |data| <= blk && Times(k, blk) + blk <= Times(|starts| - 1, blk)
    requires var n := |starts| - 1;
             FileBytes(Overlay(disk, starts[k] + o, data), blk, starts[..n])
             == Overlay(FileBytes(disk, blk, starts[..n]), Times(k, blk) + o, data)
    ensures FileBytes(Overlay(disk, starts[k] + o, data), blk, starts)
            == Overlay(FileBytes(disk, blk, starts), Times(k, blk) + o, data)
  {
    hide FileBytes, BlockOf, Overlay, Apart, Times;
    var n, t := |starts| - 1, starts[k];
    LastBlock(disk, blk, starts);
    LastBlock(Overlay(disk, t + o, data), blk, starts);
    OtherBlock(disk, blk, starts[n], t, o, data);
    OverlayLeft(FileBytes(disk, blk, starts[..n]), BlockOf(disk, blk, starts[n]), Times(k, blk) + o, data);
  }

  lemma WriteInLast(disk: seq<Byte>, blk: nat, starts: seq<nat>, o: nat, data: seq<Byte>)
    requires OnDisk(|disk|, blk, starts) && AllApart(blk, starts) && starts != [] && o + |data| <= blk
    ensures var n := |starts| - 1;
            && Times(n, blk) + blk <= Times(|starts|, blk)
            && FileBytes(Overlay(disk, starts[n] + o, data), blk, starts)
               == Overlay(FileBytes(disk, blk, starts), Times(n, blk) + o, data)
  {
    hide FileBytes, BlockOf, Overlay, Apart, Times;
    var n := |starts| - 1;
    TimesLe(n, |starts|, blk);
    LastBlock(disk, blk, starts);
    LastBlock(Overlay(disk, starts[n] + o, data), blk, starts);
    WriteElsewhere(disk, blk, starts[..n], starts[n], o, data);
    SameBlock(disk, blk, starts[n], o, data);
    OverlayRight(FileBytes(disk, blk, starts[..n]), BlockOf(disk, blk, starts[n]), o, data);
  }

  lemma LastBlock(disk: seq<Byte>, blk: nat, starts: seq<nat>)
    requires OnDisk(|disk|, blk, starts) && starts != []
    ensures var n := |starts| - 1;
            FileBytes(disk, blk, starts) == FileBytes(disk, blk, starts[..n]) + BlockOf(disk, blk, starts[n])
  {
  }

  /** Appending blocks to a file keeps its bytes as a prefix. */
  lemma {:induction false} AppendedBlocks(disk: seq<Byte>, blk: nat, starts: seq<nat>, more: seq<nat>)
    requires OnDisk(|disk|, blk, starts) && OnDisk(|disk|, blk, starts + more)
    ensures FileBytes(disk, blk, starts) <= FileBytes(disk, blk, starts + more)
  {
    if more == [] {
      assert starts + more == starts;
    } else {
      var n := |starts + more| - 1;
      var less := more[..|more| - 1];
      assert (starts + more)[..n] == starts + less;
      AppendedBlocks(disk, blk, starts, less);
    }
  }

  /** Byte `p` of the disk lies in none of the blocks. */
  ghost predicate Outside(blk: nat, starts: seq<nat>, p: nat) {
    forall k :: 0 <= k < |starts| ==> !(starts[k] <= p < starts[k] + blk)
  }

  /** Nothing has changed outside the file's blocks. */
  ghost predicate SameOutside(before: seq<Byte>, after: seq<Byte>, blk: nat, starts: seq<nat>) {
    && |before| == |after|
    && forall p: nat :: p < |before| && Outside(blk, starts, p) ==> after[p] == before[p]
  }

  /** What happens outside the blocks of one file does not change a file made of other blocks. */
  lemma {:induction false} OtherFileSafe(before: seq<Byte>, after: seq<Byte>, blk: nat, starts: seq<nat>,
                                         other: seq<nat>)
    requires SameOutside(before, after, blk, starts) && OnDisk(|before|, blk, other)
    requires forall k :: 0 <= k < |other| ==> ApartFrom(blk, starts, other[k])
    ensures FileBytes(after, blk, other) == FileBytes(before, blk, other)
  {
    if other != [] {
      var n := |other| - 1;
      OtherFileSafe(before, after, blk, starts, other[..n]);
      var s := other[n];
      assert ApartFrom(blk, starts, s);
      forall i | 0 <= i < blk
        ensures BlockOf(after, blk, s)[i] == BlockOf(before, blk, s)[i]
      {
        assert Outside(blk, starts, s + i);
      }
      assert BlockOf(after, blk, s) == BlockOf(before, blk, s);
    }
  }
}
