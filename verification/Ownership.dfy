/** Which file owns which block: the conservation law behind the bitmap. */
module Ownership {
  import opened Allocation
  import opened Extents
  import opened ExtentLaws

  /** Block `b` lies in slot `i` of file `f`. */
  ghost predicate Owns(exts: seq<seq<Extent>>, f: nat, i: nat, b: nat) {
    f < |exts| && i < |exts[f]| && Holds(exts[f][i], b)
  }

  ghost predicate Owned(exts: seq<seq<Extent>>, b: nat) {
    exists f: nat, i: nat :: Owns(exts, f, i, b)
  }

  /**
   * The set bits of the bitmap are exactly the blocks of the files and the reserved blocks (the volume's
   * own structures), and no block has two owners.
   */
  ghost predicate Conserved(bits: seq<bool>, total: nat, exts: seq<seq<Extent>>, reserved: set<nat>) {
    && total <= |bits|
    && (forall f: nat, i: nat, b: nat :: Owns(exts, f, i, b) ==> b < total && bits[b] && b !in reserved)
    && (forall f: nat, i: nat, f': nat, i': nat, b: nat ::
          Owns(exts, f, i, b) && Owns(exts, f', i', b) ==> f == f' && i == i')
    && (forall b: nat :: b < total && bits[b] ==> b in reserved || Owned(exts, b))
    && (forall b: nat :: b < total && b in reserved ==> bits[b])
  }

  /** Giving a clear run to a slot keeps the law. */
  lemma GrowKeeps(bits: seq<bool>, total: nat, exts: seq<seq<Extent>>, reserved: set<nat>,
                  f: nat, i: nat, e: Extent, start: nat, count: nat)
    requires Conserved(bits, total, exts, reserved)
    requires f < |exts| && i < |exts[f]|
    requires count > 0 ==> start + count <= total
    requires forall b :: start <= b < start + count ==> !bits[b]
    requires forall b: nat :: Holds(e, b) <==> Holds(exts[f][i], b) || start <= b < start + count
    ensures Conserved(SetRun(bits, start, count, true), total, exts[f := exts[f][i := e]], reserved)
  {
    var exts' := exts[f := exts[f][i := e]];
    var bits' := SetRun(bits, start, count, true);
    forall g: nat, j: nat, b: nat
      ensures Owns(exts', g, j, b) <==> Owns(exts, g, j, b) || (g == f && j == i && start <= b < start + count)
    {
    }
    forall b: nat | b < total && bits'[b]
      ensures b in reserved || Owned(exts', b)
    {
      if start <= b < start + count {
        assert Owns(exts', f, i, b);
      } else if b !in reserved {
        assert bits[b];
        var g: nat, j: nat :| Owns(exts, g, j, b);
        assert Owns(exts', g, j, b);
      }
    }
  }

  /** Dropping blocks from a file and clearing exactly their bits keeps the law. */
  lemma CutKeeps(bits: seq<bool>, after: seq<bool>, total: nat, exts: seq<seq<Extent>>, reserved: set<nat>,
                 f: nat, cut: seq<Extent>, gone: seq<nat>)
    requires Conserved(bits, total, exts, reserved)
    requires f < |exts| && SlotwiseWithout(exts[f], cut, gone)
    requires |after| == |bits| && forall b: nat :: b < |bits| ==> after[b] == (bits[b] && b !in gone)
    requires forall b: nat :: b in gone ==> exists i: nat :: Owns(exts, f, i, b)
    ensures Conserved(after, total, exts[f := cut], reserved)
  {
    var exts' := exts[f := cut];
    forall h: nat, j: nat, b: nat
      ensures Owns(exts', h, j, b) <==> Owns(exts, h, j, b) && b !in gone
    {
      assert b in gone ==> exists i: nat :: Owns(exts, f, i, b);
      if h == f && j < |cut| {
        assert HoldsWithout(exts[f][j], cut[j], gone, b);
      } else {
        assert Owns(exts', h, j, b) <==> Owns(exts, h, j, b);
      }
    }
    forall b: nat | b < total && after[b]
      ensures b in reserved || Owned(exts', b)
    {
      if b !in reserved {
        var h: nat, j: nat :| Owns(exts, h, j, b);
        assert Owns(exts', h, j, b);
      }
    }
    forall b: nat | b < total && b in reserved
      ensures after[b]
    {
      assert b in gone ==> exists i: nat :: Owns(exts, f, i, b);
    }
  }
}
