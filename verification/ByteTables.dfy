/** Big-endian fields and tables of byte records. */
module ByteTables {
  import opened Words

  function BE16(x: int): (r: seq<Byte>)
    ensures |r| == 2
  {
    [U16(x) / 0x100, U16(x) % 0x100]
  }

  function BE24(x: int): (r: seq<Byte>)
    ensures |r| == 3
  {
    var v := x % 0x100_0000;
    [v / 0x1_0000] + BE16(v % 0x1_0000)
  }

  function BE32(x: int): (r: seq<Byte>)
    ensures |r| == 4
  {
    BE16(U32(x) / 0x1_0000) + BE16(U32(x) % 0x1_0000)
  }

  function Read16(s: seq<Byte>, at: nat): (v: nat)
    requires at + 2 <= |s|
    ensures v < TWO_16
  {
    s[at] as int * 0x100 + s[at + 1] as int
  }

  function Read24(s: seq<Byte>, at: nat): (v: nat)
    requires at + 3 <= |s|
    ensures v < 0x100_0000
  {
    s[at] as int * 0x1_0000 + s[at + 1] as int * 0x100 + s[at + 2] as int
  }

  function Read32(s: seq<Byte>, at: nat): (v: nat)
    requires at + 4 <= |s|
    ensures v < TWO_32
  {
    s[at] as int * 0x100_0000 + s[at + 1] as int * 0x1_0000 + s[at + 2] as int * 0x100 + s[at + 3] as int
  }

  lemma Read16Back(s: seq<Byte>, at: nat, x: int)
    requires at + 2 <= |s| && s[at..at + 2] == BE16(x)
    ensures Read16(s, at) == U16(x)
  {
    assert s[at] == s[at..at + 2][0] && s[at + 1] == s[at..at + 2][1];
  }

  lemma Read24Back(s: seq<Byte>, at: nat, x: int)
    requires at + 3 <= |s| && s[at..at + 3] == BE24(x)
    ensures Read24(s, at) == x % 0x100_0000
  {
    var t := s[at..at + 3];
    assert s[at] == t[0] && s[at + 1] == t[1] && s[at + 2] == t[2];
  }

  lemma Read32Back(s: seq<Byte>, at: nat, x: int)
    requires at + 4 <= |s| && s[at..at + 4] == BE32(x)
    ensures Read32(s, at) == U32(x)
  {
    var t := s[at..at + 4];
    assert s[at] == t[0] && s[at + 1] == t[1] && s[at + 2] == t[2] && s[at + 3] == t[3];
  }

  /** Four bytes are determined by the number they stand for. */
  lemma SameTag(s: seq<Byte>, t: seq<Byte>)
    requires |s| == 4 && |t| == 4
    ensures Read32(s, 0) == Read32(t, 0) <==> s == t
  {
    if Read32(s, 0) == Read32(t, 0) {
      assert s[3] == t[3] && s[2] == t[2] && s[1] == t[1] && s[0] == t[0];
    }
  }

  /** A table: records one after the other. */
  function Concat(parts: seq<seq<Byte>>): (r: seq<Byte>)
    ensures |r| == Size(parts)
  {
    if parts == [] then [] else Concat(parts[..|parts| - 1]) + parts[|parts| - 1]
  }

  function Size(parts: seq<seq<Byte>>): nat {
    if parts == [] then 0 else Size(parts[..|parts| - 1]) + |parts[|parts| - 1]|
  }

  /** Record `k` of a table starts where the records before it end. */
  lemma {:induction false} PartAt(parts: seq<seq<Byte>>, k: nat)
    requires k < |parts|
    ensures Size(parts[..k]) + |parts[k]| <= Size(parts)
    ensures Concat(parts)[Size(parts[..k])..Size(parts[..k]) + |parts[k]|] == parts[k]
  {
    var n := |parts| - 1;
    if k < n {
      PartAt(parts[..n], k);
      assert parts[..n][..k] == parts[..k];
    }
  }

  /** A table of records of one size. */
  lemma {:induction false} FixedSize(parts: seq<seq<Byte>>, w: nat)
    requires forall k :: 0 <= k < |parts| ==> |parts[k]| == w
    ensures Size(parts) == w * |parts|
  {
    if parts != [] {
      FixedSize(parts[..|parts| - 1], w);
      assert w * (|parts| - 1) + w == w * |parts|;
    }
  }

  lemma {:induction false} ConcatAppend(a: seq<seq<Byte>>, b: seq<seq<Byte>>)
    ensures Concat(a + b) == Concat(a) + Concat(b) && Size(a + b) == Size(a) + Size(b)
  {
    if b == [] {
      assert a + b == a;
    } else {
      var n := |b| - 1;
      assert (a + b)[..|a + b| - 1] == a + b[..n];
      ConcatAppend(a, b[..n]);
    }
  }
}
