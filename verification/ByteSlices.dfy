/** Stretches of bytes, and bytes written over others. */
module ByteSlices {
  import opened Words

  /** `s` with `data` written over it from position `at` on. */
  function Overlay(s: seq<Byte>, at: nat, data: seq<Byte>): (r: seq<Byte>)
    requires at + |data| <= |s|
    ensures |r| == |s|
    ensures r[at..at + |data|] == data
    ensures forall i :: 0 <= i < |s| ==> r[i] == if at <= i < at + |data| then data[i - at] else s[i]
  {
    s[..at] + data + s[at + |data|..]
  }

  lemma OverlayAll(s: seq<Byte>, data: seq<Byte>)
    requires |data| == |s|
    ensures Overlay(s, 0, data) == data
  {
  }

  lemma SliceOfSlice(s: seq<Byte>, from: nat, to: nat, o: nat, len: nat)
    requires from <= to <= |s| && o + len <= to - from
    ensures s[from..to][o..o + len] == s[from + o..from + o + len]
  {
    var x, y := s[from..to][o..o + len], s[from + o..from + o + len];
    assert forall i :: 0 <= i < len ==> x[i] == y[i];
  }

  lemma OverlayLeft(a: seq<Byte>, b: seq<Byte>, at: nat, data: seq<Byte>)
    requires at + |data| <= |a|
    ensures Overlay(a + b, at, data) == Overlay(a, at, data) + b
  {
  }

  lemma OverlayRight(a: seq<Byte>, b: seq<Byte>, at: nat, data: seq<Byte>)
    requires at + |data| <= |b|
    ensures Overlay(a + b, |a| + at, data) == a + Overlay(b, at, data)
  {
  }

  /** Two adjacent writes are one. */
  lemma OverlayTwice(s: seq<Byte>, at: nat, x: seq<Byte>, y: seq<Byte>)
    requires at + |x| + |y| <= |s|
    ensures Overlay(Overlay(s, at, x), at + |x|, y) == Overlay(s, at, x + y)
  {
  }
}
