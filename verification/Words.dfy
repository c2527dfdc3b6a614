/** Fixed-width integer arithmetic and the result codes shared by the managers. */
module Words {
  const TWO_8 := 0x100
  const TWO_16 := 0x1_0000
  const TWO_32 := 0x1_0000_0000
  const TWO_64 := 0x1_0000_0000_0000_0000

  type Byte = b: int | 0 <= b < 0x100

  /** Unsigned conversions keep the low bits. */
  function U8(x: int): (r: nat) ensures r < TWO_8 { x % TWO_8 }

  function U16(x: int): (r: nat) ensures r < TWO_16 { x % TWO_16 }

  function U32(x: int): (r: nat) ensures r < TWO_32 { x % TWO_32 }

  function U64(x: int): (r: nat) ensures r < TWO_64 { x % TWO_64 }

  lemma U16Same(x: nat)
    requires x < TWO_16
    ensures U16(x) == x
  {
  }

  lemma U16Step(x: int)
    ensures U16(U16(x) + 1) == U16(x + 1)
  {
  }

  lemma U32Same(x: nat)
    requires x < TWO_32
    ensures U32(x) == x
  {
  }

  /** Signed conversions read the low bits in two's complement. */
  function S8(x: int): (r: int) ensures -0x80 <= r < 0x80 { (x + 0x80) % TWO_8 - 0x80 }

  function S16(x: int): (r: int) ensures -0x8000 <= r < 0x8000 { (x + 0x8000) % TWO_16 - 0x8000 }

  function S32(x: int): (r: int) ensures -0x8000_0000 <= r < 0x8000_0000
  {
    (x + 0x8000_0000) % TWO_32 - 0x8000_0000
  }

  function S64(x: int): (r: int) ensures -0x8000_0000_0000_0000 <= r < 0x8000_0000_0000_0000
  {
    (x + 0x8000_0000_0000_0000) % TWO_64 - 0x8000_0000_0000_0000
  }

  /** Adding whole turns changes neither reading of the low 32 bits. */
  lemma Turns32(x: int, turns: int)
    ensures U32(x + turns * TWO_32) == U32(x)
    ensures S32(x + turns * TWO_32) == S32(x)
  {
    SameRest(x, turns);
    SameRest(x + 0x8000_0000, turns);
  }

  lemma SameRest(x: int, turns: int)
    ensures (x + turns * TWO_32) % TWO_32 == x % TWO_32
  {
    var y := x + turns * TWO_32;
    assert y / TWO_32 == x / TWO_32 + turns;
  }

  lemma Turns16(x: int, turns: int)
    ensures U16(x + turns * TWO_16) == U16(x)
  {
  }

  lemma S32Turns(x: int) returns (turns: int)
    ensures S32(x) == x + turns * TWO_32
  {
    turns := -((x + 0x8000_0000) / TWO_32);
  }

  lemma U32Turns(x: int) returns (turns: int)
    ensures U32(x) == x + turns * TWO_32
  {
    turns := -(x / TWO_32);
  }

  lemma U32OfS32(x: int)
    ensures U32(S32(x)) == U32(x)
  {
    var turns := S32Turns(x);
    Turns32(x, turns);
  }

  type OSErr = int

  const noErr: OSErr := 0
  const dskFulErr: OSErr := -34
  const ioErr: OSErr := -36
  const eofErr: OSErr := -39
  const posErr: OSErr := -40
  const paramErr: OSErr := -50
  const wrPermErr: OSErr := -61
}

/** The few facts about multiplication and division that the solver needs to be told. */
module Arithmetic {
  lemma MultipleIsFar(d: int, k: int)
    requires d > 0
    ensures k >= 1 ==> d * k >= d
    ensures k <= -1 ==> d * k <= -d
  {
  }

  lemma MulLe(a: int, b: int, c: int)
    requires a <= b && 0 <= c
    ensures a * c <= b * c
  {
    assert b * c - a * c == (b - a) * c;
  }

  lemma Distribute(a: int, b: int, c: int)
    ensures (a + b) * c == a * c + b * c
  {
  }

  /** The quotient and the remainder are unique. */
  lemma QuotientIs(x: int, d: int, q: int, r: int)
    requires d > 0 && 0 <= r < d && x == q * d + r
    ensures x / d == q && x % d == r
  {
    assert x == d * (x / d) + x % d;
    var k := x / d - q;
    assert d * k == r - x % d;
    MultipleIsFar(d, k);
  }

  function Pow2(n: nat): (p: nat)
    ensures p >= 1
  {
    if n == 0 then 1 else 2 * Pow2(n - 1)
  }

  lemma {:induction false} Pow2Plus(a: nat, b: nat)
    ensures Pow2(a + b) == Pow2(a) * Pow2(b)
  {
    if a > 0 {
      Pow2Plus(a - 1, b);
      assert 2 * Pow2(a - 1) * Pow2(b) == 2 * (Pow2(a - 1) * Pow2(b));
    }
  }

  lemma Pow2Doubles(n: nat)
    ensures n > 0 ==> Pow2(n) == 2 * Pow2(n - 1)
    ensures n == 0 ==> Pow2(n) == 1
  {
  }

  lemma Pow2Of16()
    ensures Pow2(16) == 0x1_0000
  {
    assert Pow2(8) == 0x100;
    Pow2Plus(8, 8);
  }

  lemma Pow2Of32()
    ensures Pow2(32) == 0x1_0000_0000
  {
    hide Pow2;
    Pow2Of16();
    Pow2Plus(16, 16);
  }

  lemma Pow2Of64()
    ensures Pow2(64) == 0x1_0000_0000_0000_0000
  {
    hide Pow2;
    Pow2Of32();
    Pow2Plus(32, 32);
  }
}
