/** The 64-bit division of the C library: shift and subtract. */
module Division {
  import opened Words
  import opened Arithmetic

  /** Setting bit `k` of `x`. */
  function SetBitAt(x: nat, k: nat): nat {
    if x / Pow2(k) % 2 == 1 then x else x + Pow2(k)
  }

  /** Above the bits decided so far a quotient has nothing set, so setting the next bit adds it. */
  lemma NextBit(m: nat, k: nat)
    ensures SetBitAt(m * Pow2(k + 1), k) == m * Pow2(k + 1) + Pow2(k)
    ensures m * Pow2(k + 1) + Pow2(k) == (2 * m + 1) * Pow2(k)
    ensures m * Pow2(k + 1) == (2 * m) * Pow2(k)
  {
    Pow2Doubles(k + 1);
    var p := Pow2(k);
    assert m * (2 * p) == (2 * m) * p;
    QuotientIs(m * Pow2(k + 1), p, 2 * m, 0);
  }

  /** One bit of the quotient: subtract the shifted divisor if it can be subtracted. */
  lemma SubtractStep(num: nat, den: nat, q: nat, r: nat, k: nat)
    requires num == q * den + r && r < den * Pow2(k + 1) && r >= den * Pow2(k)
    ensures num == (q + Pow2(k)) * den + (r - den * Pow2(k))
    ensures r - den * Pow2(k) < den * Pow2(k)
  {
    Pow2Doubles(k + 1);
    var p := Pow2(k);
    assert den * (2 * p) == 2 * (den * p);
    assert (q + p) * den == q * den + den * p;
  }

  lemma HalvedDivisor(den: nat, k: nat)
    ensures den * Pow2(k + 1) / 2 == den * Pow2(k)
    ensures den * Pow2(k + 1) == den * Pow2(k) * 2
  {
    Pow2Doubles(k + 1);
    assert den * (2 * Pow2(k)) == 2 * (den * Pow2(k));
  }

  /** A divisor shifted all the way has nothing above it. */
  lemma ShiftedOut(den: nat)
    requires den >= 1
    ensures den * Pow2(64) >= TWO_64
  {
    Pow2Of64();
    MulLe(1, den, Pow2(64));
  }

  /** udiv64: the quotient rounded down, and 0 for a zero divisor; no shift loses a bit. */
  method Udiv64(num: nat, den: nat) returns (quot: nat)
    requires num < TWO_64 && den < TWO_64
    ensures quot == if den == 0 then 0 else num / den
  {
    hide Pow2;
    if den == 0 {
      return 0;
    }
    if num < den {
      QuotientIs(num, den, 0, num);
      return 0;
    }
    Pow2Doubles(0);
    var shift: int := 0;
    var d: nat := den;
    while d <= num / 2 && shift < 63
      invariant 0 <= shift <= 63 && d == den * Pow2(shift) && d <= num
    {
      HalvedDivisor(den, shift);
      d := U64(d * 2);
      shift := shift + 1;
    }
    HalvedDivisor(den, shift);
    ShiftedOut(den);
    quot := BitsDown(num, den, d, shift);
  }

  /** The second loop of udiv64. */
  method BitsDown(num: nat, den: nat, aligned: nat, top: nat) returns (quot: nat)
    requires num < TWO_64 && 0 < den && top <= 63
    requires aligned == den * Pow2(top) && num < den * Pow2(top + 1)
    ensures quot == num / den
  {
    hide Pow2, SetBitAt;
    var left: nat, d: nat, shift: int := num, aligned, top;
    quot := 0;
    ghost var m := 0;
    while shift >= 0
      invariant -1 <= shift <= 63
      invariant shift >= 0 ==> d == den * Pow2(shift)
      invariant num == quot * den + left && left < den * Pow2(shift + 1)
      invariant quot == m * Pow2(shift + 1)
    {
      NextBit(m, shift);
      if left >= d {
        SubtractStep(num, den, quot, left, shift);
        left := left - d;
        quot := SetBitAt(quot, shift);
        m := 2 * m + 1;
      } else {
        m := 2 * m;
      }
      if shift > 0 {
        HalvedDivisor(den, shift - 1);
      }
      d := d / 2;
      shift := shift - 1;
    }
    Pow2Doubles(0);
    QuotientIs(num, den, quot, left);
  }
}
