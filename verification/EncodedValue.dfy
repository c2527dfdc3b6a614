/** The variable-length integers of the resource decompressors, and the prefix code they read. */
module EncodedValue {
  import opened Words
  import opened ByteTables

  const TWO_BYTE_VALUE: nat := 128
  const FOUR_BYTE_VALUE: nat := 255

  /** A value read at some position: the value, the position after it, and whether the input ran out. */
  datatype Reading = Reading(value: nat, next: nat, underrun: bool)

  /** DonnBits_GetEncodedValue on the input from `pos` on. */
  function Decode(input: seq<Byte>, pos: nat): (r: Reading)
    requires pos <= |input|
    ensures pos <= r.next <= |input| && r.value < TWO_32
    ensures r.underrun ==> r.value == 0
  {
    if pos == |input| then Reading(0, pos, true)
    else
      var first := input[pos];
      if first < TWO_BYTE_VALUE then Reading(first, pos + 1, false)
      else if first == FOUR_BYTE_VALUE then
        if pos + 5 > |input| then Reading(0, pos + 1, true)
        else Reading(Read32(input, pos + 1), pos + 5, false)
      else if pos + 1 == |input| then Reading(0, pos + 1, true)
      else
        // the shifted-in low byte occupies the bits the shifted high byte leaves clear
        var value := S16((first - 0xC0) * 0x200 + input[pos + 1] as int * 2);
        Reading(U32(value / 2), pos + 2, false)
  }

  /** The code of a 32-bit value: one byte, two bytes, or a marker and four. */
  function Encode(value: nat): (s: seq<Byte>)
    requires value < TWO_32
    ensures 1 <= |s| <= 5
  {
    var signed := S32(value);
    if value < TWO_BYTE_VALUE then [value]
    else if -0x4000 <= signed <= 0x3EFF then [0xC0 + signed / 0x100, signed % 0x100]
    else [FOUR_BYTE_VALUE] + BE32(value)
  }

  lemma TwoByteBack(signed: int)
    requires -0x4000 <= signed <= 0x3EFF
    ensures var first, second := 0xC0 + signed / 0x100, signed % 0x100;
            && 0x80 <= first < 0xFF && 0 <= second < 0x100
            && S16((first - 0xC0) * 0x200 + second * 2) / 2 == signed
  {
    assert signed / 0x100 * 0x100 + signed % 0x100 == signed;
  }

  lemma SignedBack(value: nat)
    requires value < TWO_32
    ensures U32(S32(value)) == value
  {
  }

  /** Decoding undoes the code of every 32-bit value, wherever it stands and whatever follows it. */
  lemma DecodeBack(input: seq<Byte>, pos: nat, value: nat)
    requires value < TWO_32
    requires pos + |Encode(value)| <= |input| && input[pos..pos + |Encode(value)|] == Encode(value)
    ensures Decode(input, pos) == Reading(value, pos + |Encode(value)|, false)
  {
    var code := Encode(value);
    var signed := S32(value);
    var here := input[pos..pos + |code|];
    assert input[pos] == here[0];
    if value < TWO_BYTE_VALUE {
    } else if -0x4000 <= signed <= 0x3EFF {
      assert input[pos + 1] == here[1];
      TwoByteBack(signed);
      SignedBack(value);
    } else {
      assert input[pos + 1..pos + 5] == here[1..] == BE32(value);
      Read32Back(input, pos + 1, value);
      U32Same(value);
    }
  }

  /** No code is a prefix of another one. */
  lemma PrefixFree(a: nat, b: nat)
    requires a < TWO_32 && b < TWO_32 && Encode(a) <= Encode(b)
    ensures a == b
  {
    var s := Encode(b);
    assert s[0..|Encode(a)|] == Encode(a);
    assert s[0..|s|] == s;
    DecodeBack(s, 0, a);
    DecodeBack(s, 0, b);
  }
}
