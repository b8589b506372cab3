/** The packed up-but-idle bitmask (setBit and getBit in frdrpc/forwarding_ability_codec.go). */
module Bitmask {

  // 1 << k
  function BitValue(k: nat): bv8
    requires k < 8
  {
    match k
    case 0 => 1
    case 1 => 2
    case 2 => 4
    case 3 => 8
    case 4 => 16
    case 5 => 32
    case 6 => 64
    case _ => 128
  }

  // getBit
  predicate GetBit(mask: seq<bv8>, index: nat)
    requires index / 8 < |mask|
  {
    mask[index / 8] & BitValue(index % 8) != 0
  }

  // Bit k of a mask is the binary digit of weight 2^(k mod 8) of byte k / 8.
  lemma BitIsDigit(mask: seq<bv8>, index: nat)
    requires index / 8 < |mask|
    ensures GetBit(mask, index) <==> (mask[index / 8] >> (index % 8)) & 1 == 1
  {
    var b, k := mask[index / 8], index % 8;
    if k == 0 { } else if k == 1 { } else if k == 2 { } else if k == 3 { }
    else if k == 4 { } else if k == 5 { } else if k == 6 { } else { }
  }

  lemma OrBit(b: bv8, k: nat, j: nat)
    requires k < 8 && j < 8
    ensures (b | BitValue(k)) & BitValue(j) != 0 <==> j == k || b & BitValue(j) != 0
  {
    hide BitValue;
    OrAny(b, BitValue(k), BitValue(j));
    BitsApart(k, j);
  }

  lemma OrAny(b: bv8, x: bv8, y: bv8)
    ensures (b | x) & y != 0 <==> x & y != 0 || b & y != 0
  {
  }

  lemma BitsApart(k: nat, j: nat)
    requires k < 8 && j < 8
    ensures BitValue(k) & BitValue(j) != 0 <==> j == k
  {
    if k == 0 { } else if k == 1 { } else if k == 2 { } else if k == 3 { }
    else if k == 4 { } else if k == 5 { } else if k == 6 { } else { }
  }

  // A byte is its eight bits.
  lemma ByteOfBits(a: bv8, b: bv8)
    requires forall k :: 0 <= k < 8 ==> (a & BitValue(k) != 0 <==> b & BitValue(k) != 0)
    ensures a == b
  {
    assert a & BitValue(0) != 0 <==> b & BitValue(0) != 0;
    assert a & BitValue(1) != 0 <==> b & BitValue(1) != 0;
    assert a & BitValue(2) != 0 <==> b & BitValue(2) != 0;
    assert a & BitValue(3) != 0 <==> b & BitValue(3) != 0;
    assert a & BitValue(4) != 0 <==> b & BitValue(4) != 0;
    assert a & BitValue(5) != 0 <==> b & BitValue(5) != 0;
    assert a & BitValue(6) != 0 <==> b & BitValue(6) != 0;
    assert a & BitValue(7) != 0 <==> b & BitValue(7) != 0;
  }

  // A mask is its bits.
  lemma MaskOfBits(a: seq<bv8>, b: seq<bv8>)
    requires |a| == |b|
    requires forall k: nat :: k < 8 * |a| ==> (GetBit(a, k) <==> GetBit(b, k))
    ensures a == b
  {
    forall i | 0 <= i < |a|
      ensures a[i] == b[i]
    {
      forall k | 0 <= k < 8
        ensures a[i] & BitValue(k) != 0 <==> b[i] & BitValue(k) != 0
      {
        assert (8 * i + k) / 8 == i && (8 * i + k) % 8 == k;
        assert GetBit(a, 8 * i + k) <==> GetBit(b, 8 * i + k);
      }
      ByteOfBits(a[i], b[i]);
    }
  }

  // setBit turns on its bit and no other.
  method SetBit(mask: array<bv8>, index: nat)
    requires index / 8 < mask.Length
    modifies mask
    ensures forall k: nat :: k < 8 * mask.Length ==>
      (GetBit(mask[..], k) <==> k == index || GetBit(old(mask[..]), k))
  {
    ghost var before := mask[..];
    mask[index / 8] := mask[index / 8] | BitValue(index % 8);
    forall k: nat | k < 8 * mask.Length
      ensures GetBit(mask[..], k) <==> k == index || GetBit(before, k)
    {
      if k / 8 == index / 8 {
        OrBit(before[k / 8], index % 8, k % 8);
      }
    }
  }
}
