/** The free map: one bit per disk block, eight to a byte. */
module FsBitmap {

  function Mask(k: nat): (m: bv8)
    requires k < 8
  {
    match k
    case 0 => 1 case 1 => 2 case 2 => 4 case 3 => 8
    case 4 => 16 case 5 => 32 case 6 => 64 case _ => 128
  }

  predicate TestBit(bits: seq<bv8>, b: nat)
    requires b / 8 < |bits|
  {
    bits[b / 8] & Mask(b % 8) != 0
  }

  function SetBit(bits: seq<bv8>, b: nat): (r: seq<bv8>)
    requires b / 8 < |bits|
    ensures |r| == |bits|
  {
    bits[b / 8 := bits[b / 8] | Mask(b % 8)]
  }

  function ClearBit(bits: seq<bv8>, b: nat): (r: seq<bv8>)
    requires b / 8 < |bits|
    ensures |r| == |bits|
  {
    bits[b / 8 := bits[b / 8] & !Mask(b % 8)]
  }

  /** The bit of block b is bit b mod 8 of byte b / 8, counted from the lowest. */
  lemma BitOf(bits: seq<bv8>, b: nat)
    requires b / 8 < |bits|
    ensures TestBit(bits, b) <==> (bits[b / 8] >> (b % 8)) & 1 == 1
  {
    match b % 8 {
      case 0 => case 1 => case 2 => case 3 => case 4 => case 5 => case 6 => case _ =>
    }
  }

  lemma MaskSet(x: bv8, j: nat, k: nat)
    requires j < 8 && k < 8
    ensures ((x | Mask(j)) & Mask(k) != 0) == (j == k || x & Mask(k) != 0)
  {
  }

  lemma MaskClear(x: bv8, j: nat, k: nat)
    requires j < 8 && k < 8
    ensures ((x & !Mask(j)) & Mask(k) != 0) == (j != k && x & Mask(k) != 0)
  {
  }

  lemma SetBitAt(bits: seq<bv8>, b: nat, c: nat)
    requires b / 8 < |bits| && c / 8 < |bits|
    ensures TestBit(SetBit(bits, b), c) == (c == b || TestBit(bits, c))
  {
    hide Mask;
    if b / 8 == c / 8 {
      MaskSet(bits[b / 8], b % 8, c % 8);
    }
  }

  lemma ClearBitAt(bits: seq<bv8>, b: nat, c: nat)
    requires b / 8 < |bits| && c / 8 < |bits|
    ensures TestBit(ClearBit(bits, b), c) == (c != b && TestBit(bits, c))
  {
    hide Mask;
    if b / 8 == c / 8 {
      MaskClear(bits[b / 8], b % 8, c % 8);
    }
  }
}
