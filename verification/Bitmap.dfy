/** The bit array of src/util/bitmap.cpp. */
module Bitmaps {
  import opened RingArithmetic

  /** 128 shifted right by k. */
  function Mask(k: nat): bv8
    requires k < 8
  {
    if k == 0 then 128 else if k == 1 then 64 else if k == 2 then 32 else if k == 3 then 16
    else if k == 4 then 8 else if k == 5 then 4 else if k == 6 then 2 else 1
  }

  predicate BitOf(b: bv8, k: nat)
    requires k < 8
  {
    b & Mask(k) != 0
  }

  lemma SetsOneBit(b: bv8, k: nat, j: nat)
    requires k < 8 && j < 8
    ensures BitOf(b | Mask(k), j) <==> BitOf(b, j) || j == k
  {
    hide Mask;
    OrMeets(b, Mask(k), Mask(j));
    MasksMeet(k, j);
  }

  lemma OrMeets(b: bv8, m: bv8, n: bv8)
    ensures (b | m) & n != 0 <==> b & n != 0 || m & n != 0
  {
  }

  lemma MasksMeet(k: nat, j: nat)
    requires k < 8 && j < 8
    ensures Mask(k) & Mask(j) != 0 <==> j == k
  {
  }

  /** The number of set bits. */
  function Count(bits: seq<bool>): nat {
    if bits == [] then 0 else Count(bits[..|bits| - 1]) + (if bits[|bits| - 1] then 1 else 0)
  }

  lemma {:induction false} CountSet(bits: seq<bool>, i: nat)
    requires i < |bits|
    ensures Count(bits[i := true]) == Count(bits) + (if bits[i] then 0 else 1)
  {
    var k := |bits| - 1;
    if i < k {
      CountSet(bits[..k], i);
      assert bits[i := true][..k] == bits[..k][i := true];
    } else {
      assert bits[i := true][..k] == bits[..k];
    }
  }

  lemma {:induction false} CountClear(n: nat)
    ensures Count(seq(n, _ => false)) == 0
  {
    if n > 0 {
      CountClear(n - 1);
      assert seq(n, _ => false)[..n - 1] == seq(n - 1, _ => false);
    }
  }

  class Bitmap {
    const bytes: array<bv8>

    /** The bits, the highest bit of each byte first. */
    ghost function Bits(): (bits: seq<bool>)
      reads bytes
      ensures |bits| == 8 * bytes.Length
      ensures forall i | 0 <= i < |bits| :: bits[i] == BitOf(bytes[i / 8], i % 8)
    {
      seq(8 * bytes.Length, i requires 0 <= i < 8 * bytes.Length reads bytes => BitOf(bytes[i / 8], i % 8))
    }

    constructor (nbyte: nat)
      requires 0 < nbyte < TWO32
      ensures fresh(bytes) && bytes.Length == nbyte
    {
      bytes := new bv8[nbyte];
    }

    method Reset()
      modifies bytes
      ensures Bits() == seq(8 * bytes.Length, _ => false)
    {
      for i := 0 to bytes.Length
        invariant forall j | 0 <= j < i :: bytes[j] == 0
      {
        bytes[i] := 0;
      }
    }

    /** The number of bits, in 32 bits: it is 0 for 2 to the power of 29 bytes. */
    function Size(): (n: nat)
      ensures n <= 8 * bytes.Length
      ensures n == 8 * bytes.Length <==> 8 * bytes.Length < TWO32
    {
      bytes.Length * 8 % TWO32
    }

    /** The precondition is what the original asserts. */
    method Val(idx: nat) returns (v: bool)
      requires idx < Size()
      ensures v == Bits()[idx]
    {
      v := bytes[idx / 8] & Mask(idx % 8) != 0;
    }

    /** Sets a bit, and tells what it was. */
    method Set(idx: nat) returns (v: bool)
      requires idx < Size()
      modifies bytes
      ensures v == old(Bits())[idx] && Bits() == old(Bits())[idx := true]
    {
      hide Mask, BitOf, Bitmap.Size;
      v := Val(idx);
      ghost var b := bytes[idx / 8];
      bytes[idx / 8] := bytes[idx / 8] | Mask(idx % 8);
      forall i | 0 <= i < 8 * bytes.Length ensures Bits()[i] == old(Bits())[idx := true][i] {
        if i / 8 == idx / 8 {
          SetsOneBit(b, idx % 8, i % 8);
        }
      }
    }
  }
}
