/** Cutting a digest into several numbers, src/util/multi_hash.cpp. */
module MultiHash {
  import opened RingArithmetic

  type Byte = b: int | 0 <= b < 256

  /** What MD5 gives. */
  type Digest = d: seq<Byte> | |d| == 16 witness [0, 0, 0, 0, 0, 0, 0, 0, 0, 0, 0, 0, 0, 0, 0, 0]

  function Pow2(k: nat): (p: nat)
    ensures p > 0
  {
    if k == 0 then 1 else 2 * Pow2(k - 1)
  }

  /** Bit k of a byte, the highest first. */
  function ByteBit(b: Byte, k: nat): int
    requires k < 8
  {
    b / Pow2(7 - k) % 2
  }

  function DigestBit(d: Digest, k: nat): int
    requires k < 128
  {
    ByteBit(d[k / 8], k % 8)
  }

  /** n consecutive bits of a digest as a number. */
  function Field(d: Digest, from: nat, n: nat): nat
    requires from + n <= 128
  {
    if n == 0 then 0 else 2 * Field(d, from, n - 1) + DigestBit(d, from + n - 1)
  }

  /** n consecutive bits of a byte, as the shifts get them: left by i within 8 bits, then right. */
  function Shifted(b: Byte, i: nat, n: nat): int
    requires i + n <= 8
  {
    Left(b, i) / Pow2(8 - n)
  }

  function Left(b: Byte, i: nat): Byte {
    b * Pow2(i) % 256
  }

  lemma Pow2Values()
    ensures Pow2(0) == 1 && Pow2(1) == 2 && Pow2(2) == 4 && Pow2(3) == 8 && Pow2(4) == 16
    ensures Pow2(5) == 32 && Pow2(6) == 64 && Pow2(7) == 128 && Pow2(8) == 256
  {
    assert Pow2(4) == 2 * Pow2(3) && Pow2(6) == 2 * Pow2(5) && Pow2(8) == 2 * Pow2(7);
  }

  lemma {:induction false} Pow2Add(a: nat, b: nat)
    ensures Pow2(a + b) == Pow2(a) * Pow2(b)
  {
    if b > 0 {
      Pow2Add(a, b - 1);
    }
  }

  lemma LeftOnce(c: Byte, m: nat)
    requires m < 7
    ensures ByteBit(c * 2 % 256, m) == ByteBit(c, m + 1)
  {
    Pow2Values();
    var p, k := Pow2(6 - m), Pow2(m);
    Pow2Add(6 - m, m);
    Halves(c, p, k);
  }

  /** Doubling within 8 bits, seen from any bit but the last. */
  lemma Halves(c: Byte, p: nat, k: nat)
    requires 0 < p && p * k == 64
    ensures c * 2 % 256 / (2 * p) % 2 == c / p % 2
  {
    var e := c * 2 % 256;
    if c < 128 {
      DoubleDivide(c, p);
    } else {
      assert e == 2 * (c - 128);
      DoubleDivide(c - 128, p);
      assert c == (c - 128) + 2 * k * p by {
        assert 2 * k * p == 2 * (p * k);
      }
      DivideMore(c - 128, 2 * k, p);
    }
  }

  lemma DoubleDivide(x: nat, p: nat)
    requires 0 < p
    ensures 2 * x / (2 * p) == x / p
  {
    var q, r := x / p, x % p;
    assert x == p * q + r;
    assert 2 * x == (2 * p) * q + 2 * r by {
      assert (2 * p) * q == 2 * (p * q);
    }
    DivModUnique(2 * x, 2 * p, q, 2 * r);
  }

  lemma DivideMore(x: nat, n: nat, p: nat)
    requires 0 < p
    ensures (x + n * p) / p == x / p + n
  {
    var q, r := x / p, x % p;
    assert x + n * p == p * (q + n) + r by {
      assert p * (q + n) == p * q + n * p;
    }
    DivModUnique(x + n * p, p, q + n, r);
  }

  /** A shift to the left moves every bit that stays. */
  lemma {:induction false} LeftBit(b: Byte, i: nat, m: nat)
    requires i + m < 8
    ensures ByteBit(Left(b, i), m) == ByteBit(b, i + m)
  {
    hide ByteBit;
    if i == 0 {
      assert Left(b, 0) == b;
    } else {
      LeftBit(b, i - 1, m + 1);
      LeftOnce(Left(b, i - 1), m);
      LeftStep(b, i);
    }
  }

  lemma LeftStep(b: Byte, i: nat)
    requires 0 < i
    ensures Left(b, i) == Left(b, i - 1) * 2 % 256
  {
    var x, y := b * Pow2(i - 1), b * Pow2(i);
    Pow2Step(i);
    Doubled(b, Pow2(i - 1));
    DoubleMod(x);
  }

  lemma Doubled(b: int, p: int)
    ensures b * (2 * p) == b * p * 2
  {
  }

  lemma DoubleMod(x: nat)
    ensures x * 2 % 256 == x % 256 * 2 % 256
  {
  }

  lemma RightOnce(c: Byte, n: nat)
    requires 0 < n <= 8
    ensures c / Pow2(8 - n) == 2 * (c / Pow2(9 - n)) + ByteBit(c, n - 1)
  {
    Pow2Values();
    hide Pow2;
  }

  /** The shifts of the loop get n bits of byte `b`, the highest first, from bit i on. */
  lemma ShiftedNext(b: Byte, i: nat, n: nat)
    requires 0 < n && i + n <= 8
    ensures Shifted(b, i, n) == 2 * Shifted(b, i, n - 1) + ByteBit(b, i + n - 1)
  {
    LeftBit(b, i, n - 1);
    RightOnce(Left(b, i), n);
  }

  lemma {:induction false} ShiftedIsField(d: Digest, ibyte: nat, ibit: nat, n: nat)
    requires ibyte < 16 && ibit + n <= 8
    ensures Shifted(d[ibyte], ibit, n) == Field(d, 8 * ibyte + ibit, n) < Pow2(n)
  {
    if n == 0 {
      Pow2Values();
    } else {
      ShiftedIsField(d, ibyte, ibit, n - 1);
      ShiftedNext(d[ibyte], ibit, n);
      assert (8 * ibyte + ibit + n - 1) / 8 == ibyte && (8 * ibyte + ibit + n - 1) % 8 == ibit + n - 1;
    }
  }

  lemma FieldStep(d: Digest, from: nat, n: nat)
    requires 0 < n && from + n <= 128
    ensures Field(d, from, n) == 2 * Field(d, from, n - 1) + DigestBit(d, from + n - 1)
  {
  }

  lemma {:induction false} FieldSplit(d: Digest, from: nat, a: nat, b: nat)
    requires from + a + b <= 128
    ensures Field(d, from, a + b) == Field(d, from, a) * Pow2(b) + Field(d, from + a, b)
  {
    if b == 0 {
      assert Pow2(0) == 1;
    } else {
      hide Field, DigestBit, Pow2;
      FieldSplit(d, from, a, b - 1);
      FieldStep(d, from, a + b);
      FieldStep(d, from + a, b);
      Pow2Step(b);
      Distribute(Field(d, from, a), Pow2(b - 1), Field(d, from + a, b - 1), DigestBit(d, from + a + b - 1));
    }
  }

  lemma Pow2Step(k: nat)
    requires 0 < k
    ensures Pow2(k) == 2 * Pow2(k - 1)
  {
  }

  lemma Distribute(x: int, p: int, z: int, t: int)
    ensures 2 * (x * p + z) + t == x * (2 * p) + (2 * z + t)
  {
  }

  lemma {:induction false} FieldBound(d: Digest, from: nat, n: nat)
    requires from + n <= 128
    ensures Field(d, from, n) < Pow2(n)
  {
    if n > 0 {
      FieldBound(d, from, n - 1);
    }
  }

  /** The low 32 bits of a number that is shifted and filled. */
  lemma ShiftIn(v: nat, p: nat, u: nat)
    requires p > 0 && TWO32 % p == 0 && u < p
    ensures (v % TWO32) * p % TWO32 + u == (v * p + u) % TWO32
  {
    var q, w := v / TWO32, v % TWO32;
    assert v * p == q * p * TWO32 + w * p by {
      assert v == q * TWO32 + w;
      assert v * p == (q * TWO32 + w) * p;
    }
    var x, y := w * p / TWO32, w * p % TWO32;
    assert w * p == x * TWO32 + y;
    MultipleBelow(w, p, x, y, u);
    assert v * p + u == (q * p + x) * TWO32 + (y + u) by {
      assert (q * p + x) * TWO32 == q * p * TWO32 + x * TWO32;
    }
    Remainder(q * p + x, y + u);
  }

  lemma Remainder(k: nat, r: nat)
    requires r < TWO32
    ensures (k * TWO32 + r) % TWO32 == r
  {
  }

  /** A remainder of a multiple of p is one, and so leaves room for less than p. */
  lemma MultipleBelow(w: nat, p: nat, x: nat, y: nat, u: nat)
    requires p > 0 && TWO32 % p == 0 && u < p && w * p == x * TWO32 + y && y < TWO32
    ensures y + u < TWO32
  {
    var k := TWO32 / p;
    assert TWO32 == k * p;
    assert y == (w - x * k) * p by {
      assert x * (k * p) == x * k * p;
      assert (w - x * k) * p == w * p - x * k * p;
    }
    Below(w - x * k, k, p);
  }

  lemma Below(j: int, k: int, p: nat)
    requires j * p < k * p
    ensures j * p + p <= k * p
  {
    assert (k - j) * p > 0;
    assert k - j >= 1;
    assert (k - j - 1) * p >= 0;
  }

  lemma Pow2Divides(n: nat)
    requires n <= 8
    ensures TWO32 % Pow2(n) == 0
  {
    Pow2Values();
    hide Pow2;
  }

  datatype Result<T> = Ok(value: T) | Overflow

  /** The hash values that `operator()` returns for a digest: the fields one after the other, as 32-bit
      numbers. */
  function Values(d: Digest, size: nat, num: nat): (vs: seq<nat>)
    requires size * num <= 128
    ensures |vs| == num
  {
    seq(num, i requires 0 <= i < num => (FieldFits(i, size, num); Field(d, i * size, size) % TWO32))
  }

  lemma FieldFits(i: nat, size: nat, num: nat)
    requires i < num && size * num <= 128
    ensures i * size + size <= 128
  {
    assert (i + 1) * size <= num * size;
    assert (i + 1) * size == i * size + size;
  }

  /** Up to 32 bits nothing is cut off, and every value is below 2 to the power of the chunk size. */
  lemma ValuesBelow(d: Digest, size: nat, num: nat, i: nat)
    requires size * num <= 128 && size <= 32 && i < num
    ensures i * size + size <= 128 && Values(d, size, num)[i] == Field(d, i * size, size) < Pow2(size)
  {
    FieldFits(i, size, num);
    FieldBound(d, i * size, size);
    Pow2Monotone(size, 32);
    Pow2Values();
    Pow2Add(8, 8);
    Pow2Add(16, 16);
  }

  lemma {:induction false} Pow2Monotone(a: nat, b: nat)
    requires a <= b
    ensures Pow2(a) <= Pow2(b)
  {
    if a < b {
      Pow2Monotone(a, b - 1);
    }
  }

  class MultiHashMD5 {
    var chunkSize: nat
    var chunkNum: nat

    constructor ()
    {
      chunkSize, chunkNum := 0, 0;
    }

    method Init(sizeChunk: nat, numChunk: nat)
      modifies this
      ensures chunkSize == sizeChunk && chunkNum == numChunk
    {
      chunkSize := sizeChunk;
      chunkNum := numChunk;
    }

    method ValueMax() returns (r: Result<nat>)
      ensures r.Overflow? <==> chunkSize > 32
      ensures r.Ok? ==> r.value == Pow2(chunkSize) - 1
    {
      if chunkSize > 32 {
        return Overflow;
      }
      var res := 0;
      for i := 0 to chunkSize
        invariant res == Pow2(i) - 1
      {
        res := res * 2 + 1;
      }
      r := Ok(res);
    }

    /** Some bits of one byte go in at the low end of a 32-bit chunk. */
    method ShiftInBits(buf: Digest, chunk: nat, ibyte: nat, ibit: nat, nbits: nat, ghost start: nat, ghost done: nat)
      returns (chunk': nat)
      requires start + done == 8 * ibyte + ibit && ibyte < 16 && ibit + nbits <= 8
      requires chunk == Field(buf, start, done) % TWO32
      ensures chunk' == Field(buf, start, done + nbits) % TWO32
    {
      hide Pow2, Field;
      MoreBits(buf, start, done, ibyte, ibit, nbits);
      var u := buf[ibyte] * Pow2(ibit) % 256 / Pow2(8 - nbits);
      chunk' := chunk * Pow2(nbits) % TWO32 + u;
    }

    /** One chunk, from a bit of a byte on; an overflow when the digest has not so many bits left. */
    method NextChunk(buf: Digest, ibyte: nat, ibit: nat) returns (overflow: bool, chunk: nat, ibyte': nat, ibit': nat)
      requires ibit < 8 && 8 * ibyte + ibit <= 128
      ensures overflow <==> 8 * ibyte + ibit + chunkSize > 128
      ensures !overflow ==> ibit' < 8 && 8 * ibyte' + ibit' == 8 * ibyte + ibit + chunkSize
      ensures !overflow ==> chunk == Field(buf, 8 * ibyte + ibit, chunkSize) % TWO32
    {
      hide Pow2, Field;
      ghost var start := 8 * ibyte + ibit;
      overflow, chunk, ibyte', ibit' := false, 0, ibyte, ibit;
      NoBits(buf, start);
      var remain := chunkSize;
      while remain > 0
        invariant 0 <= remain <= chunkSize && ibit' < 8 && 8 * ibyte' + ibit' + remain == start + chunkSize
        invariant 8 * ibyte' + ibit' <= 128
        invariant chunk == Field(buf, start, chunkSize - remain) % TWO32
      {
        if ibyte' >= 16 {
          overflow := true;
          return;
        }
        var nbits := if remain <= 8 - ibit' then remain else 8 - ibit';
        chunk := ShiftInBits(buf, chunk, ibyte', ibit', nbits, start, chunkSize - remain);
        if ibit' + nbits == 8 {
          ibit' := 0;
          ibyte' := ibyte' + 1;
        } else {
          ibit' := ibit' + nbits;
        }
        remain := remain - nbits;
      }
    }

    /** The values for a digest, or an overflow when they would take more than its 128 bits. */
    method Slice(buf: Digest) returns (r: Result<seq<nat>>)
      ensures r.Overflow? <==> chunkSize * chunkNum > 128
      ensures r.Ok? ==> r.value == Values(buf, chunkSize, chunkNum)
    {
      hide Field;
      var res: seq<nat> := [];
      var ibyte, ibit := 0, 0;
      for i := 0 to chunkNum
        invariant |res| == i && ibit < 8 && 8 * ibyte + ibit == i * chunkSize <= 128
        invariant forall j | 0 <= j < i :: j * chunkSize + chunkSize <= 128 && res[j] == Field(buf, j * chunkSize, chunkSize) % TWO32
      {
        Grows(i, chunkSize, chunkNum);
        var overflow, chunk;
        overflow, chunk, ibyte, ibit := NextChunk(buf, ibyte, ibit);
        if overflow {
          return Overflow;
        }
        res := res + [chunk];
      }
      r := Ok(res);
    }
  }

  lemma NoBits(d: Digest, from: nat)
    requires from <= 128
    ensures Field(d, from, 0) == 0
  {
  }

  /** The bits of the next byte join the chunk. */
  lemma MoreBits(d: Digest, start: nat, done: nat, ibyte: nat, ibit: nat, n: nat)
    requires start + done == 8 * ibyte + ibit && ibyte < 16 && ibit + n <= 8
    ensures var u := d[ibyte] * Pow2(ibit) % 256 / Pow2(8 - n);
      0 <= u && Field(d, start, done) % TWO32 * Pow2(n) % TWO32 + u == Field(d, start, done + n) % TWO32
  {
    hide Pow2, Field;
    ShiftedIsField(d, ibyte, ibit, n);
    FieldSplit(d, start, done, n);
    Pow2Divides(n);
    ShiftIn(Field(d, start, done), Pow2(n), Field(d, start + done, n));
  }

  lemma Grows(i: nat, size: nat, num: nat)
    requires i < num
    ensures (i + 1) * size == i * size + size <= num * size == size * num
  {
    assert (i + 1) * size <= num * size;
  }
}
