/** The filter that remembers strings by the bits of their digests, src/util/shadow.cpp. */
module Shadows {
  import opened Bitmaps
  import opened MultiHash
  import opened RingArithmetic

  const TWO31 := 0x8000_0000

  // ---------------------------------------------------------------------------------------------
  // Sizes

  /** The size before the n-th round of the loop in `body_size`, a 32-bit number. */
  function Doubled(n: nat): nat {
    if n == 0 then 1 else Doubled(n - 1) * 2 % TWO32
  }

  lemma Pow2Of31()
    ensures Pow2(31) == TWO31 && Pow2(32) == TWO32
  {
    Pow2Values();
    Pow2Add(8, 8);
    Pow2Add(16, 8);
    Pow2Add(24, 7);
    Pow2Step(32);
  }

  lemma {:induction false} DoubledIs(n: nat)
    ensures Doubled(n) == if n < 32 then Pow2(n) else 0
  {
    if n == 0 {
      Pow2Values();
    } else {
      DoubledIs(n - 1);
      NextDouble(n);
    }
  }

  lemma NextDouble(n: nat)
    requires 0 < n
    ensures (if n - 1 < 32 then Pow2(n - 1) else 0) * 2 % TWO32 == if n < 32 then Pow2(n) else 0
  {
    hide Pow2;
    Pow2Of31();
    Pow2Step(n);
    if n < 32 {
      Pow2Monotone(n, 31);
    }
  }

  /** The loop of `body_size` ends exactly for bounds up to 2 to the power of 31. */
  lemma BodySizeEndsExactly(capacity: nat)
    requires capacity < TWO32
    ensures (exists n :: Doubled(n) >= 2 * capacity % TWO32) <==> 2 * capacity % TWO32 <= TWO31
  {
    Pow2Of31();
    DoubledIs(31);
    forall n ensures Doubled(n) <= TWO31 {
      DoubledIs(n);
      if n < 32 {
        Pow2Monotone(n, 31);
      }
    }
  }

  /** A capacity of one more than 2 to the power of 30 is not among them. */
  lemma NeverEnds()
    ensures forall n :: Doubled(n) < 2 * 0x4000_0001 % TWO32
  {
    BodySizeEndsExactly(0x4000_0001);
  }

  /** The least power of two that is at least a bound. */
  ghost predicate LeastPower(body: nat, bound: nat) {
    (exists k :: k < 32 && body == Pow2(k)) && bound <= body && (body == 1 || body / 2 < bound)
  }

  lemma LeastPowerUnique(a: nat, b: nat, bound: nat)
    requires LeastPower(a, bound) && LeastPower(b, bound)
    ensures a == b
  {
    var j: nat, k: nat :| a == Pow2(j) && b == Pow2(k);
    Pow2Values();
    if j < k {
      Pow2Monotone(j, k - 1);
      Pow2Step(k);
    } else if k < j {
      Pow2Monotone(k, j - 1);
      Pow2Step(j);
    }
  }

  method BodySize(capacity: nat) returns (nbyte: nat)
    requires capacity < TWO32 && 2 * capacity % TWO32 <= TWO31
    ensures LeastPower(nbyte, 2 * capacity % TWO32) && nbyte <= TWO31
  {
    nbyte := 1;
    ghost var k := 0;
    Pow2Values();
    Pow2Of31();
    while nbyte < 2 * capacity % TWO32
      invariant k < 32 && nbyte == Pow2(k)
      invariant nbyte == 1 || nbyte / 2 < 2 * capacity % TWO32
      invariant nbyte <= TWO31
      decreases 32 - k
    {
      k := k + 1;
      Pow2Step(k);
      Pow2Monotone(k, 31);
      nbyte := nbyte * 2 % TWO32;
    }
  }

  /** Half the body as capacity asks for the same body again. */
  lemma BodyAgain(body: nat, capacity: nat)
    requires capacity < TWO32 && LeastPower(body, 2 * capacity % TWO32) && body <= TWO31
    ensures LeastPower(body, 2 * (body / 2) % TWO32)
  {
    var k: nat :| k < 32 && body == Pow2(k);
    Pow2Values();
    if k > 0 {
      Pow2Step(k);
    }
  }

  method IndexChunk(bodySize: nat) returns (chunk: nat)
    requires bodySize > 0
    ensures forall k: nat :: bodySize == Pow2(k) ==> chunk == k + 3
    ensures chunk >= 3 && Pow2(chunk - 3) <= bodySize < 2 * Pow2(chunk - 3)
  {
    chunk := 3;
    var body := bodySize;
    Pow2Values();
    while body > 1
      invariant chunk >= 3 && body >= 1 && body * Pow2(chunk - 3) <= bodySize < (body + 1) * Pow2(chunk - 3)
    {
      ghost var p := Pow2(chunk - 3);
      Pow2Step(chunk - 2);
      Halved(body, p, bodySize);
      chunk := chunk + 1;
      body := body / 2;
    }
    forall k: nat | bodySize == Pow2(k) ensures chunk == k + 3 {
      Pow2Between(k, chunk - 3);
    }
  }

  lemma Halved(body: nat, p: nat, n: nat)
    requires body * p <= n < (body + 1) * p
    ensures body / 2 * (2 * p) <= n < (body / 2 + 1) * (2 * p)
  {
    var h := body / 2;
    assert h * (2 * p) == 2 * h * p && (h + 1) * (2 * p) == (2 * h + 2) * p;
    assert 2 * h * p <= body * p && (body + 1) * p <= (2 * h + 2) * p;
  }

  lemma {:induction false} Pow2Below(a: nat, b: nat)
    requires a < b
    ensures 2 * Pow2(a) <= Pow2(b)
  {
    if a < b - 1 {
      Pow2Below(a, b - 1);
    }
  }

  lemma Pow2Between(k: nat, j: nat)
    requires Pow2(j) <= Pow2(k) < 2 * Pow2(j)
    ensures j == k
  {
    hide Pow2;
    if j < k {
      Pow2Below(j, k);
    } else if k < j {
      Pow2Below(k, j);
    }
  }

  // ---------------------------------------------------------------------------------------------
  // Marks

  ghost predicate AllSet(bits: seq<bool>, idx: seq<nat>) {
    forall i | 0 <= i < |idx| :: idx[i] < |bits| && bits[idx[i]]
  }

  datatype Put = PutOK | PutExist | PutFull

  class Shadow {
    const digest: string -> Digest  // MD5
    const f: MultiHashMD5
    const pmap: Bitmap
    const capacity: nat
    var size: int

    /** The bits that stand for a string. */
    ghost function Indexes(s: string): seq<nat>
      reads f
      requires f.chunkSize * f.chunkNum <= 128
    {
      Values(digest(s), f.chunkSize, f.chunkNum)
    }

    /** The hash values range over the bits of the pmap, and each item has set at most `chunkNum` of them. */
    ghost predicate Valid()
      reads this, f, pmap.bytes
    {
      var body := pmap.bytes.Length;
      && f.chunkSize <= 32 && 0 < f.chunkNum <= 8 && f.chunkSize * f.chunkNum <= 128
      && Pow2(f.chunkSize) == 8 * body
      && 0 <= size <= capacity && 2 * capacity <= body
      && Count(pmap.Bits()) <= f.chunkNum * size
    }

    /** All its bits are set. */
    ghost predicate Holds(s: string)
      reads f, pmap.bytes
    {
      f.chunkSize * f.chunkNum <= 128 && AllSet(pmap.Bits(), Indexes(s))
    }

    /** At most half of the bits are ever set. */
    lemma HalfEmpty()
      requires Valid()
      ensures 2 * Count(pmap.Bits()) <= |pmap.Bits()|
    {
      assert f.chunkNum * size <= 8 * size;
    }

    /** The size of the bitmap, in 32 bits, is the number of its bits. */
    predicate Usable() {
      8 * pmap.bytes.Length < TWO32
    }

    /** Every index of every string stands for a bit; the assertion of the bitmap lets all of them pass if the
        body is smaller than 2 to the power of 29 bytes, and none otherwise. */
    lemma IndexesBelow(s: string)
      requires Valid()
      ensures |Indexes(s)| == f.chunkNum > 0
      ensures forall i | 0 <= i < |Indexes(s)| :: Indexes(s)[i] < |pmap.Bits()|
      ensures forall i | 0 <= i < |Indexes(s)| :: Indexes(s)[i] < pmap.Size() <==> pmap.bytes.Length < TWO32 / 8
    {
      Pow2Of31();
      Pow2Monotone(f.chunkSize, 32);
      forall i | 0 <= i < f.chunkNum ensures Indexes(s)[i] < |pmap.Bits()| {
        ValuesBelow(digest(s), f.chunkSize, f.chunkNum, i);
      }
    }

    /** A shadow made for 2 to the power of 28 strings can be opened, but neither asked nor filled. */
    lemma TopIsUnusable(s: string)
      requires Valid() && LeastPower(pmap.bytes.Length, 2 * 0x1000_0000 % TWO32)
      ensures pmap.Size() == 0 && forall i | 0 <= i < |Indexes(s)| :: Indexes(s)[i] >= pmap.Size()
    {
      hide Pow2, LeastPower, Values;
      Pow2Of31();
      Pow2Step(31);
      Pow2Step(30);
      LeastAtPower(pmap.bytes.Length, 29);
      IndexesBelow(s);
    }

    constructor (digest: string -> Digest, body: nat, chunkSize: nat, chunkNum: nat)
      requires body > 0 && chunkSize <= 32 && 0 < chunkNum <= 8 && chunkSize * chunkNum <= 128 && Pow2(chunkSize) == 8 * body
      ensures Valid() && size == 0 && pmap.bytes.Length == body && capacity == body / 2 && this.digest == digest
      ensures fresh(f) && fresh(pmap) && fresh(pmap.bytes)
      ensures forall s :: !Holds(s)
    {
      hide Values, BitOf, Count, Pow2;
      Pow2Of31();
      Pow2Monotone(chunkSize, 32);
      this.digest := digest;
      var hash := new MultiHashMD5();
      hash.Init(chunkSize, chunkNum);
      var bitmap := new Bitmap(body);
      bitmap.Reset();
      f := hash;
      pmap := bitmap;
      capacity := body / 2;
      size := 0;
      new;
      CountClear(8 * body);
      forall s ensures !Holds(s) {
        IndexesBelow(s);
        assert !pmap.Bits()[Indexes(s)[0]];
      }
    }

    /** The original dies on its first look at a bitmap that is too large. */
    method Has(s: string) returns (r: bool)
      requires Valid() && Usable()
      ensures r == Holds(s)
    {
      IndexesBelow(s);
      var shadow := f.Slice(digest(s));
      var idx := shadow.value;
      for i := 0 to |idx|
        invariant forall j | 0 <= j < i :: pmap.Bits()[idx[j]]
      {
        var bit := pmap.Val(idx[i]);
        if !bit {
          return false;
        }
      }
      r := true;
    }

    /** Sets the bits at some places, and tells whether one was clear. */
    method SetBits(idx: seq<nat>) returns (freebit: bool)
      requires forall i | 0 <= i < |idx| :: idx[i] < pmap.Size()
      modifies pmap.bytes
      ensures AllSet(pmap.Bits(), idx) && (freebit <==> !old(AllSet(pmap.Bits(), idx)))
      ensures forall j | 0 <= j < |pmap.Bits()| && old(pmap.Bits())[j] :: pmap.Bits()[j]
      ensures Count(pmap.Bits()) <= old(Count(pmap.Bits())) + |idx|
      ensures !freebit ==> pmap.Bits() == old(pmap.Bits())
    {
      hide BitOf, Count;
      freebit := false;
      ghost var bits := pmap.Bits();
      for i := 0 to |idx|
        invariant forall j | 0 <= j < |bits| && bits[j] :: pmap.Bits()[j]
        invariant forall j | 0 <= j < i :: pmap.Bits()[idx[j]]
        invariant Count(pmap.Bits()) <= Count(bits) + i
        invariant !freebit ==> pmap.Bits() == bits
        invariant freebit ==> !AllSet(bits, idx)
      {
        var bit := pmap.Val(idx[i]);
        if !bit {
          freebit := true;
          CountSet(pmap.Bits(), idx[i]);
          var _ := pmap.Set(idx[i]);
        }
      }
    }

    /** A full shadow takes nothing; another one has the string afterwards and loses none it had. */
    method PutIt(s: string) returns (r: Put)
      requires Valid() && (size < capacity ==> Usable())
      modifies this`size, pmap.bytes
      ensures Valid()
      ensures r == PutFull <==> old(size) >= capacity
      ensures r == PutFull ==> size == old(size) && pmap.Bits() == old(pmap.Bits())
      ensures r != PutFull ==> Holds(s) && (r == PutExist <==> old(Holds(s)))
      ensures size == old(size) + (if r == PutOK then 1 else 0)
      ensures forall x :: old(Holds(x)) ==> Holds(x)
    {
      hide BitOf, Count, Values;
      if size >= capacity {
        return PutFull;
      }
      IndexesBelow(s);
      var shadow := f.Slice(digest(s));
      var freebit := SetBits(shadow.value);
      if freebit {
        assert f.chunkNum * (size + 1) == f.chunkNum * size + f.chunkNum;
        size := size + 1;
        r := PutOK;
      } else {
        r := PutExist;
      }
    }
  }

  datatype Opened = Opened(shadow: Shadow) | RangeError

  /** A new shadow, for at least `capacity` strings unless the doubled capacity wraps around.  Very large ones
      are refused, and the largest that is not is of no use; so large that the size loop does not end they
      must not be. */
  method Open(digest: string -> Digest, capacity: nat) returns (r: Opened)
    requires capacity < TWO32 && 2 * capacity % TWO32 <= TWO31
    ensures r.RangeError? <==> 2 * capacity % TWO32 > TWO31 / 4
    ensures r.Opened? ==>
      && (r.shadow.Usable() <==> 2 * capacity % TWO32 <= TWO31 / 8)
      && (capacity <= r.shadow.capacity <==> capacity < TWO31)
      && r.shadow.Valid() && r.shadow.size == 0 && (forall s :: !r.shadow.Holds(s)) && r.shadow.digest == digest
      && LeastPower(r.shadow.pmap.bytes.Length, 2 * capacity % TWO32) && r.shadow.capacity == r.shadow.pmap.bytes.Length / 2
      && fresh(r.shadow) && fresh(r.shadow.f) && fresh(r.shadow.pmap) && fresh(r.shadow.pmap.bytes)
  {
    hide Pow2, LeastPower, Count, BitOf, Values, Shadow.Valid, Shadow.Holds;
    var first := BodySize(capacity);
    var body := BodySize(first / 2);
    BodyAgain(first, capacity);
    LeastPowerUnique(body, first, 2 * (first / 2) % TWO32);
    var chunkSize := IndexChunk(body);
    LargeExactly(body, chunkSize, 2 * capacity % TWO32);
    RoomExactly(body, capacity);
    if chunkSize > 32 {
      return RangeError;
    }
    var chunkNum := if 128 / chunkSize > 8 then 8 else 128 / chunkSize;
    ChunksFit(chunkSize, chunkNum);
    var shadow := new Shadow(digest, body, chunkSize, chunkNum);
    r := Opened(shadow);
  }

  lemma LargeExactly(body: nat, chunk: nat, bound: nat)
    requires LeastPower(body, bound) && forall k: nat :: body == Pow2(k) ==> chunk == k + 3
    ensures chunk >= 3 && Pow2(chunk) == 8 * body && (chunk > 32 <==> bound > TWO31 / 4)
  {
    var k: nat :| k < 32 && body == Pow2(k);
    EightTimes(k);
    Above29(k);
  }

  /** A body of less than 2 to the power of 29 bytes is asked for exactly up to half that bound. */
  lemma RoomExactly(body: nat, capacity: nat)
    requires capacity < TWO32 && LeastPower(body, 2 * capacity % TWO32)
    ensures 8 * body < TWO32 <==> 2 * capacity % TWO32 <= TWO31 / 8
    ensures body <= TWO31 / 4 ==> (capacity <= body / 2 <==> capacity < TWO31)
  {
    var k: nat :| k < 32 && body == Pow2(k);
    hide Pow2;
    Pow2Of31();
    Pow2Step(31);
    Pow2Step(30);
    Pow2Step(29);
    if k <= 28 {
      Pow2Monotone(k, 28);
    } else {
      Pow2Monotone(29, k);
    }
    if capacity < TWO31 && k == 0 {
      Pow2Values();
    } else if k > 0 {
      Pow2Step(k);
    }
  }

  /** The least power that is at least a power of two is that power. */
  lemma LeastAtPower(body: nat, k: nat)
    requires k < 32 && LeastPower(body, Pow2(k))
    ensures body == Pow2(k)
  {
    LeastPowerUnique(body, Pow2(k), Pow2(k));
  }

  lemma EightTimes(k: nat)
    ensures Pow2(k + 3) == 8 * Pow2(k)
  {
    Pow2Add(k, 3);
    Pow2Values();
  }

  lemma Above29(k: nat)
    ensures k <= 29 ==> Pow2(k) <= TWO31 / 4
    ensures k >= 30 ==> Pow2(k) >= TWO31 / 2
  {
    hide Pow2;
    Pow2Of31();
    Pow2Step(31);
    Pow2Step(30);
    if k <= 29 {
      Pow2Monotone(k, 29);
    } else {
      Pow2Monotone(30, k);
    }
  }

  lemma ChunksFit(size: nat, num: nat)
    requires 3 <= size <= 32 && num == if 128 / size > 8 then 8 else 128 / size
    ensures 0 < num && size * num <= 128
  {
    var q := 128 / size;
    assert 128 == size * q + 128 % size;
    assert (q + 1) * size > 128;
    Positive(q + 1 - 4, size);
    assert size * num <= size * q;
  }

  lemma Positive(x: int, w: nat)
    requires (x + 4) * w > 4 * w
    ensures x > 0
  {
    assert x * w > 0;
  }
}
