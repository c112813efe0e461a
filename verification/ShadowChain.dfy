/** A growing chain of filters, src/crawler/shadow_chain.cpp. */
module ShadowChains {
  import opened MultiHash
  import opened Shadows

  const MAX_CAPACITY := 262144

  /** Everything that a list of shadows is made of. */
  ghost function PartsOf(chain: seq<Shadow>): set<object> {
    (set i | 0 <= i < |chain| :: chain[i]) + (set i | 0 <= i < |chain| :: chain[i].f)
      + (set i | 0 <= i < |chain| :: chain[i].pmap.bytes)
  }

  ghost predicate ShadowFine(shadow: Shadow, digest: string -> Digest)
    reads shadow, shadow.f, shadow.pmap.bytes
  {
    shadow.Valid() && shadow.Usable() && shadow.digest == digest && 0 < shadow.capacity <= TWO31 / 16
  }

  ghost predicate AllFine(chain: seq<Shadow>, digest: string -> Digest)
    reads PartsOf(chain)
  {
    forall i | 0 <= i < |chain| :: ShadowFine(chain[i], digest)
  }

  ghost predicate Apart(chain: seq<Shadow>) {
    forall i, j | 0 <= i < j < |chain| :: chain[i] != chain[j] && chain[i].pmap.bytes != chain[j].pmap.bytes
  }

  /** Some shadow of the list has the string. */
  ghost predicate AnyHolds(chain: seq<Shadow>, s: string)
    reads PartsOf(chain)
  {
    exists i :: 0 <= i < |chain| && chain[i].Holds(s)
  }

  lemma AppendParts(chain: seq<Shadow>, last: Shadow)
    ensures PartsOf(chain + [last]) == PartsOf(chain) + {last, last.f, last.pmap.bytes}
  {
    var now := chain + [last];
    assert now[|chain|] == last;
    assert forall i | 0 <= i < |chain| :: now[i] == chain[i];
  }

  lemma AppendFine(chain: seq<Shadow>, last: Shadow, digest: string -> Digest)
    ensures AllFine(chain + [last], digest) <==> AllFine(chain, digest) && ShadowFine(last, digest)
  {
    hide ShadowFine;
    var now := chain + [last];
    assert now[|chain|] == last;
    assert forall i | 0 <= i < |chain| :: now[i] == chain[i];
  }

  lemma AppendHolds(chain: seq<Shadow>, last: Shadow, s: string)
    ensures AnyHolds(chain + [last], s) <==> AnyHolds(chain, s) || last.Holds(s)
  {
    hide Shadow.Holds;
    var now := chain + [last];
    assert now[|chain|] == last;
    if i :| 0 <= i < |chain| && chain[i].Holds(s) {
      assert now[i].Holds(s);
    }
  }

  lemma AppendApart(chain: seq<Shadow>, last: Shadow)
    ensures Apart(chain + [last]) <==>
      Apart(chain) && forall i | 0 <= i < |chain| :: chain[i] != last && chain[i].pmap.bytes != last.pmap.bytes
  {
    var now := chain + [last];
    assert now[|chain|] == last;
    assert forall i | 0 <= i < |chain| :: now[i] == chain[i];
  }

  lemma NotPart(chain: seq<Shadow>, last: Shadow)
    requires forall i | 0 <= i < |chain| :: chain[i] != last && chain[i].pmap.bytes != last.pmap.bytes
    ensures (last as object) !in PartsOf(chain) && (last.pmap.bytes as object) !in PartsOf(chain)
  {
  }

  /** A new shadow at the end brings nothing that is held. */
  lemma Extended(chain: seq<Shadow>, last: Shadow, digest: string -> Digest)
    requires Apart(chain) && AllFine(chain, digest) && ShadowFine(last, digest) && forall s :: !last.Holds(s)
    requires forall i | 0 <= i < |chain| :: chain[i] != last && chain[i].pmap.bytes != last.pmap.bytes
    ensures Apart(chain + [last]) && AllFine(chain + [last], digest)
    ensures forall x :: AnyHolds(chain + [last], x) <==> AnyHolds(chain, x)
  {
    hide Shadow.Holds, Apart, AllFine, ShadowFine, AnyHolds;
    AppendFine(chain, last, digest);
    AppendApart(chain, last);
    forall x ensures AnyHolds(chain + [last], x) <==> AnyHolds(chain, x) {
      AppendHolds(chain, last, x);
    }
  }

  class ShadowChain {
    const digest: string -> Digest
    var chain: seq<Shadow>

    ghost function Parts(): set<object>
      reads this
    {
      {this} + PartsOf(chain)
    }

    ghost predicate Valid()
      reads this, PartsOf(chain)
    {
      chain != [] && Apart(chain) && AllFine(chain, digest)
    }

    ghost predicate Remembers(s: string)
      reads this, PartsOf(chain)
    {
      AnyHolds(chain, s)
    }

    /** A chain of one new shadow. */
    constructor (digest: string -> Digest, first: Shadow)
      requires ShadowFine(first, digest) && forall s :: !first.Holds(s)
      ensures Valid() && chain == [first] && forall s :: !Remembers(s)
    {
      this.digest := digest;
      chain := [first];
    }

    method Has(s: string) returns (r: bool)
      requires Valid()
      ensures r == Remembers(s)
    {
      hide Shadow.Holds, Apart;
      for i := 0 to |chain|
        invariant forall j | 0 <= j < i :: !chain[j].Holds(s)
      {
        assert ShadowFine(chain[i], digest);
        r := chain[i].Has(s);
        if r {
          return;
        }
      }
      r := false;
    }

    /** If the last shadow is full, another one is added, eight times as large or, from 262144 on, as
        large as the last.  What the chain remembers does not change. */
    method MakeRoom() returns (last: Shadow)
      requires Valid()
      modifies this`chain
      ensures Valid() && last == chain[|chain| - 1] && last.size < last.capacity
      ensures forall x :: Remembers(x) <==> old(Remembers(x))
      ensures PartsOf(chain) == PartsOf(old(chain)) + {last, last.f, last.pmap.bytes}
      ensures var back := old(chain)[|old(chain)| - 1];
        if back.size < back.capacity then chain == old(chain) && last == back
        else
          var c := back.capacity;
          && chain == old(chain) + [last] && fresh(last) && fresh(last.f) && fresh(last.pmap.bytes)
          && LeastPower(2 * last.capacity, 2 * (if c < MAX_CAPACITY then 8 * c else c))
    {
      hide Shadow.Holds, Shadow.Valid, LeastPower, AnyHolds, Apart;
      last := chain[|chain| - 1];
      assert ShadowFine(last, digest);
      if last.size < last.capacity {
        LastPart(chain);
        return;
      }
      last := NewShadow(last.capacity);
      AppendParts(chain, last);
      Extended(chain, last, digest);
      chain := chain + [last];
    }

    method NewShadow(capacity: nat) returns (shadow: Shadow)
      requires 0 < capacity <= TWO31 / 16
      ensures ShadowFine(shadow, digest) && shadow.size < shadow.capacity && forall s :: !shadow.Holds(s)
      ensures LeastPower(2 * shadow.capacity, 2 * (if capacity < MAX_CAPACITY then 8 * capacity else capacity))
      ensures fresh(shadow) && fresh(shadow.f) && fresh(shadow.pmap.bytes)
    {
      hide Shadow.Holds, Shadow.Valid, LeastPower;
      var newCapacity := if capacity < MAX_CAPACITY then capacity * 8 else capacity;
      var result := Open(digest, newCapacity);
      shadow := result.shadow;
      NotTooLarge(shadow);
      EvenBody(shadow.pmap.bytes.Length, 2 * newCapacity);
    }

    /** The string goes into the last shadow, which has room for it. */
    method PutLast(last: Shadow, s: string) returns (r: bool)
      requires Valid() && !Remembers(s) && last == chain[|chain| - 1] && last.size < last.capacity
      modifies last`size, last.pmap.bytes
      ensures Valid() && r && Remembers(s)
      ensures forall x :: old(Remembers(x)) ==> Remembers(x)
    {
      hide Shadow.Holds, Shadow.Valid, AnyHolds, AllFine, Apart;
      ghost var front := chain[..|chain| - 1];
      assert chain == front + [last];
      AppendApart(front, last);
      AppendFine(front, last, digest);
      NotPart(front, last);
      forall x ensures AnyHolds(chain, x) <==> AnyHolds(front, x) || last.Holds(x) {
        AppendHolds(front, last, x);
      }
      var put := last.PutIt(s);
      r := put == PutOK;
      AppendFine(front, last, digest);
      forall x ensures AnyHolds(chain, x) <==> AnyHolds(front, x) || last.Holds(x) {
        AppendHolds(front, last, x);
      }
    }

    /** True exactly for a string that was not remembered before; remembered it is afterwards, with all
        that was. */
    method Put(s: string) returns (r: bool)
      requires Valid()
      modifies Parts()
      ensures Valid() && (r <==> !old(Remembers(s))) && Remembers(s)
      ensures forall x :: old(Remembers(x)) ==> Remembers(x)
      ensures !r ==> forall x :: Remembers(x) ==> old(Remembers(x))
      ensures forall o | o in Parts() :: o in old(Parts()) || fresh(o)
    {
      hide ShadowChain.Valid, ShadowChain.Remembers, LeastPower;
      r := Has(s);
      if r {
        return false;
      }
      var last := MakeRoom();
      r := PutLast(last, s);
    }

    method Size() returns (sum: nat)
      requires Valid()
      ensures sum == Total(chain)
    {
      sum := 0;
      for i := 0 to |chain|
        invariant sum == Total(chain[..i])
      {
        assert ShadowFine(chain[i], digest);
        assert chain[..i + 1][..i] == chain[..i];
        sum := sum + chain[i].size;
      }
      assert chain[..|chain|] == chain;
    }
  }

  /** The strings counted in all shadows. */
  ghost function Total(chain: seq<Shadow>): int
    reads PartsOf(chain)
  {
    if chain == [] then 0 else Total(chain[..|chain| - 1]) + chain[|chain| - 1].size
  }

  lemma LastPart(chain: seq<Shadow>)
    requires chain != []
    ensures var last := chain[|chain| - 1]; PartsOf(chain) == PartsOf(chain) + {last, last.f, last.pmap.bytes}
  {
  }

  /** A shadow is never too large to have a successor. */
  lemma NotTooLarge(shadow: Shadow)
    requires shadow.Valid() && shadow.Usable()
    ensures shadow.capacity <= TWO31 / 16
  {
    hide Pow2;
    Pow2Of31();
    if shadow.f.chunkSize < 32 {
      Pow2Monotone(shadow.f.chunkSize, 31);
    } else {
      Pow2Monotone(32, shadow.f.chunkSize);
    }
  }

  lemma EvenBody(body: nat, bound: nat)
    requires LeastPower(body, bound) && bound > 1
    ensures body == 2 * (body / 2) && 0 < body / 2
  {
    var k: nat :| k < 32 && body == Pow2(k);
    Pow2Values();
  }
}
