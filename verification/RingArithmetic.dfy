/** Facts about indices that wrap modulo a number of slots, and about slots laid out in one block. */
module RingArithmetic {

  /** Where the source's unsigned numbers wrap. */
  const TWO32 := 0x1_0000_0000

  lemma SlotInBlock(i: nat, n: nat, size: nat)
    requires i < n
    ensures 0 <= i * size && i * size + size <= n * size
  {
    assert n * size == i * size + size + (n - i - 1) * size;
  }

  lemma SlotsApart(i: nat, j: nat, size: nat)
    requires i != j
    ensures i * size + size <= j * size || j * size + size <= i * size
  {
    if i < j { SlotInBlock(i, j, size); } else { SlotInBlock(j, i, size); }
  }

  /** Division is the only way to write `k` as a multiple of `n` and a remainder below `n`. */
  lemma DivModUnique(k: int, n: nat, q: int, r: nat)
    requires r < n && k == q * n + r
    ensures k % n == r && k / n == q
  {
    var q', r' := k / n, k % n;
    var d := q' - q;
    assert d * n == r - r';
    if 0 < d {
      MulMonotone(d, n);
    } else if d < 0 {
      MulMonotone(-d, n);
    }
  }

  lemma MulMonotone(c: nat, n: nat)
    requires 0 < c
    ensures c * n >= n
  {
    assert c * n == n + (c - 1) * n;
    MulNonNegative(c - 1, n);
  }

  lemma MulNonNegative(c: nat, n: nat)
    ensures 0 <= c * n
  {
  }

  lemma ModNext(k: nat, n: nat)
    requires 0 < n
    ensures (k + 1) % n == (k % n + 1) % n
  {
    var q, r := k / n, k % n;
    if r + 1 < n {
      DivModUnique(k + 1, n, q, r + 1);
    } else {
      assert (q + 1) * n == q * n + n;
      DivModUnique(k + 1, n, q + 1, 0);
    }
  }

  /** Indices less than one lap apart fall in different slots, and their wrapped difference is exact. */
  lemma ModGap(a: nat, b: nat, n: nat)
    requires 0 < n && a <= b < a + n
    ensures a < b ==> a % n != b % n
    ensures b - a == if b % n >= a % n then b % n - a % n else b % n - a % n + n
  {
    var q, r := a / n, a % n;
    var d := b - a;
    if r + d < n {
      DivModUnique(b, n, q, r + d);
    } else {
      assert (q + 1) * n == q * n + n;
      DivModUnique(b, n, q + 1, r + d - n);
    }
  }

  lemma ModLap(a: nat, n: nat)
    requires 0 < n
    ensures (a + n) % n == a % n
  {
    assert (a / n + 1) * n == a / n * n + n;
    DivModUnique(a + n, n, a / n + 1, a % n);
  }
}
