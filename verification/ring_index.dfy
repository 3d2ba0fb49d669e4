/** Index arithmetic of a descriptor ring of `n` slots, and the bit mask that the
    transmit release loop uses in its place. */
module RingIndex {

  /** INCR_TX_DESC_INDEX / INCR_RX_DESC_INDEX with offset 1. */
  function Next(i: nat, n: nat): nat
    requires i < n
  {
    if i + 1 >= n then i + 1 - n else i + 1
  }

  /** The slot `k` places after slot `i`. */
  function At(i: nat, k: nat, n: nat): (j: nat)
    requires i < n && k <= n
    ensures j < n
    ensures k < n ==> Dist(i, j, n) == k
  {
    if i + k < n then i + k else i + k - n
  }

  /** How many places slot `j` lies after slot `i`. */
  function Dist(i: nat, j: nat, n: nat): (k: nat)
    requires i < n && j < n
    ensures k < n
  {
    if i <= j then j - i else j + n - i
  }

  lemma AtDist(i: nat, j: nat, n: nat)
    requires i < n && j < n
    ensures At(i, Dist(i, j, n), n) == j
  {
  }

  lemma AtAt(i: nat, a: nat, b: nat, n: nat)
    requires i < n && a + b <= n
    ensures At(At(i, a, n), b, n) == At(i, a + b, n)
  {
  }

  lemma AtMeetsDist(i: nat, k: nat, n: nat)
    requires i < n && k <= n
    ensures forall j: nat {:trigger Dist(i, j, n)} :: j < n ==> (Dist(i, j, n) == k <==> k < n && j == At(i, k, n))
    ensures k < n ==> Next(At(i, k, n), n) == At(i, k + 1, n)
  {
  }

  /** The slot of the absolute position `t`. */
  function Slot(t: nat, n: nat): (i: nat)
    requires n > 0
    ensures i < n
  {
    if t < n then t else Slot(t - n, n)
  }

  lemma {:induction false} SlotIsMod(t: nat, n: nat)
    requires n > 0
    ensures Slot(t, n) == t % n
  {
    if t >= n {
      SlotIsMod(t - n, n);
      assert (t - n) % n == t % n by {
        var q := (t - n) / n;
        assert t == (q + 1) * n + (t - n) % n;
        ModUnique(t, q + 1, (t - n) % n, n);
      }
    }
  }

  lemma ModUnique(t: nat, q: nat, i: nat, n: nat)
    requires n > 0 && i < n && t == q * n + i
    ensures t % n == i
  {
    var d := t / n - q;
    assert d * n == i - t % n by {
      assert d * n == (t / n) * n - q * n;
    }
    assert d >= 1 ==> d * n >= n;
    assert d <= -1 ==> d * n + n <= 0;
  }

  /** Moving `k <= n` places along the ring and moving `k` absolute positions agree. */
  lemma {:induction false} SlotAdd(t: nat, k: nat, n: nat)
    requires n > 0 && k <= n
    ensures Slot(t + k, n) == At(Slot(t, n), k, n)
  {
    if t >= n {
      SlotAdd(t - n, k, n);
    }
  }

  // ---- the mask of the release loop ----

  /** Bitwise `&` on unsigned words. */
  function BitAnd(a: nat, b: nat): (r: nat)
    ensures r <= b
  {
    if a == 0 || b == 0 then 0
    else 2 * BitAnd(a / 2, b / 2) + (if a % 2 == 1 && b % 2 == 1 then 1 else 0)
  }

  ghost predicate PowerOfTwo(n: nat)
  {
    n == 1 || (n > 0 && n % 2 == 0 && PowerOfTwo(n / 2))
  }

  /** `(idx + 1) & (n - 1)`, the way HAL_ETH_ReleaseTxPacket advances. */
  function MaskNext(i: nat, n: nat): (j: nat)
    requires n > 0
    ensures j < n
  {
    BitAnd(i + 1, n - 1)
  }

  lemma {:induction false} AndMaskBelow(x: nat, n: nat)
    requires PowerOfTwo(n) && x < n
    ensures BitAnd(x, n - 1) == x
  {
    if n > 1 && x > 0 {
      AndMaskBelow(x / 2, n / 2);
      assert (n - 1) / 2 == n / 2 - 1;
    }
  }

  lemma {:induction false} AndSelf(x: nat)
    ensures BitAnd(x, x) == x
  {
    if x > 0 {
      AndSelf(x / 2);
    }
  }

  lemma {:induction false} AndPredecessor(n: nat)
    requires n > 0
    ensures BitAnd(n, n - 1) == 0 <==> PowerOfTwo(n)
  {
    if n > 1 {
      if n % 2 == 0 {
        AndPredecessor(n / 2);
        assert (n - 1) / 2 == n / 2 - 1;
      } else {
        AndSelf(n / 2);
        assert (n - 1) / 2 == n / 2;
      }
    }
  }

  /** The mask steps around the ring like INCR_TX_DESC_INDEX exactly when the ring
      size is a power of two. */
  lemma MaskIsNextIff(n: nat)
    requires n > 0
    ensures (forall i: nat {:trigger MaskNext(i, n)} :: i < n ==> MaskNext(i, n) == Next(i, n)) <==> PowerOfTwo(n)
  {
    AndPredecessor(n);
    if PowerOfTwo(n) {
      forall i: nat | i < n
        ensures MaskNext(i, n) == Next(i, n)
      {
        if i + 1 < n {
          AndMaskBelow(i + 1, n);
        }
      }
    } else {
      assert MaskNext(n - 1, n) != Next(n - 1, n);
    }
  }
}
