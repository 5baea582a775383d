/** Positions in a ring of n slots under counters that wrap at w, a multiple of n: the rings of
    kernel/pipe.c and kernel/virtio_disk.c. */
module RingIndex {
  lemma DivMod(x: nat, n: nat)
    requires n > 0
    ensures x == n * (x / n) + x % n && x % n < n
  {
  }

  lemma {:induction false} Gap(n: nat, p: nat, q: nat)
    requires p < q
    ensures n * q >= n * p + n
    decreases q
  {
    assert n * q == n * (q - 1) + n;
    if p < q - 1 { Gap(n, p, q - 1); }
  }

  lemma Unique(n: nat, p: nat, r: nat, q: nat, s: nat)
    requires r < n && s < n && n * p + r == n * q + s
    ensures p == q && r == s
  {
    if p < q { Gap(n, p, q); } else if q < p { Gap(n, q, p); }
  }

  lemma ModUnique(x: nat, n: nat, q: nat, r: nat)
    requires r < n && x == n * q + r
    ensures x % n == r
  {
    DivMod(x, n);
    Unique(n, q, r, x / n, x % n);
  }

  lemma Regroup(n: nat, t: nat, a: nat, c: nat, d: nat)
    ensures n * t * a + (n * c + d) == n * (t * a + c) + d
  {
    assert n * (t * a + c) == n * (t * a) + n * c;
    assert n * t * a == n * (t * a);
  }

  /** The wrapped counter leads to the same slot. */
  lemma SlotOf(k: nat, n: nat, w: nat, t: nat)
    requires n > 0 && w == n * t && w > 0
    ensures k % w % n == k % n
  {
    var a, b := k / w, k % w;
    DivMod(k, w);
    DivMod(b, n);
    Regroup(n, t, a, b / n, b % n);
    ModUnique(k, n, t * a + b / n, b % n);
  }

  /** Counters less than n apart have different slots. */
  lemma SlotsApart(j: nat, k: nat, n: nat)
    requires j < k < j + n
    ensures j % n != k % n
  {
    DivMod(j, n);
    DivMod(k, n);
    if j % n == k % n { Together(n, j / n, k / n, j % n); }
  }

  lemma Together(n: nat, p: nat, q: nat, r: nat)
    ensures !(n * p + r < n * q + r < n * p + r + n)
  {
    if p < q { Gap(n, p, q); } else if q < p { Gap(n, q, p); }
  }

  /** Adding one commutes with wrapping. */
  lemma NextIndex(k: nat, w: nat)
    requires w > 0
    ensures (k % w + 1) % w == (k + 1) % w
  {
    var a, b := k / w, k % w;
    DivMod(k, w);
    if b + 1 < w {
      ModUnique(b + 1, w, 0, b + 1);
      ModUnique(k + 1, w, a, b + 1);
    } else {
      assert w * (a + 1) == w * a + w;
      ModUnique(b + 1, w, 1, 0);
      ModUnique(k + 1, w, a + 1, 0);
    }
  }
}
