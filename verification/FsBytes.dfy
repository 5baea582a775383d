/** Bytes, little-endian words and bitmap bits inside a disk block (kernel/fs.h, kernel/fs.c). */
module FsBytes {
  const BSIZE := 1024
  const BPB := 8192             // bitmap bits per block
  const NINDIRECT := 256        // BSIZE / sizeof(uint)
  const LIMIT32 := 0x1_0000_0000

  type Block = seq<int>

  ghost predicate IsBlock(b: Block) {
    |b| == BSIZE && forall i :: 0 <= i < BSIZE ==> 0 <= b[i] < 256
  }

  function ZeroBlock(): (b: Block)
    ensures |b| == BSIZE && (forall i :: 0 <= i < BSIZE ==> b[i] == 0)
  {
    seq(BSIZE, _ => 0)
  }

  // ----- 32-bit words -----

  function Word(b: Block, k: nat): int
    requires |b| == BSIZE && k < NINDIRECT
  {
    b[4 * k] + 256 * b[4 * k + 1] + 65536 * b[4 * k + 2] + 16777216 * b[4 * k + 3]
  }

  function SetWord(b: Block, k: nat, v: int): Block
    requires |b| == BSIZE && k < NINDIRECT
  {
    var q1 := v / 256;
    var q2 := q1 / 256;
    var q3 := q2 / 256;
    b[4 * k := v % 256][4 * k + 1 := q1 % 256][4 * k + 2 := q2 % 256][4 * k + 3 := q3 % 256]
  }

  lemma WordRange(b: Block, k: nat)
    requires IsBlock(b) && k < NINDIRECT
    ensures 0 <= Word(b, k) < LIMIT32
  {
  }

  lemma DigitsMakeWord(v: int)
    requires 0 <= v < LIMIT32
    ensures var q1 := v / 256; var q2 := q1 / 256; var q3 := q2 / 256;
            v % 256 + 256 * (q1 % 256) + 65536 * (q2 % 256) + 16777216 * (q3 % 256) == v
  {
    var q1 := v / 256;
    var q2 := q1 / 256;
    var q3 := q2 / 256;
    assert 0 <= q3 < 256;
  }

  /** Storing a word is read back, and no other word moves. */
  lemma WordSet(b: Block, k: nat, v: int, j: nat)
    requires IsBlock(b) && k < NINDIRECT && j < NINDIRECT && 0 <= v < LIMIT32
    ensures IsBlock(SetWord(b, k, v))
    ensures Word(SetWord(b, k, v), j) == if j == k then v else Word(b, j)
  {
    DigitsMakeWord(v);
  }

  lemma ZeroWord(k: nat)
    requires k < NINDIRECT
    ensures IsBlock(ZeroBlock()) && Word(ZeroBlock(), k) == 0
  {
  }

  // ----- Bits -----

  function Pow2(j: nat): (p: int)
    ensures p >= 1
  {
    if j == 0 then 1 else 2 * Pow2(j - 1)
  }

  /** Bit j of a byte: the source tests (byte & (1 << j)) != 0. */
  predicate Bit(v: nat, j: nat) {
    if j == 0 then v % 2 == 1 else Bit(v / 2, j - 1)
  }

  /** Setting a clear bit (byte |= m) moves no other bit and stays within n bits. */
  lemma {:induction false} BitSet(v: nat, j: nat, n: nat)
    requires j < n && v < Pow2(n) && !Bit(v, j)
    ensures v + Pow2(j) < Pow2(n)
    ensures forall i: nat :: Bit(v + Pow2(j), i) == (i == j || Bit(v, i))
  {
    var w := v + Pow2(j);
    if j > 0 {
      BitSet(v / 2, j - 1, n - 1);
      assert w / 2 == v / 2 + Pow2(j - 1);
      assert w % 2 == v % 2;
    } else {
      assert w / 2 == v / 2;
    }
    forall i: nat ensures Bit(w, i) == (i == j || Bit(v, i)) {
      if i > 0 { assert Bit(w, i) == Bit(w / 2, i - 1) && Bit(v, i) == Bit(v / 2, i - 1); }
    }
  }

  lemma {:induction false} BitWeight(v: nat, j: nat)
    requires Bit(v, j)
    ensures v >= Pow2(j) && !Bit(v - Pow2(j), j)
  {
    if j > 0 {
      BitWeight(v / 2, j - 1);
      assert (v - Pow2(j)) / 2 == v / 2 - Pow2(j - 1);
    }
  }

  /** Clearing a set bit (byte &= ~m) moves no other bit. */
  lemma BitClear(v: nat, j: nat, n: nat)
    requires j < n && v < Pow2(n) && Bit(v, j)
    ensures v >= Pow2(j)
    ensures forall i: nat :: Bit(v - Pow2(j), i) == (i != j && Bit(v, i))
  {
    BitWeight(v, j);
    BitSet(v - Pow2(j), j, n);
  }
}
