/** Who owns which disk block: the bitmap, the inodes' direct slots, indirect pointers and
    indirect entries (kernel/fs.c), as predicates on the block and inode tables. */
module FsBlocks {
  import opened FsBytes

  const NDIRECT := 12
  const NSLOTS := 269           // 12 direct, 1 indirect pointer, 256 indirect entries
  const MAXFILE := 268          // NDIRECT + NINDIRECT

  /** The parts of the super block the allocator uses; nmeta is the first data block. */
  datatype Super = Super(size: nat, ninodes: nat, inodestart: nat, bmapstart: nat, nmeta: nat) {
    predicate Ok() { bmapstart + size / BPB < nmeta <= size < LIMIT32 && 0 < nmeta }
  }

  datatype Inode = Inode(size: nat, typ: int, nlink: int, addrs: seq<nat>)

  type Blocks = seq<Block>
  type Inodes = seq<Inode>
  type Slot = (nat, nat)

  ghost predicate Shape(sb: Super, blocks: Blocks, inodes: Inodes) {
    && sb.Ok()
    && |blocks| == sb.size && (forall b :: 0 <= b < sb.size ==> IsBlock(blocks[b]))
    && |inodes| == sb.ninodes
    && (forall i :: 0 <= i < |inodes| ==> |inodes[i].addrs| == NDIRECT + 1 && inodes[i].addrs[NDIRECT] < sb.size)
  }

  function BBlock(sb: Super, b: nat): nat { b / BPB + sb.bmapstart }

  predicate ByteOk(v: int) { 0 <= v < 256 }

  predicate Marked(sb: Super, blocks: Blocks, b: nat)
    requires BBlock(sb, b) < |blocks| && |blocks[BBlock(sb, b)]| == BSIZE && ByteOk(blocks[BBlock(sb, b)][b % BPB / 8])
  {
    Bit(blocks[BBlock(sb, b)][b % BPB / 8], b % 8)
  }

  lemma MarkedDefined(sb: Super, blocks: Blocks, inodes: Inodes, b: nat)
    requires Shape(sb, blocks, inodes) && b < sb.size
    ensures BBlock(sb, b) < sb.nmeta && IsBlock(blocks[BBlock(sb, b)]) && 0 <= b % BPB / 8 < BSIZE
  {
    assert b / BPB <= sb.size / BPB;
  }

  /** The address in slot k of inode i; 0 when the slot is empty. */
  function SlotAddr(blocks: Blocks, ino: Inode, k: nat): int
    requires k < NSLOTS && |ino.addrs| == NDIRECT + 1
    requires ino.addrs[NDIRECT] < |blocks| && |blocks[ino.addrs[NDIRECT]]| == BSIZE
  {
    if k <= NDIRECT then ino.addrs[k]
    else if ino.addrs[NDIRECT] == 0 then 0
    else Word(blocks[ino.addrs[NDIRECT]], k - NDIRECT - 1)
  }

  /** Slots of inode xi from the first indirect entry up to xk are left out of the account:
      itrunc frees those blocks before it drops the pointers to them. */
  predicate Counts(i: nat, k: nat, xi: int, xk: int) {
    !(i == xi && NDIRECT < k < xk)
  }

  ghost predicate Claimed(sb: Super, blocks: Blocks, inodes: Inodes, owner: map<nat, Slot>, xi: int, xk: int)
    requires Shape(sb, blocks, inodes)
  {
    forall i, k {:trigger SlotAddr(blocks, inodes[i], k), Counts(i, k, xi, xk)} ::
      0 <= i < |inodes| && 0 <= k < NSLOTS && Counts(i, k, xi, xk) && SlotAddr(blocks, inodes[i], k) != 0 ==>
      SlotAddr(blocks, inodes[i], k) in owner && owner[SlotAddr(blocks, inodes[i], k)] == (i, k)
  }

  ghost predicate Backed(sb: Super, blocks: Blocks, inodes: Inodes, owner: map<nat, Slot>, xi: int, xk: int)
    requires Shape(sb, blocks, inodes)
  {
    forall a {:trigger owner[a]} :: a in owner ==>
      && sb.nmeta <= a < sb.size
      && owner[a].0 < |inodes| && owner[a].1 < NSLOTS && Counts(owner[a].0, owner[a].1, xi, xk)
      && SlotAddr(blocks, inodes[owner[a].0], owner[a].1) == a
  }

  ghost predicate MarkedIff(sb: Super, blocks: Blocks, owner: map<nat, Slot>, loose: set<nat>)
    requires forall b :: 0 <= b < sb.size ==>
      BBlock(sb, b) < |blocks| && |blocks[BBlock(sb, b)]| == BSIZE && ByteOk(blocks[BBlock(sb, b)][b % BPB / 8])
  {
    forall b {:trigger Marked(sb, blocks, b)} :: 0 <= b < sb.size ==>
      (Marked(sb, blocks, b) <==> b < sb.nmeta || b in owner || b in loose)
  }

  ghost predicate BitmapReadable(sb: Super, blocks: Blocks) {
    forall b :: 0 <= b < sb.size ==>
      BBlock(sb, b) < |blocks| && |blocks[BBlock(sb, b)]| == BSIZE && ByteOk(blocks[BBlock(sb, b)][b % BPB / 8])
  }

  /** The state of balloc's panic "out of blocks". */
  ghost predicate DiskFull(sb: Super, blocks: Blocks) {
    BitmapReadable(sb, blocks) && forall b {:trigger Marked(sb, blocks, b)} :: 0 <= b < sb.size ==>
      Marked(sb, blocks, b)
  }

  lemma ShapeReadable(sb: Super, blocks: Blocks, inodes: Inodes)
    requires Shape(sb, blocks, inodes)
    ensures BitmapReadable(sb, blocks)
  {
    forall b | 0 <= b < sb.size
      ensures BBlock(sb, b) < |blocks| && |blocks[BBlock(sb, b)]| == BSIZE && ByteOk(blocks[BBlock(sb, b)][b % BPB / 8])
    {
      MarkedDefined(sb, blocks, inodes, b);
    }
  }

  /** Block ownership: a block is marked exactly when it is metadata, or held by exactly one
      slot, or (mid-operation) loose: just allocated and not yet attached. */
  ghost predicate Owns(sb: Super, blocks: Blocks, inodes: Inodes, owner: map<nat, Slot>, loose: set<nat>, xi: int,
                       xk: int) {
    && Shape(sb, blocks, inodes) && BitmapReadable(sb, blocks)
    && Claimed(sb, blocks, inodes, owner, xi, xk)
    && Backed(sb, blocks, inodes, owner, xi, xk)
    && MarkedIff(sb, blocks, owner, loose)
    && (forall b :: b in loose ==> sb.nmeta <= b < sb.size && b !in owner)
  }

  /** No two slots hold the same block: stated on the tables alone. */
  lemma HeldByOneSlot(sb: Super, blocks: Blocks, inodes: Inodes, owner: map<nat, Slot>, i: nat, k: nat, j: nat, m: nat)
    requires Owns(sb, blocks, inodes, owner, {}, -1, 0)
    requires i < |inodes| && j < |inodes| && k < NSLOTS && m < NSLOTS
    requires SlotAddr(blocks, inodes[i], k) == SlotAddr(blocks, inodes[j], m) != 0
    ensures i == j && k == m && 0 < SlotAddr(blocks, inodes[i], k) < sb.size
    ensures Marked(sb, blocks, SlotAddr(blocks, inodes[i], k))
  {
    assert Counts(i, k, -1, 0) && Counts(j, m, -1, 0);
    assert owner[SlotAddr(blocks, inodes[i], k)] == (i, k);
    assert owner[SlotAddr(blocks, inodes[j], m)] == (j, m);
  }

  // ----- The bitmap -----

  function Byte(b: nat): nat { b % BPB / 8 }

  /** Set or clear the bit of block b. */
  function WithBit(sb: Super, blocks: Blocks, b: nat, delta: int): Blocks
    requires BBlock(sb, b) < |blocks| && |blocks[BBlock(sb, b)]| == BSIZE
  {
    var bp := blocks[BBlock(sb, b)];
    blocks[BBlock(sb, b) := bp[Byte(b) := bp[Byte(b)] + delta]]
  }

  lemma SameByte(b: nat, c: nat)
    requires b / BPB == c / BPB && Byte(b) == Byte(c) && b % 8 == c % 8
    ensures b == c
  {
    assert b % BPB % 8 == b % 8 && c % BPB % 8 == c % 8;
  }

  lemma MarkBit(sb: Super, blocks: Blocks, inodes: Inodes, b: nat, c: nat)
    requires Shape(sb, blocks, inodes) && b < sb.size && c < sb.size && BitmapReadable(sb, blocks)
    requires !Marked(sb, blocks, b)
    ensures var blocks' := WithBit(sb, blocks, b, Pow2(b % 8));
            && Shape(sb, blocks', inodes) && BitmapReadable(sb, blocks')
            && Marked(sb, blocks', c) == (c == b || Marked(sb, blocks, c))
  {
    MarkedDefined(sb, blocks, inodes, b);
    MarkedDefined(sb, blocks, inodes, c);
    var v := blocks[BBlock(sb, b)][Byte(b)];
    assert Pow2(8) == 256;
    BitSet(v, b % 8, 8);
    var blocks' := WithBit(sb, blocks, b, Pow2(b % 8));
    forall d | 0 <= d < sb.size ensures IsBlock(blocks'[d]) {}
    ShapeReadable(sb, blocks', inodes);
    if BBlock(sb, b) == BBlock(sb, c) && Byte(b) == Byte(c) && b % 8 == c % 8 {
      SameByte(b, c);
    }
  }

  lemma ClearBit(sb: Super, blocks: Blocks, inodes: Inodes, b: nat, c: nat)
    requires Shape(sb, blocks, inodes) && b < sb.size && c < sb.size && BitmapReadable(sb, blocks)
    requires Marked(sb, blocks, b)
    ensures blocks[BBlock(sb, b)][Byte(b)] >= Pow2(b % 8)
    ensures var blocks' := WithBit(sb, blocks, b, -Pow2(b % 8));
            && Shape(sb, blocks', inodes) && BitmapReadable(sb, blocks')
            && Marked(sb, blocks', c) == (c != b && Marked(sb, blocks, c))
  {
    MarkedDefined(sb, blocks, inodes, b);
    MarkedDefined(sb, blocks, inodes, c);
    var v := blocks[BBlock(sb, b)][Byte(b)];
    assert Pow2(8) == 256;
    BitClear(v, b % 8, 8);
    var blocks' := WithBit(sb, blocks, b, -Pow2(b % 8));
    forall d | 0 <= d < sb.size ensures IsBlock(blocks'[d]) {}
    ShapeReadable(sb, blocks', inodes);
    if BBlock(sb, b) == BBlock(sb, c) && Byte(b) == Byte(c) && b % 8 == c % 8 {
      SameByte(b, c);
    }
  }
}
