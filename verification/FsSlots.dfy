/** How allocating, attaching and freeing blocks move ownership and file contents
    (kernel/fs.c: balloc, bfree, bmap, itrunc, writei). */
module FsSlots {
  import opened FsBytes
  import opened FsBlocks

  /** The slot that maps file block bn. */
  function DataSlot(bn: nat): nat { if bn < NDIRECT then bn else bn + 1 }

  /** Byte off of a file; unmapped blocks read as zeros. */
  function ByteAt(blocks: Blocks, ino: Inode, off: nat): int
    requires off < MAXFILE * BSIZE && |ino.addrs| == NDIRECT + 1
    requires ino.addrs[NDIRECT] < |blocks| && |blocks[ino.addrs[NDIRECT]]| == BSIZE
  {
    var a := SlotAddr(blocks, ino, DataSlot(off / BSIZE));
    if a <= 0 || a >= |blocks| || |blocks[a]| != BSIZE then 0 else blocks[a][off % BSIZE]
  }

  ghost predicate SameSlots(blocks: Blocks, blocks': Blocks, ino: Inode)
  {
    && |ino.addrs| == NDIRECT + 1
    && ino.addrs[NDIRECT] < |blocks| && |blocks[ino.addrs[NDIRECT]]| == BSIZE
    && ino.addrs[NDIRECT] < |blocks'| && |blocks'[ino.addrs[NDIRECT]]| == BSIZE
    && forall k :: 0 <= k < NSLOTS ==> SlotAddr(blocks', ino, k) == SlotAddr(blocks, ino, k)
  }

  /** Every byte of every file is unchanged. */
  ghost predicate SameBytes(sb: Super, blocks: Blocks, inodes: Inodes, blocks': Blocks, inodes': Inodes)
    requires Shape(sb, blocks, inodes) && Shape(sb, blocks', inodes')
  {
    forall i, off :: 0 <= i < |inodes| && 0 <= off < MAXFILE * BSIZE ==>
      ByteAt(blocks', inodes'[i], off) == ByteAt(blocks, inodes[i], off)
  }

  // ----- Frames -----

  /** Block x is nobody's indirect block. */
  ghost predicate NotIndirect(inodes: Inodes, x: nat) {
    forall i :: 0 <= i < |inodes| && |inodes[i].addrs| == NDIRECT + 1 && inodes[i].addrs[NDIRECT] != 0 ==>
      inodes[i].addrs[NDIRECT] != x
  }

  lemma OwnedNotIndirect(sb: Super, blocks: Blocks, inodes: Inodes, owner: map<nat, Slot>, xi: int, xk: int, x: nat)
    requires Shape(sb, blocks, inodes) && Claimed(sb, blocks, inodes, owner, xi, xk)
    requires x !in owner || owner[x].1 != NDIRECT
    ensures NotIndirect(inodes, x)
  {
    forall i | 0 <= i < |inodes| && inodes[i].addrs[NDIRECT] != 0 ensures inodes[i].addrs[NDIRECT] != x {
      assert Counts(i, NDIRECT, xi, xk) && SlotAddr(blocks, inodes[i], NDIRECT) == inodes[i].addrs[NDIRECT];
    }
  }

  lemma WriteKeepsSlots(blocks: Blocks, ino: Inode, x: nat, v: Block)
    requires |ino.addrs| == NDIRECT + 1 && ino.addrs[NDIRECT] < |blocks| && |blocks[ino.addrs[NDIRECT]]| == BSIZE
    requires x < |blocks| && |v| == BSIZE && (ino.addrs[NDIRECT] != 0 ==> ino.addrs[NDIRECT] != x)
    ensures SameSlots(blocks, blocks[x := v], ino)
  {
  }

  lemma WriteKeepsOwners(sb: Super, blocks: Blocks, inodes: Inodes, owner: map<nat, Slot>, xi: int, xk: int, x: nat,
                         v: Block)
    requires Shape(sb, blocks, inodes) && Claimed(sb, blocks, inodes, owner, xi, xk)
    requires Backed(sb, blocks, inodes, owner, xi, xk)
    requires x < |blocks| && IsBlock(v) && NotIndirect(inodes, x)
    ensures Shape(sb, blocks[x := v], inodes)
    ensures Claimed(sb, blocks[x := v], inodes, owner, xi, xk) && Backed(sb, blocks[x := v], inodes, owner, xi, xk)
    ensures forall i :: 0 <= i < |inodes| ==> SameSlots(blocks, blocks[x := v], inodes[i])
  {
    forall i | 0 <= i < |inodes| ensures SameSlots(blocks, blocks[x := v], inodes[i]) {
      WriteKeepsSlots(blocks, inodes[i], x, v);
    }
  }

  /** Writing a block that no data slot maps changes no file. */
  lemma WriteKeepsBytes(blocks: Blocks, ino: Inode, x: nat, v: Block, off: nat)
    requires |ino.addrs| == NDIRECT + 1 && ino.addrs[NDIRECT] < |blocks| && |blocks[ino.addrs[NDIRECT]]| == BSIZE
    requires x < |blocks| && |v| == BSIZE && (ino.addrs[NDIRECT] != 0 ==> ino.addrs[NDIRECT] != x)
    requires off < MAXFILE * BSIZE && SlotAddr(blocks, ino, DataSlot(off / BSIZE)) != x
    ensures ByteAt(blocks[x := v], ino, off) == ByteAt(blocks, ino, off)
  {
    WriteKeepsSlots(blocks, ino, x, v);
  }

  // ----- Allocation -----

  function Alloced(sb: Super, blocks: Blocks, a: nat): Blocks
    requires BBlock(sb, a) < |blocks| && |blocks[BBlock(sb, a)]| == BSIZE && a < |blocks|
  {
    WithBit(sb, blocks, a, Pow2(a % 8))[a := ZeroBlock()]
  }

  /** balloc: a clear bit is set and the block zeroed; it is now loose, no slot has moved and no
      file has changed. */
  lemma AllocKeeps(sb: Super, blocks: Blocks, inodes: Inodes, owner: map<nat, Slot>, loose: set<nat>, a: nat)
    requires Owns(sb, blocks, inodes, owner, loose, -1, 0) && a < sb.size && !Marked(sb, blocks, a)
    ensures Owns(sb, Alloced(sb, blocks, a), inodes, owner, loose + {a}, -1, 0)
    ensures SameBytes(sb, blocks, inodes, Alloced(sb, blocks, a), inodes)
    ensures sb.nmeta <= a && a !in owner && a !in loose
    ensures forall i :: 0 <= i < |inodes| ==> SameSlots(blocks, Alloced(sb, blocks, a), inodes[i])
  {
    var b1 := WithBit(sb, blocks, a, Pow2(a % 8));
    var bb := BBlock(sb, a);
    MarkedDefined(sb, blocks, inodes, a);
    BackedBitmap(sb, blocks, inodes, owner, bb);
    OwnedNotIndirect(sb, blocks, inodes, owner, -1, 0, bb);
    MarkBit(sb, blocks, inodes, a, a);
    WriteKeepsOwners(sb, blocks, inodes, owner, -1, 0, bb, b1[bb]);
    OwnedNotIndirect(sb, b1, inodes, owner, -1, 0, a);
    ZeroWord(0);
    WriteKeepsOwners(sb, b1, inodes, owner, -1, 0, a, ZeroBlock());
    AllocMarks(sb, blocks, inodes, owner, loose, a);
    AllocBytes(sb, blocks, inodes, owner, a);
  }

  lemma BackedBitmap(sb: Super, blocks: Blocks, inodes: Inodes, owner: map<nat, Slot>, bb: nat)
    requires Shape(sb, blocks, inodes) && Backed(sb, blocks, inodes, owner, -1, 0) && bb < sb.nmeta
    ensures bb !in owner
  {
  }

  lemma AllocMarks(sb: Super, blocks: Blocks, inodes: Inodes, owner: map<nat, Slot>, loose: set<nat>, a: nat)
    requires Shape(sb, blocks, inodes) && BitmapReadable(sb, blocks) && MarkedIff(sb, blocks, owner, loose)
    requires a < sb.size && !Marked(sb, blocks, a)
    ensures BitmapReadable(sb, Alloced(sb, blocks, a)) && MarkedIff(sb, Alloced(sb, blocks, a), owner, loose + {a})
  {
    var b1 := WithBit(sb, blocks, a, Pow2(a % 8));
    MarkBit(sb, blocks, inodes, a, a);
    forall c | 0 <= c < sb.size
      ensures BBlock(sb, c) != a && Marked(sb, b1, c) == (c == a || Marked(sb, blocks, c))
    {
      MarkedDefined(sb, blocks, inodes, c);
      MarkBit(sb, blocks, inodes, a, c);
    }
  }

  lemma AllocBytes(sb: Super, blocks: Blocks, inodes: Inodes, owner: map<nat, Slot>, a: nat)
    requires Shape(sb, blocks, inodes) && Claimed(sb, blocks, inodes, owner, -1, 0)
    requires a < sb.size && BitmapReadable(sb, blocks) && !Marked(sb, blocks, a) && a !in owner && a != 0
    requires BBlock(sb, a) !in owner
    ensures Shape(sb, Alloced(sb, blocks, a), inodes)
    ensures SameBytes(sb, blocks, inodes, Alloced(sb, blocks, a), inodes)
  {
    var bb := BBlock(sb, a);
    var b1 := WithBit(sb, blocks, a, Pow2(a % 8));
    MarkBit(sb, blocks, inodes, a, a);
    ZeroWord(0);
    forall i, off | 0 <= i < |inodes| && 0 <= off < MAXFILE * BSIZE
      ensures ByteAt(Alloced(sb, blocks, a), inodes[i], off) == ByteAt(blocks, inodes[i], off)
    {
      AllocByte(sb, blocks, inodes, owner, a, i, off);
    }
  }

  lemma AllocByte(sb: Super, blocks: Blocks, inodes: Inodes, owner: map<nat, Slot>, a: nat, i: nat, off: nat)
    requires Shape(sb, blocks, inodes) && Claimed(sb, blocks, inodes, owner, -1, 0)
    requires a < sb.size && a !in owner && a != 0 && BBlock(sb, a) < sb.size && BBlock(sb, a) !in owner
    requires i < |inodes| && off < MAXFILE * BSIZE
    ensures ByteAt(Alloced(sb, blocks, a), inodes[i], off) == ByteAt(blocks, inodes[i], off)
  {
    var bb := BBlock(sb, a);
    var b1 := WithBit(sb, blocks, a, Pow2(a % 8));
    OwnedNotIndirect(sb, blocks, inodes, owner, -1, 0, bb);
    OwnedNotIndirect(sb, blocks, inodes, owner, -1, 0, a);
    var k := DataSlot(off / BSIZE);
    assert Counts(i, k, -1, 0);
    if SlotAddr(blocks, inodes[i], k) != 0 {
      WriteKeepsBytes(blocks, inodes[i], bb, b1[bb], off);
      WriteKeepsSlots(blocks, inodes[i], bb, b1[bb]);
      WriteKeepsBytes(b1, inodes[i], a, ZeroBlock(), off);
    } else {
      WriteKeepsSlots(blocks, inodes[i], bb, b1[bb]);
      WriteKeepsSlots(b1, inodes[i], a, ZeroBlock());
    }
  }

  // ----- Attaching a loose block -----

  /** Every slot that was mapped still maps the same block. */
  ghost predicate Grows(blocks: Blocks, ino: Inode, blocks': Blocks, ino': Inode)
  {
    && |ino.addrs| == NDIRECT + 1 && ino.addrs[NDIRECT] < |blocks| && |blocks[ino.addrs[NDIRECT]]| == BSIZE
    && |ino'.addrs| == NDIRECT + 1 && ino'.addrs[NDIRECT] < |blocks'| && |blocks'[ino'.addrs[NDIRECT]]| == BSIZE
    && forall k :: 0 <= k < NSLOTS && SlotAddr(blocks, ino, k) != 0 ==>
          SlotAddr(blocks', ino', k) == SlotAddr(blocks, ino, k)
  }

  function WithAddr(inodes: Inodes, i: nat, k: nat, a: nat): Inodes
    requires i < |inodes| && k < |inodes[i].addrs|
  {
    inodes[i := inodes[i].(addrs := inodes[i].addrs[k := a])]
  }

  /** How one slot reads after a loose zeroed block is stored in address k of inode i. */
  lemma AttachedSlot(blocks: Blocks, ino: Inode, k: nat, a: nat, m: nat)
    requires |ino.addrs| == NDIRECT + 1 && k <= NDIRECT && m < NSLOTS && a < |blocks|
    requires ino.addrs[NDIRECT] < |blocks| && |blocks[ino.addrs[NDIRECT]]| == BSIZE
    requires ino.addrs[k] == 0 && blocks[a] == ZeroBlock()
    ensures var ino' := ino.(addrs := ino.addrs[k := a]);
            ino'.addrs[NDIRECT] < |blocks| && |blocks[ino'.addrs[NDIRECT]]| == BSIZE
            && SlotAddr(blocks, ino', m) == if m == k then a else SlotAddr(blocks, ino, m)
  {
    if k == NDIRECT && m > NDIRECT { ZeroWord(m - NDIRECT - 1); }
  }

  lemma AttachKeeps(sb: Super, blocks: Blocks, inodes: Inodes, owner: map<nat, Slot>, loose: set<nat>, i: nat, k: nat,
                    a: nat)
    requires Owns(sb, blocks, inodes, owner, loose, -1, 0) && i < |inodes| && k <= NDIRECT
    requires a in loose && a < sb.size && blocks[a] == ZeroBlock() && inodes[i].addrs[k] == 0
    ensures Owns(sb, blocks, WithAddr(inodes, i, k, a), owner[a := (i, k)], loose - {a}, -1, 0)
    ensures SameBytes(sb, blocks, inodes, blocks, WithAddr(inodes, i, k, a))
    ensures Grows(blocks, inodes[i], blocks, WithAddr(inodes, i, k, a)[i])
  {
    var inodes' := WithAddr(inodes, i, k, a);
    forall m | 0 <= m < NSLOTS
      ensures SlotAddr(blocks, inodes'[i], m) == if m == k then a else SlotAddr(blocks, inodes[i], m)
    {
      AttachedSlot(blocks, inodes[i], k, a, m);
    }
    assert Shape(sb, blocks, inodes');
    AttachOwners(sb, blocks, inodes, blocks, inodes', owner, i, k, a);
    AttachMarks(sb, blocks, blocks, owner, loose, (i, k), a);
    AttachBytes(sb, blocks, inodes, blocks, inodes', i, k, a);
  }

  /** Ownership after exactly one slot changed, from empty to the unowned block a. */
  lemma AttachOwners(sb: Super, blocks: Blocks, inodes: Inodes, blocks': Blocks, inodes': Inodes, owner: map<nat, Slot>,
                     i: nat, k: nat, a: nat)
    requires Shape(sb, blocks, inodes) && Shape(sb, blocks', inodes') && i < |inodes| && k < NSLOTS
    requires Claimed(sb, blocks, inodes, owner, -1, 0) && Backed(sb, blocks, inodes, owner, -1, 0)
    requires sb.nmeta <= a < sb.size && a !in owner && SlotAddr(blocks, inodes[i], k) == 0
    requires forall j, m :: 0 <= j < |inodes| && 0 <= m < NSLOTS ==>
               SlotAddr(blocks', inodes'[j], m) == if j == i && m == k then a else SlotAddr(blocks, inodes[j], m)
    ensures Claimed(sb, blocks', inodes', owner[a := (i, k)], -1, 0)
    ensures Backed(sb, blocks', inodes', owner[a := (i, k)], -1, 0)
  {
  }

  lemma AttachMarks(sb: Super, blocks: Blocks, blocks': Blocks, owner: map<nat, Slot>, loose: set<nat>, slot: Slot,
                    a: nat)
    requires BitmapReadable(sb, blocks) && BitmapReadable(sb, blocks') && MarkedIff(sb, blocks, owner, loose)
    requires a in loose
    requires forall b :: 0 <= b < sb.size ==> Marked(sb, blocks', b) == Marked(sb, blocks, b)
    ensures MarkedIff(sb, blocks', owner[a := slot], loose - {a})
  {
  }

  lemma AttachBytes(sb: Super, blocks: Blocks, inodes: Inodes, blocks': Blocks, inodes': Inodes, i: nat, k: nat, a: nat)
    requires Shape(sb, blocks, inodes) && Shape(sb, blocks', inodes') && i < |inodes| && k < NSLOTS && a < sb.size
    requires SlotAddr(blocks, inodes[i], k) == 0 && blocks'[a] == ZeroBlock()
    requires forall j, m :: 0 <= j < |inodes| && 0 <= m < NSLOTS ==>
               SlotAddr(blocks', inodes'[j], m) == if j == i && m == k then a else SlotAddr(blocks, inodes[j], m)
    requires forall j, bn ::
      0 <= j < |inodes| && 0 <= bn < MAXFILE && 0 < SlotAddr(blocks, inodes[j], DataSlot(bn)) < |blocks| ==>
               blocks'[SlotAddr(blocks, inodes[j], DataSlot(bn))] == blocks[SlotAddr(blocks, inodes[j], DataSlot(bn))]
    ensures SameBytes(sb, blocks, inodes, blocks', inodes')
  {
    forall j, off | 0 <= j < |inodes| && 0 <= off < MAXFILE * BSIZE
      ensures ByteAt(blocks', inodes'[j], off) == ByteAt(blocks, inodes[j], off)
    {
      var m := DataSlot(off / BSIZE);
      assert SlotAddr(blocks', inodes'[j], m) == if j == i && m == k then a else SlotAddr(blocks, inodes[j], m);
    }
  }

  /** Store block a in entry e of inode i's indirect block. */
  function WithEntry(blocks: Blocks, ino: Inode, e: nat, a: nat): Blocks
    requires |ino.addrs| == NDIRECT + 1 && ino.addrs[NDIRECT] < |blocks| && |blocks[ino.addrs[NDIRECT]]| == BSIZE
    requires e < NINDIRECT
  {
    blocks[ino.addrs[NDIRECT] := SetWord(blocks[ino.addrs[NDIRECT]], e, a)]
  }

  lemma AttachEntryKeeps(sb: Super, blocks: Blocks, inodes: Inodes, owner: map<nat, Slot>, loose: set<nat>, i: nat,
                         e: nat, a: nat)
    requires Owns(sb, blocks, inodes, owner, loose, -1, 0) && i < |inodes| && e < NINDIRECT
    requires a in loose && a < sb.size && blocks[a] == ZeroBlock()
    requires inodes[i].addrs[NDIRECT] != 0 && SlotAddr(blocks, inodes[i], NDIRECT + 1 + e) == 0
    ensures Owns(sb, WithEntry(blocks, inodes[i], e, a), inodes, owner[a := (i, NDIRECT + 1 + e)], loose - {a}, -1, 0)
    ensures SameBytes(sb, blocks, inodes, WithEntry(blocks, inodes[i], e, a), inodes)
    ensures Grows(blocks, inodes[i], WithEntry(blocks, inodes[i], e, a), inodes[i])
    ensures SlotAddr(WithEntry(blocks, inodes[i], e, a), inodes[i], NDIRECT + 1 + e) == a
  {
    var blocks', ind, k := WithEntry(blocks, inodes[i], e, a), inodes[i].addrs[NDIRECT], NDIRECT + 1 + e;
    WordSet(blocks[ind], e, a, 0);
    IndirectOwned(sb, blocks, inodes, owner, i);
    assert Shape(sb, blocks', inodes);
    forall j, m | 0 <= j < |inodes| && 0 <= m < NSLOTS
      ensures SlotAddr(blocks', inodes[j], m) == if j == i && m == k then a else SlotAddr(blocks, inodes[j], m)
    {
      EntrySlot(sb, blocks, inodes, owner, i, e, a, j, m);
    }
    AttachOwners(sb, blocks, inodes, blocks', inodes, owner, i, k, a);
    BitmapKept(sb, blocks, inodes, ind, blocks'[ind]);
    AttachMarks(sb, blocks, blocks', owner, loose, (i, k), a);
    forall j, bn | 0 <= j < |inodes| && 0 <= bn < MAXFILE && 0 < SlotAddr(blocks, inodes[j], DataSlot(bn)) < |blocks|
      ensures blocks'[SlotAddr(blocks, inodes[j], DataSlot(bn))] == blocks[SlotAddr(blocks, inodes[j], DataSlot(bn))]
    {
      DataIsNotIndirect(sb, blocks, inodes, owner, i, j, bn);
    }
    AttachBytes(sb, blocks, inodes, blocks', inodes, i, k, a);
  }

  lemma IndirectOwned(sb: Super, blocks: Blocks, inodes: Inodes, owner: map<nat, Slot>, i: nat)
    requires Shape(sb, blocks, inodes) && Claimed(sb, blocks, inodes, owner, -1, 0)
    requires Backed(sb, blocks, inodes, owner, -1, 0)
    requires i < |inodes| && inodes[i].addrs[NDIRECT] != 0
    ensures inodes[i].addrs[NDIRECT] in owner && owner[inodes[i].addrs[NDIRECT]] == (i, NDIRECT)
    ensures sb.nmeta <= inodes[i].addrs[NDIRECT]
  {
    assert Counts(i, NDIRECT, -1, 0) && SlotAddr(blocks, inodes[i], NDIRECT) == inodes[i].addrs[NDIRECT];
  }

  lemma DataIsNotIndirect(sb: Super, blocks: Blocks, inodes: Inodes, owner: map<nat, Slot>, i: nat, j: nat, bn: nat)
    requires Shape(sb, blocks, inodes) && Claimed(sb, blocks, inodes, owner, -1, 0)
    requires Backed(sb, blocks, inodes, owner, -1, 0)
    requires i < |inodes| && j < |inodes| && bn < MAXFILE && inodes[i].addrs[NDIRECT] != 0
    requires SlotAddr(blocks, inodes[j], DataSlot(bn)) != 0
    ensures SlotAddr(blocks, inodes[j], DataSlot(bn)) != inodes[i].addrs[NDIRECT]
  {
    IndirectOwned(sb, blocks, inodes, owner, i);
    assert Counts(j, DataSlot(bn), -1, 0);
  }

  lemma EntrySlot(sb: Super, blocks: Blocks, inodes: Inodes, owner: map<nat, Slot>, i: nat, e: nat, a: nat, j: nat,
                  m: nat)
    requires Shape(sb, blocks, inodes) && Claimed(sb, blocks, inodes, owner, -1, 0)
    requires Backed(sb, blocks, inodes, owner, -1, 0)
    requires i < |inodes| && j < |inodes| && e < NINDIRECT && m < NSLOTS && a < sb.size && inodes[i].addrs[NDIRECT] != 0
    requires Shape(sb, WithEntry(blocks, inodes[i], e, a), inodes)
    ensures SlotAddr(WithEntry(blocks, inodes[i], e, a), inodes[j], m)
         == if j == i && m == NDIRECT + 1 + e then a else SlotAddr(blocks, inodes[j], m)
  {
    var ind := inodes[i].addrs[NDIRECT];
    IndirectOwned(sb, blocks, inodes, owner, i);
    if m > NDIRECT && inodes[j].addrs[NDIRECT] != 0 {
      IndirectOwned(sb, blocks, inodes, owner, j);
      WordSet(blocks[ind], e, a, m - NDIRECT - 1);
    }
  }

  /** Writing a data block leaves every mark alone. */
  lemma BitmapKept(sb: Super, blocks: Blocks, inodes: Inodes, x: nat, v: Block)
    requires Shape(sb, blocks, inodes) && BitmapReadable(sb, blocks) && sb.nmeta <= x < sb.size && IsBlock(v)
    ensures BitmapReadable(sb, blocks[x := v])
    ensures forall b :: 0 <= b < sb.size ==> Marked(sb, blocks[x := v], b) == Marked(sb, blocks, b)
  {
    forall b | 0 <= b < sb.size ensures BBlock(sb, b) != x {
      MarkedDefined(sb, blocks, inodes, b);
    }
  }

  // ----- Writing file data -----

  /** Byte off of a file once v has replaced its file block bn. */
  function Patched(blocks: Blocks, ino: Inode, bn: nat, v: Block, off: nat): int
    requires off < MAXFILE * BSIZE && |ino.addrs| == NDIRECT + 1 && |v| == BSIZE
    requires ino.addrs[NDIRECT] < |blocks| && |blocks[ino.addrs[NDIRECT]]| == BSIZE
  {
    if off / BSIZE == bn then v[off % BSIZE] else ByteAt(blocks, ino, off)
  }

  /** blocks' holds v as file block bn of inode i and is otherwise the same in every file. */
  ghost predicate BlockReplaced(sb: Super, blocks: Blocks, blocks': Blocks, inodes: Inodes, i: nat, bn: nat, v: Block)
    requires Shape(sb, blocks, inodes) && Shape(sb, blocks', inodes) && |v| == BSIZE
  {
    forall j, off :: 0 <= j < |inodes| && 0 <= off < MAXFILE * BSIZE ==>
      ByteAt(blocks', inodes[j], off) ==
        if j == i then Patched(blocks, inodes[j], bn, v, off) else ByteAt(blocks, inodes[j], off)
  }

  /** Overwriting the block that maps file block bn of inode i changes exactly that file block. */
  lemma WriteData(sb: Super, blocks: Blocks, inodes: Inodes, owner: map<nat, Slot>, i: nat, bn: nat, v: Block)
    requires Owns(sb, blocks, inodes, owner, {}, -1, 0) && i < |inodes| && bn < MAXFILE && IsBlock(v)
    requires SlotAddr(blocks, inodes[i], DataSlot(bn)) != 0
    ensures var a := SlotAddr(blocks, inodes[i], DataSlot(bn));
            && sb.nmeta <= a < sb.size
            && Owns(sb, blocks[a := v], inodes, owner, {}, -1, 0)
            && BlockReplaced(sb, blocks, blocks[a := v], inodes, i, bn, v)
  {
    var a, k := SlotAddr(blocks, inodes[i], DataSlot(bn)), DataSlot(bn);
    assert Counts(i, k, -1, 0);
    assert a in owner && owner[a] == (i, k);
    OwnedNotIndirect(sb, blocks, inodes, owner, -1, 0, a);
    WriteKeepsOwners(sb, blocks, inodes, owner, -1, 0, a, v);
    BitmapKept(sb, blocks, inodes, a, v);
    var blocks' := blocks[a := v];
    forall b | 0 <= b < sb.size ensures Marked(sb, blocks', b) <==> b < sb.nmeta || b in owner || b in {} {
      assert Marked(sb, blocks, b) <==> b < sb.nmeta || b in owner;
    }
    WriteDataBytes(sb, blocks, inodes, owner, i, bn, v);
  }

  lemma WriteDataBytes(sb: Super, blocks: Blocks, inodes: Inodes, owner: map<nat, Slot>, i: nat, bn: nat, v: Block)
    requires Shape(sb, blocks, inodes) && Claimed(sb, blocks, inodes, owner, -1, 0)
    requires i < |inodes| && bn < MAXFILE && IsBlock(v)
    requires var a := SlotAddr(blocks, inodes[i], DataSlot(bn)); 0 < a < sb.size && NotIndirect(inodes, a)
    ensures var a := SlotAddr(blocks, inodes[i], DataSlot(bn));
            Shape(sb, blocks[a := v], inodes) && BlockReplaced(sb, blocks, blocks[a := v], inodes, i, bn, v)
  {
    var a := SlotAddr(blocks, inodes[i], DataSlot(bn));
    forall j, off | 0 <= j < |inodes| && 0 <= off < MAXFILE * BSIZE
      ensures ByteAt(blocks[a := v], inodes[j], off) ==
        if j == i then Patched(blocks, inodes[j], bn, v, off) else ByteAt(blocks, inodes[j], off)
    {
      WriteDataByte(sb, blocks, inodes, owner, i, bn, v, j, off);
    }
  }

  lemma WriteDataByte(sb: Super, blocks: Blocks, inodes: Inodes, owner: map<nat, Slot>, i: nat, bn: nat, v: Block,
                      j: nat, off: nat)
    requires Shape(sb, blocks, inodes) && Claimed(sb, blocks, inodes, owner, -1, 0)
    requires i < |inodes| && j < |inodes| && bn < MAXFILE && |v| == BSIZE && off < MAXFILE * BSIZE
    requires var a := SlotAddr(blocks, inodes[i], DataSlot(bn)); 0 < a < sb.size && NotIndirect(inodes, a)
    ensures ByteAt(blocks[SlotAddr(blocks, inodes[i], DataSlot(bn)) := v], inodes[j], off)
         == if j == i then Patched(blocks, inodes[j], bn, v, off) else ByteAt(blocks, inodes[j], off)
  {
    var a, m := SlotAddr(blocks, inodes[i], DataSlot(bn)), DataSlot(off / BSIZE);
    WriteKeepsSlots(blocks, inodes[j], a, v);
    assert Counts(i, DataSlot(bn), -1, 0) && Counts(j, m, -1, 0);
    if SlotAddr(blocks, inodes[j], m) == a {
      assert owner[a] == (i, DataSlot(bn)) == (j, m);
    }
  }

  // ----- Freeing -----

  /** Every file other than inode i is unchanged. */
  ghost predicate OthersSame(sb: Super, blocks: Blocks, inodes: Inodes, blocks': Blocks, inodes': Inodes, i: nat)
    requires Shape(sb, blocks, inodes) && Shape(sb, blocks', inodes')
  {
    forall j, off :: 0 <= j < |inodes| && j != i && 0 <= off < MAXFILE * BSIZE ==>
      ByteAt(blocks', inodes'[j], off) == ByteAt(blocks, inodes[j], off)
  }

  function Freed(sb: Super, blocks: Blocks, a: nat): Blocks
    requires BBlock(sb, a) < |blocks| && |blocks[BBlock(sb, a)]| == BSIZE
  {
    WithBit(sb, blocks, a, -Pow2(a % 8))
  }

  /** bfree on an owned block: it is marked, so there is no panic; only its bit changes, and every
      slot still reads the same. */
  lemma FreeKeeps(sb: Super, blocks: Blocks, inodes: Inodes, owner: map<nat, Slot>, xi: int, xk: int, a: nat)
    requires Owns(sb, blocks, inodes, owner, {}, xi, xk) && a in owner
    ensures Marked(sb, blocks, a) && sb.nmeta <= a < sb.size && BBlock(sb, a) < sb.nmeta
    ensures Shape(sb, Freed(sb, blocks, a), inodes) && BitmapReadable(sb, Freed(sb, blocks, a))
    ensures MarkedIff(sb, Freed(sb, blocks, a), owner - {a}, {})
    ensures forall i :: 0 <= i < |inodes| ==> SameSlots(blocks, Freed(sb, blocks, a), inodes[i])
    ensures SameBytesExcept(sb, blocks, Freed(sb, blocks, a), inodes, xi)
  {
    MarkedDefined(sb, blocks, inodes, a);
    ClearBit(sb, blocks, inodes, a, a);
    var bb := BBlock(sb, a);
    OwnedNotIndirect(sb, blocks, inodes, owner, xi, xk, bb);
    FreeMarks(sb, blocks, inodes, owner, a);
    forall i | 0 <= i < |inodes| ensures SameSlots(blocks, Freed(sb, blocks, a), inodes[i]) {
      WriteKeepsSlots(blocks, inodes[i], bb, Freed(sb, blocks, a)[bb]);
    }
    FreeBytes(sb, blocks, inodes, owner, xi, xk, a);
  }

  ghost predicate SameBytesExcept(sb: Super, blocks: Blocks, blocks': Blocks, inodes: Inodes, xi: int)
    requires Shape(sb, blocks, inodes) && Shape(sb, blocks', inodes)
  {
    forall j, off :: 0 <= j < |inodes| && j != xi && 0 <= off < MAXFILE * BSIZE ==>
      ByteAt(blocks', inodes[j], off) == ByteAt(blocks, inodes[j], off)
  }

  lemma FreeMarks(sb: Super, blocks: Blocks, inodes: Inodes, owner: map<nat, Slot>, a: nat)
    requires Shape(sb, blocks, inodes) && BitmapReadable(sb, blocks) && MarkedIff(sb, blocks, owner, {}) && a in owner
    requires sb.nmeta <= a < sb.size
    ensures BitmapReadable(sb, Freed(sb, blocks, a)) && MarkedIff(sb, Freed(sb, blocks, a), owner - {a}, {})
  {
    ClearBit(sb, blocks, inodes, a, a);
    forall c | 0 <= c < sb.size ensures Marked(sb, Freed(sb, blocks, a), c) == (c != a && Marked(sb, blocks, c)) {
      ClearBit(sb, blocks, inodes, a, c);
    }
  }

  lemma FreeBytes(sb: Super, blocks: Blocks, inodes: Inodes, owner: map<nat, Slot>, xi: int, xk: int, a: nat)
    requires Shape(sb, blocks, inodes) && Claimed(sb, blocks, inodes, owner, xi, xk)
    requires BBlock(sb, a) < sb.size && |blocks[BBlock(sb, a)]| == BSIZE && Shape(sb, Freed(sb, blocks, a), inodes)
    requires BBlock(sb, a) !in owner && NotIndirect(inodes, BBlock(sb, a))
    ensures SameBytesExcept(sb, blocks, Freed(sb, blocks, a), inodes, xi)
  {
    var bb := BBlock(sb, a);
    forall j, off | 0 <= j < |inodes| && j != xi && 0 <= off < MAXFILE * BSIZE
      ensures ByteAt(Freed(sb, blocks, a), inodes[j], off) == ByteAt(blocks, inodes[j], off)
    {
      assert Counts(j, DataSlot(off / BSIZE), xi, xk);
      if SlotAddr(blocks, inodes[j], DataSlot(off / BSIZE)) != 0 {
        WriteKeepsBytes(blocks, inodes[j], bb, Freed(sb, blocks, a)[bb], off);
      } else {
        WriteKeepsSlots(blocks, inodes[j], bb, Freed(sb, blocks, a)[bb]);
      }
    }
  }

  /** itrunc's first loop: free one direct block and clear its address. */
  lemma DetachDirect(sb: Super, blocks: Blocks, inodes: Inodes, owner: map<nat, Slot>, i: nat, k: nat)
    requires Owns(sb, blocks, inodes, owner, {}, -1, 0) && i < |inodes| && k < NDIRECT && inodes[i].addrs[k] != 0
    ensures var a := inodes[i].addrs[k];
            && a in owner && owner[a] == (i, k) && a < sb.size && BBlock(sb, a) < |blocks|
            && |blocks[BBlock(sb, a)]| == BSIZE
            && Marked(sb, blocks, a)
            && Owns(sb, Freed(sb, blocks, a), WithAddr(inodes, i, k, 0), owner - {a}, {}, -1, 0)
            && OthersSame(sb, blocks, inodes, Freed(sb, blocks, a), WithAddr(inodes, i, k, 0), i)
  {
    var a := inodes[i].addrs[k];
    assert Counts(i, k, -1, 0) && SlotAddr(blocks, inodes[i], k) == a;
    FreeKeeps(sb, blocks, inodes, owner, -1, 0, a);
    var blocks', inodes' := Freed(sb, blocks, a), WithAddr(inodes, i, k, 0);
    assert Shape(sb, blocks', inodes');
    DropOwners(sb, blocks, inodes, blocks', inodes', owner, a, i, k, -1, 0, -1, 0);
  }

  /** Ownership when block a leaves slot (i, k), which is cleared or no longer counted. */
  lemma DropOwners(sb: Super, blocks: Blocks, inodes: Inodes, blocks': Blocks, inodes': Inodes, owner: map<nat, Slot>,
                   a: nat, i: nat, k: nat, xi: int, xk: int, xi': int, xk': int)
    requires Shape(sb, blocks, inodes) && Shape(sb, blocks', inodes')
    requires Claimed(sb, blocks, inodes, owner, xi, xk) && Backed(sb, blocks, inodes, owner, xi, xk)
    requires a in owner && owner[a] == (i, k)
    requires forall j, m :: 0 <= j < |inodes| && 0 <= m < NSLOTS && !(j == i && m == k) ==>
               if Counts(j, m, xi, xk)
               then Counts(j, m, xi', xk') && SlotAddr(blocks', inodes'[j], m) == SlotAddr(blocks, inodes[j], m)
               else Counts(j, m, xi', xk') ==> SlotAddr(blocks', inodes'[j], m) == 0
    requires Counts(i, k, xi', xk') ==> SlotAddr(blocks', inodes'[i], k) == 0
    ensures Claimed(sb, blocks', inodes', owner - {a}, xi', xk') && Backed(sb, blocks', inodes', owner - {a}, xi', xk')
  {
  }

  /** itrunc's second loop: free one indirect entry; its slot is no longer counted. */
  lemma DetachEntry(sb: Super, blocks: Blocks, inodes: Inodes, owner: map<nat, Slot>, i: nat, e: nat)
    requires Owns(sb, blocks, inodes, owner, {}, i, NDIRECT + 1 + e) && i < |inodes| && e < NINDIRECT
    requires inodes[i].addrs[NDIRECT] != 0
    requires SlotAddr(blocks, inodes[i], NDIRECT + 1 + e) != 0
    ensures var a := SlotAddr(blocks, inodes[i], NDIRECT + 1 + e);
            && a in owner && owner[a] == (i, NDIRECT + 1 + e) && a < sb.size && BBlock(sb, a) < |blocks|
            && |blocks[BBlock(sb, a)]| == BSIZE
            && Marked(sb, blocks, a)
            && Owns(sb, Freed(sb, blocks, a), inodes, owner - {a}, {}, i, NDIRECT + 1 + e + 1)
            && SameBytesExcept(sb, blocks, Freed(sb, blocks, a), inodes, i)
            && SameSlots(blocks, Freed(sb, blocks, a), inodes[i])
  {
    var k := NDIRECT + 1 + e;
    var a := SlotAddr(blocks, inodes[i], k);
    assert Counts(i, k, i, k);
    FreeKeeps(sb, blocks, inodes, owner, i, k, a);
    DropOwners(sb, blocks, inodes, Freed(sb, blocks, a), inodes, owner, a, i, k, i, k, i, k + 1);
  }

  lemma SkipEntry(sb: Super, blocks: Blocks, inodes: Inodes, owner: map<nat, Slot>, i: nat, e: nat)
    requires Owns(sb, blocks, inodes, owner, {}, i, NDIRECT + 1 + e) && i < |inodes| && e < NINDIRECT
    requires SlotAddr(blocks, inodes[i], NDIRECT + 1 + e) == 0
    ensures Owns(sb, blocks, inodes, owner, {}, i, NDIRECT + 1 + e + 1)
  {
    var k := NDIRECT + 1 + e;
    assert forall a :: a in owner ==> owner[a] != (i, k);
    forall j, m | 0 <= j < |inodes| && 0 <= m < NSLOTS && Counts(j, m, i, k + 1) && SlotAddr(blocks, inodes[j], m) != 0
      ensures SlotAddr(blocks, inodes[j], m) in owner && owner[SlotAddr(blocks, inodes[j], m)] == (j, m)
    {
      assert Counts(j, m, i, k);
    }
  }

  lemma StartEntries(sb: Super, blocks: Blocks, inodes: Inodes, owner: map<nat, Slot>, i: nat)
    requires Owns(sb, blocks, inodes, owner, {}, -1, 0) && i < |inodes|
    ensures Owns(sb, blocks, inodes, owner, {}, i, NDIRECT + 1)
  {
    forall j, m | 0 <= j < |inodes| && 0 <= m < NSLOTS && SlotAddr(blocks, inodes[j], m) != 0
      ensures SlotAddr(blocks, inodes[j], m) in owner && owner[SlotAddr(blocks, inodes[j], m)] == (j, m)
    {
      assert Counts(j, m, -1, 0);
    }
  }

  /** itrunc's last step: free the indirect block itself. */
  lemma DetachIndirect(sb: Super, blocks: Blocks, inodes: Inodes, owner: map<nat, Slot>, i: nat)
    requires Owns(sb, blocks, inodes, owner, {}, i, NSLOTS) && i < |inodes| && inodes[i].addrs[NDIRECT] != 0
    ensures var a := inodes[i].addrs[NDIRECT];
            && a in owner && owner[a] == (i, NDIRECT) && a < sb.size && BBlock(sb, a) < |blocks|
            && |blocks[BBlock(sb, a)]| == BSIZE
            && Marked(sb, blocks, a)
            && Owns(sb, Freed(sb, blocks, a), WithAddr(inodes, i, NDIRECT, 0), owner - {a}, {}, -1, 0)
            && OthersSame(sb, blocks, inodes, Freed(sb, blocks, a), WithAddr(inodes, i, NDIRECT, 0), i)
  {
    var a := inodes[i].addrs[NDIRECT];
    assert Counts(i, NDIRECT, i, NSLOTS) && SlotAddr(blocks, inodes[i], NDIRECT) == a;
    FreeKeeps(sb, blocks, inodes, owner, i, NSLOTS, a);
    var blocks', inodes' := Freed(sb, blocks, a), WithAddr(inodes, i, NDIRECT, 0);
    assert Shape(sb, blocks', inodes');
    DropOwners(sb, blocks, inodes, blocks', inodes', owner, a, i, NDIRECT, i, NSLOTS, -1, 0);
  }
}
