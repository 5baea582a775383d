/** What an operation of kernel/fs.c must account for: every block it changes is logged, no slot
    loses its block, and new blocks go to one inode, below a limit. */
module FsAccount {
  import opened FsBytes
  import opened FsBlocks
  import opened FsSlots

  /** Where in the file the block of slot k begins. */
  function FileOffset(k: nat): nat { if k < NDIRECT then k * BSIZE else if k == NDIRECT then 0 else (k - 1) * BSIZE }

  ghost predicate DiffLogged(b0: Blocks, blocks: Blocks, logged: set<nat>, b: nat) {
    b < |b0| && b < |blocks| && b0[b] != blocks[b] ==> b in logged
  }

  ghost predicate OwnerKept(o0: map<nat, Slot>, o: map<nat, Slot>, a: nat) {
    a in o0 ==> a in o && o[a] == o0[a]
  }

  ghost predicate OwnerNew(o0: map<nat, Slot>, o: map<nat, Slot>, i: nat, limit: nat, a: nat) {
    a in o && a !in o0 ==> o[a].0 == i && (o[a].1 == NDIRECT || FileOffset(o[a].1) < limit)
  }

  ghost predicate OnlyGains(o0: map<nat, Slot>, o: map<nat, Slot>, i: nat, limit: nat) {
    && (forall a {:trigger OwnerKept(o0, o, a)} :: OwnerKept(o0, o, a))
    && (forall a {:trigger OwnerNew(o0, o, i, limit, a)} :: OwnerNew(o0, o, i, limit, a))
  }

  /** Every block that differs is logged. */
  ghost predicate AllLogged(b0: Blocks, log0: set<nat>, blocks: Blocks, logged: set<nat>) {
    && |b0| == |blocks| && log0 <= logged
    && forall b {:trigger DiffLogged(b0, blocks, logged, b)} :: DiffLogged(b0, blocks, logged, b)
  }

  ghost predicate Accounted(b0: Blocks, log0: set<nat>, o0: map<nat, Slot>, blocks: Blocks, logged: set<nat>,
                            o: map<nat, Slot>,
                            i: nat, limit: nat) {
    AllLogged(b0, log0, blocks, logged) && OnlyGains(o0, o, i, limit)
  }

  lemma LoggedTrans(b0: Blocks, log0: set<nat>, b1: Blocks, log1: set<nat>, b2: Blocks, log2: set<nat>)
    requires AllLogged(b0, log0, b1, log1) && AllLogged(b1, log1, b2, log2)
    ensures AllLogged(b0, log0, b2, log2)
  {
    forall b: nat ensures DiffLogged(b0, b2, log2, b) {
      assert DiffLogged(b0, b1, log1, b) && DiffLogged(b1, b2, log2, b);
    }
  }

  lemma GainsTrans(o0: map<nat, Slot>, o1: map<nat, Slot>, o2: map<nat, Slot>, i: nat, lim1: nat, lim2: nat, limit: nat)
    requires OnlyGains(o0, o1, i, lim1) && OnlyGains(o1, o2, i, lim2) && lim1 <= limit && lim2 <= limit
    ensures OnlyGains(o0, o2, i, limit)
  {
    forall a: nat ensures OwnerKept(o0, o2, a) && OwnerNew(o0, o2, i, limit, a) {
      assert OwnerKept(o0, o1, a) && OwnerKept(o1, o2, a) && OwnerNew(o0, o1, i, lim1, a);
      assert OwnerNew(o1, o2, i, lim2, a);
    }
  }

  lemma AccountedRefl(blocks: Blocks, logged: set<nat>, o: map<nat, Slot>, i: nat, limit: nat)
    ensures Accounted(blocks, logged, o, blocks, logged, o, i, limit)
  {
  }

  lemma AccountedTrans(b0: Blocks, log0: set<nat>, o0: map<nat, Slot>, b1: Blocks, log1: set<nat>, o1: map<nat, Slot>,
                       b2: Blocks, log2: set<nat>, o2: map<nat, Slot>, i: nat, lim1: nat, lim2: nat, limit: nat)
    requires Accounted(b0, log0, o0, b1, log1, o1, i, lim1) && Accounted(b1, log1, o1, b2, log2, o2, i, lim2)
    requires lim1 <= limit && lim2 <= limit
    ensures Accounted(b0, log0, o0, b2, log2, o2, i, limit)
  {
    LoggedTrans(b0, log0, b1, log1, b2, log2);
    GainsTrans(o0, o1, o2, i, lim1, lim2, limit);
  }

  /** One block rewritten and logged. */
  lemma AccountedWrite(b0: Blocks, log0: set<nat>, o0: map<nat, Slot>, b1: Blocks, log1: set<nat>, o1: map<nat, Slot>,
                       x: nat, v: Block, i: nat, limit: nat)
    requires Accounted(b0, log0, o0, b1, log1, o1, i, limit) && x < |b1|
    ensures Accounted(b0, log0, o0, b1[x := v], log1 + {x}, o1, i, limit)
  {
    var b2, log2 := b1[x := v], log1 + {x};
    forall b: nat ensures DiffLogged(b0, b2, log2, b) { assert DiffLogged(b0, b1, log1, b); }
  }

  lemma MoreLogged(b0: Blocks, log0: set<nat>, blocks: Blocks, logged: set<nat>, x: nat)
    requires AllLogged(b0, log0, blocks, logged)
    ensures AllLogged(b0, log0, blocks, logged + {x})
  {
    var more := logged + {x};
    forall b: nat ensures DiffLogged(b0, blocks, more, b) { assert DiffLogged(b0, blocks, logged, b); }
  }

  /** A fresh block given to slot k of inode i. */
  lemma AccountedGain(b0: Blocks, log0: set<nat>, o0: map<nat, Slot>, b1: Blocks, log1: set<nat>, a: nat, i: nat,
                      k: nat, limit: nat)
    requires AllLogged(b0, log0, b1, log1) && a !in o0 && (k == NDIRECT || FileOffset(k) < limit)
    ensures Accounted(b0, log0, o0, b1, log1, o0[a := (i, k)], i, limit)
  {
  }

  lemma AllocLogged(sb: Super, blocks: Blocks, log0: set<nat>, a: nat)
    requires BBlock(sb, a) < |blocks| && |blocks[BBlock(sb, a)]| == BSIZE && a < |blocks|
    ensures AllLogged(blocks, log0, Alloced(sb, blocks, a), log0 + {BBlock(sb, a), a})
  {
  }

  lemma FreeLogged(sb: Super, blocks: Blocks, log0: set<nat>, a: nat)
    requires BBlock(sb, a) < |blocks| && |blocks[BBlock(sb, a)]| == BSIZE && a < |blocks|
    ensures AllLogged(blocks, log0, Freed(sb, blocks, a), log0 + {BBlock(sb, a)})
  {
  }

  /** With one bitmap block, that is all that was logged. */
  ghost predicate BitmapOnly(sb: Super, log0: set<nat>, logged: set<nat>) {
    sb.size <= BPB ==> logged <= log0 + {sb.bmapstart}
  }

  /** Blocks were freed: what changed is logged, and only marks changed. */
  ghost predicate Freeing(sb: Super, b0: Blocks, log0: set<nat>, blocks: Blocks, logged: set<nat>) {
    AllLogged(b0, log0, blocks, logged) && BitmapOnly(sb, log0, logged)
  }

  lemma FreeStep(sb: Super, blocks: Blocks, log0: set<nat>, a: nat)
    requires BBlock(sb, a) < |blocks| && |blocks[BBlock(sb, a)]| == BSIZE && a < |blocks| == sb.size
    ensures Freeing(sb, blocks, log0, Freed(sb, blocks, a), log0 + {BBlock(sb, a)})
  {
    FreeLogged(sb, blocks, log0, a);
  }

  lemma FreeingTrans(sb: Super, b0: Blocks, log0: set<nat>, b1: Blocks, log1: set<nat>, b2: Blocks, log2: set<nat>)
    requires Freeing(sb, b0, log0, b1, log1) && Freeing(sb, b1, log1, b2, log2)
    ensures Freeing(sb, b0, log0, b2, log2)
  {
    LoggedTrans(b0, log0, b1, log1, b2, log2);
  }

  // ----- Mapped files stay mapped -----

  /** Slot k of inode j keeps its block while the account only gains. */
  lemma SlotStays(sb: Super, b0: Blocks, i0: Inodes, o0: map<nat, Slot>, blocks: Blocks, inodes: Inodes,
                  o: map<nat, Slot>, j: nat, k: nat)
    requires Shape(sb, b0, i0) && Claimed(sb, b0, i0, o0, -1, 0) && Shape(sb, blocks, inodes)
    requires Backed(sb, blocks, inodes, o, -1, 0)
    requires j < |i0| == |inodes| && k < NSLOTS
    requires SlotAddr(b0, i0[j], k) != 0
    requires forall a {:trigger OwnerKept(o0, o, a)} :: a in o0 && o0[a].0 == j ==> OwnerKept(o0, o, a)
    ensures SlotAddr(blocks, inodes[j], k) == SlotAddr(b0, i0[j], k)
  {
    var a := SlotAddr(b0, i0[j], k);
    assert Counts(j, k, -1, 0);
    assert a in o0 && o0[a] == (j, k) && OwnerKept(o0, o, a);
    assert o[a] == (j, k);
  }
}
