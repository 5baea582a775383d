/** kernel/riscv.h: page-table entries and the split of a virtual address (section 4.4 of the
    RISC-V Privileged Architecture, version 1.12).  Words are numbers below 2^64, so shifts and
    masks are divisions and remainders by powers of two. */
module Sv39 {
  const PGSIZE := 4096
  const MAXVA := 0x40_0000_0000             // 2^38
  const MAXPAGE := 0x400_0000               // MAXVA / PGSIZE
  const ENTRIES := 512

  function PgRoundUp(a: nat): nat { (a + PGSIZE - 1) / PGSIZE * PGSIZE }

  /** PX(level, va) for a page-aligned va, given by its page number. */
  function Px2(page: nat): (i: nat) ensures i < ENTRIES { page / 0x40000 % ENTRIES }
  function Px1(page: nat): (i: nat) ensures i < ENTRIES { page / ENTRIES % ENTRIES }
  function Px0(page: nat): (i: nat) ensures i < ENTRIES { page % ENTRIES }

  /** The indices are the nine bits from 30, from 21 and from 12 on. */
  lemma IndexBits(va: nat)
    ensures Px2(va / 4096) == va / 0x4000_0000 % 512
    ensures Px1(va / 4096) == va / 0x20_0000 % 512
    ensures Px0(va / 4096) == va / 0x1000 % 512
  {
    assert va / 4096 / 0x40000 == va / 0x4000_0000;
    assert va / 4096 / 512 == va / 0x20_0000;
  }

  function Join(a: nat, b: nat, c: nat): nat { a * 0x40000 + b * ENTRIES + c }

  /** The three indices determine the page, and every page below MAXVA has a level-2 index below 256. */
  lemma SplitJoin(page: nat)
    requires page < MAXPAGE
    ensures Join(Px2(page), Px1(page), Px0(page)) == page && Px2(page) < 256
  {
    assert page / 0x40000 == page / ENTRIES / ENTRIES;
  }

  lemma JoinSplit(a: nat, b: nat, c: nat)
    requires a < ENTRIES && b < ENTRIES && c < ENTRIES
    ensures Px2(Join(a, b, c)) == a && Px1(Join(a, b, c)) == b && Px0(Join(a, b, c)) == c
  {
    var p := Join(a, b, c);
    assert p == (a * ENTRIES + b) * ENTRIES + c;
    assert p / ENTRIES == a * ENTRIES + b;
    assert p / 0x40000 == a;
  }

  lemma SplitInjective(p: nat, q: nat)
    requires p < MAXPAGE && q < MAXPAGE && Px2(p) == Px2(q) && Px1(p) == Px1(q) && Px0(p) == Px0(q)
    ensures p == q
  {
    SplitJoin(p);
    SplitJoin(q);
  }

  // ----- Entries -----

  /** The low ten bits of an entry: PTE_V, PTE_R, PTE_W, PTE_X, PTE_U and the five above them. */
  datatype Flags = Flags(v: bool, r: bool, w: bool, x: bool, u: bool, high: nat)

  /** A 64-bit word as its upper 54 bits and its flags; every word is one. */
  datatype Word = Word(frame: nat, flags: Flags)

  const NO_FLAGS := Flags(false, false, false, false, false, 0)
  const TABLE_FLAGS := NO_FLAGS.(v := true)                            // PTE_V alone
  const USER_FLAGS := Flags(false, true, true, true, true, 0)          // PTE_W | PTE_X | PTE_R | PTE_U
  const ZERO := Word(0, NO_FLAGS)

  predicate Valid(pte: Word) { pte.flags.v }
  predicate Leafy(f: Flags) { f.r || f.w || f.x }                      // & (PTE_R | PTE_W | PTE_X)

  function Bit(b: bool): nat { if b then 1 else 0 }
  function FlagBits(f: Flags): nat {
    Bit(f.v) + 2 * Bit(f.r) + 4 * Bit(f.w) + 8 * Bit(f.x) + 16 * Bit(f.u) + 32 * f.high
  }

  /** The number a word stands for: PA2PTE of its frame, or-ed with its flags. */
  function Value(w: Word): nat { 1024 * w.frame + FlagBits(w.flags) }

  /** Valid, readable, writable, executable and user are bits 0 to 4, the frame is bits 10 and up. */
  lemma FlagPositions(w: Word)
    requires w.flags.high < 32
    ensures (Value(w) % 2 == 1 <==> w.flags.v) && (Value(w) / 2 % 2 == 1 <==> w.flags.r)
    ensures (Value(w) / 4 % 2 == 1 <==> w.flags.w) && (Value(w) / 8 % 2 == 1 <==> w.flags.x)
    ensures (Value(w) / 16 % 2 == 1 <==> w.flags.u) && Value(w) / 1024 == w.frame
  {
    var f := w.flags;
    var n5 := f.high + 32 * w.frame;
    var n4 := Bit(f.u) + 2 * n5;
    var n3 := Bit(f.x) + 2 * n4;
    var n2 := Bit(f.w) + 2 * n3;
    var n1 := Bit(f.r) + 2 * n2;
    assert Value(w) == Bit(f.v) + 2 * n1;
    Halve(f.v, n1);
    Halve(f.r, n2);
    Halve(f.w, n3);
    Halve(f.x, n4);
    Halve(f.u, n5);
  }

  /** The flags in a number, one shift at a time. */
  function FlagsOf(n: nat): Flags {
    var n1 := n / 2;
    var n2 := n1 / 2;
    var n3 := n2 / 2;
    var n4 := n3 / 2;
    Flags(n % 2 == 1, n1 % 2 == 1, n2 % 2 == 1, n3 % 2 == 1, n4 % 2 == 1, n4 / 2)
  }

  /** PTE2PA and PTE_FLAGS of a number. */
  function WordOf(n: nat): Word { Word(n / 1024, FlagsOf(n % 1024)) }

  lemma FlagsRoundTrip(f: Flags)
    requires f.high < 32
    ensures FlagBits(f) < 1024 && FlagsOf(FlagBits(f)) == f
  {
    var n4 := Bit(f.u) + 2 * f.high;
    var n3 := Bit(f.x) + 2 * n4;
    var n2 := Bit(f.w) + 2 * n3;
    var n1 := Bit(f.r) + 2 * n2;
    Halve(f.u, f.high);
    Halve(f.x, n4);
    Halve(f.w, n3);
    Halve(f.r, n2);
    Halve(f.v, n1);
  }

  lemma Halve(b: bool, m: nat)
    ensures (Bit(b) + 2 * m) / 2 == m && ((Bit(b) + 2 * m) % 2 == 1 <==> b)
  {
  }

  lemma FlagBitsOf(n: nat)
    requires n < 1024
    ensures FlagBits(FlagsOf(n)) == n && FlagsOf(n).high < 32
  {
  }

  /** Encoding an address and its flags loses nothing. */
  lemma PteRoundTrip(w: Word)
    requires w.flags.high < 32
    ensures WordOf(Value(w)) == w
  {
    FlagsRoundTrip(w.flags);
  }

  lemma ValueRoundTrip(n: nat)
    ensures Value(WordOf(n)) == n
  {
    FlagBitsOf(n % 1024);
  }

  lemma PteInjective(v: Word, w: Word)
    requires v.flags.high < 32 && w.flags.high < 32 && Value(v) == Value(w)
    ensures v == w
  {
    PteRoundTrip(v);
    PteRoundTrip(w);
  }

  /** The shifts and masks of the macros on 64-bit words are inverse on aligned 56-bit addresses. */
  lemma MacrosInvert(pa: bv64, flags: bv64)
    requires pa & 0xFFF == 0 && pa < 0x100_0000_0000_0000 && flags < 0x400
    ensures (((((pa >> 12) << 10) | flags) >> 10) << 12) == pa
    ensures (((pa >> 12) << 10) | flags) & 0x3FF == flags
  {
  }

  lemma MacrosSplit(va: bv64, wa: bv64)
    requires va & 0xFFF == 0 && wa & 0xFFF == 0 && va < 0x40_0000_0000 && wa < 0x40_0000_0000
    requires (va >> 30) & 0x1FF == (wa >> 30) & 0x1FF && (va >> 21) & 0x1FF == (wa >> 21) & 0x1FF
    requires (va >> 12) & 0x1FF == (wa >> 12) & 0x1FF
    ensures va == wa
  {
  }
}
