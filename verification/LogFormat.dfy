/** The on-disk redo log of kernel/log.c: a header block holding a count and a list of home
    block numbers, followed by one log block per entry.  Blocks are arrays of 32-bit words. */
module LogFormat {
  import opened Params

  const WORDS := 256        // BSIZE / sizeof(int)

  type Block = seq<int>
  type Disk = seq<Block>

  datatype Layout = Layout(start: nat, size: nat, nblocks: nat) {
    predicate Ok() { 1 <= size && size <= WORDS && start + size <= nblocks }
    predicate InLog(b: int) { start <= b < start + size }
    predicate Home(b: int) { 0 <= b < nblocks && !InLog(b) }
    ghost function HomeSet(): set<int> { set b | 0 <= b < nblocks && Home(b) }
  }

  /** The header layout mkfs writes: boot block, super block, then nlog = LOGSIZE log blocks. */
  const MkfsLayout := Layout(2, LOGSIZE, 2048)

  ghost predicate Distinct(s: seq<int>) {
    forall i, j :: 0 <= i < j < |s| ==> s[i] != s[j]
  }

  /** A list of blocks that a header may name: home blocks, no repeats, one log slot each. */
  ghost predicate ListOk(l: Layout, lh: seq<int>) {
    && |lh| < l.size
    && (forall i :: 0 <= i < |lh| ==> l.Home(lh[i]))
    && Distinct(lh)
  }

  function EncodeHead(buf: Block, lh: seq<int>): (r: Block)
    requires |lh| < |buf|
    ensures |r| == |buf|
    ensures r[0] == |lh| && r[1..1 + r[0]] == lh
    ensures forall i :: |lh| < i < |buf| ==> r[i] == buf[i]
  {
    [|lh|] + lh + buf[1 + |lh|..]
  }

  ghost predicate HeaderOk(l: Layout, d: Disk) {
    && l.Ok()
    && |d| == l.nblocks
    && |d[l.start]| == WORDS
    && 0 <= d[l.start][0] < l.size
    && ListOk(l, Head(l, d))
  }

  function Head(l: Layout, d: Disk): seq<int>
    requires l.Ok() && |d| == l.nblocks && |d[l.start]| == WORDS && 0 <= d[l.start][0] < l.size
  {
    d[l.start][1..1 + d[l.start][0]]
  }

  /** Position of b in lh, or -1. */
  function Find(lh: seq<int>, b: int): (k: int)
    ensures -1 <= k < |lh|
    ensures k >= 0 ==> lh[k] == b
    ensures k == -1 <==> b !in lh
  {
    if lh == [] then -1
    else if lh[|lh| - 1] == b then |lh| - 1
    else Find(lh[..|lh| - 1], b)
  }

  /** What recovery leaves in home block b: its log copy when the header names it. */
  function RecoveredAt(l: Layout, d: Disk, b: int): Block
    requires HeaderOk(l, d) && l.Home(b)
  {
    var k := Find(Head(l, d), b);
    if k >= 0 then d[l.start + 1 + k] else d[b]
  }

  /** The durable file system: the home blocks as recovery would leave them. */
  ghost function Durable(l: Layout, d: Disk): map<int, Block>
    requires HeaderOk(l, d)
  {
    map b | b in l.HomeSet() :: RecoveredAt(l, d, b)
  }

  lemma {:induction false} FindDistinct(lh: seq<int>, k: int)
    requires Distinct(lh) && 0 <= k < |lh|
    ensures Find(lh, lh[k]) == k
  {
    var j := Find(lh, lh[k]);
    assert lh[j] == lh[k];
  }

  /** Writing a log block that the header does not name changes nothing durable. */
  lemma LogBlockInvisible(l: Layout, d: Disk, k: int, v: Block)
    requires HeaderOk(l, d) && |Head(l, d)| <= k < l.size - 1
    ensures var d' := d[l.start + 1 + k := v];
            HeaderOk(l, d') && Head(l, d') == Head(l, d) && Durable(l, d') == Durable(l, d)
  {
  }

  /** Copying log block k home is invisible while the header still names it. */
  lemma InstallInvisible(l: Layout, d: Disk, k: int)
    requires HeaderOk(l, d) && 0 <= k < |Head(l, d)|
    ensures var d' := d[Head(l, d)[k] := d[l.start + 1 + k]];
            HeaderOk(l, d') && Head(l, d') == Head(l, d) && Durable(l, d') == Durable(l, d)
  {
    var lh := Head(l, d);
    assert l.Home(lh[k]);
    FindDistinct(lh, k);
  }

  lemma HeaderWritten(l: Layout, d: Disk, lh: seq<int>)
    requires l.Ok() && |d| == l.nblocks && |d[l.start]| == WORDS && ListOk(l, lh)
    ensures var d' := d[l.start := EncodeHead(d[l.start], lh)];
            HeaderOk(l, d') && Head(l, d') == lh
  {
  }

  /** Erasing the header is invisible once every named block is installed. */
  lemma EraseInvisible(l: Layout, d: Disk)
    requires HeaderOk(l, d)
    requires forall i :: 0 <= i < |Head(l, d)| ==> d[Head(l, d)[i]] == d[l.start + 1 + i]
    ensures var d' := d[l.start := EncodeHead(d[l.start], [])];
            HeaderOk(l, d') && Head(l, d') == [] && Durable(l, d') == Durable(l, d)
  {
    HeaderWritten(l, d, []);
  }

  /** Writing a header over an empty one commits exactly the logged blocks, all at once. */
  lemma HeaderCommits(l: Layout, d: Disk, lh: seq<int>, pending: map<int, Block>)
    requires HeaderOk(l, d) && Head(l, d) == [] && ListOk(l, lh)
    requires pending.Keys == set b | b in lh
    requires forall i :: 0 <= i < |lh| ==> d[l.start + 1 + i] == pending[lh[i]]
    ensures var d' := d[l.start := EncodeHead(d[l.start], lh)];
            HeaderOk(l, d') && Head(l, d') == lh && Durable(l, d') == Durable(l, d) + pending
  {
    HeaderWritten(l, d, lh);
    var d' := d[l.start := EncodeHead(d[l.start], lh)];
    HeadDecides(l, d, d', lh, pending);
  }

  lemma HeadDecides(l: Layout, d: Disk, d': Disk, lh: seq<int>, pending: map<int, Block>)
    requires HeaderOk(l, d) && Head(l, d) == [] && HeaderOk(l, d') && Head(l, d') == lh
    requires forall b :: 0 <= b < |d| && b != l.start ==> d'[b] == d[b]
    requires pending.Keys == set b | b in lh
    requires forall i :: 0 <= i < |lh| ==> d[l.start + 1 + i] == pending[lh[i]]
    ensures Durable(l, d') == Durable(l, d) + pending
  {
    forall b | b in l.HomeSet()
      ensures RecoveredAt(l, d', b) == if b in pending then pending[b] else RecoveredAt(l, d, b)
    {
      HeadDecidesAt(l, d, d', lh, pending, b);
    }
    ListInHome(l, lh);
    Overlay(l.HomeSet(), Durable(l, d), pending, Durable(l, d'));
  }

  lemma ListInHome(l: Layout, lh: seq<int>)
    requires ListOk(l, lh)
    ensures (set b | b in lh) <= l.HomeSet()
  {
  }

  lemma Overlay(keys: set<int>, was: map<int, Block>, pending: map<int, Block>, now: map<int, Block>)
    requires was.Keys == keys && now.Keys == keys && pending.Keys <= keys
    requires forall b :: b in keys ==> now[b] == if b in pending then pending[b] else was[b]
    ensures now == was + pending
  {
    var want := was + pending;
    assert want.Keys == keys;
    assert forall b :: b in keys ==> now[b] == want[b];
  }

  lemma HeadDecidesAt(l: Layout, d: Disk, d': Disk, lh: seq<int>, pending: map<int, Block>, b: int)
    requires HeaderOk(l, d) && Head(l, d) == [] && HeaderOk(l, d') && Head(l, d') == lh && l.Home(b)
    requires forall b :: 0 <= b < |d| && b != l.start ==> d'[b] == d[b]
    requires pending.Keys == set b | b in lh
    requires forall i :: 0 <= i < |lh| ==> d[l.start + 1 + i] == pending[lh[i]]
    ensures RecoveredAt(l, d', b) == if b in pending then pending[b] else RecoveredAt(l, d, b)
  {
    var k := Find(lh, b);
    if k >= 0 {
      assert d'[l.start + 1 + k] == d[l.start + 1 + k] == pending[lh[k]];
    }
  }
}
