/** The code of kernel/log.c that touches the disk, over a disk that remembers every image it
    passed through: a crash can expose any of them. */
module Log {
  import opened LogFormat
  import opened Params

  /** A commit group: the blocks logged and their cached contents. */
  ghost predicate Group(l: Layout, lh: seq<int>, cache: map<int, Block>) {
    ListOk(l, lh) && cache.Keys == set b | b in lh
  }

  /** Every image from position `from` to `to` recovers to the same durable blocks. */
  ghost predicate Recovers(l: Layout, images: seq<Disk>, from: int, to: int, durable: map<int, Block>) {
    0 <= from <= to <= |images| &&
    forall i :: from <= i < to ==> HeaderOk(l, images[i]) && Durable(l, images[i]) == durable
  }

  /** install_trans has copied the first t blocks home; nothing durable has moved. */
  ghost predicate Installing(l: Layout, d: Disk, lh: seq<int>, t: int, durable: map<int, Block>) {
    && HeaderOk(l, d) && Head(l, d) == lh && 0 <= t <= |lh| && Durable(l, d) == durable
    && forall i :: 0 <= i < t ==> d[lh[i]] == d[l.start + 1 + i]
  }

  lemma InstallOne(l: Layout, d: Disk, lh: seq<int>, t: int, durable: map<int, Block>)
    requires Installing(l, d, lh, t, durable) && t < |lh|
    ensures l.Home(lh[t]) && Installing(l, d[lh[t] := d[l.start + 1 + t]], lh, t + 1, durable)
  {
    InstallInvisible(l, d, t);
    var d' := d[lh[t] := d[l.start + 1 + t]];
    forall i | 0 <= i < t + 1 ensures d'[lh[i]] == d'[l.start + 1 + i] {
      assert l.Home(lh[i]) && l.Home(lh[t]);
    }
  }

  /** The blocks between the old images and the new ones. */
  lemma RecoversMore(l: Layout, images: seq<Disk>, from: int, d: Disk, durable: map<int, Block>)
    requires Recovers(l, images, from, |images|, durable) && HeaderOk(l, d) && Durable(l, d) == durable
    ensures Recovers(l, images + [d], from, |images| + 1, durable)
  {
  }

  lemma RecoversPrefix(l: Layout, images: seq<Disk>, more: seq<Disk>, from: int, to: int, durable: map<int, Block>)
    requires Recovers(l, images, from, to, durable) && images <= more
    ensures Recovers(l, more, from, to, durable)
  {
  }

  lemma RecoversJoin(l: Layout, images: seq<Disk>, from: int, mid: int, to: int, durable: map<int, Block>)
    requires Recovers(l, images, from, mid, durable) && Recovers(l, images, mid, to, durable)
    ensures Recovers(l, images, from, to, durable)
  {
  }

  /** From d to e the log blocks, in order, have come home to the named blocks, and no other home block
      has changed. */
  ghost predicate CameHome(l: Layout, d: Disk, e: Disk, named: seq<int>) {
    && |d| == |e| == l.nblocks && l.start + 1 + |named| <= l.nblocks
    && (forall i :: 0 <= i < |named| ==> l.Home(named[i]) && e[named[i]] == d[l.start + 1 + i])
    && forall b :: l.Home(b) && b !in named ==> e[b] == d[b]
  }

  lemma AllHome(l: Layout, d: Disk, e: Disk)
    requires HeaderOk(l, d) && HeaderOk(l, e) && Head(l, e) == [] && Durable(l, e) == Durable(l, d)
    ensures CameHome(l, d, e, d[l.start][1..1 + d[l.start][0]])
    ensures forall b :: l.Home(b) ==> e[b] == RecoveredAt(l, d, b)
  {
    forall b | l.Home(b) ensures e[b] == RecoveredAt(l, d, b) {
      assert b in Durable(l, e) && b in Durable(l, d);
    }
    forall i | 0 <= i < |Head(l, d)| ensures e[Head(l, d)[i]] == d[l.start + 1 + i] { FindDistinct(Head(l, d), i); }
  }

  class LogDevice {
    const l: Layout
    const block: array<int>          // log.lh.block
    var n: nat                       // log.lh.n
    var outstanding: nat
    var disk: Disk
    var cache: map<int, Block>       // contents of the pinned buffers
    ghost var images: seq<Disk>      // the disk after each block write

    ghost predicate Valid()
      reads this, block
    {
      && HeaderOk(l, disk)
      && block.Length == LOGSIZE && n <= LOGSIZE
      && Group(l, block[..n], cache)
    }

    /** Write one block; the only way the disk changes. */
    method BWrite(b: nat, v: Block)
      requires b < |disk|
      modifies `disk, `images
      ensures disk == old(disk)[b := v] && images == old(images) + [disk]
    {
      disk := disk[b := v];
      images := images + [disk];
    }

    method ReadHead()
      requires HeaderOk(l, disk) && block.Length == LOGSIZE && l.size <= LOGSIZE
      modifies `n, block
      ensures n == disk[l.start][0] && n <= LOGSIZE && forall i :: 0 <= i < n ==> block[i] == disk[l.start][1 + i]
      ensures n < l.size && block[..n] == Head(l, disk)
    {
      var buf := disk[l.start];
      n := buf[0];
      var i := 0;
      while i < n
        invariant 0 <= i <= n && n == buf[0]
        invariant forall j :: 0 <= j < i ==> block[j] == buf[1 + j]
      {
        block[i] := buf[1 + i];
        i := i + 1;
      }
    }

    method WriteHead()
      requires l.Ok() && |disk| == l.nblocks && |disk[l.start]| == WORDS
      requires block.Length == LOGSIZE && n <= LOGSIZE
      modifies `disk, `images
      ensures disk == old(disk)[l.start := EncodeHead(old(disk)[l.start], block[..n])]
      ensures images == old(images) + [disk]
    {
      var buf := disk[l.start];
      buf := buf[0 := n];
      var i := 0;
      while i < n
        invariant 0 <= i <= n && |buf| == WORDS && buf[0] == n
        invariant forall j :: 0 <= j < i ==> buf[1 + j] == block[j]
        invariant forall j :: i < j < WORDS ==> buf[j] == disk[l.start][j]
      {
        buf := buf[1 + i := block[i]];
        i := i + 1;
      }
      assert buf == EncodeHead(disk[l.start], block[..n]);
      BWrite(l.start, buf);
    }

    /** Copy the cached blocks to the log area.  Nothing durable changes at any write. */
    method WriteLog()
      requires Valid() && Head(l, disk) == []
      modifies `disk, `images
      ensures Valid() && Head(l, disk) == [] && Durable(l, disk) == old(Durable(l, disk))
      ensures forall i :: 0 <= i < n ==> disk[l.start + 1 + i] == cache[block[i]]
      ensures |images| == |old(images)| + n && old(images) <= images
      ensures Recovers(l, images, |old(images)|, |images|, old(Durable(l, disk)))
    {
      var tail := 0;
      while tail < n
        invariant 0 <= tail <= n && Valid() && Head(l, disk) == []
        invariant Durable(l, disk) == old(Durable(l, disk))
        invariant forall i :: 0 <= i < tail ==> disk[l.start + 1 + i] == cache[block[i]]
        invariant |images| == |old(images)| + tail && old(images) <= images
        invariant Recovers(l, images, |old(images)|, |images|, old(Durable(l, disk)))
      {
        assert block[..n][tail] in cache;
        LogBlockInvisible(l, disk, tail, cache[block[tail]]);
        BWrite(l.start + tail + 1, cache[block[tail]]);
        tail := tail + 1;
      }
    }

    /** Copy the log area home.  Nothing durable changes at any write. */
    method InstallTrans(ghost durable: map<int, Block>)
      requires block.Length == LOGSIZE && n <= LOGSIZE && Installing(l, disk, block[..n], 0, durable)
      modifies `disk, `images
      ensures Installing(l, disk, block[..n], n, durable)
      ensures |images| == |old(images)| + n && old(images) <= images
      ensures Recovers(l, images, |old(images)|, |images|, durable)
    {
      ghost var lh := block[..n];
      var tail := 0;
      while tail < n
        invariant 0 <= tail <= n && Installing(l, disk, lh, tail, durable)
        invariant |images| == |old(images)| + tail && old(images) <= images
        invariant Recovers(l, images, |old(images)|, |images|, durable)
      {
        assert block[tail] == lh[tail];
        InstallOne(l, disk, lh, tail, durable);
        RecoversMore(l, images, |old(images)|, disk[block[tail] := disk[l.start + tail + 1]], durable);
        BWrite(block[tail], disk[l.start + tail + 1]);
        tail := tail + 1;
      }
    }

    /** install_trans and the erasing write_head that both commit and recovery end with. */
    method InstallAndErase(ghost durable: map<int, Block>)
      requires block.Length == LOGSIZE && n <= LOGSIZE && Installing(l, disk, block[..n], 0, durable)
      modifies `n, `disk, `images, `cache
      ensures Valid() && n == 0 && Head(l, disk) == [] && Durable(l, disk) == durable
      ensures |images| == |old(images)| + old(n) + 1 && old(images) <= images
      ensures Recovers(l, images, |old(images)|, |images|, durable)
    {
      InstallTrans(durable);
      EraseInvisible(l, disk);
      n := 0;
      cache := map[];
      assert block[..n] == [];
      RecoversMore(l, images, |old(images)|, disk[l.start := EncodeHead(disk[l.start], [])], durable);
      WriteHead();
    }

    /** The write_head that commits. */
    method WriteCommit(ghost after: map<int, Block>)
      requires Valid() && Head(l, disk) == [] && after == Durable(l, disk) + cache
      requires forall i :: 0 <= i < n ==> disk[l.start + 1 + i] == cache[block[i]]
      modifies `disk, `images
      ensures Installing(l, disk, block[..n], 0, after) && images == old(images) + [disk]
    {
      HeaderCommits(l, disk, block[..n], cache);
      WriteHead();
    }

    /** The first half of commit: write_log, then that write_head. */
    method LogGroup(ghost before: map<int, Block>, ghost after: map<int, Block>)
      requires Valid() && Head(l, disk) == []
      requires before == Durable(l, disk) && after == before + cache
      modifies `disk, `images
      ensures Installing(l, disk, block[..n], 0, after)
      ensures |images| == |old(images)| + n + 1 && old(images) <= images
      ensures Recovers(l, images, |old(images)|, |old(images)| + n, before)
      ensures Recovers(l, images, |old(images)| + n, |images|, after)
    {
      WriteLog();
      ghost var logged := images;
      WriteCommit(after);
      RecoversPrefix(l, logged, images, |old(images)|, |logged|, before);
      RecoversMore(l, logged, |logged|, disk, after);
    }

    /** Commit the group.  With g blocks logged it writes 2g + 2 images; the first g recover to
        the blocks before the group, all later ones to the blocks with the whole group applied. */
    method Commit()
      requires Valid() && Head(l, disk) == []
      modifies `n, `disk, `images, `cache
      ensures Valid() && n == 0 && Head(l, disk) == [] && old(images) <= images
      ensures old(n) == 0 ==> disk == old(disk) && images == old(images)
      ensures old(n) > 0 ==> |images| == |old(images)| + 2 * old(n) + 2
      ensures Durable(l, disk) == old(Durable(l, disk) + cache)
      ensures forall b :: l.Home(b) ==> disk[b] == if b in old(cache) then old(cache)[b] else old(disk)[b]
      ensures Recovers(l, images, |old(images)|, |old(images)| + old(n), old(Durable(l, disk)))
      ensures Recovers(l, images, |old(images)| + old(n), |images|, old(Durable(l, disk) + cache))
    {
      ghost var before, after := Durable(l, disk), Durable(l, disk) + cache;
      ghost var first, split := |images|, |images| + n;
      if n > 0 {
        LogGroup(before, after);
        ghost var committed := images;
        InstallAndErase(after);
        RecoversPrefix(l, committed, images, first, split, before);
        RecoversPrefix(l, committed, images, split, split + 1, after);
        RecoversJoin(l, images, split, split + 1, |images|, after);
      } else {
        assert cache == map[];
        assert after == before;
      }
      forall b | l.Home(b) ensures disk[b] == if b in old(cache) then old(cache)[b] else old(disk)[b] {
        assert b in Durable(l, disk) && b in before;
      }
    }

    /** Boot: finish whatever transaction the header names.  Every image, and so every disk a
        crash of recovery itself can expose, recovers to the same blocks. */
    method RecoverFromLog()
      requires HeaderOk(l, disk) && block.Length == LOGSIZE && l.size <= LOGSIZE
      modifies `n, `disk, `images, `cache, block
      ensures Valid() && n == 0 && Head(l, disk) == [] && old(images) <= images
      ensures var h := old(disk)[l.start]; CameHome(l, old(disk), disk, h[1..1 + h[0]])
      ensures forall b :: l.Home(b) ==> disk[b] == RecoveredAt(l, old(disk), b)
      ensures Recovers(l, images, |old(images)|, |images|, Durable(l, old(disk)))
    {
      ReadHead();
      InstallAndErase(Durable(l, disk));
      AllHome(l, old(disk), disk);
    }

    /** Record a modified block: absorbed if already logged, appended otherwise. */
    method LogWrite(b: int, data: Block) returns (panicked: bool)
      requires Valid() && l.Home(b)
      modifies `n, `cache, block
      ensures panicked <==> old(n) >= 30 || old(n) >= l.size - 1 || outstanding < 1
      ensures panicked ==> unchanged(this) && unchanged(block)
      ensures !panicked ==> Valid() && cache == old(cache)[b := data]
      ensures !panicked ==> block[..n] == if b in old(block[..n]) then old(block[..n]) else old(block[..n]) + [b]
    {
      if NoRoom(l.size, n) || outstanding < 1 {
        return true;
      }
      ghost var was := block[..n];
      var i := 0;
      while i < n
        invariant 0 <= i <= n
        invariant forall j :: 0 <= j < i ==> block[j] != b
      {
        if block[i] == b { break; }
        i := i + 1;
      }
      block[i] := b;
      if i == n {
        n := n + 1;
        assert block[..n] == was + [b];
      } else {
        assert block[..n] == was;
      }
      cache := cache[b := data];
      return false;
    }
  }
}
