/**
  log.c as code: the log header in memory, the loops of log_write, write_log, install_trans and commit, and
  recovery. `writes` records the disk after every single block write, that is, every disk a crash can leave.
*/
module LogCode {
  import opened Blocks
  import opened CrashLog
  import opened Param
  import R = LogReserve

  // ---- one block write at a time ----

  /** Disk e recovers to contents c. */
  ghost predicate RecoversTo(g: Geo, e: seq<Block>, c: seq<Block>) {
    && g.Ok() && |e| == |c| == g.dsize
    && HeadOk(g, HeadOf(e[g.start]))
    && forall b: nat {:trigger g.Home(b)} :: g.Home(b) ==> Recovered(g, e, b) == c[b]
  }

  /** While the header is empty, log blocks do not matter. */
  lemma LogBlockHarmless(g: Geo, d: seq<Block>, k: nat, blk: Block, c: seq<Block>)
    requires RecoversTo(g, d, c) && HeadOf(d[g.start]) == [] && g.start < k < g.start + g.size
    ensures RecoversTo(g, d[k := blk], c)
  {
  }

  /** The header write switches recovery from the home blocks to the logged blocks, all at once. */
  lemma HeadCommits(g: Geo, d: seq<Block>, hb: Block, h: seq<nat>, c: seq<Block>)
    requires g.Ok() && |d| == |c| == g.dsize && HeadOk(g, h) && HeadOf(hb) == h
    requires forall i: nat :: i < |h| ==> Copied(g, d, h, c, i)
    requires forall b: nat {:trigger g.Home(b)} :: g.Home(b) && b !in h ==> d[b] == c[b]
    ensures RecoversTo(g, d[g.start := hb], c)
  {
    var e := d[g.start := hb];
    forall b: nat | g.Home(b)
      ensures Recovered(g, e, b) == c[b]
    {
      if b in h {
        var i := IndexIn(h, b);
        assert Copied(g, d, h, c, i);
        assert e[g.start + 1 + i] == d[g.start + 1 + i];
      }
    }
  }

  /** Copying a logged block home changes nothing for recovery. */
  lemma InstallHarmless(g: Geo, d: seq<Block>, h: seq<nat>, t: nat, c: seq<Block>)
    requires RecoversTo(g, d, c) && HeadOf(d[g.start]) == h && t < |h|
    ensures g.Home(h[t]) && g.start + 1 + t < |d|
    ensures RecoversTo(g, d[h[t] := d[g.start + 1 + t]], c)
  {
    var e := d[h[t] := d[g.start + 1 + t]];
    assert g.Home(h[t]);
    forall b: nat | g.Home(b)
      ensures Recovered(g, e, b) == c[b]
    {
      assert Recovered(g, d, b) == c[b];
      if b in h {
        assert g.start + 1 + IndexIn(h, b) != h[t];
      }
    }
  }

  /** Once all logged blocks are home, emptying the header changes nothing for recovery. */
  lemma EraseHarmless(g: Geo, d: seq<Block>, c: seq<Block>)
    requires g.Ok() && |d| == |c| == g.dsize && (forall b: nat {:trigger g.Home(b)} :: g.Home(b) ==> d[b] == c[b])
    ensures RecoversTo(g, d[g.start := PutHead(d[g.start], [])], c)
    ensures HeadOf(PutHead(d[g.start], [])) == []
  {
  }

  /** Each of the disks ws[lo], ..., ws[hi - 1] recovers to contents c. */
  ghost predicate AllRecover(g: Geo, ws: seq<seq<Block>>, lo: nat, hi: nat, c: seq<Block>) {
    hi <= |ws| && forall k :: lo <= k < hi ==> RecoversTo(g, ws[k], c)
  }

  datatype Outcome = Ok | Panic(why: string)

  /** What a reader of block b sees: the cached contents if any, else the disk. */
  function Seen(cache: map<nat, Block>, disk: seq<Block>, b: nat): Block
    requires b < |disk|
  {
    if b in cache then cache[b] else disk[b]
  }

  function SeenAll(cache: map<nat, Block>, disk: seq<Block>): (r: seq<Block>)
    ensures |r| == |disk| && forall b: nat :: b < |disk| ==> r[b] == Seen(cache, disk, b)
  {
    seq(|disk|, b requires 0 <= b < |disk| => Seen(cache, disk, b))
  }

  /** A cached block equals its disk block unless it is one of `pending`. */
  ghost predicate Clean(cache: map<nat, Block>, disk: seq<Block>, pending: seq<nat>) {
    forall b :: b in cache ==> b < |disk| && (b !in pending ==> cache[b] == disk[b])
  }

  ghost predicate AllCached(cache: map<nat, Block>, h: seq<nat>) {
    forall b :: b in h ==> b in cache
  }

  /** write_log after t blocks: entries h, old contents c0, new contents c. */
  ghost predicate Copying(g: Geo, disk: seq<Block>, cache: map<nat, Block>, h: seq<nat>, c0: seq<Block>, c: seq<Block>,
                          t: nat) {
    && RecoversTo(g, disk, c0) && HeadOf(disk[g.start]) == [] && HeadOk(g, h) && |c| == g.dsize && t <= |h|
    && Clean(cache, disk, h) && AllCached(cache, h)
    && (forall b: nat {:trigger g.Home(b)} :: g.Home(b) ==> Seen(cache, disk, b) == c[b])
    && (forall i: nat :: i < t ==> Copied(g, disk, h, c, i))
  }

  lemma CopyingStep(g: Geo, disk: seq<Block>, cache: map<nat, Block>, h: seq<nat>, c0: seq<Block>, c: seq<Block>,
                    t: nat, cache1: map<nat, Block>, from: Block)
    requires Copying(g, disk, cache, h, c0, c, t) && t < |h|
    requires g.start + t + 1 < |disk| && h[t] < |disk|
    requires from == Seen(cache, disk, h[t])
    requires cache1 == cache[g.start + t + 1 := Seen(cache, disk, g.start + t + 1)][h[t] := from]
    ensures Copying(g, disk[g.start + t + 1 := from], cache1[g.start + t + 1 := from], h, c0, c, t + 1)
  {
    var k := g.start + t + 1;
    var disk', cache' := disk[k := from], cache1[k := from];
    assert g.Home(h[t]);
    LogBlockHarmless(g, disk, k, from, c0);
    forall b: nat | g.Home(b)
      ensures Seen(cache', disk', b) == c[b]
    {
      assert Seen(cache, disk, b) == c[b];
    }
    forall i: nat | i < t + 1
      ensures Copied(g, disk', h, c, i)
    {
      assert i < t ==> Copied(g, disk, h, c, i);
    }
  }

  /** install_trans after t blocks: entries h, contents c. */
  ghost predicate InstallingTo(g: Geo, disk: seq<Block>, cache: map<nat, Block>, h: seq<nat>, c: seq<Block>, t: nat) {
    && RecoversTo(g, disk, c) && HeadOf(disk[g.start]) == h && t <= |h|
    && (forall b :: b in cache ==> b < |disk| && ((b in h ==> b in h[..t]) ==> cache[b] == disk[b]))
    && (forall i: nat :: i < t ==> AtHome(disk, h, c, i))
  }

  lemma LogBlockIs(g: Geo, disk: seq<Block>, h: seq<nat>, c: seq<Block>, t: nat)
    requires RecoversTo(g, disk, c) && HeadOf(disk[g.start]) == h && t < |h|
    ensures g.Home(h[t]) && g.start + t + 1 < |disk| && disk[g.start + t + 1] == c[h[t]]
  {
    assert g.Home(h[t]);
    IndexUnique(h, t);
    assert Recovered(g, disk, h[t]) == c[h[t]];
  }

  lemma InstalledOne(disk: seq<Block>, h: seq<nat>, c: seq<Block>, t: nat, disk': seq<Block>)
    requires t < |h| && h[t] < |disk| && h[t] < |c| && disk' == disk[h[t] := c[h[t]]]
    requires forall i: nat :: i < t ==> AtHome(disk, h, c, i)
    ensures forall i: nat :: i < t + 1 ==> AtHome(disk', h, c, i)
  {
    forall i: nat | i < t + 1
      ensures AtHome(disk', h, c, i)
    {
      assert i < t ==> AtHome(disk, h, c, i);
    }
  }

  lemma InstallingStep(g: Geo, disk: seq<Block>, cache: map<nat, Block>, h: seq<nat>, c: seq<Block>, t: nat,
                       lbuf: Block, cache1: map<nat, Block>)
    requires InstallingTo(g, disk, cache, h, c, t) && t < |h|
    requires g.start + t + 1 < |disk| && h[t] < |disk|
    requires lbuf == Seen(cache, disk, g.start + t + 1)
    requires cache1 == cache[g.start + t + 1 := lbuf][h[t] := Seen(cache, disk, h[t])]
    ensures InstallingTo(g, disk[h[t] := lbuf], cache1[h[t] := lbuf], h, c, t + 1)
  {
    LogBlockIs(g, disk, h, c, t);
    assert g.start + t + 1 !in h;
    InstallHarmless(g, disk, h, t, c);
    var disk' := disk[h[t] := lbuf];
    assert disk'[g.start] == disk[g.start];
    InstalledOne(disk, h, c, t, disk');
    assert h[..t + 1] == h[..t] + [h[t]];
  }

  /** After install_trans every home block is in place and the cache is clean. */
  lemma InstalledAll(g: Geo, disk: seq<Block>, cache: map<nat, Block>, h: seq<nat>, c: seq<Block>)
    requires InstallingTo(g, disk, cache, h, c, |h|)
    ensures Clean(cache, disk, [])
    ensures forall b: nat {:trigger g.Home(b)} :: g.Home(b) ==> disk[b] == c[b]
  {
    assert h[..|h|] == h;
    forall b: nat | g.Home(b)
      ensures disk[b] == c[b]
    {
      assert Recovered(g, disk, b) == c[b];
      if b in h {
        assert AtHome(disk, h, c, IndexIn(h, b));
      }
    }
  }

  lemma EntriesFit(g: Geo, h: seq<nat>)
    requires g.Ok() && HeadOk(g, h)
    ensures EntriesOk(h)
  {
    forall i | 0 <= i < |h|
      ensures h[i] <= U32_MAX
    {
      assert g.Home(h[i]);
    }
  }

  lemma CopiedRecovers(g: Geo, disk: seq<Block>, cache: map<nat, Block>, h: seq<nat>, c0: seq<Block>, c: seq<Block>,
                       nb: Block)
    requires Copying(g, disk, cache, h, c0, c, |h|) && HeadOf(nb) == h
    ensures RecoversTo(g, disk[g.start := nb], c)
  {
    forall b: nat | g.Home(b) && b !in h
      ensures disk[b] == c[b]
    {
      assert Seen(cache, disk, b) == c[b];
    }
    HeadCommits(g, disk, nb, h, c);
  }

  /** The header write after write_log: the transaction is committed. */
  lemma CopiedThenHead(g: Geo, disk: seq<Block>, cache: map<nat, Block>, h: seq<nat>, c0: seq<Block>, c: seq<Block>,
                       hb: Block)
    requires Copying(g, disk, cache, h, c0, c, |h|) && hb == disk[g.start]
    ensures EntriesOk(h)
    ensures InstallingTo(g, disk[g.start := PutHead(hb, h)], cache[g.start := PutHead(hb, h)], h, c, 0)
  {
    EntriesFit(g, h);
    var nb := PutHead(hb, h);
    HeadRoundTrip(hb, h);
    CopiedRecovers(g, disk, cache, h, c0, c, nb);
  }

  lemma CopyingStart(g: Geo, disk: seq<Block>, cache: map<nat, Block>, h: seq<nat>)
    requires g.Ok() && |disk| == g.dsize && HeadOk(g, h) && HeadOf(disk[g.start]) == []
    requires Clean(cache, disk, h) && AllCached(cache, h)
    ensures Copying(g, disk, cache, h, disk, SeenAll(cache, disk), 0)
  {
  }

  lemma ReadsHeader(g: Geo, disk: seq<Block>, cache: map<nat, Block>, h: seq<nat>)
    requires g.Ok() && |disk| == g.dsize && HeadOk(g, h) && Clean(cache, disk, h)
    ensures Seen(cache, disk, g.start) == disk[g.start]
  {
  }

  lemma RecoveryStart(g: Geo, disk: seq<Block>, cache: map<nat, Block>, h: seq<nat>)
    requires g.Ok() && |disk| == g.dsize && HeadOf(disk[g.start]) == h && HeadOk(g, h) && Clean(cache, disk, [])
    ensures InstallingTo(g, disk, cache, h, RecoveredAll(g, disk), 0)
  {
  }

  class Log {
    const g: Geo
    var disk: seq<Block>
    var cache: map<nat, Block>            // the buffers with B_VALID set, by block number
    var n: nat                            // log.lh.n
    var block: array<nat>                 // log.lh.block
    var outstanding: nat
    var committing: bool
    ghost var writes: seq<seq<Block>>     // the disk after each bwrite

    ghost predicate Sized()
      reads this, block
    {
      g.Ok() && |disk| == g.dsize && block.Length == LOGSIZE && n <= LOGSIZE && HeadOk(g, block[..n])
    }

    /** Between commits: nothing committed is left in the log, and logged blocks are pinned in the cache. */
    ghost predicate Valid()
      reads this, block
    {
      Sized() && HeadOf(disk[g.start]) == [] && Clean(cache, disk, block[..n]) && AllCached(cache, block[..n])
    }

    method Bread(b: nat) returns (d: Block)
      requires b < |disk|
      modifies this`cache
      ensures d == old(Seen(cache, disk, b)) && cache == old(cache)[b := d]
    {
      if b !in cache {
        cache := cache[b := disk[b]];
      }
      d := cache[b];
    }

    method Bwrite(b: nat, d: Block)
      requires b < |disk|
      modifies this`cache, this`disk, this`writes
      ensures disk == old(disk)[b := d] && cache == old(cache)[b := d] && writes == old(writes) + [disk]
    {
      cache := cache[b := d];
      disk := disk[b := d];
      writes := writes + [disk];
    }

    /** Admits the caller, or leaves everything as it is for the caller to sleep and try again. */
    method BeginOp() returns (admitted: bool)
      modifies this`outstanding
      ensures admitted <==> !committing && n + (old(outstanding) + 1) * MAXOPBLOCKS <= LOGSIZE
      ensures outstanding == if admitted then old(outstanding) + 1 else old(outstanding)
    {
      if committing {
        admitted := false;
      } else if n + (outstanding + 1) * MAXOPBLOCKS > LOGSIZE {
        admitted := false;
      } else {
        outstanding := outstanding + 1;
        admitted := true;
      }
    }

    /** Log the new contents d of home block b: readers see d from now on, the disk does not change. */
    method LogWrite(b: nat, d: Block) returns (r: Outcome)
      requires Valid() && g.Home(b)
      modifies this`n, this`cache, block
      ensures Valid()
      ensures r.Panic? <==> old(n) >= LOGSIZE || old(n) + 1 >= g.size || outstanding < 1
      ensures r.Panic? ==> n == old(n) && block[..n] == old(block[..n]) && cache == old(cache)
      ensures r.Ok? ==> block[..n] == R.Absorb(old(block[..n]), b) && cache == old(cache)[b := d]
    {
      if n >= LOGSIZE || n + 1 >= g.size {
        return Panic("too big a transaction");
      }
      if outstanding < 1 {
        return Panic("log_write outside of trans");
      }
      ghost var h := block[..n];
      var i := 0;
      while i < n
        invariant 0 <= i <= n && b !in block[..i]
      {
        if block[i] == b {
          break;
        }
        i := i + 1;
      }
      block[i] := b;
      if i == n {
        n := n + 1;
        assert block[..n] == h + [b];
      } else {
        assert block[..n] == h;
      }
      cache := cache[b := d];
      R.AbsorbDistinct(h, b);
      return Ok;
    }

    /** One pass of write_log's loop. */
    method CopyOne(ghost c0: seq<Block>, ghost c: seq<Block>, tail: nat)
      requires Sized() && tail < n && Copying(g, disk, cache, block[..n], c0, c, tail)
      modifies this`disk, this`cache, this`writes
      ensures Sized() && Copying(g, disk, cache, block[..n], c0, c, tail + 1) && writes == old(writes) + [disk]
    {
      ghost var d0, s0 := disk, cache;
      assert block[..n][tail] == block[tail] && g.Home(block[..n][tail]);
      var to := Bread(g.start + tail + 1);
      var from := Bread(block[tail]);
      CopyingStep(g, d0, s0, block[..n], c0, c, tail, cache, from);
      Bwrite(g.start + tail + 1, from);
    }

    /** Copy the blocks of the transaction from the cache to the log. Recovery still yields the old contents c0. */
    method WriteLog(ghost c0: seq<Block>, ghost c: seq<Block>)
      requires Sized() && Copying(g, disk, cache, block[..n], c0, c, 0)
      modifies this`disk, this`cache, this`writes
      ensures Sized() && Copying(g, disk, cache, block[..n], c0, c, n)
      ensures |writes| == |old(writes)| + n && old(writes) <= writes
      ensures AllRecover(g, writes, |old(writes)|, |writes|, c0)
    {
      var tail := 0;
      while tail < n
        invariant 0 <= tail <= n && Sized()
        invariant Copying(g, disk, cache, block[..n], c0, c, tail)
        invariant |writes| == |old(writes)| + tail && old(writes) <= writes
        invariant AllRecover(g, writes, |old(writes)|, |writes|, c0)
      {
        CopyOne(c0, c, tail);
        tail := tail + 1;
      }
    }

    /** The in-memory header copied over a buffer. */
    method FillHead(hb: Block) returns (buf: Block)
      requires n <= block.Length && EntriesOk(block[..n])
      ensures buf == PutHead(hb, block[..n])
    {
      buf := hb;
      var i := 0;
      while i < n
        invariant 0 <= i <= n && EntriesOk(block[..i]) && buf == PutEntries(hb, block[..i])
      {
        assert block[..i + 1][..i] == block[..i] && block[..i + 1][i] == block[..n][i];
        buf := PutWord(buf, 1 + i, block[i]);
        i := i + 1;
      }
      buf := PutWord(buf, 0, n);
    }

    /** write_head: the in-memory header into the header block. */
    method WriteHead()
      requires g.Ok() && |disk| == g.dsize && n <= block.Length && EntriesOk(block[..n])
      modifies this`disk, this`cache, this`writes
      ensures var hb := old(Seen(cache, disk, g.start));
              && disk == old(disk)[g.start := PutHead(hb, block[..n])]
              && cache == old(cache)[g.start := PutHead(hb, block[..n])]
      ensures HoldsHead(old(Seen(cache, disk, g.start)), disk[g.start], block[..n])
      ensures writes == old(writes) + [disk]
    {
      var buf := Bread(g.start);
      HeadBytes(buf, block[..n]);
      var hb := FillHead(buf);
      Bwrite(g.start, hb);
    }

    /** One pass of install_trans's loop. */
    method InstallBlock(ghost c: seq<Block>, tail: nat)
      requires Sized() && tail < n && InstallingTo(g, disk, cache, block[..n], c, tail)
      modifies this`disk, this`cache, this`writes
      ensures Sized() && InstallingTo(g, disk, cache, block[..n], c, tail + 1) && writes == old(writes) + [disk]
    {
      ghost var d0, s0 := disk, cache;
      assert block[..n][tail] == block[tail];
      LogBlockIs(g, disk, block[..n], c, tail);
      var lbuf := Bread(g.start + tail + 1);
      var dbuf := Bread(block[tail]);
      InstallingStep(g, d0, s0, block[..n], c, tail, lbuf, cache);
      Bwrite(block[tail], lbuf);
    }

    /** Copy committed blocks home. Recovery yields the contents c after every single write. */
    method InstallTrans(ghost c: seq<Block>)
      requires Sized() && InstallingTo(g, disk, cache, block[..n], c, 0)
      modifies this`disk, this`cache, this`writes
      ensures Sized() && InstallingTo(g, disk, cache, block[..n], c, n)
      ensures |writes| == |old(writes)| + n && old(writes) <= writes
      ensures AllRecover(g, writes, |old(writes)|, |writes|, c)
    {
      var tail := 0;
      while tail < n
        invariant 0 <= tail <= n && Sized()
        invariant InstallingTo(g, disk, cache, block[..n], c, tail)
        invariant |writes| == |old(writes)| + tail && old(writes) <= writes
        invariant AllRecover(g, writes, |old(writes)|, |writes|, c)
      {
        InstallBlock(c, tail);
        tail := tail + 1;
      }
    }

    /** The common end of commit and recovery: install_trans, an empty header in memory, write_head. */
    method InstallAndErase(ghost c: seq<Block>)
      requires Sized() && InstallingTo(g, disk, cache, block[..n], c, 0)
      modifies this`disk, this`cache, this`writes, this`n
      ensures Valid() && n == 0
      ensures forall b: nat {:trigger g.Home(b)} :: g.Home(b) ==> disk[b] == c[b]
      ensures old(writes) <= writes && AllRecover(g, writes, |old(writes)|, |writes|, c)
    {
      ghost var h := block[..n];
      InstallTrans(c);
      n := 0;
      assert block[..n] == [];
      ghost var d1, s1 := disk, cache;
      InstalledAll(g, d1, s1, h, c);
      ReadsHeader(g, d1, s1, []);
      EraseHarmless(g, d1, c);
      WriteHead();
    }

    /** The header goes to disk once the transaction is in the log. */
    method CommitHead(ghost c0: seq<Block>, ghost c: seq<Block>)
      requires Sized() && Copying(g, disk, cache, block[..n], c0, c, n)
      modifies this`disk, this`cache, this`writes
      ensures Sized() && InstallingTo(g, disk, cache, block[..n], c, 0)
      ensures writes == old(writes) + [disk] && RecoversTo(g, disk, c)
    {
      ghost var h, d1, s1 := block[..n], disk, cache;
      CopiedThenHead(g, d1, s1, h, c0, c, d1[g.start]);
      ReadsHeader(g, d1, s1, h);
      WriteHead();
    }

    /** The first half of commit: write_log, then the header. */
    method LogAndCommit(ghost c0: seq<Block>, ghost c: seq<Block>)
      requires Sized() && Copying(g, disk, cache, block[..n], c0, c, 0)
      modifies this`disk, this`cache, this`writes
      ensures Sized() && InstallingTo(g, disk, cache, block[..n], c, 0)
      ensures old(writes) <= writes && |writes| == |old(writes)| + n + 1
      ensures AllRecover(g, writes, |old(writes)|, |old(writes)| + n, c0) && RecoversTo(g, writes[|old(writes)| + n], c)
    {
      WriteLog(c0, c);
      CommitHead(c0, c);
    }

    /**
      Commit the transaction. A crash after any of the block writes leaves a disk that recovers to all of the
      old contents or to all of the new ones; the switch is the write of the header.
    */
    method Commit()
      requires Valid()
      modifies this`disk, this`cache, this`writes, this`n
      ensures Valid() && n == 0
      ensures forall b: nat {:trigger g.Home(b)} :: g.Home(b) ==> disk[b] == old(Seen(cache, disk, b))
      ensures old(writes) <= writes && (old(n) > 0 ==> |writes| > |old(writes)| + old(n))
      ensures old(n) > 0 ==> AllRecover(g, writes, |old(writes)|, |old(writes)| + old(n), old(disk))
      ensures old(n) > 0 ==> AllRecover(g, writes, |old(writes)| + old(n), |writes|, old(SeenAll(cache, disk)))
      ensures old(n) == 0 ==> writes == old(writes)
    {
      if n > 0 {
        ghost var c0, c := disk, SeenAll(cache, disk);
        CopyingStart(g, disk, cache, block[..n]);
        LogAndCommit(c0, c);
        InstallAndErase(c);
      } else {
        assert block[..n] == [];
      }
    }

    /** read_head: the header block into memory. */
    method ReadHead()
      requires g.Ok() && |disk| == g.dsize && block.Length == LOGSIZE && Clean(cache, disk, [])
      requires HeadOk(g, HeadOf(disk[g.start]))
      modifies this`n, this`cache, block
      ensures n <= block.Length && block[..n] == HeadOf(disk[g.start]) && Clean(cache, disk, [])
      ensures n == Spelled(disk[g.start], 0) && forall i: nat :: i < n ==> block[i] == Spelled(disk[g.start], 4 + 4 * i)
    {
      var buf := Bread(g.start);
      ghost var c1 := cache;
      n := Word(buf, 0);
      var i := 0;
      while i < n
        invariant 0 <= i <= n <= block.Length && n == |HeadOf(buf)| == Word(buf, 0) && cache == c1
        invariant block[..i] == HeadOf(buf)[..i]
      {
        EntryAt(buf, n, i);
        block[i] := Word(buf, 1 + i);
        i := i + 1;
      }
      WordIs(buf, 0);
      HeadReadFrom(buf);
      assert forall k: nat :: k < n ==> block[k] == block[..n][k];
    }

    /**
      recover_from_log: every home block ends up as recovery defines it and the header on disk is empty. A crash
      after any of the block writes leaves a disk that recovers to the same contents, so recovery may be cut
      short and restarted any number of times.
    */
    method RecoverFromLog()
      requires g.Ok() && |disk| == g.dsize && block.Length == LOGSIZE && Clean(cache, disk, [])
      requires HeadOk(g, HeadOf(disk[g.start]))
      modifies this`disk, this`cache, this`writes, this`n, block
      ensures Valid() && n == 0
      ensures forall b: nat {:trigger g.Home(b)} :: g.Home(b) ==> disk[b] == old(Recovered(g, disk, b))
      ensures old(writes) <= writes && AllRecover(g, writes, |old(writes)|, |writes|, RecoveredAll(g, old(disk)))
    {
      ReadHead();
      RecoveryStart(g, disk, cache, block[..n]);
      InstallAndErase(RecoveredAll(g, disk));
    }

    /** The last end_op of a group commits; end_op panics when called during a commit. */
    method EndOp() returns (r: Outcome)
      requires Valid() && outstanding >= 1
      modifies this`outstanding, this`committing, this`disk, this`cache, this`writes, this`n
      ensures r.Panic? <==> old(committing)
      ensures outstanding == old(outstanding) - 1 && old(writes) <= writes
      ensures r.Ok? ==> Valid() && !committing
      ensures r.Ok? && outstanding > 0 ==>
                n == old(n) && disk == old(disk) && cache == old(cache) && writes == old(writes)
      ensures r.Ok? && outstanding == 0 ==>
                n == 0 && forall b: nat {:trigger g.Home(b)} :: g.Home(b) ==> disk[b] == old(Seen(cache, disk, b))
    {
      outstanding := outstanding - 1;
      if committing {
        return Panic("log.committing");
      }
      if outstanding == 0 {
        committing := true;
        Commit();
        committing := false;
      }
      return Ok;
    }
  }
}
