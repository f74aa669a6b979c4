/** fs.c: balloc, bfree, bmap on a volume whose blocks and inodes are updated in place. */
module FsCode {
  import opened Blocks
  import opened FsTree
  import opened FsGrow
  import opened FsWalk
  import opened FsIo
  import opened FsCost
  import opened Param
  import opened FsTrunc
  import opened FsMap
  import opened FsRaw

  /** `Panic` is the kernel's panic(): nothing runs after it. */
  datatype Outcome<+T> = Done(value: T) | Panic(why: string)

  /**
    At most 4 data blocks, 4 address tables and 1 inode block, and `maps` bitmap blocks: so within MAXOPBLOCKS with one.
  */
  ghost predicate ChunkFits(sb: Super, l: set<nat>, maps: nat) {
    |NonBitmap(sb, l)| <= 9 && |l| <= 9 + maps && (maps <= 1 ==> |l| <= MAXOPBLOCKS)
  }

  ghost predicate AllFit(sb: Super, ops: seq<set<nat>>, maps: nat) {
    forall k :: 0 <= k < |ops| ==> ChunkFits(sb, ops[k], maps)
  }

  lemma AllFitMore(sb: Super, ops: seq<set<nat>>, l: set<nat>, maps: nat)
    requires AllFit(sb, ops, maps) && ChunkFits(sb, l, maps)
    ensures AllFit(sb, ops + [l], maps)
  {
  }

  /** 32-bit unsigned addition: the sum is below an operand exactly when it wrapped. */
  method Add32(a: U32, b: U32) returns (s: U32)
    ensures s == if a + b > U32_MAX then a + b - U32_MAX - 1 else a + b
    ensures s < a <==> a + b > U32_MAX
  {
    s := (a + b) % 0x1_0000_0000;
  }

  function Min(a: int, b: int): int { if a < b then a else b }

  class FileSystem {
    const sb: Super
    var disk: seq<Block>          // the logical disk, as bread returns it
    var inodes: seq<Inode>        // in-memory inodes, by inode number
    ghost var logged: set<nat>    // blocks passed to log_write by the current operation
    ghost var base: seq<Block>    // the disk at the start of that operation
    ghost var writes: seq<(nat, Block)> // its calls of log_write, in order, with the contents

    ghost function V(): Vol
      reads this
    {
      Vol(sb, disk, inodes)
    }

    constructor (v: Vol)
      ensures V() == v && logged == {} && Replays()
    {
      sb, disk, inodes, logged := v.sb, v.d, v.ins, {};
      base, writes := v.d, [];
    }

    /** The disk changes by log_write only. */
    ghost predicate Replays()
      reads this
    {
      disk == Replay(base, writes)
    }

    method LogWrite(b: nat, blk: Block)
      requires b < |disk| && Replays()
      modifies this`disk, this`logged, this`writes
      ensures disk == old(disk)[b := blk] && logged == old(logged) + {b}
      ensures Replays() && writes == old(writes) + [(b, blk)]
    {
      disk := disk[b := blk];
      logged := logged + {b};
      ReplayOne(base, writes, b, blk);
      writes := writes + [(b, blk)];
    }

    /** Mark f in use and zero it. */
    method MarkAndZero(f: nat)
      requires V().Shape() && f < sb.size
      requires Replays()
      modifies this`disk, this`logged, this`writes
      ensures Replays()
      ensures disk == AllocDisk(sb, old(disk), f) && logged == old(logged) + {BBlock(sb, f), f}
    {
      LogWrite(BBlock(sb, f), PutBlockBit(disk[BBlock(sb, f)], f % BPB, true));
      LogWrite(f, ZeroBlock());
    }

    /** First-fit: the lowest free block, marked in use and zeroed. */
    method Balloc() returns (r: Outcome<nat>)
      requires V().Shape()
      requires Replays()
      modifies this`disk, this`logged, this`writes
      ensures Replays()
      ensures r.Panic? <==> old(Full(V()))
      ensures r.Panic? ==> r.why == "balloc: out of blocks" && disk == old(disk) && logged == old(logged)
      ensures r.Done? ==> r.value < sb.size && !old(Used(V(), r.value))
      ensures r.Done? ==> forall b: nat :: b < r.value ==> old(Used(V(), b))
      ensures r.Done? ==> disk == AllocDisk(sb, old(disk), r.value)
      ensures r.Done? ==> logged == old(logged) + {BBlock(sb, r.value), r.value}
      ensures r.Done? && sb.size - sb.nblocks <= r.value ==> TakenRaw(old(disk), disk, sb.bmapstart, r.value)
    {
      ghost var v0 := V();
      var b := 0;
      while b < sb.size
        invariant Replays()
        invariant b % BPB == 0
        invariant forall x: nat :: x < b && x < sb.size ==> Used(v0, x)
        invariant V() == v0 && logged == old(logged)
      {
        var bp := disk[BBlock(sb, b)];
        var bi := 0;
        while bi < BPB && b + bi < sb.size
          invariant Replays()
          invariant bi <= BPB
          invariant forall x: nat :: x < b + bi && x < sb.size ==> Used(v0, x)
          invariant V() == v0 && logged == old(logged)
        {
          var f := b + bi;
          BitOfGroup(sb, b, bi, f);
          assert Used(v0, f) == BlockBit(bp, bi);
          if !BlockBit(bp, bi) {
            if sb.size - sb.nblocks <= f {
              TakesRaw(v0, f);
            }
            MarkAndZero(f);
            return Done(f);
          }
          bi := bi + 1;
        }
        b := b + BPB;
      }
      return Panic("balloc: out of blocks");
    }

    /** Clears exactly the bit of b; panics exactly when it is clear already. */
    method Bfree(b: nat) returns (r: Outcome<()>)
      requires V().Shape() && b < sb.size
      requires Replays()
      modifies this`disk, this`logged, this`writes
      ensures Replays()
      ensures r.Panic? <==> !old(Used(V(), b))
      ensures r.Panic? ==> r.why == "freeing free block" && disk == old(disk) && logged == old(logged)
      ensures r.Done? ==> disk == old(disk)[BBlock(sb, b) := PutBlockBit(old(disk)[BBlock(sb, b)], b % BPB, false)]
      ensures r.Done? ==> logged == old(logged) + {BBlock(sb, b)}
      ensures r.Done? ==> FreedRaw(old(disk), disk, sb.bmapstart, b)
    {
      ghost var v0 := V();
      var bp := disk[BBlock(sb, b)];
      if !BlockBit(bp, b % BPB) {
        return Panic("freeing free block");
      }
      FreesRaw(v0, b);
      LogWrite(BBlock(sb, b), PutBlockBit(bp, b % BPB, false));
      return Done(());
    }

    /** An address of the inode, set to a new block when it is zero. */
    method RootSlot(i: nat, s: nat) returns (r: Outcome<nat>)
      requires TreeInv(V()) && i < |inodes| && s < NDIRECT + 3
      requires Replays()
      modifies this
      ensures Replays() && base == old(base)
      ensures r.Panic? ==> r.why == "balloc: out of blocks" && Full(V()) && old(Addr(V(), Slot(i, s))) == 0
      ensures r.Done? ==> Reached(old(V()), V(), old(logged), logged, Slot(i, s)) && r.value == Addr(V(), Slot(i, s))
    {
      ghost var v0, p := V(), Slot(i, s);
      var a := inodes[i].addrs[s];
      if a != 0 {
        ReachedSelf(v0, logged, p);
        return Done(a);
      }
      r := Balloc();
      if r.Done? {
        inodes := inodes[i := inodes[i].(addrs := inodes[i].addrs[s := r.value])];
        assert CanGrow(v0, p, r.value);
        assert V() == GrowVol(v0, p, r.value);
        GrowReaches(v0, p, r.value, old(logged), logged);
      }
    }

    /** An entry of the table in block a, set to a new block, and the table logged, when it is zero. */
    method TableSlot(ghost p: Path, a: nat, j: nat) returns (r: Outcome<nat>)
      requires TreeInv(V()) && p.Child? && p.j == j < NINDIRECT && p.parent.Depth() < Level(p.SlotNo())
      requires p.Inum() < |inodes| && p.SlotNo() < NDIRECT + 3
      requires a == Addr(V(), p.parent) != 0
      requires Replays()
      modifies this
      ensures Replays() && base == old(base)
      ensures r.Panic? ==> r.why == "balloc: out of blocks" && Full(V()) && old(Addr(V(), p)) == 0
      ensures r.Done? ==> Reached(old(V()), V(), old(logged), logged, p) && r.value == Addr(V(), p)
      ensures r.Done? && old(Addr(V(), p)) != 0 ==> V() == old(V()) && logged == old(logged)
      ensures r.Done? && old(Addr(V(), p)) == 0 ==> logged == old(logged) + {BBlock(sb, r.value), r.value, a}
      ensures r.Done? ==> r.value == RawEntry(disk, a, j)
    {
      ghost var v0 := V();
      AddrChild(v0, p);
      EntryIsRaw(v0, a, j);
      var x := Word(disk[a], j);
      if x != 0 {
        ReachedSelf(v0, logged, p);
        return Done(x);
      }
      r := Balloc();
      if r.Done? {
        FreshIsData(v0, r.value);
        LogWrite(a, PutWord(disk[a], j, r.value));
        assert CanGrow(v0, p, r.value);
        assert V() == GrowVol(v0, p, r.value);
        GrowReaches(v0, p, r.value, old(logged), logged);
        WordIs(disk[a], j);
      }
    }

    /** TableSlot as one level of bmap's walk that started in state v with the blocks l logged. */
    method Descend(ghost v: Vol, ghost l: set<nat>, ghost q: Path, a: nat, j: nat) returns (r: Outcome<nat>)
      requires Reached(v, V(), l, logged, q) && q.Depth() < Level(q.SlotNo())
      requires q.SlotNo() < NDIRECT + 3 && j < NINDIRECT
      requires a == Addr(V(), q)
      requires Replays()
      modifies this
      ensures Replays() && base == old(base)
      ensures r.Panic? ==> r.why == "balloc: out of blocks" && Full(V()) && Addr(v, Child(q, j)) == 0
      ensures r.Done? ==> Reached(v, V(), l, logged, Child(q, j)) && r.value == Addr(V(), Child(q, j))
    {
      ghost var v1, l1 := V(), logged;
      r := TableSlot(Child(q, j), a, j);
      if r.Done? {
        StepDown(v, v1, V(), l, l1, logged, Child(q, j));
      }
    }

    /** bmap's single indirect branch. */
    method BmapSingle(i: nat, bn: nat, b1: nat) returns (r: Outcome<nat>)
      requires TreeInv(V()) && i < |inodes| && b1 == bn - NDIRECT && b1 < NINDIRECT
      requires Replays()
      modifies this
      ensures Replays() && base == old(base)
      ensures r.Panic? ==> r.why == "balloc: out of blocks" && Full(V()) && old(Addr(V(), NodeOf(i, bn))) == 0
      ensures r.Done? ==>
                Reached(old(V()), V(), old(logged), logged, NodeOf(i, bn)) && r.value == Addr(V(), NodeOf(i, bn))
    {
      ghost var v, l := V(), logged;
      Spell1(i, bn);
      r := RootSlot(i, NDIRECT);
      if r.Panic? { return; }
      r := Descend(v, l, Slot(i, NDIRECT), r.value, b1);
    }

    /** bmap's double indirect branch. */
    method BmapDouble(i: nat, bn: nat, b2: nat) returns (r: Outcome<nat>)
      requires TreeInv(V()) && i < |inodes| && b2 == bn - NDIRECT - NINDIRECT && b2 < NINDIRECT * NINDIRECT
      requires Replays()
      modifies this
      ensures Replays() && base == old(base)
      ensures r.Panic? ==> r.why == "balloc: out of blocks" && Full(V()) && old(Addr(V(), NodeOf(i, bn))) == 0
      ensures r.Done? ==>
                Reached(old(V()), V(), old(logged), logged, NodeOf(i, bn)) && r.value == Addr(V(), NodeOf(i, bn))
    {
      ghost var v, l := V(), logged;
      Spell2(i, bn, b2);
      ghost var p1 := Slot(i, NDIRECT + 1);
      AddrChild(v, NodeOf(i, bn));
      r := RootSlot(i, NDIRECT + 1);
      if r.Panic? { return; }
      r := Descend(v, l, p1, r.value, b2 / NINDIRECT);
      if r.Panic? { return; }
      r := Descend(v, l, Child(p1, b2 / NINDIRECT), r.value, b2 % NINDIRECT);
    }

    /** bmap's triple indirect branch. */
    method BmapTriple(i: nat, bn: nat, b3: nat) returns (r: Outcome<nat>)
      requires TreeInv(V()) && i < |inodes| && b3 == bn - NDIRECT - NINDIRECT - NINDIRECT * NINDIRECT && bn < MAXFILE
      requires Replays()
      modifies this
      ensures Replays() && base == old(base)
      ensures r.Panic? ==> r.why == "balloc: out of blocks" && Full(V()) && old(Addr(V(), NodeOf(i, bn))) == 0
      ensures r.Done? ==>
                Reached(old(V()), V(), old(logged), logged, NodeOf(i, bn)) && r.value == Addr(V(), NodeOf(i, bn))
    {
      ghost var v, l := V(), logged;
      var i1: nat := b3 / (NINDIRECT * NINDIRECT);
      var cn: int := b3 - NINDIRECT * NINDIRECT * (b3 / (NINDIRECT * NINDIRECT));
      Spell3(i, bn, b3, cn);
      ghost var p1 := Slot(i, NDIRECT + 2);
      AddrChild(v, NodeOf(i, bn));
      AddrChild(v, NodeOf(i, bn).parent);
      r := RootSlot(i, NDIRECT + 2);
      if r.Panic? { return; }
      r := Descend(v, l, p1, r.value, i1);
      if r.Panic? { return; }
      r := Descend(v, l, Child(p1, i1), r.value, cn / NINDIRECT);
      if r.Panic? { return; }
      r := Descend(v, l, Child(Child(p1, i1), cn / NINDIRECT), r.value, cn % NINDIRECT);
    }

    /** The disk block of file block bn, allocated with every table above it when absent. */
    /** bmap's four branches. */
    method BmapWalk(i: nat, bn: nat) returns (r: Outcome<nat>)
      requires TreeInv(V()) && i < |inodes|
      requires Replays()
      modifies this
      ensures Replays() && base == old(base)
      ensures bn >= MAXFILE ==> r == Panic("bmap: out of range") && V() == old(V()) && logged == old(logged)
      ensures bn < MAXFILE && r.Panic? ==>
                r.why == "balloc: out of blocks" && Full(V()) && old(Addr(V(), NodeOf(i, bn))) == 0
      ensures r.Done? ==> bn < MAXFILE && Reached(old(V()), V(), old(logged), logged, NodeOf(i, bn))
      ensures r.Done? ==> r.value == Addr(V(), NodeOf(i, bn))
    {
      if bn < NDIRECT {
        r := RootSlot(i, bn);
        return;
      }
      var b1 := bn - NDIRECT;
      if b1 < NINDIRECT {
        r := BmapSingle(i, bn, b1);
        return;
      }
      var b2 := b1 - NINDIRECT;
      if b2 < NINDIRECT * NINDIRECT {
        r := BmapDouble(i, bn, b2);
        return;
      }
      var b3 := b2 - NINDIRECT * NINDIRECT;
      if b3 < NINDIRECT * NINDIRECT * NINDIRECT {
        r := BmapTriple(i, bn, b3);
        return;
      }
      r := Panic("bmap: out of range");
    }

    /** bmap: the block that the addresses of the inode and the bytes of its tables name, made if absent. */
    method Bmap(i: nat, bn: nat) returns (r: Outcome<nat>)
      requires TreeInv(V()) && i < |inodes|
      requires Replays()
      modifies this
      ensures Replays() && base == old(base)
      ensures bn >= MAXFILE ==> r == Panic("bmap: out of range") && V() == old(V()) && logged == old(logged)
      ensures bn < MAXFILE && r.Panic? ==>
                r.why == "balloc: out of blocks" && Full(V()) && old(Addr(V(), NodeOf(i, bn))) == 0
      ensures r.Done? ==> bn < MAXFILE && Reached(old(V()), V(), old(logged), logged, NodeOf(i, bn))
      ensures r.Done? ==> r.value == Addr(V(), NodeOf(i, bn))
      ensures r.Done? ==> i < |inodes| && r.value == RawBlock(disk, inodes[i].addrs, bn)
    {
      r := BmapWalk(i, bn);
      if r.Done? {
        FileBlockIsRaw(V(), i, bn);
      }
    }

    /** Copy the in-memory inode to its slot of its inode block. */
    method Iupdate(i: nat)
      requires V().Shape() && i < |inodes|
      requires Replays()
      modifies this`disk, this`logged, this`writes
      ensures Replays()
      ensures V() == IupdateVol(old(V()), i)
      ensures logged == old(logged) + {IBlock(sb, i)}
      ensures InodeWritten(old(disk), disk, sb.inodestart, i, inodes[i])
    {
      IupdateBytes(V(), i);
      LogWrite(IBlock(sb, i), Splice(disk[IBlock(sb, i)], 64 * (i % IPB), EncodeInode(inodes[i])));
    }

    /** One pass of readi's loop: m bytes at x, all from one block. */
    method ReadPiece(ghost v0: Vol, i: nat, x: nat, m: nat) returns (r: Outcome<seq<Byte>>)
      requires Reading(v0, V(), i) && x < v0.ins[i].size <= MAXFILE * BSIZE && x % BSIZE + m <= BSIZE
      requires Replays()
      modifies this
      ensures Replays() && base == old(base)
      ensures r.Panic? ==> r.why == "balloc: out of blocks" && Full(V()) && !NoHoles(v0, i)
      ensures r.Done? ==> Reading(v0, V(), i) && |r.value| == m && IsSlice(v0, i, x, r.value)
      ensures NoHoles(v0, i) ==> logged == old(logged)
    {
      ghost var v, l := V(), logged;
      var a := Bmap(i, x / BSIZE);
      assert NoHoles(v0, i) ==> Mapped(v0, i, x / BSIZE);
      if a.Panic? {
        return Panic(a.why);
      }
      ReadingStep(v0, v, V(), l, logged, i, x);
      PieceIsSlice(v0, V(), i, x, m, a.value);
      return Done(disk[a.value][x % BSIZE..x % BSIZE + m]);
    }

    /** Read n bytes at off: the bytes of the file, cut at its end. A hole-free file is not changed. */
    method Readi(i: nat, off: U32, n: U32) returns (r: Outcome<int>, dst: seq<Byte>)
      requires TreeInv(V()) && i < |inodes| && inodes[i].size <= MAXFILE * BSIZE
      requires Replays()
      modifies this
      ensures Replays() && base == old(base)
      ensures r.Panic? ==> r.why == "balloc: out of blocks" && Full(V())
      ensures r.Done? ==> (r.value == -1 <==> off > old(inodes[i].size) || off + n > U32_MAX)
      ensures r.Done? && r.value != -1 ==>
                r.value == |dst| == Min(n, old(inodes[i].size) - off) && IsSlice(old(V()), i, off, dst)
      ensures r.Done? ==> Reading(old(V()), V(), i)
      ensures old(NoHoles(V(), i)) ==> r.Done? && logged == old(logged)
      ensures r.Done? && r.value != -1 ==> i < |inodes| && RawSlice(disk, inodes[i].addrs, off, dst)
    {
      ghost var v0 := V();
      EvolvesSelf(v0, i);
      dst := [];
      var end := Add32(off, n);
      if off > inodes[i].size || end < off {
        return Done(-1), dst;
      }
      var count: int := n;
      if end > inodes[i].size {
        count := inodes[i].size - off;
      }
      var tot := 0;
      while tot < count
        invariant Replays() && base == old(base)
        invariant 0 <= tot <= count && off + count <= v0.ins[i].size
        invariant Reading(v0, V(), i)
        invariant |dst| == tot && IsSlice(v0, i, off, dst)
        invariant NoHoles(v0, i) ==> logged == old(logged)
      {
        var x := off + tot;
        var m := Min(count - tot, BSIZE - x % BSIZE);
        var piece := ReadPiece(v0, i, x, m);
        if piece.Panic? {
          return Panic(piece.why), dst;
        }
        SliceAppend(v0, i, off, dst, x, piece.value);
        dst := dst + piece.value;
        tot := tot + m;
      }
      ReadIsRaw(v0, V(), i, off, dst);
      return Done(count), dst;
    }

    /** One pass of writei's loop: the bytes of src from tot to end, all into one block. */
    method WritePiece(ghost v0: Vol, ghost l0: set<nat>, i: nat, off: nat, tot: nat, end: nat, src: seq<Byte>)
      returns (r: Outcome<()>)
      requires Passed(v0, V(), l0, logged, i, off, tot, src)
      requires tot < end <= |src| && (off + tot) % BSIZE + (end - tot) <= BSIZE
      requires Replays()
      modifies this
      ensures Replays() && base == old(base)
      ensures r.Panic? ==> r.why == "balloc: out of blocks" && Full(V()) && !RangeMapped(v0, i, off, |src|)
      ensures r.Done? ==> Passed(v0, V(), l0, logged, i, off, end, src)
    {
      ghost var v, l := V(), logged;
      var bn, x := (off + tot) / BSIZE, (off + tot) % BSIZE;
      var a := Bmap(i, bn);
      if a.Panic? {
        RangeStep(v0, i, off, tot, end, bn);
        RangeLess(v0, i, off, end, |src|);
        return Panic(a.why);
      }
      ghost var v1, l1 := V(), logged;
      ghost var blk := Splice(disk[a.value], x, src[tot..end]);
      LogWrite(a.value, Splice(disk[a.value], x, src[tot..end]));
      WritingStep(v0, v, v1, V(), l, l1, i, off, tot, end, bn, src);
      LogsPiece(v0, v, v1, V(), blk, l0, l, l1, logged, i, off, tot, end, bn);
      return Done(());
    }

    /** writei's loop over the blocks of [off, off + |src|). */
    method WriteBlocks(i: nat, src: seq<Byte>, off: nat) returns (r: Outcome<()>)
      requires TreeInv(V()) && i < |inodes| && off + |src| <= MAXFILE * BSIZE
      requires Replays()
      modifies this
      ensures Replays() && base == old(base)
      ensures r.Panic? ==> r.why == "balloc: out of blocks" && Full(V()) && !old(RangeMapped(V(), i, off, |src|))
      ensures r.Done? ==> Passed(old(V()), V(), old(logged), logged, i, off, |src|, src)
    {
      ghost var v0, l0 := V(), logged;
      PassedStart(v0, l0, i, off, src);
      var tot := 0;
      while tot < |src|
        invariant Replays() && base == old(base)
        invariant 0 <= tot <= |src|
        invariant Passed(v0, V(), l0, logged, i, off, tot, src)
      {
        var m := Min(|src| - tot, BSIZE - (off + tot) % BSIZE);
        var end := tot + m;
        r := WritePiece(v0, l0, i, off, tot, end, src);
        if r.Panic? {
          return;
        }
        tot := end;
      }
      assert tot == |src|;
      return Done(());
    }

    /** writei's tail: a write past the end moves the end and writes the inode through. */
    method UpdateSize(ghost v0: Vol, i: nat, src: seq<Byte>, off: nat, end: U32)
      requires Writing(v0, V(), i, off, |src|, src) && off <= v0.ins[i].size && end == off + |src|
      requires Replays()
      modifies this
      ensures Replays() && base == old(base)
      ensures Wrote(v0, V(), i, off, src)
      ensures SameTrees(old(V()), V()) && logged == old(logged) + InodeLog(v0, i, off, |src|)
    {
      ghost var v1 := V();
      if |src| > 0 && end > inodes[i].size {
        inodes := inodes[i := inodes[i].(size := end)];
        assert V() == Resized(v1, i, end);
        Iupdate(i);
        WroteEnd(v0, v1, V(), i, off, src, end);
      } else {
        WroteInside(v0, v1, i, off, src);
      }
    }

    /**
      Write src at off: the file becomes the old bytes with src spliced in and its size the larger
      of the old size and the end of the write. -1, with nothing changed, exactly when the range is bad.
    */
    method Writei(i: nat, src: seq<Byte>, off: U32) returns (r: Outcome<int>)
      requires TreeInv(V()) && i < |inodes| && |src| <= U32_MAX
      requires Replays()
      modifies this
      ensures Replays() && base == old(base)
      ensures r.Panic? ==> r.why == "balloc: out of blocks" && Full(V())
      ensures r.Done? ==> r.value == -1 || r.value == |src|
      ensures r == Done(-1) <==> off > old(inodes[i].size) || off + |src| > MAXFILE * BSIZE
      ensures r == Done(-1) ==> V() == old(V()) && logged == old(logged)
      ensures r == Done(|src|) ==> Wrote(old(V()), V(), i, off, src)
      ensures old(NoHoles(V(), i)) && off + |src| <= old(inodes[i].size) ==> r.Done?
      ensures r == Done(|src|) ==>
                Logs(old(V()), V(), old(logged) + InodeLog(old(V()), i, off, |src|), logged, i, off, |src|)
      ensures r == Done(|src|) ==> i < |inodes| && RawSlice(disk, inodes[i].addrs, off, src)
    {
      ghost var v0, l0 := V(), logged;
      var end := Add32(off, |src|);
      if off > inodes[i].size || end < off {
        return Done(-1);
      }
      if end > MAXFILE * BSIZE {
        return Done(-1);
      }
      if off + |src| <= inodes[i].size && NoHoles(v0, i) {
        InsideMapped(v0, i, off, |src|);
      }
      var w := WriteBlocks(i, src, off);
      if w.Panic? {
        return Panic(w.why);
      }
      ghost var v1, l1, inode := V(), logged, InodeLog(v0, i, off, |src|);
      UpdateSize(v0, i, src, off, end);
      SameTreesKeep(v1, V());
      LogsSame(v0, v1, V(), l0, l1, i, off, |src|, inode, l0 + inode, logged);
      WriteIsRaw(v0, V(), i, off, src);
      return Done(|src|);
    }

    /** One chunk of filewrite: begin_op, writei, end_op. The number of blocks it logs is known before. */
    method WriteChunk(i: nat, src: seq<Byte>, off: U32) returns (r: Outcome<int>)
      requires TreeInv(V()) && i < |inodes| && |src| <= 3 * BSIZE
      requires Replays()
      modifies this
      ensures Replays()
      ensures r.Panic? ==> r.why == "balloc: out of blocks" && Full(V())
      ensures r.Done? ==> r.value == -1 || r.value == |src|
      ensures r == Done(-1) <==> off > old(inodes[i].size) || off + |src| > MAXFILE * BSIZE
      ensures r == Done(-1) ==> V() == old(V()) && logged == {}
      ensures r == Done(|src|) ==> Wrote(old(V()), V(), i, off, src) && Grew(old(V()), V(), i, off, |src|)
      ensures r == Done(|src|) ==> |NonBitmap(sb, logged)| == old(FileCost(V(), i, off, |src|))
      ensures r == Done(|src|) ==> |logged| == old(FileCost(V(), i, off, |src|) + BitmapCost(V(), i, off, |src|))
      ensures r == Done(|src|) && old(NoHoles(V(), i)) ==> old(FileCost(V(), i, off, |src|)) <= 9
      ensures r == Done(|src|) && old(FsInv(V())) ==> IsCall(sb, old(disk), writes)
    {
      ghost var v0 := V();
      logged, base, writes := {}, disk, [];
      r := Writei(i, src, off);
      if r == Done(|src|) {
        assert {} + InodeLog(v0, i, off, |src|) == InodeLog(v0, i, off, |src|);
        CostIs(v0, V(), logged, i, off, src);
        if FsInv(v0) {
          WriteIsCall(v0, V(), i, off, src, writes);
        }
        if NoHoles(v0, i) {
          SmallCost(v0, i, off, |src|);
        }
      }
    }

    /** One turn of filewrite's loop, for bytes j to k of n, after the chunks that took v0 to this state. */
    method NextChunk(i: nat, addr: seq<Byte>, j: nat, k: nat, off: nat, ghost v0: Vol, ghost n: nat)
      returns (w: Outcome<int>)
      requires TreeInv(V()) && i < |inodes| && i < |v0.ins| && TreeInv(v0)
      requires j < k <= j + 3 * BSIZE && k <= |addr| && k <= n && off + j <= U32_MAX
      requires Chunked(v0, V(), i, off, addr[..j])
      requires Replays()
      modifies this
      ensures Replays()
      ensures w.Panic? ==> w.why == "balloc: out of blocks" && Full(V())
      ensures w.Done? ==> w.value == -1 || w.value == k - j
      ensures w == Done(-1) <==> off + j > old(inodes[i].size) || off + k > MAXFILE * BSIZE
      ensures w == Done(-1) ==> V() == old(V())
      ensures w.Done? && w.value >= 0 ==> |inodes| == |v0.ins| && TreeInv(V()) && Chunked(v0, V(), i, off, addr[..k])
      ensures w.Done? && w.value >= 0 ==>
                off <= v0.ins[i].size && off + k <= inodes[i].size && off + k <= MAXFILE * BSIZE
      ensures w.Done? && NoHoles(v0, i) ==> ChunkFits(sb, logged, BitmapCost(v0, i, off, n))
    {
      ghost var v, s := V(), addr[..j];
      var at: U32, src := off + j, addr[j..k];
      Slices(addr, j, k);
      w := WriteChunk(i, src, at);
      if w == Done(|src|) {
        ChunkedStep(v0, v, V(), i, off, s, at, src, addr[..k]);
        ChunkedBitmaps(v0, v, V(), i, off, s, at, src, n);
      }
    }

    /**
      Write n bytes of addr at offset off in chunks small enough for the log; off' is the new file offset.
      Each chunk is one transaction; ops lists the blocks each of them logged. They fit the log when the blocks the
      whole write takes are recorded in one bitmap block.
    */
    method Filewrite(i: nat, addr: seq<Byte>, n: int, off: U32)
      returns (r: Outcome<int>, off': U32, ghost ops: seq<set<nat>>)
      requires TreeInv(V()) && i < |inodes| && n <= |addr| <= U32_MAX
      requires Replays()
      modifies this
      ensures Replays()
      ensures r.Panic? ==> r.why == "balloc: out of blocks" && Full(V())
      ensures r.Done? ==>
                r.value == if n == 0 || (n > 0 && off <= old(inodes[i].size) && off + n <= MAXFILE * BSIZE) then n
                           else -1
      ensures r.Done? ==> off <= off' <= off + |addr| && Progress(old(V()), V(), i, off, addr[..off' - off])
      ensures r.Done? && r.value >= 0 ==> off' == off + n
      ensures n <= 0 ==> ops == []
      ensures r.Done? && n > 0 && old(NoHoles(V(), i)) ==> AllFit(sb, ops, old(BitmapCost(V(), i, off, n)))
    {
      ghost var v0 := V();
      off', ops := off, [];
      ChunkedStart(v0, i, off);
      var max := (MAXOPBLOCKS - 1 - 1 - 2) / 2 * 512;
      var j := 0;
      while j < n
        invariant Replays()
        invariant 0 <= j <= |addr| && (j > 0 ==> j <= n && off <= v0.ins[i].size && off + j <= MAXFILE * BSIZE)
        invariant Chunked(v0, V(), i, off, addr[..j])
        invariant off' == off + j && (n <= 0 ==> ops == [])
        invariant n > 0 && NoHoles(v0, i) ==> AllFit(sb, ops, BitmapCost(v0, i, off, n))
      {
        var n1 := Min(n - j, max);
        var k := j + n1;
        var w := NextChunk(i, addr, j, k, off, v0, n);
        if w.Panic? {
          return Panic(w.why), off', ops;
        }
        if NoHoles(v0, i) {
          AllFitMore(sb, ops, logged, BitmapCost(v0, i, off, n));
        }
        ops := ops + [logged];
        if w.value < 0 {
          break;
        }
        off' := off' + n1;
        j := k;
      }
      assert off' - off == j;
      return Done(if j == n then n else -1), off', ops;
    }

    /** The block of node c itself, after what hangs off it; v and l are as before both. */
    method FreeRoot(ghost v0: Vol, ghost v: Vol, ghost l: set<nat>, ghost c: Path, a: nat)
      requires TreeInv(v0) && TablesIntact(v0, V()) && a == Addr(v0, c) != 0 && AllUsed(v0, v, c)
      requires FreedFirst(v0, v, V(), c, NINDIRECT) && LogsFreed(v, V(), l, logged)
      requires Replays()
      modifies this`disk, this`logged, this`writes
      ensures Replays()
      ensures TablesIntact(v0, V()) && FreedAll(v0, v, V(), c) && LogsFreed(v, V(), l, logged)
    {
      ghost var v2, l2 := V(), logged;
      FreeOne(v0, v2, a);
      RootLast(v0, v, v2, FreeVol(v2, a), c);
      var _ := Bfree(a);
      assert V() == FreeVol(v2, a);
      LogsFreedOne(v2, a, V(), l2, logged);
      LogsFreedTrans(v, v2, V(), l, l2, logged);
    }

    /** itrunc's loops below one table: free every subtree hanging off the table in block a, bottom up. */
    method FreeChildren(ghost v0: Vol, ghost p: Path, a: nat, levels: nat) returns (r: Outcome<()>)
      requires TreeInv(v0) && TablesIntact(v0, V()) && a == Addr(v0, p) != 0
      requires levels >= 1 && p.Depth() + levels == Level(p.SlotNo())
      requires forall b: nat :: b < sb.size && WithinFirst(v0, p, NINDIRECT, b) ==> Used(V(), b)
      requires Replays()
      modifies this`disk, this`logged, this`writes
      ensures Replays()
      ensures r.Done? && TablesIntact(v0, V()) && FreedFirst(v0, old(V()), V(), p, NINDIRECT)
      ensures LogsFreed(old(V()), V(), old(logged), logged)
      decreases levels
    {
      ghost var v1, l1 := V(), logged;
      LogsFreedSelf(v1, l1);
      var j := 0;
      while j < NINDIRECT
        invariant Replays()
        invariant 0 <= j <= NINDIRECT
        invariant TablesIntact(v0, V()) && FreedFirst(v0, v1, V(), p, j)
        invariant LogsFreed(v1, V(), l1, logged)
      {
        ghost var v, l, c := V(), logged, Child(p, j);
        LogsFreedSelf(v, l);
        AddrChild(v0, c);
        ChildStillUsed(v0, v1, v, p, j);
        var x := Word(disk[a], j);
        if x != 0 {
          if levels > 1 {
            AllUsedBelow(v0, v, c);
            r := FreeChildren(v0, c, x, levels - 1);
          } else {
            LeafHasNoChildren(v0, v, c);
          }
          FreeRoot(v0, v, l, c, x);
        } else {
          SkipAbsent(v0, v, c);
        }
        NextChild(v0, v1, v, V(), p, j);
        LogsFreedTrans(v1, v, V(), l1, l, logged);
        j := j + 1;
      }
      r := Done(());
    }

    /** Free the tree under slot s of inode i and clear the slot. */
    method FreeSlot(ghost v0: Vol, i: nat, s: nat) returns (r: Outcome<()>)
      requires Truncated(v0, V(), i, s) && s < NDIRECT + 3
      requires Replays()
      modifies this
      ensures Replays() && base == old(base)
      ensures r.Done? && Truncated(v0, V(), i, s + 1) && LogsFreed(old(V()), V(), old(logged), logged)
    {
      ghost var v, l, c := V(), logged, Slot(i, s);
      LogsFreedSelf(v, l);
      AddrSlot(v0, i, s);
      SlotStillUsed(v0, v, i, s);
      var a := inodes[i].addrs[s];
      if a != 0 {
        if s >= NDIRECT {
          AllUsedBelow(v0, v, c);
          r := FreeChildren(v0, c, a, Level(s));
        } else {
          LeafHasNoChildren(v0, v, c);
        }
        FreeRoot(v0, v, l, c, a);
        ghost var v3 := V();
        inodes := inodes[i := inodes[i].(addrs := inodes[i].addrs[s := 0])];
        LogsFreedSame(v, v3, V(), l, logged, {});
      } else {
        SkipAbsent(v0, v, c);
        assert inodes[i].addrs[s := 0] == inodes[i].addrs;
      }
      TruncSlot(v0, v, V(), i, s);
      r := Done(());
    }

    /** FreeSlot as one step of itrunc, which started in state v0 with the blocks l0 logged. */
    method NextSlot(ghost v0: Vol, ghost l0: set<nat>, i: nat, s: nat) returns (r: Outcome<()>)
      requires Truncated(v0, V(), i, s) && s < NDIRECT + 3 && LogsFreed(v0, V(), l0, logged)
      requires Replays()
      modifies this
      ensures Replays() && base == old(base)
      ensures r.Done? && Truncated(v0, V(), i, s + 1) && LogsFreed(v0, V(), l0, logged)
    {
      ghost var v, l := V(), logged;
      r := FreeSlot(v0, i, s);
      LogsFreedTrans(v0, v, V(), l0, l, logged);
    }

    /** itrunc's tail: the size becomes zero and the inode is written through. */
    method ClearSize(ghost v0: Vol, ghost l0: set<nat>, i: nat)
      requires Truncated(v0, V(), i, NDIRECT + 3) && LogsFreed(v0, V(), l0, logged)
      requires Replays()
      modifies this
      ensures Replays() && base == old(base)
      ensures Trunced(v0, V(), i) && logged == l0 + {IBlock(sb, i)} + TreeBitmaps(v0, i)
    {
      ghost var v, l := V(), logged;
      inodes := inodes[i := inodes[i].(size := 0)];
      Iupdate(i);
      TruncDone(v0, v, V(), i);
      LogsFreedSame(v0, v, V(), l0, l, {IBlock(sb, i)});
      TruncLog(v0, V(), i, l0, logged, {IBlock(sb, i)});
    }

    /** Discard the contents of inode i; no call of bfree meets a free block. */
    method Itrunc(i: nat) returns (r: Outcome<()>)
      requires TreeInv(V()) && i < |inodes|
      requires Replays()
      modifies this
      ensures Replays()
      ensures r.Done? && Trunced(old(V()), V(), i)
      ensures logged == old(logged) + {IBlock(sb, i)} + old(TreeBitmaps(V(), i))
      ensures old(FsInv(V())) ==> IsCall(sb, old(disk), writes)
    {
      ghost var v0, l0 := V(), logged;
      base, writes := disk, [];
      TruncStart(v0, i);
      LogsFreedSelf(v0, l0);
      var s := 0;
      while s < NDIRECT
        invariant Replays() && base == v0.d
        invariant 0 <= s <= NDIRECT && Truncated(v0, V(), i, s) && LogsFreed(v0, V(), l0, logged)
      {
        r := NextSlot(v0, l0, i, s);
        s := s + 1;
      }
      r := NextSlot(v0, l0, i, NDIRECT);
      r := NextSlot(v0, l0, i, NDIRECT + 1);
      r := NextSlot(v0, l0, i, NDIRECT + 2);
      ClearSize(v0, l0, i);
      if FsInv(v0) {
        TruncIsCall(v0, V(), i, writes);
      }
      r := Done(());
    }
  }
}
