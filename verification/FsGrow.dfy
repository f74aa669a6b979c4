/** How a volume changes when a block is added to a tree and when a data block is overwritten. */
module FsGrow {
  import opened Blocks
  import opened FsTree
  import opened FsIndex

  /** Byte k of the file of inode i; a hole reads as zero. */
  function FileByte(v: Vol, i: nat, k: nat): Byte {
    var a := Addr(v, NodeOf(i, k / BSIZE));
    if a == 0 || a >= |v.d| then 0 else v.d[a][k % BSIZE]
  }

  // ---- adding one block ----

  ghost predicate CanGrow(v: Vol, p: Path, f: nat) {
    && TreeInv(v)
    && p.Inum() < |v.ins| && p.SlotNo() < NDIRECT + 3
    && (p.Child? ==>
          p.j < NINDIRECT && !p.parent.Leaf() && p.parent.Depth() < Level(p.SlotNo()) && Addr(v, p.parent) != 0)
    && Addr(v, p) == 0
    && f < v.sb.size
    && !Used(v, f)
  }

  /** What `balloc` does to the disk: mark f in use, zero it. */
  function AllocDisk(sb: Super, d: seq<Block>, f: nat): (r: seq<Block>)
    requires sb.Layout() && |d| == sb.size && f < sb.size
    ensures |r| == |d|
  {
    d[BBlock(sb, f) := PutBlockBit(d[BBlock(sb, f)], f % BPB, true)][f := ZeroBlock()]
  }

  ghost function GrowVol(v: Vol, p: Path, f: nat): Vol
    requires CanGrow(v, p, f)
  {
    var d1 := AllocDisk(v.sb, v.d, f);
    if p.Slot? then Vol(v.sb, d1, v.ins[p.i := v.ins[p.i].(addrs := v.ins[p.i].addrs[p.s := f])])
    else
      var a := Addr(v, p.parent);
      Vol(v.sb, d1[a := PutWord(d1[a], p.j, f)], v.ins)
  }

  lemma FreshIsData(v: Vol, f: nat)
    requires TreeInv(v) && f < v.sb.size && !Used(v, f)
    ensures v.sb.Nmeta() <= f
    ensures !IsBitmap(v.sb, f) && BBlock(v.sb, f) < v.sb.Nmeta() && IsBitmap(v.sb, BBlock(v.sb, f))
  {
  }

  /** Growing touches three blocks: one bitmap block, the new block and the table above it. */
  lemma GrowDisk(v: Vol, p: Path, f: nat, b: nat)
    requires CanGrow(v, p, f) && b < v.sb.size
    ensures GrowVol(v, p, f).Shape()
    ensures !IsBitmap(v.sb, b) ==>
              GrowVol(v, p, f).d[b] == if b == f then ZeroBlock()
                                       else if p.Child? && b == Addr(v, p.parent) then PutWord(v.d[b], p.j, f)
                                       else v.d[b]
    ensures IsBitmap(v.sb, b) ==>
              GrowVol(v, p, f).d[b] == if b == BBlock(v.sb, f) then PutBlockBit(v.d[b], f % BPB, true) else v.d[b]
  {
  }

  lemma GrowEntry(v: Vol, p: Path, f: nat, r: Path, j: nat)
    requires CanGrow(v, p, f) && Addr(v, r) != 0
    ensures Entry(GrowVol(v, p, f), Addr(v, r), j) == if p == Child(r, j) then f else Entry(v, Addr(v, r), j)
  {
    FreshIsData(v, f);
    GrowDisk(v, p, f, Addr(v, r));
    if p.Child? && Addr(v, r) == Addr(v, p.parent) {
      Distinct(v, r, p.parent);
    }
  }

  lemma GrowEmpty(v: Vol, p: Path, f: nat, j: nat)
    requires CanGrow(v, p, f)
    ensures Entry(GrowVol(v, p, f), f, j) == 0
  {
  }

  lemma {:induction false} GrowAddr(v: Vol, p: Path, f: nat, q: Path)
    requires CanGrow(v, p, f)
    ensures Addr(GrowVol(v, p, f), q) == if q == p then f else Addr(v, q)
  {
    if q.Child? {
      AddrChild(v, q);
      AddrChild(GrowVol(v, p, f), q);
      GrowAddr(v, p, f, q.parent);
      if q.parent == p {
        GrowEmpty(v, p, f, q.j);
      } else if Addr(v, q.parent) != 0 {
        GrowEntry(v, p, f, q.parent, q.j);
      }
    }
  }

  /** Changing bit f of the bitmap changes the status of block f only. */
  lemma PutUsed(v: Vol, v': Vol, f: nat, on: bool, b: nat)
    requires v.Shape() && v'.Shape() && v'.sb == v.sb && f < v.sb.size && b < v.sb.size
    requires var bb := BBlock(v.sb, b);
             v'.d[bb] == if bb == BBlock(v.sb, f) then PutBlockBit(v.d[bb], f % BPB, on) else v.d[bb]
    ensures Used(v', b) == if b == f then on else Used(v, b)
  {
    var bb := BBlock(v.sb, b);
    PutBlockBitBits(v.d[bb], f % BPB, on, b % BPB);
    if bb == BBlock(v.sb, f) && b % BPB == f % BPB {
      SameBit(v.sb, b, f);
    }
  }

  lemma GrowUsed(v: Vol, p: Path, f: nat, b: nat)
    requires CanGrow(v, p, f) && b < v.sb.size
    ensures Used(GrowVol(v, p, f), b) == (b == f || Used(v, b))
  {
    GrowDisk(v, p, f, BBlock(v.sb, b));
    PutUsed(v, GrowVol(v, p, f), f, true, b);
  }

  /** Growing adds node p in block f, and takes block f. */
  lemma GrowAll(v: Vol, p: Path, f: nat)
    requires CanGrow(v, p, f)
    ensures forall q :: Addr(GrowVol(v, p, f), q) == if q == p then f else Addr(v, q)
    ensures forall b: nat :: b < v.sb.size ==> Used(GrowVol(v, p, f), b) == (b == f || Used(v, b))
  {
    forall q
      ensures Addr(GrowVol(v, p, f), q) == if q == p then f else Addr(v, q)
    {
      GrowAddr(v, p, f, q);
    }
    forall b: nat | b < v.sb.size
      ensures Used(GrowVol(v, p, f), b) == (b == f || Used(v, b))
    {
      GrowUsed(v, p, f, b);
    }
  }

  lemma GrowKeepsInv(v: Vol, p: Path, f: nat)
    requires CanGrow(v, p, f)
    ensures TreeInv(GrowVol(v, p, f))
  {
    FreshIsData(v, f);
    GrowAll(v, p, f);
    var v' := GrowVol(v, p, f);
    forall q, r | SameBlock(v', q, r)
      ensures q == r
    {
      if Addr(v, q) == Addr(v, r) != 0 {
        Distinct(v, q, r);
      }
    }
  }

  lemma GrowBytes(v: Vol, p: Path, f: nat, i: nat, k: nat)
    requires CanGrow(v, p, f)
    ensures FileByte(GrowVol(v, p, f), i, k) == FileByte(v, i, k)
  {
    FreshIsData(v, f);
    var q := NodeOf(i, k / BSIZE);
    if k / BSIZE < MAXFILE {
      NodeOfIndex(i, k / BSIZE);
    }
    GrowAddr(v, p, f, q);
    if q == p {
      GrowDisk(v, p, f, f);
    } else if Addr(v, q) != 0 {
      GrowDisk(v, p, f, Addr(v, q));
      if p.Child? && Addr(v, q) == Addr(v, p.parent) {
        Distinct(v, q, p.parent);
      }
    }
  }

  // ---- overwriting a data block ----

  ghost predicate CanWrite(v: Vol, p: Path) {
    TreeInv(v) && p.Leaf() && Addr(v, p) != 0
  }

  ghost function WriteVol(v: Vol, p: Path, blk: Block): Vol
    requires CanWrite(v, p)
  {
    v.(d := v.d[Addr(v, p) := blk])
  }

  lemma {:induction false} WriteAddr(v: Vol, p: Path, blk: Block, q: Path)
    requires CanWrite(v, p)
    ensures Addr(WriteVol(v, p, blk), q) == Addr(v, q)
  {
    if q.Child? {
      AddrChild(v, q);
      AddrChild(WriteVol(v, p, blk), q);
      WriteAddr(v, p, blk, q.parent);
      if Addr(v, q.parent) == Addr(v, p) {
        Distinct(v, q.parent, p);
      }
    }
  }

  lemma WriteUsed(v: Vol, p: Path, blk: Block, b: nat)
    requires CanWrite(v, p) && b < v.sb.size
    ensures Used(WriteVol(v, p, blk), b) == Used(v, b)
  {
  }

  lemma WriteKeepsInv(v: Vol, p: Path, blk: Block)
    requires CanWrite(v, p)
    ensures TreeInv(WriteVol(v, p, blk))
  {
    var v' := WriteVol(v, p, blk);
    forall b: nat | b < v.sb.size
      ensures Used(v', b) == Used(v, b)
    {
      WriteUsed(v, p, blk, b);
    }
    forall q
      ensures Addr(v', q) == Addr(v, q)
    {
      WriteAddr(v, p, blk, q);
    }
    forall q, r | SameBlock(v', q, r)
      ensures q == r
    {
      Distinct(v, q, r);
    }
  }

  lemma WriteBytes(v: Vol, p: Path, blk: Block, i: nat, k: nat)
    requires CanWrite(v, p)
    ensures FileByte(WriteVol(v, p, blk), i, k) ==
            if NodeOf(i, k / BSIZE) == p then blk[k % BSIZE] else FileByte(v, i, k)
  {
    var q := NodeOf(i, k / BSIZE);
    WriteAddr(v, p, blk, q);
    if Addr(v, q) == Addr(v, p) {
      Distinct(v, q, p);
    }
  }

  // ---- what a run of bmap steps along one path may change ----

  /** v' is v with absent nodes on the way to P filled in by fresh zeroed blocks, and nothing else. */
  ghost predicate Extends(v: Vol, v': Vol, P: Path) {
    && TreeInv(v) && TreeInv(v') && v'.sb == v.sb && |v'.ins| == |v.ins| && P.Inum() < |v.ins|
    && (forall i: nat :: i < |v.ins| && i != P.Inum() ==> v'.ins[i] == v.ins[i])
    && v'.ins[P.Inum()] == v.ins[P.Inum()].(addrs := v'.ins[P.Inum()].addrs)
    && (forall q :: Addr(v, q) != 0 ==> Addr(v', q) == Addr(v, q))
    && (forall q :: Addr(v, q) == 0 && Addr(v', q) != 0 ==> AtOrAbove(q, P) && !Used(v, Addr(v', q)))
    && (forall b: nat :: b < v.sb.size && Used(v, b) ==> Used(v', b))
    && (forall b: nat :: b < v.sb.size && Used(v', b) && !Used(v, b) ==> Owned(v', b))
    && (forall i: nat, k: nat :: FileByte(v', i, k) == FileByte(v, i, k))
    && (forall b: nat :: b < v.sb.bmapstart ==> v'.d[b] == v.d[b])
  }

  lemma ExtendsSelf(v: Vol, P: Path)
    requires TreeInv(v) && P.Inum() < |v.ins|
    ensures Extends(v, v, P)
  {
  }

  /** Growing leaves every file byte and the blocks before the bitmap alone. */
  lemma GrowLeaves(v: Vol, p: Path, f: nat, v': Vol)
    requires CanGrow(v, p, f) && v' == GrowVol(v, p, f)
    ensures v'.Shape() && v'.sb == v.sb
    ensures forall i: nat, k: nat :: FileByte(v', i, k) == FileByte(v, i, k)
    ensures forall b: nat :: b < v.sb.bmapstart ==> v'.d[b] == v.d[b]
  {
    FreshIsData(v, f);
    forall i: nat, k: nat
      ensures FileByte(v', i, k) == FileByte(v, i, k)
    {
      GrowBytes(v, p, f, i, k);
    }
    forall b: nat | b < v.sb.bmapstart
      ensures v'.d[b] == v.d[b]
    {
      GrowDisk(v, p, f, b);
    }
  }

  lemma GrowExtends(v: Vol, p: Path, f: nat)
    requires CanGrow(v, p, f)
    ensures Extends(v, GrowVol(v, p, f), p)
  {
    var v' := GrowVol(v, p, f);
    GrowKeepsInv(v, p, f);
    FreshIsData(v, f);
    GrowAll(v, p, f);
    GrowLeaves(v, p, f, v');
    assert Addr(v', p) == f;
  }

  lemma ExtendsTrans(v: Vol, v1: Vol, v2: Vol, p: Path, P: Path)
    requires Extends(v, v1, p) && Extends(v1, v2, P) && p.Inum() == P.Inum()
    requires forall q :: AtOrAbove(q, p) ==> AtOrAbove(q, P)
    ensures Extends(v, v2, P)
  {
    forall b: nat | b < v.sb.size && Used(v2, b) && !Used(v, b)
      ensures Owned(v2, b)
    {
      if Used(v1, b) {
        var q :| Addr(v1, q) == b;
        assert Addr(v2, q) == b;
      }
    }
  }
}
