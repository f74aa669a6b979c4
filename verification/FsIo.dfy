/** readi, writei and iupdate: what a sequence of bmap calls and block writes does to a file. */
module FsIo {
  import opened Blocks
  import opened FsTree
  import opened FsIndex
  import opened FsGrow
  import opened FsWalk

  // ---- frame of a write to inode i ----

  /** From v0 to v only the file of inode i may have changed, and its tree has only grown. */
  ghost predicate Evolves(v0: Vol, v: Vol, i: nat) {
    && TreeInv(v0) && TreeInv(v) && v.sb == v0.sb && |v.ins| == |v0.ins| && i < |v0.ins|
    && (forall j: nat :: j < |v0.ins| && j != i ==> v.ins[j] == v0.ins[j])
    && v.ins[i] == v0.ins[i].(addrs := v.ins[i].addrs)
    && (forall q :: Addr(v0, q) != 0 ==> Addr(v, q) == Addr(v0, q))
    && (forall q :: Addr(v0, q) == 0 && Addr(v, q) != 0 ==> q.Inum() == i && !Used(v0, Addr(v, q)))
    && (forall b: nat :: b < v0.sb.size && Used(v0, b) ==> Used(v, b))
    && (forall j: nat, k: nat :: j != i ==> FileByte(v, j, k) == FileByte(v0, j, k))
    && (forall b: nat :: b < v0.sb.bmapstart ==> v.d[b] == v0.d[b])
  }

  lemma EvolvesSelf(v: Vol, i: nat)
    requires TreeInv(v) && i < |v.ins|
    ensures Evolves(v, v, i)
  {
  }

  lemma {:induction false} AboveInum(q: Path, p: Path)
    requires AtOrAbove(q, p)
    ensures q.Inum() == p.Inum()
  {
    if q != p {
      AboveInum(q, p.parent);
    }
  }

  lemma EvolvesReach(v0: Vol, v: Vol, v1: Vol, l: set<nat>, l1: set<nat>, P: Path)
    requires Evolves(v0, v, P.Inum()) && Reached(v, v1, l, l1, P)
    ensures Evolves(v0, v1, P.Inum())
  {
    forall q | Addr(v0, q) == 0 && Addr(v1, q) != 0
      ensures q.Inum() == P.Inum() && !Used(v0, Addr(v1, q))
    {
      if Addr(v, q) == 0 {
        AboveInum(q, P);
      }
    }
  }

  lemma NodeInum(i: nat, bn: nat)
    ensures NodeOf(i, bn).Inum() == i
  {
    if bn < MAXFILE {
      NodeOfIndex(i, bn);
    }
  }

  lemma EvolvesWrite(v0: Vol, v: Vol, P: Path, blk: Block)
    requires CanWrite(v, P) && Evolves(v0, v, P.Inum())
    ensures Evolves(v0, WriteVol(v, P, blk), P.Inum())
  {
    var v' := WriteVol(v, P, blk);
    WriteKeepsInv(v, P, blk);
    forall q
      ensures Addr(v', q) == Addr(v, q)
    {
      WriteAddr(v, P, blk, q);
    }
    forall b: nat | b < v.sb.size
      ensures Used(v', b) == Used(v, b)
    {
      WriteUsed(v, P, blk, b);
    }
    forall j: nat, k: nat | j != P.Inum()
      ensures FileByte(v', j, k) == FileByte(v, j, k)
    {
      WriteBytes(v, P, blk, j, k);
      NodeInum(j, k / BSIZE);
    }
  }

  // ---- contents ----

  /** s is what the file of inode i holds from off on. */
  ghost predicate IsSlice(v: Vol, i: nat, off: nat, s: seq<Byte>) {
    forall k :: 0 <= k < |s| ==> s[k] == FileByte(v, i, off + k)
  }

  lemma SliceAppend(v: Vol, i: nat, off: nat, s: seq<Byte>, x: nat, t: seq<Byte>)
    requires IsSlice(v, i, off, s) && x == off + |s| && IsSlice(v, i, x, t)
    ensures IsSlice(v, i, off, s + t)
  {
  }

  /** The file of inode i reads as before, with the first tot bytes of src spliced in at off. */
  ghost predicate Spliced(v0: Vol, v: Vol, i: nat, off: nat, tot: nat, src: seq<Byte>)
    requires tot <= |src|
  {
    forall k: nat ::
      FileByte(v, i, k) == if off <= k < off + tot then src[k - off] else FileByte(v0, i, k)
  }

  lemma SameNode(i: nat, k: nat, x: nat)
    requires x / BSIZE < MAXFILE
    ensures NodeOf(i, k / BSIZE) == NodeOf(i, x / BSIZE) <==> k / BSIZE == x / BSIZE
  {
    NodeOfIndex(i, x / BSIZE);
    if k / BSIZE < MAXFILE {
      NodeOfIndex(i, k / BSIZE);
    }
  }

  /** A run of m bytes from x that does not cross a block boundary. */
  lemma InBlock(k: nat, x: nat, m: nat)
    requires x % BSIZE + m <= BSIZE && m > 0
    ensures x <= k < x + m <==> k / BSIZE == x / BSIZE && x % BSIZE <= k % BSIZE < x % BSIZE + m
    ensures k / BSIZE == x / BSIZE ==> k - x == k % BSIZE - x % BSIZE
  {
  }

  /** Overwriting the bytes [x, x + |s|) of one block changes exactly those bytes of the file. */
  lemma ByteAfter(v: Vol, i: nat, x: nat, s: seq<Byte>, k: nat)
    requires s != [] && x % BSIZE + |s| <= BSIZE && x / BSIZE < MAXFILE
    requires CanWrite(v, NodeOf(i, x / BSIZE))
    ensures var P := NodeOf(i, x / BSIZE);
            FileByte(WriteVol(v, P, Splice(v.d[Addr(v, P)], x % BSIZE, s)), i, k) ==
            if x <= k < x + |s| then s[k - x] else FileByte(v, i, k)
  {
    var P := NodeOf(i, x / BSIZE);
    WriteBytes(v, P, Splice(v.d[Addr(v, P)], x % BSIZE, s), i, k);
    SameNode(i, k, x);
    InBlock(k, x, |s|);
  }

  lemma SplicedByte(v0: Vol, v: Vol, v1: Vol, v2: Vol, i: nat, off: nat, tot: nat, end: nat, src: seq<Byte>, k: nat)
    requires tot < end <= |src| && Spliced(v0, v, i, off, tot, src) && FileByte(v1, i, k) == FileByte(v, i, k)
    requires FileByte(v2, i, k) == if off + tot <= k < off + end then src[tot..end][k - off - tot]
                                   else FileByte(v1, i, k)
    ensures FileByte(v2, i, k) == if off <= k < off + end then src[k - off] else FileByte(v0, i, k)
  {
  }

  lemma SpliceAt(v0: Vol, v: Vol, v1: Vol, v2: Vol, i: nat, off: nat, tot: nat, end: nat, x: nat, bn: nat,
                 src: seq<Byte>)
    requires x == off + tot && tot < end <= |src| && x % BSIZE + (end - tot) <= BSIZE && bn == x / BSIZE && bn < MAXFILE
    requires CanWrite(v1, NodeOf(i, bn))
    requires var P := NodeOf(i, bn); v2 == WriteVol(v1, P, Splice(v1.d[Addr(v1, P)], x % BSIZE, src[tot..end]))
    requires Spliced(v0, v, i, off, tot, src)
    requires forall k: nat :: FileByte(v1, i, k) == FileByte(v, i, k)
    ensures Spliced(v0, v2, i, off, end, src)
  {
    var s := src[tot..end];
    forall k: nat
      ensures FileByte(v2, i, k) == if off <= k < off + end then src[k - off] else FileByte(v0, i, k)
    {
      ByteAfter(v1, i, x, s, k);
      SplicedByte(v0, v, v1, v2, i, off, tot, end, src, k);
    }
  }

  /** One pass of writei's loop: after bmap (v1) the bytes of src from tot to end go into block bn. */
  lemma SpliceStep(v0: Vol, v: Vol, v1: Vol, v2: Vol, i: nat, off: nat, tot: nat, end: nat, bn: nat, src: seq<Byte>)
    requires tot < end <= |src| && (off + tot) % BSIZE + (end - tot) <= BSIZE
    requires bn == (off + tot) / BSIZE && bn < MAXFILE
    requires CanWrite(v1, NodeOf(i, bn))
    requires var P := NodeOf(i, bn);
             v2 == WriteVol(v1, P, Splice(v1.d[Addr(v1, P)], (off + tot) % BSIZE, src[tot..end]))
    requires Spliced(v0, v, i, off, tot, src)
    requires forall k: nat :: FileByte(v1, i, k) == FileByte(v, i, k)
    ensures Spliced(v0, v2, i, off, end, src)
  {
    SpliceAt(v0, v, v1, v2, i, off, tot, end, off + tot, bn, src);
  }

  // ---- no holes ----

  ghost predicate Mapped(v: Vol, i: nat, x: nat) { Addr(v, NodeOf(i, x)) != 0 }

  /** Every block below the size is mapped. */
  ghost predicate NoHoles(v: Vol, i: nat)
    requires i < |v.ins|
  {
    && v.ins[i].size <= MAXFILE * BSIZE
    && forall x: nat :: x * BSIZE < v.ins[i].size ==> Mapped(v, i, x)
  }

  /** The blocks of [off, off + tot) are mapped. */
  ghost predicate RangeMapped(v: Vol, i: nat, off: nat, tot: nat) {
    forall x: nat :: tot > 0 && off / BSIZE <= x && x * BSIZE < off + tot ==> Mapped(v, i, x)
  }

  // ---- writing metadata (iupdate) ----

  /** v' differs from v only in metadata blocks before the bitmap and in inode fields other than addrs. */
  ghost predicate SameTrees(v: Vol, v': Vol) {
    && v.Shape() && v'.Shape() && v'.sb == v.sb && |v'.ins| == |v.ins|
    && (forall i: nat :: i < |v.ins| ==> v'.ins[i].addrs == v.ins[i].addrs)
    && (forall b: nat :: v.sb.bmapstart <= b < v.sb.size ==> v'.d[b] == v.d[b])
  }

  lemma {:induction false} SameAddr(v: Vol, v': Vol, q: Path)
    requires TreeInv(v) && SameTrees(v, v')
    ensures Addr(v', q) == Addr(v, q)
  {
    if q.Child? {
      AddrChild(v, q);
      AddrChild(v', q);
      SameAddr(v, v', q.parent);
    }
  }

  /** Such a change disturbs no tree, no bitmap bit and no file byte. */
  lemma SameTreesKeep(v: Vol, v': Vol)
    requires TreeInv(v) && SameTrees(v, v')
    ensures TreeInv(v')
    ensures forall q :: Addr(v', q) == Addr(v, q)
    ensures forall c: nat :: c < v.sb.size ==> Used(v', c) == Used(v, c)
    ensures forall i: nat, k: nat :: FileByte(v', i, k) == FileByte(v, i, k)
  {
    forall q
      ensures Addr(v', q) == Addr(v, q)
    {
      SameAddr(v, v', q);
    }
    forall p, q | SameBlock(v', p, q)
      ensures p == q
    {
      Distinct(v, p, q);
    }
    forall c: nat | c < v.sb.size
      ensures Used(v', c) == Used(v, c)
    {
      assert IsBitmap(v.sb, BBlock(v.sb, c));
    }
    forall i: nat, k: nat
      ensures FileByte(v', i, k) == FileByte(v, i, k)
    {
      assert Addr(v', NodeOf(i, k / BSIZE)) == Addr(v, NodeOf(i, k / BSIZE));
    }
  }

  function IupdateBlock(v: Vol, i: nat): Block
    requires v.Shape() && i < |v.ins|
  {
    Splice(v.d[IBlock(v.sb, i)], 64 * (i % IPB), EncodeInode(v.ins[i]))
  }

  function IupdateVol(v: Vol, i: nat): Vol
    requires v.Shape() && i < |v.ins|
  {
    v.(d := v.d[IBlock(v.sb, i) := IupdateBlock(v, i)])
  }

  lemma OtherSlot(sb: Super, i: nat, j: nat)
    requires IBlock(sb, i) == IBlock(sb, j) && i != j
    ensures 64 * (i % IPB) + 64 <= 64 * (j % IPB) || 64 * (j % IPB) + 64 <= 64 * (i % IPB)
  {
  }

  /** iupdate makes inode i's disk copy current and leaves the 7 inodes sharing its block alone. */
  lemma IupdateSyncs(v: Vol, i: nat, j: nat)
    requires v.Shape() && i < |v.ins| && j < |v.ins|
    ensures IupdateVol(v, i).Shape() && DiskInode(IupdateVol(v, i), j) == if j == i then v.ins[i] else DiskInode(v, j)
  {
    var blk := IupdateBlock(v, i);
    var oi, oj := 64 * (i % IPB), 64 * (j % IPB);
    if j == i {
      assert blk[oi..oi + 64] == EncodeInode(v.ins[i]);
      InodeRoundTrip(v.ins[i]);
    } else if IBlock(v.sb, j) == IBlock(v.sb, i) {
      OtherSlot(v.sb, i, j);
      assert blk[oj..oj + 64] == v.d[IBlock(v.sb, i)][oj..oj + 64];
    }
  }

  // ---- one pass of writei's loop ----

  ghost predicate Writing(v0: Vol, v: Vol, i: nat, off: nat, tot: nat, src: seq<Byte>) {
    && Evolves(v0, v, i)
    && tot <= |src| && off + |src| <= MAXFILE * BSIZE
    && Spliced(v0, v, i, off, tot, src)
    && RangeMapped(v, i, off, tot)
    && (RangeMapped(v0, i, off, tot) ==> v.ins == v0.ins)
  }

  lemma RangeStep(v: Vol, i: nat, off: nat, tot: nat, end: nat, bn: nat)
    requires tot < end && (off + tot) % BSIZE + (end - tot) <= BSIZE && bn == (off + tot) / BSIZE
    ensures RangeMapped(v, i, off, end) <==> RangeMapped(v, i, off, tot) && Mapped(v, i, bn)
  {
  }

  lemma RangeLess(v: Vol, i: nat, off: nat, m: nat, n: nat)
    requires m <= n
    ensures RangeMapped(v, i, off, n) ==> RangeMapped(v, i, off, m)
  {
  }

  lemma WriteMapped(v: Vol, p: Path, blk: Block, i: nat)
    requires CanWrite(v, p)
    ensures forall x: nat :: Mapped(WriteVol(v, p, blk), i, x) == Mapped(v, i, x)
  {
    forall x: nat
      ensures Mapped(WriteVol(v, p, blk), i, x) == Mapped(v, i, x)
    {
      WriteAddr(v, p, blk, NodeOf(i, x));
    }
  }

  lemma WritingStep(v0: Vol, v: Vol, v1: Vol, v2: Vol, l: set<nat>, l1: set<nat>, i: nat, off: nat, tot: nat, end: nat,
                    bn: nat, src: seq<Byte>)
    requires Writing(v0, v, i, off, tot, src) && tot < end <= |src|
    requires (off + tot) % BSIZE + (end - tot) <= BSIZE && bn == (off + tot) / BSIZE && bn < MAXFILE
    requires Reached(v, v1, l, l1, NodeOf(i, bn))
    requires var a := Addr(v1, NodeOf(i, bn));
             a < |v1.d| && v2 == v1.(d := v1.d[a := Splice(v1.d[a], (off + tot) % BSIZE, src[tot..end])])
    ensures Writing(v0, v2, i, off, end, src)
  {
    NodeOfIndex(i, bn);
    var P := NodeOf(i, bn);
    var blk := Splice(v1.d[Addr(v1, P)], (off + tot) % BSIZE, src[tot..end]);
    assert v2 == WriteVol(v1, P, blk);
    EvolvesReach(v0, v, v1, l, l1, P);
    EvolvesWrite(v0, v1, P, blk);
    SpliceStep(v0, v, v1, v2, i, off, tot, end, bn, src);
    RangeStep(v0, i, off, tot, end, bn);
    RangeStep(v2, i, off, tot, end, bn);
    WriteMapped(v1, P, blk, i);
    assert RangeMapped(v1, i, off, tot) by {
      forall x: nat | tot > 0 && off / BSIZE <= x && x * BSIZE < off + tot
        ensures Mapped(v1, i, x)
      {
        assert Mapped(v, i, x);
      }
    }
  }

  /** A write inside a hole-free file finds all its blocks. */
  lemma InsideMapped(v: Vol, i: nat, off: nat, n: nat)
    requires i < |v.ins| && NoHoles(v, i) && off + n <= v.ins[i].size
    ensures RangeMapped(v, i, off, n)
  {
  }

  /** After a write that starts inside it, a hole-free file is hole-free up to its new end. */
  lemma GrownNoHoles(v0: Vol, v: Vol, i: nat, off: nat, src: seq<Byte>, x: nat)
    requires Writing(v0, v, i, off, |src|, src) && NoHoles(v0, i) && off <= v0.ins[i].size
    requires x * BSIZE < off + |src| || x * BSIZE < v0.ins[i].size
    ensures Mapped(v, i, x)
  {
    if x * BSIZE < v0.ins[i].size {
      assert Mapped(v0, i, x);
    } else {
      assert off / BSIZE <= x;
    }
  }

  /** What readi may do: fill holes with zero blocks, which no reader can see; nothing without holes. */
  ghost predicate Reading(v0: Vol, v: Vol, i: nat) {
    && Evolves(v0, v, i)
    && (forall k: nat :: FileByte(v, i, k) == FileByte(v0, i, k))
    && (NoHoles(v0, i) ==> v == v0)
  }

  lemma ReadingStep(v0: Vol, v: Vol, v1: Vol, l: set<nat>, l1: set<nat>, i: nat, x: nat)
    requires Reading(v0, v, i) && x < v0.ins[i].size <= MAXFILE * BSIZE
    requires x / BSIZE < MAXFILE && Reached(v, v1, l, l1, NodeOf(i, x / BSIZE))
    ensures Reading(v0, v1, i)
    ensures NoHoles(v0, i) ==> l1 == l
  {
    NodeInum(i, x / BSIZE);
    EvolvesReach(v0, v, v1, l, l1, NodeOf(i, x / BSIZE));
    if NoHoles(v0, i) {
      assert Mapped(v0, i, x / BSIZE);
    }
  }

  lemma PieceIsSlice(v0: Vol, v: Vol, i: nat, x: nat, m: nat, a: nat)
    requires Reading(v0, v, i) && x % BSIZE + m <= BSIZE
    requires a == Addr(v, NodeOf(i, x / BSIZE)) && 0 < a < |v.d|
    ensures IsSlice(v0, i, x, v.d[a][x % BSIZE..x % BSIZE + m])
  {
    var s := v.d[a][x % BSIZE..x % BSIZE + m];
    forall k | 0 <= k < m
      ensures s[k] == FileByte(v0, i, x + k)
    {
      InBlock(x + k, x, m);
      assert FileByte(v, i, x + k) == FileByte(v0, i, x + k);
    }
  }

  lemma WritingStart(v0: Vol, i: nat, off: nat, src: seq<Byte>)
    requires TreeInv(v0) && i < |v0.ins| && off + |src| <= MAXFILE * BSIZE
    ensures Writing(v0, v0, i, off, 0, src)
  {
  }

  /** Another file, its inode and its disk copy are as before. */
  ghost predicate Untouched(v0: Vol, v: Vol, j: nat)
    requires v0.Shape() && v.Shape() && v.sb == v0.sb && j < |v0.ins| && j < |v.ins|
  {
    && v.ins[j] == v0.ins[j] && DiskInode(v, j) == DiskInode(v0, j)
    && forall k: nat :: FileByte(v, j, k) == FileByte(v0, j, k)
  }

  /** The effect of a successful writei. */
  ghost predicate Wrote(v0: Vol, v: Vol, i: nat, off: nat, src: seq<Byte>)
    requires i < |v0.ins|
  {
    && TreeInv(v0) && TreeInv(v) && v.sb == v0.sb && |v.ins| == |v0.ins| && off + |src| <= MAXFILE * BSIZE
    && Spliced(v0, v, i, off, |src|, src)
    && v.ins[i] == v0.ins[i].(size := if off + |src| > v0.ins[i].size then off + |src| else v0.ins[i].size,
                              addrs := v.ins[i].addrs)
    && (forall j: nat :: j < |v0.ins| && j != i ==> Untouched(v0, v, j))
    && (forall q :: Addr(v0, q) != 0 ==> Addr(v, q) == Addr(v0, q))
    && (forall q :: Addr(v0, q) == 0 && Addr(v, q) != 0 ==> q.Inum() == i && !Used(v0, Addr(v, q)))
    && (forall b: nat :: b < v0.sb.size && Used(v0, b) ==> Used(v, b))
    && (NoHoles(v0, i) ==> NoHoles(v, i))
    && (NoHoles(v0, i) && Synced(v0, i) ==> Synced(v, i))
  }

  ghost function Resized(v: Vol, i: nat, size: U32): Vol
    requires i < |v.ins|
  {
    v.(ins := v.ins[i := v.ins[i].(size := size)])
  }

  lemma IupdateSame(v: Vol, i: nat, size: U32)
    requires v.Shape() && i < |v.ins|
    ensures Resized(v, i, size).Shape() && SameTrees(v, IupdateVol(Resized(v, i, size), i))
  {
  }

  lemma WroteInside(v0: Vol, v: Vol, i: nat, off: nat, src: seq<Byte>)
    requires Writing(v0, v, i, off, |src|, src) && off + |src| <= v0.ins[i].size
    ensures Wrote(v0, v, i, off, src)
  {
    assert forall j: nat :: j < |v0.ins| ==> IBlock(v.sb, j) < v.sb.bmapstart && DiskInode(v, j) == DiskInode(v0, j);
    if NoHoles(v0, i) {
      InsideMapped(v0, i, off, |src|);
      assert forall x: nat :: Mapped(v0, i, x) ==> Mapped(v, i, x);
    }
  }

  /** writei's tail when the file grew: set the size, then iupdate. */
  lemma WroteBeyond(v0: Vol, v: Vol, v': Vol, i: nat, off: nat, src: seq<Byte>)
    requires Writing(v0, v, i, off, |src|, src) && off <= v0.ins[i].size < off + |src|
    requires Resized(v, i, off + |src|).Shape() && v' == IupdateVol(Resized(v, i, off + |src|), i)
    ensures Wrote(v0, v', i, off, src)
    ensures forall q :: Addr(v', q) == Addr(v, q)
  {
    var vs := Resized(v, i, off + |src|);
    assert SameTrees(v, v');
    SameTreesKeep(v, v');
    forall j: nat | j < |v0.ins|
      ensures DiskInode(v', j) == if j == i then vs.ins[i] else DiskInode(v0, j)
    {
      IupdateSyncs(vs, i, j);
      assert IBlock(v.sb, j) < v.sb.bmapstart;
    }
    if NoHoles(v0, i) {
      forall x: nat | x * BSIZE < v'.ins[i].size
        ensures Mapped(v', i, x)
      {
        GrownNoHoles(v0, v, i, off, src, x);
      }
    }
  }

  lemma WroteEnd(v0: Vol, v: Vol, v': Vol, i: nat, off: nat, src: seq<Byte>, end: U32)
    requires Writing(v0, v, i, off, |src|, src) && off <= v0.ins[i].size < end == off + |src| && v.Shape()
    requires Resized(v, i, end).Shape() && v' == IupdateVol(Resized(v, i, end), i)
    ensures Wrote(v0, v', i, off, src) && SameTrees(v, v')
  {
    WroteBeyond(v0, v, v', i, off, src);
    IupdateSame(v, i, end);
  }

  // ---- the invariant of a file system used through writei ----

  /** No holes anywhere, and every inode's disk copy is current. */
  ghost predicate FsInv(v: Vol) {
    TreeInv(v) && forall j: nat :: j < |v.ins| ==> NoHoles(v, j) && Synced(v, j)
  }

  lemma WroteKeepsFsInv(v0: Vol, v: Vol, i: nat, off: nat, src: seq<Byte>)
    requires FsInv(v0) && i < |v0.ins| && Wrote(v0, v, i, off, src)
    ensures FsInv(v)
  {
    forall j: nat | j < |v.ins|
      ensures NoHoles(v, j) && Synced(v, j)
    {
      assert NoHoles(v0, j) && Synced(v0, j);
      if j != i {
        assert Untouched(v0, v, j);
        forall x: nat | x * BSIZE < v.ins[j].size
          ensures Mapped(v, j, x)
        {
          assert Mapped(v0, j, x);
        }
      }
    }
  }

  /** Two writes in a row are one write of the concatenation. */
  lemma WroteTrans(v0: Vol, v1: Vol, v2: Vol, i: nat, off: nat, s: seq<Byte>, mid: nat, t: seq<Byte>)
    requires i < |v0.ins| && i < |v1.ins| && Wrote(v0, v1, i, off, s) && mid == off + |s| && Wrote(v1, v2, i, mid, t)
    ensures Wrote(v0, v2, i, off, s + t)
  {
    forall k: nat
      ensures FileByte(v2, i, k) == if off <= k < off + |s + t| then (s + t)[k - off] else FileByte(v0, i, k)
    {
      assert FileByte(v2, i, k) == if mid <= k < mid + |t| then t[k - mid] else FileByte(v1, i, k);
      assert FileByte(v1, i, k) == if off <= k < mid then s[k - off] else FileByte(v0, i, k);
    }
    forall j: nat | j < |v0.ins| && j != i
      ensures Untouched(v0, v2, j)
    {
      assert Untouched(v0, v1, j) && Untouched(v1, v2, j);
    }
    forall q | Addr(v0, q) == 0 && Addr(v2, q) != 0
      ensures q.Inum() == i && !Used(v0, Addr(v2, q))
    {
      if Addr(v1, q) == 0 {
        assert Addr(v2, q) < v0.sb.size;
      }
    }
  }

  /** What filewrite has done after the chunks that make up s. */
  ghost predicate Progress(v0: Vol, v: Vol, i: nat, off: nat, s: seq<Byte>)
    requires i < |v0.ins|
  {
    && TreeInv(v) && v.sb == v0.sb && |v.ins| == |v0.ins|
    && if s == [] then v == v0 else off <= v0.ins[i].size && Wrote(v0, v, i, off, s)
  }

  lemma {:induction false} ProgressStep(v0: Vol, v: Vol, v': Vol, i: nat, off: nat,
                                        s: seq<Byte>, mid: nat, t: seq<Byte>, st: seq<Byte>)
    requires i < |v0.ins| && t != [] && st == s + t && Progress(v0, v, i, off, s) && mid == off + |s|
    requires mid <= v.ins[i].size && Wrote(v, v', i, mid, t)
    ensures Progress(v0, v', i, off, st)
  {
    if s == [] {
      assert st == t;
    } else {
      WroteTrans(v0, v, v', i, off, s, mid, t);
    }
  }

  lemma Slices(a: seq<Byte>, j: nat, k: nat)
    requires j <= k <= |a|
    ensures a[..k] == a[..j] + a[j..k]
  {
  }

  lemma ProgressFacts(v0: Vol, v: Vol, i: nat, off: nat, s: seq<Byte>)
    requires i < |v0.ins| && Progress(v0, v, i, off, s)
    ensures s != [] ==> off <= v0.ins[i].size && off + |s| <= v.ins[i].size && off + |s| <= MAXFILE * BSIZE
    ensures NoHoles(v0, i) ==> NoHoles(v, i)
  {
  }
}
