/** itrunc: which blocks a node's subtree holds, and what freeing them leaves behind. */
module FsTrunc {
  import opened Blocks
  import opened FsTree
  import opened FsGrow
  import opened FsIo
  import opened Param

  // ---- subtrees ----

  /** Block b belongs to the node c or to a node below it. */
  ghost predicate Within(v: Vol, c: Path, b: nat) {
    b != 0 && exists q :: AtOrAbove(c, q) && Addr(v, q) == b
  }

  /** Block b belongs to one of the first n children of p or to a node below it. */
  ghost predicate WithinFirst(v: Vol, p: Path, n: nat, b: nat) {
    exists j: nat :: j < n && Within(v, Child(p, j), b)
  }

  lemma {:induction false} AboveUnique(c: Path, d: Path, q: Path)
    requires AtOrAbove(c, q) && AtOrAbove(d, q) && c.Depth() == d.Depth()
    ensures c == d
  {
    AboveShallower(c, q);
    AboveShallower(d, q);
    if c != q {
      AboveUnique(c, d, q.parent);
    }
  }

  lemma {:induction false} AboveTrans(c: Path, d: Path, q: Path)
    requires AtOrAbove(c, d) && AtOrAbove(d, q)
    ensures AtOrAbove(c, q)
  {
    if d != q {
      AboveTrans(c, d, q.parent);
    }
  }

  /** What lies at or below p is p itself or lies at or below one of its children. */
  lemma {:induction false} BelowCases(p: Path, q: Path)
    requires AtOrAbove(p, q) && p != q
    ensures exists j: nat :: AtOrAbove(Child(p, j), q)
  {
    if q.parent == p {
      assert AtOrAbove(Child(p, q.j), q);
    } else {
      BelowCases(p, q.parent);
      var j: nat :| AtOrAbove(Child(p, j), q.parent);
      assert AtOrAbove(Child(p, j), q);
    }
  }

  /** The subtrees of two different nodes of equal depth share no block. */
  lemma Disjoint(v: Vol, c: Path, d: Path, b: nat)
    requires TreeInv(v) && Within(v, c, b) && Within(v, d, b) && c.Depth() == d.Depth()
    ensures c == d
  {
    var q :| AtOrAbove(c, q) && Addr(v, q) == b;
    var r :| AtOrAbove(d, r) && Addr(v, r) == b;
    Distinct(v, q, r);
    AboveUnique(c, d, q);
  }

  /** A subtree is its root and the subtrees of the root's children. */
  lemma WithinSplit(v: Vol, c: Path, b: nat)
    requires TreeInv(v)
    ensures Within(v, c, b) <==> (b != 0 && Addr(v, c) == b) || WithinFirst(v, c, NINDIRECT, b)
  {
    if Within(v, c, b) {
      var q :| AtOrAbove(c, q) && Addr(v, q) == b;
      if q != c {
        BelowCases(c, q);
        var j: nat :| AtOrAbove(Child(c, j), q);
        AbovePresent(v, Child(c, j), q);
        AddrChild(v, Child(c, j));
        assert Within(v, Child(c, j), b);
      }
    }
    if WithinFirst(v, c, NINDIRECT, b) {
      var j: nat :| j < NINDIRECT && Within(v, Child(c, j), b);
      var q :| AtOrAbove(Child(c, j), q) && Addr(v, q) == b;
      AboveTrans(c, Child(c, j), q);
    }
  }

  /** The root of a subtree is not in the subtrees of its children. */
  lemma RootApart(v: Vol, c: Path, j: nat)
    requires TreeInv(v) && Addr(v, c) != 0
    ensures !Within(v, Child(c, j), Addr(v, c))
  {
    if Within(v, Child(c, j), Addr(v, c)) {
      var q :| AtOrAbove(Child(c, j), q) && Addr(v, q) == Addr(v, c);
      Distinct(v, q, c);
      AboveShallower(Child(c, j), q);
    }
  }

  /** An absent node has an empty subtree. */
  lemma AbsentEmpty(v: Vol, c: Path, b: nat)
    requires Addr(v, c) == 0
    ensures !Within(v, c, b)
  {
    if Within(v, c, b) {
      var q :| AtOrAbove(c, q) && Addr(v, q) == b;
      AbovePresent(v, c, q);
    }
  }

  // ---- states of itrunc: tables intact, some bits cleared ----

  /** v is v0 with only bitmap blocks and the addresses of inode i changed. */
  ghost predicate TablesIntact(v0: Vol, v: Vol) {
    && v0.Shape() && v.Shape() && v.sb == v0.sb && |v.ins| == |v0.ins|
    && forall b: nat :: b < v0.sb.size && !IsBitmap(v0.sb, b) ==> v.d[b] == v0.d[b]
  }

  /** Compared with v1, exactly the blocks of the first n children of p have been freed. */
  ghost predicate FreedFirst(v0: Vol, v1: Vol, v: Vol, p: Path, n: nat) {
    forall b: nat :: b < v0.sb.size ==> Used(v, b) == (Used(v1, b) && !WithinFirst(v0, p, n, b))
  }

  /** Compared with v1, exactly the blocks of the subtree of c have been freed. */
  ghost predicate FreedAll(v0: Vol, v1: Vol, v: Vol, c: Path) {
    forall b: nat :: b < v0.sb.size ==> Used(v, b) == (Used(v1, b) && !Within(v0, c, b))
  }

  /** No block of the subtree of c has been freed yet. */
  ghost predicate AllUsed(v0: Vol, v: Vol, c: Path) {
    forall b: nat :: b < v0.sb.size && Within(v0, c, b) ==> Used(v, b)
  }

  ghost function FreeVol(v: Vol, b: nat): Vol
    requires v.Shape() && b < v.sb.size
  {
    v.(d := v.d[BBlock(v.sb, b) := PutBlockBit(v.d[BBlock(v.sb, b)], b % BPB, false)])
  }

  lemma FreeOne(v0: Vol, v: Vol, x: nat)
    requires TreeInv(v0) && TablesIntact(v0, v) && x < v.sb.size
    ensures TablesIntact(v0, FreeVol(v, x))
    ensures forall b: nat :: b < v0.sb.size ==> Used(FreeVol(v, x), b) == (Used(v, b) && b != x)
  {
    forall b: nat | b < v0.sb.size
      ensures Used(FreeVol(v, x), b) == (Used(v, b) && b != x)
    {
      PutUsed(v, FreeVol(v, x), x, false, b);
    }
  }

  lemma ChildStillUsed(v0: Vol, v1: Vol, v: Vol, p: Path, n: nat)
    requires TreeInv(v0) && FreedFirst(v0, v1, v, p, n)
    requires forall b: nat :: b < v0.sb.size && WithinFirst(v0, p, NINDIRECT, b) ==> Used(v1, b)
    requires n < NINDIRECT
    ensures AllUsed(v0, v, Child(p, n))
  {
    forall b: nat | b < v0.sb.size && Within(v0, Child(p, n), b)
      ensures Used(v, b)
    {
      assert WithinFirst(v0, p, NINDIRECT, b);
      if WithinFirst(v0, p, n, b) {
        var j: nat :| j < n && Within(v0, Child(p, j), b);
        Disjoint(v0, Child(p, j), Child(p, n), b);
      }
    }
  }

  lemma NextChild(v0: Vol, v1: Vol, v: Vol, v': Vol, p: Path, n: nat)
    requires FreedFirst(v0, v1, v, p, n) && FreedAll(v0, v, v', Child(p, n))
    ensures FreedFirst(v0, v1, v', p, n + 1)
  {
  }

  lemma SkipAbsent(v0: Vol, v: Vol, c: Path)
    requires Addr(v0, c) == 0
    ensures FreedAll(v0, v, v, c)
  {
    forall b: nat
      ensures !Within(v0, c, b)
    {
      AbsentEmpty(v0, c, b);
    }
  }

  /** After the children's subtrees are freed, freeing the root frees the whole subtree. */
  lemma RootLast(v0: Vol, v1: Vol, v: Vol, v': Vol, c: Path)
    requires TreeInv(v0) && Addr(v0, c) != 0 && AllUsed(v0, v1, c)
    requires FreedFirst(v0, v1, v, c, NINDIRECT)
    requires forall b: nat :: b < v0.sb.size ==> Used(v', b) == (Used(v, b) && b != Addr(v0, c))
    ensures Used(v, Addr(v0, c))
    ensures FreedAll(v0, v1, v', c)
  {
    var a := Addr(v0, c);
    forall b: nat | b < v0.sb.size
      ensures Within(v0, c, b) <==> b == a || WithinFirst(v0, c, NINDIRECT, b)
    {
      WithinSplit(v0, c, b);
    }
    assert Within(v0, c, a);
    if WithinFirst(v0, c, NINDIRECT, a) {
      var j: nat :| j < NINDIRECT && Within(v0, Child(c, j), a);
      RootApart(v0, c, j);
    }
  }

  lemma LeafHasNoChildren(v0: Vol, v: Vol, c: Path)
    requires c.Leaf()
    ensures FreedFirst(v0, v, v, c, NINDIRECT)
  {
    forall b: nat
      ensures !WithinFirst(v0, c, NINDIRECT, b)
    {
      if WithinFirst(v0, c, NINDIRECT, b) {
        var j: nat :| j < NINDIRECT && Within(v0, Child(c, j), b);
        AddrChild(v0, Child(c, j));
        AbsentEmpty(v0, Child(c, j), b);
      }
    }
  }

  lemma AllUsedBelow(v0: Vol, v: Vol, c: Path)
    requires TreeInv(v0) && AllUsed(v0, v, c)
    ensures forall b: nat :: b < v0.sb.size && WithinFirst(v0, c, NINDIRECT, b) ==> Used(v, b)
  {
    forall b: nat | b < v0.sb.size && WithinFirst(v0, c, NINDIRECT, b)
      ensures Used(v, b)
    {
      WithinSplit(v0, c, b);
    }
  }

  // ---- the blocks that freeing logs ----

  /** Block b was in use and is free now, and its bit is in block c. */
  ghost predicate Frees(v: Vol, v': Vol, b: nat, c: nat) {
    b < v.sb.size && Used(v, b) && !Used(v', b) && BBlock(v.sb, b) == c
  }

  ghost predicate FreesIn(v: Vol, v': Vol, c: nat) { exists b: nat :: Frees(v, v', b, c) }

  /** Nothing is allocated, and exactly the bitmap blocks of the freed blocks are logged. */
  ghost predicate LogsFreed(v: Vol, v': Vol, l: set<nat>, l': set<nat>) {
    && v'.sb == v.sb
    && (forall b: nat :: b < v.sb.size && Used(v', b) ==> Used(v, b))
    && (forall c :: c in l' <==> c in l || FreesIn(v, v', c))
  }

  lemma LogsFreedSelf(v: Vol, l: set<nat>)
    ensures LogsFreed(v, v, l, l)
  {
  }

  lemma FreesTrans(v: Vol, v1: Vol, v2: Vol, c: nat)
    requires v1.sb == v.sb && forall b: nat :: b < v.sb.size && Used(v1, b) ==> Used(v, b)
    requires forall b: nat :: b < v.sb.size && Used(v2, b) ==> Used(v1, b)
    ensures FreesIn(v, v2, c) <==> FreesIn(v, v1, c) || FreesIn(v1, v2, c)
  {
    if b: nat :| Frees(v, v2, b, c) {
      assert Frees(v, v1, b, c) || Frees(v1, v2, b, c);
    }
    if b: nat :| Frees(v, v1, b, c) {
      assert Frees(v, v2, b, c);
    }
    if b: nat :| Frees(v1, v2, b, c) {
      assert Frees(v, v2, b, c);
    }
  }

  lemma LogsFreedTrans(v: Vol, v1: Vol, v2: Vol, l: set<nat>, l1: set<nat>, l2: set<nat>)
    requires LogsFreed(v, v1, l, l1) && LogsFreed(v1, v2, l1, l2)
    ensures LogsFreed(v, v2, l, l2)
  {
    forall c
      ensures c in l2 <==> c in l || FreesIn(v, v2, c)
    {
      FreesTrans(v, v1, v2, c);
    }
  }

  /** bfree of a block in use. */
  lemma LogsFreedOne(v: Vol, x: nat, v': Vol, l: set<nat>, l': set<nat>)
    requires v'.sb == v.sb && x < v.sb.size && Used(v, x) && l' == l + {BBlock(v.sb, x)}
    requires forall b: nat :: b < v.sb.size ==> Used(v', b) == (Used(v, b) && b != x)
    ensures LogsFreed(v, v', l, l')
  {
    assert Frees(v, v', x, BBlock(v.sb, x));
  }

  /** A change that leaves the bitmap alone, with the blocks `more` logged. */
  lemma LogsFreedSame(v: Vol, v1: Vol, v2: Vol, l: set<nat>, l1: set<nat>, more: set<nat>)
    requires LogsFreed(v, v1, l, l1) && v2.sb == v1.sb
    requires forall b: nat :: b < v.sb.size ==> Used(v2, b) == Used(v1, b)
    ensures LogsFreed(v, v2, l + more, l1 + more)
  {
    forall c
      ensures FreesIn(v, v2, c) <==> FreesIn(v, v1, c)
    {
      if b: nat :| Frees(v, v1, b, c) {
        assert Frees(v, v2, b, c);
      }
      if b: nat :| Frees(v, v2, b, c) {
        assert Frees(v, v1, b, c);
      }
    }
  }

  // ---- the thirteen slots ----

  /** Block b belongs to the tree under one of the first n slots of inode i. */
  ghost predicate WithinSlots(v: Vol, i: nat, n: nat, b: nat) {
    exists s: nat :: s < n && Within(v, Slot(i, s), b)
  }

  /** Slots 0, ..., n - 1 of inode i have been emptied and their trees freed; the rest is as in v0. */
  ghost predicate Truncated(v0: Vol, v: Vol, i: nat, n: nat) {
    && TreeInv(v0) && TablesIntact(v0, v) && i < |v0.ins| && n <= NDIRECT + 3
    && (forall j: nat :: j < |v0.ins| && j != i ==> v.ins[j] == v0.ins[j])
    && v.ins[i] == v0.ins[i].(addrs := v.ins[i].addrs)
    && (forall s: nat :: s < NDIRECT + 3 ==> v.ins[i].addrs[s] == if s < n then 0 else v0.ins[i].addrs[s])
    && (forall b: nat :: b < v0.sb.size ==> Used(v, b) == (Used(v0, b) && !WithinSlots(v0, i, n, b)))
  }

  lemma TruncStart(v0: Vol, i: nat)
    requires TreeInv(v0) && i < |v0.ins|
    ensures Truncated(v0, v0, i, 0)
  {
  }

  lemma SlotStillUsed(v0: Vol, v: Vol, i: nat, n: nat)
    requires Truncated(v0, v, i, n)
    ensures AllUsed(v0, v, Slot(i, n))
  {
    forall b: nat | b < v0.sb.size && Within(v0, Slot(i, n), b)
      ensures Used(v, b)
    {
      if WithinSlots(v0, i, n, b) {
        var s: nat :| s < n && Within(v0, Slot(i, s), b);
        Disjoint(v0, Slot(i, s), Slot(i, n), b);
      }
    }
  }

  lemma TruncSlot(v0: Vol, v: Vol, v': Vol, i: nat, n: nat)
    requires Truncated(v0, v, i, n) && n < NDIRECT + 3
    requires TablesIntact(v0, v') && FreedAll(v0, v, v', Slot(i, n))
    requires v'.ins == v.ins[i := v.ins[i].(addrs := v.ins[i].addrs[n := 0])]
    ensures Truncated(v0, v', i, n + 1)
  {
  }

  // ---- the result ----

  ghost predicate OwnedBy(v: Vol, i: nat, b: nat) {
    b != 0 && exists q: Path :: q.Inum() == i && Addr(v, q) == b
  }

  /** The tree of inode i is gone, exactly its blocks are free again, and all other inodes are untouched. */
  ghost predicate Trunced(v0: Vol, v: Vol, i: nat)
    requires i < |v0.ins|
  {
    && TreeInv(v0) && TreeInv(v) && v.sb == v0.sb && |v.ins| == |v0.ins|
    && v.ins[i] == v0.ins[i].(addrs := seq(13, _ => 0), size := 0) && Synced(v, i)
    && (forall q :: Addr(v, q) == if q.Inum() == i then 0 else Addr(v0, q))
    && (forall b: nat :: b < v0.sb.size ==> (Used(v, b) <==> Used(v0, b) && !OwnedBy(v0, i, b)))
    && (forall j: nat :: j < |v0.ins| && j != i ==> Untouched(v0, v, j))
  }

  lemma {:induction false} SlotAbove(q: Path)
    ensures AtOrAbove(Slot(q.Inum(), q.SlotNo()), q)
  {
    if q.Child? {
      SlotAbove(q.parent);
    }
  }

  lemma {:induction false} SlotInRange(v: Vol, q: Path)
    requires Addr(v, q) != 0
    ensures q.SlotNo() < NDIRECT + 3 && q.Inum() < |v.ins|
  {
    if q.Child? {
      AddrChild(v, q);
      SlotInRange(v, q.parent);
    }
  }

  lemma OwnedIsWithin(v: Vol, i: nat, b: nat)
    ensures OwnedBy(v, i, b) <==> WithinSlots(v, i, NDIRECT + 3, b)
  {
    if OwnedBy(v, i, b) {
      var q: Path :| q.Inum() == i && Addr(v, q) == b;
      SlotAbove(q);
      SlotInRange(v, q);
      assert Within(v, Slot(i, q.SlotNo()), b);
    }
    if WithinSlots(v, i, NDIRECT + 3, b) {
      var s: nat :| s < NDIRECT + 3 && Within(v, Slot(i, s), b);
      var q :| AtOrAbove(Slot(i, s), q) && Addr(v, q) == b;
      AboveInum(Slot(i, s), q);
    }
  }

  lemma {:induction false} TruncAddr(v0: Vol, v: Vol, i: nat, q: Path)
    requires Truncated(v0, v, i, NDIRECT + 3)
    ensures Addr(v, q) == if q.Inum() == i then 0 else Addr(v0, q)
  {
    if q.Child? {
      AddrChild(v0, q);
      AddrChild(v, q);
      TruncAddr(v0, v, i, q.parent);
    }
  }

  lemma TruncKeepsInv(v0: Vol, v: Vol, i: nat)
    requires Truncated(v0, v, i, NDIRECT + 3)
    ensures TreeInv(v)
    ensures forall b: nat :: b < v0.sb.size ==> (Used(v, b) <==> Used(v0, b) && !OwnedBy(v0, i, b))
    ensures forall q :: Addr(v, q) == if q.Inum() == i then 0 else Addr(v0, q)
  {
    forall b: nat | b < v0.sb.size
      ensures Used(v, b) <==> Used(v0, b) && !OwnedBy(v0, i, b)
    {
      OwnedIsWithin(v0, i, b);
    }
    forall q
      ensures Addr(v, q) == if q.Inum() == i then 0 else Addr(v0, q)
    {
      TruncAddr(v0, v, i, q);
    }
    forall q | Addr(v, q) != 0
      ensures !OwnedBy(v0, i, Addr(v, q))
    {
      if OwnedBy(v0, i, Addr(v, q)) {
        var r: Path :| r.Inum() == i && Addr(v0, r) == Addr(v, q);
        Distinct(v0, r, q);
      }
    }
    forall p, q | SameBlock(v, p, q)
      ensures p == q
    {
      Distinct(v0, p, q);
    }
  }

  lemma TruncUntouched(v0: Vol, v: Vol, i: nat, j: nat)
    requires Truncated(v0, v, i, NDIRECT + 3) && j < |v0.ins| && j != i
    ensures Untouched(v0, v, j)
  {
    assert !IsBitmap(v.sb, IBlock(v.sb, j));
    forall k: nat
      ensures FileByte(v, j, k) == FileByte(v0, j, k)
    {
      NodeInum(j, k / BSIZE);
      TruncAddr(v0, v, i, NodeOf(j, k / BSIZE));
    }
  }

  /** itrunc's tail: size 0, then iupdate. */
  lemma TruncDone(v0: Vol, v: Vol, v': Vol, i: nat)
    requires Truncated(v0, v, i, NDIRECT + 3)
    requires Resized(v, i, 0).Shape() && v' == IupdateVol(Resized(v, i, 0), i)
    ensures Trunced(v0, v', i)
  {
    var vs := Resized(v, i, 0);
    TruncKeepsInv(v0, v, i);
    assert SameTrees(v, v');
    SameTreesKeep(v, v');
    IupdateSyncs(vs, i, i);
    assert v'.ins[i].addrs == seq(13, _ => 0);
    forall j: nat | j < |v0.ins| && j != i
      ensures Untouched(v0, v', j)
    {
      IupdateSyncs(vs, i, j);
      TruncUntouched(v0, v, i, j);
    }
  }

  // ---- the log of itrunc ----

  /** Block b of inode i has its bit in block c. */
  ghost predicate HasBit(v: Vol, i: nat, b: nat, c: nat) { OwnedBy(v, i, b) && BBlock(v.sb, b) == c }

  ghost predicate HasBits(v: Vol, i: nat, c: nat) { exists b: nat :: HasBit(v, i, b, c) }

  /** The bitmap blocks of the blocks of inode i. */
  ghost function TreeBitmaps(v: Vol, i: nat): set<nat> {
    set c: nat | v.sb.bmapstart <= c <= v.sb.bmapstart + v.sb.size / BPB && HasBits(v, i, c)
  }

  lemma FreesTree(v0: Vol, v: Vol, i: nat, c: nat)
    requires i < |v0.ins| && Trunced(v0, v, i)
    ensures FreesIn(v0, v, c) <==> c in TreeBitmaps(v0, i)
  {
    if b: nat :| Frees(v0, v, b, c) {
      assert HasBit(v0, i, b, c);
    }
    if b: nat :| HasBit(v0, i, b, c) {
      var q: Path :| q.Inum() == i && Addr(v0, q) == b;
      assert Used(v0, Addr(v0, q));
      assert Frees(v0, v, b, c);
    }
  }

  lemma TruncLog(v0: Vol, v: Vol, i: nat, l: set<nat>, l': set<nat>, inode: set<nat>)
    requires i < |v0.ins| && Trunced(v0, v, i) && LogsFreed(v0, v, l + inode, l')
    ensures l' == l + inode + TreeBitmaps(v0, i)
  {
    forall c
      ensures c in l' <==> c in l + inode + TreeBitmaps(v0, i)
    {
      FreesTree(v0, v, i, c);
    }
  }

  /** So itrunc fits one transaction exactly when the blocks of the file have their bits in at most nine blocks. */
  lemma TruncFits(v: Vol, i: nat)
    requires v.Shape() && i < |v.ins|
    ensures |{IBlock(v.sb, i)} + TreeBitmaps(v, i)| == 1 + |TreeBitmaps(v, i)|
    ensures |{IBlock(v.sb, i)} + TreeBitmaps(v, i)| <= MAXOPBLOCKS <==> |TreeBitmaps(v, i)| <= MAXOPBLOCKS - 1
  {
    assert IBlock(v.sb, i) !in TreeBitmaps(v, i);
  }

  lemma {:induction false} RangeSize(lo: nat, hi: nat, s: set<nat>)
    requires lo <= hi && forall c :: c in s ==> lo <= c < hi
    ensures |s| <= hi - lo
    decreases hi - lo
  {
    if lo == hi {
      assert s == {};
    } else {
      RangeSize(lo + 1, hi, s - {lo});
    }
  }

  /** That is so for every file of a volume with at most nine bitmap blocks. */
  lemma SmallVolumeFits(v: Vol, i: nat)
    requires v.Shape() && v.sb.size < (MAXOPBLOCKS - 1) * BPB
    ensures |TreeBitmaps(v, i)| <= MAXOPBLOCKS - 1
  {
    RangeSize(v.sb.bmapstart, v.sb.bmapstart + v.sb.size / BPB + 1, TreeBitmaps(v, i));
  }
}
