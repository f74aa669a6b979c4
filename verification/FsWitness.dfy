/**
  Two files that mkfs's file system can hold and whose calls outgrow one transaction, each written from an empty file
  system first-fit: one with the most costly next chunk, one with blocks under all ten blocks of the free map.
*/
module FsWitness {
  import opened Blocks
  import opened FsTree
  import opened FsIndex
  import opened FsGrow
  import opened FsWalk
  import opened FsIo
  import opened FsCost
  import opened FsTrunc
  import opened Param

  // ---- the empty file system ----

  const NMETA: nat := 68

  /** mkfs's layout: boot block, superblock, 30 log blocks, 26 inode blocks, 10 bitmap blocks. */
  const MKFS: Super := Super(FSSIZE, FSSIZE - NMETA, 200, 32, 58)

  /** The first block of the free map with its first NMETA bits set. */
  function FreeMap(): Block {
    seq(BSIZE, k => if k < 8 then 0xFF else if k == 8 then 0x0F else 0)
  }

  function Nothing(): Inode { Inode(0, 0, 0, 0, 0, seq(13, _ => 0)) }

  function EmptyBlock(b: nat): Block { if b == 58 then FreeMap() else ZeroBlock() }

  function EmptyVol(): Vol {
    Vol(MKFS, seq(FSSIZE, b requires 0 <= b => EmptyBlock(b)), seq(200, _ => Nothing()))
  }

  /** The blocks in use are the first f. */
  ghost predicate Packed(v: Vol, f: nat) {
    v.Shape() && v.sb.Nmeta() <= f <= v.sb.size && forall b: nat :: b < v.sb.size ==> (Used(v, b) <==> b < f)
  }

  lemma {:induction false} OnesBits(n: nat, k: nat)
    ensures Pow2(n) > 0 && (Bit(Pow2(n) - 1, k) <==> k < n)
  {
    if n > 0 {
      OnesBits(n - 1, if k == 0 then 0 else k - 1);
      assert (Pow2(n) - 1) / 2 == Pow2(n - 1) - 1;
    } else if k > 0 {
      OnesBits(0, k - 1);
    }
  }

  lemma ByteBits(k: nat)
    requires k < 8
    ensures Bit(0xFF, k) && !Bit(0, k) && (Bit(0x0F, k) <==> k < 4)
  {
    assert Pow2(0) == 1 && Pow2(4) == 16 && Pow2(8) == 256;
    OnesBits(0, k);
    OnesBits(4, k);
    OnesBits(8, k);
  }

  lemma EmptyUsed(b: nat)
    requires b < FSSIZE
    ensures Used(EmptyVol(), b) <==> b < NMETA
  {
    ByteBits(b % BPB % 8);
  }

  lemma {:induction false} EmptyAddr(q: Path)
    ensures Addr(EmptyVol(), q) == 0
  {
    if q.Child? {
      EmptyAddr(q.parent);
      AddrChild(EmptyVol(), q);
    }
  }

  lemma EmptyInode(i: nat)
    requires i < 200
    ensures EmptyVol().Shape() && Synced(EmptyVol(), i)
  {
    var s := ZeroBlock()[64 * (i % IPB)..64 * (i % IPB) + 64];
    assert forall k :: 0 <= k < 64 ==> s[k] == 0;
    assert DecodeInode(s).addrs == seq(13, _ => 0);
  }

  lemma EmptyInv()
    ensures FsInv(EmptyVol()) && Packed(EmptyVol(), NMETA)
  {
    var v := EmptyVol();
    assert v.Shape();
    forall b: nat | b < FSSIZE
      ensures Used(v, b) <==> b < NMETA
    {
      EmptyUsed(b);
    }
    forall q
      ensures Addr(v, q) == 0
    {
      EmptyAddr(q);
    }
    forall j: nat | j < |v.ins|
      ensures NoHoles(v, j) && Synced(v, j)
    {
      EmptyInode(j);
    }
  }

  // ---- growing a file block by block ----

  ghost predicate InFile(v: Vol, p: Path) {
    InRange(p) && p.Inum() < |v.ins| && p.Depth() <= Level(p.SlotNo())
  }

  lemma GrowPacked(v: Vol, p: Path, f: nat, f': nat)
    requires CanGrow(v, p, f) && Packed(v, f) && f' == f + 1
    ensures Packed(GrowVol(v, p, f), f')
  {
    GrowKeepsInv(v, p, f);
    forall b: nat | b < v.sb.size
      ensures Used(GrowVol(v, p, f), b) <==> b < f'
    {
      GrowUsed(v, p, f, b);
    }
  }

  lemma FillOne(v: Vol, p: Path, f: nat, l: set<nat>) returns (v': Vol, f': nat, l': set<nat>)
    requires TreeInv(v) && Packed(v, f) && InFile(v, p) && f < v.sb.size && Addr(v, p) == 0
    requires p.Child? ==> Addr(v, p.parent) != 0
    ensures Reached(v, v', l, l', p) && Packed(v', f') && f' == f + 1
  {
    InRangeSlot(p);
    assert CanGrow(v, p, f);
    v', f' := GrowVol(v, p, f), f + 1;
    l' := l + {BBlock(v.sb, f), f} + (if p.Child? then {Addr(v, p.parent)} else {});
    GrowReaches(v, p, f, l, l');
    GrowPacked(v, p, f, f');
  }

  /** bmap's walk when the free blocks are those from f on: it takes them in order, one for each absent node. */
  lemma {:induction false} Fill(v: Vol, p: Path, f: nat, l: set<nat>) returns (v': Vol, f': nat, l': set<nat>)
    requires TreeInv(v) && Packed(v, f) && InFile(v, p) && f + p.Depth() < v.sb.size
    ensures Reached(v, v', l, l', p) && Packed(v', f')
    ensures f <= f' <= f + p.Depth() + 1
    ensures (Addr(v, p) != 0 ==> f' == f) && (p.Child? && Addr(v, p.parent) != 0 ==> f' <= f + 1)
  {
    if Addr(v, p) != 0 {
      ReachedSelf(v, l, p);
      v', f', l' := v, f, l;
    } else if p.Slot? {
      v', f', l' := FillOne(v, p, f, l);
    } else {
      var v1, f1, l1 := Fill(v, p.parent, f, l);
      if Addr(v1, p) != 0 {
        AddrChild(v, p);
        ReachedSelf(v1, l1, p);
        v', f', l' := v1, f1, l1;
      } else {
        v', f', l' := FillOne(v1, p, f1, l1);
      }
      StepDown(v, v1, v', l, l1, l', p);
    }
  }

  ghost predicate LeadsTo(i: nat, q: Path, y: nat) { AtOrAbove(q, NodeOf(i, y)) }

  /** q is on the way to one of the first x blocks. */
  ghost predicate Leads(i: nat, x: nat, q: Path) { exists y: nat :: y < x && LeadsTo(i, q, y) }

  /** From v0, where the first f0 blocks were in use, x blocks have been added to the empty file of inode i. */
  ghost predicate Built(v0: Vol, v: Vol, i: nat, x: nat, f0: nat, f: nat) {
    && Evolves(v0, v, i) && Packed(v, f) && f0 + x <= f && x <= MAXFILE
    && (forall y: nat :: y < x ==> Mapped(v, i, y))
    && (forall k: nat :: FileByte(v, i, k) == FileByte(v0, i, k))
    && (forall b: nat :: f0 <= b < f ==> OwnedBy(v, i, b))
    && (forall q: Path :: q.Inum() == i && Addr(v, q) != 0 ==> Leads(i, x, q))
  }

  ghost predicate NoBlocks(v: Vol, i: nat) { forall q: Path :: q.Inum() == i ==> Addr(v, q) == 0 }

  lemma NothingBuilt(v: Vol, i: nat, f: nat)
    requires TreeInv(v) && i < |v.ins| && Packed(v, f) && NoBlocks(v, i)
    ensures Built(v, v, i, 0, f, f)
  {
    EvolvesSelf(v, i);
  }

  lemma NextAbsent(v0: Vol, v: Vol, i: nat, x: nat, f0: nat, f: nat)
    requires Built(v0, v, i, x, f0, f) && x < MAXFILE
    ensures Addr(v, NodeOf(i, x)) == 0
  {
    var p := NodeOf(i, x);
    NodeOfIndex(i, x);
    if Addr(v, p) != 0 {
      var y: nat :| y < x && LeadsTo(i, p, y);
      NodeOfIndex(i, y);
      AboveShallower(p, NodeOf(i, y));
    }
  }

  lemma OwnedNext(v: Vol, v': Vol, i: nat, p: Path, f: nat, f': nat, b: nat)
    requires Extends(v, v', p) && p.Inum() == i && Packed(v, f) && Packed(v', f') && (f <= b < f' || OwnedBy(v, i, b))
    ensures OwnedBy(v', i, b)
  {
    if OwnedBy(v, i, b) {
      var q: Path :| q.Inum() == i && Addr(v, q) == b;
      assert Addr(v', q) == b;
    } else {
      assert Owned(v', b);
      var q :| Addr(v', q) == b;
      assert Addr(v, q) != 0 ==> Used(v, Addr(v, q));
      AboveInum(q, p);
    }
  }

  lemma NodesNext(v: Vol, v': Vol, i: nat, x: nat, x': nat, q: Path)
    requires Extends(v, v', NodeOf(i, x)) && x' == x + 1 && Addr(v', q) != 0
    requires Addr(v, q) != 0 ==> Leads(i, x, q)
    ensures Leads(i, x', q)
  {
    if Addr(v, q) != 0 {
      var y: nat :| y < x && LeadsTo(i, q, y);
      assert LeadsTo(i, q, y);
    } else {
      assert LeadsTo(i, q, x);
    }
  }

  lemma LeafMore(v: Vol, v': Vol, i: nat, x: nat, x': nat)
    requires Keeps(v, v') && Mapped(v', i, x) && x' == x + 1 && forall y: nat :: y < x ==> Mapped(v, i, y)
    ensures forall y: nat :: y < x' ==> Mapped(v', i, y)
  {
    forall y: nat | y < x'
      ensures Mapped(v', i, y)
    {
      assert y < x ==> Mapped(v, i, y);
    }
  }

  lemma BuiltNext(v0: Vol, v: Vol, v': Vol, l: set<nat>, l': set<nat>, i: nat, x: nat, x': nat, f0: nat, f: nat,
                  f': nat)
    requires Built(v0, v, i, x, f0, f) && Reached(v, v', l, l', NodeOf(i, x))
    requires Packed(v', f') && f < f' && x' == x + 1 <= MAXFILE
    ensures Built(v0, v', i, x', f0, f')
  {
    var p := NodeOf(i, x);
    NodeInum(i, x);
    EvolvesReach(v0, v, v', l, l', p);
    LeafMore(v, v', i, x, x');
    forall b: nat | f0 <= b < f'
      ensures OwnedBy(v', i, b)
    {
      OwnedNext(v, v', i, p, f, f', b);
    }
    forall q: Path | q.Inum() == i && Addr(v', q) != 0
      ensures Leads(i, x', q)
    {
      NodesNext(v, v', i, x, x', q);
    }
  }

  /** One block more takes one to four blocks of the disk; and one, unless it begins a table. */
  lemma NextBlock(v0: Vol, v: Vol, i: nat, x: nat, x': nat, f0: nat, f: nat) returns (v': Vol, f': nat)
    requires Built(v0, v, i, x, f0, f) && x' == x + 1 <= MAXFILE && f + 4 <= v.sb.size
    ensures Built(v0, v', i, x', f0, f') && f < f' <= f + 4 && (x < NDIRECT || !StartsTable(x) ==> f' == f + 1)
  {
    var p := NodeOf(i, x);
    NodeOfIndex(i, x);
    InRangeSlot(p);
    NextAbsent(v0, v, i, x, f0, f);
    if x > NDIRECT && !StartsTable(x) {
      SameTable(i, x);
      assert Mapped(v, i, x - 1);
      AddrChild(v, NodeOf(i, x - 1));
    }
    var l';
    v', f', l' := Fill(v, p, f, {});
    assert Used(v', Addr(v', p)) && !Used(v, Addr(v', p));
    BuiltNext(v0, v, v', {}, l', i, x, x', f0, f, f');
  }

  /** The number of last-level tables that x blocks need, at most. */
  function TablesFor(x: nat): nat { (x + 117) / 128 }

  lemma TablesForNext(x: nat)
    ensures TablesFor(x) <= TablesFor(x + 1)
    ensures (x >= NDIRECT && StartsTable(x) ==> TablesFor(x + 1) == TablesFor(x) + 1)
  {
  }

  lemma {:induction false} BuildBlocks(v0: Vol, i: nat, x: nat, f0: nat) returns (v: Vol, f: nat)
    requires TreeInv(v0) && i < |v0.ins| && Packed(v0, f0) && NoBlocks(v0, i) && x <= MAXFILE
    requires f0 + x + 3 * TablesFor(x) + 3 <= v0.sb.size
    ensures Built(v0, v, i, x, f0, f) && f <= f0 + x + 3 * TablesFor(x)
  {
    if x == 0 {
      NothingBuilt(v0, i, f0);
      v, f := v0, f0;
    } else {
      var w := x - 1;
      TablesForNext(w);
      v, f := BuildBlocks(v0, i, w, f0);
      v, f := NextBlock(v0, v, i, w, x, f0, f);
    }
  }

  /** Blocks are added until the disk is in use up to block t. */
  lemma {:induction false} BuildUpTo(v0: Vol, w: Vol, i: nat, y: nat, f0: nat, e: nat, t: nat)
    returns (v: Vol, x: nat, f: nat)
    requires Built(v0, w, i, y, f0, e) && e < t && t + 3 <= v0.sb.size <= MAXFILE
    ensures Built(v0, v, i, x, f0, f) && t <= f < t + 4 && x > 0
    decreases t - e
  {
    x := y + 1;
    v, f := NextBlock(v0, w, i, y, x, f0, e);
    if f < t {
      v, x, f := BuildUpTo(v0, v, i, x, f0, f, t);
    }
  }

  // ---- the file after the last block ----

  function Zeros(n: nat): seq<Byte> { seq(n, _ => 0) }

  lemma BuiltWriting(v0: Vol, v: Vol, i: nat, x: nat, f0: nat, f: nat, size: nat)
    requires Built(v0, v, i, x, f0, f) && NoBlocks(v0, i) && 0 < size <= x * BSIZE
    ensures Writing(v0, v, i, 0, size, Zeros(size))
  {
    forall k: nat
      ensures FileByte(v0, i, k) == 0
    {
      NodeInum(i, k / BSIZE);
    }
    NodeInum(i, 0);
    assert !Mapped(v0, i, 0);
  }

  lemma BuiltFirstFit(v0: Vol, v: Vol, i: nat, x: nat, f0: nat, f: nat)
    requires Built(v0, v, i, x, f0, f) && Packed(v0, f0)
    ensures Keeps(v0, v) && FirstFit(v0, v)
  {
    forall b: nat | b < v.sb.size && Used(v, b) && !Used(v0, b)
      ensures Owned(v, b)
    {
      assert OwnedBy(v, i, b);
    }
  }

  /** The blocks were taken first-fit, for the data and the tables above it only. */
  lemma BuiltGrew(v0: Vol, v: Vol, i: nat, x: nat, w: nat, f0: nat, f: nat, size: nat)
    requires Built(v0, v, i, x, f0, f) && Packed(v0, f0) && x == w + 1 && w * BSIZE < size <= x * BSIZE
    ensures Grew(v0, v, i, 0, size)
  {
    BuiltFirstFit(v0, v, i, x, f0, f);
    forall q | Fresh(v0, v, q)
      ensures OnWay(i, 0, size, q)
    {
      assert Leads(i, x, q);
      var y: nat :| y < x && LeadsTo(i, q, y);
      assert y * BSIZE <= w * BSIZE;
      assert OnWayTo(i, 0, size, y, q);
    }
  }

  /** writei's tail. */
  lemma Enlarge(v0: Vol, v: Vol, i: nat, size: U32) returns (v': Vol)
    requires Writing(v0, v, i, 0, size, Zeros(size)) && v0.ins[i].size == 0 < size
    ensures Wrote(v0, v', i, 0, Zeros(size)) && SameNodes(v, v')
    ensures v'.ins == v.ins[i := v.ins[i].(size := size)]
  {
    var vs := Resized(v, i, size);
    IupdateSame(v, i, size);
    v' := IupdateVol(vs, i);
    WroteBeyond(v0, v, v', i, 0, Zeros(size));
    SameTreesKeep(v, v');
  }

  /** So size zeros have been written to the file. */
  lemma Finish(v0: Vol, v: Vol, i: nat, x: nat, w: nat, f0: nat, f: nat, size: U32) returns (v': Vol)
    requires Built(v0, v, i, x, f0, f) && NoBlocks(v0, i) && v0.ins[i].size == 0 && Packed(v0, f0)
    requires x == w + 1 && w * BSIZE < size <= x * BSIZE
    ensures Wrote(v0, v', i, 0, Zeros(size)) && Grew(v0, v', i, 0, size) && SameNodes(v, v') && Packed(v', f)
    ensures v'.ins == v.ins[i := v.ins[i].(size := size)]
  {
    BuiltWriting(v0, v, i, x, f0, f, size);
    v' := Enlarge(v0, v, i, size);
    BuiltGrew(v0, v, i, x, w, f0, f, size);
    GrewSame(v0, v, v', i, 0, size);
  }

  lemma OtherEmpty(v: Vol, v': Vol, i: nat, j: nat, off: nat, src: seq<Byte>)
    requires i < |v.ins| && Wrote(v, v', i, off, src) && NoBlocks(v, j) && j != i
    ensures NoBlocks(v', j)
  {
  }

  /**
    What writei does with n zeros for the start of file i: bytes, sizes, and the blocks that balloc takes first-fit.
  */
  ghost predicate Writes(v0: Vol, v: Vol, i: nat, n: nat) {
    i < |v0.ins| && Wrote(v0, v, i, 0, Zeros(n)) && Grew(v0, v, i, 0, n)
  }

  // ---- the chunk that needs the most ----

  lemma BelowTriple(i: nat, y: nat)
    requires y < TRIPLE
    ensures NodeOf(i, y).SlotNo() < NDIRECT + 2
  {
    if NDIRECT <= y < NDIRECT + NINDIRECT {
      Spell1(i, y);
    } else if y >= NDIRECT {
      Spell2(i, y, y - NDIRECT - NINDIRECT);
      assert NodeOf(i, y).parent.SlotNo() == NDIRECT + 1;
    }
  }

  lemma BuiltEnds(v0: Vol, v: Vol, i: nat, f0: nat, f: nat)
    requires Built(v0, v, i, TRIPLE - 1, f0, f)
    ensures !Mapped(v, i, TRIPLE - 1) && v.ins[i].addrs[NDIRECT + 2] == 0
  {
    NextAbsent(v0, v, i, TRIPLE - 1, f0, f);
    var q := Slot(i, NDIRECT + 2);
    AddrSlot(v, i, NDIRECT + 2);
    if Addr(v, q) != 0 {
      assert Leads(i, TRIPLE - 1, q);
      var y: nat :| y < TRIPLE - 1 && LeadsTo(i, q, y);
      BelowTriple(i, y);
      AboveShallower(q, NodeOf(i, y));
    }
  }

  lemma {:induction false} PackedFree(v: Vol, f: nat, lo: nat, k: nat, b: nat)
    requires Packed(v, f)
    ensures var from := if lo < f then f else lo; b in FirstFree(v, lo, k) <==> from <= b < from + k && b < v.sb.size
    decreases v.sb.size - lo
  {
    if k > 0 && lo < v.sb.size {
      PackedFree(v, f, lo + 1, if lo < f then k else k - 1, b);
    }
  }

  lemma TwoBlocks(sb: Super, f: nat, b: nat)
    requires BPB - 5 <= f % BPB && f <= b < f + 6
    ensures BBlock(sb, b) == BBlock(sb, f) || BBlock(sb, b) == BBlock(sb, f) + 1
    ensures b == f + 5 ==> BBlock(sb, b) == BBlock(sb, f) + 1
  {
  }

  lemma TwoGroups(v: Vol, f: nat)
    requires Packed(v, f) && f + 6 <= v.sb.size && BPB - 5 <= f % BPB
    ensures |Groups(v.sb, FirstFree(v, 0, 6))| == 2
  {
    var g := BBlock(v.sb, f);
    forall b: nat
      ensures b in FirstFree(v, 0, 6) <==> f <= b < f + 6
      ensures f <= b < f + 6 ==> BBlock(v.sb, b) == g || BBlock(v.sb, b) == g + 1
    {
      PackedFree(v, f, 0, 6, b);
      if f <= b < f + 6 {
        TwoBlocks(v.sb, f, b);
      }
    }
    var last := f + 5;
    TwoBlocks(v.sb, f, last);
    assert f in FirstFree(v, 0, 6) && last in FirstFree(v, 0, 6);
    assert Groups(v.sb, FirstFree(v, 0, 6)) == {g, g + 1};
  }

  /** One file as long as direct, single and double indirect blocks reach but for one block. */
  lemma FirstFile() returns (v: Vol, f: nat)
    ensures Writes(EmptyVol(), v, 0, (TRIPLE - 2) * BSIZE + 1) && FsInv(v) && Packed(v, f) && f < 5 * BPB - 5
    ensures EndsAtTriple(v, 0) && NoBlocks(v, 1) && v.ins[1].size == 0
  {
    var v0 := EmptyVol();
    EmptyInv();
    forall q
      ensures Addr(v0, q) == 0
    {
      EmptyAddr(q);
    }
    var w;
    w, f := BuildBlocks(v0, 0, TRIPLE - 1, NMETA);
    v := Finish(v0, w, 0, TRIPLE - 1, TRIPLE - 2, NMETA, f, (TRIPLE - 2) * BSIZE + 1);
    WroteKeepsFsInv(v0, v, 0, 0, Zeros((TRIPLE - 2) * BSIZE + 1));
    OtherEmpty(v0, v, 0, 1, 0, Zeros((TRIPLE - 2) * BSIZE + 1));
    BuiltEnds(v0, w, 0, NMETA, f);
  }

  lemma EndsStill(v: Vol, v': Vol, i: nat, j: nat, off: nat, src: seq<Byte>)
    requires EndsAtTriple(v, i) && j < |v.ins| && j != i && Wrote(v, v', j, off, src) && FsInv(v')
    ensures EndsAtTriple(v', i)
  {
    NodeInum(i, TRIPLE - 1);
    assert Untouched(v, v', i);
  }

  /** Another after it, up to the last blocks that one block of the free map records. */
  lemma SecondFile(v1: Vol, f0: nat) returns (v: Vol, f: nat, n: nat)
    requires v1.sb == MKFS && FsInv(v1) && Packed(v1, f0) && f0 < 5 * BPB - 5 && NoBlocks(v1, 1) && v1.ins[1].size == 0
    ensures Writes(v1, v, 1, n) && FsInv(v) && Packed(v, f) && 5 * BPB - 5 <= f < 5 * BPB
  {
    var w, x;
    NothingBuilt(v1, 1, f0);
    w, x, f := BuildUpTo(v1, v1, 1, 0, f0, f0, 5 * BPB - 5);
    n := x * BSIZE;
    v := Finish(v1, w, 1, x, x - 1, f0, f, n);
    WroteKeepsFsInv(v1, v, 1, 0, Zeros(n));
  }

  /** A file system of two files, written one after the other, where the next chunk of the first logs eleven blocks. */
  lemma ElevenBlocks() returns (v1: Vol, v: Vol, n: nat)
    ensures Writes(EmptyVol(), v1, 0, (TRIPLE - 2) * BSIZE + 1) && Writes(v1, v, 1, n) && FsInv(v) && EndsAtTriple(v, 0)
    ensures var off := v.ins[0].size;
            FileCost(v, 0, off, 3 * BSIZE) + BitmapCost(v, 0, off, 3 * BSIZE) == MAXOPBLOCKS + 1
  {
    var f0, f;
    v1, f0 := FirstFile();
    v, f, n := SecondFile(v1, f0);
    EndsStill(v1, v, 0, 1, 0, Zeros(n));
    TwoGroups(v, f);
    TripleCost(v, 0);
  }

  // ---- the file under ten bitmap blocks ----

  lemma OwnedSame(v: Vol, v': Vol, i: nat, b: nat)
    requires SameNodes(v, v') && OwnedBy(v, i, b)
    ensures OwnedBy(v', i, b)
  {
    var q: Path :| q.Inum() == i && Addr(v, q) == b;
    assert Addr(v', q) == b;
  }

  lemma {:induction false} FullRange(lo: nat, hi: nat, s: set<nat>)
    requires lo <= hi && forall c :: c in s <==> lo <= c < hi
    ensures |s| == hi - lo
    decreases hi - lo
  {
    if lo == hi {
      assert s == {};
    } else {
      FullRange(lo + 1, hi, s - {lo});
    }
  }

  lemma AllBitmaps(v: Vol, i: nat)
    requires v.sb == MKFS && forall b: nat :: NMETA <= b <= 9 * BPB ==> OwnedBy(v, i, b)
    ensures |TreeBitmaps(v, i)| == 10
  {
    forall c: nat | 58 <= c < 68
      ensures c in TreeBitmaps(v, i)
    {
      var b := if c == 58 then NMETA else (c - 58) * BPB;
      assert HasBit(v, i, b, c);
    }
    FullRange(58, 68, TreeBitmaps(v, i));
  }

  /** A file system of one file whose itrunc logs eleven blocks. */
  lemma TenBitmaps() returns (v: Vol, n: nat)
    ensures Writes(EmptyVol(), v, 0, n) && FsInv(v)
    ensures |{IBlock(v.sb, 0)} + TreeBitmaps(v, 0)| == MAXOPBLOCKS + 1
  {
    var v0 := EmptyVol();
    EmptyInv();
    forall q
      ensures Addr(v0, q) == 0
    {
      EmptyAddr(q);
    }
    NothingBuilt(v0, 0, NMETA);
    var w, x, f := BuildUpTo(v0, v0, 0, 0, NMETA, NMETA, 9 * BPB + 1);
    n := x * BSIZE;
    v := Finish(v0, w, 0, x, x - 1, NMETA, f, n);
    WroteKeepsFsInv(v0, v, 0, 0, Zeros(n));
    forall b: nat | NMETA <= b <= 9 * BPB
      ensures OwnedBy(v, 0, b)
    {
      OwnedSame(w, v, 0, b);
    }
    AllBitmaps(v, 0);
    TruncFits(v, 0);
  }
}
