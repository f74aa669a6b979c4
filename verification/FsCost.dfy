/** The blocks a call of writei logs: which they are, and from the volume before the call how many. */
module FsCost {
  import opened Blocks
  import opened FsTree
  import opened FsIndex
  import opened FsGrow
  import opened FsWalk
  import opened FsIo
  import opened Param
  import opened Sets

  // ---- which blocks ----

  /** File block x holds some of the tot bytes at off. */
  predicate Covers(off: nat, tot: nat, x: nat) { tot > 0 && off / BSIZE <= x && x * BSIZE < off + tot }

  ghost predicate OnWayTo(i: nat, off: nat, tot: nat, x: nat, q: Path) {
    Covers(off, tot, x) && AtOrAbove(q, NodeOf(i, x))
  }

  ghost predicate OnWay(i: nat, off: nat, tot: nat, q: Path) { exists x: nat :: OnWayTo(i, off, tot, x, q) }

  /** The tree of inode i grew, first-fit, by nodes on the way to the tot bytes at off, whose blocks are now there. */
  ghost predicate Grew(v0: Vol, v: Vol, i: nat, off: nat, tot: nat) {
    && Keeps(v0, v) && FirstFit(v0, v) && RangeMapped(v, i, off, tot)
    && (forall q :: Fresh(v0, v, q) ==> OnWay(i, off, tot, q))
  }

  ghost predicate DataAt(v: Vol, i: nat, off: nat, tot: nat, x: nat, b: nat) {
    Covers(off, tot, x) && b == Addr(v, NodeOf(i, x))
  }

  ghost predicate HoldsData(v: Vol, i: nat, off: nat, tot: nat, b: nat) {
    exists x: nat :: DataAt(v, i, off, tot, x, b)
  }

  /** Logged are exactly l0, the data blocks of the tot bytes, and what their allocation logs. */
  ghost predicate Logs(v0: Vol, v: Vol, l0: set<nat>, l: set<nat>, i: nat, off: nat, tot: nat) {
    && Grew(v0, v, i, off, tot)
    && forall b :: b in l <==> b in l0 || LoggedForSome(v0, v, b) || HoldsData(v, i, off, tot, b)
  }

  lemma LogsStart(v: Vol, l: set<nat>, i: nat, off: nat)
    ensures Logs(v, v, l, l, i, off, 0)
  {
  }

  lemma CoversMore(off: nat, tot: nat, end: nat, bn: nat, x: nat)
    requires tot < end && (off + tot) % BSIZE + (end - tot) <= BSIZE && bn == (off + tot) / BSIZE
    ensures Covers(off, end, x) <==> Covers(off, tot, x) || x == bn
  {
  }

  lemma GrewReach(v0: Vol, v: Vol, v1: Vol, l: set<nat>, l1: set<nat>, i: nat, off: nat, tot: nat, end: nat, bn: nat)
    requires Grew(v0, v, i, off, tot) && Reached(v, v1, l, l1, NodeOf(i, bn))
    requires tot < end && (off + tot) % BSIZE + (end - tot) <= BSIZE && bn == (off + tot) / BSIZE
    ensures Keeps(v, v1) && Grew(v0, v1, i, off, end)
  {
    FirstFitTrans(v0, v, v1);
    forall q | Fresh(v0, v1, q)
      ensures OnWay(i, off, end, q)
    {
      if Fresh(v0, v, q) {
        var x: nat :| OnWayTo(i, off, tot, x, q);
        CoversMore(off, tot, end, bn, x);
        assert OnWayTo(i, off, end, x, q);
      } else {
        CoversMore(off, tot, end, bn, bn);
        assert OnWayTo(i, off, end, bn, q);
      }
    }
    assert RangeMapped(v1, i, off, tot) by {
      assert forall x: nat :: Mapped(v, i, x) ==> Mapped(v1, i, x);
    }
    RangeStep(v1, i, off, tot, end, bn);
  }

  lemma DataReach(v: Vol, v1: Vol, i: nat, off: nat, tot: nat, end: nat, bn: nat, b: nat)
    requires Keeps(v, v1) && RangeMapped(v, i, off, tot)
    requires tot < end && (off + tot) % BSIZE + (end - tot) <= BSIZE && bn == (off + tot) / BSIZE
    ensures HoldsData(v1, i, off, end, b) <==> HoldsData(v, i, off, tot, b) || b == Addr(v1, NodeOf(i, bn))
  {
    CoversMore(off, tot, end, bn, bn);
    assert b == Addr(v1, NodeOf(i, bn)) ==> DataAt(v1, i, off, end, bn, b);
    if x: nat :| DataAt(v, i, off, tot, x, b) {
      CoversMore(off, tot, end, bn, x);
      assert Mapped(v, i, x);
      assert DataAt(v1, i, off, end, x, b);
    }
    if x: nat :| DataAt(v1, i, off, end, x, b) {
      CoversMore(off, tot, end, bn, x);
      if Covers(off, tot, x) {
        assert Mapped(v, i, x);
        assert DataAt(v, i, off, tot, x, b);
      }
    }
  }

  /** One pass of writei's loop up to the block write. */
  lemma LogsReach(v0: Vol, v: Vol, v1: Vol, l0: set<nat>, l: set<nat>, l1: set<nat>, l2: set<nat>,
                  i: nat, off: nat, tot: nat, end: nat, bn: nat)
    requires Logs(v0, v, l0, l, i, off, tot) && Reached(v, v1, l, l1, NodeOf(i, bn))
    requires l2 == l1 + {Addr(v1, NodeOf(i, bn))}
    requires tot < end && (off + tot) % BSIZE + (end - tot) <= BSIZE && bn == (off + tot) / BSIZE
    ensures Logs(v0, v1, l0, l2, i, off, end)
  {
    GrewReach(v0, v, v1, l, l1, i, off, tot, end, bn);
    forall b
      ensures b in l2 <==> b in l0 || LoggedForSome(v0, v1, b) || HoldsData(v1, i, off, end, b)
    {
      LoggedTrans(v0, v, v1, b);
      DataReach(v, v1, i, off, tot, end, bn, b);
    }
  }

  /** The same nodes in the same blocks, and the same blocks in use. */
  ghost predicate SameNodes(v: Vol, v': Vol) {
    && v'.sb == v.sb
    && (forall q :: Addr(v', q) == Addr(v, q))
    && (forall b: nat :: b < v.sb.size ==> Used(v', b) == Used(v, b))
  }

  lemma GrewSame(v0: Vol, v: Vol, v': Vol, i: nat, off: nat, tot: nat)
    requires Grew(v0, v, i, off, tot) && SameNodes(v, v')
    ensures Grew(v0, v', i, off, tot)
  {
    forall b: nat | b < v.sb.size && Used(v', b) && !Used(v0, b)
      ensures Owned(v', b)
    {
      assert Owned(v, b);
      var q :| Addr(v, q) == b;
      assert Addr(v', q) == b;
    }
    forall b: nat, c: nat
      ensures !Skips(v0, v', b, c)
    {
      assert !Skips(v0, v, b, c);
    }
    forall q | Fresh(v0, v', q)
      ensures OnWay(i, off, tot, q)
    {
      assert Fresh(v0, v, q);
    }
    assert forall x: nat :: Mapped(v, i, x) ==> Mapped(v', i, x);
  }

  /** A step that keeps all nodes and logs the blocks `more`. */
  lemma LogsSame(v0: Vol, v: Vol, v': Vol, l0: set<nat>, l: set<nat>, i: nat, off: nat, tot: nat,
                 more: set<nat>, l0': set<nat>, l': set<nat>)
    requires Logs(v0, v, l0, l, i, off, tot) && SameNodes(v, v') && l0' == l0 + more && l' == l + more
    ensures Logs(v0, v', l0', l', i, off, tot)
  {
    GrewSame(v0, v, v', i, off, tot);
    forall b
      ensures LoggedForSome(v0, v', b) == LoggedForSome(v0, v, b)
      ensures HoldsData(v', i, off, tot, b) == HoldsData(v, i, off, tot, b)
    {
      if q :| LoggedFor(v0, v, q, b) {
        assert LoggedFor(v0, v', q, b);
      }
      if q :| LoggedFor(v0, v', q, b) {
        assert LoggedFor(v0, v, q, b);
      }
      if x: nat :| DataAt(v, i, off, tot, x, b) {
        assert DataAt(v', i, off, tot, x, b);
      }
      if x: nat :| DataAt(v', i, off, tot, x, b) {
        assert DataAt(v, i, off, tot, x, b);
      }
    }
  }

  lemma WriteSame(v: Vol, p: Path, blk: Block)
    requires CanWrite(v, p)
    ensures SameNodes(v, WriteVol(v, p, blk))
  {
    forall q
      ensures Addr(WriteVol(v, p, blk), q) == Addr(v, q)
    {
      WriteAddr(v, p, blk, q);
    }
    forall b: nat | b < v.sb.size
      ensures Used(WriteVol(v, p, blk), b) == Used(v, b)
    {
      WriteUsed(v, p, blk, b);
    }
  }

  /** One pass of writei's loop. */
  lemma LogsPiece(v0: Vol, v: Vol, v1: Vol, v2: Vol, blk: Block, l0: set<nat>, l: set<nat>, l1: set<nat>, l2: set<nat>,
                  i: nat, off: nat, tot: nat, end: nat, bn: nat)
    requires Logs(v0, v, l0, l, i, off, tot) && Reached(v, v1, l, l1, NodeOf(i, bn))
    requires l2 == l1 + {Addr(v1, NodeOf(i, bn))}
    requires tot < end && (off + tot) % BSIZE + (end - tot) <= BSIZE && bn == (off + tot) / BSIZE && bn < MAXFILE
    requires Addr(v1, NodeOf(i, bn)) < |v1.d| && v2 == v1.(d := v1.d[Addr(v1, NodeOf(i, bn)) := blk])
    ensures Logs(v0, v2, l0, l2, i, off, end)
  {
    NodeOfIndex(i, bn);
    LogsReach(v0, v, v1, l0, l, l1, l2, i, off, tot, end, bn);
    WriteSame(v1, NodeOf(i, bn), blk);
    LogsSame(v0, v1, v2, l0, l2, i, off, end, {}, l0, l2);
  }

  /** writei's loop after tot bytes of src: the file and the log. */
  ghost predicate Passed(v0: Vol, v: Vol, l0: set<nat>, l: set<nat>, i: nat, off: nat, tot: nat, src: seq<Byte>) {
    Writing(v0, v, i, off, tot, src) && Logs(v0, v, l0, l, i, off, tot)
  }

  lemma PassedStart(v: Vol, l: set<nat>, i: nat, off: nat, src: seq<Byte>)
    requires TreeInv(v) && i < |v.ins| && off + |src| <= MAXFILE * BSIZE
    ensures Passed(v, v, l, l, i, off, 0, src)
  {
    WritingStart(v, i, off, src);
    LogsStart(v, l, i, off);
  }

  /** The inode block, when the write moves the end of the file. */
  function InodeLog(v: Vol, i: nat, off: nat, n: nat): set<nat>
    requires i < |v.ins|
  {
    if n > 0 && off + n > v.ins[i].size then {IBlock(v.sb, i)} else {}
  }

  // ---- the tables a small write touches ----

  /** The tables above a node, nearest first. */
  function Tables(p: Path): seq<Path> {
    if p.Slot? then [] else [p.parent] + Tables(p.parent)
  }

  predicate StartsTable(x: nat) { x >= NDIRECT && (x - NDIRECT) % NINDIRECT == 0 }

  /** The first of x, ..., x + 3 that begins a new last-level table, if any. */
  function Crossing(x: nat): nat {
    if StartsTable(x) then x else if StartsTable(x + 1) then x + 1 else if StartsTable(x + 2) then x + 2 else x + 3
  }

  /**
    Tables that get a new entry when a hole-free file is written at blocks x, ..., x + 3, its end no earlier than x.
  */
  function TouchedTables(i: nat, x: nat): seq<Path> {
    (if NodeOf(i, x).Child? then [NodeOf(i, x).parent] else [])
    + (if StartsTable(Crossing(x)) && Crossing(x) < MAXFILE then Tables(NodeOf(i, Crossing(x))) else [])
  }

  lemma {:induction false} TablesDepth(p: Path)
    ensures |Tables(p)| == p.Depth()
  {
    if p.Child? {
      TablesDepth(p.parent);
    }
  }

  lemma AtMostFourTables(i: nat, x: nat)
    ensures |TouchedTables(i, x)| <= 4
  {
    var y := Crossing(x);
    if y < MAXFILE {
      NodeOfIndex(i, y);
      InRangeSlot(NodeOf(i, y));
      TablesDepth(NodeOf(i, y));
    }
  }

  lemma SubMultiple(b: nat, c: nat)
    requires b >= 128 * c && b % 128 != 0
    ensures (b - 128 * c) % 128 == b % 128 && b > 128 * c
  {
  }

  lemma SameQuotient(b: nat)
    requires b % 128 != 0
    ensures b > 0 && (b - 1) / 128 == b / 128
  {
  }

  lemma {:induction false} SameTableRadix(i: nat, l: nat, b: nat)
    requires 1 <= l <= 3 && b % NINDIRECT != 0
    ensures Radix(i, l, b).Child? && Radix(i, l, b - 1).Child? && Radix(i, l, b).parent == Radix(i, l, b - 1).parent
    decreases 3 - l
  {
    SameQuotient(b);
    if b >= Cap(l) {
      assert Cap(l) == NINDIRECT * Cap(l - 1);
      SubMultiple(b, Cap(l - 1));
      if l < 3 {
        SameTableRadix(i, l + 1, b - Cap(l));
      }
    }
  }

  /** A block that does not begin a last-level table shares its table with the block before it. */
  lemma SameTable(i: nat, x: nat)
    requires NDIRECT < x < MAXFILE && !StartsTable(x)
    ensures NodeOf(i, x).Child? && NodeOf(i, x - 1).Child? && NodeOf(i, x).parent == NodeOf(i, x - 1).parent
  {
    SameTableRadix(i, 1, x - NDIRECT);
  }

  lemma {:induction false} AboveInTables(c: Path, p: Path)
    requires AtOrAbove(c, p)
    ensures c == p || c in Tables(p)
    ensures c.Child? ==> c.parent in Tables(p)
  {
    if c != p {
      AboveInTables(c, p.parent);
    }
  }

  lemma CrossingIs(x0: nat, x: nat)
    requires x0 <= x < x0 + 4 && StartsTable(x)
    ensures Crossing(x0) == x
  {
  }

  lemma {:induction false} LeafTableTouched(i: nat, x0: nat, x: nat)
    requires x0 <= x < x0 + 4 && x < MAXFILE && NodeOf(i, x).Child?
    ensures NodeOf(i, x).parent in TouchedTables(i, x0)
    decreases x - x0
  {
    if StartsTable(x) {
      CrossingIs(x0, x);
    } else if x > x0 {
      SameTable(i, x);
      LeafTableTouched(i, x0, x - 1);
    }
  }

  /** In a hole-free file, every table that lacks an entry on the way to block x is one of these. */
  lemma {:induction false} AbsentTouched(v: Vol, i: nat, x0: nat, x: nat, c: Path)
    requires x0 <= x < x0 + 4 && x < MAXFILE && (Mapped(v, i, x0) || x0 == 0 || Mapped(v, i, x0 - 1))
    requires AtOrAbove(c, NodeOf(i, x)) && Addr(v, c) == 0 && c.Child?
    ensures c.parent in TouchedTables(i, x0)
    decreases x - x0
  {
    var p := NodeOf(i, x);
    AboveInTables(c, p);
    if StartsTable(x) {
      CrossingIs(x0, x);
    } else if c == p {
      LeafTableTouched(i, x0, x);
    } else {
      SameTable(i, x);
      if x > x0 {
        AbsentTouched(v, i, x0, x - 1, c);
      } else {
        AbovePresent(v, c, if Mapped(v, i, x0) then p else NodeOf(i, x0 - 1));
      }
    }
  }

  // ---- how many ----

  /** The number of file blocks that hold the n bytes at off. */
  function Span(off: nat, n: nat): nat { if n == 0 then 0 else (off + n - 1) / BSIZE + 1 - off / BSIZE }

  lemma CoversSpan(off: nat, n: nat, x: nat)
    ensures Covers(off, n, x) <==> off / BSIZE <= x < off / BSIZE + Span(off, n)
  {
  }

  function Above(p: Path): set<Path> { if p.Slot? then {p} else {p} + Above(p.parent) }

  lemma {:induction false} InAbove(q: Path, p: Path)
    ensures AtOrAbove(q, p) <==> q in Above(p)
  {
    if p.Child? {
      InAbove(q, p.parent);
    }
  }

  /** The nodes of file blocks x, ..., x + k - 1. */
  function Leaves(i: nat, x: nat, k: nat): set<Path> { set y: nat | x <= y < x + k :: NodeOf(i, y) }

  /** These and all nodes above them. */
  function Spine(i: nat, x: nat, k: nat): set<Path> { set y: nat, q | x <= y < x + k && q in Above(NodeOf(i, y)) :: q }

  /** The nodes a write of n bytes at off has to add to the tree. */
  function Absent(v: Vol, i: nat, off: nat, n: nat): set<Path> {
    set q | q in Spine(i, off / BSIZE, Span(off, n)) && Addr(v, q) == 0
  }

  function Parents(s: set<Path>): set<Path> { set q | q in s && q.Child? :: q.parent }

  /** The k lowest free blocks from b on, or all of them when there are fewer. */
  function FirstFree(v: Vol, b: nat, k: nat): set<nat>
    decreases v.sb.size - b
  {
    if k == 0 || b >= v.sb.size then {}
    else if Used(v, b) then FirstFree(v, b + 1, k)
    else {b} + FirstFree(v, b + 1, k - 1)
  }

  /** The bitmap blocks that record these blocks. */
  function Groups(sb: Super, s: set<nat>): set<nat> { set b | b in s :: BBlock(sb, b) }

  /** Data blocks, tables with a new entry and the inode block of a write of n bytes at off. */
  function FileCost(v: Vol, i: nat, off: nat, n: nat): nat
    requires i < |v.ins|
  {
    Span(off, n) + |Parents(Absent(v, i, off, n))| + |InodeLog(v, i, off, n)|
  }

  /** And the bitmap blocks of the lowest free blocks, one for each absent node. */
  function BitmapCost(v: Vol, i: nat, off: nat, n: nat): nat {
    |Groups(v.sb, FirstFree(v, 0, |Absent(v, i, off, n)|))|
  }

  lemma OnWaySpine(i: nat, off: nat, n: nat, q: Path)
    ensures OnWay(i, off, n, q) <==> q in Spine(i, off / BSIZE, Span(off, n))
  {
    if x: nat :| OnWayTo(i, off, n, x, q) {
      CoversSpan(off, n, x);
      InAbove(q, NodeOf(i, x));
    }
    if q in Spine(i, off / BSIZE, Span(off, n)) {
      var x: nat :| off / BSIZE <= x < off / BSIZE + Span(off, n) && q in Above(NodeOf(i, x));
      CoversSpan(off, n, x);
      InAbove(q, NodeOf(i, x));
      assert OnWayTo(i, off, n, x, q);
    }
  }

  lemma FreshIsAbsent(v0: Vol, v: Vol, i: nat, off: nat, n: nat, q: Path)
    requires Grew(v0, v, i, off, n)
    ensures Fresh(v0, v, q) <==> q in Absent(v0, i, off, n)
  {
    OnWaySpine(i, off, n, q);
    if q in Absent(v0, i, off, n) {
      var x: nat :| OnWayTo(i, off, n, x, q);
      assert Mapped(v, i, x);
      AbovePresent(v, q, NodeOf(i, x));
    }
  }

  lemma {:induction false} NextOnWay(q: Path, p: Path) returns (c: Path)
    requires AtOrAbove(q, p) && q != p
    ensures c.Child? && c.parent == q && AtOrAbove(c, p)
  {
    if p.parent == q {
      c := p;
    } else {
      c := NextOnWay(q, p.parent);
    }
  }

  /** An absent node is a data block or a table with a new entry. */
  lemma AbsentPlace(v: Vol, i: nat, off: nat, n: nat, q: Path)
    requires q in Absent(v, i, off, n)
    ensures q in Leaves(i, off / BSIZE, Span(off, n)) || q in Parents(Absent(v, i, off, n))
  {
    OnWaySpine(i, off, n, q);
    var x: nat :| OnWayTo(i, off, n, x, q);
    CoversSpan(off, n, x);
    if q != NodeOf(i, x) {
      var c := NextOnWay(q, NodeOf(i, x));
      AddrChild(v, c);
      assert OnWayTo(i, off, n, x, c);
      OnWaySpine(i, off, n, c);
      assert c in Absent(v, i, off, n);
    }
  }

  function AddrSet(v: Vol, s: set<Path>): set<nat> { set q | q in s :: Addr(v, q) }

  lemma {:induction false} AddrSetSize(v: Vol, s: set<Path>)
    requires TreeInv(v) && forall q :: q in s ==> Addr(v, q) != 0
    ensures |AddrSet(v, s)| == |s|
  {
    if q :| q in s {
      AddrSetSize(v, s - {q});
      assert AddrSet(v, s) == AddrSet(v, s - {q}) + {Addr(v, q)};
      if Addr(v, q) in AddrSet(v, s - {q}) {
        var r :| r in s - {q} && Addr(v, r) == Addr(v, q);
        Distinct(v, q, r);
      }
    } else {
      assert s == {} && AddrSet(v, s) == {};
    }
  }

  lemma NewLeaf(i: nat, x: nat, k: nat)
    requires x + k < MAXFILE
    ensures NodeOf(i, x + k) !in Leaves(i, x, k)
  {
    NodeOfIndex(i, x + k);
    if y: nat :| x <= y < x + k && NodeOf(i, y) == NodeOf(i, x + k) {
      NodeOfIndex(i, y);
    }
  }

  lemma NextLeaf(i: nat, x: nat, k: nat)
    requires x + k < MAXFILE
    ensures |Leaves(i, x, k + 1)| == |Leaves(i, x, k)| + 1
  {
    NewLeaf(i, x, k);
    assert Leaves(i, x, k + 1) == Leaves(i, x, k) + {NodeOf(i, x + k)};
  }

  lemma {:induction false} LeavesSize(i: nat, x: nat, k: nat)
    requires x + k <= MAXFILE
    ensures |Leaves(i, x, k)| == k
  {
    if k == 0 {
      assert Leaves(i, x, 0) == {};
    } else {
      LeavesSize(i, x, k - 1);
      NextLeaf(i, x, k - 1);
    }
  }

  /** Block b of s is free, and so is no block below it from lo on that is not in s. */
  ghost predicate LowestIn(v: Vol, s: set<nat>, lo: nat, b: nat) {
    lo <= b < v.sb.size && !Used(v, b) && forall c: nat :: lo <= c < b && !Used(v, c) ==> c in s
  }

  lemma {:induction false} FirstFreeHas(v: Vol, lo: nat, k: nat, s: set<nat>)
    requires (forall b :: b in s ==> LowestIn(v, s, lo, b)) && |s| <= k
    ensures s <= FirstFree(v, lo, k) && (|s| == k ==> s == FirstFree(v, lo, k))
    decreases v.sb.size - lo
  {
    var next, rest := lo + 1, s - {lo};
    if b :| b in s {
      assert LowestIn(v, s, lo, b);
      forall c | c in rest
        ensures LowestIn(v, rest, next, c)
      {
        assert LowestIn(v, s, lo, c);
      }
      FirstFreeHas(v, next, if Used(v, lo) then k else k - 1, rest);
    } else {
      assert s == {};
    }
  }

  /** The blocks taken for the absent nodes are the lowest free blocks. */
  lemma TakenLowest(v0: Vol, v: Vol, i: nat, off: nat, n: nat, b: nat)
    requires TreeInv(v0) && TreeInv(v) && Grew(v0, v, i, off, n)
    requires forall q :: Fresh(v0, v, q) ==> !Used(v0, Addr(v, q))
    requires b in AddrSet(v, Absent(v0, i, off, n))
    ensures LowestIn(v0, AddrSet(v, Absent(v0, i, off, n)), 0, b)
  {
    var q :| q in Absent(v0, i, off, n) && Addr(v, q) == b;
    FreshIsAbsent(v0, v, i, off, n, q);
    forall c: nat | c < b && !Used(v0, c)
      ensures c in AddrSet(v, Absent(v0, i, off, n))
    {
      assert !Skips(v0, v, c, b);
      var r :| Addr(v, r) == c;
      assert Addr(v0, r) != 0 ==> Used(v0, Addr(v0, r));
      FreshIsAbsent(v0, v, i, off, n, r);
    }
  }

  lemma TakenIs(v0: Vol, v: Vol, i: nat, off: nat, n: nat)
    requires TreeInv(v0) && TreeInv(v) && Grew(v0, v, i, off, n)
    requires forall q :: Fresh(v0, v, q) ==> !Used(v0, Addr(v, q))
    ensures AddrSet(v, Absent(v0, i, off, n)) == FirstFree(v0, 0, |Absent(v0, i, off, n)|)
  {
    var a := Absent(v0, i, off, n);
    forall b | b in AddrSet(v, a)
      ensures LowestIn(v0, AddrSet(v, a), 0, b)
    {
      TakenLowest(v0, v, i, off, n, b);
    }
    forall q | q in a
      ensures Addr(v, q) != 0
    {
      FreshIsAbsent(v0, v, i, off, n, q);
    }
    AddrSetSize(v, a);
    FirstFreeHas(v0, 0, |a|, AddrSet(v, a));
  }

  // ---- the log of one call ----

  lemma PartLogged(v0: Vol, v: Vol, l: set<nat>, i: nat, off: nat, n: nat, b: nat)
    requires i < |v0.ins| && Logs(v0, v, InodeLog(v0, i, off, n), l, i, off, n)
    requires || b in AddrSet(v, Leaves(i, off / BSIZE, Span(off, n)))
             || b in AddrSet(v, Parents(Absent(v0, i, off, n)))
             || b in Groups(v0.sb, AddrSet(v, Absent(v0, i, off, n)))
    ensures b in l
  {
    if b in AddrSet(v, Leaves(i, off / BSIZE, Span(off, n))) {
      var x: nat :| off / BSIZE <= x < off / BSIZE + Span(off, n) && Addr(v, NodeOf(i, x)) == b;
      CoversSpan(off, n, x);
      assert DataAt(v, i, off, n, x, b);
    } else if b in AddrSet(v, Parents(Absent(v0, i, off, n))) {
      var q :| q in Absent(v0, i, off, n) && q.Child? && Addr(v, q.parent) == b;
      FreshIsAbsent(v0, v, i, off, n, q);
      assert LoggedFor(v0, v, q, b);
    } else {
      var q :| q in Absent(v0, i, off, n) && BBlock(v0.sb, Addr(v, q)) == b;
      FreshIsAbsent(v0, v, i, off, n, q);
      assert LoggedFor(v0, v, q, b);
    }
  }

  lemma LoggedPart(v0: Vol, v: Vol, l: set<nat>, i: nat, off: nat, n: nat, b: nat)
    requires i < |v0.ins| && Logs(v0, v, InodeLog(v0, i, off, n), l, i, off, n) && b in l
    ensures || b in AddrSet(v, Leaves(i, off / BSIZE, Span(off, n)))
            || b in AddrSet(v, Parents(Absent(v0, i, off, n)))
            || b in Groups(v0.sb, AddrSet(v, Absent(v0, i, off, n)))
            || b in InodeLog(v0, i, off, n)
  {
    if q :| LoggedFor(v0, v, q, b) {
      FreshIsAbsent(v0, v, i, off, n, q);
      AbsentPlace(v0, i, off, n, q);
      assert Addr(v, q) in AddrSet(v, Absent(v0, i, off, n));
    } else if x: nat :| DataAt(v, i, off, n, x, b) {
      CoversSpan(off, n, x);
    }
  }

  /** No table with a new entry is a data block. */
  lemma TablesApart(v0: Vol, i: nat, off: nat, n: nat, p: Path)
    requires off + n <= MAXFILE * BSIZE && p in Parents(Absent(v0, i, off, n))
    ensures !p.Leaf() && p !in Leaves(i, off / BSIZE, Span(off, n))
  {
    var c :| c in Absent(v0, i, off, n) && c.Child? && c.parent == p;
    OnWaySpine(i, off, n, c);
    var x: nat :| OnWayTo(i, off, n, x, c);
    NodeOfIndex(i, x);
    AboveShallower(c, NodeOf(i, x));
    if y: nat :| off / BSIZE <= y < off / BSIZE + Span(off, n) && NodeOf(i, y) == p {
      CoversSpan(off, n, y);
      NodeOfIndex(i, y);
    }
  }

  lemma NodePresent(v0: Vol, v: Vol, i: nat, off: nat, n: nat, q: Path)
    requires Grew(v0, v, i, off, n)
    requires q in Leaves(i, off / BSIZE, Span(off, n)) || q in Parents(Absent(v0, i, off, n))
    ensures Addr(v, q) != 0
  {
    if q in Leaves(i, off / BSIZE, Span(off, n)) {
      var x: nat :| off / BSIZE <= x < off / BSIZE + Span(off, n) && NodeOf(i, x) == q;
      CoversSpan(off, n, x);
      assert Mapped(v, i, x);
    } else {
      var c :| c in Absent(v0, i, off, n) && c.Child? && c.parent == q;
      FreshIsAbsent(v0, v, i, off, n, c);
      AddrChild(v, c);
    }
  }

  lemma SpanFits(off: nat, n: nat)
    requires off + n <= MAXFILE * BSIZE
    ensures n > 0 ==> off / BSIZE + Span(off, n) <= MAXFILE
    ensures off / BSIZE <= MAXFILE
  {
  }

  /** Data blocks and tables: as many as there are nodes, all in the data region. */
  lemma FileBlocks(v0: Vol, v: Vol, i: nat, off: nat, n: nat, bs: set<nat>)
    requires TreeInv(v) && Grew(v0, v, i, off, n) && off + n <= MAXFILE * BSIZE
    requires bs == AddrSet(v, Leaves(i, off / BSIZE, Span(off, n))) + AddrSet(v, Parents(Absent(v0, i, off, n)))
    ensures |bs| == Span(off, n) + |Parents(Absent(v0, i, off, n))|
    ensures forall b :: b in bs ==> v.sb.Nmeta() <= b
  {
    var ls, ps := Leaves(i, off / BSIZE, Span(off, n)), Parents(Absent(v0, i, off, n));
    forall q | q in ls + ps
      ensures Addr(v, q) != 0
    {
      NodePresent(v0, v, i, off, n, q);
    }
    forall p | p in ps
      ensures p !in ls
    {
      TablesApart(v0, i, off, n, p);
    }
    assert bs == AddrSet(v, ls + ps) && ls * ps == {};
    AddrSetSize(v, ls + ps);
    SpanFits(off, n);
    LeavesSize(i, off / BSIZE, Span(off, n));
  }

  function NonBitmap(sb: Super, l: set<nat>): set<nat> {
    set b | b in l && !IsBitmap(sb, b)
  }

  lemma LogParts(v0: Vol, v: Vol, l: set<nat>, i: nat, off: nat, n: nat)
    requires i < |v0.ins| && Logs(v0, v, InodeLog(v0, i, off, n), l, i, off, n)
    ensures l == AddrSet(v, Leaves(i, off / BSIZE, Span(off, n))) + AddrSet(v, Parents(Absent(v0, i, off, n)))
                 + InodeLog(v0, i, off, n) + Groups(v0.sb, AddrSet(v, Absent(v0, i, off, n)))
  {
    forall b | b in l
      ensures || b in AddrSet(v, Leaves(i, off / BSIZE, Span(off, n)))
              || b in AddrSet(v, Parents(Absent(v0, i, off, n)))
              || b in Groups(v0.sb, AddrSet(v, Absent(v0, i, off, n)))
              || b in InodeLog(v0, i, off, n)
    {
      LoggedPart(v0, v, l, i, off, n, b);
    }
    forall b | || b in AddrSet(v, Leaves(i, off / BSIZE, Span(off, n)))
               || b in AddrSet(v, Parents(Absent(v0, i, off, n)))
               || b in Groups(v0.sb, AddrSet(v, Absent(v0, i, off, n)))
      ensures b in l
    {
      PartLogged(v0, v, l, i, off, n, b);
    }
  }

  lemma PartSizes(sb: Super, bs: set<nat>, inode: set<nat>, gs: set<nat>, l: set<nat>)
    requires sb.Layout() && l == bs + inode + gs
    requires forall b :: b in bs ==> sb.Nmeta() <= b
    requires forall b :: b in inode ==> b < sb.bmapstart
    requires forall b :: b in gs ==> IsBitmap(sb, b)
    ensures |NonBitmap(sb, l)| == |bs| + |inode| && |l| == |bs| + |inode| + |gs|
  {
    assert NonBitmap(sb, l) == bs + inode && bs * inode == {};
    assert l == NonBitmap(sb, l) + gs && NonBitmap(sb, l) * gs == {};
  }

  lemma GroupsAreBitmap(sb: Super, s: set<nat>)
    requires sb.Layout() && forall b :: b in s ==> b < sb.size
    ensures forall g :: g in Groups(sb, s) ==> IsBitmap(sb, g)
  {
  }

  lemma {:induction false} FirstFreeBelow(v: Vol, lo: nat, k: nat, b: nat)
    requires b in FirstFree(v, lo, k)
    ensures lo <= b < v.sb.size && !Used(v, b)
    decreases v.sb.size - lo
  {
    if Used(v, lo) {
      FirstFreeBelow(v, lo + 1, k, b);
    } else if b != lo {
      FirstFreeBelow(v, lo + 1, k - 1, b);
    }
  }

  /** The exact number of blocks one call of writei logs, from the volume before it. */
  lemma CostIs(v0: Vol, v: Vol, l: set<nat>, i: nat, off: nat, src: seq<Byte>)
    requires i < |v0.ins| && Wrote(v0, v, i, off, src)
    requires Logs(v0, v, InodeLog(v0, i, off, |src|), l, i, off, |src|)
    ensures |NonBitmap(v0.sb, l)| == FileCost(v0, i, off, |src|)
    ensures |l| == FileCost(v0, i, off, |src|) + BitmapCost(v0, i, off, |src|)
  {
    var n := |src|;
    var bs := AddrSet(v, Leaves(i, off / BSIZE, Span(off, n))) + AddrSet(v, Parents(Absent(v0, i, off, n)));
    var taken := FirstFree(v0, 0, |Absent(v0, i, off, n)|);
    LogParts(v0, v, l, i, off, n);
    FileBlocks(v0, v, i, off, n, bs);
    TakenIs(v0, v, i, off, n);
    forall b | b in taken
      ensures b < v0.sb.size
    {
      FirstFreeBelow(v0, 0, |Absent(v0, i, off, n)|, b);
    }
    GroupsAreBitmap(v0.sb, taken);
    PartSizes(v0.sb, bs, InodeLog(v0, i, off, n), Groups(v0.sb, taken), l);
  }

  // ---- one chunk of filewrite ----

  /** At most three blocks long, and starting inside a hole-free file. */
  ghost predicate SmallWrite(v: Vol, i: nat, off: nat, n: nat) {
    i < |v.ins| && NoHoles(v, i) && off <= v.ins[i].size && n <= 3 * BSIZE && off + n <= MAXFILE * BSIZE
  }

  /** The block before the first absent block of a hole-free file is present. */
  lemma PredecessorMapped(v: Vol, i: nat, off: nat)
    requires i < |v.ins| && NoHoles(v, i) && off <= v.ins[i].size
    ensures Mapped(v, i, off / BSIZE) || off / BSIZE == 0 || Mapped(v, i, off / BSIZE - 1)
  {
  }

  /** At most four data blocks, four tables and the inode block. */
  lemma SmallCost(v: Vol, i: nat, off: nat, n: nat)
    requires SmallWrite(v, i, off, n)
    ensures FileCost(v, i, off, n) <= 4 + 4 + 1
  {
    var x0 := off / BSIZE;
    PredecessorMapped(v, i, off);
    forall p | p in Parents(Absent(v, i, off, n))
      ensures p in Elements(TouchedTables(i, x0))
    {
      var c :| c in Absent(v, i, off, n) && c.Child? && c.parent == p;
      OnWaySpine(i, off, n, c);
      var x: nat :| OnWayTo(i, off, n, x, c);
      AbsentTouched(v, i, x0, x, c);
    }
    AtMostFourTables(i, x0);
    ElementsSize(TouchedTables(i, x0));
    SubsetSize(Parents(Absent(v, i, off, n)), Elements(TouchedTables(i, x0)));
  }

  /** A volume with one bitmap block. */
  lemma OneBitmapBlock(v: Vol, i: nat, off: nat, n: nat)
    requires v.sb.size <= BPB
    ensures BitmapCost(v, i, off, n) <= 1
  {
    var k := |Absent(v, i, off, n)|;
    forall g | g in Groups(v.sb, FirstFree(v, 0, k))
      ensures g in {v.sb.bmapstart as nat}
    {
      var b :| b in FirstFree(v, 0, k) && BBlock(v.sb, b) == g;
      FirstFreeBelow(v, 0, k, b);
    }
    SubsetSize(Groups(v.sb, FirstFree(v, 0, k)), {v.sb.bmapstart as nat});
  }

  // ---- the chunk that needs the most ----

  /** The first block addressed through the triple indirect table. */
  const TRIPLE: nat := NDIRECT + NINDIRECT + NINDIRECT * NINDIRECT

  /** The tables on the way to blocks TRIPLE and TRIPLE + 1. */
  function Way(i: nat, d: nat): Path
    requires d < 3
  {
    if d == 0 then Slot(i, NDIRECT + 2) else Child(Way(i, d - 1), 0)
  }

  lemma AtTriple(i: nat)
    ensures NodeOf(i, TRIPLE) == Child(Way(i, 2), 0) && NodeOf(i, TRIPLE + 1) == Child(Way(i, 2), 1)
    ensures NodeOf(i, TRIPLE - 1).Child? && NodeOf(i, TRIPLE - 1).SlotNo() == NDIRECT + 1
    ensures NodeOf(i, TRIPLE - 2).Child? && NodeOf(i, TRIPLE - 2).parent == NodeOf(i, TRIPLE - 1).parent
  {
    Spell3(i, TRIPLE, 0, 0);
    Spell3(i, TRIPLE + 1, 1, 1);
    Spell2(i, TRIPLE - 1, NINDIRECT * NINDIRECT - 1);
    Spell2(i, TRIPLE - 2, NINDIRECT * NINDIRECT - 2);
    assert Way(i, 1) == Child(Way(i, 0), 0) && Way(i, 2) == Child(Way(i, 1), 0);
    assert NodeOf(i, TRIPLE - 1).parent.SlotNo() == NDIRECT + 1;
  }

  /** A file that ends inside the last block but one of its double indirect tree. */
  ghost predicate EndsAtTriple(v: Vol, i: nat) {
    && i < |v.ins| && NoHoles(v, i) && v.ins[i].size / BSIZE == TRIPLE - 2 && v.ins[i].size % BSIZE != 0
    && !Mapped(v, i, TRIPLE - 1) && v.ins[i].addrs[NDIRECT + 2] == 0
  }

  lemma {:induction false} WayAbsent(v: Vol, i: nat, d: nat)
    requires EndsAtTriple(v, i) && d < 3
    ensures Addr(v, Way(i, d)) == 0
  {
    AddrSlot(v, i, NDIRECT + 2);
    if d > 0 {
      WayAbsent(v, i, d - 1);
      AddrChild(v, Way(i, d));
    }
  }

  /** The six nodes such a file lacks for its next three blocks. */
  function SixNodes(i: nat): set<Path> {
    {NodeOf(i, TRIPLE - 1), Way(i, 0), Way(i, 1), Way(i, 2), NodeOf(i, TRIPLE), NodeOf(i, TRIPLE + 1)}
  }

  lemma AboveWay(i: nat, q: Path, j: nat)
    ensures q in Above(Child(Way(i, 2), j)) <==> q == Child(Way(i, 2), j) || q in {Way(i, 0), Way(i, 1), Way(i, 2)}
  {
    assert Above(Way(i, 0)) == {Way(i, 0)};
    assert Above(Way(i, 1)) == {Way(i, 1)} + Above(Way(i, 0));
    assert Above(Way(i, 2)) == {Way(i, 2)} + Above(Way(i, 1));
  }

  lemma SixPresent(v: Vol, i: nat, q: Path)
    requires EndsAtTriple(v, i) && q in SixNodes(i)
    ensures Addr(v, q) == 0 && (exists x: nat :: TRIPLE - 2 <= x < TRIPLE + 2 && q in Above(NodeOf(i, x)))
  {
    AtTriple(i);
    WayAbsent(v, i, 0);
    WayAbsent(v, i, 1);
    WayAbsent(v, i, 2);
    AddrChild(v, Child(Way(i, 2), 0));
    AddrChild(v, Child(Way(i, 2), 1));
    AboveWay(i, q, 0);
    AboveWay(i, q, 1);
    assert q == NodeOf(i, TRIPLE - 1) || q in Above(NodeOf(i, TRIPLE)) || q in Above(NodeOf(i, TRIPLE + 1));
  }

  lemma OnlySix(v: Vol, i: nat, x: nat, q: Path)
    requires EndsAtTriple(v, i) && TRIPLE - 2 <= x < TRIPLE + 2 && q in Above(NodeOf(i, x)) && Addr(v, q) == 0
    ensures q in SixNodes(i)
  {
    AtTriple(i);
    InAbove(q, NodeOf(i, x));
    assert Mapped(v, i, TRIPLE - 2);
    if x == TRIPLE - 2 {
      AbovePresent(v, q, NodeOf(i, x));
    } else if x == TRIPLE - 1 {
      if q != NodeOf(i, x) {
        AbovePresent(v, q, NodeOf(i, TRIPLE - 2));
      }
    } else {
      AboveWay(i, q, x - TRIPLE);
    }
  }

  lemma SixAbsent(v: Vol, i: nat)
    requires EndsAtTriple(v, i)
    ensures Span(v.ins[i].size, 3 * BSIZE) == 4
    ensures Absent(v, i, v.ins[i].size, 3 * BSIZE) == SixNodes(i)
  {
    var off := v.ins[i].size;
    forall q
      ensures q in Absent(v, i, off, 3 * BSIZE) <==> q in SixNodes(i)
    {
      if q in SixNodes(i) {
        SixPresent(v, i, q);
      }
      if q in Absent(v, i, off, 3 * BSIZE) {
        var x: nat :| TRIPLE - 2 <= x < TRIPLE + 2 && q in Above(NodeOf(i, x));
        OnlySix(v, i, x, q);
      }
    }
  }

  lemma SixSize(i: nat)
    ensures |SixNodes(i)| == 6 && |Parents(SixNodes(i))| == 4
  {
    AtTriple(i);
    var last := NodeOf(i, TRIPLE - 1);
    assert Way(i, 0).SlotNo() == NDIRECT + 2 && Way(i, 1).SlotNo() == NDIRECT + 2 && Way(i, 2).SlotNo() == NDIRECT + 2;
    assert last.parent.SlotNo() == NDIRECT + 1;
    assert Way(i, 0).Depth() == 0 && Way(i, 1).Depth() == 1 && Way(i, 2).Depth() == 2;
    var ps := {last.parent, Way(i, 0), Way(i, 1), Way(i, 2)};
    assert Parents(SixNodes(i)) == ps by {
      assert Way(i, 1) in SixNodes(i) && Way(i, 2) in SixNodes(i);
      assert last in SixNodes(i) && Child(Way(i, 2), 0) in SixNodes(i);
    }
  }

  /**
    The next chunk of such a file logs 4 data blocks, 4 tables, the inode block and the bitmap blocks of the six lowest
    free blocks; so it exceeds MAXOPBLOCKS exactly when those six are in more than one bitmap block.
  */
  lemma TripleCost(v: Vol, i: nat)
    requires EndsAtTriple(v, i)
    ensures var off := v.ins[i].size;
            && FileCost(v, i, off, 3 * BSIZE) == 9
            && BitmapCost(v, i, off, 3 * BSIZE) == |Groups(v.sb, FirstFree(v, 0, 6))|
            && (FileCost(v, i, off, 3 * BSIZE) + BitmapCost(v, i, off, 3 * BSIZE) > MAXOPBLOCKS <==>
                |Groups(v.sb, FirstFree(v, 0, 6))| > 1)
  {
    SixAbsent(v, i);
    SixSize(i);
  }

  // ---- a sequence of chunks ----

  lemma CoversLater(off: nat, j: nat, m: nat, x: nat)
    ensures Covers(off, j + m, x) <==> Covers(off, j, x) || Covers(off + j, m, x)
  {
  }

  lemma GrewTrans(v0: Vol, v: Vol, v': Vol, i: nat, off: nat, j: nat, mid: nat, m: nat, n: nat)
    requires mid == off + j && n == j + m && Grew(v0, v, i, off, j) && Grew(v, v', i, mid, m)
    ensures Grew(v0, v', i, off, n)
  {
    FirstFitTrans(v0, v, v');
    forall x: nat | Covers(off, n, x)
      ensures Mapped(v', i, x)
    {
      CoversLater(off, j, m, x);
      assert Covers(off, j, x) ==> Mapped(v, i, x);
    }
    forall q | Fresh(v0, v', q)
      ensures OnWay(i, off, n, q)
    {
      if Fresh(v0, v, q) {
        var x: nat :| OnWayTo(i, off, j, x, q);
        assert OnWayTo(i, off, n, x, q);
      } else {
        assert Fresh(v, v', q);
        var x: nat :| OnWayTo(i, mid, m, x, q);
        CoversLater(off, j, m, x);
        assert OnWayTo(i, off, n, x, q);
      }
    }
  }

  lemma {:induction false} FirstFreeMore(v: Vol, lo: nat, k: nat, k': nat)
    requires k <= k'
    ensures FirstFree(v, lo, k) <= FirstFree(v, lo, k')
    decreases v.sb.size - lo
  {
    if k > 0 && lo < v.sb.size {
      if Used(v, lo) {
        FirstFreeMore(v, lo + 1, k, k');
      } else {
        FirstFreeMore(v, lo + 1, k - 1, k' - 1);
      }
    }
  }

  lemma AbsentMore(v: Vol, i: nat, off: nat, n: nat, n': nat)
    requires n <= n'
    ensures |Absent(v, i, off, n)| <= |Absent(v, i, off, n')|
  {
    forall q | q in Absent(v, i, off, n)
      ensures q in Absent(v, i, off, n')
    {
      OnWaySpine(i, off, n, q);
      var x: nat :| OnWayTo(i, off, n, x, q);
      assert OnWayTo(i, off, n', x, q);
      OnWaySpine(i, off, n', q);
    }
    SubsetSize(Absent(v, i, off, n), Absent(v, i, off, n'));
  }

  ghost predicate TakesFree(v0: Vol, v: Vol) { forall q :: Fresh(v0, v, q) ==> !Used(v0, Addr(v, q)) }

  /** The blocks a later part of a write takes are among the lowest free blocks before all of it. */
  lemma LaterTaken(v0: Vol, v: Vol, v': Vol, i: nat, off: nat, j: nat, mid: nat, m: nat, n: nat)
    requires TreeInv(v0) && TreeInv(v) && TreeInv(v') && mid == off + j && n == j + m
    requires Grew(v0, v, i, off, j) && Grew(v, v', i, mid, m) && TakesFree(v0, v') && TakesFree(v, v')
    ensures FirstFree(v, 0, |Absent(v, i, mid, m)|) <= FirstFree(v0, 0, |Absent(v0, i, off, n)|)
  {
    GrewTrans(v0, v, v', i, off, j, mid, m, n);
    TakenIs(v, v', i, mid, m);
    TakenIs(v0, v', i, off, n);
    forall q | q in Absent(v, i, mid, m)
      ensures q in Absent(v0, i, off, n)
    {
      FreshIsAbsent(v, v', i, mid, m, q);
      FreshIsAbsent(v0, v', i, off, n, q);
    }
  }

  /** No chunk of a write needs more bitmap blocks than the write as a whole would. */
  lemma ChunkBitmaps(v0: Vol, v: Vol, v': Vol, i: nat, off: nat, j: nat, mid: nat, m: nat, n: nat)
    requires TreeInv(v0) && TreeInv(v) && TreeInv(v') && mid == off + j && j + m <= n
    requires Grew(v0, v, i, off, j) && Grew(v, v', i, mid, m) && TakesFree(v0, v') && TakesFree(v, v')
    ensures BitmapCost(v, i, mid, m) <= BitmapCost(v0, i, off, n)
  {
    var k := j + m;
    LaterTaken(v0, v, v', i, off, j, mid, m, k);
    AbsentMore(v0, i, off, k, n);
    FirstFreeMore(v0, 0, |Absent(v0, i, off, k)|, |Absent(v0, i, off, n)|);
    SubsetSize(Groups(v.sb, FirstFree(v, 0, |Absent(v, i, mid, m)|)),
               Groups(v0.sb, FirstFree(v0, 0, |Absent(v0, i, off, n)|)));
  }

  /** filewrite after the chunks that make up s. */
  ghost predicate Chunked(v0: Vol, v: Vol, i: nat, off: nat, s: seq<Byte>)
    requires i < |v0.ins|
  {
    Progress(v0, v, i, off, s) && Grew(v0, v, i, off, |s|) && (NoHoles(v0, i) ==> NoHoles(v, i))
  }

  lemma ChunkedStart(v: Vol, i: nat, off: nat)
    requires TreeInv(v) && i < |v.ins|
    ensures Chunked(v, v, i, off, [])
  {
  }

  lemma ChunkedStep(v0: Vol, v: Vol, v': Vol, i: nat, off: nat, s: seq<Byte>, mid: nat, t: seq<Byte>, st: seq<Byte>)
    requires i < |v0.ins| && t != [] && st == s + t && Chunked(v0, v, i, off, s) && mid == off + |s|
    requires mid <= v.ins[i].size && Wrote(v, v', i, mid, t) && Grew(v, v', i, mid, |t|)
    ensures Chunked(v0, v', i, off, st)
    ensures off <= v0.ins[i].size && off + |st| <= v'.ins[i].size && off + |st| <= MAXFILE * BSIZE
  {
    ProgressStep(v0, v, v', i, off, s, mid, t, st);
    ProgressFacts(v0, v', i, off, st);
    GrewTrans(v0, v, v', i, off, |s|, mid, |t|, |st|);
  }

  lemma ChunkedBitmaps(v0: Vol, v: Vol, v': Vol, i: nat, off: nat, s: seq<Byte>, mid: nat, t: seq<Byte>, n: nat)
    requires TreeInv(v0) && i < |v0.ins| && Chunked(v0, v, i, off, s) && mid == off + |s| && |s| + |t| <= n && t != []
    requires mid <= v.ins[i].size && Wrote(v, v', i, mid, t) && Grew(v, v', i, mid, |t|)
    ensures BitmapCost(v, i, mid, |t|) <= BitmapCost(v0, i, off, n)
  {
    ProgressStep(v0, v, v', i, off, s, mid, t, s + t);
    ChunkBitmaps(v0, v, v', i, off, |s|, mid, |t|, n);
  }
}
