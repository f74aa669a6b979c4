/** What one call of bmap means for the map from file block to disk block. */
module FsMap {
  import opened Blocks
  import opened FsTree
  import opened FsIndex
  import opened FsGrow
  import opened FsWalk
  import opened FsIo
  import opened FsTrunc

  /** The disk block of block bn of file i, 0 when there is none. */
  function FileBlock(v: Vol, i: nat, bn: nat): nat {
    Addr(v, NodeOf(i, bn))
  }

  lemma NodeOfInjective(i: nat, bn: nat, j: nat, bm: nat)
    requires bn < MAXFILE && bm < MAXFILE && NodeOf(i, bn) == NodeOf(j, bm)
    ensures i == j && bn == bm
  {
    NodeOfIndex(i, bn);
    NodeOfIndex(j, bm);
  }

  /** No disk block serves two file blocks, of one file or of two. */
  lemma FileBlockInjective(v: Vol, i: nat, bn: nat, j: nat, bm: nat)
    requires TreeInv(v) && bn < MAXFILE && bm < MAXFILE && FileBlock(v, i, bn) == FileBlock(v, j, bm) != 0
    ensures i == j && bn == bm
  {
    Distinct(v, NodeOf(i, bn), NodeOf(j, bm));
    NodeOfInjective(i, bn, j, bm);
  }

  /** bmap for one block leaves the block of every other, present or not, as it was. */
  lemma BmapLeavesOthers(v: Vol, v': Vol, l: set<nat>, l': set<nat>, i: nat, bn: nat, j: nat, bm: nat)
    requires bn < MAXFILE && bm < MAXFILE && Reached(v, v', l, l', NodeOf(i, bn)) && (j != i || bm != bn)
    ensures FileBlock(v', j, bm) == FileBlock(v, j, bm)
  {
    var p, q := NodeOf(i, bn), NodeOf(j, bm);
    NodeOfIndex(i, bn);
    NodeOfIndex(j, bm);
    if FileBlock(v', j, bm) != FileBlock(v, j, bm) {
      assert Addr(v, q) == 0 && Addr(v', q) != 0;
      AboveShallower(q, p);
      NodeOfInjective(i, bn, j, bm);
    }
  }

  /** A block bmap allocates was free, so no tree held it, and it reads as zeros. */
  lemma BmapAllocates(v: Vol, v': Vol, l: set<nat>, l': set<nat>, i: nat, bn: nat)
    requires bn < MAXFILE && Reached(v, v', l, l', NodeOf(i, bn)) && FileBlock(v, i, bn) == 0
    ensures var b := FileBlock(v', i, bn);
            && b != 0 && b < |v'.d| && b < v.sb.size && !Used(v, b) && Used(v', b) && !Owned(v, b)
            && (forall k :: 0 <= k < BSIZE ==> v'.d[b][k] == 0)
  {
    var p := NodeOf(i, bn);
    var b := Addr(v', p);
    assert v.sb.Nmeta() <= b < v.sb.size && Used(v', b);
    forall q
      ensures Addr(v, q) != b
    {
      assert Addr(v, q) == b ==> Used(v, Addr(v, q));
    }
    forall k: nat | k < BSIZE
      ensures v'.d[b][k] == 0
    {
      var x := bn * BSIZE + k;
      assert x / BSIZE == bn && x % BSIZE == k;
      assert FileByte(v', i, x) == FileByte(v, i, x);
    }
  }

  /** A call that does not truncate file i: a write to any file, or the truncation of another. */
  ghost predicate Spares(v: Vol, v': Vol, i: nat) {
    || (exists j: nat, off: nat, src :: j < |v.ins| && Wrote(v, v', j, off, src))
    || (exists j: nat :: j < |v.ins| && j != i && Trunced(v, v', j))
  }

  lemma SparesBlock(v: Vol, v': Vol, i: nat, bn: nat)
    requires Spares(v, v', i) && FileBlock(v, i, bn) != 0
    ensures FileBlock(v', i, bn) == FileBlock(v, i, bn)
  {
    NodeInum(i, bn);
  }

  lemma {:induction false} BlockStays(vs: seq<Vol>, k: nat, i: nat, bn: nat)
    requires k < |vs| && FileBlock(vs[0], i, bn) != 0 && forall m :: 0 <= m < |vs| - 1 ==> Spares(vs[m], vs[m + 1], i)
    ensures FileBlock(vs[k], i, bn) == FileBlock(vs[0], i, bn)
  {
    if k > 0 {
      BlockStays(vs, k - 1, i, bn);
      SparesBlock(vs[k - 1], vs[k], i, bn);
    }
  }

  /** Asked again after any number of such calls, bmap returns the block it returned, and changes and logs nothing. */
  lemma BmapAgain(v: Vol, l: set<nat>, l': set<nat>, vs: seq<Vol>, k: nat, v': Vol, m: set<nat>, m': set<nat>, i: nat,
                  bn: nat)
    requires k < |vs| && Reached(v, vs[0], l, l', NodeOf(i, bn)) && Reached(vs[k], v', m, m', NodeOf(i, bn))
    requires forall h :: 0 <= h < |vs| - 1 ==> Spares(vs[h], vs[h + 1], i)
    ensures FileBlock(v', i, bn) == FileBlock(vs[0], i, bn) != 0 && v' == vs[k] && m' == m
  {
    BlockStays(vs, k, i, bn);
  }

  lemma {:induction false} TruncKeepsFile(v0: Vol, v: Vol, i: nat, j: nat)
    requires i < |v0.ins| && j < |v0.ins| && j != i && Trunced(v0, v, i) && NoHoles(v0, j) && Synced(v0, j)
    ensures NoHoles(v, j) && Synced(v, j)
  {
    assert Untouched(v0, v, j);
    forall x: nat | x * BSIZE < v.ins[j].size
      ensures Mapped(v, j, x)
    {
      assert Mapped(v0, j, x);
      NodeInum(j, x);
    }
  }

  /** itrunc keeps every file free of holes and every cached inode equal to its copy on disk. */
  lemma {:induction false} TruncKeepsFsInv(v0: Vol, v: Vol, i: nat)
    requires FsInv(v0) && i < |v0.ins| && Trunced(v0, v, i)
    ensures FsInv(v)
  {
    forall j: nat | j < |v.ins|
      ensures NoHoles(v, j) && Synced(v, j)
    {
      if j != i {
        TruncKeepsFile(v0, v, i, j);
      }
    }
  }

  /** One call that changes files: a write to one of them, or its truncation. */
  ghost predicate FileStep(v: Vol, v': Vol) {
    || (exists i: nat, off: nat, src :: i < |v.ins| && Wrote(v, v', i, off, src))
    || (exists i: nat :: i < |v.ins| && Trunced(v, v', i))
  }

  /** So it is after any number of them, and then no read ever allocates. */
  lemma {:induction false} AlwaysWhole(vs: seq<Vol>, k: nat)
    requires k < |vs| && FsInv(vs[0])
    requires forall m :: 0 <= m < |vs| - 1 ==> FileStep(vs[m], vs[m + 1])
    ensures FsInv(vs[k])
  {
    if k > 0 {
      AlwaysWhole(vs, k - 1);
      var v, v' := vs[k - 1], vs[k];
      assert FileStep(v, v');
      if i: nat, off: nat, src :| i < |v.ins| && Wrote(v, v', i, off, src) {
        WroteKeepsFsInv(v, v', i, off, src);
      } else {
        var i: nat :| i < |v.ins| && Trunced(v, v', i);
        TruncKeepsFsInv(v, v', i);
      }
    }
  }

  // ---- what one call logs ----

  /** The volume whose inodes are those on disk. */
  function Stored(sb: Super, d: seq<Block>): (v: Vol)
    requires sb.Layout() && |d| == sb.size
    ensures v.Shape()
  {
    Vol(sb, d, seq(sb.ninodes, i requires 0 <= i < sb.ninodes =>
      DecodeInode(d[IBlock(sb, i)][64 * (i % IPB)..64 * (i % IPB) + 64])))
  }

  lemma StoredIs(v: Vol)
    requires FsInv(v)
    ensures Stored(v.sb, v.d) == v
  {
    forall i: nat | i < |v.ins|
      ensures Stored(v.sb, v.d).ins[i] == v.ins[i]
    {
      assert Synced(v, i);
    }
    assert Stored(v.sb, v.d).ins == v.ins;
  }

  /** The block writes of one call of the file system on contents d: a write or truncation of a file, or none. */
  ghost predicate IsCall(sb: Super, d: seq<Block>, ws: seq<(nat, Block)>) {
    sb.Layout() && |d| == sb.size && (ws == [] || exists v :: FileStep(Stored(sb, d), v) && v.d == Replay(d, ws))
  }

  lemma WriteIsCall(v: Vol, v': Vol, i: nat, off: nat, src: seq<Byte>, ws: seq<(nat, Block)>)
    requires FsInv(v) && i < |v.ins| && Wrote(v, v', i, off, src) && v'.d == Replay(v.d, ws)
    ensures IsCall(v.sb, v.d, ws)
  {
    StoredIs(v);
    assert FileStep(v, v');
  }

  lemma TruncIsCall(v: Vol, v': Vol, i: nat, ws: seq<(nat, Block)>)
    requires FsInv(v) && i < |v.ins| && Trunced(v, v', i) && v'.d == Replay(v.d, ws)
    ensures IsCall(v.sb, v.d, ws)
  {
    StoredIs(v);
    assert FileStep(v, v');
  }
}
