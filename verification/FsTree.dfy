/**
  The block trees of fs.c: what `bmap` addresses and what a well-formed volume is.

  A node of a block tree is named by the way to it: one of the 13 address slots of an inode, then
  one table index per level of indirection.
*/
module FsTree {
  import opened Blocks

  const NDIRECT: nat := 10
  const NINDIRECT: nat := 128
  const MAXFILE: nat := NDIRECT + NINDIRECT + NINDIRECT * NINDIRECT + NINDIRECT * NINDIRECT * NINDIRECT
  const IPB: nat := 8

  type Addrs = s: seq<U32> | |s| == NDIRECT + 3 witness seq(13, _ => 0)

  datatype Super = Super(size: U32, nblocks: U32, ninodes: U32, inodestart: U32, bmapstart: U32) {
    function Nmeta(): int { size - nblocks }

    /** The order of regions laid out by mkfs: inode blocks, bitmap blocks, data blocks. */
    ghost predicate Layout() {
      && inodestart + ninodes / IPB < bmapstart
      && bmapstart + size / BPB < Nmeta()
      && inodestart < bmapstart < Nmeta() < size
      && 0 < inodestart
    }
  }

  datatype Inode = Inode(typ: U16, major: U16, minor: U16, nlink: U16, size: U32, addrs: Addrs)

  /** The logical disk as `bread` returns it, and the in-memory inodes. */
  datatype Vol = Vol(sb: Super, d: seq<Block>, ins: seq<Inode>) {
    ghost predicate Shape() {
      sb.Layout() && |d| == sb.size && |ins| == sb.ninodes
    }
  }

  // ---- the free bitmap ----

  predicate IsBitmap(sb: Super, b: nat) { sb.bmapstart <= b <= sb.bmapstart + sb.size / BPB }

  /** The block of the free map that holds block b's bit; it lies between the inodes and the data. */
  function BBlock(sb: Super, b: nat): (r: nat)
    ensures sb.Layout() && b < sb.size ==> IsBitmap(sb, r) && r < sb.Nmeta() < sb.size
  {
    b / BPB + sb.bmapstart
  }

  predicate Used(v: Vol, b: nat) {
    BBlock(v.sb, b) < |v.d| && BlockBit(v.d[BBlock(v.sb, b)], b % BPB)
  }

  lemma SameBit(sb: Super, b: nat, f: nat)
    requires BBlock(sb, b) == BBlock(sb, f) && b % BPB == f % BPB
    ensures b == f
  {
  }

  // ---- on-disk inodes ----

  function Flatten(ws: seq<U32>): (s: seq<Byte>)
    ensures |s| == 4 * |ws|
    ensures forall k :: 0 <= k < |ws| ==> WordAt(s, 4 * k) == ws[k]
  {
    if ws == [] then [] else
      Flatten(ws[..|ws| - 1]) + WordBytes(ws[|ws| - 1])
  }

  function EncodeInode(ip: Inode): (s: seq<Byte>)
    ensures |s| == 64
  {
    HalfBytes(ip.typ) + HalfBytes(ip.major) + HalfBytes(ip.minor) + HalfBytes(ip.nlink)
    + WordBytes(ip.size) + Flatten(ip.addrs)
  }

  function DecodeInode(s: seq<Byte>): Inode
    requires |s| == 64
  {
    Inode(HalfAt(s, 0), HalfAt(s, 2), HalfAt(s, 4), HalfAt(s, 6), WordAt(s, 8),
          seq(13, k requires 0 <= k < 13 => WordAt(s, 12 + 4 * k)))
  }

  /** `ilock` after `iupdate` reads back the same inode. */
  lemma InodeRoundTrip(ip: Inode)
    ensures DecodeInode(EncodeInode(ip)) == ip
  {
  }

  function IBlock(sb: Super, i: nat): (b: nat)
    ensures sb.Layout() && i < sb.ninodes ==> b < sb.bmapstart
  {
    i / IPB + sb.inodestart
  }

  function DiskInode(v: Vol, i: nat): Inode
    requires v.Shape() && i < v.sb.ninodes
  {
    DecodeInode(v.d[IBlock(v.sb, i)][64 * (i % IPB)..64 * (i % IPB) + 64])
  }

  /** The inode cache is write-through: memory and disk agree on inode i. */
  ghost predicate Synced(v: Vol, i: nat)
    requires v.Shape() && i < v.sb.ninodes
  {
    DiskInode(v, i) == v.ins[i]
  }

  // ---- nodes ----

  function Level(slot: nat): nat { if slot < NDIRECT then 0 else slot - 9 }

  datatype Path = Slot(i: nat, s: nat) | Child(parent: Path, j: nat) {
    function Inum(): nat { if Slot? then i else parent.Inum() }

    function SlotNo(): nat { if Slot? then s else parent.SlotNo() }

    function Depth(): nat { if Slot? then 0 else 1 + parent.Depth() }

    /** Data blocks sit at the full depth of their slot: 0 for the direct slots, then 1, 2, 3. */
    predicate Leaf() { Depth() == Level(SlotNo()) }
  }

  ghost predicate AtOrAbove(q: Path, p: Path) {
    q == p || (p.Child? && AtOrAbove(q, p.parent))
  }

  /** Entry j of the table in block a, 0 when there is no table. */
  function Entry(v: Vol, a: nat, j: nat): nat {
    if a == 0 || a >= |v.d| || j >= NINDIRECT then 0 else Word(v.d[a], j)
  }

  /** The block number stored at a node, 0 when there is none. */
  function Addr(v: Vol, p: Path): nat {
    match p
    case Slot(i, s) => if i < |v.ins| && s < NDIRECT + 3 then v.ins[i].addrs[s] else 0
    case Child(q, j) => if q.Depth() < Level(q.SlotNo()) then Entry(v, Addr(v, q), j) else 0
  }

  lemma AddrSlot(v: Vol, i: nat, s: nat)
    requires i < |v.ins| && s < NDIRECT + 3
    ensures Addr(v, Slot(i, s)) == v.ins[i].addrs[s]
  {
  }

  /** A node's block number is the entry of its parent's table. */
  lemma AddrChild(v: Vol, p: Path)
    requires p.Child?
    ensures Addr(v, p) == if p.parent.Depth() < Level(p.parent.SlotNo()) then Entry(v, Addr(v, p.parent), p.j) else 0
    ensures Addr(v, p) != 0 ==> Addr(v, p.parent) != 0 && p.j < NINDIRECT && !p.parent.Leaf()
  {
  }

  lemma {:induction false} AbovePresent(v: Vol, q: Path, p: Path)
    requires AtOrAbove(q, p) && Addr(v, p) != 0
    ensures Addr(v, q) != 0
  {
    if q != p {
      AddrChild(v, p);
      AbovePresent(v, q, p.parent);
    }
  }

  lemma {:induction false} AboveShallower(q: Path, p: Path)
    requires AtOrAbove(q, p)
    ensures q.SlotNo() == p.SlotNo() && q.Depth() <= p.Depth() && (q.Depth() == p.Depth() ==> q == p)
  {
    if q != p {
      AboveShallower(q, p.parent);
    }
  }

  ghost predicate Owned(v: Vol, b: nat) {
    b != 0 && exists p :: Addr(v, p) == b
  }

  ghost predicate SameBlock(v: Vol, p: Path, q: Path) { Addr(v, p) == Addr(v, q) != 0 }

  /** Every block of every tree is an allocated data block, and no block is used twice. */
  ghost predicate TreeInv(v: Vol) {
    && v.Shape()
    && (forall b: nat :: b < v.sb.Nmeta() ==> Used(v, b))
    && (forall p :: Addr(v, p) != 0 ==> v.sb.Nmeta() <= Addr(v, p) < v.sb.size && Used(v, Addr(v, p)))
    && (forall p, q :: SameBlock(v, p, q) ==> p == q)
  }

  lemma Distinct(v: Vol, p: Path, q: Path)
    requires TreeInv(v) && Addr(v, p) == Addr(v, q) != 0
    ensures p == q
  {
    assert SameBlock(v, p, q);
  }

  // ---- block index -> node: base-128 digits, one more per level of indirection ----

  function Cap(l: nat): nat { if l == 0 then 1 else NINDIRECT * Cap(l - 1) }

  /** The node l levels below root on the base-128 digits of b. */
  function Deep(root: Path, l: nat, b: nat): Path {
    if l == 0 then root else Child(Deep(root, l - 1, b / NINDIRECT), b % NINDIRECT)
  }

  /** The b-th block of the slots of level l and above. */
  function Radix(i: nat, l: nat, b: nat): Path
    decreases 4 - l
  {
    if b < Cap(l) || l > 3 then Deep(Slot(i, l + 9), l, b) else Radix(i, l + 1, b - Cap(l))
  }

  /** The node of file block bn of inode i; past the last block, a node that is never present. */
  function NodeOf(i: nat, bn: nat): Path {
    if bn < NDIRECT then Slot(i, bn)
    else if bn < MAXFILE then Radix(i, 1, bn - NDIRECT)
    else Slot(i, NDIRECT + 3)
  }
}
