/** fs.h in bytes: where on the disk the bits, inodes, addresses and file bytes of a volume lie. */
module FsRaw {
  import opened Blocks
  import opened FsTree
  import opened FsGrow
  import opened FsWalk
  import opened FsIo
  import opened FsTrunc
  import opened FsMap

  // ---- the tree of a file ----

  /** Entry j of the table in block t, as its bytes spell it; 0 when there is no table. */
  function RawEntry(d: seq<Block>, t: nat, j: nat): nat
    requires j < 128
  {
    if t == 0 || t >= |d| then 0
    else Spelled(d[t], 4 * j)
  }

  /** The disk block of file block bn, from the addresses of the inode and the bytes of the tables. */
  function RawBlock(d: seq<Block>, addrs: Addrs, bn: nat): nat
    requires bn < 2113674
  {
    if bn < 10 then addrs[bn]
    else if bn < 138 then RawEntry(d, addrs[10], bn - 10)
    else if bn < 16522 then RawEntry(d, RawEntry(d, addrs[11], (bn - 138) / 128), (bn - 138) % 128)
    else
      var b := bn - 16522;
      RawEntry(d, RawEntry(d, RawEntry(d, addrs[12], b / 16384), b % 16384 / 128), b % 128)
  }

  lemma EntryIsRaw(v: Vol, t: nat, j: nat)
    requires j < 128
    ensures Entry(v, t, j) == RawEntry(v.d, t, j)
  {
    if 0 < t < |v.d| {
      WordIs(v.d[t], j);
    }
  }

  lemma ChildIsRaw(v: Vol, q: Path, j: nat)
    requires j < 128 && q.Depth() < Level(q.SlotNo())
    ensures Addr(v, Child(q, j)) == RawEntry(v.d, Addr(v, q), j)
  {
    AddrChild(v, Child(q, j));
    EntryIsRaw(v, Addr(v, q), j);
  }

  lemma SlotIsRaw(v: Vol, i: nat, s: nat)
    requires i < |v.ins| && s < 13
    ensures Addr(v, Slot(i, s)) == v.ins[i].addrs[s] && Slot(i, s).Depth() == 0 && Slot(i, s).SlotNo() == s
  {
    AddrSlot(v, i, s);
  }

  lemma DoubleIsRaw(v: Vol, i: nat, j: nat, k: nat)
    requires i < |v.ins| && j < 128 && k < 128
    ensures Addr(v, Child(Child(Slot(i, 11), j), k)) == RawEntry(v.d, RawEntry(v.d, v.ins[i].addrs[11], j), k)
  {
    var q := Slot(i, 11);
    SlotIsRaw(v, i, 11);
    ChildIsRaw(v, q, j);
    assert Child(q, j).Depth() == 1 && Child(q, j).SlotNo() == 11;
    ChildIsRaw(v, Child(q, j), k);
  }

  lemma TripleIsRaw(v: Vol, i: nat, j: nat, k: nat, l: nat)
    requires i < |v.ins| && j < 128 && k < 128 && l < 128
    ensures Addr(v, Child(Child(Child(Slot(i, 12), j), k), l)) ==
            RawEntry(v.d, RawEntry(v.d, RawEntry(v.d, v.ins[i].addrs[12], j), k), l)
  {
    var q := Slot(i, 12);
    var r := Child(Child(q, j), k);
    SlotIsRaw(v, i, 12);
    ChildIsRaw(v, q, j);
    assert Child(q, j).Depth() == 1 && Child(q, j).SlotNo() == 12;
    ChildIsRaw(v, Child(q, j), k);
    assert r.Depth() == 2 && r.SlotNo() == 12;
    ChildIsRaw(v, r, l);
  }

  /** The block that bmap finds is the one that the bytes of the tables name. */
  lemma FileBlockIsRaw(v: Vol, i: nat, bn: nat)
    requires i < |v.ins| && bn < 2113674
    ensures bn < MAXFILE && FileBlock(v, i, bn) == RawBlock(v.d, v.ins[i].addrs, bn)
  {
    if bn < 10 {
      SlotIsRaw(v, i, bn);
    } else if bn < 138 {
      Spell1(i, bn);
      SlotIsRaw(v, i, 10);
      ChildIsRaw(v, Slot(i, 10), bn - 10);
    } else if bn < 16522 {
      var b := bn - 138;
      Spell2(i, bn, b);
      DoubleIsRaw(v, i, b / 128, b % 128);
    } else {
      var b := bn - 16522;
      Split3(b);
      Spell3(i, bn, b, b % 16384);
      TripleIsRaw(v, i, b / 16384, b % 16384 / 128, b % 128);
    }
  }

  /** Byte k of a file: byte k % 512 of that block; a hole reads as zero. */
  function RawByte(d: seq<Block>, addrs: Addrs, k: nat): Byte
    requires k < 2113674 * 512
  {
    var a := RawBlock(d, addrs, k / 512);
    if a == 0 || a >= |d| then 0 else d[a][k % 512]
  }

  lemma FileByteIsRaw(v: Vol, i: nat, k: nat)
    requires i < |v.ins| && k < 2113674 * 512
    ensures FileByte(v, i, k) == RawByte(v.d, v.ins[i].addrs, k)
  {
    FileBlockIsRaw(v, i, k / 512);
  }

  /** s is what the file holds from byte off on. */
  ghost predicate RawSlice(d: seq<Block>, addrs: Addrs, off: nat, s: seq<Byte>) {
    off + |s| <= 2113674 * 512 && forall k :: 0 <= k < |s| ==> s[k] == RawByte(d, addrs, off + k)
  }

  lemma SliceIsRaw(v: Vol, i: nat, off: nat, s: seq<Byte>)
    requires i < |v.ins| && IsSlice(v, i, off, s) && off + |s| <= 2113674 * 512
    ensures RawSlice(v.d, v.ins[i].addrs, off, s)
  {
    forall k | 0 <= k < |s|
      ensures s[k] == RawByte(v.d, v.ins[i].addrs, off + k)
    {
      FileByteIsRaw(v, i, off + k);
    }
  }

  lemma ReadIsRaw(v0: Vol, v: Vol, i: nat, off: nat, s: seq<Byte>)
    requires i < |v.ins| && Reading(v0, v, i) && IsSlice(v0, i, off, s) && off + |s| <= 2113674 * 512
    ensures RawSlice(v.d, v.ins[i].addrs, off, s)
  {
    SliceIsRaw(v, i, off, s);
  }

  lemma WriteIsRaw(v0: Vol, v: Vol, i: nat, off: nat, src: seq<Byte>)
    requires i < |v0.ins| && Wrote(v0, v, i, off, src)
    ensures RawSlice(v.d, v.ins[i].addrs, off, src)
  {
    SliceIsRaw(v, i, off, src);
  }

  // ---- inodes ----

  /** The 64 bytes of block b from o on are struct dinode of the inode ip. */
  predicate HoldsInode(b: Block, o: nat, ip: Inode) {
    && Holds16(b, o, ip.typ) && Holds16(b, o + 2, ip.major) && Holds16(b, o + 4, ip.minor)
    && Holds16(b, o + 6, ip.nlink)
    && Holds32(b, o + 8, ip.size)
    && forall k: nat :: k < 13 ==> Holds32(b, o + 12 + 4 * k, ip.addrs[k])
  }

  lemma {:induction false} FlattenBytes(ws: seq<U32>, k: nat)
    requires k < |ws|
    ensures Flatten(ws)[4 * k..4 * k + 4] == WordBytes(ws[k])
  {
    var n := |ws| - 1;
    if k < n {
      FlattenBytes(ws[..n], k);
      assert Flatten(ws)[4 * k..4 * k + 4] == Flatten(ws[..n])[4 * k..4 * k + 4];
    }
  }

  lemma EncodedWord(ip: Inode, k: nat)
    requires k < 13
    ensures EncodeInode(ip)[12 + 4 * k..16 + 4 * k] == WordBytes(ip.addrs[k])
  {
    FlattenBytes(ip.addrs, k);
    assert EncodeInode(ip)[12 + 4 * k..16 + 4 * k] == Flatten(ip.addrs)[4 * k..4 * k + 4];
  }

  lemma EncodedHalves(ip: Inode)
    ensures EncodeInode(ip)[..2] == HalfBytes(ip.typ) && EncodeInode(ip)[2..4] == HalfBytes(ip.major)
    ensures EncodeInode(ip)[4..6] == HalfBytes(ip.minor) && EncodeInode(ip)[6..8] == HalfBytes(ip.nlink)
    ensures EncodeInode(ip)[8..12] == WordBytes(ip.size)
  {
  }

  lemma Copied16(r: Block, o: nat, s: seq<Byte>, k: nat, w: U16)
    requires |s| == 64 && o + 64 <= 512 && (forall x :: 0 <= x < 64 ==> r[o + x] == s[x])
    requires k + 2 <= 64 && s[k..k + 2] == HalfBytes(w)
    ensures Holds16(r, o + k, w)
  {
    assert s[k..k + 2][0] == s[k] && s[k..k + 2][1] == s[k + 1];
  }

  lemma Copied32(r: Block, o: nat, s: seq<Byte>, k: nat, w: U32)
    requires |s| == 64 && o + 64 <= 512 && (forall x :: 0 <= x < 64 ==> r[o + x] == s[x])
    requires k + 4 <= 64 && s[k..k + 4] == WordBytes(w)
    ensures Holds32(r, o + k, w)
  {
    WordBytesAre(w);
    assert s[k..k + 4][0] == s[k] && s[k..k + 4][1] == s[k + 1];
    assert s[k..k + 4][2] == s[k + 2] && s[k..k + 4][3] == s[k + 3];
  }

  lemma SplicedInode(b: Block, o: nat, ip: Inode)
    requires o + 64 <= 512
    ensures HoldsInode(Splice(b, o, EncodeInode(ip)), o, ip) && SameOutside(b, Splice(b, o, EncodeInode(ip)), o, 64)
  {
    var s, r := EncodeInode(ip), Splice(b, o, EncodeInode(ip));
    EncodedHalves(ip);
    Copied16(r, o, s, 0, ip.typ);
    Copied16(r, o, s, 2, ip.major);
    Copied16(r, o, s, 4, ip.minor);
    Copied16(r, o, s, 6, ip.nlink);
    Copied32(r, o, s, 8, ip.size);
    forall k: nat | k < 13
      ensures Holds32(r, o + 12 + 4 * k, ip.addrs[k])
    {
      EncodedWord(ip, k);
      Copied32(r, o, s, 12 + 4 * k, ip.addrs[k]);
    }
  }

  /** From d to e only inode i of those that start in block `first` has been written, as ip. */
  ghost predicate InodeWritten(d: seq<Block>, e: seq<Block>, first: nat, i: nat, ip: Inode) {
    && |e| == |d| && first + i / 8 < |d| && HoldsInode(e[first + i / 8], 64 * (i % 8), ip)
    && SameOutside(d[first + i / 8], e[first + i / 8], 64 * (i % 8), 64)
    && forall b :: 0 <= b < |d| && b != first + i / 8 ==> e[b] == d[b]
  }

  /** iupdate writes the 64 bytes of the inode, eight inodes to a block, and no other byte of the disk. */
  lemma IupdateBytes(v: Vol, i: nat)
    requires v.Shape() && i < |v.ins|
    ensures InodeWritten(v.d, IupdateVol(v, i).d, v.sb.inodestart, i, v.ins[i])
  {
    SplicedInode(v.d[v.sb.inodestart + i / 8], 64 * (i % 8), v.ins[i]);
  }

  lemma DecodedWord(b: Block, o: nat, s: seq<Byte>, k: nat)
    requires o + 64 <= 512 && s == b[o..o + 64] && k + 4 <= 64
    ensures WordAt(s, k) == Spelled(b, o + k) && Holds32(b, o + k, WordAt(s, k))
  {
    assert s[k] == b[o + k] && s[k + 1] == b[o + k + 1] && s[k + 2] == b[o + k + 2] && s[k + 3] == b[o + k + 3];
    SpelledHolds(b, o + k);
  }

  lemma DecodedHalf(b: Block, o: nat, s: seq<Byte>, k: nat)
    requires o + 64 <= 512 && s == b[o..o + 64] && k + 2 <= 64
    ensures Holds16(b, o + k, HalfAt(s, k))
  {
    assert s[k] == b[o + k] && s[k + 1] == b[o + k + 1];
  }

  lemma DecodedInode(b: Block, o: nat, s: seq<Byte>)
    requires o + 64 <= 512 && s == b[o..o + 64]
    ensures HoldsInode(b, o, DecodeInode(s))
  {
    DecodedHalf(b, o, s, 0);
    DecodedHalf(b, o, s, 2);
    DecodedHalf(b, o, s, 4);
    DecodedHalf(b, o, s, 6);
    DecodedWord(b, o, s, 8);
    forall k: nat | k < 13
      ensures Holds32(b, o + 12 + 4 * k, DecodeInode(s).addrs[k])
    {
      DecodedWord(b, o, s, 12 + 4 * k);
    }
  }

  /** And an inode is read from those bytes. */
  lemma InodeReadFrom(v: Vol, i: nat)
    requires v.Shape() && i < v.sb.ninodes
    ensures v.sb.inodestart + i / 8 < |v.d| && HoldsInode(v.d[v.sb.inodestart + i / 8], 64 * (i % 8), DiskInode(v, i))
  {
    var b, o := v.d[v.sb.inodestart + i / 8], 64 * (i % 8);
    DecodedInode(b, o, b[o..o + 64]);
  }

  // ---- the free map ----

  /** 2 to the k, for the eight bits of a byte. */
  function Bit8(k: nat): int
    requires k < 8
  {
    [1, 2, 4, 8, 16, 32, 64, 128][k]
  }

  lemma HalveTwice(x: nat, k: nat)
    requires 0 < k < 8
    ensures x / 2 / Bit8(k - 1) == x / Bit8(k)
  {
    if k == 1 {
      assert x / 2 / 1 == x / 2;
    } else if k == 2 {
      assert x / 2 / 2 == x / 4;
    } else if k == 3 {
      assert x / 2 / 4 == x / 8;
    } else if k == 4 {
      assert x / 2 / 8 == x / 16;
    } else if k == 5 {
      assert x / 2 / 16 == x / 32;
    } else if k == 6 {
      assert x / 2 / 32 == x / 64;
    } else {
      assert x / 2 / 64 == x / 128;
    }
  }

  lemma {:induction false} BitIs(x: nat, k: nat)
    requires k < 8
    ensures Bit(x, k) <==> x / Bit8(k) % 2 == 1
  {
    if k > 0 {
      BitIs(x / 2, k - 1);
      HalveTwice(x, k);
    }
  }

  /** Setting a bit adds its power of two unless it is set, and clearing it takes that away. */
  lemma {:induction false} PutBitIs(x: nat, k: nat, on: bool)
    requires k < 8
    ensures PutBit(x, k, on) == x + (if on == Bit(x, k) then 0 else if on then Bit8(k) else -Bit8(k))
  {
    if k > 0 {
      PutBitIs(x / 2, k - 1, on);
      assert 2 * Bit8(k - 1) == Bit8(k);
    }
  }

  /** Block b is in use: its bit in the free map, eight to a byte with the lowest first, 4096 to a block, is set. */
  predicate RawUsed(d: seq<Block>, first: nat, b: nat) {
    first + b / 4096 < |d| && d[first + b / 4096][b % 4096 / 8] as int / Bit8(b % 8) % 2 == 1
  }

  lemma UsedIsRaw(v: Vol, b: nat)
    ensures Used(v, b) <==> RawUsed(v.d, v.sb.bmapstart, b)
  {
    assert b % 4096 % 8 == b % 8;
    if BBlock(v.sb, b) < |v.d| {
      BitIs(v.d[BBlock(v.sb, b)][b % 4096 / 8], b % 8);
    }
  }

  /** From d to e the bit of block b has been turned on or off, in its byte, and no other byte of that block changed. */
  ghost predicate BitTurned(d: Block, e: Block, b: nat, on: bool) {
    && SameOutside(d, e, b % 4096 / 8, 1)
    && e[b % 4096 / 8] as int == d[b % 4096 / 8] as int + (if on then Bit8(b % 8) else -Bit8(b % 8))
  }

  lemma PutBlockBitBytes(d: Block, b: nat, on: bool)
    requires BlockBit(d, b % BPB) != on
    ensures BitTurned(d, PutBlockBit(d, b % BPB, on), b, on)
  {
    assert b % 4096 % 8 == b % 8;
    PutBitIs(d[b % 4096 / 8], b % 8, on);
  }

  /** What balloc writes for the free block f: its bit, and zeros. */
  ghost predicate TakenRaw(d: seq<Block>, e: seq<Block>, first: nat, f: nat) {
    && |e| == |d| && f < |d| && first + f / 4096 < |d| && first + f / 4096 != f
    && BitTurned(d[first + f / 4096], e[first + f / 4096], f, true)
    && (forall k :: 0 <= k < 512 ==> e[f][k] == 0)
    && forall b :: 0 <= b < |d| && b != f && b != first + f / 4096 ==> e[b] == d[b]
  }

  lemma TakesRaw(v: Vol, f: nat)
    requires v.Shape() && f < v.sb.size && !Used(v, f) && !IsBitmap(v.sb, f)
    ensures TakenRaw(v.d, AllocDisk(v.sb, v.d, f), v.sb.bmapstart, f)
  {
    PutBlockBitBytes(v.d[BBlock(v.sb, f)], f, true);
  }

  /** What bfree writes: the bit of b, and nothing else. */
  ghost predicate FreedRaw(d: seq<Block>, e: seq<Block>, first: nat, b: nat) {
    && |e| == |d| && first + b / 4096 < |d| && BitTurned(d[first + b / 4096], e[first + b / 4096], b, false)
    && forall c :: 0 <= c < |d| && c != first + b / 4096 ==> e[c] == d[c]
  }

  lemma FreesRaw(v: Vol, b: nat)
    requires v.Shape() && b < v.sb.size && Used(v, b)
    ensures FreedRaw(v.d, FreeVol(v, b).d, v.sb.bmapstart, b)
  {
    PutBlockBitBytes(v.d[BBlock(v.sb, b)], b, false);
  }
}
