/** Disk blocks as bytes (fs.h): little-endian words, half-words and bits inside a block. */
module Blocks {

  const BSIZE: nat := 512
  const U32_MAX: nat := 0xFFFF_FFFF

  type Byte = x: int | 0 <= x < 256
  type U16 = x: int | 0 <= x < 0x1_0000
  type U32 = x: int | 0 <= x < 0x1_0000_0000
  type Block = s: seq<Byte> | |s| == BSIZE witness seq(BSIZE, _ => 0)

  function ZeroBlock(): Block { seq(BSIZE, _ => 0) }

  // ---- words: a byte buffer read as unsigned ints ----

  function WordAt(s: seq<Byte>, k: nat): (w: U32)
    requires k + 4 <= |s|
  {
    var b0: int, b1: int, b2: int, b3: int := s[k], s[k + 1], s[k + 2], s[k + 3];
    b0 + 0x100 * b1 + 0x1_0000 * b2 + 0x100_0000 * b3
  }

  /** Storing a word and loading it back is the identity. */
  function WordBytes(w: U32): (s: seq<Byte>)
    ensures |s| == 4 && WordAt(s, 0) == w
  {
    var w1: int := w / 0x100;
    var w2: int := w1 / 0x100;
    [w % 0x100, w1 % 0x100, w2 % 0x100, w2 / 0x100]
  }

  function HalfAt(s: seq<Byte>, k: nat): (h: U16)
    requires k + 2 <= |s|
  {
    var b0: int, b1: int := s[k], s[k + 1];
    b0 + 0x100 * b1
  }

  function HalfBytes(h: U16): (s: seq<Byte>)
    ensures |s| == 2 && HalfAt(s, 0) == h
  {
    [h % 0x100, h / 0x100]
  }

  /** The i-th word of a block. */
  function Word(b: Block, i: nat): (w: U32)
    requires i < 128
  {
    WordAt(b, 4 * i)
  }

  /** Storing the i-th word changes that word and no other. */
  function PutWord(b: Block, i: nat, w: U32): (r: Block)
    requires i < 128
    ensures Word(r, i) == w
    ensures forall j: nat :: j < 128 && j != i ==> Word(r, j) == Word(b, j)
  {
    var r := b[..4 * i] + WordBytes(w) + b[4 * i + 4..];
    assert r[4 * i..4 * i + 4] == WordBytes(w);
    r
  }

  /** The block with src copied in at off. */
  function Splice(b: Block, off: nat, src: seq<Byte>): (r: Block)
    requires off + |src| <= BSIZE
    ensures forall k :: 0 <= k < BSIZE ==> r[k] == if off <= k < off + |src| then src[k - off] else b[k]
  {
    b[..off] + src + b[off + |src|..]
  }

  // ---- words and half-words, byte by byte ----

  /** The four bytes of b from k on are those of w, the lowest first. */
  predicate Holds32(b: Block, k: nat, w: nat) {
    && k + 4 <= 512
    && b[k] == w % 256 && b[k + 1] == w / 256 % 256 && b[k + 2] == w / 65536 % 256 && b[k + 3] == w / 16777216
  }

  predicate Holds16(b: Block, k: nat, w: nat) { k + 2 <= 512 && b[k] == w % 256 && b[k + 1] == w / 256 }

  /** The two agree outside the n bytes from k on. */
  predicate SameOutside(b: Block, c: Block, k: nat, n: nat) {
    forall x :: 0 <= x < 512 && !(k <= x < k + n) ==> c[x] == b[x]
  }

  lemma WordBytesAre(w: U32)
    ensures WordBytes(w) == [w % 256, w / 256 % 256, w / 65536 % 256, w / 16777216]
  {
    assert w / 256 / 256 == w / 65536 && w / 65536 / 256 == w / 16777216;
  }

  /** Storing word i writes the bytes 4i to 4i + 3 and no other. */
  lemma PutWordBytes(b: Block, i: nat, w: U32)
    requires i < 128
    ensures Holds32(PutWord(b, i, w), 4 * i, w) && SameOutside(b, PutWord(b, i, w), 4 * i, 4)
  {
    WordBytesAre(w);
  }

  /** What the four bytes of b from k on spell. */
  function Spelled(b: Block, k: nat): nat
    requires k + 4 <= 512
  {
    var b0: int, b1: int, b2: int, b3: int := b[k], b[k + 1], b[k + 2], b[k + 3];
    b0 + 256 * b1 + 65536 * b2 + 16777216 * b3
  }

  /** Word i is what the bytes 4i to 4i + 3 spell. */
  lemma WordIs(b: Block, i: nat)
    requires i < 128
    ensures Word(b, i) == Spelled(b, 4 * i)
  {
  }

  lemma SpelledHolds(b: Block, k: nat)
    requires k + 4 <= 512
    ensures Holds32(b, k, Spelled(b, k))
  {
    var b0: int, b1: int, b2: int, b3: int := b[k], b[k + 1], b[k + 2], b[k + 3];
    var c1, c2 := b1 + 256 * b2 + 65536 * b3, b2 + 256 * b3;
    assert Spelled(b, k) == b0 + 256 * c1 && c1 == b1 + 256 * c2;
    assert Spelled(b, k) / 256 == c1 && Spelled(b, k) / 65536 == c2 && Spelled(b, k) / 16777216 == b3;
  }

  // ---- bits: the free map, eight to a byte, lowest first ----

  function Bit(x: nat, k: nat): bool {
    if k == 0 then x % 2 == 1 else Bit(x / 2, k - 1)
  }

  /** The byte x with bit k set to v. */
  function PutBit(x: nat, k: nat, v: bool): nat {
    if k == 0 then x - x % 2 + (if v then 1 else 0) else 2 * PutBit(x / 2, k - 1, v) + x % 2
  }

  function Pow2(n: nat): nat {
    if n == 0 then 1 else 2 * Pow2(n - 1)
  }

  lemma {:induction false} PutBitBit(x: nat, k: nat, v: bool, j: nat)
    ensures Bit(PutBit(x, k, v), j) == if j == k then v else Bit(x, j)
  {
    if j > 0 && k > 0 {
      PutBitBit(x / 2, k - 1, v, j - 1);
      assert PutBit(x, k, v) / 2 == PutBit(x / 2, k - 1, v);
    } else if j > 0 {
      assert PutBit(x, k, v) / 2 == x / 2;
    }
  }

  lemma HalfFits(x: nat, m: nat)
    requires x < 2 * m
    ensures x / 2 < m && x - x % 2 + 1 < 2 * m
  {
  }

  /** Clearing a bit that was set and setting it again. */
  lemma {:induction false} PutBitBack(x: nat, k: nat)
    requires Bit(x, k)
    ensures PutBit(PutBit(x, k, false), k, true) == x
  {
    if k > 0 {
      PutBitBack(x / 2, k - 1);
      assert PutBit(x, k, false) / 2 == PutBit(x / 2, k - 1, false);
    }
  }

  lemma {:induction false} PutBitFits(x: nat, k: nat, v: bool, n: nat)
    requires k < n && x < Pow2(n)
    ensures PutBit(x, k, v) < Pow2(n)
  {
    HalfFits(x, Pow2(n - 1));
    if k > 0 {
      PutBitFits(x / 2, k - 1, v, n - 1);
    }
  }

  const BPB: nat := 8 * BSIZE

  predicate BlockBit(b: Block, bi: nat)
    requires bi < BPB
  {
    Bit(b[bi / 8], bi % 8)
  }

  lemma PutByteFits(x: Byte, k: nat, v: bool)
    requires k < 8
    ensures 0 <= PutBit(x, k, v) < 256
  {
    assert Pow2(8) == 256;
    PutBitFits(x, k, v, 8);
  }

  function PutBlockBit(b: Block, bi: nat, v: bool): (r: Block)
    requires bi < BPB
  {
    PutByteFits(b[bi / 8], bi % 8, v);
    b[bi / 8 := PutBit(b[bi / 8], bi % 8, v)]
  }

  /** Setting or clearing one bitmap bit leaves every other bit of the block alone. */
  lemma PutBlockBitBits(b: Block, bi: nat, v: bool, j: nat)
    requires bi < BPB && j < BPB
    ensures BlockBit(PutBlockBit(b, bi, v), j) == if j == bi then v else BlockBit(b, j)
  {
    PutBitBit(b[bi / 8], bi % 8, v, j % 8);
  }

  // ---- disks ----

  /** The disk d after the block writes ws, each a block number and the new contents. */
  function Replay(d: seq<Block>, ws: seq<(nat, Block)>): (r: seq<Block>)
    ensures |r| == |d|
  {
    if ws == [] then d
    else
      var r, w := Replay(d, ws[..|ws| - 1]), ws[|ws| - 1];
      if w.0 < |d| then r[w.0 := w.1] else r
  }

  lemma ReplayOne(d: seq<Block>, ws: seq<(nat, Block)>, b: nat, blk: Block)
    requires b < |d|
    ensures Replay(d, ws + [(b, blk)]) == Replay(d, ws)[b := blk]
  {
    assert (ws + [(b, blk)])[..|ws|] == ws;
  }

  lemma {:induction false} ReplayAppend(d: seq<Block>, ws: seq<(nat, Block)>, us: seq<(nat, Block)>)
    ensures Replay(d, ws + us) == Replay(Replay(d, ws), us)
  {
    if us == [] {
      assert ws + us == ws;
    } else {
      var vs := us[..|us| - 1];
      assert (ws + us)[..|ws + us| - 1] == ws + vs;
      ReplayAppend(d, ws, vs);
    }
  }
}
