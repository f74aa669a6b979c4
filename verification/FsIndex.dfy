/** The index arithmetic of bmap: file block numbers and leaves of an inode's tree are in bijection. */
module FsIndex {
  import opened FsTree

  /** Blocks addressed by levels 1, ..., l - 1. */
  function Start(l: nat): nat { if l <= 1 then 0 else Start(l - 1) + Cap(l - 1) }

  /** The number spelled by the table indices on the way to p. */
  function Value(p: Path): nat {
    match p
    case Slot(_, _) => 0
    case Child(q, j) => NINDIRECT * Value(q) + j
  }

  ghost predicate InRange(p: Path) {
    match p
    case Slot(_, s) => s < NDIRECT + 3
    case Child(q, j) => InRange(q) && j < NINDIRECT
  }

  /** The inverse of NodeOf. */
  function IndexOf(p: Path): nat {
    if p.SlotNo() < NDIRECT then p.SlotNo() else NDIRECT + Start(p.Depth()) + Value(p)
  }

  lemma Caps()
    ensures Cap(1) == NINDIRECT && Cap(2) == NINDIRECT * NINDIRECT && Cap(3) == NINDIRECT * NINDIRECT * NINDIRECT
    ensures Start(1) == 0 && Start(2) == Cap(1) && Start(3) == Cap(1) + Cap(2) && Start(4) == Cap(1) + Cap(2) + Cap(3)
    ensures NDIRECT + Start(4) == MAXFILE
  {
  }

  lemma {:induction false} DeepShape(root: Path, l: nat, b: nat)
    ensures Deep(root, l, b).Inum() == root.Inum() && Deep(root, l, b).SlotNo() == root.SlotNo()
    ensures Deep(root, l, b).Depth() == root.Depth() + l
    ensures InRange(root) ==> InRange(Deep(root, l, b))
  {
    if l > 0 {
      DeepShape(root, l - 1, b / NINDIRECT);
    }
  }

  lemma {:induction false} DeepValue(i: nat, s: nat, l: nat, b: nat)
    requires b < Cap(l)
    ensures Value(Deep(Slot(i, s), l, b)) == b
  {
    if l > 0 {
      DeepValue(i, s, l - 1, b / NINDIRECT);
    }
  }

  lemma {:induction false} RadixIndex(i: nat, l: nat, b: nat)
    requires 1 <= l <= 3 && Start(l) + b < Start(4)
    ensures Radix(i, l, b).Leaf() && Radix(i, l, b).Inum() == i && InRange(Radix(i, l, b))
    ensures IndexOf(Radix(i, l, b)) == NDIRECT + Start(l) + b
    decreases 3 - l
  {
    Caps();
    if b < Cap(l) {
      DeepShape(Slot(i, l + 9), l, b);
      DeepValue(i, l + 9, l, b);
    } else {
      RadixIndex(i, l + 1, b - Cap(l));
    }
  }

  lemma NodeOfIndex(i: nat, bn: nat)
    requires bn < MAXFILE
    ensures NodeOf(i, bn).Leaf() && NodeOf(i, bn).Inum() == i && InRange(NodeOf(i, bn))
    ensures IndexOf(NodeOf(i, bn)) == bn
  {
    Caps();
    if bn >= NDIRECT {
      RadixIndex(i, 1, bn - NDIRECT);
    }
  }

  lemma {:induction false} ValueDeep(p: Path)
    requires InRange(p)
    ensures Value(p) < Cap(p.Depth())
    ensures Deep(Slot(p.Inum(), p.SlotNo()), p.Depth(), Value(p)) == p
  {
    if p.Child? {
      ValueDeep(p.parent);
      assert Value(p) / NINDIRECT == Value(p.parent) && Value(p) % NINDIRECT == p.j;
    }
  }

  lemma {:induction false} IndexRadix(p: Path, l: nat)
    requires InRange(p) && p.Leaf() && 1 <= l <= p.Depth() <= 3
    ensures Start(l) <= Start(p.Depth()) + Value(p)
    ensures Radix(p.Inum(), l, Start(p.Depth()) + Value(p) - Start(l)) == p
    decreases p.Depth() - l
  {
    ValueDeep(p);
    if l < p.Depth() {
      IndexRadix(p, l + 1);
    }
  }

  lemma {:induction false} InRangeSlot(p: Path)
    requires InRange(p)
    ensures p.SlotNo() < NDIRECT + 3
  {
    if p.Child? {
      InRangeSlot(p.parent);
    }
  }

  /** File block numbers below MAXFILE and the leaves of an inode's tree are in bijection. */
  lemma IndexOfNode(p: Path)
    requires InRange(p) && p.Leaf()
    ensures IndexOf(p) < MAXFILE && NodeOf(p.Inum(), IndexOf(p)) == p
  {
    Caps();
    InRangeSlot(p);
    if p.SlotNo() >= NDIRECT {
      ValueDeep(p);
      IndexRadix(p, 1);
    }
  }
}
