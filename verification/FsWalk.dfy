/** One call of bmap: the walk down to a node, the blocks it may log, and how its indices spell the node. */
module FsWalk {
  import opened Blocks
  import opened FsTree
  import opened FsIndex
  import opened FsGrow

  ghost predicate Full(v: Vol) {
    v.Shape() && forall b: nat :: b < v.sb.size ==> Used(v, b)
  }

  // ---- the indices bmap computes level by level spell NodeOf ----

  lemma Spell1(i: nat, bn: nat)
    requires NDIRECT <= bn < NDIRECT + NINDIRECT
    ensures NodeOf(i, bn) == Child(Slot(i, NDIRECT), bn - NDIRECT)
  {
    Caps();
    var root, b := Slot(i, NDIRECT), bn - NDIRECT;
    assert NodeOf(i, bn) == Radix(i, 1, b) == Deep(root, 1, b);
    assert Deep(root, 0, b / NINDIRECT) == root && b % NINDIRECT == b;
  }

  lemma Spell2(i: nat, bn: nat, b2: nat)
    requires b2 == bn - NDIRECT - NINDIRECT && b2 < NINDIRECT * NINDIRECT
    ensures b2 / NINDIRECT < NINDIRECT
    ensures NodeOf(i, bn) == Child(Child(Slot(i, NDIRECT + 1), b2 / NINDIRECT), b2 % NINDIRECT)
  {
    Caps();
    assert NodeOf(i, bn) == Radix(i, 2, b2) == Deep(Slot(i, NDIRECT + 1), 2, b2);
    assert Deep(Slot(i, NDIRECT + 1), 1, b2 / NINDIRECT) == Child(Slot(i, NDIRECT + 1), b2 / NINDIRECT);
  }

  lemma Split3(b3: nat)
    requires b3 < 128 * 128 * 128
    ensures b3 / 16384 < 128 && b3 % 16384 / 128 < 128
    ensures b3 - 16384 * (b3 / 16384) == b3 % 16384 && b3 % 128 == b3 % 16384 % 128
    ensures b3 / 128 / 128 == b3 / 16384 && b3 / 128 % 128 == b3 % 16384 / 128
  {
  }

  lemma Spell3(i: nat, bn: nat, b3: nat, cn: int)
    requires b3 == bn - NDIRECT - NINDIRECT - NINDIRECT * NINDIRECT && bn < MAXFILE
    requires cn == b3 - NINDIRECT * NINDIRECT * (b3 / (NINDIRECT * NINDIRECT))
    ensures 0 <= cn && b3 / (NINDIRECT * NINDIRECT) < NINDIRECT && cn / NINDIRECT < NINDIRECT
    ensures NodeOf(i, bn) ==
            Child(Child(Child(Slot(i, NDIRECT + 2), b3 / (NINDIRECT * NINDIRECT)), cn / NINDIRECT), cn % NINDIRECT)
  {
    Caps();
    Split3(b3);
    var root, x := Slot(i, NDIRECT + 2), b3 / NINDIRECT;
    assert NodeOf(i, bn) == Radix(i, 2, b3 + Cap(2)) == Radix(i, 3, b3) == Deep(root, 3, b3);
    assert Deep(root, 1, x / NINDIRECT) == Child(root, x / NINDIRECT);
    assert Deep(root, 2, x) == Child(Deep(root, 1, x / NINDIRECT), x % NINDIRECT);
  }

  // ---- which blocks a call of bmap takes and logs ----

  ghost predicate Fresh(v: Vol, v': Vol, q: Path) { Addr(v, q) == 0 && Addr(v', q) != 0 }

  /** Block b is that of a new node q, the bitmap block that records it, or the table it is entered in. */
  ghost predicate LoggedFor(v: Vol, v': Vol, q: Path, b: nat) {
    && Fresh(v, v', q)
    && (b == Addr(v', q) || b == BBlock(v.sb, Addr(v', q)) || (q.Child? && b == Addr(v', q.parent)))
  }

  ghost predicate LoggedForSome(v: Vol, v': Vol, b: nat) { exists q :: LoggedFor(v, v', q, b) }

  /** Exactly these are logged. */
  ghost predicate LogsNew(v: Vol, v': Vol, l: set<nat>, l': set<nat>) {
    forall b :: b in l' <==> b in l || LoggedForSome(v, v', b)
  }

  /** Block c was taken while the lower block b was free. */
  ghost predicate Skips(v: Vol, v': Vol, b: nat, c: nat) {
    b < c < v.sb.size && !Used(v', b) && Used(v', c) && !Used(v, c)
  }

  /** Every block taken is in a tree, and the blocks taken are the lowest free ones. */
  ghost predicate FirstFit(v: Vol, v': Vol) {
    && (forall b: nat :: b < v.sb.size && Used(v', b) && !Used(v, b) ==> Owned(v', b))
    && (forall b: nat, c: nat :: !Skips(v, v', b, c))
  }

  /** Addresses stay, and so do blocks in use. */
  ghost predicate Keeps(v: Vol, v': Vol) {
    && v'.sb == v.sb
    && (forall q :: Addr(v, q) != 0 ==> Addr(v', q) == Addr(v, q))
    && (forall b: nat :: b < v.sb.size && Used(v, b) ==> Used(v', b))
  }

  lemma ParentPresent(v: Vol, q: Path)
    ensures q.Child? && Addr(v, q) != 0 ==> Addr(v, q.parent) != 0
  {
    if q.Child? {
      AddrChild(v, q);
    }
  }

  lemma LoggedTrans(v: Vol, v1: Vol, v2: Vol, b: nat)
    requires Keeps(v, v1) && Keeps(v1, v2)
    ensures LoggedForSome(v, v2, b) <==> LoggedForSome(v, v1, b) || LoggedForSome(v1, v2, b)
  {
    if q :| LoggedFor(v, v1, q, b) {
      ParentPresent(v1, q);
      assert LoggedFor(v, v2, q, b);
    }
    if q :| LoggedFor(v1, v2, q, b) {
      assert LoggedFor(v, v2, q, b);
    }
    if q :| LoggedFor(v, v2, q, b) {
      ParentPresent(v1, q);
      assert LoggedFor(v, v1, q, b) || LoggedFor(v1, v2, q, b);
    }
  }

  lemma LogsTrans(v: Vol, v1: Vol, v2: Vol, l: set<nat>, l1: set<nat>, l2: set<nat>)
    requires Keeps(v, v1) && Keeps(v1, v2) && LogsNew(v, v1, l, l1) && LogsNew(v1, v2, l1, l2)
    ensures LogsNew(v, v2, l, l2)
  {
    forall b
      ensures b in l2 <==> b in l || LoggedForSome(v, v2, b)
    {
      LoggedTrans(v, v1, v2, b);
    }
  }

  lemma FirstFitTrans(v: Vol, v1: Vol, v2: Vol)
    requires Keeps(v, v1) && Keeps(v1, v2) && FirstFit(v, v1) && FirstFit(v1, v2)
    ensures FirstFit(v, v2)
  {
    forall b: nat | b < v.sb.size && Used(v2, b) && !Used(v, b)
      ensures Owned(v2, b)
    {
      if Used(v1, b) {
        var q :| Addr(v1, q) == b;
        assert Addr(v2, q) == b;
      }
    }
    forall b: nat, c: nat
      ensures !Skips(v, v2, b, c)
    {
      assert !Skips(v, v1, b, c) && !Skips(v1, v2, b, c);
    }
  }

  /** From v with log l, the walk has made p present; if it was present already nothing changed. */
  ghost predicate Reached(v: Vol, v': Vol, l: set<nat>, l': set<nat>, p: Path) {
    && Extends(v, v', p)
    && Addr(v', p) != 0
    && LogsNew(v, v', l, l') && FirstFit(v, v')
    && (Addr(v, p) != 0 ==> v' == v && l' == l)
  }

  lemma ReachedSelf(v: Vol, l: set<nat>, p: Path)
    requires TreeInv(v) && p.Inum() < |v.ins| && Addr(v, p) != 0
    ensures Reached(v, v, l, l, p)
  {
    ExtendsSelf(v, p);
  }

  lemma GrowLogs(v: Vol, v': Vol, p: Path, f: nat, l: set<nat>, l': set<nat>)
    requires f != 0 && Addr(v, p) == 0 && forall q :: Addr(v', q) == if q == p then f else Addr(v, q)
    requires l' == l + {BBlock(v.sb, f), f} + (if p.Child? then {Addr(v, p.parent)} else {})
    ensures LogsNew(v, v', l, l')
  {
    assert Addr(v', p) == f && (p.Child? ==> Addr(v', p.parent) == Addr(v, p.parent));
    forall b
      ensures b in l' <==> b in l || LoggedForSome(v, v', b)
    {
      if b in l' && b !in l {
        assert LoggedFor(v, v', p, b);
      }
    }
  }

  /** One allocation, with the blocks that balloc and the caller log. */
  lemma GrowReaches(v: Vol, p: Path, f: nat, l: set<nat>, l': set<nat>)
    requires CanGrow(v, p, f) && forall b: nat :: b < f ==> Used(v, b)
    requires l' == l + {BBlock(v.sb, f), f} + (if p.Child? then {Addr(v, p.parent)} else {})
    ensures Reached(v, GrowVol(v, p, f), l, l', p) && Addr(GrowVol(v, p, f), p) == f
  {
    var v' := GrowVol(v, p, f);
    FreshIsData(v, f);
    GrowExtends(v, p, f);
    GrowAll(v, p, f);
    GrowLogs(v, v', p, f, l, l');
  }

  /** One table step below p, composed with what happened above it. */
  lemma StepDown(v: Vol, v1: Vol, v2: Vol, l: set<nat>, l1: set<nat>, l2: set<nat>, P: Path)
    requires P.Child? && Reached(v, v1, l, l1, P.parent) && Reached(v1, v2, l1, l2, P)
    ensures Reached(v, v2, l, l2, P)
  {
    ExtendsTrans(v, v1, v2, P.parent, P);
    AddrChild(v, P);
    LogsTrans(v, v1, v2, l, l1, l2);
    FirstFitTrans(v, v1, v2);
  }

  lemma BitOfGroup(sb: Super, b: nat, bi: nat, f: nat)
    requires b % BPB == 0 && bi < BPB && f == b + bi
    ensures BBlock(sb, f) == BBlock(sb, b) && f % BPB == bi
  {
  }
}
