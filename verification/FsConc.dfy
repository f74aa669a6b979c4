/**
  Calls on different files that run at the same time. Each is a sequence of steps on one logical disk: a block of the
  free map changed while its buffer is held, another block written, or a change to the inode in memory. The inode lock
  keeps two calls off one file; the disk blocks, the free map and the blocks of inodes are shared.
*/
module FsConc {
  import opened Blocks
  import opened FsTree
  import opened FsIndex
  import opened FsGrow
  import opened FsIo
  import opened FsTrunc

  /** Where a call is: at its blocks, with its inode still to write, or through. */
  datatype Stage = Moving | Updating | Through

  /**
    A call past its bounds check. `mine` are blocks that it has taken and not yet entered in the tree, or that it is
    about to free; `start` is the volume it found, and of src the first tot bytes are written.
  */
  datatype Call =
    | Write(i: nat, stage: Stage, mine: set<nat>, start: Vol, off: nat, src: seq<Byte>, tot: nat)
    | Trunc(i: nat, stage: Stage, mine: set<nat>, start: Vol)

  /**
    The disk as last logged with the inodes in memory; a file to be truncated is empty from the start, its blocks
    `mine`.
  */
  datatype State = State(v: Vol, calls: map<nat, Call>)

  datatype Act =
    | EnterWrite(i: nat, off: nat, src: seq<Byte>) | EnterTrunc(i: nat)
    | Take(f: nat) | Zero(f: nat) | Link(q: Path, f: nat) | Put | SetSize | Free(b: nat) | Freed | Sync | Leave

  // ---- steps ----

  function BitVol(v: Vol, f: nat, on: bool): (r: Vol)
    requires v.Shape() && f < v.sb.size
    ensures r.Shape() && r.sb == v.sb
  {
    v.(d := v.d[BBlock(v.sb, f) := PutBlockBit(v.d[BBlock(v.sb, f)], f % BPB, on)])
  }

  /** The new block f is entered at the node q. */
  function LinkVol(v: Vol, q: Path, f: nat): Vol
    requires v.Shape() && q.Inum() < |v.ins| && q.SlotNo() < NDIRECT + 3 && f < v.sb.size
    requires q.Child? ==> q.j < NINDIRECT && Addr(v, q.parent) < v.sb.size
  {
    if q.Slot? then v.(ins := v.ins[q.i := v.ins[q.i].(addrs := v.ins[q.i].addrs[q.s := f])])
    else v.(d := v.d[Addr(v, q.parent) := PutWord(v.d[Addr(v, q.parent)], q.j, f)])
  }

  ghost function EmptyFile(v: Vol, i: nat): Vol
    requires i < |v.ins|
  {
    v.(ins := v.ins[i := v.ins[i].(addrs := seq(13, _ => 0), size := 0)])
  }

  ghost function BlocksOf(v: Vol, i: nat): set<nat> { set b: nat | b < v.sb.size && OwnedBy(v, i, b) }

  ghost predicate Idle(c: State, i: nat) { i < |c.v.ins| && forall p :: p in c.calls ==> c.calls[p].i != i }

  ghost predicate Enters(c: State, c': State, p: nat, act: Act)
    requires act.EnterWrite? || act.EnterTrunc?
  {
    && p !in c.calls && Idle(c, act.i)
    && if act.EnterWrite? then
      && act.off <= c.v.ins[act.i].size && act.off + |act.src| <= MAXFILE * BSIZE
      && c' == State(c.v, c.calls[p := Write(act.i, Moving, {}, c.v, act.off, act.src, 0)])
    else
      c' == State(EmptyFile(c.v, act.i), c.calls[p := Trunc(act.i, Moving, BlocksOf(c.v, act.i), c.v)])
  }

  /** The next byte of the file to write, and how many bytes the next block write moves. */
  function At(call: Call): nat
    requires call.Write?
  {
    call.off + call.tot
  }

  function Piece(call: Call): nat
    requires call.Write? && call.tot <= |call.src|
  {
    var room, rest := BSIZE - At(call) % BSIZE, |call.src| - call.tot;
    if rest < room then rest else room
  }

  /** A step of writei: bmap and balloc on the way to the next block, the block itself, and the size. */
  ghost predicate Writes(v: Vol, v': Vol, call: Call, call': Call, act: Act)
    requires call.Write? && v.Shape() && call.i < |v.ins|
  {
    && call.stage == Moving && call.tot <= |call.src|
    && var bn := At(call) / BSIZE;
    match act
    case Take(f) => f < v.sb.size && !Used(v, f) && v' == BitVol(v, f, true) && call' == call.(mine := call.mine + {f})
    case Zero(f) =>
      f in call.mine && f < v.sb.size && v' == v.(d := v.d[f := ZeroBlock()]) && call' == call
    case Link(q, f) =>
      && call.tot < |call.src| && AtOrAbove(q, NodeOf(call.i, bn)) && Addr(v, q) == 0
      && (q.Child? ==> 0 < Addr(v, q.parent) < v.sb.size)
      && InRange(q) && q.Inum() < |v.ins| && q.SlotNo() < NDIRECT + 3
      && f in call.mine && f < v.sb.size && v.d[f] == ZeroBlock()
      && v' == LinkVol(v, q, f) && call' == call.(mine := call.mine - {f})
    case Put =>
      && call.tot < |call.src| && Mapped(v, call.i, bn) && Addr(v, NodeOf(call.i, bn)) < v.sb.size
      && var a, end := Addr(v, NodeOf(call.i, bn)), call.tot + Piece(call);
      && v' == v.(d := v.d[a := Splice(v.d[a], At(call) % BSIZE, call.src[call.tot..end])])
      && call' == call.(tot := end)
    case SetSize =>
      && call.tot == |call.src| > 0 && v.ins[call.i].size < call.off + |call.src| <= U32_MAX
      && v' == Resized(v, call.i, call.off + |call.src|) && call' == call.(stage := Updating)
    case _ => false
  }

  /** A step of itrunc. */
  ghost predicate Truncs(v: Vol, v': Vol, call: Call, call': Call, act: Act)
    requires call.Trunc? && v.Shape()
  {
    && call.stage == Moving
    && match act
       case Free(b) =>
         b in call.mine && b < v.sb.size && v' == BitVol(v, b, false) && call' == call.(mine := call.mine - {b})
       case Freed => call.mine == {} && v' == v && call' == call.(stage := Updating)
       case _ => false
  }

  /** The call returns, having written its inode if the file grew. */
  ghost predicate MayLeave(v: Vol, call: Call)
    requires call.i < |v.ins|
  {
    || call.stage == Through
    || (&& call.Write? && call.stage == Moving && call.tot == |call.src|
        && (call.src == [] || call.off + |call.src| <= v.ins[call.i].size))
  }

  ghost predicate NextStep(c: State, c': State, p: nat, act: Act) {
    && c.v.Shape()
    && if act.EnterWrite? || act.EnterTrunc? then Enters(c, c', p, act)
       else
         && p in c.calls && c.calls[p].i < |c.v.ins|
         && var v, call := c.v, c.calls[p];
            if act.Leave? then MayLeave(v, call) && c' == State(v, c.calls - {p})
            else
              && p in c'.calls && c' == State(c'.v, c.calls[p := c'.calls[p]])
              && if act.Sync? then
                   call.stage == Updating && c'.v == IupdateVol(v, call.i) && c'.calls[p] == call.(stage := Through)
                 else if call.Write? then Writes(v, c'.v, call, c'.calls[p], act)
                 else Truncs(v, c'.v, call, c'.calls[p], act)
  }

  // ---- the invariant ----

  /** A block in use that is in no tree. */
  ghost predicate Spare(v: Vol, b: nat) { v.sb.Nmeta() <= b < v.sb.size && Used(v, b) && !Owned(v, b) }

  /** File i has no block. */
  ghost predicate NoTree(v: Vol, i: nat) { forall q: Path :: q.Inum() == i ==> Addr(v, q) == 0 }

  ghost predicate CallOk(v: Vol, call: Call)
    requires v.Shape()
  {
    && call.i < |v.ins| && NoHoles(v, call.i)
    && (call.stage == Through ==> Synced(v, call.i))
    && match call
       case Write(i, stage, mine, start, off, src, tot) =>
         && tot <= |src| && off + |src| <= MAXFILE * BSIZE && RangeMapped(v, i, off, tot)
         && Spliced(start, v, i, off, tot, src)
         && i < |start.ins| && off <= start.ins[i].size
         && (stage == Moving ==> v.ins[i].size == start.ins[i].size && (Synced(v, i) || off + |src| > v.ins[i].size))
         && (stage != Moving ==> tot == |src| && start.ins[i].size < v.ins[i].size == off + |src|)
       case Trunc(i, stage, mine, start) =>
         v.ins[i].size == 0 && NoTree(v, i) && (stage != Moving ==> mine == {})
  }

  /** No two calls work on one file or claim one block. */
  ghost predicate Apart(c: State) {
    forall p, q :: p in c.calls && q in c.calls && p != q ==>
      c.calls[p].i != c.calls[q].i && c.calls[p].mine !! c.calls[q].mine
  }

  ghost predicate Claims(v: Vol, call: Call) { forall b :: b in call.mine ==> Spare(v, b) }

  ghost predicate Settled(c: State)
    requires c.v.Shape()
  {
    forall j: nat :: Idle(c, j) ==> NoHoles(c.v, j) && Synced(c.v, j)
  }

  ghost predicate Inv(c: State) {
    && TreeInv(c.v) && Apart(c) && Settled(c)
    && (forall p :: p in c.calls ==> CallOk(c.v, c.calls[p]) && Claims(c.v, c.calls[p]))
  }

  // ---- what a step leaves alone ----

  /** Nothing of a file other than i has changed. */
  ghost predicate Local(v: Vol, v': Vol, i: nat) {
    && TreeInv(v) && TreeInv(v') && v'.sb == v.sb && |v'.ins| == |v.ins|
    && (forall q: Path :: q.Inum() != i ==> Addr(v', q) == Addr(v, q))
    && (forall j: nat :: j < |v.ins| && j != i ==> Untouched(v, v', j))
  }

  lemma OthersSettled(v: Vol, v': Vol, i: nat, j: nat)
    requires Local(v, v', i) && j < |v.ins| && j != i
    ensures NoHoles(v, j) ==> NoHoles(v', j)
    ensures Synced(v', j) <==> Synced(v, j)
    ensures forall x: nat :: Mapped(v', j, x) <==> Mapped(v, j, x)
  {
    assert Untouched(v, v', j);
    forall x: nat
      ensures Mapped(v', j, x) <==> Mapped(v, j, x)
    {
      NodeInum(j, x);
    }
  }

  lemma OthersOk(v: Vol, v': Vol, i: nat, call: Call)
    requires Local(v, v', i) && CallOk(v, call) && call.i != i
    ensures CallOk(v', call)
  {
    OthersSettled(v, v', i, call.i);
    assert Untouched(v, v', call.i);
  }

  /** Blocks of others stay spare, and the new ones of this call were not. */
  ghost predicate Spares(v: Vol, v': Vol, mine: set<nat>, mine': set<nat>) {
    && (forall b: nat :: Spare(v, b) && b !in mine ==> Spare(v', b))
    && (forall b :: b in mine' ==> b in mine || !Spare(v, b))
  }

  function Mine(c: State, p: nat): set<nat> { if p in c.calls then c.calls[p].mine else {} }

  /** p is the call on file i, or there is none and p begins it. */
  ghost predicate Works(c: State, p: nat, i: nat) { if p in c.calls then c.calls[p].i == i else Idle(c, i) }

  lemma StillApart(c: State, c': State, p: nat, call': Call)
    requires Inv(c) && Works(c, p, call'.i) && c' == State(c'.v, c.calls[p := call'])
    requires forall b :: b in call'.mine ==> b in Mine(c, p) || !Spare(c.v, b)
    ensures Apart(c')
  {
    forall q, r | q in c'.calls && r in c'.calls && q != r
      ensures c'.calls[q].i != c'.calls[r].i && c'.calls[q].mine !! c'.calls[r].mine
    {
      assert q != p ==> Claims(c.v, c.calls[q]);
      assert r != p ==> Claims(c.v, c.calls[r]);
    }
  }

  /** A step of one call keeps the invariant if it keeps that call's part of it. */
  lemma StepKeeps(c: State, c': State, p: nat, i: nat, call': Call)
    requires Inv(c) && Works(c, p, i) && call'.i == i && c' == State(c'.v, c.calls[p := call'])
    requires Local(c.v, c'.v, i) && CallOk(c'.v, call') && Claims(c'.v, call')
    requires Spares(c.v, c'.v, Mine(c, p), call'.mine)
    ensures Inv(c')
  {
    StillApart(c, c', p, call');
    forall j: nat | Idle(c', j)
      ensures NoHoles(c'.v, j) && Synced(c'.v, j)
    {
      assert c'.calls[p].i != j;
      forall q | q in c.calls
        ensures c.calls[q].i != j
      {
        assert q != p ==> c'.calls[q] == c.calls[q];
      }
      assert Idle(c, j);
      OthersSettled(c.v, c'.v, i, j);
    }
    forall q | q in c'.calls
      ensures CallOk(c'.v, c'.calls[q]) && Claims(c'.v, c'.calls[q])
    {
      if q != p {
        OthersOk(c.v, c'.v, i, c.calls[q]);
      }
    }
  }

  // ---- steps that change no file ----

  /** Trees, bytes and inodes are as before. */
  ghost predicate SameFiles(v: Vol, v': Vol) {
    && TreeInv(v) && TreeInv(v') && v'.sb == v.sb && v'.ins == v.ins
    && (forall q :: Addr(v', q) == Addr(v, q))
    && (forall i: nat, k: nat :: FileByte(v', i, k) == FileByte(v, i, k))
    && (forall b: nat :: b < v.sb.bmapstart ==> v'.d[b] == v.d[b])
  }

  lemma SameFilesLocal(v: Vol, v': Vol, i: nat)
    requires SameFiles(v, v')
    ensures Local(v, v', i) && forall b: nat :: Owned(v', b) <==> Owned(v, b)
  {
    forall j: nat | j < |v.ins|
      ensures Untouched(v, v', j)
    {
      assert IBlock(v.sb, j) < v.sb.bmapstart;
    }
    forall b: nat
      ensures Owned(v', b) <==> Owned(v, b)
    {
      if q :| Addr(v, q) == b {
        assert Addr(v', q) == b;
      }
      if q :| Addr(v', q) == b {
        assert Addr(v, q) == b;
      }
    }
  }

  lemma SameFilesOk(v: Vol, v': Vol, call: Call)
    requires SameFiles(v, v') && CallOk(v, call)
    ensures CallOk(v', call)
  {
    assert IBlock(v.sb, call.i) < v.sb.bmapstart;
    assert forall x: nat :: Mapped(v', call.i, x) <==> Mapped(v, call.i, x);
  }

  /** A step that changes no file, by the call of p. */
  lemma PlainStep(c: State, c': State, p: nat, call': Call)
    requires Inv(c) && p in c.calls && SameFiles(c.v, c'.v) && c' == State(c'.v, c.calls[p := call'])
    requires call' == c.calls[p].(mine := call'.mine) && (call'.Trunc? && call'.stage != Moving ==> call'.mine == {})
    requires Claims(c'.v, call') && Spares(c.v, c'.v, c.calls[p].mine, call'.mine)
    ensures Inv(c') && Local(c.v, c'.v, c.calls[p].i)
  {
    SameFilesLocal(c.v, c'.v, call'.i);
    SameFilesOk(c.v, c'.v, c.calls[p]);
    StepKeeps(c, c', p, call'.i, call');
  }

  lemma {:induction false} DataAddr(v: Vol, v': Vol, q: Path)
    requires TreeInv(v) && v'.Shape() && v'.sb == v.sb && v'.ins == v.ins
    requires forall b: nat :: v.sb.Nmeta() <= b < v.sb.size && Owned(v, b) ==> v'.d[b] == v.d[b]
    ensures Addr(v', q) == Addr(v, q)
  {
    if q.Child? {
      AddrChild(v, q);
      AddrChild(v', q);
      DataAddr(v, v', q.parent);
    }
  }

  /** A change to blocks outside all trees and after the inodes. */
  lemma OutsideTrees(v: Vol, v': Vol)
    requires TreeInv(v) && v'.Shape() && v'.sb == v.sb && v'.ins == v.ins
    requires forall b: nat :: v.sb.Nmeta() <= b < v.sb.size && Owned(v, b) ==> v'.d[b] == v.d[b]
    requires forall b: nat :: b < v.sb.bmapstart ==> v'.d[b] == v.d[b]
    requires forall b: nat :: b < v.sb.size && (b < v.sb.Nmeta() || Owned(v, b)) ==> Used(v', b)
    ensures SameFiles(v, v')
  {
    forall q
      ensures Addr(v', q) == Addr(v, q)
    {
      DataAddr(v, v', q);
    }
    forall q | Addr(v', q) != 0
      ensures Used(v', Addr(v', q))
    {
      assert Owned(v, Addr(v, q));
    }
    forall p, q | SameBlock(v', p, q)
      ensures p == q
    {
      Distinct(v, p, q);
    }
    forall i: nat, k: nat
      ensures FileByte(v', i, k) == FileByte(v, i, k)
    {
      var a := Addr(v, NodeOf(i, k / BSIZE));
      assert a != 0 ==> Owned(v, a);
    }
  }

  lemma BitUsed(v: Vol, f: nat, on: bool)
    requires v.Shape() && f < v.sb.size
    ensures forall b: nat :: b < v.sb.size ==> Used(BitVol(v, f, on), b) == if b == f then on else Used(v, b)
  {
    forall b: nat | b < v.sb.size
      ensures Used(BitVol(v, f, on), b) == if b == f then on else Used(v, b)
    {
      PutUsed(v, BitVol(v, f, on), f, on, b);
    }
  }

  lemma OwnedUsed(v: Vol, b: nat)
    requires TreeInv(v) && Owned(v, b)
    ensures Used(v, b) && v.sb.Nmeta() <= b < v.sb.size
  {
    var q :| Addr(v, q) == b;
    assert Used(v, Addr(v, q));
  }

  /** Setting a bit of the free map, or clearing that of a block in no tree. */
  lemma BitKeeps(v: Vol, f: nat, on: bool)
    requires TreeInv(v) && v.sb.Nmeta() <= f < v.sb.size && (on || !Owned(v, f))
    ensures SameFiles(v, BitVol(v, f, on))
  {
    var v' := BitVol(v, f, on);
    BitUsed(v, f, on);
    assert IsBitmap(v.sb, BBlock(v.sb, f));
    forall b: nat | b < v.sb.size && (b < v.sb.Nmeta() || Owned(v, b))
      ensures Used(v', b)
    {
      if Owned(v, b) {
        OwnedUsed(v, b);
      }
    }
    OutsideTrees(v, v');
  }

  lemma SpareKeeps(v: Vol, f: nat, blk: Block)
    requires TreeInv(v) && v.sb.Nmeta() <= f < v.sb.size && !Owned(v, f)
    ensures SameFiles(v, v.(d := v.d[f := blk]))
    ensures forall b: nat :: b < v.sb.size ==> Used(v.(d := v.d[f := blk]), b) == Used(v, b)
  {
    var v' := v.(d := v.d[f := blk]);
    forall b: nat | b < v.sb.size
      ensures Used(v', b) == Used(v, b)
    {
      assert BBlock(v.sb, b) < v.sb.Nmeta();
    }
    forall b: nat | b < v.sb.size && (b < v.sb.Nmeta() || Owned(v, b))
      ensures Used(v', b)
    {
      if Owned(v, b) {
        OwnedUsed(v, b);
      }
    }
    OutsideTrees(v, v');
  }

  /** A block taken becomes spare, a block freed stops being so, and the others stay as they are. */
  lemma BitSpares(v: Vol, f: nat, on: bool, v': Vol, b: nat)
    requires TreeInv(v) && v.sb.Nmeta() <= f < v.sb.size && !Owned(v, f) && v' == BitVol(v, f, on) && SameFiles(v, v')
    ensures Spare(v', b) <==> if b == f then on else Spare(v, b)
  {
    BitUsed(v, f, on);
    SameFilesLocal(v, v', 0);
  }

  lemma TakeClaims(v: Vol, f: nat, v': Vol, call: Call, call': Call)
    requires TreeInv(v) && f < v.sb.size && !Used(v, f) && v' == BitVol(v, f, true) && Claims(v, call)
    requires call'.mine == call.mine + {f}
    ensures SameFiles(v, v') && Claims(v', call') && Spares(v, v', call.mine, call'.mine)
  {
    FreshIsData(v, f);
    if Owned(v, f) {
      OwnedUsed(v, f);
    }
    BitKeeps(v, f, true);
    forall b: nat
      ensures Spare(v', b) <==> b == f || Spare(v, b)
    {
      BitSpares(v, f, true, v', b);
    }
  }

  lemma FreeClaims(v: Vol, f: nat, v': Vol, call: Call, call': Call)
    requires TreeInv(v) && Spare(v, f) && v' == BitVol(v, f, false) && Claims(v, call)
    requires f in call.mine && call'.mine == call.mine - {f}
    ensures SameFiles(v, v') && Claims(v', call') && Spares(v, v', call.mine, call'.mine)
  {
    BitKeeps(v, f, false);
    forall b: nat
      ensures Spare(v', b) <==> b != f && Spare(v, b)
    {
      BitSpares(v, f, false, v', b);
    }
  }

  lemma TakeKeeps(c: State, c': State, p: nat, f: nat)
    requires Inv(c) && NextStep(c, c', p, Take(f))
    ensures Inv(c') && Local(c.v, c'.v, c.calls[p].i)
  {
    assert Claims(c.v, c.calls[p]);
    TakeClaims(c.v, f, c'.v, c.calls[p], c'.calls[p]);
    PlainStep(c, c', p, c'.calls[p]);
  }

  lemma ZeroKeeps(c: State, c': State, p: nat, f: nat)
    requires Inv(c) && NextStep(c, c', p, Zero(f))
    ensures Inv(c') && Local(c.v, c'.v, c.calls[p].i)
  {
    assert Claims(c.v, c.calls[p]);
    SpareKeeps(c.v, f, ZeroBlock());
    SameFilesLocal(c.v, c'.v, c.calls[p].i);
    PlainStep(c, c', p, c'.calls[p]);
  }

  lemma FreeKeeps(c: State, c': State, p: nat, b: nat)
    requires Inv(c) && NextStep(c, c', p, Free(b))
    ensures Inv(c') && Local(c.v, c'.v, c.calls[p].i)
  {
    assert Claims(c.v, c.calls[p]);
    FreeClaims(c.v, b, c'.v, c.calls[p], c'.calls[p]);
    PlainStep(c, c', p, c'.calls[p]);
  }

  // ---- entering a block in the tree ----

  lemma BitBack(v: Vol, f: nat)
    requires v.Shape() && f < v.sb.size && Used(v, f) && v.d[f] == ZeroBlock() && !IsBitmap(v.sb, f)
    ensures AllocDisk(v.sb, BitVol(v, f, false).d, f) == v.d
  {
    var blk := v.d[BBlock(v.sb, f)];
    PutBitBack(blk[f % BPB / 8], f % BPB % 8);
    assert PutBlockBit(PutBlockBit(blk, f % BPB, false), f % BPB, true) == blk;
  }

  /** q is an absent node of a file, with a place to be entered. */
  ghost predicate Open(v: Vol, q: Path) {
    && Addr(v, q) == 0 && q.Inum() < |v.ins| && q.SlotNo() < NDIRECT + 3
    && (q.Child? ==> q.j < NINDIRECT && q.parent.Depth() < Level(q.SlotNo()) && Addr(v, q.parent) != 0)
  }

  /** Entering a spare zeroed block is taking it, zeroing it and entering it. */
  lemma LinkIsGrow(v: Vol, q: Path, f: nat)
    requires TreeInv(v) && Open(v, q) && Spare(v, f) && v.d[f] == ZeroBlock()
    ensures SameFiles(v, BitVol(v, f, false)) && CanGrow(BitVol(v, f, false), q, f)
    ensures LinkVol(v, q, f) == GrowVol(BitVol(v, f, false), q, f)
  {
    BitKeeps(v, f, false);
    BitUsed(v, f, false);
    BitBack(v, f);
  }

  lemma LinkNodes(v: Vol, q: Path, f: nat, v': Vol)
    requires TreeInv(v) && Open(v, q) && Spare(v, f) && v.d[f] == ZeroBlock() && v' == LinkVol(v, q, f)
    ensures forall r :: Addr(v', r) == if r == q then f else Addr(v, r)
    ensures forall b: nat :: b < v.sb.size ==> Used(v', b) == Used(v, b)
  {
    LinkIsGrow(v, q, f);
    BitUsed(v, f, false);
    GrowAll(BitVol(v, f, false), q, f);
  }

  lemma LinkFiles(v: Vol, q: Path, f: nat, v': Vol)
    requires TreeInv(v) && Open(v, q) && Spare(v, f) && v.d[f] == ZeroBlock() && v' == LinkVol(v, q, f)
    ensures Local(v, v', q.Inum()) && v'.ins[q.Inum()].size == v.ins[q.Inum()].size
    ensures forall i: nat, k: nat :: FileByte(v', i, k) == FileByte(v, i, k)
  {
    LinkIsGrow(v, q, f);
    var u := BitVol(v, f, false);
    GrowExtends(u, q, f);
    LinkNodes(v, q, f, v');
    forall j: nat | j < |v.ins| && j != q.Inum()
      ensures Untouched(v, v', j)
    {
      assert IBlock(v.sb, j) < v.sb.bmapstart;
    }
  }

  lemma LinkSpares(v: Vol, q: Path, f: nat, v': Vol, b: nat)
    requires TreeInv(v) && Open(v, q) && Spare(v, f) && v.d[f] == ZeroBlock()
    requires v' == LinkVol(v, q, f) && Spare(v, b) && b != f
    ensures Spare(v', b)
  {
    LinkNodes(v, q, f, v');
  }

  /** An absent node on the way to block bn lies past the end of the file. */
  lemma AbsentPastEnd(v: Vol, i: nat, bn: nat, q: Path)
    requires i < |v.ins| && NoHoles(v, i) && AtOrAbove(q, NodeOf(i, bn)) && Addr(v, q) == 0
    ensures v.ins[i].size <= bn * BSIZE
  {
    if Mapped(v, i, bn) {
      AbovePresent(v, q, NodeOf(i, bn));
    }
  }

  lemma NextBlock(call: Call)
    requires call.Write? && call.tot < |call.src| && call.off + |call.src| <= MAXFILE * BSIZE
    ensures At(call) / BSIZE < MAXFILE && At(call) % BSIZE + Piece(call) <= BSIZE && Piece(call) > 0
    ensures call.tot + Piece(call) <= |call.src|
  {
  }

  lemma LinkOpen(v: Vol, i: nat, bn: nat, q: Path)
    requires bn < MAXFILE && i < |v.ins| && AtOrAbove(q, NodeOf(i, bn)) && Addr(v, q) == 0 && InRange(q)
    requires q.Child? ==> Addr(v, q.parent) != 0
    ensures Open(v, q) && q.Inum() == i
  {
    NodeOfIndex(i, bn);
    AboveShallower(q, NodeOf(i, bn));
    AboveInum(q, NodeOf(i, bn));
    InRangeSlot(q);
  }

  lemma LinkOk(v: Vol, v': Vol, call: Call, bn: nat, q: Path, f: nat)
    requires TreeInv(v) && CallOk(v, call) && call.Write? && call.stage == Moving && call.tot < |call.src|
    requires bn == At(call) / BSIZE && AtOrAbove(q, NodeOf(call.i, bn))
    requires Open(v, q) && q.Inum() == call.i && Spare(v, f) && v.d[f] == ZeroBlock() && v' == LinkVol(v, q, f)
    ensures v'.Shape() && CallOk(v', call)
  {
    AbsentPastEnd(v, call.i, bn, q);
    LinkNodes(v, q, f, v');
    LinkFiles(v, q, f, v');
    assert forall x: nat :: Mapped(v, call.i, x) ==> Mapped(v', call.i, x);
  }

  lemma LinkClaims(v: Vol, v': Vol, call: Call, call': Call, q: Path, f: nat)
    requires TreeInv(v) && Open(v, q) && Spare(v, f) && v.d[f] == ZeroBlock() && v' == LinkVol(v, q, f)
    requires Claims(v, call) && f in call.mine && call'.mine == call.mine - {f}
    ensures Claims(v', call') && Spares(v, v', call.mine, call'.mine)
  {
    forall b: nat | Spare(v, b) && b != f
      ensures Spare(v', b)
    {
      LinkSpares(v, q, f, v', b);
    }
  }

  lemma LinkKeeps(c: State, c': State, p: nat, q: Path, f: nat)
    requires Inv(c) && NextStep(c, c', p, Link(q, f))
    ensures Inv(c') && Local(c.v, c'.v, c.calls[p].i)
  {
    var v, v', call, call' := c.v, c'.v, c.calls[p], c'.calls[p];
    var bn := At(call) / BSIZE;
    assert CallOk(v, call) && Claims(v, call);
    NextBlock(call);
    LinkOpen(v, call.i, bn, q);
    LinkFiles(v, q, f, v');
    LinkOk(v, v', call, bn, q, f);
    LinkClaims(v, v', call, call', q, f);
    assert CallOk(v', call');
    StepKeeps(c, c', p, call.i, call');
  }

  lemma GrowParts(v: Vol, q: Path, f: nat, v1: Vol, v2: Vol)
    requires CanGrow(v, q, f) && v1 == BitVol(v, f, true) && v2 == v1.(d := v1.d[f := ZeroBlock()])
    ensures v2.Shape() && v2.d[f] == ZeroBlock() && forall r :: Addr(v2, r) == Addr(v, r)
    ensures LinkVol(v2, q, f) == GrowVol(v, q, f)
  {
    FreshIsData(v, f);
    if Owned(v, f) {
      OwnedUsed(v, f);
    }
    BitKeeps(v, f, true);
    SameFilesLocal(v, v1, 0);
    SpareKeeps(v1, f, ZeroBlock());
  }

  /** A call of writei at block bn may enter f, which it has taken, at q. */
  ghost predicate MayLink(v: Vol, call: Call, q: Path, f: nat) {
    && call.Write? && call.stage == Moving && call.tot < |call.src| && call.i < |v.ins|
    && AtOrAbove(q, NodeOf(call.i, At(call) / BSIZE)) && InRange(q) && CanGrow(v, q, f) && f !in call.mine
  }

  lemma ThreeSteps(v: Vol, call: Call, q: Path, f: nat, v1: Vol, v2: Vol, v3: Vol, call': Call)
    requires MayLink(v, call, q, f) && call' == call.(mine := call.mine + {f})
    requires v1 == BitVol(v, f, true) && v2 == v1.(d := v1.d[f := ZeroBlock()]) && v3 == GrowVol(v, q, f)
    ensures v1.Shape() && v2.Shape() && |v1.ins| == |v2.ins| == |v.ins|
    ensures Writes(v, v1, call, call', Take(f)) && Writes(v1, v2, call', call', Zero(f))
    ensures Writes(v2, v3, call', call, Link(q, f))
  {
    GrowParts(v, q, f, v1, v2);
    assert call'.mine - {f} == call.mine;
    assert q.Child? ==> Addr(v, q.parent) < v.sb.size;
  }

  /** An allocation of bmap, as the sequential code performs it, is three of these steps. */
  lemma GrowIsThreeSteps(c: State, p: nat, q: Path, f: nat) returns (c1: State, c2: State, c3: State)
    requires p in c.calls && MayLink(c.v, c.calls[p], q, f)
    ensures NextStep(c, c1, p, Take(f)) && NextStep(c1, c2, p, Zero(f)) && NextStep(c2, c3, p, Link(q, f))
    ensures c3 == State(GrowVol(c.v, q, f), c.calls)
  {
    var v, call := c.v, c.calls[p];
    var call' := call.(mine := call.mine + {f});
    var v1 := BitVol(v, f, true);
    var v2, v3 := v1.(d := v1.d[f := ZeroBlock()]), GrowVol(v, q, f);
    ThreeSteps(v, call, q, f, v1, v2, v3, call');
    c1 := State(v1, c.calls[p := call']);
    c2 := State(v2, c1.calls[p := call']);
    c3 := State(v3, c2.calls[p := call]);
    assert c3.calls == c.calls;
  }

  // ---- block writes, sizes and inodes ----

  lemma SameNodesSpare(v: Vol, v': Vol, mine: set<nat>)
    requires v'.sb == v.sb && forall q :: Addr(v', q) == Addr(v, q)
    requires forall b: nat :: b < v.sb.size ==> Used(v', b) == Used(v, b)
    ensures Spares(v, v', mine, mine) && forall b: nat :: Spare(v, b) ==> Spare(v', b)
  {
  }

  lemma PutFiles(v: Vol, P: Path, blk: Block, v': Vol)
    requires CanWrite(v, P) && v' == WriteVol(v, P, blk)
    ensures Local(v, v', P.Inum()) && v'.ins == v.ins && forall q :: Addr(v', q) == Addr(v, q)
    ensures forall b: nat :: b < v.sb.size ==> Used(v', b) == Used(v, b)
    ensures forall b: nat :: b < v.sb.bmapstart ==> v'.d[b] == v.d[b]
  {
    SlotInRange(v, P);
    EvolvesSelf(v, P.Inum());
    EvolvesWrite(v, v, P, blk);
    forall q
      ensures Addr(v', q) == Addr(v, q)
    {
      WriteAddr(v, P, blk, q);
    }
    forall b: nat | b < v.sb.size
      ensures Used(v', b) == Used(v, b)
    {
      WriteUsed(v, P, blk, b);
    }
    forall j: nat | j < |v.ins| && j != P.Inum()
      ensures Untouched(v, v', j)
    {
      assert IBlock(v.sb, j) < v.sb.bmapstart;
    }
  }

  lemma RangeAt(v: Vol, i: nat, off: nat, tot: nat, end: nat, x: nat, bn: nat)
    requires x == off + tot && tot < end && x % BSIZE + (end - tot) <= BSIZE && bn == x / BSIZE
    ensures RangeMapped(v, i, off, end) <==> RangeMapped(v, i, off, tot) && Mapped(v, i, bn)
  {
    RangeStep(v, i, off, tot, end, bn);
  }

  /** The call writes its bytes tot to end, which lie in one block. */
  ghost predicate PutsPiece(v: Vol, v': Vol, call: Call, x: nat, bn: nat, end: nat) {
    && call.Write? && x == At(call) && bn == x / BSIZE && bn < MAXFILE && call.tot < end <= |call.src|
    && x % BSIZE + (end - call.tot) <= BSIZE && CanWrite(v, NodeOf(call.i, bn))
    && var P := NodeOf(call.i, bn); v' == WriteVol(v, P, Splice(v.d[Addr(v, P)], x % BSIZE, call.src[call.tot..end]))
  }

  lemma PutSplices(v: Vol, v': Vol, call: Call, x: nat, bn: nat, end: nat)
    requires PutsPiece(v, v', call, x, bn, end) && Spliced(call.start, v, call.i, call.off, call.tot, call.src)
    requires RangeMapped(v, call.i, call.off, call.tot)
    ensures Spliced(call.start, v', call.i, call.off, end, call.src) && RangeMapped(v', call.i, call.off, end)
    ensures forall y: nat :: Mapped(v', call.i, y) == Mapped(v, call.i, y)
  {
    var P := NodeOf(call.i, bn);
    SpliceAt(call.start, v, v, v', call.i, call.off, call.tot, end, x, bn, call.src);
    WriteMapped(v, P, Splice(v.d[Addr(v, P)], x % BSIZE, call.src[call.tot..end]), call.i);
    RangeAt(v, call.i, call.off, call.tot, end, x, bn);
  }

  lemma PutOk(v: Vol, v': Vol, call: Call, x: nat, bn: nat, end: nat)
    requires TreeInv(v) && CallOk(v, call) && PutsPiece(v, v', call, x, bn, end) && call.stage == Moving
    ensures v'.Shape() && CallOk(v', call.(tot := end))
  {
    PutSplices(v, v', call, x, bn, end);
    assert IBlock(v.sb, call.i) < v.sb.bmapstart;
  }

  lemma PutLocal(v: Vol, v': Vol, call: Call, x: nat, bn: nat, end: nat)
    requires PutsPiece(v, v', call, x, bn, end)
    ensures Local(v, v', call.i) && Spares(v, v', call.mine, call.mine) && (Claims(v, call) ==> Claims(v', call))
  {
    var P := NodeOf(call.i, bn);
    NodeInum(call.i, bn);
    PutFiles(v, P, Splice(v.d[Addr(v, P)], x % BSIZE, call.src[call.tot..end]), v');
    SameNodesSpare(v, v', call.mine);
  }

  lemma PutIsPiece(v: Vol, v': Vol, call: Call, call': Call, x: nat, bn: nat)
    requires TreeInv(v) && CallOk(v, call) && call.Write? && Writes(v, v', call, call', Put)
    requires x == At(call) && bn == x / BSIZE
    ensures call' == call.(tot := call.tot + Piece(call)) && PutsPiece(v, v', call, x, bn, call'.tot)
  {
    NextBlock(call);
    NodeOfIndex(call.i, bn);
  }

  lemma PutKeeps(c: State, c': State, p: nat)
    requires Inv(c) && NextStep(c, c', p, Put)
    ensures Inv(c') && Local(c.v, c'.v, c.calls[p].i)
  {
    var v, v', call, call' := c.v, c'.v, c.calls[p], c'.calls[p];
    var x := At(call);
    var bn := x / BSIZE;
    assert CallOk(v, call) && Claims(v, call);
    PutIsPiece(v, v', call, call', x, bn);
    PutLocal(v, v', call, x, bn, call'.tot);
    PutOk(v, v', call, x, bn, call'.tot);
    StepKeeps(c, c', p, call.i, call');
  }

  /** A change of sizes and inode blocks that touches no other inode. */
  lemma MetaLocal(v: Vol, v': Vol, i: nat)
    requires TreeInv(v) && SameTrees(v, v') && forall j: nat :: j < |v.ins| && j != i ==> v'.ins[j] == v.ins[j]
    requires forall j: nat :: j < |v.ins| && j != i ==> DiskInode(v', j) == DiskInode(v, j)
    ensures Local(v, v', i)
    ensures (forall q :: Addr(v', q) == Addr(v, q)) && forall b: nat :: b < v.sb.size ==> Used(v', b) == Used(v, b)
    ensures forall k: nat :: FileByte(v', i, k) == FileByte(v, i, k)
  {
    SameTreesKeep(v, v');
  }

  lemma GrownMapped(v: Vol, i: nat, off: nat, n: nat, x: nat)
    requires i < |v.ins| && NoHoles(v, i) && RangeMapped(v, i, off, n)
    requires off <= v.ins[i].size && n > 0 && x * BSIZE < off + n
    ensures Mapped(v, i, x)
  {
    if x * BSIZE >= v.ins[i].size {
      assert off / BSIZE <= x;
    }
  }

  lemma SizeLocal(v: Vol, v': Vol, i: nat, size: U32)
    requires TreeInv(v) && i < |v.ins| && v' == Resized(v, i, size)
    ensures Local(v, v', i) && (forall q :: Addr(v', q) == Addr(v, q))
    ensures forall k: nat :: FileByte(v', i, k) == FileByte(v, i, k)
    ensures forall b: nat :: b < v.sb.size ==> Used(v', b) == Used(v, b)
  {
    assert SameTrees(v, v');
    MetaLocal(v, v', i);
  }

  lemma SizeNoHoles(v: Vol, v': Vol, i: nat, off: nat, n: nat, size: U32)
    requires i < |v.ins| && NoHoles(v, i) && RangeMapped(v, i, off, n) && off <= v.ins[i].size && n > 0
    requires size == off + n <= MAXFILE * BSIZE && v' == Resized(v, i, size) && forall q :: Addr(v', q) == Addr(v, q)
    ensures NoHoles(v', i) && RangeMapped(v', i, off, n)
  {
    forall x: nat | x * BSIZE < size
      ensures Mapped(v', i, x)
    {
      GrownMapped(v, i, off, n, x);
    }
  }

  lemma SizeOk(v: Vol, v': Vol, call: Call, size: U32)
    requires TreeInv(v) && CallOk(v, call) && call.Write? && call.stage == Moving && call.tot == |call.src| > 0
    requires v.ins[call.i].size < size == call.off + |call.src| && v' == Resized(v, call.i, size)
    ensures v'.Shape() && CallOk(v', call.(stage := Updating))
  {
    SizeLocal(v, v', call.i, size);
    SizeNoHoles(v, v', call.i, call.off, call.tot, size);
  }

  lemma SetSizeKeeps(c: State, c': State, p: nat)
    requires Inv(c) && NextStep(c, c', p, SetSize)
    ensures Inv(c') && Local(c.v, c'.v, c.calls[p].i)
  {
    var v, v', call := c.v, c'.v, c.calls[p];
    var size := call.off + |call.src|;
    assert CallOk(v, call) && Claims(v, call);
    SizeLocal(v, v', call.i, size);
    SizeOk(v, v', call, size);
    SameNodesSpare(v, v', call.mine);
    StepKeeps(c, c', p, call.i, c'.calls[p]);
  }

  lemma SyncFiles(v: Vol, v': Vol, i: nat)
    requires TreeInv(v) && i < |v.ins| && v' == IupdateVol(v, i)
    ensures SameTrees(v, v') && Synced(v', i)
    ensures forall j: nat :: j < |v.ins| && j != i ==> DiskInode(v', j) == DiskInode(v, j)
  {
    IupdateSyncs(v, i, i);
    forall j: nat | j < |v.ins| && j != i
      ensures DiskInode(v', j) == DiskInode(v, j)
    {
      IupdateSyncs(v, i, j);
    }
  }

  lemma SameMapped(v: Vol, v': Vol, i: nat)
    requires forall q :: Addr(v', q) == Addr(v, q)
    ensures forall x: nat :: Mapped(v', i, x) <==> Mapped(v, i, x)
  {
  }

  lemma ThroughOk(v: Vol, v': Vol, call: Call)
    requires v.Shape() && v'.Shape() && CallOk(v, call) && call.stage == Updating
    requires v'.ins == v.ins && Synced(v', call.i)
    requires (forall q :: Addr(v', q) == Addr(v, q))
    requires forall k: nat :: FileByte(v', call.i, k) == FileByte(v, call.i, k)
    ensures CallOk(v', call.(stage := Through))
  {
    SameMapped(v, v', call.i);
  }

  lemma SyncOk(v: Vol, v': Vol, call: Call)
    requires TreeInv(v) && CallOk(v, call) && call.stage == Updating && v' == IupdateVol(v, call.i)
    ensures v'.Shape() && CallOk(v', call.(stage := Through))
  {
    SyncFiles(v, v', call.i);
    MetaLocal(v, v', call.i);
    ThroughOk(v, v', call);
  }

  lemma SyncKeeps(c: State, c': State, p: nat)
    requires Inv(c) && NextStep(c, c', p, Sync)
    ensures Inv(c') && Local(c.v, c'.v, c.calls[p].i)
  {
    var v, v', call := c.v, c'.v, c.calls[p];
    assert CallOk(v, call) && Claims(v, call);
    SyncFiles(v, v', call.i);
    MetaLocal(v, v', call.i);
    SyncOk(v, v', call);
    SameNodesSpare(v, v', call.mine);
    StepKeeps(c, c', p, call.i, c'.calls[p]);
  }

  // ---- calls that begin and end ----

  lemma {:induction false} EmptyAddr(v: Vol, i: nat, q: Path)
    requires i < |v.ins|
    ensures Addr(EmptyFile(v, i), q) == if q.Inum() == i then 0 else Addr(v, q)
  {
    if q.Child? {
      AddrChild(v, q);
      AddrChild(EmptyFile(v, i), q);
      EmptyAddr(v, i, q.parent);
    }
  }

  lemma EmptyFiles(v: Vol, v': Vol, i: nat)
    requires TreeInv(v) && i < |v.ins| && v' == EmptyFile(v, i)
    ensures Local(v, v', i) && NoHoles(v', i) && NoTree(v', i)
    ensures forall q :: Addr(v', q) == if q.Inum() == i then 0 else Addr(v, q)
  {
    forall q
      ensures Addr(v', q) == if q.Inum() == i then 0 else Addr(v, q)
    {
      EmptyAddr(v, i, q);
    }
    forall b: nat | b < v.sb.size
      ensures Used(v', b) == Used(v, b)
    {
    }
    forall p, q | SameBlock(v', p, q)
      ensures p == q
    {
      Distinct(v, p, q);
    }
    forall j: nat, k: nat
      ensures FileByte(v', j, k) == if j == i then 0 else FileByte(v, j, k)
    {
      NodeInum(j, k / BSIZE);
    }
  }

  lemma EmptySpares(v: Vol, v': Vol, i: nat, b: nat)
    requires TreeInv(v) && i < |v.ins| && v' == EmptyFile(v, i)
    ensures Spare(v, b) ==> Spare(v', b)
    ensures b in BlocksOf(v, i) ==> Spare(v', b) && !Spare(v, b)
  {
    EmptyFiles(v, v', i);
    if b in BlocksOf(v, i) {
      var q: Path :| q.Inum() == i && Addr(v, q) == b;
      assert Used(v, Addr(v, q));
      if r :| Addr(v', r) == b {
        Distinct(v, q, r);
      }
    }
  }

  lemma EnterTruncKeeps(c: State, c': State, p: nat, i: nat)
    requires Inv(c) && NextStep(c, c', p, EnterTrunc(i))
    ensures Inv(c') && Local(c.v, c'.v, i)
  {
    EmptyFiles(c.v, c'.v, i);
    forall b: nat
      ensures Spare(c.v, b) ==> Spare(c'.v, b)
      ensures b in BlocksOf(c.v, i) ==> Spare(c'.v, b) && !Spare(c.v, b)
    {
      EmptySpares(c.v, c'.v, i, b);
    }
    StepKeeps(c, c', p, i, c'.calls[p]);
  }

  lemma SelfLocal(v: Vol, i: nat)
    requires TreeInv(v)
    ensures Local(v, v, i)
  {
  }

  lemma EnterWriteKeeps(c: State, c': State, p: nat, i: nat, off: nat, src: seq<Byte>)
    requires Inv(c) && NextStep(c, c', p, EnterWrite(i, off, src))
    ensures Inv(c') && Local(c.v, c'.v, i)
  {
    SelfLocal(c.v, i);
    StepKeeps(c, c', p, i, c'.calls[p]);
  }

  lemma FreedKeeps(c: State, c': State, p: nat)
    requires Inv(c) && NextStep(c, c', p, Freed)
    ensures Inv(c') && Local(c.v, c'.v, c.calls[p].i)
  {
    assert CallOk(c.v, c.calls[p]);
    SelfLocal(c.v, c.calls[p].i);
    StepKeeps(c, c', p, c.calls[p].i, c'.calls[p]);
  }

  lemma LeaveKeeps(c: State, c': State, p: nat)
    requires Inv(c) && NextStep(c, c', p, Leave)
    ensures Inv(c') && Local(c.v, c'.v, c.calls[p].i)
  {
    assert CallOk(c.v, c.calls[p]);
    SelfLocal(c.v, c.calls[p].i);
    forall j: nat | Idle(c', j)
      ensures NoHoles(c'.v, j) && Synced(c'.v, j)
    {
      if j != c.calls[p].i {
        forall q | q in c.calls
          ensures c.calls[q].i != j
        {
          assert q != p ==> c'.calls[q] == c.calls[q];
        }
        assert Idle(c, j);
      }
    }
  }

  // ---- every interleaving ----

  /** The file that the step is about. */
  function FileOf(c: State, p: nat, act: Act): nat
    requires act.EnterWrite? || act.EnterTrunc? || p in c.calls
  {
    if act.EnterWrite? || act.EnterTrunc? then act.i else c.calls[p].i
  }

  /** Every step keeps the invariant and changes nothing of any other file: no byte, no address, no inode on disk. */
  lemma NextKeeps(c: State, c': State, p: nat, act: Act)
    requires Inv(c) && NextStep(c, c', p, act)
    ensures Inv(c') && Local(c.v, c'.v, FileOf(c, p, act))
  {
    match act
    case EnterWrite(i, off, src) => EnterWriteKeeps(c, c', p, i, off, src);
    case EnterTrunc(i) => EnterTruncKeeps(c, c', p, i);
    case Take(f) => TakeKeeps(c, c', p, f);
    case Zero(f) => ZeroKeeps(c, c', p, f);
    case Link(q, f) => LinkKeeps(c, c', p, q, f);
    case Put => PutKeeps(c, c', p);
    case SetSize => SetSizeKeeps(c, c', p);
    case Free(b) => FreeKeeps(c, c', p, b);
    case Freed => FreedKeeps(c, c', p);
    case Sync => SyncKeeps(c, c', p);
    case Leave => LeaveKeeps(c, c', p);
  }

  ghost predicate Steps(c: State, c': State) { exists p, act :: NextStep(c, c', p, act) }

  /** Any interleaving of calls from a file system at rest. */
  ghost predicate IsHistory(hs: seq<State>) {
    && |hs| > 0 && FsInv(hs[0].v) && hs[0].calls == map[]
    && forall k :: 0 < k < |hs| ==> Steps(hs[k - 1], hs[k])
  }

  lemma {:induction false} HistoryInv(hs: seq<State>, k: nat)
    requires IsHistory(hs) && k < |hs|
    ensures Inv(hs[k])
  {
    if k > 0 {
      HistoryInv(hs, k - 1);
      var p, act :| NextStep(hs[k - 1], hs[k], p, act);
      NextKeeps(hs[k - 1], hs[k], p, act);
    }
  }

  /** Once all calls have returned, in whatever order they ran, the file system is well-formed. */
  lemma RestsWhole(hs: seq<State>, k: nat)
    requires IsHistory(hs) && k < |hs| && hs[k].calls == map[]
    ensures FsInv(hs[k].v)
  {
    HistoryInv(hs, k);
    forall j: nat | j < |hs[k].v.ins|
      ensures NoHoles(hs[k].v, j) && Synced(hs[k].v, j)
    {
      assert Idle(hs[k], j);
    }
  }

  /** The same call, further on. */
  predicate SameWork(a: Call, b: Call) {
    a.i == b.i && a.start == b.start && a.Write? == b.Write? && (a.Write? ==> a.off == b.off && a.src == b.src)
  }

  /** Step k of the history, by p, is act. */
  ghost predicate StepAt(hs: seq<State>, k: nat, p: nat, act: Act) {
    k + 1 < |hs| && NextStep(hs[k], hs[k + 1], p, act)
  }

  lemma SameCallStep(c: State, c': State, q: nat, act: Act, p: nat)
    requires NextStep(c, c', q, act) && p in c.calls && !(q == p && act.Leave?)
    ensures p in c'.calls && SameWork(c.calls[p], c'.calls[p])
  {
  }

  /** From step k on, up to state m, p is in the call that it entered in step k. */
  lemma {:induction false} SameCall(hs: seq<State>, k: nat, p: nat, act: Act, m: nat)
    requires IsHistory(hs) && StepAt(hs, k, p, act) && (act.EnterWrite? || act.EnterTrunc?) && k < m < |hs|
    requires forall h :: k < h < m ==> !StepAt(hs, h, p, Leave)
    ensures p in hs[m].calls && SameWork(hs[k + 1].calls[p], hs[m].calls[p])
  {
    if k + 1 < m {
      var h := m - 1;
      SameCall(hs, k, p, act, h);
      assert !StepAt(hs, h, p, Leave);
      var q, a :| NextStep(hs[h], hs[m], q, a);
      SameCallStep(hs[h], hs[m], q, a, p);
    }
  }

  /**
    When a write returns, its file holds what it held when it began, with the bytes spliced in and the size the larger
    of the two, whatever ran in between.
  */
  lemma WriteTakesEffect(hs: seq<State>, k: nat, p: nat, i: nat, off: nat, src: seq<Byte>, m: nat)
    requires IsHistory(hs) && StepAt(hs, k, p, EnterWrite(i, off, src)) && k < m && StepAt(hs, m, p, Leave)
    requires forall h :: k < h < m ==> !StepAt(hs, h, p, Leave)
    ensures Spliced(hs[k].v, hs[m].v, i, off, |src|, src)
    ensures i < |hs[k].v.ins| && i < |hs[m].v.ins|
    ensures var was := hs[k].v.ins[i].size;
            hs[m].v.ins[i].size == if src != [] && off + |src| > was then off + |src| else was
  {
    SameCall(hs, k, p, EnterWrite(i, off, src), m);
    HistoryInv(hs, m);
    assert CallOk(hs[m].v, hs[m].calls[p]);
  }

  /** Between steps k and m call p has freed b. */
  ghost predicate FreedSince(hs: seq<State>, k: nat, p: nat, b: nat, m: nat) {
    exists h: nat :: k < h < m && StepAt(hs, h, p, Free(b))
  }

  lemma MineStep(c: State, c': State, q: nat, act: Act, p: nat, b: nat)
    requires NextStep(c, c', q, act) && p in c.calls && c.calls[p].Trunc?
    requires !(q == p && act.Leave?) && b in c.calls[p].mine
    ensures p in c'.calls && (b in c'.calls[p].mine || (q == p && act == Free(b)))
  {
  }

  lemma {:induction false} FreedOrMine(hs: seq<State>, k: nat, p: nat, i: nat, m: nat, b: nat)
    requires IsHistory(hs) && StepAt(hs, k, p, EnterTrunc(i)) && k < m < |hs| && b in BlocksOf(hs[k].v, i)
    requires forall h :: k < h < m ==> !StepAt(hs, h, p, Leave)
    ensures p in hs[m].calls && (b in hs[m].calls[p].mine || FreedSince(hs, k, p, b, m))
  {
    if k + 1 < m {
      var h := m - 1;
      FreedOrMine(hs, k, p, i, h, b);
      SameCall(hs, k, p, EnterTrunc(i), h);
      assert !StepAt(hs, h, p, Leave);
      var q, a :| NextStep(hs[h], hs[m], q, a);
      SameCallStep(hs[h], hs[m], q, a, p);
      if b in hs[h].calls[p].mine {
        MineStep(hs[h], hs[m], q, a, p, b);
        assert a == Free(b) && q == p ==> StepAt(hs, h, p, Free(b));
      } else {
        var x: nat :| k < x < h && StepAt(hs, x, p, Free(b));
        assert k < x < m;
      }
    }
  }

  /** When a truncation returns, its file is empty, and it has freed every block that the file had when it began. */
  lemma TruncTakesEffect(hs: seq<State>, k: nat, p: nat, i: nat, m: nat)
    requires IsHistory(hs) && StepAt(hs, k, p, EnterTrunc(i)) && k < m && StepAt(hs, m, p, Leave)
    requires forall h :: k < h < m ==> !StepAt(hs, h, p, Leave)
    ensures i < |hs[m].v.ins| && hs[m].v.ins[i].size == 0 && NoTree(hs[m].v, i)
    ensures forall b :: b in BlocksOf(hs[k].v, i) ==> FreedSince(hs, k, p, b, m)
  {
    SameCall(hs, k, p, EnterTrunc(i), m);
    HistoryInv(hs, m);
    assert CallOk(hs[m].v, hs[m].calls[p]);
    forall b | b in BlocksOf(hs[k].v, i)
      ensures FreedSince(hs, k, p, b, m)
    {
      FreedOrMine(hs, k, p, i, m, b);
    }
  }
}
