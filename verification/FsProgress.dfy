/**
  No call waits for another: from every state of the concurrent file system a write or truncation that goes on alone
  returns, unless it is a write that needs a block when every block is in use.
*/
module FsProgress {
  import opened Blocks
  import opened FsTree
  import opened FsIndex
  import opened FsIo
  import opened FsTrunc
  import opened FsConc

  // ---- steps of one call ----

  ghost predicate Acts(c: State, c': State, p: nat) { exists act :: NextStep(c, c', p, act) }

  ghost predicate IsPath(p: nat, path: seq<State>) {
    |path| > 0 && forall k :: 0 < k < |path| ==> Acts(path[k - 1], path[k], p)
  }

  /** Steps of p lead from c, where the invariant holds, to c'. */
  ghost predicate Leads(p: nat, c: State, c': State) {
    Inv(c) && exists path :: IsPath(p, path) && path[0] == c && path[|path| - 1] == c'
  }

  lemma Starts(p: nat, c: State)
    requires Inv(c)
    ensures Leads(p, c, c)
  {
    assert IsPath(p, [c]);
  }

  lemma Longer(p: nat, path: seq<State>, c': State)
    requires IsPath(p, path) && Acts(path[|path| - 1], c', p)
    ensures IsPath(p, path + [c'])
  {
    var path' := path + [c'];
    forall k | 0 < k < |path'|
      ensures Acts(path'[k - 1], path'[k], p)
    {
      assert k < |path| ==> Acts(path[k - 1], path[k], p);
    }
  }

  lemma Go(p: nat, c0: State, c: State, act: Act, c': State)
    requires Leads(p, c0, c) && NextStep(c, c', p, act)
    ensures Leads(p, c0, c')
  {
    var path :| IsPath(p, path) && path[0] == c0 && path[|path| - 1] == c;
    assert Acts(c, c', p);
    Longer(p, path, c');
    var path' := path + [c'];
    assert path'[0] == c0 && path'[|path'| - 1] == c';
  }

  lemma {:induction false} PathInv(p: nat, path: seq<State>, k: nat)
    requires IsPath(p, path) && k < |path| && Inv(path[0])
    ensures Inv(path[k])
  {
    if k > 0 {
      PathInv(p, path, k - 1);
      assert Acts(path[k - 1], path[k], p);
      var act :| NextStep(path[k - 1], path[k], p, act);
      NextKeeps(path[k - 1], path[k], p, act);
    }
  }

  lemma LeadsInv(p: nat, c0: State, c: State)
    requires Leads(p, c0, c)
    ensures Inv(c) && (p in c.calls ==> CallOk(c.v, c.calls[p]) && Claims(c.v, c.calls[p]))
  {
    var path :| IsPath(p, path) && path[0] == c0 && path[|path| - 1] == c;
    PathInv(p, path, |path| - 1);
  }

  lemma LeadsFile(p: nat, c0: State, c: State)
    requires Leads(p, c0, c)
    ensures c.v.Shape() && (p in c.calls ==> c.calls[p].i < |c.v.ins|)
    ensures p in c.calls && c.calls[p].Write? ==> c.calls[p].off + |c.calls[p].src| <= MAXFILE * BSIZE
  {
    LeadsInv(p, c0, c);
  }

  /** The call of p has gone on to call', with volume v', and the others are where they were. */
  function Moved(c: State, p: nat, v': Vol, call': Call): State { State(v', c.calls[p := call']) }

  lemma MovedAgain(c: State, p: nat, c1: State, c2: State)
    requires p in c.calls && p in c1.calls && p in c2.calls
    requires c1 == Moved(c, p, c1.v, c1.calls[p]) && c2 == Moved(c1, p, c2.v, c2.calls[p])
    ensures c2 == Moved(c, p, c2.v, c2.calls[p])
  {
    assert c2.calls == c.calls[p := c2.calls[p]];
  }

  // ---- truncation ----

  ghost predicate Truncating(c: State, p: nat) { p in c.calls && c.calls[p].Trunc? && c.calls[p].stage == Moving }

  /** The truncation of p has got further. */
  ghost predicate Shorter(c: State, c': State, p: nat) {
    && p in c.calls && c.calls[p].Trunc? && p in c'.calls && c'.calls[p].Trunc? && SameWork(c.calls[p], c'.calls[p])
    && c' == Moved(c, p, c'.v, c'.calls[p])
  }

  lemma FreeOne(p: nat, c0: State, c: State, b: nat) returns (c': State)
    requires Leads(p, c0, c) && Truncating(c, p) && b in c.calls[p].mine
    ensures Leads(p, c0, c') && Shorter(c, c', p) && Truncating(c', p) && c'.calls[p].mine == c.calls[p].mine - {b}
  {
    LeadsInv(p, c0, c);
    var call := c.calls[p];
    c' := Moved(c, p, BitVol(c.v, b, false), Trunc(call.i, Moving, call.mine - {b}, call.start));
    Go(p, c0, c, Free(b), c');
  }

  lemma {:induction false} FreeAll(p: nat, c0: State, c: State, n: nat) returns (c': State)
    requires Leads(p, c0, c) && Truncating(c, p) && n == |c.calls[p].mine|
    ensures Leads(p, c0, c') && Shorter(c, c', p) && Truncating(c', p) && c'.calls[p].mine == {}
    decreases n
  {
    if b :| b in c.calls[p].mine {
      var c1 := FreeOne(p, c0, c, b);
      c' := FreeAll(p, c0, c1, n - 1);
      MovedAgain(c, p, c1, c');
    } else {
      c' := c;
      assert c.calls == c.calls[p := c.calls[p]];
    }
  }

  // ---- the blocks of a write ----

  /** Every block is in use: balloc finds none. */
  ghost predicate NoSpace(v: Vol) { v.Shape() && forall b: nat :: b < v.sb.size ==> Used(v, b) }

  /** The call of p is a write with bytes left. */
  ghost predicate Busy(c: State, p: nat) {
    p in c.calls && c.calls[p].Write? && c.calls[p].stage == Moving && c.calls[p].tot < |c.calls[p].src|
  }

  /** The node of the block that it writes next. */
  function NextNode(call: Call): Path
    requires call.Write?
  {
    NodeOf(call.i, At(call) / BSIZE)
  }

  /** Of a write of p only the blocks that it claims and the bytes it has written have changed. */
  ghost predicate Further(c: State, c': State, p: nat) {
    && p in c.calls && c.calls[p].Write? && p in c'.calls && c'.calls[p].Write? && SameWork(c.calls[p], c'.calls[p])
    && c'.calls[p].stage == c.calls[p].stage && c' == Moved(c, p, c'.v, c'.calls[p])
  }

  /** Only the blocks have. */
  ghost predicate SamePlace(c: State, c': State, p: nat) { Further(c, c', p) && c'.calls[p].tot == c.calls[p].tot }

  lemma SamePlaceAgain(c: State, p: nat, c1: State, c2: State)
    requires SamePlace(c, c1, p) && SamePlace(c1, c2, p)
    ensures SamePlace(c, c2, p)
  {
    MovedAgain(c, p, c1, c2);
  }

  lemma SamePlaceSelf(c: State, p: nat)
    requires p in c.calls && c.calls[p].Write?
    ensures SamePlace(c, c, p)
  {
    assert c.calls == c.calls[p := c.calls[p]];
  }

  function Claiming(call: Call, mine: set<nat>): Call
    requires call.Write?
  {
    Write(call.i, call.stage, mine, call.start, call.off, call.src, call.tot)
  }

  /** The addresses of q and of the node above are as before. */
  ghost predicate SameAt(v: Vol, v': Vol, q: Path) {
    Addr(v', q) == Addr(v, q) && (q.Child? ==> Addr(v', q.parent) == Addr(v, q.parent))
  }

  lemma TakeIt(p: nat, c0: State, c: State, q: Path, f: nat) returns (c': State)
    requires Leads(p, c0, c) && Busy(c, p) && c.v.Shape() && f < c.v.sb.size && !Used(c.v, f)
    ensures Leads(p, c0, c') && SamePlace(c, c', p) && f in c'.calls[p].mine && SameAt(c.v, c'.v, q)
  {
    LeadsInv(p, c0, c);
    var call := c.calls[p];
    var call' := Claiming(call, call.mine + {f});
    c' := Moved(c, p, BitVol(c.v, f, true), call');
    TakeClaims(c.v, f, c'.v, call, call');
    Go(p, c0, c, Take(f), c');
  }

  /** balloc: the call has a block to enter at q, or there is none. */
  lemma GetBlock(p: nat, c0: State, c: State, q: Path) returns (c': State)
    requires Leads(p, c0, c) && Busy(c, p) && c.v.Shape()
    ensures Leads(p, c0, c') && SamePlace(c, c', p) && SameAt(c.v, c'.v, q)
    ensures c'.calls[p].mine == {} ==> NoSpace(c'.v)
  {
    if f: nat :| c.calls[p].mine == {} && f < c.v.sb.size && !Used(c.v, f) {
      c' := TakeIt(p, c0, c, q, f);
    } else {
      SamePlaceSelf(c, p);
      c' := c;
    }
  }

  lemma {:induction false} AboveInRange(q: Path, r: Path)
    requires AtOrAbove(q, r) && InRange(r)
    ensures InRange(q)
  {
    if q != r {
      AboveInRange(q, r.parent);
    }
  }

  /** q is absent on the way to the next block of the call, and the node above is there. */
  ghost predicate Missing(v: Vol, call: Call, q: Path) {
    && call.Write? && AtOrAbove(q, NextNode(call)) && Addr(v, q) == 0
    && (q.Child? ==> Addr(v, q.parent) != 0)
  }

  lemma MissingOpen(v: Vol, call: Call, q: Path)
    requires TreeInv(v) && CallOk(v, call) && Missing(v, call, q) && call.tot < |call.src|
    ensures Open(v, q) && InRange(q) && q.Inum() == call.i
  {
    NextBlock(call);
    NodeOfIndex(call.i, At(call) / BSIZE);
    AboveInRange(q, NextNode(call));
    LinkOpen(v, call.i, At(call) / BSIZE, q);
  }

  /** The block f, which the call has taken, is zeroed. */
  lemma ZeroIt(p: nat, c0: State, c: State, q: Path, f: nat) returns (c': State)
    requires Leads(p, c0, c) && Busy(c, p) && f in c.calls[p].mine
    ensures Leads(p, c0, c') && SamePlace(c, c', p) && c'.calls[p] == c.calls[p] && SameAt(c.v, c'.v, q)
    ensures f < |c'.v.d| && c'.v.d[f] == ZeroBlock()
  {
    LeadsInv(p, c0, c);
    SpareKeeps(c.v, f, ZeroBlock());
    c' := Moved(c, p, c.v.(d := c.v.d[f := ZeroBlock()]), c.calls[p]);
    Go(p, c0, c, Zero(f), c');
  }

  /** And entered at the absent node q. */
  lemma LinkIt(p: nat, c0: State, c: State, q: Path, f: nat) returns (c': State)
    requires Leads(p, c0, c) && Busy(c, p) && f in c.calls[p].mine && f < |c.v.d| && c.v.d[f] == ZeroBlock()
    requires Missing(c.v, c.calls[p], q)
    ensures Leads(p, c0, c') && SamePlace(c, c', p) && Addr(c'.v, q) != 0
  {
    LeadsInv(p, c0, c);
    var call := c.calls[p];
    MissingOpen(c.v, call, q);
    LinkNodes(c.v, q, f, LinkVol(c.v, q, f));
    c' := Moved(c, p, LinkVol(c.v, q, f), Claiming(call, call.mine - {f}));
    Go(p, c0, c, Link(q, f), c');
  }

  lemma EnterAt(p: nat, c0: State, c: State, q: Path) returns (c': State)
    requires Leads(p, c0, c) && Busy(c, p) && c.v.Shape() && Missing(c.v, c.calls[p], q)
    ensures Leads(p, c0, c') && SamePlace(c, c', p) && (Addr(c'.v, q) != 0 || NoSpace(c'.v))
  {
    c' := GetBlock(p, c0, c, q);
    if f :| f in c'.calls[p].mine {
      var c1 := c';
      var c2 := ZeroIt(p, c0, c1, q, f);
      SamePlaceAgain(c, p, c1, c2);
      c' := LinkIt(p, c0, c2, q, f);
      SamePlaceAgain(c, p, c2, c');
    }
  }

  /** bmap: the nodes down to q are there, or there is no space. */
  lemma {:induction false} Descend(p: nat, c0: State, c: State, q: Path) returns (c': State)
    requires Leads(p, c0, c) && Busy(c, p) && AtOrAbove(q, NextNode(c.calls[p]))
    ensures Leads(p, c0, c') && SamePlace(c, c', p) && (Addr(c'.v, q) != 0 || NoSpace(c'.v))
    decreases q
  {
    c' := c;
    SamePlaceSelf(c, p);
    if q.Child? {
      AboveTrans(q.parent, q, NextNode(c.calls[p]));
      c' := Descend(p, c0, c, q.parent);
    }
    if Addr(c'.v, q) == 0 && !NoSpace(c'.v) {
      var c1 := c';
      LeadsFile(p, c0, c1);
      c' := EnterAt(p, c0, c1, q);
      SamePlaceAgain(c, p, c1, c');
    }
  }

  /** The block is written. */
  lemma PutIt(p: nat, c0: State, c: State) returns (c': State)
    requires Leads(p, c0, c) && Busy(c, p) && Addr(c.v, NextNode(c.calls[p])) != 0
    ensures Leads(p, c0, c') && Further(c, c', p) && c.calls[p].tot < c'.calls[p].tot <= |c.calls[p].src|
  {
    LeadsInv(p, c0, c);
    var call := c.calls[p];
    NextBlock(call);
    var a, end := Addr(c.v, NextNode(call)), call.tot + Piece(call);
    c' := Moved(c, p, c.v.(d := c.v.d[a := Splice(c.v.d[a], At(call) % BSIZE, call.src[call.tot..end])]),
                call.(tot := end));
    Go(p, c0, c, Put, c');
  }

  /** The write is stopped at an absent block of its file, with every block of the disk in use. */
  ghost predicate OutOfSpace(c: State, p: nat) {
    Busy(c, p) && Addr(c.v, NextNode(c.calls[p])) == 0 && NoSpace(c.v)
  }

  lemma NextPiece(p: nat, c0: State, c: State) returns (c': State)
    requires Leads(p, c0, c) && Busy(c, p)
    ensures Leads(p, c0, c') && Further(c, c', p)
    ensures OutOfSpace(c', p) || c.calls[p].tot < c'.calls[p].tot <= |c.calls[p].src|
  {
    c' := Descend(p, c0, c, NextNode(c.calls[p]));
    if Addr(c'.v, NextNode(c.calls[p])) != 0 {
      var c1 := c';
      c' := PutIt(p, c0, c1);
      MovedAgain(c, p, c1, c');
    }
  }

  ghost predicate Writing(c: State, p: nat) {
    p in c.calls && c.calls[p].Write? && c.calls[p].stage == Moving && c.calls[p].tot <= |c.calls[p].src|
  }

  lemma {:induction false} WriteAll(p: nat, c0: State, c: State, n: nat) returns (c': State)
    requires Leads(p, c0, c) && Writing(c, p) && n == |c.calls[p].src| - c.calls[p].tot
    ensures Leads(p, c0, c') && Further(c, c', p)
    ensures OutOfSpace(c', p) || c'.calls[p].tot == |c.calls[p].src|
    decreases n
  {
    if n == 0 {
      SamePlaceSelf(c, p);
      c' := c;
    } else {
      c' := NextPiece(p, c0, c);
      if !OutOfSpace(c', p) {
        var c1 := c';
        c' := WriteAll(p, c0, c1, |c.calls[p].src| - c1.calls[p].tot);
        MovedAgain(c, p, c1, c');
      }
    }
  }

  // ---- the return ----

  /** What the call was for has come about in v. */
  ghost predicate Done(v: Vol, call: Call) {
    && call.i < |v.ins|
    && match call
       case Write(i, _, _, start, off, src, _) =>
         && Spliced(start, v, i, off, |src|, src) && i < |start.ins|
         && v.ins[i].size == (if src != [] && start.ins[i].size < off + |src| then off + |src| else start.ins[i].size)
       case Trunc(i, _, _, _) => v.ins[i].size == 0 && NoTree(v, i)
  }

  /** c' is reached without the call of p and with its effect. */
  ghost predicate Returns(p: nat, c0: State, c: State, c': State) {
    p in c.calls && Leads(p, c0, c') && c'.calls == c.calls - {p} && Done(c'.v, c.calls[p])
  }

  /** Wherever the call has got to, its return is the return of the same call. */
  lemma ReturnsFrom(p: nat, c0: State, c: State, c1: State, c': State)
    requires p in c.calls && p in c1.calls && SameWork(c.calls[p], c1.calls[p]) && c1 == Moved(c, p, c1.v, c1.calls[p])
    requires Returns(p, c0, c1, c')
    ensures Returns(p, c0, c, c')
  {
    assert c1.calls - {p} == c.calls - {p};
  }

  lemma LeaveIt(p: nat, c0: State, c: State) returns (c': State)
    requires Leads(p, c0, c) && p in c.calls && c.calls[p].i < |c.v.ins| && MayLeave(c.v, c.calls[p])
    ensures Returns(p, c0, c, c')
  {
    LeadsInv(p, c0, c);
    c' := State(c.v, c.calls - {p});
    Go(p, c0, c, Leave, c');
  }

  function InStage(call: Call, stage: Stage): Call {
    match call
    case Write(i, _, mine, start, off, src, tot) => Write(i, stage, mine, start, off, src, tot)
    case Trunc(i, _, mine, start) => Trunc(i, stage, mine, start)
  }

  /** iupdate and the return. */
  lemma Update(p: nat, c0: State, c: State) returns (c': State)
    requires Leads(p, c0, c) && p in c.calls && c.calls[p].stage != Moving
    ensures Returns(p, c0, c, c')
  {
    LeadsInv(p, c0, c);
    var call := c.calls[p];
    if call.stage == Updating {
      var c1 := Moved(c, p, IupdateVol(c.v, call.i), InStage(call, Through));
      Go(p, c0, c, Sync, c1);
      c' := LeaveIt(p, c0, c1);
      ReturnsFrom(p, c0, c, c1, c');
    } else {
      c' := LeaveIt(p, c0, c);
    }
  }

  lemma TruncReturns(p: nat, c0: State, c: State) returns (c': State)
    requires Leads(p, c0, c) && Truncating(c, p) && c.calls[p].mine == {}
    ensures Returns(p, c0, c, c')
  {
    LeadsInv(p, c0, c);
    var c1 := Moved(c, p, c.v, InStage(c.calls[p], Updating));
    Go(p, c0, c, Freed, c1);
    c' := Update(p, c0, c1);
    ReturnsFrom(p, c0, c, c1, c');
  }

  lemma TruncEnds(p: nat, c: State) returns (c': State)
    requires Inv(c) && p in c.calls && c.calls[p].Trunc?
    ensures Returns(p, c, c, c')
  {
    Starts(p, c);
    if c.calls[p].stage == Moving {
      var c1 := FreeAll(p, c, c, |c.calls[p].mine|);
      c' := TruncReturns(p, c, c1);
      ReturnsFrom(p, c, c, c1, c');
    } else {
      c' := Update(p, c, c);
    }
  }

  /** A write whose bytes are in place, past the end of the file, sets the size. */
  lemma SetIt(p: nat, c0: State, c: State) returns (c': State)
    requires Leads(p, c0, c) && Writing(c, p) && c.calls[p].tot == |c.calls[p].src|
    requires c.calls[p].i < |c.v.ins| && !MayLeave(c.v, c.calls[p])
    ensures Leads(p, c0, c') && p in c'.calls && SameWork(c.calls[p], c'.calls[p]) && c'.calls[p].stage == Updating
    ensures c' == Moved(c, p, c'.v, c'.calls[p])
  {
    LeadsFile(p, c0, c);
    var call := c.calls[p];
    c' := Moved(c, p, Resized(c.v, call.i, call.off + |call.src|), InStage(call, Updating));
    Go(p, c0, c, SetSize, c');
  }

  lemma WriteReturns(p: nat, c0: State, c: State) returns (c': State)
    requires Leads(p, c0, c) && Writing(c, p) && c.calls[p].tot == |c.calls[p].src| && c.calls[p].i < |c.v.ins|
    ensures Returns(p, c0, c, c')
  {
    if MayLeave(c.v, c.calls[p]) {
      c' := LeaveIt(p, c0, c);
    } else {
      var c1 := SetIt(p, c0, c);
      c' := Update(p, c0, c1);
      ReturnsFrom(p, c0, c, c1, c');
    }
  }

  lemma WriteEnds(p: nat, c: State) returns (c': State)
    requires Inv(c) && p in c.calls && c.calls[p].Write?
    ensures Returns(p, c, c, c') || (Leads(p, c, c') && Further(c, c', p) && OutOfSpace(c', p))
  {
    Starts(p, c);
    LeadsInv(p, c, c);
    if c.calls[p].stage != Moving {
      c' := Update(p, c, c);
    } else {
      c' := WriteAll(p, c, c, |c.calls[p].src| - c.calls[p].tot);
      if !OutOfSpace(c', p) {
        var c1 := c';
        LeadsFile(p, c, c1);
        c' := WriteReturns(p, c, c1);
        ReturnsFrom(p, c, c, c1, c');
      }
    }
  }

  /** A call that goes on alone comes to its end and has its effect, or is a write that finds no free block. */
  lemma CallEnds(p: nat, c: State) returns (c': State)
    requires Inv(c) && p in c.calls
    ensures Returns(p, c, c, c') ||
            (c.calls[p].Write? && Leads(p, c, c') && Further(c, c', p) && OutOfSpace(c', p))
  {
    if c.calls[p].Write? {
      c' := WriteEnds(p, c);
    } else {
      c' := TruncEnds(p, c);
    }
  }
}
