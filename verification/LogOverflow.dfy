/**
  What the buffers of the cache mean for the log. The guard of log_write is unlocked, so two calls can pass it together
  and take the header one entry past where the guard draws the line. With a log of LOGSIZE blocks or fewer and more
  buffers than log blocks, commit then copies the last block of the transaction over the home block behind the log,
  before the header is written. With a longer log, more than LOGSIZE buffers and a call of more than MAXOPBLOCKS
  blocks, the header outgrows its array. With no more buffers than log blocks and entries, as with the log that mkfs
  makes and the NBUF buffers of the kernel, neither happens whatever calls log: commit finds no buffer for its first
  log block.
*/
module LogOverflow {
  import opened Blocks
  import opened CrashLog
  import opened Param
  import opened Sets
  import R = LogReserve

  /** s occurs in a run that starts with nbuf buffers. */
  ghost predicate Reachable(g: Geo, nbuf: nat, s: State) {
    exists run: seq<State>, steps :: IsRun(g, run, steps) && |run[0].bufs| == nbuf && run[|run| - 1] == s
  }

  /** It occurs in one where no call logs more than m distinct blocks. */
  ghost predicate ReachableWithin(g: Geo, nbuf: nat, m: nat, s: State) {
    exists run: seq<State>, steps ::
      IsRun(g, run, steps) && Budgeted(run, steps, m) && |run[0].bufs| == nbuf && run[|run| - 1] == s
  }

  // ---- steps without a crash ----

  /** Steps other than a crash, in which no call logs more than m distinct blocks. */
  ghost predicate IsPath(g: Geo, m: nat, path: seq<State>, steps: seq<Step>) {
    && |path| == |steps| + 1 && Budgeted(path, steps, m)
    && forall i :: 0 <= i < |steps| ==> NextStep(g, path[i], path[i + 1], steps[i]) && !steps[i].Crash?
  }

  ghost predicate Leads(g: Geo, m: nat, s: State, s': State) {
    exists path, steps :: IsPath(g, m, path, steps) && path[0] == s && path[|path| - 1] == s'
  }

  lemma LeadsSelf(g: Geo, m: nat, s: State)
    ensures Leads(g, m, s, s)
  {
    assert IsPath(g, m, [s], []);
  }

  lemma LeadsOn(g: Geo, m: nat, s0: State, s: State, step: Step, s': State)
    requires Leads(g, m, s0, s) && NextStep(g, s, s', step) && StepWithin(s, step, m) && !step.Crash?
    ensures Leads(g, m, s0, s')
  {
    var path, steps :| IsPath(g, m, path, steps) && path[0] == s0 && path[|path| - 1] == s;
    var path', steps' := path + [s'], steps + [step];
    forall i | 0 <= i < |steps'|
      ensures NextStep(g, path'[i], path'[i + 1], steps'[i]) && StepWithin(path'[i], steps'[i], m) && !steps'[i].Crash?
    {
      assert i < |steps| ==> NextStep(g, path[i], path[i + 1], steps[i]) && StepWithin(path[i], steps[i], m);
    }
    assert IsPath(g, m, path', steps') && path'[0] == s0 && path'[|path'| - 1] == s';
  }

  lemma LeadsReach(g: Geo, m: nat, s: State, s': State)
    requires Init(g, s) && Leads(g, m, s, s')
    ensures ReachableWithin(g, |s.bufs|, m, s')
  {
    var path, steps :| IsPath(g, m, path, steps) && path[0] == s && path[|path| - 1] == s';
    assert IsRun(g, path, steps);
  }

  /** On the way from s0, with the invariant kept so far. */
  ghost predicate On(g: Geo, m: nat, s0: State, s: State) { Leads(g, m, s0, s) && Inv(g, s) }

  lemma Go(g: Geo, m: nat, s0: State, s: State, step: Step, s': State)
    requires On(g, m, s0, s) && NextStep(g, s, s', step) && StepWithin(s, step, m)
    requires WithinLog(g, s, step) && !step.Crash?
    ensures On(g, m, s0, s')
  {
    LeadsOn(g, m, s0, s, step, s');
    NextKeeps(g, s, s', step);
  }

  // ---- buffers ----

  predicate Unused(b: Buf) { b.refs == {} && b.holder == NOBODY && !b.mod }

  /** Only the buffers x are in use. */
  ghost predicate UsedOnly(s: State, x: set<nat>) {
    forall i: nat :: i < |s.bufs| && i !in x ==> Unused(s.bufs[i])
  }

  /** Block numbers in the first n buffers, those of x left out. */
  function Others(bufs: seq<Buf>, x: set<nat>, n: nat): set<int>
    requires n <= |bufs|
  {
    set i: nat | i < n && i !in x :: bufs[i].blockno
  }

  /** An index below n that is not in x. */
  lemma {:induction false} OutsideOf(x: set<nat>, n: nat) returns (i: nat)
    requires |x| < n
    ensures i < n && i !in x
  {
    i := n - 1;
    if i in x {
      i := OutsideOf(x - {i}, i);
    }
  }

  lemma OneMore(g: Geo, s: State, x: set<nat>, m: nat)
    requires m < |s.bufs| && m !in x && BufsOk(g, s) && s.bufs[m].blockno >= 0
    ensures |Others(s.bufs, x, m + 1)| == |Others(s.bufs, x, m)| + 1
  {
    assert Others(s.bufs, x, m + 1) == Others(s.bufs, x, m) + {s.bufs[m].blockno};
    assert s.bufs[m].blockno !in Others(s.bufs, x, m);
  }

  lemma {:induction false} OthersSize(g: Geo, s: State, x: set<nat>, n: nat)
    requires n <= |s.bufs| && BufsOk(g, s) && forall i: nat :: i < n && i !in x ==> s.bufs[i].blockno >= 0
    ensures |Others(s.bufs, x, n)| + |x| >= n
  {
    if n > 0 {
      var m := n - 1;
      if m in x {
        OthersSize(g, s, x - {m}, m);
        assert Others(s.bufs, x, n) == Others(s.bufs, x - {m}, m);
      } else {
        OthersSize(g, s, x, m);
        OneMore(g, s, x, m);
      }
    }
  }

  /** If all other buffers are dirty, each is pinned by an entry of its own. */
  lemma AllDirty(g: Geo, s: State, x: set<nat>)
    requires Inv(g, s) && forall i: nat :: i < |s.bufs| && i !in x ==> s.bufs[i].dirty
    ensures |s.bufs| <= |s.log.blocks| + |x|
  {
    var h, others := s.log.blocks, Others(s.bufs, x, |s.bufs|);
    forall i: nat | i < |s.bufs| && i !in x
      ensures s.bufs[i].blockno in h
    {
      assert BufOk(g, s, s.bufs[i]);
    }
    OthersSize(g, s, x, |s.bufs|);
    var pinned := set b: int | b in h;
    assert pinned == Elements(h);
    ElementsSize(h);
    SubsetSize(others, pinned);
  }

  /** At most so many buffers are pinned; recovery pins none. */
  function Pins(s: State): nat { if s.recovering then 0 else |s.log.blocks| }

  /** bget finds a buffer to recycle. */
  lemma FreeBuffer(g: Geo, s: State, x: set<nat>) returns (i: nat)
    requires Inv(g, s) && Pins(s) + |x| < |s.bufs|
    ensures i < |s.bufs| && i !in x && !s.bufs[i].dirty
  {
    if s.recovering {
      i := OutsideOf(x, |s.bufs|);
      assert BufOk(g, s, s.bufs[i]);
      return;
    }
    if forall i: nat :: i < |s.bufs| && i !in x ==> s.bufs[i].dirty {
      AllDirty(g, s, x);
      assert false;
    }
    i :| i < |s.bufs| && i !in x && !s.bufs[i].dirty;
  }

  /** Only buffer k has changed. */
  predicate OnlyBuf(s: State, s': State, k: nat) {
    k < |s.bufs| == |s'.bufs| && s' == s.(bufs := s.bufs[k := s'.bufs[k]])
  }

  /** Process p holds buffer k, for block b, and no other process refers to it. */
  predicate Has(s: State, k: nat, p: nat, b: nat) {
    HeldFor(s, k, p, b) && s.bufs[k].refs == {p} && !s.bufs[k].mod
  }

  /** The unused buffer k, which has a block, is locked and filled. */
  lemma LockAndFill(g: Geo, m: nat, s0: State, s: State, p: nat, k: nat, b: nat) returns (s': State)
    requires On(g, m, s0, s) && MayAct(s, p) && k < |s.bufs| && s.bufs[k].blockno == b && s.bufs[k].refs == {p}
    requires s.bufs[k].holder == NOBODY && !s.bufs[k].mod && (s.phase.Rebooted? ==> b !in HeadOf(s.disk[g.start]))
    ensures On(g, m, s0, s') && OnlyBuf(s, s', k) && Has(s', k, p, b)
  {
    s' := SetBuf(s, k, s.bufs[k].(holder := p));
    Go(g, m, s0, s, Lock(p, k), s');
    if !s.bufs[k].valid {
      assert BufOk(g, s, s.bufs[k]);
      var s1 := s';
      s' := SetBuf(s1, k, s1.bufs[k].(data := s.disk[b], valid := true));
      Go(g, m, s0, s1, Fill(p, k), s');
    }
    assert s'.bufs == s.bufs[k := s'.bufs[k]];
  }

  /** bget: process p refers to a buffer of block b, besides those of x. */
  lemma Bget(g: Geo, m: nat, s0: State, s: State, p: nat, b: nat, x: set<nat>) returns (s': State, k: nat)
    requires On(g, m, s0, s) && MayAct(s, p) && b < g.dsize && UsedOnly(s, x)
    requires forall i: nat :: i in x && i < |s.bufs| ==> s.bufs[i].blockno != b
    requires Cached(s, b) || Pins(s) + |x| < |s.bufs|
    ensures On(g, m, s0, s') && k !in x && OnlyBuf(s, s', k) && s'.bufs[k].blockno == b && s'.bufs[k].refs == {p}
    ensures s'.bufs[k].holder == NOBODY && !s'.bufs[k].mod
  {
    if i: nat :| i < |s.bufs| && s.bufs[i].blockno == b {
      k := i;
      s' := SetBuf(s, k, s.bufs[k].(refs := s.bufs[k].refs + {p}));
      Go(g, m, s0, s, Hit(p, k), s');
    } else {
      k := FreeBuffer(g, s, x);
      s' := SetBuf(s, k, s.bufs[k].(blockno := b, valid := false, dirty := false, refs := {p}));
      Go(g, m, s0, s, Miss(p, k, b), s');
    }
  }

  /** bread: process p gets a buffer of block b, besides those of x. */
  lemma Bread(g: Geo, m: nat, s0: State, s: State, p: nat, b: nat, x: set<nat>) returns (s': State, k: nat)
    requires On(g, m, s0, s) && MayAct(s, p) && b < g.dsize && UsedOnly(s, x)
    requires forall i: nat :: i in x && i < |s.bufs| ==> s.bufs[i].blockno != b
    requires Cached(s, b) || Pins(s) + |x| < |s.bufs|
    requires s.phase.Rebooted? ==> b !in HeadOf(s.disk[g.start])
    ensures On(g, m, s0, s') && k !in x && OnlyBuf(s, s', k) && Has(s', k, p, b) && UsedOnly(s', x + {k})
  {
    var s1;
    s1, k := Bget(g, m, s0, s, p, b, x);
    s' := LockAndFill(g, m, s0, s1, p, k, b);
    assert s'.bufs == s.bufs[k := s'.bufs[k]];
  }

  /** brelse */
  lemma Release(g: Geo, m: nat, s0: State, s: State, p: nat, k: nat, x: set<nat>) returns (s': State)
    requires On(g, m, s0, s) && Held(s, k, p) && s.bufs[k].refs == {p}
    requires !s.bufs[k].mod && UsedOnly(s, x + {k}) && k !in x
    ensures On(g, m, s0, s') && OnlyBuf(s, s', k) && s'.bufs[k] == s.bufs[k].(holder := NOBODY, refs := {})
    ensures UsedOnly(s', x)
  {
    var s1 := SetBuf(s, k, s.bufs[k].(holder := NOBODY));
    Go(g, m, s0, s, Unlock(p, k), s1);
    s' := SetBuf(s1, k, s1.bufs[k].(refs := s1.bufs[k].refs - {p}));
    Go(g, m, s0, s1, Unref(p, k), s');
    assert {p} - {p} == {};
    assert s'.bufs == s.bufs[k := s'.bufs[k]];
  }

  // ---- from power on to calls that begin and end ----

  function Ink(): Block { PutWord(ZeroBlock(), 0, 1) }

  lemma InkIsNotZero()
    ensures Ink() != ZeroBlock() && HeadOf(ZeroBlock()) == []
  {
    assert Word(Ink(), 0) == 1;
    assert Word(ZeroBlock(), 0) == 0;
  }

  function Zeros(n: nat): (d: seq<Block>)
    ensures |d| == n && forall b :: 0 <= b < n ==> d[b] == ZeroBlock()
  {
    seq(n, b => ZeroBlock())
  }

  function PowerOn(g: Geo, nbuf: nat): State {
    var d := Zeros(g.dsize);
    State(d, seq(nbuf, i => EmptyBuf()), R.State([], map[], true, {}), Rebooted, 2, true, d, d)
  }

  lemma Starts(g: Geo, m: nat, nbuf: nat)
    requires g.Ok()
    ensures Init(g, PowerOn(g, nbuf)) && On(g, m, PowerOn(g, nbuf), PowerOn(g, nbuf)) && UsedOnly(PowerOn(g, nbuf), {})
  {
    InkIsNotZero();
    LeadsSelf(g, m, PowerOn(g, nbuf));
  }

  /** Recovery reads the empty header. */
  lemma Boot(g: Geo, m: nat, s0: State) returns (s': State)
    requires g.Ok() && s0 == PowerOn(g, |s0.bufs|) && |s0.bufs| >= 1
    ensures On(g, m, s0, s') && UsedOnly(s', {}) && |s'.bufs| == |s0.bufs|
    ensures s' == s0.(bufs := s'.bufs, phase := Installing(0))
  {
    Starts(g, m, |s0.bufs|);
    InkIsNotZero();
    var s1, k := Bread(g, m, s0, s0, 2, g.start, {});
    LogBlockReads(g, s1, k, g.start);
    s' := s1.(phase := Installing(0), log := s1.log.(blocks := []));
    Go(g, m, s0, s1, ReadHead(k), s');
    s' := Release(g, m, s0, s', 2, k, {});
  }

  /** It writes the empty header back. */
  lemma WritesBack(g: Geo, m: nat, s0: State, s: State) returns (s': State)
    requires On(g, m, s0, s) && s.phase == Erasing && UsedOnly(s, {}) && |s.bufs| >= 1
    ensures On(g, m, s0, s') && UsedOnly(s', {}) && |s'.bufs| == |s.bufs|
    ensures s' == s.(disk := s'.disk, bufs := s'.bufs, phase := Erased)
  {
    var s1, k := Bread(g, m, s0, s, s.who, g.start, {});
    s' := Bwrite(s1, k, PutHead(s1.bufs[k].data, [])).(phase := Erased);
    Go(g, m, s0, s1, WriteEmptyHead(k), s');
    s' := Release(g, m, s0, s', s.who, k, {});
  }

  /** And the system is idle. */
  lemma Idles(g: Geo, m: nat, s0: State) returns (s': State)
    requires g.Ok() && s0 == PowerOn(g, |s0.bufs|) && |s0.bufs| >= 1
    ensures On(g, m, s0, s') && UsedOnly(s', {}) && |s'.bufs| == |s0.bufs|
    ensures s' == s0.(disk := s'.disk, bufs := s'.bufs, log := R.Init, phase := Idle, recovering := false)
  {
    var s := Boot(g, m, s0);
    var s1 := s.(log := s.log.(blocks := []), phase := Erasing);
    Go(g, m, s0, s, EraseMem, s1);
    var s2 := WritesBack(g, m, s0, s1);
    s' := s2.(log := s2.log.(committing := false), phase := Idle, recovering := false);
    Go(g, m, s0, s2, Step.Finish, s');
  }

  lemma BeginCall(g: Geo, m: nat, s0: State, s: State, p: nat) returns (s': State)
    requires On(g, m, s0, s) && !s.recovering && !s.log.committing && p !in s.log.ops
    requires |s.log.blocks| + (|s.log.ops| + 1) * MAXOPBLOCKS <= LOGSIZE
    ensures On(g, m, s0, s') && s' == s.(log := s.log.(ops := s.log.ops[p := {}])) && |s'.log.ops| == |s.log.ops| + 1
  {
    s' := s.(log := s.log.(ops := s.log.ops[p := {}]));
    assert R.BeginOp(s.log, s'.log, p);
    Go(g, m, s0, s, Begin(p), s');
  }

  /** A call ends; the last one starts the commit. */
  lemma EndOne(g: Geo, m: nat, s0: State, s: State, p: nat, last: bool) returns (s': State)
    requires On(g, m, s0, s) && s.phase == Idle && p in s.log.ops
    requires p !in s.log.checked && s.log.blocks != [] && UsedOnly(s, {})
    requires last == (s.log.ops - {p} == map[])
    ensures On(g, m, s0, s')
    ensures s' == s.(log := s.log.(ops := s.log.ops - {p}, committing := last), who := p,
                     phase := if last then Logging(0) else Idle)
  {
    s' := s.(log := s.log.(ops := s.log.ops - {p}, committing := last), who := p,
             phase := if last then Logging(0) else Idle);
    assert R.EndOp(s.log, s'.log, p);
    Go(g, m, s0, s, End(p), s');
  }

  // ---- filling the header ----

  /** Room behind the log for the blocks of the longest header. */
  ghost predicate Roomy(g: Geo) { g.Ok() && g.start + g.size + LOGSIZE + 2 <= g.dsize }

  /** The k-th block the run logs. */
  function Target(g: Geo, k: nat): nat { g.start + g.size + 1 + k }

  predicate Changed(s: State, k: nat, p: nat, b: nat) {
    HeldFor(s, k, p, b) && s.bufs[k].refs == {p} && s.bufs[k].data == Ink()
  }

  /** Call p gets a buffer of home block b, besides those of x, and changes it. */
  lemma Touch(g: Geo, m: nat, s0: State, s: State, p: nat, b: nat, x: set<nat>) returns (s': State, k: nat)
    requires On(g, m, s0, s) && s.phase == Idle && !s.recovering && p in s.log.ops && g.Home(b) && UsedOnly(s, x)
    requires |s.log.blocks| + |x| < |s.bufs| && forall i: nat :: i in x && i < |s.bufs| ==> s.bufs[i].blockno != b
    ensures On(g, m, s0, s') && k !in x && OnlyBuf(s, s', k) && UsedOnly(s', x + {k}) && Changed(s', k, p, b)
  {
    var s1;
    s1, k := Bread(g, m, s0, s, p, b, x);
    s' := SetBuf(s1, k, s1.bufs[k].(data := Ink(), mod := true));
    Go(g, m, s0, s1, Modify(p, k, Ink()), s');
    assert s'.bufs == s.bufs[k := s'.bufs[k]];
  }

  lemma PassGuard(g: Geo, m: nat, s0: State, s: State, p: nat) returns (s': State)
    requires On(g, m, s0, s) && p in s.log.ops && p !in s.log.checked && !R.TooBig(s.log, g.size)
    ensures On(g, m, s0, s') && s' == s.(log := s.log.(checked := s.log.checked + {p}))
  {
    s' := s.(log := s.log.(checked := s.log.checked + {p}));
    Go(g, m, s0, s, Check(p), s');
  }

  /** The log in memory after call p has recorded the new block b. */
  function After(log: R.State, p: nat, b: nat): R.State
    requires p in log.ops
  {
    R.State(log.blocks + [b], log.ops[p := log.ops[p] + {b}], log.committing, log.checked - {p})
  }

  /** Call p, past its guard, logs buffer k and lets it go. */
  lemma Record(g: Geo, m: nat, s0: State, s: State, p: nat, k: nat, b: nat, x: set<nat>) returns (s': State)
    requires On(g, m, s0, s) && Changed(s, k, p, b) && g.Home(b)
    requires b !in s.log.blocks && UsedOnly(s, x + {k}) && k !in x
    requires p in s.log.ops && p in s.log.checked && |s.log.ops[p]| < m
    ensures On(g, m, s0, s') && UsedOnly(s', x) && |s'.bufs| == |s.bufs| && b < |s.latest|
    ensures s' == s.(bufs := s.bufs[k := s'.bufs[k]], latest := s.latest[b := Ink()], log := After(s.log, p, b))
  {
    var s1 := s.(bufs := s.bufs[k := s.bufs[k].(dirty := true, mod := false)],
                 latest := s.latest[b := Ink()], log := After(s.log, p, b));
    assert R.Append(s.log, s1.log, p, b);
    Go(g, m, s0, s, LogWrite(p, k), s1);
    s' := Release(g, m, s0, s1, p, k, x);
    assert s'.bufs == s.bufs[k := s'.bufs[k]];
  }

  ghost predicate IsInked(g: Geo, s: State, k: nat) {
    && k < |s.log.blocks| && s.log.blocks[k] == Target(g, k)
    && Target(g, k) < |s.latest| && s.latest[Target(g, k)] == Ink()
  }

  /** The blocks logged are the first n targets, with the same contents each. */
  ghost predicate Inked(g: Geo, s: State, n: nat) {
    |s.log.blocks| == n && forall k: nat :: k < n ==> IsInked(g, s, k)
  }

  /** n blocks are logged, no buffer is in use, and no call is between guard and append. */
  ghost predicate Filled(g: Geo, m: nat, s0: State, s: State, n: nat) {
    && On(g, m, s0, s) && UsedOnly(s, {}) && |s.bufs| == |s0.bufs| && s.committed == s0.committed
    && s.phase == Idle && !s.recovering && !s.log.committing && s.log.checked == {} && Inked(g, s, n)
  }

  /** Of the calls 0 and 1 outstanding, each has logged its part of j blocks. */
  ghost predicate Halves(ops: map<nat, set<nat>>, j: nat) {
    ops.Keys == {0, 1} && 2 * |ops[0]| <= j + 1 && 2 * |ops[1]| <= j
  }

  lemma InkedOne(g: Geo, s: State, n: nat, b: nat, s': State, i: nat)
    requires Inked(g, s, n) && i == n + 1 && b == Target(g, n) && b < |s.latest|
    requires s'.log.blocks == s.log.blocks + [b] && s'.latest == s.latest[b := Ink()]
    ensures Inked(g, s', i)
  {
    forall k: nat | k < i
      ensures IsInked(g, s', k)
    {
      assert k < n ==> IsInked(g, s, k);
    }
  }

  lemma NewTarget(g: Geo, s: State, n: nat, m: nat)
    requires Inked(g, s, n) && n <= m
    ensures Target(g, m) !in s.log.blocks
  {
    forall k: nat | k < n
      ensures s.log.blocks[k] != Target(g, m)
    {
      assert IsInked(g, s, k);
    }
  }

  /** Call p logs the next target. */
  lemma FillOne(g: Geo, m: nat, s0: State, s: State, n: nat, i: nat, p: nat) returns (s': State)
    requires Roomy(g) && Filled(g, m, s0, s, n) && i == n + 1 < g.size && n < LOGSIZE && n < |s0.bufs|
    requires p in s.log.ops && |s.log.ops[p]| < m
    ensures Filled(g, m, s0, s', i) && s'.log.ops == s.log.ops[p := s.log.ops[p] + {Target(g, n)}]
  {
    var b := Target(g, n);
    NewTarget(g, s, n, n);
    var k;
    s', k := Touch(g, m, s0, s, p, b, {});
    s' := PassGuard(g, m, s0, s', p);
    s' := Record(g, m, s0, s', p, k, b, {});
    assert {} + {p} - {p} == {};
    InkedOne(g, s, n, b, s', i);
  }

  /** A filled state stays so while a call begins or, not the last, ends. */
  lemma SameFill(g: Geo, m: nat, s0: State, s: State, n: nat, s': State)
    requires Filled(g, m, s0, s, n) && On(g, m, s0, s')
    requires s' == s.(log := s.log.(ops := s'.log.ops), who := s'.who)
    ensures Filled(g, m, s0, s', n)
  {
    forall k: nat | k < n
      ensures IsInked(g, s', k)
    {
      assert IsInked(g, s, k);
    }
  }

  /** Call 1 begins, logs one block and ends, while call 0 has logged nothing. */
  lemma ShortCall(g: Geo, m: nat, s0: State, s: State, n: nat, i: nat) returns (s': State)
    requires Roomy(g) && Filled(g, m, s0, s, n) && i == n + 1 < g.size && n < MAXOPBLOCKS && n < |s0.bufs| && m >= 1
    requires s.log.ops == map[0 := {}]
    ensures Filled(g, m, s0, s', i) && s'.log.ops == map[0 := {}]
  {
    assert |s.log.ops| == 1;
    var s1 := BeginCall(g, m, s0, s, 1);
    SameFill(g, m, s0, s, n, s1);
    var s2 := FillOne(g, m, s0, s1, n, i, 1);
    assert s2.log.ops - {1} == map[0 := {}];
    s' := EndOne(g, m, s0, s2, 1, false);
    SameFill(g, m, s0, s2, i, s');
  }

  lemma {:induction false} FillEarly(g: Geo, m: nat, s0: State, n: nat) returns (s: State)
    requires Roomy(g) && s0 == PowerOn(g, |s0.bufs|) && n < g.size
    requires n <= MAXOPBLOCKS && n <= |s0.bufs| && |s0.bufs| >= 1 && m >= 1
    ensures Filled(g, m, s0, s, n) && s.log.ops == map[0 := {}]
  {
    if n == 0 {
      s := Idles(g, m, s0);
      assert Filled(g, m, s0, s, 0);
      var s1 := BeginCall(g, m, s0, s, 0);
      SameFill(g, m, s0, s, 0, s1);
      s := s1;
    } else {
      s := FillEarly(g, m, s0, n - 1);
      s := ShortCall(g, m, s0, s, n - 1, n);
    }
  }

  lemma HalvesOne(ops: map<nat, set<nat>>, h: nat, j: nat, p: nat, b: nat, ops': map<nat, set<nat>>)
    requires Halves(ops, h) && j == h + 1 && p == h % 2 && ops' == ops[p := ops[p] + {b}]
    ensures Halves(ops', j)
  {
    var q := h / 2;
    assert h == 2 * q + p;
  }

  /** Calls 0 and 1 have logged j blocks by turns, after k of short calls. */
  lemma {:induction false} FillLate(g: Geo, m: nat, s0: State, k: nat, j: nat, n: nat) returns (s: State)
    requires Roomy(g) && s0 == PowerOn(g, |s0.bufs|) && n == k + j && n < g.size && k <= MAXOPBLOCKS && n <= LOGSIZE
    requires n <= |s0.bufs| && |s0.bufs| >= 1 && m >= 1 && j <= 2 * m
    ensures Filled(g, m, s0, s, n) && Halves(s.log.ops, j)
    decreases j
  {
    if j == 0 {
      var s1 := FillEarly(g, m, s0, n);
      assert |s1.log.ops| == 1;
      s := BeginCall(g, m, s0, s1, 1);
      SameFill(g, m, s0, s1, n, s);
    } else {
      var h, i := j - 1, n - 1;
      var s1 := FillLate(g, m, s0, k, h, i);
      var p := h % 2;
      s := FillOne(g, m, s0, s1, i, n, p);
      HalvesOne(s1.log.ops, h, j, p, Target(g, i), s.log.ops);
    }
  }

  /** A header of n entries, by calls of at most m blocks. */
  lemma FillUp(g: Geo, m: nat, s0: State, n: nat) returns (s: State, j: nat)
    requires Roomy(g) && s0 == PowerOn(g, |s0.bufs|) && n < g.size && n <= LOGSIZE && n <= |s0.bufs| && |s0.bufs| >= 1
    requires m >= 1 && n <= MAXOPBLOCKS + 2 * m
    ensures Filled(g, m, s0, s, n) && Halves(s.log.ops, j) && j <= n && (j > 0 ==> n == MAXOPBLOCKS + j)
  {
    j := if n <= MAXOPBLOCKS then 0 else n - MAXOPBLOCKS;
    s := FillLate(g, m, s0, n - j, j, n);
  }

  // ---- the race ----

  /** Calls 0 and 1 hold buffers of blocks b and c and have both passed the guard in state s. */
  ghost predicate Racing(s: State, s': State, k: nat, j: nat, b: nat, c: nat) {
    && k != j && UsedOnly(s', {k, j}) && |s'.bufs| == |s.bufs|
    && s' == s.(bufs := s'.bufs, log := s.log.(checked := {0, 1}))
    && Changed(s', k, 0, b) && Changed(s', j, 1, c)
  }

  lemma BothTouch(g: Geo, m: nat, s0: State, s: State, b: nat, c: nat) returns (s': State, k: nat, j: nat)
    requires On(g, m, s0, s) && s.phase == Idle && !s.recovering && 0 in s.log.ops && 1 in s.log.ops && UsedOnly(s, {})
    requires |s.log.blocks| + 2 <= |s.bufs| && g.Home(b) && g.Home(c) && b != c
    ensures On(g, m, s0, s') && k != j && UsedOnly(s', {k, j}) && |s'.bufs| == |s.bufs| && s' == s.(bufs := s'.bufs)
    ensures Changed(s', k, 0, b) && Changed(s', j, 1, c)
  {
    var s1;
    s1, k := Touch(g, m, s0, s, 0, b, {});
    s', j := Touch(g, m, s0, s1, 1, c, {k});
    assert {k} + {j} == {k, j};
  }

  lemma BothPass(g: Geo, m: nat, s0: State, s: State, b: nat, c: nat) returns (s': State, k: nat, j: nat)
    requires On(g, m, s0, s) && s.phase == Idle && !s.recovering && s.log.ops.Keys == {0, 1} && s.log.checked == {}
    requires !R.TooBig(s.log, g.size) && UsedOnly(s, {})
    requires |s.log.blocks| + 2 <= |s.bufs| && g.Home(b) && g.Home(c) && b != c
    ensures On(g, m, s0, s') && Racing(s, s', k, j, b, c)
  {
    s', k, j := BothTouch(g, m, s0, s, b, c);
    s' := PassGuard(g, m, s0, s', 0);
    s' := PassGuard(g, m, s0, s', 1);
    assert {} + {0} + {1} == {0, 1};
  }

  /** After call 0 has recorded b, call 1 still holds its buffer and its place. */
  lemma OtherWaits(s: State, s1: State, k: nat, j: nat, b: nat, c: nat)
    requires k != j && k < |s.bufs| && Changed(s, j, 1, c) && s.log.checked == {0, 1} && s.log.ops.Keys == {0, 1}
    requires b != c && c !in s.log.blocks && |s1.bufs| == |s.bufs| && s1.bufs == s.bufs[k := s1.bufs[k]]
    requires s1.log == After(s.log, 0, b)
    ensures Changed(s1, j, 1, c) && s1.log.ops.Keys == {0, 1} && s1.log.ops[1] == s.log.ops[1]
    ensures s1.log.checked == {1} && c !in s1.log.blocks
  {
  }

  lemma BothRecord(g: Geo, m: nat, s0: State, s: State, k: nat, j: nat, b: nat, c: nat) returns (s1: State, s': State)
    requires On(g, m, s0, s) && k != j && UsedOnly(s, {k, j}) && Changed(s, k, 0, b) && Changed(s, j, 1, c)
    requires s.log.checked == {0, 1} && s.log.ops.Keys == {0, 1} && |s.log.ops[0]| < m && |s.log.ops[1]| < m
    requires g.Home(b) && g.Home(c) && b != c && b !in s.log.blocks && c !in s.log.blocks
    ensures On(g, m, s0, s') && UsedOnly(s', {}) && |s'.bufs| == |s.bufs| && b < |s.latest| && c < |s.latest|
    ensures s1.log == After(s.log, 0, b) && s1.latest == s.latest[b := Ink()]
    ensures s' == s.(bufs := s'.bufs, latest := s1.latest[c := Ink()], log := After(s1.log, 1, c))
    ensures s'.log.checked == {}
  {
    assert {j} + {k} == {k, j} && {} + {j} == {j} && {1} - {1} == {};
    s1 := Record(g, m, s0, s, 0, k, b, {j});
    OtherWaits(s, s1, k, j, b, c);
    s' := Record(g, m, s0, s1, 1, j, c, {});
  }

  /** Calls 0 and 1 pass the guard where it would still let one block in, and both append. */
  lemma Race(g: Geo, m: nat, s0: State, s: State, n: nat, i: nat) returns (s': State)
    requires Roomy(g) && Filled(g, m, s0, s, n) && i == n + 2 <= |s0.bufs| && n + 1 < g.size && n < LOGSIZE
    requires s.log.ops.Keys == {0, 1} && |s.log.ops[0]| < m && |s.log.ops[1]| < m
    ensures Filled(g, m, s0, s', i) && s'.log.ops.Keys == {0, 1}
  {
    var b, h := Target(g, n), n + 1;
    var c := Target(g, h);
    NewTarget(g, s, n, n);
    NewTarget(g, s, n, h);
    var s1, k, j := BothPass(g, m, s0, s, b, c);
    var s2;
    s2, s' := BothRecord(g, m, s0, s1, k, j, b, c);
    InkedOne(g, s, n, b, s2, h);
    InkedOne(g, s2, h, c, s', i);
  }

  /** One entry more than the guard would let in. */
  lemma Overfill(g: Geo, m: nat, s0: State, n: nat) returns (s: State)
    requires Roomy(g) && s0 == PowerOn(g, |s0.bufs|) && n == R.Limit(g.size) + 1 && n >= 2 && n <= |s0.bufs|
    requires m >= 1 && n <= MAXOPBLOCKS + 2 * m
    ensures Filled(g, m, s0, s, n) && s.log.ops.Keys == {0, 1}
  {
    var h, j := n - 2, 0;
    s, j := FillUp(g, m, s0, h);
    s := Race(g, m, s0, s, h, n);
  }

  /** A header of n entries, with the calls that logged it outstanding. */
  lemma Header(g: Geo, m: nat, s0: State, n: nat) returns (s: State)
    requires Roomy(g) && s0 == PowerOn(g, |s0.bufs|) && 1 <= n <= R.Limit(g.size) + 1 && 2 <= g.size && n <= |s0.bufs|
    requires m >= 1 && n <= MAXOPBLOCKS + 2 * m
    ensures Filled(g, m, s0, s, n) && s.log.ops.Keys == {0, 1}
  {
    if n <= R.Limit(g.size) {
      var j;
      s, j := FillUp(g, m, s0, n);
    } else {
      s := Overfill(g, m, s0, n);
    }
  }

  /** commit() is about to copy the first of n blocks. */
  ghost predicate Commits(g: Geo, m: nat, s0: State, s: State, n: nat) {
    && On(g, m, s0, s) && UsedOnly(s, {}) && |s.bufs| == |s0.bufs| && s.committed == s0.committed
    && s.phase == Logging(0) && Inked(g, s, n)
  }

  lemma EndCalls(g: Geo, m: nat, s0: State, s: State, n: nat) returns (s': State)
    requires Filled(g, m, s0, s, n) && n >= 1 && s.log.ops.Keys == {0, 1}
    ensures Commits(g, m, s0, s', n)
  {
    var ops := s.log.ops;
    assert 1 in ops - {0};
    assert (ops - {0} - {1}).Keys == {};
    s' := EndOne(g, m, s0, s, 0, false);
    s' := EndOne(g, m, s0, s', 1, true);
    forall k: nat | k < n
      ensures IsInked(g, s', k)
    {
      assert IsInked(g, s, k);
    }
  }

  // ---- write_log ----

  /** Buffers for the two blocks that write_log and install_trans copy between. */
  ghost predicate Spare(s: State) { if s.recovering then |s.bufs| >= 2 else |s.log.blocks| < |s.bufs| }

  /** Entry t is not yet at home when it is its turn. */
  lemma NextPending(g: Geo, s: State, t: nat)
    requires HomesOnly(g, s.log.blocks) && t < |s.log.blocks| && (s.phase == Logging(t) || s.phase == Installing(t))
    ensures g.Home(s.log.blocks[t]) && Pending(s, s.log.blocks[t])
  {
    forall i: nat | i < t
      ensures s.log.blocks[i] != s.log.blocks[t]
    {
      assert !R.Clash(s.log.blocks, i, t);
    }
  }

  /** Holding buffer k of a log block, the committer gets the one of the block that goes there or comes from there. */
  lemma GetHome(g: Geo, m: nat, s0: State, s: State, t: nat, k: nat) returns (s': State, j: nat)
    requires On(g, m, s0, s) && (s.phase == Logging(t) || s.phase == Installing(t)) && t < |s.log.blocks|
    requires Spare(s) && UsedOnly(s, {k}) && k < |s.bufs| && s.bufs[k].blockno !in s.log.blocks
    ensures On(g, m, s0, s') && k != j && UsedOnly(s', {k, j})
    ensures OnlyBuf(s, s', j) && Has(s', j, s.who, s.log.blocks[t])
  {
    NextPending(g, s, t);
    if !s.recovering {
      var i :| PinnedAt(s, s.log.blocks[t], i);
    }
    s', j := Bread(g, m, s0, s, s.who, s.log.blocks[t], {k});
    assert {k} + {j} == {k, j};
  }

  /** The committer gets the buffer of a log block and the one of the block that goes there. */
  lemma GetBoth(g: Geo, m: nat, s0: State, s: State, t: nat) returns (s': State, k: nat, j: nat)
    requires On(g, m, s0, s) && (s.phase == Logging(t) || s.phase == Installing(t)) && t < |s.log.blocks|
    requires Spare(s) && UsedOnly(s, {})
    requires g.start + 1 + t < g.dsize && g.start + 1 + t !in s.log.blocks
    ensures On(g, m, s0, s') && k != j && UsedOnly(s', {k, j}) && |s'.bufs| == |s.bufs| && s' == s.(bufs := s'.bufs)
    ensures Has(s', k, s.who, g.start + 1 + t) && Has(s', j, s.who, s.log.blocks[t])
  {
    var s1;
    s1, k := Bread(g, m, s0, s, s.who, g.start + 1 + t, {});
    s', j := GetHome(g, m, s0, s1, t, k);
  }

  /** One block is copied, and both buffers are released. */
  lemma CopyNext(g: Geo, m: nat, s0: State, s: State, t: nat, n: nat) returns (s': State)
    requires On(g, m, s0, s) && s.phase == Logging(t) && t < |s.log.blocks| < |s.bufs|
    requires UsedOnly(s, {}) && n == t + 1 < g.size
    ensures On(g, m, s0, s') && UsedOnly(s', {}) && |s'.bufs| == |s.bufs|
    ensures s' == s.(bufs := s'.bufs, disk := s'.disk, phase := Logging(n))
  {
    assert !g.Home(g.start + 1 + t);
    var s1, k, j := GetBoth(g, m, s0, s, t);
    var s2 := Bwrite(s1, k, s1.bufs[j].data).(phase := Logging(n));
    Go(g, m, s0, s1, CopyToLog(k, j), s2);
    assert {j} + {k} == {k, j};
    s' := Release(g, m, s0, s2, s.who, k, {j});
    s' := Release(g, m, s0, s', s.who, j, {});
  }

  /** With a buffer to spare, write_log gets through its first n blocks. */
  lemma {:induction false} CopyUp(g: Geo, m: nat, s0: State, s: State, n: nat) returns (s': State)
    requires On(g, m, s0, s) && s.phase == Logging(0) && UsedOnly(s, {}) && |s.log.blocks| < |s.bufs|
    requires n <= |s.log.blocks| && n < g.size
    ensures On(g, m, s0, s') && UsedOnly(s', {}) && |s'.bufs| == |s.bufs|
    ensures s' == s.(bufs := s'.bufs, disk := s'.disk, phase := Logging(n))
  {
    if n == 0 {
      s' := s;
    } else {
      s' := CopyUp(g, m, s0, s, n - 1);
      s' := CopyNext(g, m, s0, s', n - 1, n);
    }
  }

  // ---- commits without a buffer ----

  /** commit() is about to copy its first block, and every buffer is pinned: bget panics for want of one. */
  ghost predicate Starved(s: State) {
    s.phase == Logging(0) && forall i: nat :: i < |s.bufs| ==> s.bufs[i].dirty
  }

  lemma StarvedIff(g: Geo, s: State)
    requires Inv(g, s) && s.phase == Logging(0)
    ensures Starved(s) <==> |s.bufs| <= |s.log.blocks|
  {
    if Starved(s) {
      AllDirty(g, s, {});
    }
    if i: nat :| i < |s.bufs| && !s.bufs[i].dirty {
      if s.bufs[i].blockno in s.log.blocks {
        PendingIsDirty(g, s, i);
      }
      EntriesBelowBuffers(g, s, i);
    }
  }

  lemma StuckStep(g: Geo, s: State, s': State, step: Step)
    requires Inv(g, s) && s.phase == Logging(0) && 2 <= g.size && 1 <= |s.log.blocks| && |s.bufs| <= |s.log.blocks|
    requires NextStep(g, s, s', step) && !step.Crash?
    ensures Inv(g, s') && s'.phase == Logging(0) && s'.log.blocks == s.log.blocks && |s'.bufs| == |s.bufs|
  {
    if step.CopyToLog? {
      assert !g.Home(g.start + 1);
      EntriesBelowBuffers(g, s, step.k);
    }
    NextKeeps(g, s, s', step);
    StepBuffers(g, s, s', step);
  }

  lemma {:induction false} Stuck(g: Geo, m: nat, path: seq<State>, steps: seq<Step>, i: nat)
    requires IsPath(g, m, path, steps) && i < |path| && Inv(g, path[0]) && path[0].phase == Logging(0)
    requires 2 <= g.size && 1 <= |path[0].log.blocks| && |path[0].bufs| <= |path[0].log.blocks|
    ensures Inv(g, path[i]) && path[i].phase == Logging(0)
    ensures path[i].log.blocks == path[0].log.blocks && |path[i].bufs| == |path[0].bufs|
  {
    if i > 0 {
      var h := i - 1;
      Stuck(g, m, path, steps, h);
      StuckStep(g, path[h], path[h + 1], steps[h]);
    }
  }

  /** From a quiet cache, write_log gets through if and only if its entries are fewer than the buffers. */
  lemma CommitGoesThrough(g: Geo, s: State)
    requires Inv(g, s) && Fits(g, s) && s.phase == Logging(0) && UsedOnly(s, {}) && 2 <= g.size && s.log.blocks != []
    ensures (exists m: nat, s' :: Leads(g, m, s, s') && s'.phase == Logging(|s.log.blocks|)) <==>
              |s.log.blocks| < |s.bufs|
  {
    if |s.log.blocks| < |s.bufs| {
      FitsInArray(g, s);
      LeadsSelf(g, 0, s);
      var s' := CopyUp(g, 0, s, s, |s.log.blocks|);
      assert Leads(g, 0, s, s') && s'.phase == Logging(|s.log.blocks|);
    } else {
      forall m: nat, s' | Leads(g, m, s, s')
        ensures s'.phase == Logging(0)
      {
        var path, steps :| IsPath(g, m, path, steps) && path[0] == s && path[|path| - 1] == s';
        Stuck(g, m, path, steps, |path| - 1);
      }
    }
  }

  /** The logs and caches over which calls of at most m blocks are safe. */
  ghost predicate SafeFor(g: Geo, nbuf: nat, m: nat) { Ample(g, nbuf) || BudgetOk(g, m) }

  lemma WithinInv(g: Geo, nbuf: nat, m: nat, s: State)
    requires ReachableWithin(g, nbuf, m, s) && SafeFor(g, nbuf, m)
    ensures Inv(g, s) && Safe(g, s) && |s.bufs| == nbuf && Kept(s, m)
  {
    var run: seq<State>, steps :|
      IsRun(g, run, steps) && Budgeted(run, steps, m) && |run[0].bufs| == nbuf && run[|run| - 1] == s;
    RunInv(g, run, steps, |run| - 1);
    BuffersStay(g, run, steps, |run| - 1);
    RunKeepsBudget(g, run, steps, m, |run| - 1);
    AlwaysCrashSafe(g, s);
  }

  lemma ReachInv(g: Geo, nbuf: nat, s: State)
    requires Reachable(g, nbuf, s) && Ample(g, nbuf)
    ensures Inv(g, s) && Safe(g, s)
  {
    var run: seq<State>, steps :| IsRun(g, run, steps) && |run[0].bufs| == nbuf && run[|run| - 1] == s;
    RunInv(g, run, steps, |run| - 1);
    AlwaysCrashSafe(g, s);
  }

  /**
    Where calls of at most m blocks are safe, one of their commits may find every buffer pinned if and only if the cache
    has no more buffers than the calls outstanding together can log.
  */
  lemma StarvesIff(g: Geo, nbuf: nat, m: nat)
    requires Roomy(g) && 2 <= g.size && 1 <= nbuf && 1 <= m && SafeFor(g, nbuf, m)
    ensures (exists s :: ReachableWithin(g, nbuf, m, s) && Starved(s)) <==> nbuf <= R.Peak(m)
  {
    if nbuf <= R.Peak(m) {
      var s0 := PowerOn(g, nbuf);
      var s := Header(g, m, s0, nbuf);
      s := EndCalls(g, m, s0, s, nbuf);
      Starts(g, m, nbuf);
      LeadsReach(g, m, s0, s);
      StarvedIff(g, s);
    }
    forall s | ReachableWithin(g, nbuf, m, s) && Starved(s)
      ensures nbuf <= R.Peak(m)
    {
      WithinInv(g, nbuf, m, s);
      StarvedIff(g, s);
      R.AppendHasRoom(s.log, 0, 0, m);
    }
  }

  // ---- safety ----

  /** The copy of the last of g.size blocks goes to the home block behind the log. */
  lemma Overwrite(g: Geo, m: nat, s0: State, s: State, t: nat) returns (s': State)
    requires On(g, m, s0, s) && s.phase == Logging(t) && t + 1 == g.size == |s.log.blocks| < |s.bufs| && UsedOnly(s, {})
    requires g.start + g.size < g.dsize && g.start + g.size !in s.log.blocks
    ensures Leads(g, m, s0, s') && s'.phase == Logging(g.size)
    ensures s'.committed == s.committed && s.log.blocks[t] < |s.latest|
    ensures s'.disk == s.disk[g.start + g.size := s.latest[s.log.blocks[t]]]
  {
    var s1, k, j := GetBoth(g, m, s0, s, t);
    CommitterReads(g, s1, j, s.log.blocks[t]);
    s' := Bwrite(s1, k, s1.bufs[j].data).(phase := Logging(g.size));
    LeadsOn(g, m, s0, s1, CopyToLog(k, j), s');
  }

  lemma BehindNotLogged(g: Geo, s: State, n: nat)
    requires Inked(g, s, n)
    ensures g.start + g.size !in s.log.blocks
  {
    forall k: nat | k < n
      ensures s.log.blocks[k] != g.start + g.size
    {
      assert IsInked(g, s, k);
    }
  }

  /**
    With a short log, calls that can fill it and more buffers than log blocks, a run reaches a state where uncommitted
    data is in a home block, and a crash would keep it there.
  */
  lemma ShortLogUnsafe(g: Geo, nbuf: nat, m: nat) returns (s: State)
    requires Roomy(g) && 2 <= g.size <= LOGSIZE && g.size < nbuf && 1 <= m && g.size <= R.Peak(m)
    ensures ReachableWithin(g, nbuf, m, s) && s.phase.Logging? && |s.disk| == |s.committed| == g.dsize
    ensures HeadOf(s.disk[g.start]) == []
    ensures g.Home(g.start + g.size) && s.disk[g.start + g.size] != s.committed[g.start + g.size]
    ensures !CrashSafe(g, s)
  {
    var s0, t, b := PowerOn(g, nbuf), g.size - 1, g.start + g.size;
    s := Header(g, m, s0, g.size);
    s := EndCalls(g, m, s0, s, g.size);
    assert IsInked(g, s, t);
    BehindNotLogged(g, s, g.size);
    s := CopyUp(g, m, s0, s, t);
    s := Overwrite(g, m, s0, s, t);
    Starts(g, m, nbuf);
    LeadsReach(g, m, s0, s);
    InkIsNotZero();
    assert g.Home(b) && Recovered(g, s.disk, b) == Ink();
  }

  /** With a longer log, more than LOGSIZE buffers and a call of one block too many, the header outgrows its array. */
  lemma ArrayOverflows(g: Geo, nbuf: nat, m: nat) returns (s: State)
    requires Roomy(g) && g.size > LOGSIZE && nbuf > LOGSIZE && m > MAXOPBLOCKS
    ensures ReachableWithin(g, nbuf, m, s) && |s.log.blocks| == LOGSIZE + 1
  {
    var s0 := PowerOn(g, nbuf);
    s := Header(g, m, s0, LOGSIZE + 1);
    Starts(g, m, nbuf);
    LeadsReach(g, m, s0, s);
  }

  lemma Unsafe(g: Geo, nbuf: nat, m: nat) returns (s: State)
    requires Roomy(g) && 1 <= m && !SafeFor(g, nbuf, m)
    ensures ReachableWithin(g, nbuf, m, s) && !Safe(g, s)
  {
    if g.size <= LOGSIZE {
      s := ShortLogUnsafe(g, nbuf, m);
    } else {
      s := ArrayOverflows(g, nbuf, m);
    }
  }

  /**
    When no call logs more than m blocks, every reachable state is safe exactly when the log has room for no entry; or
    the cache has no more buffers than the log has blocks and the header has entries; or m is at most MAXOPBLOCKS and
    the log has more blocks than such calls can fill.
  */
  lemma SafeWithinIff(g: Geo, nbuf: nat, m: nat)
    requires Roomy(g) && 1 <= m
    ensures (forall s :: ReachableWithin(g, nbuf, m, s) ==> Safe(g, s)) <==>
            g.size == 1 || (nbuf <= g.size && nbuf <= LOGSIZE) || (m <= MAXOPBLOCKS && R.Peak(m) < g.size)
  {
    if SafeFor(g, nbuf, m) {
      forall s | ReachableWithin(g, nbuf, m, s)
        ensures Safe(g, s)
      {
        WithinInv(g, nbuf, m, s);
      }
    } else {
      var s := Unsafe(g, nbuf, m);
    }
  }

  /** When calls may log any number of blocks, exactly in the first two cases. */
  lemma SafeIff(g: Geo, nbuf: nat)
    requires Roomy(g)
    ensures (forall s :: Reachable(g, nbuf, s) ==> Safe(g, s)) <==> g.size == 1 || (nbuf <= g.size && nbuf <= LOGSIZE)
  {
    if Ample(g, nbuf) {
      forall s | Reachable(g, nbuf, s)
        ensures Safe(g, s)
      {
        ReachInv(g, nbuf, s);
      }
    } else {
      var s := Unsafe(g, nbuf, MAXOPBLOCKS + 1);
      assert Reachable(g, nbuf, s);
    }
  }

  /**
    The log of mkfs and the buffers of the kernel: safe whatever calls log, though a commit may find no buffer and
    panic.
  */
  lemma KernelLog(g: Geo)
    requires Roomy(g) && g.size == LOGSIZE
    ensures forall s :: Reachable(g, NBUF, s) ==> Safe(g, s)
    ensures exists s :: ReachableWithin(g, NBUF, MAXOPBLOCKS, s) && Starved(s)
  {
    SafeIff(g, NBUF);
    StarvesIff(g, NBUF, MAXOPBLOCKS);
  }
}
