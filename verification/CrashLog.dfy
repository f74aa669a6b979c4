/**
  bio.c and log.c over a disk that writes one block at a time, as a step system: any number of processes
  get, lock, fill, modify, log and release buffers; the last end_op commits; a crash may happen between
  any two steps, during a commit or during recovery, and discards everything but the disk.
*/
module CrashLog {
  import opened Blocks
  import opened Param
  import opened Sets
  import R = LogReserve

  const NOBODY: int := -1
  const NOBLOCK: int := -1

  /** Disk geometry: the log occupies blocks start, ..., start + size - 1, its header in the first. */
  datatype Geo = Geo(start: nat, size: nat, dsize: nat) {
    predicate Ok() { 1 <= size && start + size <= dsize <= U32_MAX }

    predicate Home(b: int) { 0 <= b < dsize && !(start <= b < start + size) }
  }

  /** struct buf; refs are the processes counted by refcnt, mod marks data changed but not yet logged. */
  datatype Buf = Buf(blockno: int, valid: bool, dirty: bool, mod: bool, refs: set<nat>, holder: int, data: Block)

  /** Where commit() or recover_from_log() is; t is `tail` in write_log and install_trans. */
  datatype Phase = Idle | Logging(t: nat) | Installing(t: nat) | Erasing | Erased | Rebooted

  /**
    latest and committed are history: the contents last logged, and those of the last transaction whose
    header reached the disk. who runs the commit or the recovery.
  */
  datatype State = State(disk: seq<Block>, bufs: seq<Buf>, log: R.State, phase: Phase, who: nat, recovering: bool,
                         latest: seq<Block>, committed: seq<Block>)

  datatype Step =
    | Hit(p: nat, i: nat) | Miss(p: nat, i: nat, b: nat) | Lock(p: nat, i: nat) | Fill(p: nat, i: nat)
    | Modify(p: nat, i: nat, d: Block) | Check(p: nat) | LogWrite(p: nat, i: nat)
    | Unlock(p: nat, i: nat) | Unref(p: nat, i: nat)
    | Begin(p: nat) | End(p: nat)
    | CopyToLog(k: nat, j: nat) | WriteHead(k: nat) | InstallOne(k: nat, j: nat)
    | EraseMem | WriteEmptyHead(k: nat) | Finish
    | Crash(boot: nat) | ReadHead(k: nat)

  // ---- the on-disk header ----

  predicate EntriesOk(blocks: seq<nat>) { |blocks| <= 127 && forall i :: 0 <= i < |blocks| ==> blocks[i] <= U32_MAX }

  function PutEntries(blk: Block, blocks: seq<nat>): (r: Block)
    requires |blocks| <= 127 && forall i :: 0 <= i < |blocks| ==> blocks[i] <= U32_MAX
    ensures Word(r, 0) == Word(blk, 0)
    ensures forall i :: 0 <= i < |blocks| ==> Word(r, 1 + i) == blocks[i]
  {
    if blocks == [] then blk
    else PutWord(PutEntries(blk, blocks[..|blocks| - 1]), |blocks|, blocks[|blocks| - 1])
  }

  /** write_head: n and the first n entries; the rest of the block keeps its old contents. */
  function PutHead(blk: Block, blocks: seq<nat>): (r: Block)
    requires |blocks| <= 127 && forall i :: 0 <= i < |blocks| ==> blocks[i] <= U32_MAX
  {
    PutWord(PutEntries(blk, blocks), 0, |blocks|)
  }

  function Entries(blk: Block, n: nat): (s: seq<nat>)
    requires n <= 127
    ensures |s| == n
  {
    if n == 0 then [] else Entries(blk, n - 1) + [Word(blk, n)]
  }

  lemma {:induction false} EntryAt(blk: Block, n: nat, i: nat)
    requires i < n <= 127
    ensures Entries(blk, n)[i] == Word(blk, 1 + i)
  {
    if i < n - 1 {
      EntryAt(blk, n - 1, i);
    }
  }

  /** read_head; a block has room for 127 entries, and no header that log.c writes has more than LOGSIZE. */
  function HeadOf(blk: Block): seq<nat> {
    Entries(blk, if Word(blk, 0) <= 127 then Word(blk, 0) else 127)
  }

  lemma HeadRoundTrip(blk: Block, blocks: seq<nat>)
    requires |blocks| <= 127 && forall i :: 0 <= i < |blocks| ==> blocks[i] <= U32_MAX
    ensures HeadOf(PutHead(blk, blocks)) == blocks
  {
    var r := PutHead(blk, blocks);
    forall i | 0 <= i < |blocks|
      ensures Entries(r, |blocks|)[i] == blocks[i]
    {
      EntryAt(r, |blocks|, i);
      assert Word(r, 1 + i) == Word(PutEntries(blk, blocks), 1 + i);
    }
  }

  lemma {:induction false} EntriesBytes(blk: Block, blocks: seq<nat>, r: Block)
    requires EntriesOk(blocks) && r == PutEntries(blk, blocks)
    ensures forall i: nat :: i < |blocks| ==> Holds32(r, 4 + 4 * i, blocks[i])
    ensures forall k :: 0 <= k < 4 || 4 + 4 * |blocks| <= k < 512 ==> r[k] == blk[k]
  {
    if blocks != [] {
      var n := |blocks| - 1;
      var q := PutEntries(blk, blocks[..n]);
      EntriesBytes(blk, blocks[..n], q);
      PutWordBytes(q, n + 1, blocks[n]);
      assert r == PutWord(q, n + 1, blocks[n]);
    }
  }

  /** The header block holds n in its first four bytes and entry i in the four from 4 + 4i on; the rest is as before. */
  ghost predicate HoldsHead(blk: Block, r: Block, blocks: seq<nat>) {
    && Holds32(r, 0, |blocks|)
    && (forall i: nat :: i < |blocks| ==> Holds32(r, 4 + 4 * i, blocks[i]))
    && forall k :: 4 + 4 * |blocks| <= k < 512 ==> r[k] == blk[k]
  }

  lemma HeadBytes(blk: Block, blocks: seq<nat>)
    requires EntriesOk(blocks)
    ensures HoldsHead(blk, PutHead(blk, blocks), blocks)
  {
    var q := PutEntries(blk, blocks);
    EntriesBytes(blk, blocks, q);
    PutWordBytes(q, 0, |blocks|);
  }

  /** And it is read from those bytes. */
  lemma HeadReadFrom(blk: Block)
    requires Spelled(blk, 0) <= 127
    ensures |HeadOf(blk)| == Spelled(blk, 0)
    ensures forall i: nat :: i < |HeadOf(blk)| ==> HeadOf(blk)[i] == Spelled(blk, 4 + 4 * i)
  {
    WordIs(blk, 0);
    forall i: nat | i < |HeadOf(blk)|
      ensures HeadOf(blk)[i] == Spelled(blk, 4 + 4 * i)
    {
      EntryAt(blk, |HeadOf(blk)|, i);
      WordIs(blk, 1 + i);
    }
  }

  // ---- steps ----

  predicate MayAct(s: State, p: nat) { s.recovering ==> p == s.who }

  predicate Held(s: State, i: nat, p: nat) { i < |s.bufs| && s.bufs[i].holder == p }

  predicate HeldFor(s: State, i: nat, p: nat, b: int) { Held(s, i, p) && s.bufs[i].blockno == b && s.bufs[i].valid }

  predicate Cached(s: State, b: int) { exists i :: 0 <= i < |s.bufs| && s.bufs[i].blockno == b }

  function SetBuf(s: State, i: nat, b: Buf): State
    requires i < |s.bufs|
  {
    s.(bufs := s.bufs[i := b])
  }

  /** `bwrite`: the held buffer k gets data d, which goes to the disk at once. */
  function Bwrite(s: State, k: nat, d: Block): State
    requires k < |s.bufs| && 0 <= s.bufs[k].blockno < |s.disk|
  {
    s.(bufs := s.bufs[k := s.bufs[k].(data := d, dirty := false)], disk := s.disk[s.bufs[k].blockno := d])
  }

  function EmptyBuf(): Buf { Buf(NOBLOCK, false, false, false, {}, NOBODY, ZeroBlock()) }

  ghost predicate NextStep(g: Geo, s: State, s': State, step: Step) {
    match step
    case Hit(p, i) =>
      && MayAct(s, p) && i < |s.bufs| && s.bufs[i].blockno >= 0
      && s' == SetBuf(s, i, s.bufs[i].(refs := s.bufs[i].refs + {p}))
    case Miss(p, i, b) =>
      && MayAct(s, p) && b < g.dsize && !Cached(s, b)
      && i < |s.bufs| && s.bufs[i].refs == {} && !s.bufs[i].dirty
      && s' == SetBuf(s, i, s.bufs[i].(blockno := b, valid := false, dirty := false, refs := {p}))
    case Lock(p, i) =>
      && i < |s.bufs| && p in s.bufs[i].refs && s.bufs[i].holder == NOBODY
      && s' == SetBuf(s, i, s.bufs[i].(holder := p))
    case Fill(p, i) =>
      && MayAct(s, p) && Held(s, i, p) && !s.bufs[i].valid && 0 <= s.bufs[i].blockno < |s.disk|
      && (s.phase.Rebooted? && g.start < |s.disk| ==> s.bufs[i].blockno !in HeadOf(s.disk[g.start]))
      && s' == SetBuf(s, i, s.bufs[i].(data := s.disk[s.bufs[i].blockno], valid := true))
    case Modify(p, i, d) =>
      && Held(s, i, p) && s.bufs[i].valid && p in s.log.ops && g.Home(s.bufs[i].blockno)
      && s' == SetBuf(s, i, s.bufs[i].(data := d, mod := true))
    case Check(p) => s' == s.(log := s'.log) && R.Check(s.log, s'.log, p, g.size)
    case LogWrite(p, i) =>
      && Held(s, i, p) && s.bufs[i].valid && g.Home(s.bufs[i].blockno) && 0 <= s.bufs[i].blockno < |s.latest|
      && s' == s.(bufs := s.bufs[i := s.bufs[i].(dirty := true, mod := false)], log := s'.log,
                  latest := s.latest[s.bufs[i].blockno := s.bufs[i].data])
      && R.Append(s.log, s'.log, p, s.bufs[i].blockno)
    case Unlock(p, i) => Held(s, i, p) && !s.bufs[i].mod && s' == SetBuf(s, i, s.bufs[i].(holder := NOBODY))
    case Unref(p, i) =>
      && i < |s.bufs| && s.bufs[i].holder != p
      && s' == SetBuf(s, i, s.bufs[i].(refs := s.bufs[i].refs - {p}))
    case Begin(p) => !s.recovering && s' == s.(log := s'.log) && R.BeginOp(s.log, s'.log, p)
    case End(p) =>
      && (forall i: nat :: Held(s, i, p) ==> !s.bufs[i].mod)
      && R.EndOp(s.log, s'.log, p)
      && s' == s.(log := s'.log, who := p,
                  phase := if !s'.log.committing then s.phase else if s.log.blocks == [] then Erased else Logging(0))
    case CopyToLog(k, j) =>
      && s.phase.Logging? && s.phase.t < |s.log.blocks|
      && HeldFor(s, k, s.who, g.start + 1 + s.phase.t) && HeldFor(s, j, s.who, s.log.blocks[s.phase.t])
      && s.bufs[k].blockno < |s.disk|
      && s' == Bwrite(s, k, s.bufs[j].data).(phase := Logging(s.phase.t + 1))
    case WriteHead(k) =>
      && s.phase == Logging(|s.log.blocks|)
      && HeldFor(s, k, s.who, g.start) && g.start < |s.disk| && EntriesOk(s.log.blocks)
      && s' == Bwrite(s, k, PutHead(s.bufs[k].data, s.log.blocks)).(phase := Installing(0), committed := s.latest)
    case InstallOne(k, j) =>
      && s.phase.Installing? && s.phase.t < |s.log.blocks|
      && HeldFor(s, k, s.who, g.start + 1 + s.phase.t) && HeldFor(s, j, s.who, s.log.blocks[s.phase.t])
      && s.bufs[j].blockno < |s.disk|
      && s' == Bwrite(s, j, s.bufs[k].data).(phase := Installing(s.phase.t + 1))
    case EraseMem =>
      && s.phase == Installing(|s.log.blocks|) && R.Erase(s.log, s'.log) && s' == s.(log := s'.log, phase := Erasing)
    case WriteEmptyHead(k) =>
      && s.phase == Erasing && HeldFor(s, k, s.who, g.start) && g.start < |s.disk|
      && s' == Bwrite(s, k, PutHead(s.bufs[k].data, [])).(phase := Erased)
    case Finish =>
      && s.phase == Erased && R.Finish(s.log, s'.log)
      && s' == s.(log := s'.log, phase := Idle, recovering := false)
    case Crash(boot) =>
      s' == State(s.disk, seq(|s.bufs|, _ => EmptyBuf()), R.State([], map[], true, {}), Rebooted, boot, true,
                  s.committed, s.committed)
    case ReadHead(k) =>
      && s.phase == Rebooted && HeldFor(s, k, s.who, g.start)
      && s' == s.(log := s.log.(blocks := HeadOf(s.bufs[k].data)), phase := Installing(0))
  }

  // ---- what recovery would make of a disk ----

  function IndexIn(s: seq<nat>, b: nat): (i: nat)
    requires b in s
    ensures i < |s| && s[i] == b
  {
    if s[0] == b then 0 else 1 + IndexIn(s[1..], b)
  }

  ghost predicate HomesOnly(g: Geo, h: seq<nat>) {
    R.Distinct(h) && forall i :: 0 <= i < |h| ==> g.Home(h[i])
  }

  /** A header that recovery can follow: distinct home blocks, each with a log block, that fit the array in memory. */
  ghost predicate HeadOk(g: Geo, h: seq<nat>) { HomesOnly(g, h) && |h| <= LOGSIZE && |h| < g.size }

  /** Block b after a complete recovery from disk d. */
  ghost function Recovered(g: Geo, d: seq<Block>, b: nat): Block
    requires g.Ok() && |d| == g.dsize && b < g.dsize
  {
    var h := HeadOf(d[g.start]);
    if b in h && g.start + 1 + IndexIn(h, b) < |d| then d[g.start + 1 + IndexIn(h, b)] else d[b]
  }

  /** The whole disk after recovery. */
  ghost function RecoveredAll(g: Geo, d: seq<Block>): (c: seq<Block>)
    requires g.Ok() && |d| == g.dsize
    ensures |c| == |d| && forall b: nat :: b < |d| ==> c[b] == Recovered(g, d, b)
  {
    seq(|d|, b requires 0 <= b < |d| => Recovered(g, d, b))
  }

  /** All or nothing: whatever happens next, recovery yields exactly the last committed contents. */
  ghost predicate CrashSafe(g: Geo, s: State) {
    && g.Ok() && |s.disk| == |s.committed| == g.dsize
    && HeadOk(g, HeadOf(s.disk[g.start]))
    && forall b: nat {:trigger g.Home(b)} :: g.Home(b) ==> Recovered(g, s.disk, b) == s.committed[b]
  }

  // ---- the invariant ----

  /** Header entries already copied to their home location. */
  ghost function Installed(s: State): seq<nat> {
    if s.phase.Installing? && s.phase.t <= |s.log.blocks| then s.log.blocks[..s.phase.t] else []
  }

  /** Block b is in the transaction and not yet at its home location. */
  ghost predicate Pending(s: State, b: int) { b in s.log.blocks && b !in Installed(s) }

  /** The cache is one logical disk: a home block reads as last logged, a log block as on disk. */
  ghost predicate Coherent(g: Geo, s: State, b: Buf) {
    && (g.Home(b.blockno) && b.blockno < |s.latest| && !b.mod && !(s.recovering && Pending(s, b.blockno)) ==>
          b.data == s.latest[b.blockno])
    && (!g.Home(b.blockno) && 0 <= b.blockno < |s.disk| ==> b.data == s.disk[b.blockno])
  }

  ghost predicate BufOk(g: Geo, s: State, b: Buf) {
    && NOBLOCK <= b.blockno < g.dsize
    && (b.valid ==> b.blockno >= 0)
    && (b.holder == NOBODY || (b.holder >= 0 && b.holder in b.refs))
    && (b.mod ==> b.valid && g.Home(b.blockno) && b.holder >= 0 && b.holder in s.log.ops)
    && (b.dirty ==> b.valid && !s.recovering && Pending(s, b.blockno))
    && (b.valid ==> Coherent(g, s, b))
  }

  ghost predicate BufsOk(g: Geo, s: State) {
    && (forall i :: 0 <= i < |s.bufs| ==> BufOk(g, s, s.bufs[i]))
    && (forall i, j :: 0 <= i < j < |s.bufs| && s.bufs[i].blockno == s.bufs[j].blockno ==> s.bufs[i].blockno == NOBLOCK)
  }

  ghost predicate PinnedAt(s: State, b: nat, i: int) {
    0 <= i < |s.bufs| && s.bufs[i].blockno == b && s.bufs[i].valid && s.bufs[i].dirty
  }

  ghost predicate Pinned(s: State) {
    !s.recovering ==> forall b :: Pending(s, b) ==> exists i :: PinnedAt(s, b, i)
  }

  /** The log block of entry i holds that entry's contents in c. */
  ghost predicate Copied(g: Geo, d: seq<Block>, h: seq<nat>, c: seq<Block>, i: nat) {
    i < |h| && g.start + 1 + i < |d| && h[i] < |c| && d[g.start + 1 + i] == c[h[i]]
  }

  /** The home block of entry i holds that entry's contents in c. */
  ghost predicate AtHome(d: seq<Block>, h: seq<nat>, c: seq<Block>, i: nat) {
    i < |h| && h[i] < |d| && h[i] < |c| && d[h[i]] == c[h[i]]
  }

  ghost predicate Sized(g: Geo, s: State) {
    g.Ok() && |s.disk| == |s.latest| == |s.committed| == g.dsize && HomesOnly(g, s.log.blocks)
  }

  ghost predicate HomesCommitted(g: Geo, s: State)
    requires |s.disk| == |s.committed| == g.dsize
  {
    forall b: nat {:trigger g.Home(b)} :: g.Home(b) ==> s.disk[b] == s.committed[b]
  }

  ghost predicate DiskOk(g: Geo, s: State)
    requires Sized(g, s)
  {
    var h := HeadOf(s.disk[g.start]);
    && (forall b: nat {:trigger g.Home(b)} :: g.Home(b) && b !in s.log.blocks ==>
          s.latest[b] == s.committed[b] && (s.phase.Rebooted? || s.disk[b] == s.committed[b]))
    && match s.phase
       case Idle => !s.recovering && !s.log.committing && h == [] && HomesCommitted(g, s)
       case Logging(t) =>
         && !s.recovering && s.log.committing && h == [] && HomesCommitted(g, s) && t <= |s.log.blocks|
         && forall i: nat :: i < t ==> Copied(g, s.disk, s.log.blocks, s.latest, i)
       case Installing(t) =>
         && s.log.committing && h == s.log.blocks && HeadOk(g, h) && s.latest == s.committed && t <= |s.log.blocks|
         && (forall i: nat :: i < |s.log.blocks| ==> Copied(g, s.disk, s.log.blocks, s.committed, i))
         && (forall i: nat :: i < t ==> AtHome(s.disk, s.log.blocks, s.committed, i))
       case Erasing =>
         && s.log.committing && s.log.blocks == [] && s.latest == s.committed && HomesCommitted(g, s) && HeadOk(g, h)
         && forall i: nat :: i < |h| ==> Copied(g, s.disk, h, s.committed, i)
       case Erased => s.log.committing && s.log.blocks == [] && h == [] && HomesCommitted(g, s)
       case Rebooted =>
         s.recovering && s.log.committing && s.log.blocks == [] && s.latest == s.committed && CrashSafe(g, s)
  }

  ghost predicate Inv(g: Geo, s: State) {
    && Sized(g, s) && R.Core(s.log)
    && (s.recovering ==> s.log.ops == map[])
    && DiskOk(g, s)
    && BufsOk(g, s)
    && Pinned(s)
  }

  /** The step writes no log block past the end of the log, and commits no header that is too long for log or array. */
  ghost predicate WithinLog(g: Geo, s: State, step: Step) {
    && (step.CopyToLog? && s.phase.Logging? ==> s.phase.t + 1 < g.size)
    && (step.WriteHead? ==> |s.log.blocks| < g.size && |s.log.blocks| <= LOGSIZE)
  }

  // ---- steps that touch one buffer ----

  /** s' is s with buffer i replaced, keeping dirty buffers dirty and block numbers distinct. */
  ghost predicate OneBuf(g: Geo, s: State, s': State, i: nat) {
    && i < |s.bufs| == |s'.bufs| && s' == s.(bufs := s.bufs[i := s'.bufs[i]])
    && BufOk(g, s, s'.bufs[i])
    && (s'.bufs[i].blockno == s.bufs[i].blockno || !Cached(s, s'.bufs[i].blockno))
    && (s.bufs[i].dirty ==> s'.bufs[i].dirty && s'.bufs[i].valid && s'.bufs[i].blockno == s.bufs[i].blockno)
  }

  lemma OneBufKeeps(g: Geo, s: State, s': State, i: nat)
    requires Inv(g, s) && OneBuf(g, s, s', i)
    ensures Inv(g, s')
  {
    forall j | 0 <= j < |s'.bufs|
      ensures BufOk(g, s', s'.bufs[j])
    {
      assert BufOk(g, s, s.bufs[j]);
    }
    forall j, k | 0 <= j < k < |s'.bufs| && s'.bufs[j].blockno == s'.bufs[k].blockno
      ensures s'.bufs[j].blockno == NOBLOCK
    {
      assert j != i ==> s'.bufs[j] == s.bufs[j];
      assert k != i ==> s'.bufs[k] == s.bufs[k];
    }
    forall b | !s.recovering && Pending(s', b)
      ensures exists k :: PinnedAt(s', b, k)
    {
      assert Pending(s, b);
      var k :| PinnedAt(s, b, k);
      assert PinnedAt(s', b, k);
    }
  }

  /** The disk holds the latest contents of every block that is not pinned in the cache. */
  lemma DiskIsLatest(g: Geo, s: State, b: nat)
    requires Inv(g, s) && g.Home(b) && !Pending(s, b) && !s.phase.Rebooted?
    ensures s.disk[b] == s.latest[b]
  {
    if b in s.log.blocks {
      var i :| 0 <= i < |Installed(s)| && Installed(s)[i] == b;
      assert AtHome(s.disk, s.log.blocks, s.committed, i);
    }
  }

  /** The buffer of a pending block is valid and dirty. */
  lemma PendingIsDirty(g: Geo, s: State, i: nat)
    requires Inv(g, s) && !s.recovering && i < |s.bufs| && Pending(s, s.bufs[i].blockno)
    ensures s.bufs[i].valid && s.bufs[i].dirty
  {
  }

  lemma FillOk(g: Geo, s: State, p: nat, i: nat)
    requires Inv(g, s) && MayAct(s, p) && Held(s, i, p) && !s.bufs[i].valid && 0 <= s.bufs[i].blockno < |s.disk|
    requires s.phase.Rebooted? ==> s.bufs[i].blockno !in HeadOf(s.disk[g.start])
    ensures BufOk(g, s, s.bufs[i].(data := s.disk[s.bufs[i].blockno], valid := true))
  {
    var b := s.bufs[i].blockno;
    assert BufOk(g, s, s.bufs[i]);
    if g.Home(b) && !s.recovering && Pending(s, b) {
      PendingIsDirty(g, s, i);
    }
    if g.Home(b) && s.phase.Rebooted? {
      assert Recovered(g, s.disk, b) == s.committed[b];
    } else if g.Home(b) && !Pending(s, b) {
      DiskIsLatest(g, s, b);
    }
  }

  lemma BufStepKeeps(g: Geo, s: State, s': State, step: Step)
    requires Inv(g, s) && NextStep(g, s, s', step)
    requires step.Hit? || step.Miss? || step.Lock? || step.Fill? || step.Modify? || step.Unlock? || step.Unref?
    ensures Inv(g, s')
  {
    assert BufOk(g, s, s.bufs[step.i]);
    if step.Fill? {
      FillOk(g, s, step.p, step.i);
    }
    assert OneBuf(g, s, s', step.i);
    OneBufKeeps(g, s, s', step.i);
  }

  lemma Apart(g: Geo, s: State, j: nat, k: nat)
    requires BufsOk(g, s) && j < |s.bufs| && k < |s.bufs| && j != k && s.bufs[k].blockno >= 0
    ensures s.bufs[j].blockno != s.bufs[k].blockno
  {
  }

  /** Buffers that stay pinned keep the transaction pinned. */
  lemma StillPinned(s: State, s': State)
    requires Pinned(s) && s'.recovering == s.recovering && |s'.bufs| == |s.bufs|
    requires forall b :: Pending(s', b) ==> Pending(s, b)
    requires forall b, i :: Pending(s', b) && PinnedAt(s, b, i) ==> PinnedAt(s', b, i)
    ensures Pinned(s')
  {
  }

  // ---- operations ----

  lemma LogWriteBuf(g: Geo, s: State, s': State, p: nat, i: nat, j: nat)
    requires Inv(g, s) && NextStep(g, s, s', LogWrite(p, i)) && s.phase.Idle? && j < |s.bufs|
    ensures BufOk(g, s', s'.bufs[j])
  {
    assert BufOk(g, s, s.bufs[j]);
    if j != i {
      Apart(g, s, j, i);
    }
  }

  lemma LogWritePins(s: State, s': State, i: nat, b: nat)
    requires s.phase.Idle? && s'.phase.Idle? && Pinned(s) && !s.recovering && i < |s.bufs|
    requires s'.log.blocks == R.Absorb(s.log.blocks, b) && s.bufs[i].blockno == b && s.bufs[i].valid
    requires s'.bufs == s.bufs[i := s.bufs[i].(dirty := true, mod := false)]
    ensures Pinned(s')
  {
    forall c | Pending(s', c)
      ensures exists k :: PinnedAt(s', c, k)
    {
      if c == b {
        assert PinnedAt(s', c, i);
      } else {
        assert Pending(s, c);
        var k :| PinnedAt(s, c, k);
        assert PinnedAt(s', c, k);
      }
    }
  }

  lemma LogWriteKeeps(g: Geo, s: State, s': State, p: nat, i: nat)
    requires Inv(g, s) && NextStep(g, s, s', LogWrite(p, i))
    ensures Inv(g, s')
  {
    var b := s.bufs[i].blockno;
    R.AppendKeepsCore(s.log, s'.log, p, b);
    assert s.phase.Idle?;
    forall j: nat | j < |s'.bufs|
      ensures BufOk(g, s', s'.bufs[j])
    {
      LogWriteBuf(g, s, s', p, i, j);
    }
    LogWritePins(s, s', i, b);
  }

  lemma SameBufsKeep(g: Geo, s: State, s': State)
    requires Inv(g, s) && s'.bufs == s.bufs && s'.disk == s.disk && s'.latest == s.latest
    requires (forall b :: Pending(s', b) <==> Pending(s, b)) && s'.recovering == s.recovering
    requires s'.phase.Rebooted? ==> s.phase.Rebooted?
    requires forall i :: 0 <= i < |s.bufs| && s.bufs[i].mod ==> s.bufs[i].holder in s'.log.ops
    ensures BufsOk(g, s') && Pinned(s')
  {
    forall j | 0 <= j < |s'.bufs|
      ensures BufOk(g, s', s'.bufs[j])
    {
      assert BufOk(g, s, s.bufs[j]);
    }
    forall b | !s.recovering && Pending(s', b)
      ensures exists k :: PinnedAt(s', b, k)
    {
      var k :| PinnedAt(s, b, k);
      assert PinnedAt(s', b, k);
    }
  }

  lemma CheckKeeps(g: Geo, s: State, s': State, p: nat)
    requires Inv(g, s) && NextStep(g, s, s', Check(p))
    ensures Inv(g, s')
  {
    forall i | 0 <= i < |s.bufs| && s.bufs[i].mod
      ensures s.bufs[i].holder in s'.log.ops
    {
      assert BufOk(g, s, s.bufs[i]);
    }
    SameBufsKeep(g, s, s');
  }

  lemma BeginKeeps(g: Geo, s: State, s': State, p: nat)
    requires Inv(g, s) && NextStep(g, s, s', Begin(p))
    ensures Inv(g, s')
  {
    assert p in s'.log.ops;
    forall i | 0 <= i < |s.bufs| && s.bufs[i].mod
      ensures s.bufs[i].holder in s'.log.ops
    {
      assert BufOk(g, s, s.bufs[i]);
    }
    SameBufsKeep(g, s, s');
  }

  lemma EndKeeps(g: Geo, s: State, s': State, p: nat)
    requires Inv(g, s) && NextStep(g, s, s', End(p))
    ensures Inv(g, s')
  {
    assert s.phase.Idle?;
    forall i | 0 <= i < |s.bufs| && s.bufs[i].mod
      ensures s.bufs[i].holder in s'.log.ops
    {
      assert BufOk(g, s, s.bufs[i]);
      assert Held(s, i, s.bufs[i].holder);
    }
    SameBufsKeep(g, s, s');
  }

  // ---- commit and recovery ----

  /** A held, valid buffer of a home block shows the latest contents while a commit runs. */
  lemma CommitterReads(g: Geo, s: State, j: nat, b: nat)
    requires Inv(g, s) && HeldFor(s, j, s.who, b) && g.Home(b) && s.log.committing && !s.recovering
    ensures s.bufs[j].data == s.latest[b]
  {
  }

  lemma LogBlockReads(g: Geo, s: State, k: nat, b: nat)
    requires Inv(g, s) && HeldFor(s, k, s.who, b) && b < g.dsize && !g.Home(b)
    ensures s.bufs[k].data == s.disk[b] && !s.bufs[k].dirty && !s.bufs[k].mod
  {
  }

  /** s' is s after a bwrite of the log block in buffer k. */
  ghost predicate LogBwrite(g: Geo, s: State, s': State, k: nat, d: Block) {
    && k < |s.bufs| && 0 <= s.bufs[k].blockno < g.dsize == |s.disk| && !g.Home(s.bufs[k].blockno) && s.bufs[k].valid
    && s'.bufs == s.bufs[k := s.bufs[k].(data := d, dirty := false)] && s'.disk == s.disk[s.bufs[k].blockno := d]
    && s'.latest == s.latest && s'.log == s.log && s'.recovering == s.recovering
    && (forall b :: Pending(s', b) <==> Pending(s, b))
    && (s'.phase.Rebooted? ==> s.phase.Rebooted?)
  }

  lemma LogBwriteBuf(g: Geo, s: State, s': State, k: nat, d: Block, j: nat)
    requires Inv(g, s) && LogBwrite(g, s, s', k, d) && j < |s.bufs|
    ensures BufOk(g, s', s'.bufs[j])
  {
  }

  /** bwrite of a log block leaves the cache coherent. */
  lemma LogBwriteKeeps(g: Geo, s: State, s': State, k: nat, d: Block)
    requires Inv(g, s) && LogBwrite(g, s, s', k, d)
    ensures BufsOk(g, s') && Pinned(s')
  {
    forall j: nat | j < |s'.bufs|
      ensures BufOk(g, s', s'.bufs[j])
    {
      LogBwriteBuf(g, s, s', k, d, j);
    }
    forall b, i | Pending(s', b) && PinnedAt(s, b, i)
      ensures PinnedAt(s', b, i)
    {
      assert b in s.log.blocks && g.Home(b);
    }
    StillPinned(s, s');
  }

  lemma CopyToLogKeeps(g: Geo, s: State, s': State, k: nat, j: nat)
    requires Inv(g, s) && NextStep(g, s, s', CopyToLog(k, j)) && s.phase.t + 1 < g.size
    ensures Inv(g, s')
  {
    CommitterReads(g, s, j, s.log.blocks[s.phase.t]);
    LogBwriteKeeps(g, s, s', k, s.bufs[j].data);
    forall i: nat | i < s'.phase.t
      ensures Copied(g, s'.disk, s.log.blocks, s.latest, i)
    {
      assert i < s.phase.t ==> Copied(g, s.disk, s.log.blocks, s.latest, i);
    }
  }

  lemma HeadLeavesCopies(g: Geo, d: seq<Block>, h: seq<nat>, want: seq<Block>, i: nat, d': seq<Block>)
    requires Copied(g, d, h, want, i) && |d'| == |d| && forall b :: 0 <= b < |d| && b != g.start ==> d'[b] == d[b]
    ensures Copied(g, d', h, want, i)
  {
  }

  lemma HeadLeavesAll(g: Geo, s: State, s': State, k: nat)
    requires Inv(g, s) && NextStep(g, s, s', WriteHead(k)) && |s.log.blocks| < g.size && |s.log.blocks| <= LOGSIZE
    ensures forall i: nat :: i < |s.log.blocks| ==> Copied(g, s'.disk, s.log.blocks, s'.committed, i)
  {
    forall i: nat | i < |s.log.blocks|
      ensures Copied(g, s'.disk, s.log.blocks, s'.committed, i)
    {
      HeadLeavesCopies(g, s.disk, s.log.blocks, s.latest, i, s'.disk);
    }
  }

  lemma WriteHeadKeeps(g: Geo, s: State, s': State, k: nat)
    requires Inv(g, s) && NextStep(g, s, s', WriteHead(k)) && |s.log.blocks| < g.size && |s.log.blocks| <= LOGSIZE
    ensures Inv(g, s')
  {
    HeadRoundTrip(s.bufs[k].data, s.log.blocks);
    LogBwriteKeeps(g, s, s', k, PutHead(s.bufs[k].data, s.log.blocks));
    HeadLeavesAll(g, s, s', k);
  }

  /** s' is s after a bwrite that brings the home block in buffer j up to date. */
  ghost predicate HomeBwrite(g: Geo, s: State, s': State, j: nat, d: Block) {
    && j < |s.bufs| && 0 <= s.bufs[j].blockno < g.dsize == |s.disk| == |s.latest| && g.Home(s.bufs[j].blockno)
    && s.bufs[j].valid
    && s'.bufs == s.bufs[j := s.bufs[j].(data := d, dirty := false)] && s'.disk == s.disk[s.bufs[j].blockno := d]
    && d == s.latest[s.bufs[j].blockno]
    && s'.latest == s.latest && s'.log == s.log && s'.recovering == s.recovering && !s'.phase.Rebooted?
    && (forall b :: Pending(s', b) <==> Pending(s, b) && b != s.bufs[j].blockno)
  }

  lemma HomeBwriteBuf(g: Geo, s: State, s': State, j: nat, d: Block, i: nat)
    requires Inv(g, s) && HomeBwrite(g, s, s', j, d) && i < |s.bufs|
    ensures BufOk(g, s', s'.bufs[i])
  {
  }

  lemma HomeBwriteKeeps(g: Geo, s: State, s': State, j: nat, d: Block)
    requires Inv(g, s) && HomeBwrite(g, s, s', j, d)
    ensures BufsOk(g, s') && Pinned(s')
  {
    forall i: nat | i < |s'.bufs|
      ensures BufOk(g, s', s'.bufs[i])
    {
      HomeBwriteBuf(g, s, s', j, d, i);
    }
    StillPinned(s, s');
  }

  lemma PendingAfter(s: State, s': State, b: int)
    requires s.phase.Installing? && s.phase.t < |s.log.blocks|
    requires s'.log == s.log && s'.phase == Installing(s.phase.t + 1)
    ensures Pending(s', b) <==> Pending(s, b) && b != s.log.blocks[s.phase.t]
  {
  }

  lemma InstallOneDisk(g: Geo, s: State, s': State, b: nat, d: Block)
    requires Sized(g, s) && DiskOk(g, s) && s.phase.Installing? && s.phase.t < |s.log.blocks|
    requires b == s.log.blocks[s.phase.t] && d == s.committed[b]
    requires s' == s.(disk := s.disk[b := d], phase := Installing(s.phase.t + 1), bufs := s'.bufs)
    ensures DiskOk(g, s')
  {
    var h, t := s.log.blocks, s.phase.t;
    assert g.Home(b);
    assert s'.disk[g.start] == s.disk[g.start];
    forall i: nat | i < |h|
      ensures Copied(g, s'.disk, h, s.committed, i)
    {
      assert Copied(g, s.disk, h, s.committed, i) && b != g.start + 1 + i;
    }
    forall i: nat | i < t + 1
      ensures AtHome(s'.disk, h, s.committed, i)
    {
      assert i < t ==> AtHome(s.disk, h, s.committed, i);
    }
  }

  lemma InstallOneKeeps(g: Geo, s: State, s': State, k: nat, j: nat)
    requires Inv(g, s) && NextStep(g, s, s', InstallOne(k, j))
    ensures Inv(g, s')
  {
    var b, d := s.log.blocks[s.phase.t], s.bufs[k].data;
    assert d == s.committed[b] by {
      LogBlockReads(g, s, k, g.start + 1 + s.phase.t);
      assert Copied(g, s.disk, s.log.blocks, s.committed, s.phase.t);
    }
    InstallOneDisk(g, s, s', b, d);
    forall c
      ensures Pending(s', c) <==> Pending(s, c) && c != b
    {
      PendingAfter(s, s', c);
    }
    HomeBwriteKeeps(g, s, s', j, d);
  }

  lemma EraseMemKeeps(g: Geo, s: State, s': State)
    requires Inv(g, s) && NextStep(g, s, s', EraseMem)
    ensures Inv(g, s')
  {
    forall b: nat | g.Home(b)
      ensures s.disk[b] == s.committed[b]
    {
      DiskIsLatest(g, s, b);
    }
    SameBufsKeep(g, s, s');
    assert s'.disk == s.disk;
  }

  lemma WriteEmptyHeadKeeps(g: Geo, s: State, s': State, k: nat)
    requires Inv(g, s) && NextStep(g, s, s', WriteEmptyHead(k))
    ensures Inv(g, s')
  {
    HeadRoundTrip(s.bufs[k].data, []);
    LogBwriteKeeps(g, s, s', k, PutHead(s.bufs[k].data, []));
  }

  lemma FinishKeeps(g: Geo, s: State, s': State)
    requires Inv(g, s) && NextStep(g, s, s', Finish)
    ensures Inv(g, s')
  {
    forall j | 0 <= j < |s'.bufs|
      ensures BufOk(g, s', s'.bufs[j])
    {
      assert BufOk(g, s, s.bufs[j]);
    }
  }

  lemma IndexUnique(h: seq<nat>, i: nat)
    requires R.Distinct(h) && i < |h|
    ensures IndexIn(h, h[i]) == i
  {
    var j := IndexIn(h, h[i]);
    assert !R.Clash(h, i, j) && !R.Clash(h, j, i);
  }

  /** Main safety property: in every state of the invariant, recovery yields the last committed contents. */
  lemma AlwaysCrashSafe(g: Geo, s: State)
    requires Inv(g, s)
    ensures CrashSafe(g, s)
  {
    var h := HeadOf(s.disk[g.start]);
    forall b: nat | g.Home(b)
      ensures Recovered(g, s.disk, b) == s.committed[b]
    {
      if b in h && (s.phase.Installing? || s.phase.Erasing?) {
        var i := IndexIn(h, b);
        assert Copied(g, s.disk, h, s.committed, i);
      }
    }
  }

  lemma CrashKeeps(g: Geo, s: State, s': State, boot: nat)
    requires Inv(g, s) && NextStep(g, s, s', Crash(boot))
    ensures Inv(g, s')
  {
    AlwaysCrashSafe(g, s);
  }

  lemma HeadCopied(g: Geo, s: State, i: nat)
    requires CrashSafe(g, s) && i < |HeadOf(s.disk[g.start])|
    ensures Copied(g, s.disk, HeadOf(s.disk[g.start]), s.committed, i)
  {
    var h := HeadOf(s.disk[g.start]);
    assert g.Home(h[i]);
    IndexUnique(h, i);
    assert Recovered(g, s.disk, h[i]) == s.committed[h[i]];
  }

  lemma ReadHeadBuf(g: Geo, s: State, s': State, k: nat, j: nat)
    requires Inv(g, s) && NextStep(g, s, s', ReadHead(k)) && j < |s.bufs|
    ensures BufOk(g, s', s'.bufs[j])
  {
    assert BufOk(g, s, s.bufs[j]);
  }

  lemma ReadHeadKeeps(g: Geo, s: State, s': State, k: nat)
    requires Inv(g, s) && NextStep(g, s, s', ReadHead(k))
    ensures Inv(g, s')
  {
    LogBlockReads(g, s, k, g.start);
    var h := HeadOf(s.disk[g.start]);
    forall i: nat | i < |h|
      ensures Copied(g, s.disk, h, s.committed, i)
    {
      HeadCopied(g, s, i);
    }
    forall j: nat | j < |s'.bufs|
      ensures BufOk(g, s', s'.bufs[j])
    {
      ReadHeadBuf(g, s, s', k, j);
    }
  }

  lemma MemoryStepKeeps(g: Geo, s: State, s': State, step: Step)
    requires Inv(g, s) && NextStep(g, s, s', step)
    requires step.Check? || step.LogWrite? || step.Begin? || step.End? || step.Finish? || step.EraseMem?
    ensures Inv(g, s')
  {
    match step
    case Check(p) => CheckKeeps(g, s, s', p);
    case LogWrite(p, i) => LogWriteKeeps(g, s, s', p, i);
    case Begin(p) => BeginKeeps(g, s, s', p);
    case End(p) => EndKeeps(g, s, s', p);
    case EraseMem => EraseMemKeeps(g, s, s');
    case Finish => FinishKeeps(g, s, s');
  }

  lemma CommitStepKeeps(g: Geo, s: State, s': State, step: Step)
    requires Inv(g, s) && NextStep(g, s, s', step) && WithinLog(g, s, step)
    requires step.CopyToLog? || step.WriteHead? || step.InstallOne?
    ensures Inv(g, s')
  {
    match step
    case CopyToLog(k, j) => CopyToLogKeeps(g, s, s', k, j);
    case WriteHead(k) => WriteHeadKeeps(g, s, s', k);
    case InstallOne(k, j) => InstallOneKeeps(g, s, s', k, j);
  }

  lemma RecoveryStepKeeps(g: Geo, s: State, s': State, step: Step)
    requires Inv(g, s) && NextStep(g, s, s', step)
    requires step.WriteEmptyHead? || step.Crash? || step.ReadHead?
    ensures Inv(g, s')
  {
    match step
    case WriteEmptyHead(k) => WriteEmptyHeadKeeps(g, s, s', k);
    case Crash(boot) => CrashKeeps(g, s, s', boot);
    case ReadHead(k) => ReadHeadKeeps(g, s, s', k);
  }

  lemma NextKeeps(g: Geo, s: State, s': State, step: Step)
    requires Inv(g, s) && NextStep(g, s, s', step) && WithinLog(g, s, step)
    ensures Inv(g, s')
  {
    if step.Check? || step.LogWrite? || step.Begin? || step.End? || step.Finish? || step.EraseMem? {
      MemoryStepKeeps(g, s, s', step);
    } else if step.CopyToLog? || step.WriteHead? || step.InstallOne? {
      CommitStepKeeps(g, s, s', step);
    } else if step.WriteEmptyHead? || step.Crash? || step.ReadHead? {
      RecoveryStepKeeps(g, s, s', step);
    } else {
      BufStepKeeps(g, s, s', step);
    }
  }

  // ---- when the header has a log block for every entry ----

  function Blocknos(bufs: seq<Buf>): (s: seq<int>)
    ensures |s| == |bufs| && forall i :: 0 <= i < |s| ==> s[i] == bufs[i].blockno
  {
    seq(|bufs|, i requires 0 <= i < |bufs| => bufs[i].blockno)
  }

  lemma HeaderSize(h: seq<nat>)
    requires R.Distinct(h)
    ensures |Elements(h)| == |h|
  {
    forall i: nat, j: nat | i < j < |h|
      ensures h[i] != h[j]
    {
      assert !R.Clash(h, i, j);
    }
    NoRepeatSize(h);
  }

  /** Every entry pins a buffer of its own. */
  lemma EntriesPinBuffers(g: Geo, s: State)
    requires Inv(g, s) && !s.recovering && Installed(s) == []
    ensures Elements(s.log.blocks) <= Elements(Blocknos(s.bufs)) && |s.log.blocks| <= |s.bufs|
  {
    var h, bs := s.log.blocks, Blocknos(s.bufs);
    forall b | b in h
      ensures b in bs
    {
      assert Pending(s, b);
      var i :| PinnedAt(s, b, i);
      assert bs[i] == b;
    }
    HeaderSize(h);
    ElementsSize(bs);
    SubsetSize(Elements(h), Elements(bs));
  }

  /** So with one more buffer in use for another block there are fewer entries than buffers. */
  lemma EntriesBelowBuffers(g: Geo, s: State, k: nat)
    requires Inv(g, s) && !s.recovering && Installed(s) == [] && k < |s.bufs| && s.bufs[k].blockno !in s.log.blocks
    ensures |s.log.blocks| < |s.bufs|
  {
    var h, bs := s.log.blocks, Blocknos(s.bufs);
    EntriesPinBuffers(g, s);
    HeaderSize(h);
    ElementsSize(bs);
    var pinned := set b: int | b in h;
    assert pinned == Elements(h) && bs[k] !in pinned;
    SubsetSize(pinned + {bs[k]}, Elements(bs));
  }

  /** The log has room for no entry, or the cache has no buffer to write past the end of log or array. */
  ghost predicate Ample(g: Geo, nbuf: nat) { g.size == 1 || (nbuf <= g.size && nbuf <= LOGSIZE) }

  /** The cache is too small for a header that is too long: none of its blocks can be copied. */
  ghost predicate CacheFits(g: Geo, s: State) {
    && 2 <= g.size && |s.bufs| <= g.size && |s.bufs| <= LOGSIZE
    && (s.phase.Logging? && s.phase.t > 0 ==> |s.log.blocks| < |s.bufs|)
  }

  /** Calls of at most m blocks cannot fill a log of so many. */
  predicate BudgetOk(g: Geo, m: nat) { m <= MAXOPBLOCKS && R.Peak(m) < g.size }

  /** Calls have kept to m blocks since the last recovery. */
  ghost predicate Kept(s: State, m: nat) { s.recovering || R.Inv(s.log, m) }

  ghost predicate BudgetFits(g: Geo, s: State, m: nat) { BudgetOk(g, m) && Kept(s, m) }

  /** One of the three reasons why no log block is written past the end of the log. */
  ghost predicate Fits(g: Geo, s: State) {
    R.Alone(s.log, g.size) || CacheFits(g, s) || exists m: nat :: BudgetFits(g, s, m)
  }

  lemma CacheInArray(g: Geo, s: State)
    requires Inv(g, s) && CacheFits(g, s)
    ensures |s.log.blocks| <= LOGSIZE
  {
    if s.phase.Idle? || s.phase.Logging? {
      EntriesPinBuffers(g, s);
    }
  }

  lemma FitsInArray(g: Geo, s: State)
    requires Inv(g, s) && Fits(g, s)
    ensures |s.log.blocks| <= LOGSIZE && (!CacheFits(g, s) ==> |s.log.blocks| < g.size)
  {
    if CacheFits(g, s) {
      CacheInArray(g, s);
    } else if m: nat :| BudgetFits(g, s, m) {
      if !s.recovering {
        R.AppendHasRoom(s.log, 0, 0, m);
      }
    }
  }

  lemma FitsWithin(g: Geo, s: State, s': State, step: Step)
    requires Inv(g, s) && Fits(g, s) && NextStep(g, s, s', step)
    ensures WithinLog(g, s, step)
  {
    FitsInArray(g, s);
  }

  lemma StepBuffers(g: Geo, s: State, s': State, step: Step)
    requires NextStep(g, s, s', step)
    ensures |s'.bufs| == |s.bufs|
  {
  }

  /**
    The copy of the first block takes a buffer, so the entries are fewer than the buffers, and these no more than the
    log.
  */
  lemma CacheFitsKeeps(g: Geo, s: State, s': State, step: Step)
    requires Inv(g, s) && CacheFits(g, s) && NextStep(g, s, s', step)
    ensures CacheFits(g, s')
  {
    StepBuffers(g, s, s', step);
    if step.CopyToLog? && s.phase.t == 0 {
      EntriesBelowBuffers(g, s, step.k);
    }
  }

  lemma AloneKeeps(g: Geo, s: State, s': State, step: Step)
    requires Inv(g, s) && R.Alone(s.log, g.size) && NextStep(g, s, s', step)
    requires g.size == 1 || (step.Check? ==> s.log.checked == {})
    ensures R.Alone(s'.log, g.size)
  {
    if step.ReadHead? {
      LogBlockReads(g, s, step.k, g.start);
    }
  }

  /** No call logs more than m distinct blocks by this step. */
  predicate StepWithin(s: State, step: Step, m: nat) {
    step.LogWrite? && step.i < |s.bufs| && s.bufs[step.i].blockno >= 0 ==>
      R.WithinBudget(s.log, step.p, s.bufs[step.i].blockno, m)
  }

  lemma OtherStepKept(g: Geo, s: State, s': State, step: Step, m: nat)
    requires Inv(g, s) && Kept(s, m) && NextStep(g, s, s', step) && !step.Begin? && !step.LogWrite? && !step.End?
    ensures Kept(s', m)
  {
  }

  lemma BudgetKeeps(g: Geo, s: State, s': State, step: Step, m: nat)
    requires Inv(g, s) && Kept(s, m) && NextStep(g, s, s', step) && StepWithin(s, step, m)
    ensures Kept(s', m)
  {
    if step.Begin? {
      R.BeginKeeps(s.log, s'.log, step.p, m);
    } else if step.LogWrite? {
      R.AppendKeeps(s.log, s'.log, step.p, s.bufs[step.i].blockno, m);
    } else if step.End? {
      R.EndKeeps(s.log, s'.log, step.p, m);
    } else {
      OtherStepKept(g, s, s', step, m);
    }
  }

  // ---- whole runs ----

  /** Power on: an empty cache and any disk whose log header recovery can follow. */
  ghost predicate Init(g: Geo, s: State) {
    && s == State(s.disk, s.bufs, R.State([], map[], true, {}), Rebooted, s.who, true, s.committed, s.committed)
    && (forall i :: 0 <= i < |s.bufs| ==> s.bufs[i] == EmptyBuf())
    && CrashSafe(g, s)
  }

  ghost predicate IsRun(g: Geo, run: seq<State>, steps: seq<Step>) {
    && |run| == |steps| + 1
    && Init(g, run[0])
    && forall i :: 0 <= i < |steps| ==> NextStep(g, run[i], run[i + 1], steps[i])
  }

  lemma {:induction false} BuffersStay(g: Geo, run: seq<State>, steps: seq<Step>, i: nat)
    requires IsRun(g, run, steps) && i < |run|
    ensures |run[i].bufs| == |run[0].bufs|
  {
    if i > 0 {
      var h := i - 1;
      BuffersStay(g, run, steps, h);
      StepBuffers(g, run[h], run[h + 1], steps[h]);
    }
  }

  /** No call passes the guard of log_write while another is between guard and append. */
  ghost predicate TakeTurns(run: seq<State>, steps: seq<Step>) {
    |run| == |steps| + 1 && forall i :: 0 <= i < |steps| ==> (steps[i].Check? ==> run[i].log.checked == {})
  }

  /** No call logs more than m distinct blocks. */
  ghost predicate Budgeted(run: seq<State>, steps: seq<Step>, m: nat) {
    |run| == |steps| + 1 && forall i :: 0 <= i < |steps| ==> StepWithin(run[i], steps[i], m)
  }

  /**
    Any interleaving of calls of any number of blocks over an ample log. Over another, calls take turns; or they keep to
    a budget that cannot fill the log, as MAXOPBLOCKS cannot fill one of more than LOGSIZE blocks.
  */
  ghost predicate OrderlyRun(g: Geo, run: seq<State>, steps: seq<Step>) {
    && IsRun(g, run, steps)
    && (|| Ample(g, |run[0].bufs|)
        || TakeTurns(run, steps)
        || exists m: nat :: BudgetOk(g, m) && Budgeted(run, steps, m))
  }

  /** One of the three reasons, and it lasts. */
  ghost predicate FitsAlong(g: Geo, run: seq<State>, steps: seq<Step>, s: State) {
    || CacheFits(g, s)
    || (R.Alone(s.log, g.size) && (g.size == 1 || TakeTurns(run, steps)))
    || (exists m: nat :: BudgetFits(g, s, m) && Budgeted(run, steps, m))
  }

  lemma FitsStart(g: Geo, run: seq<State>, steps: seq<Step>)
    requires OrderlyRun(g, run, steps)
    ensures FitsAlong(g, run, steps, run[0])
  {
    if m: nat :| BudgetOk(g, m) && Budgeted(run, steps, m) {
      assert BudgetFits(g, run[0], m);
    }
  }

  lemma FitsKeeps(g: Geo, run: seq<State>, steps: seq<Step>, h: nat, i: nat)
    requires IsRun(g, run, steps) && h < |steps| && i == h + 1 && Inv(g, run[h]) && FitsAlong(g, run, steps, run[h])
    ensures FitsAlong(g, run, steps, run[i])
  {
    assert NextStep(g, run[h], run[i], steps[h]);
    if CacheFits(g, run[h]) {
      CacheFitsKeeps(g, run[h], run[i], steps[h]);
    } else if m: nat :| BudgetFits(g, run[h], m) && Budgeted(run, steps, m) {
      BudgetKeeps(g, run[h], run[i], steps[h], m);
    } else {
      AloneKeeps(g, run[h], run[i], steps[h]);
    }
  }

  lemma {:induction false} RunFits(g: Geo, run: seq<State>, steps: seq<Step>, i: nat)
    requires OrderlyRun(g, run, steps) && i < |run|
    ensures Inv(g, run[i]) && FitsAlong(g, run, steps, run[i])
  {
    if i == 0 {
      FitsStart(g, run, steps);
    } else {
      var h := i - 1;
      RunFits(g, run, steps, h);
      assert NextStep(g, run[h], run[i], steps[h]);
      FitsWithin(g, run[h], run[i], steps[h]);
      FitsKeeps(g, run, steps, h, i);
      NextKeeps(g, run[h], run[i], steps[h]);
    }
  }

  lemma {:induction false} RunKeepsBudget(g: Geo, run: seq<State>, steps: seq<Step>, m: nat, i: nat)
    requires OrderlyRun(g, run, steps) && Budgeted(run, steps, m) && i < |run|
    ensures Kept(run[i], m)
  {
    if i > 0 {
      var h := i - 1;
      RunKeepsBudget(g, run, steps, m, h);
      RunFits(g, run, steps, h);
      BudgetKeeps(g, run[h], run[i], steps[h], m);
    }
  }

  /** The header is inside its array, and whatever happens next recovery yields exactly the last committed contents. */
  ghost predicate Safe(g: Geo, s: State) { |s.log.blocks| <= LOGSIZE && CrashSafe(g, s) }

  /** In every state of such a run the invariant holds and the header is inside its array. */
  lemma RunInv(g: Geo, run: seq<State>, steps: seq<Step>, i: nat)
    requires OrderlyRun(g, run, steps) && i < |run|
    ensures Inv(g, run[i]) && |run[i].log.blocks| <= LOGSIZE
  {
    RunFits(g, run, steps, i);
    FitsInArray(g, run[i]);
  }

  /** The header write is the only commit point, and it never includes part of an operation. */
  lemma CommitPoint(g: Geo, s: State, s': State, step: Step)
    requires Inv(g, s) && NextStep(g, s, s', step)
    ensures if step.WriteHead? then s'.committed == s.latest && s.log.ops == map[] else s'.committed == s.committed
  {
  }

  lemma CommitPointAt(g: Geo, run: seq<State>, steps: seq<Step>, k: nat, n: nat)
    requires OrderlyRun(g, run, steps) && k < |steps| && n == k + 1
    ensures if steps[k].WriteHead? then run[n].committed == run[k].latest && run[k].log.ops == map[]
            else run[n].committed == run[k].committed
  {
    RunInv(g, run, steps, k);
    CommitPoint(g, run[k], run[n], steps[k]);
  }

  lemma {:induction false} CommittedStays(g: Geo, run: seq<State>, steps: seq<Step>, i: nat, j: nat)
    requires OrderlyRun(g, run, steps) && i <= j < |run|
    requires forall k :: i <= k < j ==> !steps[k].WriteHead?
    ensures run[j].committed == run[i].committed
  {
    if i < j {
      var h := j - 1;
      CommittedStays(g, run, steps, i, h);
      CommitPointAt(g, run, steps, h, j);
    }
  }

  lemma RecoversCommitted(g: Geo, run: seq<State>, steps: seq<Step>, i: nat, b: nat)
    requires OrderlyRun(g, run, steps) && i < |run| && g.Home(b)
    ensures CrashSafe(g, run[i]) && |run[i].latest| == g.dsize && Recovered(g, run[i].disk, b) == run[i].committed[b]
  {
    RunInv(g, run, steps, i);
    AlwaysCrashSafe(g, run[i]);
  }

  /** What is committed is what had been logged at the last header write. */
  lemma SinceHead(g: Geo, run: seq<State>, steps: seq<Step>, k: nat, j: nat)
    requires OrderlyRun(g, run, steps) && k < j < |run| && steps[k].WriteHead?
    requires forall m :: k < m < j ==> !steps[m].WriteHead?
    ensures run[j].committed == run[k].latest && |run[k].latest| == g.dsize && run[k].log.ops == map[]
  {
    RunInv(g, run, steps, k);
    CommitPointAt(g, run, steps, k, k + 1);
    CommittedStays(g, run, steps, k + 1, j);
  }

  /**
    Crash atomicity. Take any stretch of any run, with crashes and restarts of recovery anywhere. Without a
    header write recovery yields the same contents from its last disk as from its first; with exactly one,
    in step k, it yields every home block as it was logged before that step.
  */
  lemma CrashAtomicity(g: Geo, run: seq<State>, steps: seq<Step>, i: nat, j: nat, b: nat)
    requires OrderlyRun(g, run, steps) && i <= j < |run| && g.Home(b)
    ensures CrashSafe(g, run[i]) && CrashSafe(g, run[j]) && |run[i].latest| == g.dsize
    ensures (forall k :: i <= k < j ==> !steps[k].WriteHead?) ==>
              Recovered(g, run[j].disk, b) == Recovered(g, run[i].disk, b)
    ensures forall k :: i <= k < j && steps[k].WriteHead? && (forall m :: k < m < j ==> !steps[m].WriteHead?) ==>
              |run[k].latest| == g.dsize && Recovered(g, run[j].disk, b) == run[k].latest[b] && run[k].log.ops == map[]
  {
    RecoversCommitted(g, run, steps, i, b);
    RecoversCommitted(g, run, steps, j, b);
    if forall k :: i <= k < j ==> !steps[k].WriteHead? {
      CommittedStays(g, run, steps, i, j);
    }
    forall k | i <= k < j && steps[k].WriteHead? && (forall m :: k < m < j ==> !steps[m].WriteHead?)
      ensures |run[k].latest| == g.dsize && Recovered(g, run[j].disk, b) == run[k].latest[b] && run[k].log.ops == map[]
    {
      SinceHead(g, run, steps, k, j);
    }
  }

  /** A finished recovery leaves the committed contents at home and an empty header on disk. */
  lemma RecoveryFinishes(g: Geo, s: State, s': State, b: nat)
    requires Inv(g, s) && s.recovering && NextStep(g, s, s', Finish) && g.Home(b)
    ensures s'.disk[b] == s'.committed[b] == s'.latest[b] && HeadOf(s'.disk[g.start]) == []
  {
  }

  /** bread returns the contents last logged, or committed if nothing was logged since. */
  lemma ReadsLatest(g: Geo, run: seq<State>, steps: seq<Step>, i: nat, k: nat)
    requires OrderlyRun(g, run, steps) && i < |run| && k < |run[i].bufs|
    requires var buf := run[i].bufs[k]; buf.valid && g.Home(buf.blockno) && !buf.mod && !run[i].recovering
    ensures run[i].bufs[k].blockno < |run[i].latest| && run[i].bufs[k].data == run[i].latest[run[i].bufs[k].blockno]
  {
    RunInv(g, run, steps, i);
    assert BufOk(g, run[i], run[i].bufs[k]);
  }

  /** No block is in two buffers. */
  lemma CachedOnce(g: Geo, run: seq<State>, steps: seq<Step>, i: nat, j: nat, k: nat)
    requires OrderlyRun(g, run, steps) && i < |run| && j < |run[i].bufs| && k < |run[i].bufs| && j != k
    requires run[i].bufs[j].blockno != NOBLOCK
    ensures run[i].bufs[j].blockno != run[i].bufs[k].blockno
  {
    RunInv(g, run, steps, i);
  }

  /** The buffer of a logged block that is not yet installed is never recycled. */
  lemma PinnedNotRecycled(g: Geo, s: State, s': State, p: nat, i: nat, b: nat)
    requires Inv(g, s) && NextStep(g, s, s', Miss(p, i, b)) && !s.recovering
    ensures !Pending(s, s.bufs[i].blockno)
  {
    if Pending(s, s.bufs[i].blockno) {
      PendingIsDirty(g, s, i);
    }
  }

  lemma HomeWrite(g: Geo, s: State, s': State, step: Step, b: nat)
    requires Inv(g, s) && NextStep(g, s, s', step) && WithinLog(g, s, step) && g.Home(b)
    ensures |s'.disk| == |s.disk|
    ensures s'.disk[b] != s.disk[b] ==> s'.disk[b] == s.committed[b] && step.InstallOne?
  {
    if step.InstallOne? {
      LogBlockReads(g, s, step.k, g.start + 1 + s.phase.t);
      assert Copied(g, s.disk, s.log.blocks, s.committed, s.phase.t);
    }
  }

  /** Only committed data ever reaches a home location. */
  lemma HomeWritesCommitted(g: Geo, run: seq<State>, steps: seq<Step>, i: nat, j: nat, b: nat)
    requires OrderlyRun(g, run, steps) && i < |steps| && j == i + 1 && g.Home(b)
    ensures |run[j].disk| == |run[i].disk| == |run[i].committed| == g.dsize
    ensures run[j].disk[b] != run[i].disk[b] ==> run[j].disk[b] == run[i].committed[b] && steps[i].InstallOne?
  {
    RunFits(g, run, steps, i);
    FitsWithin(g, run[i], run[j], steps[i]);
    HomeWrite(g, run[i], run[j], steps[i], b);
  }
}
