/**
  The space reservation protocol of log.c, taken by any number of concurrent file system calls in any order.
  begin_op, end_op and the end of a commit are steps under log.lock. log_write is two steps: its guard reads the
  header without the lock, and other calls may run before it takes the lock and records its block.
*/
module LogReserve {
  import opened Param
  import opened Sets

  /**
    `blocks` is lh.block[0..lh.n]; `ops` maps each outstanding call to the distinct blocks it has logged; `checked`
    are the calls that have passed the guard of log_write and not yet recorded their block.
  */
  datatype State = State(blocks: seq<nat>, ops: map<nat, set<nat>>, committing: bool, checked: set<nat>)

  const Init: State := State([], map[], false, {})

  /** log_write's loop: find the block in the header (absorption) or append it. */
  function Absorb(blocks: seq<nat>, b: nat): seq<nat> {
    if b in blocks then blocks else blocks + [b]
  }

  /** The guard of log_write; size is log.size, the header block included. */
  predicate TooBig(s: State, size: nat) { |s.blocks| >= LOGSIZE || |s.blocks| + 1 >= size }

  predicate BeginOp(s: State, s': State, p: nat) {
    && p !in s.ops
    && !s.committing
    && |s.blocks| + (|s.ops| + 1) * MAXOPBLOCKS <= LOGSIZE
    && s' == s.(ops := s.ops[p := {}])
  }

  /** The kernel goes on only without a panic. */
  predicate Check(s: State, s': State, p: nat, size: nat) {
    p in s.ops && p !in s.checked && !TooBig(s, size) && s' == s.(checked := s.checked + {p})
  }

  /** The call records b, whatever it has logged before. */
  predicate Append(s: State, s': State, p: nat, b: nat) {
    && p in s.checked && p in s.ops
    && s' == s.(blocks := Absorb(s.blocks, b), ops := s.ops[p := s.ops[p] + {b}], checked := s.checked - {p})
  }

  predicate EndOp(s: State, s': State, p: nat) {
    && p in s.ops && p !in s.checked
    && s' == State(s.blocks, s.ops - {p}, s.ops - {p} == map[], s.checked)
  }

  /** commit() empties the header in memory, and end_op then ends the commit. */
  predicate Erase(s: State, s': State) { s.committing && s' == s.(blocks := []) }

  predicate Finish(s: State, s': State) { s.committing && s.blocks == [] && s' == s.(committing := false) }

  predicate WithinBudget(s: State, p: nat, b: nat, m: nat) { p in s.ops && |s.ops[p] + {b}| <= m }

  /** One step of some call, when no call logs more than m distinct blocks. */
  ghost predicate Next(s: State, s': State, size: nat, m: nat) {
    || (exists p :: BeginOp(s, s', p))
    || (exists p :: Check(s, s', p, size))
    || (exists p, b :: Append(s, s', p, b) && WithinBudget(s, p, b, m))
    || (exists p :: EndOp(s, s', p))
    || Erase(s, s')
    || Finish(s, s')
  }

  /** A run: some interleaving of the calls, one state per step. */
  ghost predicate IsRun(run: seq<State>, size: nat, m: nat) {
    && |run| > 0
    && run[0] == Init
    && forall i :: 0 < i < |run| ==> Next(run[i - 1], run[i], size, m)
  }

  function Last(run: seq<State>): State
    requires |run| > 0
  {
    run[|run| - 1]
  }

  lemma Extend(run: seq<State>, s: State, size: nat, m: nat)
    requires IsRun(run, size, m) && Next(Last(run), s, size, m)
    ensures IsRun(run + [s], size, m) && Last(run + [s]) == s
  {
  }

  // ---- unspent reservations ----

  function Unspent(done: set<nat>, m: nat): int { m - |done| }

  ghost function Total(ops: map<nat, set<nat>>, m: nat): int
    decreases |ops.Keys|
  {
    if ops == map[] then 0
    else
      var p :| p in ops;
      Unspent(ops[p], m) + Total(ops - {p}, m)
  }

  /** What n calls may log. */
  function Budget(n: nat, m: nat): nat { if n == 0 then 0 else m + Budget(n - 1, m) }

  lemma {:induction false} TotalRemove(ops: map<nat, set<nat>>, p: nat, m: nat)
    requires p in ops
    ensures Total(ops, m) == Unspent(ops[p], m) + Total(ops - {p}, m)
    decreases |ops.Keys|
  {
    var q :| q in ops && Total(ops, m) == Unspent(ops[q], m) + Total(ops - {q}, m);
    if q != p {
      TotalRemove(ops - {q}, p, m);
      TotalRemove(ops - {p}, q, m);
      assert ops - {q} - {p} == ops - {p} - {q};
    }
  }

  lemma TotalPut(ops: map<nat, set<nat>>, p: nat, done: set<nat>, m: nat)
    ensures Total(ops[p := done], m) == Unspent(done, m) + Total(ops - {p}, m)
  {
    TotalRemove(ops[p := done], p, m);
    assert ops[p := done] - {p} == ops - {p};
  }

  lemma {:induction false} TotalAtMost(ops: map<nat, set<nat>>, m: nat)
    requires forall p :: p in ops ==> |ops[p]| <= m
    ensures 0 <= Total(ops, m) <= Budget(|ops|, m)
    decreases |ops.Keys|
  {
    if ops != map[] {
      var p :| p in ops;
      TotalRemove(ops, p, m);
      TotalAtMost(ops - {p}, m);
      assert ops.Keys == (ops - {p}).Keys + {p};
      assert |ops| == |ops - {p}| + 1;
    }
  }

  // ---- the invariant ----

  predicate Clash(s: seq<nat>, i: nat, j: nat) { i < j < |s| && s[i] == s[j] }

  /** No block number occurs twice. */
  ghost predicate Distinct(s: seq<nat>) { forall i: nat, j: nat :: !Clash(s, i, j) }

  lemma AbsorbDistinct(s: seq<nat>, b: nat)
    requires Distinct(s)
    ensures Distinct(Absorb(s, b))
  {
    forall i: nat, j: nat
      ensures !Clash(Absorb(s, b), i, j)
    {
      assert !Clash(s, i, j);
    }
  }

  /** What holds however many blocks the calls log. */
  ghost predicate Core(s: State) {
    && Distinct(s.blocks)
    && (forall p :: p in s.ops ==> forall b :: b in s.ops[p] ==> b in s.blocks)
    && (forall p :: p in s.checked ==> p in s.ops)
    && (s.committing ==> s.ops == map[])
    && (s.ops == map[] && !s.committing ==> s.blocks == [])
  }

  lemma AppendKeepsCore(s: State, s': State, p: nat, b: nat)
    requires Core(s) && Append(s, s', p, b)
    ensures Core(s')
  {
    AbsorbDistinct(s.blocks, b);
    assert p in s'.ops;
  }

  lemma NextKeepsCore(s: State, s': State, size: nat, m: nat)
    requires Core(s) && Next(s, s', size, m)
    ensures Core(s')
  {
    if p :| BeginOp(s, s', p) {
      assert p in s'.ops;
    } else if p, b :| Append(s, s', p, b) && WithinBudget(s, p, b, m) {
      AppendKeepsCore(s, s', p, b);
    }
  }

  lemma {:induction false} CoreHolds(run: seq<State>, size: nat, m: nat)
    requires IsRun(run, size, m)
    ensures Core(Last(run))
    decreases |run|
  {
    if |run| > 1 {
      var r := run[..|run| - 1];
      CoreHolds(r, size, m);
      NextKeepsCore(Last(r), Last(run), size, m);
    }
  }

  /** In every run, no call is outstanding while a commit runs, so end_op's own panic is never reached. */
  lemma CommitExcludesOps(run: seq<State>, size: nat, m: nat, p: nat)
    requires IsRun(run, size, m)
    ensures p in Last(run).ops ==> !Last(run).committing
  {
    CoreHolds(run, size, m);
  }

  /**
    The most blocks that the calls outstanding together can log, when none logs more than m: LOGSIZE for MAXOPBLOCKS.
  */
  function Peak(m: nat): nat { if m <= MAXOPBLOCKS then MAXOPBLOCKS + 2 * m else 3 * m }

  ghost predicate Inv(s: State, m: nat) {
    Core(s) && (forall p :: p in s.ops ==> |s.ops[p]| <= m) && |s.blocks| + Total(s.ops, m) <= Peak(m)
  }

  /** What begin_op's test leaves room for, when a first call finds an empty header. */
  lemma BeginRoom(n: nat, calls: nat, m: nat)
    requires n + (calls + 1) * MAXOPBLOCKS <= LOGSIZE && (calls == 0 ==> n == 0)
    ensures n + m + Budget(calls, m) <= Peak(m)
  {
    if calls == 1 {
      assert Budget(1, m) == m + Budget(0, m);
    } else if calls == 2 {
      assert Budget(2, m) == m + Budget(1, m) && Budget(1, m) == m + Budget(0, m);
    }
  }

  lemma BeginKeeps(s: State, s': State, p: nat, m: nat)
    requires Inv(s, m) && BeginOp(s, s', p)
    ensures Inv(s', m)
  {
    if |s.ops| == 0 {
      assert s.ops == map[];
    }
    TotalAtMost(s.ops, m);
    BeginRoom(|s.blocks|, |s.ops|, m);
    TotalPut(s.ops, p, {}, m);
    assert s.ops - {p} == s.ops;
    assert p in s'.ops;
  }

  lemma AppendKeeps(s: State, s': State, p: nat, b: nat, m: nat)
    requires Inv(s, m) && Append(s, s', p, b) && WithinBudget(s, p, b, m)
    ensures Inv(s', m)
  {
    AppendKeepsCore(s, s', p, b);
    TotalRemove(s.ops, p, m);
    TotalPut(s.ops, p, s.ops[p] + {b}, m);
    if b in s.ops[p] {
      assert s.ops[p] + {b} == s.ops[p];
    }
    assert p in s'.ops;
  }

  lemma EndKeeps(s: State, s': State, p: nat, m: nat)
    requires Inv(s, m) && EndOp(s, s', p)
    ensures Inv(s', m)
  {
    TotalRemove(s.ops, p, m);
  }

  lemma NextKeeps(s: State, s': State, size: nat, m: nat)
    requires Inv(s, m) && Next(s, s', size, m)
    ensures Inv(s', m)
  {
    if p :| BeginOp(s, s', p) {
      BeginKeeps(s, s', p, m);
    } else if p, b :| Append(s, s', p, b) && WithinBudget(s, p, b, m) {
      AppendKeeps(s, s', p, b, m);
    } else if p :| EndOp(s, s', p) {
      EndKeeps(s, s', p, m);
    }
  }

  /** For every interleaving, header entries are distinct and n plus all unspent reservations is at most Peak(m). */
  lemma {:induction false} ReservationHolds(run: seq<State>, size: nat, m: nat)
    requires IsRun(run, size, m)
    ensures Inv(Last(run), m) && |Last(run).blocks| + Total(Last(run).ops, m) <= Peak(m)
    decreases |run|
  {
    if |run| > 1 {
      var r := run[..|run| - 1];
      ReservationHolds(r, size, m);
      NextKeeps(Last(r), Last(run), size, m);
    }
  }

  /** n never exceeds Peak(m), and is below it before an append within budget. */
  lemma AppendHasRoom(s: State, p: nat, b: nat, m: nat)
    requires Inv(s, m)
    ensures |s.blocks| <= Peak(m)
    ensures WithinBudget(s, p, b, m) && b !in s.blocks ==> |s.blocks| < Peak(m)
  {
    TotalAtMost(s.ops, m);
    if WithinBudget(s, p, b, m) && b !in s.blocks {
      TotalRemove(s.ops, p, m);
      assert b !in s.ops[p];
      TotalAtMost(s.ops - {p}, m);
    }
  }

  /** Where the guard of log_write draws the line: no call passes it with so many entries. */
  function Limit(size: nat): nat { if size > LOGSIZE then LOGSIZE else if size > 0 then size - 1 else 0 }

  /** At most three calls are outstanding, and those past the guard may still take the header two past the line. */
  ghost predicate NearFull(s: State, size: nat) {
    |s.ops| <= 3 && s.checked <= s.ops.Keys && |s.blocks| + |s.checked| <= Limit(size) + 2
  }

  lemma CheckNearFull(s: State, s': State, p: nat, size: nat)
    requires NearFull(s, size) && Check(s, s', p, size)
    ensures NearFull(s', size)
  {
    SubsetSize(s'.checked, s.ops.Keys);
  }

  lemma AppendNearFull(s: State, s': State, p: nat, b: nat, size: nat)
    requires NearFull(s, size) && Append(s, s', p, b)
    ensures NearFull(s', size)
  {
    assert s'.ops.Keys == s.ops.Keys;
  }

  lemma EndNearFull(s: State, s': State, p: nat, size: nat)
    requires NearFull(s, size) && EndOp(s, s', p)
    ensures NearFull(s', size)
  {
    assert s'.ops.Keys == s.ops.Keys - {p};
  }

  lemma NearFullStep(s: State, s': State, size: nat, m: nat)
    requires NearFull(s, size) && Next(s, s', size, m)
    ensures NearFull(s', size)
  {
    if p :| Check(s, s', p, size) {
      CheckNearFull(s, s', p, size);
    } else if p, b :| Append(s, s', p, b) && WithinBudget(s, p, b, m) {
      AppendNearFull(s, s', p, b, size);
    } else if p :| EndOp(s, s', p) {
      EndNearFull(s, s', p, size);
    }
  }

  /** However many blocks the calls log, n never exceeds that line by more than two. */
  lemma {:induction false} GuardHolds(run: seq<State>, size: nat, m: nat)
    requires IsRun(run, size, m)
    ensures NearFull(Last(run), size)
    decreases |run|
  {
    if |run| > 1 {
      var r := run[..|run| - 1];
      GuardHolds(r, size, m);
      NearFullStep(Last(r), Last(run), size, m);
    }
  }

  // ---- when the log area is large enough ----

  /** At most one call is between its guard and its append, and it still has an entry and a log block to write to. */
  ghost predicate Alone(s: State, size: nat) {
    && |s.blocks| < size && |s.blocks| <= LOGSIZE
    && forall p :: p in s.checked ==> s.checked == {p} && |s.blocks| + 1 < size && |s.blocks| < LOGSIZE
  }

  /**
    In every run where no call passes the guard while another is between the two, n stays below size and in its array.
  */
  lemma {:induction false} TurnsKeepRoom(run: seq<State>, size: nat, m: nat)
    requires IsRun(run, size, m) && size >= 1
    requires forall i, p, q :: 0 <= i < |run| && p in run[i].checked && q in run[i].checked ==> p == q
    ensures Alone(Last(run), size)
    decreases |run|
  {
    if |run| > 1 {
      var r := run[..|run| - 1];
      TurnsKeepRoom(r, size, m);
      var s, s' := Last(r), Last(run);
      assert Next(s, s', size, m);
      forall p | p in s'.checked
        ensures s'.checked == {p}
      {
        assert run[|run| - 1] == s';
      }
    }
  }

  // ---- the longest headers ----

  function Count(k: nat): (s: seq<nat>)
    ensures |s| == k && forall i :: 0 <= i < k ==> s[i] == 100 + i
  {
    if k == 0 then [] else Count(k - 1) + [100 + k - 1]
  }

  /** Call 0 is outstanding with nothing logged; short calls have logged k blocks. */
  function Early(k: nat): State { State(Count(k), map[0 := {}], false, {}) }

  /** The blocks from 100 + k on, j of them, that call p of two has logged by turns. */
  function Turns(k: nat, j: nat, p: nat): set<nat> {
    if j == 0 then {} else if (j - 1) % 2 == p then Turns(k, j - 1, p) + {100 + k + j - 1} else Turns(k, j - 1, p)
  }

  /** After k blocks of short calls, calls 0 and 1 have logged j more by turns. */
  function Late(k: nat, j: nat): State {
    State(Count(k + j), map[0 := Turns(k, j, 0), 1 := Turns(k, j, 1)], false, {})
  }

  lemma {:induction false} TurnsSize(k: nat, j: nat, p: nat)
    requires p < 2
    ensures 2 * |Turns(k, j, p)| <= j + 1 - p && forall b :: b in Turns(k, j, p) ==> 100 + k <= b < 100 + k + j
    ensures p == 0 && j > 0 ==> 100 + k in Turns(k, j, p)
  {
    if j > 0 {
      var h := j - 1;
      TurnsSize(k, h, p);
      var q := h / 2;
      assert h == 2 * q + h % 2;
    }
  }

  lemma StepTo(run: seq<State>, s: State, size: nat, m: nat) returns (run': seq<State>)
    requires IsRun(run, size, m) && Next(Last(run), s, size, m)
    ensures IsRun(run', size, m) && Last(run') == s
  {
    Extend(run, s, size, m);
    run' := run + [s];
  }

  lemma PassGuard(run: seq<State>, s: State, p: nat, size: nat, m: nat) returns (run': seq<State>, s': State)
    requires IsRun(run, size, m) && s == Last(run) && p in s.ops && p !in s.checked && !TooBig(s, size)
    ensures IsRun(run', size, m) && s' == Last(run') == s.(checked := s.checked + {p})
  {
    s' := s.(checked := s.checked + {p});
    assert Check(s, s', p, size);
    run' := StepTo(run, s', size, m);
  }

  lemma Record(run: seq<State>, s: State, p: nat, b: nat, size: nat, m: nat) returns (run': seq<State>, s': State)
    requires IsRun(run, size, m) && s == Last(run) && p in s.checked && WithinBudget(s, p, b, m)
    ensures IsRun(run', size, m) && s' == Last(run')
    ensures s' == State(Absorb(s.blocks, b), s.ops[p := s.ops[p] + {b}], s.committing, s.checked - {p})
  {
    s' := State(Absorb(s.blocks, b), s.ops[p := s.ops[p] + {b}], s.committing, s.checked - {p});
    assert Append(s, s', p, b);
    run' := StepTo(run, s', size, m);
  }

  /** A call logs block b: its guard, then its append. */
  lemma Logs(run: seq<State>, s: State, p: nat, b: nat, size: nat, m: nat) returns (run': seq<State>)
    requires IsRun(run, size, m) && s == Last(run) && s.checked == {} && !TooBig(s, size) && WithinBudget(s, p, b, m)
    ensures IsRun(run', size, m)
    ensures Last(run') == State(Absorb(s.blocks, b), s.ops[p := s.ops[p] + {b}], s.committing, {})
  {
    var s1;
    run', s1 := PassGuard(run, s, p, size, m);
    run', s1 := Record(run', s1, p, b, size, m);
    assert {} + {p} - {p} == s.checked;
  }

  lemma {:induction false} EarlyRun(k: nat, size: nat, m: nat) returns (run: seq<State>)
    requires k <= MAXOPBLOCKS && k < size && m >= 1
    ensures IsRun(run, size, m) && Last(run) == Early(k)
  {
    if k == 0 {
      assert BeginOp(Init, Early(0), 0);
      run := StepTo([Init], Early(0), size, m);
    } else {
      run := EarlyRun(k - 1, size, m);
      var s := Early(k - 1);
      var s1 := s.(ops := map[0 := {}, 1 := {}]);
      assert s1.ops == s.ops[1 := {}] && |s.ops| == 1;
      assert BeginOp(s, s1, 1);
      run := StepTo(run, s1, size, m);
      var b := 100 + k - 1;
      run := Logs(run, s1, 1, b, size, m);
      var s2 := Last(run);
      assert s2.blocks == Count(k) && s2.ops - {1} == map[0 := {}];
      assert EndOp(s2, Early(k), 1);
      run := StepTo(run, Early(k), size, m);
    }
  }

  lemma LateStart(k: nat, size: nat, m: nat) returns (run: seq<State>)
    requires k <= MAXOPBLOCKS && k < size && m >= 1
    ensures IsRun(run, size, m) && Last(run) == Late(k, 0)
  {
    run := EarlyRun(k, size, m);
    var s := Early(k);
    assert Late(k, 0).ops == s.ops[1 := {}] && |s.ops| == 1;
    assert BeginOp(s, Late(k, 0), 1);
    run := StepTo(run, Late(k, 0), size, m);
  }

  lemma LateMay(k: nat, h: nat, j: nat, p: nat, b: nat, s: State, size: nat, m: nat)
    requires j == h + 1 && p == h % 2 && b == 100 + k + h && s == Late(k, h)
    requires j <= 2 * m && k + j < size && k + j <= LOGSIZE
    ensures !TooBig(s, size) && WithinBudget(s, p, b, m)
  {
    TurnsSize(k, h, p);
  }

  lemma LateStep(k: nat, h: nat, j: nat, p: nat, b: nat)
    requires j == h + 1 && p == h % 2 && b == 100 + k + h
    ensures var s := Late(k, h);
            State(Absorb(s.blocks, b), s.ops[p := s.ops[p] + {b}], false, {}) == Late(k, j)
  {
    var s := Late(k, h);
    assert b !in s.blocks && Absorb(s.blocks, b) == Count(k + j);
    assert s.ops[p := s.ops[p] + {b}] == Late(k, j).ops;
  }

  lemma {:induction false} LateRun(k: nat, j: nat, size: nat, m: nat) returns (run: seq<State>)
    requires k <= MAXOPBLOCKS && j <= 2 * m && k + j < size && k + j <= LOGSIZE && m >= 1
    ensures IsRun(run, size, m) && Last(run) == Late(k, j)
  {
    if j == 0 {
      run := LateStart(k, size, m);
    } else {
      var h := j - 1;
      run := LateRun(k, h, size, m);
      var s, p, b := Late(k, h), h % 2, 100 + k + h;
      LateMay(k, h, j, p, b, s, size, m);
      run := Logs(run, s, p, b, size, m);
      LateStep(k, h, j, p, b);
    }
  }

  /** A run to a header of n entries, with calls 0 and 1 outstanding. */
  lemma Fill(n: nat, size: nat, m: nat) returns (run: seq<State>, k: nat, j: nat)
    requires n < size && n <= LOGSIZE && n <= MAXOPBLOCKS + 2 * m && m >= 1
    ensures IsRun(run, size, m) && Last(run) == Late(k, j) && k + j == n && j <= 2 * m && k <= MAXOPBLOCKS
    ensures j > 0 ==> k == MAXOPBLOCKS
  {
    k, j := if n <= MAXOPBLOCKS then n else MAXOPBLOCKS, if n <= MAXOPBLOCKS then 0 else n - MAXOPBLOCKS;
    run := LateRun(k, j, size, m);
  }

  lemma RaceMay(k: nat, j: nat, n: nat, s: State, m: nat)
    requires s == Late(k, j) && k + j == n && n + 2 <= MAXOPBLOCKS + 2 * m
    requires j <= 2 * m && (j > 0 ==> k == MAXOPBLOCKS) && m >= 1
    ensures |s.ops[0]| < m && |s.ops[1]| < m && |s.blocks| == n && 100 + n !in s.blocks && 101 + n !in s.blocks
  {
    TurnsSize(k, j, 0);
    TurnsSize(k, j, 1);
  }

  /** Calls 0 and 1 both pass the guard where n is two below the goal, and both append. */
  lemma Race(goal: nat, size: nat, m: nat) returns (run: seq<State>)
    requires 2 <= goal <= size && goal <= LOGSIZE + 1 && goal <= MAXOPBLOCKS + 2 * m && 1 <= m
    ensures IsRun(run, size, m) && |Last(run).blocks| == goal
  {
    var n := goal - 2;
    var k, j;
    run, k, j := Fill(n, size, m);
    var s, a, b := Late(k, j), 100 + n, 101 + n;
    RaceMay(k, j, n, s, m);
    run, s := PassGuard(run, s, 0, size, m);
    run, s := PassGuard(run, s, 1, size, m);
    run, s := Record(run, s, 0, a, size, m);
    run, s := Record(run, s, 1, b, size, m);
  }

  /** Of j blocks, those that call p of three has logged by turns. */
  function Thirds(j: nat, p: nat): set<nat> {
    if j == 0 then {} else if (j - 1) % 3 == p then Thirds(j - 1, p) + {100 + j - 1} else Thirds(j - 1, p)
  }

  function Three(j: nat): State {
    State(Count(j), map[0 := Thirds(j, 0), 1 := Thirds(j, 1), 2 := Thirds(j, 2)], false, {})
  }

  lemma {:induction false} ThirdsSize(j: nat, p: nat)
    requires p < 3
    ensures 3 * |Thirds(j, p)| <= j + 2 - p && forall b :: b in Thirds(j, p) ==> 100 <= b < 100 + j
  {
    if j > 0 {
      var h := j - 1;
      ThirdsSize(h, p);
      var q := h / 3;
      assert h == 3 * q + h % 3;
    }
  }

  lemma ThreeStart(size: nat, m: nat) returns (run: seq<State>)
    ensures IsRun(run, size, m) && Last(run) == Three(0)
  {
    var s1 := Init.(ops := map[0 := {}]);
    var s2 := Init.(ops := map[0 := {}, 1 := {}]);
    assert s1.ops == Init.ops[0 := {}] && s2.ops == s1.ops[1 := {}] && Three(0).ops == s2.ops[2 := {}];
    assert |Init.ops| == 0 && |s1.ops| == 1 && |s2.ops| == 2;
    assert BeginOp(Init, s1, 0) && BeginOp(s1, s2, 1) && BeginOp(s2, Three(0), 2);
    run := StepTo([Init], s1, size, m);
    run := StepTo(run, s2, size, m);
    run := StepTo(run, Three(0), size, m);
  }

  lemma ThreeStep(h: nat, j: nat, p: nat, b: nat)
    requires j == h + 1 && p == h % 3 && b == 100 + h
    ensures var s := Three(h);
            State(Absorb(s.blocks, b), s.ops[p := s.ops[p] + {b}], false, {}) == Three(j)
  {
    var s := Three(h);
    assert b !in s.blocks && Absorb(s.blocks, b) == Count(j);
    assert s.ops[p := s.ops[p] + {b}] == Three(j).ops;
  }

  lemma ThreeMay(h: nat, p: nat, b: nat, s: State, size: nat, m: nat)
    requires p < 3 && s == Three(h) && h + 1 < size && h < LOGSIZE
    requires m >= MAXOPBLOCKS && (p == h % 3 || m > MAXOPBLOCKS)
    ensures !TooBig(s, size) && WithinBudget(s, p, b, m)
  {
    ThirdsSize(h, p);
  }

  lemma {:induction false} ThreeRun(j: nat, size: nat, m: nat) returns (run: seq<State>)
    requires j < size && j <= LOGSIZE && m >= MAXOPBLOCKS
    ensures IsRun(run, size, m) && Last(run) == Three(j)
  {
    if j == 0 {
      run := ThreeStart(size, m);
    } else {
      var h := j - 1;
      run := ThreeRun(h, size, m);
      var s, p, b := Three(h), h % 3, 100 + h;
      ThreeMay(h, p, b, s, size, m);
      run := Logs(run, s, p, b, size, m);
      ThreeStep(h, j, p, b);
    }
  }

  /** All three pass the guard. */
  lemma ThreePass(n: nat, size: nat, m: nat) returns (run: seq<State>, s: State)
    requires n + 1 < size && n < LOGSIZE && m > MAXOPBLOCKS
    ensures IsRun(run, size, m) && s == Last(run) == Three(n).(checked := {0, 1, 2})
  {
    run := ThreeRun(n, size, m);
    s := Three(n);
    run, s := PassGuard(run, s, 0, size, m);
    run, s := PassGuard(run, s, 1, size, m);
    run, s := PassGuard(run, s, 2, size, m);
    assert {} + {0} + {1} + {2} == {0, 1, 2};
  }

  /**
    Three calls, one of them logging one block more than MAXOPBLOCKS, pass the guard three below the goal and all
    append.
  */
  lemma ThreeRace(goal: nat, size: nat, m: nat) returns (run: seq<State>)
    requires LOGSIZE < goal <= LOGSIZE + 2 && goal <= size + 1 && m > MAXOPBLOCKS
    ensures IsRun(run, size, m) && |Last(run).blocks| == goal
  {
    var n, s := goal - 3, Three(goal - 3);
    var b0, b1, b2 := 100 + n, 101 + n, 102 + n;
    ThreeMay(n, 0, b0, s, size, m);
    ThreeMay(n, 1, b1, s, size, m);
    ThreeMay(n, 2, b2, s, size, m);
    run, s := ThreePass(n, size, m);
    run, s := Record(run, s, 0, b0, size, m);
    run, s := Record(run, s, 1, b1, size, m);
    run, s := Record(run, s, 2, b2, size, m);
  }

  /** A log of one block admits no log_write at all. */
  lemma {:induction false} NoRoomNoBlocks(run: seq<State>, m: nat)
    requires IsRun(run, 1, m)
    ensures Last(run).blocks == [] && Last(run).checked == {}
    decreases |run|
  {
    if |run| > 1 {
      NoRoomNoBlocks(run[..|run| - 1], m);
    }
  }

  /** The longest header, when no call logs more than m blocks and the log is long enough. */
  function Longest(m: nat): nat { if Peak(m) <= LOGSIZE then Peak(m) else LOGSIZE + 2 }

  lemma HeaderAtMost(run: seq<State>, size: nat, m: nat)
    requires IsRun(run, size, m)
    ensures |Last(run).blocks| <= Longest(m)
  {
    ReservationHolds(run, size, m);
    AppendHasRoom(Last(run), 0, 0, m);
    GuardHolds(run, size, m);
  }

  /**
    The guard does not keep the header inside the log area, because it is not under the lock: with calls of at most m
    blocks, n stays below log.size in every run exactly when the log is larger than the longest header, or is empty.
  */
  lemma HeaderFits(size: nat, m: nat)
    requires size >= 1 && m >= 1
    ensures (forall run :: IsRun(run, size, m) ==> |Last(run).blocks| < size) <==> Longest(m) < size || size == 1
  {
    if Longest(m) < size {
      forall run | IsRun(run, size, m)
        ensures |Last(run).blocks| < size
      {
        HeaderAtMost(run, size, m);
      }
    } else if size == 1 {
      forall run | IsRun(run, size, m)
        ensures |Last(run).blocks| < size
      {
        NoRoomNoBlocks(run, m);
      }
    } else if size <= LOGSIZE + 1 {
      var run := Race(size, size, m);
    } else {
      var run := ThreeRace(size, size, m);
    }
  }

  /**
    Nor inside its array of LOGSIZE entries, when a call logs more than MAXOPBLOCKS blocks and the log has LOGSIZE of
    them.
  */
  lemma HeaderInArray(size: nat, m: nat)
    requires size >= 1 && m >= 1
    ensures (forall run :: IsRun(run, size, m) ==> |Last(run).blocks| <= LOGSIZE) <==>
              m <= MAXOPBLOCKS || size < LOGSIZE
  {
    if m <= MAXOPBLOCKS || size < LOGSIZE {
      forall run | IsRun(run, size, m)
        ensures |Last(run).blocks| <= LOGSIZE
      {
        HeaderAtMost(run, size, m);
        GuardHolds(run, size, m);
      }
    } else {
      var run := ThreeRace(LOGSIZE + 1, size, m);
    }
  }

  // ---- when log_write panics ----

  /** Call p of the state s is about to log b, and its guard panics. */
  ghost predicate Panics(s: State, p: nat, b: nat, size: nat, m: nat) {
    WithinBudget(s, p, b, m) && p !in s.checked && TooBig(s, size)
  }

  /**
    No log_write of a call within its budget panics, in any run, exactly when the longest header is below both bounds
    of the guard. With the log that mkfs makes, of LOGSIZE blocks, that is a budget of 9.
  */
  lemma LogWritePanicFree(size: nat, m: nat)
    requires size >= 1 && m >= 1
    ensures (forall run, p, b :: IsRun(run, size, m) ==> !Panics(Last(run), p, b, size, m)) <==>
            Peak(m) < LOGSIZE && Peak(m) + 1 < size
  {
    if Peak(m) < LOGSIZE && Peak(m) + 1 < size {
      forall run, p, b | IsRun(run, size, m)
        ensures !Panics(Last(run), p, b, size, m)
      {
        ReservationHolds(run, size, m);
        AppendHasRoom(Last(run), p, b, m);
      }
    } else {
      var n := Limit(size);
      var run, k, j := Fill(n, size, m);
      TurnsSize(k, j, 0);
      var b := 100 + k;
      assert j > 0 ==> Turns(k, j, 0) + {b} == Turns(k, j, 0);
      assert Panics(Last(run), 0, b, size, m);
    }
  }

  /** With the full budget it can panic whatever the size of the log: by logging one of its own blocks again. */
  lemma FullBudgetPanics(size: nat) returns (run: seq<State>, p: nat, b: nat)
    requires size >= 1
    ensures IsRun(run, size, MAXOPBLOCKS) && Panics(Last(run), p, b, size, MAXOPBLOCKS)
    ensures size > LOGSIZE ==> b in Last(run).ops[p]
  {
    var n := Limit(size);
    var k, j;
    run, k, j := Fill(n, size, MAXOPBLOCKS);
    TurnsSize(k, j, 0);
    p, b := 0, 100 + k;
    assert j > 0 ==> Turns(k, j, 0) + {b} == Turns(k, j, 0);
  }

  /**
    For blocks not in the header yet, the panic is unreachable exactly when calls keep to MAXOPBLOCKS and the log is
    long enough.
  */
  lemma AppendPanicFree(size: nat, m: nat)
    requires size >= 1 && m >= 1
    ensures (forall run, p, b ::
               IsRun(run, size, m) && b !in Last(run).blocks ==> !Panics(Last(run), p, b, size, m)) <==>
            m <= MAXOPBLOCKS && Peak(m) < size
  {
    if m <= MAXOPBLOCKS && Peak(m) < size {
      forall run, p, b | IsRun(run, size, m) && b !in Last(run).blocks
        ensures !Panics(Last(run), p, b, size, m)
      {
        ReservationHolds(run, size, m);
        AppendHasRoom(Last(run), p, b, m);
      }
    } else {
      var n := Limit(size);
      var run, k, j := Fill(n, size, m);
      TurnsSize(k, j, 1);
      assert Panics(Last(run), 1, 100 + n, size, m) && 100 + n !in Last(run).blocks;
    }
  }
}
