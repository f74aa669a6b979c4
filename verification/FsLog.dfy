/** The file system on the log: what a crash between any two steps leaves of it. */
module FsLog {
  import opened Blocks
  import opened FsTree
  import opened FsIo
  import opened FsMap
  import opened CrashLog
  import C = FsConc

  /** A well-formed file system: trees of allocated blocks that share none, and no holes. */
  ghost predicate Whole(sb: Super, d: seq<Block>) {
    sb.Layout() && |d| == sb.size && FsInv(Stored(sb, d))
  }

  /** The same contents from the inodes on. */
  ghost predicate SameFrom(sb: Super, d: seq<Block>, d': seq<Block>) {
    |d'| == |d| && forall b: nat {:trigger d'[b]} :: sb.inodestart <= b < |d| ==> d'[b] == d[b]
  }

  lemma SameInodes(sb: Super, d: seq<Block>, d': seq<Block>)
    requires sb.Layout() && |d| == sb.size && SameFrom(sb, d, d')
    ensures Stored(sb, d').ins == Stored(sb, d).ins
  {
    forall i: nat | i < sb.ninodes
      ensures Stored(sb, d').ins[i] == Stored(sb, d).ins[i]
    {
      assert d'[IBlock(sb, i)] == d[IBlock(sb, i)];
    }
  }

  /** Boot block, superblock and log do not matter. */
  lemma WholeFrom(sb: Super, d: seq<Block>, d': seq<Block>)
    requires Whole(sb, d) && SameFrom(sb, d, d')
    ensures Whole(sb, d')
  {
    var v, v' := Stored(sb, d), Stored(sb, d');
    SameInodes(sb, d, d');
    assert SameTrees(v, v');
    SameTreesKeep(v, v');
    forall j: nat | j < |v'.ins|
      ensures NoHoles(v', j) && Synced(v', j)
    {
      assert NoHoles(v, j);
      assert forall x: nat :: Mapped(v, j, x) ==> Mapped(v', j, x);
    }
  }

  // ---- calls between two moments without a call in progress ----

  /** The volumes from d to d': each the result of one write or truncation of a file. */
  ghost predicate IsHistory(sb: Super, d: seq<Block>, d': seq<Block>, vs: seq<Vol>)
    requires sb.Layout() && |d| == sb.size
  {
    && |vs| > 0 && vs[0] == Stored(sb, d) && SameFrom(sb, vs[|vs| - 1].d, d')
    && forall m :: 0 <= m < |vs| - 1 ==> FileStep(vs[m], vs[m + 1])
  }

  ghost predicate FileCalls(sb: Super, d: seq<Block>, d': seq<Block>) {
    sb.Layout() && |d| == sb.size && exists vs :: IsHistory(sb, d, d', vs)
  }

  lemma {:induction false} HistorySuper(vs: seq<Vol>, k: nat)
    requires k < |vs| && forall m :: 0 <= m < |vs| - 1 ==> FileStep(vs[m], vs[m + 1])
    ensures vs[k].sb == vs[0].sb
  {
    if k > 0 {
      HistorySuper(vs, k - 1);
      assert FileStep(vs[k - 1], vs[k]);
    }
  }

  lemma CallsKeepWhole(sb: Super, d: seq<Block>, d': seq<Block>)
    requires Whole(sb, d) && FileCalls(sb, d, d')
    ensures Whole(sb, d')
  {
    var vs: seq<Vol> :| IsHistory(sb, d, d', vs);
    var k := |vs| - 1;
    AlwaysWhole(vs, k);
    HistorySuper(vs, k);
    StoredIs(vs[k]);
    WholeFrom(sb, vs[k].d, d');
  }

  // ---- whole runs ----

  ghost predicate Quiet(s: State) { s.log.ops == map[] }

  ghost predicate NoCrash(steps: seq<Step>, i: nat, j: nat) {
    j <= |steps| && forall k :: i <= k < j ==> !steps[k].Crash?
  }

  /** From one quiet state to another, with no crash in between, the file system stays well-formed. */
  ghost predicate KeepsWhole(sb: Super, run: seq<State>, steps: seq<Step>) {
    |run| == |steps| + 1 && forall i: nat, j: nat {:trigger NoCrash(steps, i, j)} ::
      i <= j && NoCrash(steps, i, j) && Quiet(run[i]) && Quiet(run[j]) && Whole(sb, run[i].latest) ==>
        Whole(sb, run[j].latest)
  }

  /** From one to another, the contents change by whole calls, in whatever order they ran. */
  ghost predicate CallByCall(sb: Super, run: seq<State>, steps: seq<Step>) {
    |run| == |steps| + 1 && forall i: nat, j: nat {:trigger NoCrash(steps, i, j)} ::
      i <= j && NoCrash(steps, i, j) && Quiet(run[i]) && Quiet(run[j]) ==> FileCalls(sb, run[i].latest, run[j].latest)
  }

  lemma CallByCallKeeps(sb: Super, run: seq<State>, steps: seq<Step>)
    requires CallByCall(sb, run, steps)
    ensures KeepsWhole(sb, run, steps)
  {
    forall i: nat, j: nat {:trigger NoCrash(steps, i, j)} |
      i <= j && NoCrash(steps, i, j) && Quiet(run[i]) && Quiet(run[j]) && Whole(sb, run[i].latest)
      ensures Whole(sb, run[j].latest)
    {
      CallsKeepWhole(sb, run[i].latest, run[j].latest);
    }
  }

  /** A quiet, whole state with no crash since. */
  ghost predicate Base(sb: Super, run: seq<State>, steps: seq<Step>, k: nat, i: nat) {
    |run| == |steps| + 1 && k <= i && NoCrash(steps, k, i) && Quiet(run[k]) && Whole(sb, run[k].latest)
  }

  /** The committed contents change in header writes only, when no call is in progress; a crash restarts from them. */
  ghost predicate Commits(s: State, s': State, step: Step) {
    && (if step.WriteHead? then s'.committed == s.latest && Quiet(s) else s'.committed == s.committed)
    && (step.Crash? ==> Quiet(s') && s'.latest == s'.committed)
  }

  lemma RunCommits(g: Geo, run: seq<State>, steps: seq<Step>, h: nat, i: nat)
    requires OrderlyRun(g, run, steps) && h < |steps| && i == h + 1
    ensures Commits(run[h], run[i], steps[h])
  {
    CommitPointAt(g, run, steps, h, i);
    assert NextStep(g, run[h], run[i], steps[h]);
  }

  lemma WholeStep(sb: Super, run: seq<State>, steps: seq<Step>, k: nat, h: nat, i: nat) returns (k': nat)
    requires h < |steps| && i == h + 1 && KeepsWhole(sb, run, steps) && Commits(run[h], run[i], steps[h])
    requires Whole(sb, run[h].committed) && Base(sb, run, steps, k, h)
    ensures Whole(sb, run[i].committed) && Base(sb, run, steps, k', i)
  {
    k' := if steps[h].Crash? then i else k;
    assert NoCrash(steps, k, h);
  }

  lemma {:induction false} CommittedWhole(sb: Super, g: Geo, run: seq<State>, steps: seq<Step>, i: nat) returns (k: nat)
    requires OrderlyRun(g, run, steps) && i < |run| && Whole(sb, run[0].committed) && KeepsWhole(sb, run, steps)
    ensures Whole(sb, run[i].committed) && Base(sb, run, steps, k, i)
  {
    if i == 0 {
      k := 0;
    } else {
      var h := i - 1;
      k := CommittedWhole(sb, g, run, steps, h);
      RunCommits(g, run, steps, h, i);
      k := WholeStep(sb, run, steps, k, h, i);
    }
  }

  /**
    In every state of every run, with crashes anywhere, recovery yields a well-formed file system, if the run starts
    from one and no calls take it from a quiet well-formed state to a quiet one that is not.
  */
  lemma CrashLeavesWhole(sb: Super, g: Geo, run: seq<State>, steps: seq<Step>, i: nat)
    requires OrderlyRun(g, run, steps) && i < |run| && Whole(sb, run[0].committed) && KeepsWhole(sb, run, steps)
    requires g.start + g.size <= sb.inodestart
    ensures g.Ok() && |run[i].disk| == g.dsize && Whole(sb, RecoveredAll(g, run[i].disk))
  {
    var _ := CommittedWhole(sb, g, run, steps, i);
    RunInv(g, run, steps, i);
    AlwaysCrashSafe(g, run[i]);
    var d, r := run[i].committed, RecoveredAll(g, run[i].disk);
    forall b: nat | sb.inodestart <= b < |d|
      ensures r[b] == d[b]
    {
      assert g.Home(b);
    }
    WholeFrom(sb, d, r);
  }

  // ---- calls one after the other ----

  /** What a step logs. */
  function Logs(s: State, step: Step): seq<(nat, Block)> {
    if step.LogWrite? && step.i < |s.bufs| && s.bufs[step.i].blockno >= 0 then
      [(s.bufs[step.i].blockno as nat, s.bufs[step.i].data)]
    else []
  }

  /** What steps i to j - 1 log, in order. */
  function LogsFrom(run: seq<State>, steps: seq<Step>, i: nat, j: nat): seq<(nat, Block)>
    requires j <= |steps| && |run| == |steps| + 1
  {
    if j <= i then [] else LogsFrom(run, steps, i, j - 1) + Logs(run[j - 1], steps[j - 1])
  }

  /** Steps i to j - 1 begin and end no call, and are no crash. */
  ghost predicate NoBounds(steps: seq<Step>, i: nat, j: nat) {
    j <= |steps| && forall k :: i <= k < j ==> !steps[k].Begin? && !steps[k].End? && !steps[k].Crash?
  }

  /** Steps i to j - 1 are what happens between the begin_op of step i - 1 and the end_op of step j. */
  ghost predicate Encloses(steps: seq<Step>, i: nat, j: nat) {
    0 < i <= j < |steps| && NoBounds(steps, i, j) && steps[i - 1].Begin? && steps[j].End?
  }

  /** A call begins only when none is in progress, and what it logs is what a write or truncation of a file logs. */
  ghost predicate OneByOne(sb: Super, run: seq<State>, steps: seq<Step>) {
    && |run| == |steps| + 1
    && (forall i :: 0 <= i < |steps| ==> (steps[i].Begin? ==> Quiet(run[i])))
    && (forall i: nat, j: nat :: Encloses(steps, i, j) ==> IsCall(sb, run[i - 1].latest, LogsFrom(run, steps, i, j)))
  }

  /** What one step does to the contents and to the calls in progress. */
  ghost predicate Effect(s: State, s': State, step: Step) {
    && s'.latest == Replay(s.latest, Logs(s, step))
    && s'.log.ops.Keys == (if step.Begin? then s.log.ops.Keys + {step.p}
                           else if step.End? then s.log.ops.Keys - {step.p}
                           else s.log.ops.Keys)
    && (step.End? || step.LogWrite? ==> step.p in s.log.ops.Keys)
  }

  lemma LogWriteEffect(g: Geo, s: State, s': State, p: nat, i: nat)
    requires NextStep(g, s, s', LogWrite(p, i))
    ensures Effect(s, s', LogWrite(p, i))
  {
    var b, d := s.bufs[i].blockno as nat, s.bufs[i].data;
    ReplayOne(s.latest, [], b, d);
    assert Logs(s, LogWrite(p, i)) == [] + [(b, d)];
  }

  lemma LatestStays(g: Geo, s: State, s': State, step: Step)
    requires NextStep(g, s, s', step) && !step.Crash? && !step.LogWrite?
    ensures s'.latest == s.latest
  {
  }

  lemma CallsChange(g: Geo, s: State, s': State, step: Step)
    requires NextStep(g, s, s', step) && !step.Crash? && !step.LogWrite?
    ensures s'.log.ops == if step.Begin? then s.log.ops[step.p := {}]
                          else if step.End? then s.log.ops - {step.p}
                          else s.log.ops
    ensures step.End? ==> step.p in s.log.ops
  {
  }

  lemma OtherEffect(g: Geo, s: State, s': State, step: Step)
    requires NextStep(g, s, s', step) && !step.Crash? && !step.LogWrite?
    ensures Effect(s, s', step)
  {
    LatestStays(g, s, s', step);
    CallsChange(g, s, s', step);
  }

  lemma StepEffect(g: Geo, s: State, s': State, step: Step)
    requires NextStep(g, s, s', step) && !step.Crash?
    ensures Effect(s, s', step)
  {
    if step.LogWrite? {
      LogWriteEffect(g, s, s', step.p, step.i);
    } else {
      OtherEffect(g, s, s', step);
    }
  }

  ghost predicate HasEffects(run: seq<State>, steps: seq<Step>) {
    |run| == |steps| + 1 && forall h: nat {:trigger steps[h]} ::
      h < |steps| && !steps[h].Crash? ==> Effect(run[h], run[h + 1], steps[h])
  }

  lemma RunEffects(g: Geo, run: seq<State>, steps: seq<Step>)
    requires IsRun(g, run, steps)
    ensures HasEffects(run, steps)
  {
    forall h: nat | h < |steps| && !steps[h].Crash?
      ensures Effect(run[h], run[h + 1], steps[h])
    {
      StepEffect(g, run[h], run[h + 1], steps[h]);
    }
  }

  lemma LogsNext(run: seq<State>, steps: seq<Step>, i: nat, h: nat, j: nat)
    requires j <= |steps| && |run| == |steps| + 1 && i <= h && j == h + 1
    ensures LogsFrom(run, steps, i, j) == LogsFrom(run, steps, i, h) + Logs(run[h], steps[h])
  {
  }

  lemma ReplaysNext(d: seq<Block>, ws: seq<(nat, Block)>, s: State, s': State, step: Step)
    requires Effect(s, s', step) && s.latest == Replay(d, ws)
    ensures s'.latest == Replay(d, ws + Logs(s, step))
  {
    ReplayAppend(d, ws, Logs(s, step));
  }

  ghost predicate Replayed(run: seq<State>, steps: seq<Step>, i: nat, j: nat) {
    && |run| == |steps| + 1 && i <= j <= |steps|
    && run[j].latest == Replay(run[i].latest, LogsFrom(run, steps, i, j))
  }

  lemma ReplayedNext(run: seq<State>, steps: seq<Step>, i: nat, h: nat, j: nat)
    requires Replayed(run, steps, i, h) && h < |steps| && j == h + 1 && Effect(run[h], run[j], steps[h])
    ensures Replayed(run, steps, i, j)
  {
    LogsNext(run, steps, i, h, j);
    ReplaysNext(run[i].latest, LogsFrom(run, steps, i, h), run[h], run[j], steps[h]);
  }

  lemma {:induction false} LatestReplays(run: seq<State>, steps: seq<Step>, i: nat, j: nat)
    requires HasEffects(run, steps) && i <= j <= |steps| && NoCrash(steps, i, j)
    ensures Replayed(run, steps, i, j)
  {
    if i < j {
      var h := j - 1;
      LatestReplays(run, steps, i, h);
      ReplayedNext(run, steps, i, h, j);
    }
  }

  lemma CallKeepsWhole(sb: Super, d: seq<Block>, ws: seq<(nat, Block)>)
    requires Whole(sb, d) && IsCall(sb, d, ws)
    ensures Whole(sb, Replay(d, ws))
  {
    if ws != [] {
      var v :| FileStep(Stored(sb, d), v) && v.d == Replay(d, ws);
      var vs := [Stored(sb, d), v];
      assert IsHistory(sb, d, v.d, vs);
      CallsKeepWhole(sb, d, v.d);
    }
  }

  /** In state m a call is in progress, which began in step i - 1 from well-formed contents. */
  ghost predicate Open(sb: Super, run: seq<State>, steps: seq<Step>, i: nat, m: nat) {
    && |run| == |steps| + 1 && 0 < i <= m <= |steps| && NoBounds(steps, i, m) && steps[i - 1].Begin?
    && run[m].log.ops.Keys == {steps[i - 1].p} && Whole(sb, run[i - 1].latest) && run[i].latest == run[i - 1].latest
  }

  ghost predicate Tracked(sb: Super, run: seq<State>, steps: seq<Step>, m: nat) {
    m < |run| && ((Quiet(run[m]) && Whole(sb, run[m].latest)) || exists i: nat :: Open(sb, run, steps, i, m))
  }

  lemma QuietKeys(s: State)
    ensures Quiet(s) <==> s.log.ops.Keys == {}
  {
  }

  lemma CallEnds(sb: Super, run: seq<State>, steps: seq<Step>, i: nat, h: nat)
    requires HasEffects(run, steps) && OneByOne(sb, run, steps)
    requires h < |steps| && Open(sb, run, steps, i, h) && steps[h].End?
    ensures Whole(sb, run[h].latest)
  {
    assert Encloses(steps, i, h);
    LatestReplays(run, steps, i, h);
    CallKeepsWhole(sb, run[i - 1].latest, LogsFrom(run, steps, i, h));
  }

  /** From a quiet state a call begins, or the state stays quiet. */
  lemma QuietStep(s: State, s': State, step: Step)
    requires Effect(s, s', step) && Quiet(s)
    ensures s'.latest == s.latest && if step.Begin? then s'.log.ops.Keys == {step.p} else Quiet(s')
  {
    QuietKeys(s);
    QuietKeys(s');
  }

  /** The call in progress goes on, or ends. */
  lemma BusyStep(s: State, s': State, step: Step, p: nat)
    requires Effect(s, s', step) && s.log.ops.Keys == {p} && (step.Begin? ==> Quiet(s))
    ensures !step.Begin? && if step.End? then Quiet(s') && s'.latest == s.latest else s'.log.ops.Keys == {p}
  {
    QuietKeys(s);
    QuietKeys(s');
  }

  lemma OpenNext(sb: Super, run: seq<State>, steps: seq<Step>, i: nat, h: nat, m: nat)
    requires h < |steps| && m == h + 1 && Open(sb, run, steps, i, h) && run[m].log.ops.Keys == run[h].log.ops.Keys
    requires !steps[h].Begin? && !steps[h].End? && !steps[h].Crash?
    ensures Open(sb, run, steps, i, m)
  {
  }

  lemma TrackedStep(sb: Super, run: seq<State>, steps: seq<Step>, h: nat, m: nat)
    requires HasEffects(run, steps) && OneByOne(sb, run, steps) && h < |steps| && m == h + 1 && !steps[h].Crash?
    requires Tracked(sb, run, steps, h)
    ensures Tracked(sb, run, steps, m)
  {
    if Quiet(run[h]) && Whole(sb, run[h].latest) {
      QuietStep(run[h], run[m], steps[h]);
      assert steps[h].Begin? ==> Open(sb, run, steps, m, m);
    } else {
      var i: nat :| Open(sb, run, steps, i, h);
      BusyStep(run[h], run[m], steps[h], steps[i - 1].p);
      if steps[h].End? {
        CallEnds(sb, run, steps, i, h);
      } else {
        OpenNext(sb, run, steps, i, h, m);
      }
    }
  }

  lemma {:induction false} TrackedTo(sb: Super, run: seq<State>, steps: seq<Step>, i: nat, j: nat)
    requires HasEffects(run, steps) && OneByOne(sb, run, steps) && i <= j <= |steps| && NoCrash(steps, i, j)
    requires Quiet(run[i]) && Whole(sb, run[i].latest)
    ensures Tracked(sb, run, steps, j)
  {
    if i < j {
      var h := j - 1;
      TrackedTo(sb, run, steps, i, h);
      TrackedStep(sb, run, steps, h, j);
    }
  }

  lemma OneByOneKeeps(sb: Super, g: Geo, run: seq<State>, steps: seq<Step>)
    requires IsRun(g, run, steps) && OneByOne(sb, run, steps)
    ensures KeepsWhole(sb, run, steps)
  {
    RunEffects(g, run, steps);
    forall i: nat, j: nat {:trigger NoCrash(steps, i, j)} |
      i <= j && NoCrash(steps, i, j) && Quiet(run[i]) && Quiet(run[j]) && Whole(sb, run[i].latest)
      ensures Whole(sb, run[j].latest)
    {
      TrackedTo(sb, run, steps, i, j);
      QuietKeys(run[j]);
    }
  }

  /** So it is when calls follow one another, each a write or truncation of a file as the code performs it. */
  lemma CallsSurviveCrashes(sb: Super, g: Geo, run: seq<State>, steps: seq<Step>, i: nat)
    requires OrderlyRun(g, run, steps) && i < |run| && Whole(sb, run[0].committed) && OneByOne(sb, run, steps)
    requires g.start + g.size <= sb.inodestart
    ensures g.Ok() && |run[i].disk| == g.dsize && Whole(sb, RecoveredAll(g, run[i].disk))
  {
    OneByOneKeeps(sb, g, run, steps);
    CrashLeavesWhole(sb, g, run, steps, i);
  }

  // ---- calls at the same time ----

  /** The contents are those of state k of the history, whose calls are in progress. */
  ghost predicate InStep(s: State, hs: seq<C.State>, k: nat) {
    k < |hs| && hs[k].v.d == s.latest && hs[k].calls.Keys <= s.log.ops.Keys
  }

  /**
    From state i of the run to state j: after each step the contents are those of a history of concurrent calls, each of
    them in progress only between its begin_op and its end_op.
  */
  ghost predicate Follows(sb: Super, run: seq<State>, i: nat, j: nat, hs: seq<C.State>, at: seq<nat>) {
    && sb.Layout() && i <= j < |run| && |run[i].latest| == sb.size
    && C.IsHistory(hs) && hs[0] == C.State(Stored(sb, run[i].latest), map[])
    && |at| == j - i + 1 && at[0] == 0
    && (forall k :: 0 < k < |at| ==> at[k - 1] <= at[k])
    && (forall k: nat :: k < |at| ==> InStep(run[i + k], hs, at[k]))
  }

  /** What the run logs between quiet states is logged by calls on files, at most one on a file at a time. */
  ghost predicate Concurrent(sb: Super, run: seq<State>, steps: seq<Step>) {
    |run| == |steps| + 1 && forall i: nat, j: nat {:trigger NoCrash(steps, i, j)} ::
      i <= j && NoCrash(steps, i, j) && Quiet(run[i]) && Whole(sb, run[i].latest) ==>
        exists hs, at :: Follows(sb, run, i, j, hs, at)
  }

  lemma {:induction false} SameSuper(hs: seq<C.State>, k: nat)
    requires C.IsHistory(hs) && k < |hs|
    ensures hs[k].v.sb == hs[0].v.sb
  {
    if k > 0 {
      var h := k - 1;
      SameSuper(hs, h);
      C.HistoryInv(hs, h);
      var p, act :| C.NextStep(hs[h], hs[k], p, act);
      C.NextKeeps(hs[h], hs[k], p, act);
    }
  }

  lemma FollowsKeeps(sb: Super, run: seq<State>, i: nat, j: nat, hs: seq<C.State>, at: seq<nat>)
    requires Follows(sb, run, i, j, hs, at) && Quiet(run[j])
    ensures Whole(sb, run[j].latest)
  {
    var k := at[j - i];
    assert InStep(run[i + (j - i)], hs, k);
    QuietKeys(run[j]);
    assert hs[k].calls == map[];
    C.RestsWhole(hs, k);
    SameSuper(hs, k);
    StoredIs(hs[k].v);
  }

  lemma ConcurrentKeeps(sb: Super, run: seq<State>, steps: seq<Step>)
    requires Concurrent(sb, run, steps)
    ensures KeepsWhole(sb, run, steps)
  {
    forall i: nat, j: nat {:trigger NoCrash(steps, i, j)} |
      i <= j && NoCrash(steps, i, j) && Quiet(run[i]) && Quiet(run[j]) && Whole(sb, run[i].latest)
      ensures Whole(sb, run[j].latest)
    {
      var hs, at :| Follows(sb, run, i, j, hs, at);
      FollowsKeeps(sb, run, i, j, hs, at);
    }
  }

  /** So it is when calls on different files run at the same time, in any interleaving of their steps. */
  lemma ConcurrentCallsSurviveCrashes(sb: Super, g: Geo, run: seq<State>, steps: seq<Step>, i: nat)
    requires OrderlyRun(g, run, steps) && i < |run| && Whole(sb, run[0].committed) && Concurrent(sb, run, steps)
    requires g.start + g.size <= sb.inodestart
    ensures g.Ok() && |run[i].disk| == g.dsize && Whole(sb, RecoveredAll(g, run[i].disk))
  {
    ConcurrentKeeps(sb, run, steps);
    CrashLeavesWhole(sb, g, run, steps, i);
  }
}
