/**
 * sleep and wakeup of proc.c under sleeplock.c, for any number of processes. A step is one lock acquired, one lock
 * released or one shared field written; wakeup1 looks at one slot of the process table a step.
 */
module SleepLock {
  const NOBODY := -1

  datatype Pc =
    | Outside
    | Enter              // acquiresleep takes the inner lock
    | Check              // inner lock held: is the sleep lock taken?
    | SleepTable         // sleep, inner lock held: takes the table lock
    | SleepUnlock        // both held: lets the inner lock go
    | SleepChan          // table held: notes what it sleeps on
    | SleepState         // table held: marks itself asleep
    | SleepSwitch        // table held: switches away, which lets the table go
    | Asleep             // switched away, until runnable and picked with the table held
    | Resume             // table held: no longer sleeps on anything
    | ResumeDrop         // table held: lets the table go
    | Reenter            // takes the inner lock again
    | Take               // inner lock held: takes the sleep lock in its own name
    | Took               // inner lock held: lets it go
    | Inside
    | Leave              // releasesleep takes the inner lock
    | Post               // inner lock held: gives the sleep lock up
    | WakeTable          // wakeup, inner lock held: takes the table lock
    | Scan(k: nat)       // both held: wakeup1 at slot k
    | WakeDone           // inner lock held: lets it go

  /** Process p is slot p of the table; its pid is p + 1. */
  datatype State = State(locked: bool, pid: int, lk: int, table: int, pcs: seq<Pc>, sleeping: seq<bool>,
                         chan: seq<bool>)

  datatype Step =
    | Begin(p: int)      // calls acquiresleep
    | Finish(p: int)     // the holder calls releasesleep
    | Outsider(p: int)   // a process that does not hold the lock calls releasesleep
    | Run(p: int)        // p's next step
    | Kill(p: int)       // p is made RUNNABLE for another reason

  ghost predicate Ok(s: State) {
    |s.sleeping| == |s.pcs| && |s.chan| == |s.pcs|
  }

  ghost predicate Enabled(s: State, step: Step) {
    && Ok(s) && 0 <= step.p < |s.pcs|
    && match step
       case Begin(p) => s.pcs[p].Outside?
       case Finish(p) => s.pcs[p].Inside?
       case Outsider(p) => s.pcs[p].Outside?
       case Kill(p) => s.table == NOBODY
       case Run(p) =>
         match s.pcs[p]
         case Outside => false
         case Inside => false
         case Enter => s.lk == NOBODY
         case Reenter => s.lk == NOBODY
         case Leave => s.lk == NOBODY
         case SleepTable => s.table == NOBODY
         case WakeTable => s.table == NOBODY
         case Asleep => !s.sleeping[p] && s.table == NOBODY
         case _ => true
  }

  function At(s: State, p: int, pc: Pc): State
    requires 0 <= p < |s.pcs|
  {
    s.(pcs := s.pcs[p := pc])
  }

  function RunStep(s: State, p: int): State
    requires 0 <= p < |s.pcs| && |s.sleeping| == |s.pcs| && |s.chan| == |s.pcs|
  {
    match s.pcs[p]
    case Outside => s
    case Enter => At(s, p, Check).(lk := p)
    case Check => At(s, p, if s.locked then SleepTable else Take)
    case SleepTable => At(s, p, SleepUnlock).(table := p)
    case SleepUnlock => At(s, p, SleepChan).(lk := NOBODY)
    case SleepChan => At(s, p, SleepState).(chan := s.chan[p := true])
    case SleepState => At(s, p, SleepSwitch).(sleeping := s.sleeping[p := true])
    case SleepSwitch => At(s, p, Asleep).(table := NOBODY)
    case Asleep => At(s, p, Resume).(table := p)
    case Resume => At(s, p, ResumeDrop).(chan := s.chan[p := false])
    case ResumeDrop => At(s, p, Reenter).(table := NOBODY)
    case Reenter => At(s, p, Check).(lk := p)
    case Take => At(s, p, Took).(locked := true, pid := p + 1)
    case Took => At(s, p, Inside).(lk := NOBODY)
    case Inside => s
    case Leave => At(s, p, Post).(lk := p)
    case Post => At(s, p, WakeTable).(locked := false, pid := 0)
    case WakeTable => At(s, p, Scan(0)).(table := p)
    case Scan(k) =>
      if k >= |s.pcs| then At(s, p, WakeDone).(table := NOBODY)
      else if s.sleeping[k] && s.chan[k] then At(s, p, Scan(k + 1)).(sleeping := s.sleeping[k := false])
      else At(s, p, Scan(k + 1))
    case WakeDone => At(s, p, Outside).(lk := NOBODY)
  }

  function Next(s: State, step: Step): State
    requires 0 <= step.p < |s.pcs| && |s.sleeping| == |s.pcs| && |s.chan| == |s.pcs|
  {
    match step
    case Begin(p) => At(s, p, Enter)
    case Finish(p) => At(s, p, Leave)
    case Outsider(p) => At(s, p, Leave)
    case Kill(p) => s.(sleeping := s.sleeping[p := false])
    case Run(p) => RunStep(s, p)
  }

  predicate HoldsLk(pc: Pc) {
    || pc.Check? || pc.SleepTable? || pc.SleepUnlock? || pc.Take? || pc.Took? || pc.Post?
    || pc.WakeTable? || pc.Scan? || pc.WakeDone?
  }

  predicate HoldsTable(pc: Pc) {
    pc.SleepUnlock? || pc.SleepChan? || pc.SleepState? || pc.SleepSwitch? || pc.Resume? || pc.ResumeDrop? || pc.Scan?
  }

  /** The holder of lk has changed the condition and has yet to look at slot p. */
  ghost predicate Pending(s: State, p: int) {
    0 <= s.lk < |s.pcs| && (s.pcs[s.lk].WakeTable? || (s.pcs[s.lk].Scan? && s.pcs[s.lk].k <= p))
  }

  ghost predicate ProcInv(s: State, p: int)
    requires Ok(s) && 0 <= p < |s.pcs|
  {
    var pc := s.pcs[p];
    && (s.lk == p <==> HoldsLk(pc))
    && (s.table == p <==> HoldsTable(pc))
    && (s.sleeping[p] ==> (pc.SleepSwitch? || pc.Asleep?) && s.chan[p])
    && (pc.SleepState? || pc.SleepSwitch? || pc.Asleep? ==> s.chan[p])
    && (pc.SleepTable? || pc.SleepUnlock? ==> s.locked)
    && (pc.SleepChan? || pc.SleepState? ==> s.locked || Pending(s, p))
    && (s.sleeping[p] ==> s.locked || Pending(s, p))
    && (pc.WakeTable? || pc.Scan? || pc.WakeDone? || pc.Take? ==> !s.locked)
  }

  ghost predicate Inv(s: State) {
    Ok(s) && forall p {:trigger s.pcs[p]} :: 0 <= p < |s.pcs| ==> ProcInv(s, p)
  }

  predicate Entering(pc: Pc) {
    pc.Enter? || pc.Check? || pc.Take? || pc.Took? || pc.Reenter? || pc.Leave?
  }

  predicate GoingToSleep(pc: Pc) {
    pc.SleepTable? || pc.SleepUnlock? || pc.SleepChan? || pc.SleepState? || pc.SleepSwitch?
  }

  predicate WakingUp(pc: Pc) {
    pc.Asleep? || pc.Resume? || pc.ResumeDrop?
  }

  predicate Waking(pc: Pc) {
    pc.Post? || pc.WakeTable? || pc.Scan? || pc.WakeDone?
  }

  lemma EnterKeeps(s: State, p: int, q: int)
    requires Inv(s) && Enabled(s, Run(p)) && 0 <= q < |s.pcs| && Entering(s.pcs[p])
    ensures ProcInv(RunStep(s, p), q)
  {
    assert ProcInv(s, p) && ProcInv(s, q);
    if 0 <= s.lk < |s.pcs| {
      assert ProcInv(s, s.lk);
    }
  }

  lemma SleepKeeps(s: State, p: int, q: int)
    requires Inv(s) && Enabled(s, Run(p)) && 0 <= q < |s.pcs| && GoingToSleep(s.pcs[p])
    ensures ProcInv(RunStep(s, p), q)
  {
    assert ProcInv(s, p) && ProcInv(s, q);
    if 0 <= s.lk < |s.pcs| {
      assert ProcInv(s, s.lk);
    }
  }

  lemma ResumeKeeps(s: State, p: int, q: int)
    requires Inv(s) && Enabled(s, Run(p)) && 0 <= q < |s.pcs| && WakingUp(s.pcs[p])
    ensures ProcInv(RunStep(s, p), q)
  {
    assert ProcInv(s, p) && ProcInv(s, q);
    if 0 <= s.lk < |s.pcs| {
      assert ProcInv(s, s.lk);
    }
  }

  lemma WakeKeeps(s: State, p: int, q: int)
    requires Inv(s) && Enabled(s, Run(p)) && 0 <= q < |s.pcs| && Waking(s.pcs[p])
    ensures ProcInv(RunStep(s, p), q)
  {
    assert ProcInv(s, p) && ProcInv(s, q);
    if 0 <= s.lk < |s.pcs| {
      assert ProcInv(s, s.lk);
    }
  }

  lemma OtherKeeps(s: State, step: Step, q: int)
    requires Inv(s) && Enabled(s, step) && !step.Run? && 0 <= q < |s.pcs|
    ensures ProcInv(Next(s, step), q)
  {
    assert ProcInv(s, step.p) && ProcInv(s, q);
    if 0 <= s.lk < |s.pcs| {
      assert ProcInv(s, s.lk);
    }
  }

  lemma NextKeeps(s: State, step: Step)
    requires Inv(s) && Enabled(s, step)
    ensures Inv(Next(s, step))
  {
    var s', p := Next(s, step), step.p;
    forall q | 0 <= q < |s.pcs|
      ensures ProcInv(s', q)
    {
      if !step.Run? {
        OtherKeeps(s, step, q);
      } else if Entering(s.pcs[p]) {
        EnterKeeps(s, p, q);
      } else if GoingToSleep(s.pcs[p]) {
        SleepKeeps(s, p, q);
      } else if WakingUp(s.pcs[p]) {
        ResumeKeeps(s, p, q);
      } else {
        WakeKeeps(s, p, q);
      }
    }
  }

  function Start(n: nat): State {
    State(false, 0, NOBODY, NOBODY, seq(n, i => Outside), seq(n, i => false), seq(n, i => false))
  }

  ghost predicate IsRun(n: nat, run: seq<State>, steps: seq<Step>) {
    && |run| == |steps| + 1 && run[0] == Start(n)
    && forall i {:trigger steps[i]} ::
         0 <= i < |steps| ==> Enabled(run[i], steps[i]) && run[i + 1] == Next(run[i], steps[i])
  }

  lemma {:induction false} RunInv(n: nat, run: seq<State>, steps: seq<Step>, i: nat)
    requires IsRun(n, run, steps) && i < |run|
    ensures Inv(run[i])
  {
    if i == 0 {
      forall p | 0 <= p < n
        ensures ProcInv(run[0], p)
      {
        assert run[0].pcs[p] == Outside;
      }
    } else {
      RunInv(n, run, steps, i - 1);
      NextKeeps(run[i - 1], steps[i - 1]);
    }
  }

  /** No lost wakeup: whoever sleeps while the lock is free is about to be found by the holder of lk. */
  lemma NoLostWakeup(n: nat, run: seq<State>, steps: seq<Step>, i: nat, p: int)
    requires IsRun(n, run, steps) && i < |run| && 0 <= p < |run[i].pcs| && p < |run[i].sleeping|
    ensures run[i].sleeping[p] ==> run[i].locked || Pending(run[i], p)
  {
    RunInv(n, run, steps, i);
    assert ProcInv(run[i], p);
  }

  /** When nobody is in the middle of taking or giving the lock, nobody sleeps beside a free one. */
  lemma QuietMeansAwake(n: nat, run: seq<State>, steps: seq<Step>, i: nat, p: int)
    requires IsRun(n, run, steps) && i < |run| && 0 <= p < |run[i].sleeping|
    requires run[i].lk == NOBODY && !run[i].locked
    ensures !run[i].sleeping[p]
  {
    RunInv(n, run, steps, i);
    assert ProcInv(run[i], p);
  }

  // ----- mutual exclusion -----

  /** Between taking the sleep lock and giving it back. */
  predicate Owns(pc: Pc) {
    pc.Took? || pc.Inside? || pc.Leave? || pc.Post?
  }

  ghost predicate Exclusive(s: State) {
    && (forall p {:trigger s.pcs[p]} :: 0 <= p < |s.pcs| && Owns(s.pcs[p]) ==> s.locked && s.pid == p + 1)
    && (s.locked ==> 1 <= s.pid <= |s.pcs| && Owns(s.pcs[s.pid - 1]))
  }

  /** Only taking and clearing the lock change who owns it. */
  lemma OwnerStep(s: State, step: Step, s': State, p: int)
    requires Enabled(s, step) && !step.Outsider? && s' == Next(s, step) && p == step.p
    ensures |s'.pcs| == |s.pcs| && s'.pcs == s.pcs[p := s'.pcs[p]]
    ensures if step.Run? && s.pcs[p].Take? then s'.locked && s'.pid == p + 1 && Owns(s'.pcs[p])
            else if step.Run? && s.pcs[p].Post? then !s'.locked && Owns(s.pcs[p]) && !Owns(s'.pcs[p])
            else s'.locked == s.locked && s'.pid == s.pid && Owns(s'.pcs[p]) == Owns(s.pcs[p])
  {
  }

  lemma OwnerKeeps(s: State, s': State, p: int)
    requires Exclusive(s) && 0 <= p < |s.pcs| == |s'.pcs| && s'.pcs == s.pcs[p := s'.pcs[p]]
    requires || (s'.locked == s.locked && s'.pid == s.pid && Owns(s'.pcs[p]) == Owns(s.pcs[p]))
             || (!s.locked && s'.locked && s'.pid == p + 1 && Owns(s'.pcs[p]))
             || (!s'.locked && Owns(s.pcs[p]) && !Owns(s'.pcs[p]))
    ensures Exclusive(s')
  {
    forall q {:trigger s'.pcs[q]} | 0 <= q < |s'.pcs| && Owns(s'.pcs[q])
      ensures s'.locked && s'.pid == q + 1
    {
      assert q != p ==> s.pcs[q] == s'.pcs[q];
    }
  }

  lemma ExclusiveKeeps(s: State, step: Step)
    requires Inv(s) && Exclusive(s) && Enabled(s, step) && !step.Outsider?
    ensures Exclusive(Next(s, step))
  {
    var s', p := Next(s, step), step.p;
    OwnerStep(s, step, s', p);
    if step.Run? && s.pcs[p].Take? {
      assert ProcInv(s, p);
    }
    OwnerKeeps(s, s', p);
  }

  lemma {:induction false} RunExclusive(n: nat, run: seq<State>, steps: seq<Step>, i: nat)
    requires IsRun(n, run, steps) && i < |run|
    requires forall j {:trigger steps[j]} :: 0 <= j < |steps| ==> !steps[j].Outsider?
    ensures Exclusive(run[i])
  {
    if i > 0 {
      RunExclusive(n, run, steps, i - 1);
      RunInv(n, run, steps, i - 1);
      ExclusiveKeeps(run[i - 1], steps[i - 1]);
    }
  }

  /** If only its holder releases it, at most one process is ever inside a sleep lock. */
  lemma AtMostOneInside(n: nat, run: seq<State>, steps: seq<Step>, i: nat, p: int, q: int)
    requires IsRun(n, run, steps) && i < |run| && 0 <= p < |run[i].pcs| && 0 <= q < |run[i].pcs|
    requires forall j {:trigger steps[j]} :: 0 <= j < |steps| ==> !steps[j].Outsider?
    requires Owns(run[i].pcs[p]) && Owns(run[i].pcs[q])
    ensures p == q && run[i].locked
  {
    RunExclusive(n, run, steps, i);
  }

  // ----- progress -----

  /** The steps after the first k are steps of p alone. */
  ghost predicate Alone(steps: seq<Step>, k: nat, p: int) {
    k <= |steps| && forall i {:trigger steps[i]} :: k <= i < |steps| ==> steps[i].p == p
  }

  /** run' goes on from run, in m steps that p takes alone, to the state s. */
  ghost predicate GoesOn(n: nat, run: seq<State>, steps: seq<Step>, p: int, m: nat, run': seq<State>, steps': seq<Step>,
                         s: State) {
    && IsRun(n, run', steps') && run <= run' && steps <= steps' && |run| == |steps| + 1
    && |steps'| == |steps| + m && Alone(steps', |steps|, p) && run'[|run'| - 1] == s
  }

  lemma StayPut(n: nat, run: seq<State>, steps: seq<Step>, p: int)
    requires IsRun(n, run, steps)
    ensures GoesOn(n, run, steps, p, 0, run, steps, run[|run| - 1])
  {
  }

  lemma OneStep(n: nat, run0: seq<State>, steps0: seq<Step>, p: int, m: nat, run: seq<State>, steps: seq<Step>,
                s: State,
                step: Step) returns (run': seq<State>, steps': seq<Step>, s': State)
    requires GoesOn(n, run0, steps0, p, m, run, steps, s) && Enabled(s, step) && step.p == p
    ensures s' == Next(s, step) && GoesOn(n, run0, steps0, p, m + 1, run', steps', s') && steps' == steps + [step]
  {
    s' := Next(s, step);
    run', steps' := run + [s'], steps + [step];
    forall i {:trigger steps'[i]} | 0 <= i < |steps'|
      ensures Enabled(run'[i], steps'[i]) && run'[i + 1] == Next(run'[i], steps'[i])
    {
      if i < |steps| {
        assert steps'[i] == steps[i] && run'[i] == run[i];
      }
    }
  }

  /** With both locks free, p takes the inner one, then the sleep lock, and lets the inner one go. */
  lemma TakesIt(n: nat, run0: seq<State>, steps0: seq<Step>, p: int, m: nat, run: seq<State>, steps: seq<Step>,
                s: State)
    returns (run': seq<State>, steps': seq<Step>, s': State)
    requires GoesOn(n, run0, steps0, p, m, run, steps, s) && Ok(s) && 0 <= p < |s.pcs|
    requires (s.pcs[p] == Enter || s.pcs[p] == Reenter) && s.lk == NOBODY && !s.locked
    ensures GoesOn(n, run0, steps0, p, m + 4, run', steps', s') && steps <= steps'
    ensures s' == s.(pcs := s.pcs[p := Inside], locked := true, pid := p + 1)
  {
    run', steps', s' := OneStep(n, run0, steps0, p, m, run, steps, s, Run(p));
    run', steps', s' := OneStep(n, run0, steps0, p, m + 1, run', steps', s', Run(p));
    run', steps', s' := OneStep(n, run0, steps0, p, m + 2, run', steps', s', Run(p));
    run', steps', s' := OneStep(n, run0, steps0, p, m + 3, run', steps', s', Run(p));
  }

  /** Called while both locks are free and left to itself, acquiresleep returns after four steps with the sleep lock. */
  lemma AcquireReturns(n: nat, run: seq<State>, steps: seq<Step>, s: State, p: int)
    returns (run': seq<State>, steps': seq<Step>, s': State)
    requires IsRun(n, run, steps) && s == run[|run| - 1] && 0 <= p < |s.pcs|
    requires s.pcs[p] == Outside && s.lk == NOBODY && !s.locked
    ensures GoesOn(n, run, steps, p, 5, run', steps', s') && |steps'| > |steps| && steps'[|steps|] == Begin(p)
    ensures s' == s.(pcs := s.pcs[p := Inside], locked := true, pid := p + 1)
  {
    RunInv(n, run, steps, |run| - 1);
    StayPut(n, run, steps, p);
    run', steps', s' := OneStep(n, run, steps, p, 0, run, steps, s, Begin(p));
    run', steps', s' := TakesIt(n, run, steps, p, 1, run', steps', s');
  }

  /** A state where nobody holds the inner lock and the table is free has no process in the middle of the scan. */
  lemma Free(s: State, p: int)
    requires Inv(s) && 0 <= p < |s.pcs| && s.table == NOBODY
    ensures !HoldsTable(s.pcs[p]) && (s.sleeping[p] ==> s.pcs[p].Asleep? && s.chan[p])
  {
    assert ProcInv(s, p);
  }

  /** Holding the inner lock, p takes the table lock, lets the inner one go and goes to sleep. */
  lemma FallsAsleep(n: nat, run0: seq<State>, steps0: seq<Step>, p: int, m: nat, run: seq<State>, steps: seq<Step>,
                    s: State) returns (run': seq<State>, steps': seq<Step>, s': State)
    requires GoesOn(n, run0, steps0, p, m, run, steps, s) && Ok(s) && 0 <= p < |s.pcs|
    requires s.pcs[p] == SleepTable && s.lk == p && s.table == NOBODY
    ensures GoesOn(n, run0, steps0, p, m + 5, run', steps', s') && steps <= steps'
    ensures s' == s.(pcs := s.pcs[p := Asleep], lk := NOBODY, chan := s.chan[p := true],
                     sleeping := s.sleeping[p := true])
  {
    run', steps', s' := OneStep(n, run0, steps0, p, m, run, steps, s, Run(p));
    run', steps', s' := OneStep(n, run0, steps0, p, m + 1, run', steps', s', Run(p));
    run', steps', s' := OneStep(n, run0, steps0, p, m + 2, run', steps', s', Run(p));
    run', steps', s' := OneStep(n, run0, steps0, p, m + 3, run', steps', s', Run(p));
    run', steps', s' := OneStep(n, run0, steps0, p, m + 4, run', steps', s', Run(p));
  }

  /**
    Called while the sleep lock is taken, acquiresleep goes to sleep on it after seven steps and holds no other lock.
  */
  lemma AcquireSleeps(n: nat, run: seq<State>, steps: seq<Step>, s: State, p: int)
    returns (run': seq<State>, steps': seq<Step>, s': State)
    requires IsRun(n, run, steps) && s == run[|run| - 1] && 0 <= p < |s.pcs| && p < |s.chan| && p < |s.sleeping|
    requires s.pcs[p] == Outside && s.lk == NOBODY && s.table == NOBODY && s.locked
    ensures GoesOn(n, run, steps, p, 8, run', steps', s') && |steps'| > |steps| && steps'[|steps|] == Begin(p)
    ensures s' == s.(pcs := s.pcs[p := Asleep], chan := s.chan[p := true], sleeping := s.sleeping[p := true])
  {
    RunInv(n, run, steps, |run| - 1);
    StayPut(n, run, steps, p);
    run', steps', s' := OneStep(n, run, steps, p, 0, run, steps, s, Begin(p));
    run', steps', s' := OneStep(n, run, steps, p, 1, run', steps', s', Run(p));
    run', steps', s' := OneStep(n, run, steps, p, 2, run', steps', s', Run(p));
    run', steps', s' := FallsAsleep(n, run, steps, p, 3, run', steps', s');
  }

  /** Woken and left to itself while the sleep lock is free, a sleeper gets it after seven steps. */
  lemma WokenGetsIn(n: nat, run: seq<State>, steps: seq<Step>, s: State, p: int)
    returns (run': seq<State>, steps': seq<Step>, s': State)
    requires IsRun(n, run, steps) && s == run[|run| - 1] && 0 <= p < |s.pcs| && p < |s.sleeping| && p < |s.chan|
    requires s.pcs[p] == Asleep && !s.sleeping[p] && s.lk == NOBODY && s.table == NOBODY && !s.locked
    ensures GoesOn(n, run, steps, p, 7, run', steps', s')
    ensures s' == s.(pcs := s.pcs[p := Inside], chan := s.chan[p := false], locked := true, pid := p + 1)
  {
    RunInv(n, run, steps, |run| - 1);
    StayPut(n, run, steps, p);
    run', steps', s' := OneStep(n, run, steps, p, 0, run, steps, s, Run(p));
    run', steps', s' := OneStep(n, run, steps, p, 1, run', steps', s', Run(p));
    run', steps', s' := OneStep(n, run, steps, p, 2, run', steps', s', Run(p));
    run', steps', s' := TakesIt(n, run, steps, p, 3, run', steps', s');
  }

  /** What a scan of the first k slots leaves of the sleepers. */
  function Woken(sleeping: seq<bool>, chan: seq<bool>, k: nat): (r: seq<bool>)
    requires |chan| == |sleeping|
    ensures |r| == |sleeping|
    ensures forall q :: 0 <= q < |r| ==> r[q] == (sleeping[q] && !(q < k && chan[q]))
  {
    seq(|sleeping|, q requires 0 <= q < |sleeping| => sleeping[q] && !(q < k && chan[q]))
  }

  /** p's scan, from slot 0 to slot k. */
  lemma {:induction false} ScanOn(n: nat, run0: seq<State>, steps0: seq<Step>, p: int, m: nat, run: seq<State>,
                                  steps: seq<Step>, s: State, k: nat)
    returns (run': seq<State>, steps': seq<Step>, s': State)
    requires GoesOn(n, run0, steps0, p, m, run, steps, s) && Ok(s) && 0 <= p < |s.pcs| && s.pcs[p] == Scan(0)
    requires k <= |s.pcs|
    ensures GoesOn(n, run0, steps0, p, m + k, run', steps', s') && |steps'| >= |steps| && steps <= steps'
    ensures s' == s.(pcs := s.pcs[p := Scan(k)], sleeping := Woken(s.sleeping, s.chan, k))
  {
    if k == 0 {
      run', steps', s' := run, steps, s;
      assert Woken(s.sleeping, s.chan, 0) == s.sleeping;
    } else {
      var h := k - 1;
      var s1;
      run', steps', s1 := ScanOn(n, run0, steps0, p, m, run, steps, s, h);
      run', steps', s' := OneStep(n, run0, steps0, p, m + h, run', steps', s1, Run(p));
      assert Woken(s.sleeping, s.chan, k) == s'.sleeping;
    }
  }

  lemma AllAwake(s: State)
    requires Inv(s)
    ensures Woken(s.sleeping, s.chan, |s.pcs|) == seq(|s.pcs|, q => false)
  {
    forall q | 0 <= q < |s.pcs|
      ensures s.sleeping[q] ==> s.chan[q]
    {
      assert ProcInv(s, q);
    }
  }

  /** p gives the sleep lock up and holds both inner locks, about to look at slot 0. */
  lemma GivesUp(n: nat, run: seq<State>, steps: seq<Step>, s: State, p: int)
    returns (run': seq<State>, steps': seq<Step>, s': State)
    requires IsRun(n, run, steps) && s == run[|run| - 1] && Ok(s) && 0 <= p < |s.pcs|
    requires s.pcs[p] == Inside && s.lk == NOBODY && s.table == NOBODY
    ensures GoesOn(n, run, steps, p, 4, run', steps', s') && steps'[|steps|] == Finish(p)
    ensures s' == s.(pcs := s.pcs[p := Scan(0)], locked := false, pid := 0, lk := p, table := p)
  {
    StayPut(n, run, steps, p);
    run', steps', s' := OneStep(n, run, steps, p, 0, run, steps, s, Finish(p));
    run', steps', s' := OneStep(n, run, steps, p, 1, run', steps', s', Run(p));
    run', steps', s' := OneStep(n, run, steps, p, 2, run', steps', s', Run(p));
    run', steps', s' := OneStep(n, run, steps, p, 3, run', steps', s', Run(p));
  }

  /**
    Called by the process inside and left to itself while the inner locks are free, releasesleep returns after |pcs| + 5
    steps: the sleep lock is free, and so are the inner locks, and nobody is asleep.
  */
  lemma ReleaseReturns(n: nat, run: seq<State>, steps: seq<Step>, s: State, p: int)
    returns (run': seq<State>, steps': seq<Step>, s': State)
    requires IsRun(n, run, steps) && s == run[|run| - 1] && 0 <= p < |s.pcs|
    requires s.pcs[p] == Inside && s.lk == NOBODY && s.table == NOBODY
    ensures GoesOn(n, run, steps, p, |s.pcs| + 6, run', steps', s')
    ensures |steps'| > |steps| && steps'[|steps|] == Finish(p)
    ensures s' == s.(pcs := s.pcs[p := Outside], locked := false, pid := 0, sleeping := seq(|s.pcs|, q => false))
  {
    RunInv(n, run, steps, |run| - 1);
    run', steps', s' := GivesUp(n, run, steps, s, p);
    AllAwake(s);
    run', steps', s' := ScanOn(n, run, steps, p, 4, run', steps', s', |s.pcs|);
    run', steps', s' := OneStep(n, run, steps, p, |s.pcs| + 4, run', steps', s', Run(p));
    run', steps', s' := OneStep(n, run, steps, p, |s.pcs| + 5, run', steps', s', Run(p));
  }

  /** So whoever sleeps when the lock is released, and then runs, is inside. */
  lemma ReleaseLetsIn(n: nat, run: seq<State>, steps: seq<Step>, s: State, p: int, q: int)
    returns (run': seq<State>, steps': seq<Step>, s': State)
    requires IsRun(n, run, steps) && s == run[|run| - 1] && 0 <= p < |s.pcs| && 0 <= q < |s.pcs| && q < |s.sleeping|
    requires s.pcs[p] == Inside && s.lk == NOBODY && s.table == NOBODY && s.sleeping[q] && q < |s.chan|
    ensures IsRun(n, run', steps') && run <= run' && run'[|run'| - 1] == s'
    ensures |steps'| == |steps| + |s.pcs| + 13 && Alone(steps'[..|steps| + |s.pcs| + 6], |steps|, p)
    ensures Alone(steps', |steps| + |s.pcs| + 6, q) && |s'.pcs| == |s.pcs|
    ensures s'.pcs[q] == Inside && s'.pcs[p] == Outside && s'.locked && s'.pid == q + 1 && s'.lk == NOBODY
  {
    RunInv(n, run, steps, |run| - 1);
    Free(s, q);
    var run1, steps1, s1 := ReleaseReturns(n, run, steps, s, p);
    run', steps', s' := WokenGetsIn(n, run1, steps1, s1, q);
    assert steps'[..|steps1|] == steps1;
  }

  // ----- wakeup1 and kill as loops over the process table -----

  datatype ProcState = UNUSED | EMBRYO | SLEEPING | RUNNABLE | RUNNING | ZOMBIE

  class ProcTable {
    const state: array<ProcState>
    const chan: array<int>
    const pid: array<int>
    const killed: array<bool>

    constructor (state: array<ProcState>, chan: array<int>, pid: array<int>, killed: array<bool>)
      requires chan.Length == state.Length && pid.Length == state.Length && killed.Length == state.Length
      ensures Valid() && this.state == state && this.chan == chan && this.pid == pid && this.killed == killed
    {
      this.state, this.chan, this.pid, this.killed := state, chan, pid, killed;
    }

    ghost predicate Valid()
      reads this
    {
      && chan.Length == state.Length && pid.Length == state.Length && killed.Length == state.Length
    }

    /** Every sleeper on c, and nobody else, is made runnable. */
    method Wakeup1(c: int)
      requires Valid()
      modifies state
      ensures forall p :: 0 <= p < state.Length ==>
                state[p] == if old(state[p]) == SLEEPING && chan[p] == c then RUNNABLE else old(state[p])
    {
      var p := 0;
      while p < state.Length
        invariant 0 <= p <= state.Length
        invariant forall q :: 0 <= q < p ==>
                    state[q] == if old(state[q]) == SLEEPING && chan[q] == c then RUNNABLE else old(state[q])
        invariant forall q :: p <= q < state.Length ==> state[q] == old(state[q])
      {
        if state[p] == SLEEPING && chan[p] == c {
          state[p] := RUNNABLE;
        }
        p := p + 1;
      }
    }

    /** The first process with this pid is marked killed and, if asleep, made runnable. */
    method Kill(id: int) returns (found: bool, p: int)
      requires Valid()
      modifies state, killed
      ensures found <==> exists q :: 0 <= q < pid.Length && pid[q] == id
      ensures !found ==> state[..] == old(state[..]) && killed[..] == old(killed[..])
      ensures found ==> 0 <= p < pid.Length && pid[p] == id && (forall q :: 0 <= q < p ==> pid[q] != id)
      ensures found ==> killed[..] == old(killed[..])[p := true]
      ensures found ==> state[..] == old(state[..])[p := if old(state[p]) == SLEEPING then RUNNABLE else old(state[p])]
    {
      p := 0;
      while p < pid.Length
        invariant 0 <= p <= pid.Length && forall q :: 0 <= q < p ==> pid[q] != id
        invariant state[..] == old(state[..]) && killed[..] == old(killed[..])
      {
        if pid[p] == id {
          killed[p] := true;
          if state[p] == SLEEPING {
            state[p] := RUNNABLE;
          }
          return true, p;
        }
        p := p + 1;
      }
      return false, p;
    }
  }

  /** p runs m steps with nobody else in between, as it does while it holds both locks. */
  ghost function Times(s: State, p: int, m: nat): State
  {
    if m == 0 then s else
    var e := Times(s, p, m - 1);
    if Ok(e) && 0 <= p < |e.pcs| then RunStep(e, p) else e
  }

  lemma ScanOne(e: State, p: int, k: nat, e': State)
    requires Ok(e) && 0 <= p < |e.pcs| && e.pcs[p] == Scan(k) && k < |e.pcs| && e' == RunStep(e, p)
    ensures Ok(e') && e'.pcs == e.pcs[p := Scan(k + 1)] && e'.chan == e.chan
    ensures e'.sleeping == e.sleeping[k := e.sleeping[k] && !e.chan[k]]
  {
  }

  /** State e is s after p's scan of m slots: the sleepers on the channel among them are awake, and nothing else is. */
  ghost predicate Scanned(s: State, e: State, p: int, m: nat) {
    && Ok(s) && Ok(e) && |e.pcs| == |s.pcs| && 0 <= p < |s.pcs| && e.pcs[p] == Scan(m) && e.chan == s.chan
    && forall q :: 0 <= q < |s.pcs| ==> e.sleeping[q] == (s.sleeping[q] && !(q < m && s.chan[q]))
  }

  lemma ScannedNext(s: State, e: State, p: int, k: nat, e': State, m: nat)
    requires Scanned(s, e, p, k) && k < |s.pcs| && e' == RunStep(e, p) && m == k + 1
    ensures Scanned(s, e', p, m)
  {
    ScanOne(e, p, k, e');
  }

  lemma TimesNext(s: State, p: int, k: nat, m: nat)
    requires m == k + 1 && Ok(Times(s, p, k)) && 0 <= p < |Times(s, p, k).pcs|
    ensures Times(s, p, m) == RunStep(Times(s, p, k), p)
  {
  }

  /** The scan of the step system, slot by slot, does to the sleepers what wakeup1 does. */
  lemma {:induction false} ScanWakesAll(s: State, p: int, m: nat)
    requires Ok(s) && 0 <= p < |s.pcs| && s.pcs[p] == Scan(0) && m <= |s.pcs|
    ensures Scanned(s, Times(s, p, m), p, m)
  {
    if m > 0 {
      var k := m - 1;
      ScanWakesAll(s, p, k);
      TimesNext(s, p, k, m);
      ScannedNext(s, Times(s, p, k), p, k, Times(s, p, m), m);
    }
  }
}
