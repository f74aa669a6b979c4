/**
 * Any number of processes reading and writing one pipe. A process runs with the pipe lock held until it sleeps or
 * returns, so one step is one such stretch of pipewrite or piperead.
 */
module PipeRun {
  import opened Pipe

  datatype Proc =
    | Outside
    | Writing(src: seq<int>, i: int, asleep: bool)
    | Reading(n: nat, asleep: bool)

  datatype State = State(flow: Flow, readopen: bool, writeopen: bool, procs: map<int, Proc>)

  datatype Step =
    | BeginWrite(p: int, src: seq<int>)
    | BeginRead(p: int, n: nat)
    | Write(p: int, killed: bool)
    | Read(p: int, killed: bool)
    | Close(writable: bool)
    | Wake(p: int)       // kill, or a wakeup meant for another sleeper

  function PcOf(s: State, p: int): Proc {
    if p in s.procs then s.procs[p] else Outside
  }

  function WakeReader(pc: Proc): Proc {
    if pc.Reading? then Reading(pc.n, false) else pc
  }

  function WakeWriter(pc: Proc): Proc {
    if pc.Writing? then Writing(pc.src, pc.i, false) else pc
  }

  function WakeReaders(procs: map<int, Proc>): map<int, Proc> {
    map p | p in procs :: WakeReader(procs[p])
  }

  function WakeWriters(procs: map<int, Proc>): map<int, Proc> {
    map p | p in procs :: WakeWriter(procs[p])
  }

  predicate Enabled(s: State, step: Step) {
    match step
    case BeginWrite(p, _) => PcOf(s, p).Outside?
    case BeginRead(p, _) => PcOf(s, p).Outside?
    case Write(p, _) => var pc := PcOf(s, p); pc.Writing? && !pc.asleep && 0 <= pc.i <= |pc.src|
    case Read(p, _) => var pc := PcOf(s, p); pc.Reading? && !pc.asleep
    case Close(_) => true
    case Wake(p) => !PcOf(s, p).Outside?
  }

  function AfterWrite(s: State, p: int, pc: Proc, killed: bool): State
    requires pc.Writing? && 0 <= pc.i <= |pc.src|
  {
    var stop := StopAt(s.flow, |pc.src|, pc.i);
    var s' := s.(flow := Written(s.flow, pc.src, pc.i));
    match WriteEnding(s.flow, |pc.src|, pc.i, s.readopen, killed)
    case Returned => s'.(procs := WakeReaders(s.procs)[p := Outside])
    case Slept => s'.(procs := WakeReaders(s.procs)[p := Writing(pc.src, stop, true)])
    case Failed => s'.(procs := s.procs[p := Outside])
  }

  function AfterRead(s: State, p: int, pc: Proc, killed: bool): State
    requires pc.Reading?
  {
    match ReadEnding(s.flow, s.writeopen, killed)
    case Returned => s.(flow := Taken(s.flow, pc.n), procs := WakeWriters(s.procs)[p := Outside])
    case Slept => s.(procs := s.procs[p := Reading(pc.n, true)])
    case Failed => s.(procs := s.procs[p := Outside])
  }

  function Next(s: State, step: Step): State
    requires Enabled(s, step)
  {
    match step
    case BeginWrite(p, src) => s.(procs := s.procs[p := Writing(src, 0, false)])
    case BeginRead(p, n) => s.(procs := s.procs[p := Reading(n, false)])
    case Write(p, killed) => AfterWrite(s, p, PcOf(s, p), killed)
    case Read(p, killed) => AfterRead(s, p, PcOf(s, p), killed)
    case Close(true) => s.(writeopen := false, procs := WakeReaders(s.procs))
    case Close(false) => s.(readopen := false, procs := WakeWriters(s.procs))
    case Wake(p) => s.(procs := s.procs[p := WakeReader(WakeWriter(PcOf(s, p)))])
  }

  /** A sleeping writer faces a full pipe with readers; a sleeping reader faces one with writers. */
  ghost predicate ProcOk(s: State, p: int) {
    match PcOf(s, p)
    case Outside => true
    case Writing(src, i, asleep) => 0 <= i <= |src| && (asleep ==> s.flow.Held() == PIPESIZE && s.readopen)
    case Reading(n, asleep) => asleep ==> s.writeopen
  }

  ghost predicate Inv(s: State) {
    s.flow.Valid() && forall p {:trigger PcOf(s, p)} :: ProcOk(s, p)
  }

  ghost predicate IsRun(run: seq<State>, steps: seq<Step>) {
    && |run| == |steps| + 1
    && run[0] == State(Flow([], []), true, true, map[])
    && forall i {:trigger steps[i]} :: 0 <= i < |steps| ==>
         Enabled(run[i], steps[i]) && run[i + 1] == Next(run[i], steps[i])
  }

  lemma WriteFlow(f: Flow, src: seq<int>, i: nat)
    requires f.Valid() && i <= |src|
    ensures var f' := Written(f, src, i); var stop := StopAt(f, |src|, i);
            && f'.Valid() && i <= stop <= |src| && f'.Held() == f.Held() + stop - i
            && (stop < |src| ==> f'.Held() == PIPESIZE)
  {
  }

  lemma ReadFlow(f: Flow, n: nat)
    requires f.Valid()
    ensures Taken(f, n).Valid() && Taken(f, n).Held() <= f.Held() && Taken(f, n).stored == f.stored
  {
  }

  // ----- what one step does -----

  /** A process outside may begin to write or to read. */
  lemma BeginSteps(s: State, p: int, src: seq<int>, n: nat)
    requires PcOf(s, p) == Outside
    ensures Enabled(s, BeginWrite(p, src)) && Enabled(s, BeginRead(p, n))
    ensures var s' := Next(s, BeginWrite(p, src)); s' == s.(procs := s'.procs) && PcOf(s', p) == Writing(src, 0, false)
    ensures var s' := Next(s, BeginRead(p, n)); s' == s.(procs := s'.procs) && PcOf(s', p) == Reading(n, false)
    ensures forall q :: q != p ==> PcOf(Next(s, BeginWrite(p, src)), q) == PcOf(s, q)
    ensures forall q :: q != p ==> PcOf(Next(s, BeginRead(p, n)), q) == PcOf(s, q)
  {
  }

  /** A write stores what fits; it is over if that is all, or if it is killed or nobody reads, and else it sleeps. */
  lemma WriteStep(s: State, p: int, killed: bool)
    requires Inv(s) && PcOf(s, p).Writing? && !PcOf(s, p).asleep
    ensures Enabled(s, Step.Write(p, killed))
    ensures var s' := Next(s, Step.Write(p, killed));
            var pc, room := PcOf(s, p), 512 - (|s.flow.stored| - |s.flow.got|);
            var left := |pc.src| - pc.i;
            var n := if left <= room then left else room;
            && 0 <= n && pc.i + n <= |pc.src| && s'.flow == Flow(s.flow.stored + pc.src[pc.i..pc.i + n], s.flow.got)
            && s'.readopen == s.readopen && s'.writeopen == s.writeopen
            && PcOf(s', p) == (if left <= room || !s.readopen || killed then Outside
                               else Writing(pc.src, pc.i + n, true))
            && forall q :: q != p ==>
                 PcOf(s', q) == if PcOf(s, q).Reading? && (left <= room || (s.readopen && !killed))
                                then Reading(PcOf(s, q).n, false) else PcOf(s, q)
  {
    assert ProcOk(s, p);
  }

  /**
    A read takes what is there; with nothing there it fails if it is killed, is over if nobody writes, and else sleeps.
  */
  lemma ReadStep(s: State, p: int, killed: bool)
    requires Inv(s) && PcOf(s, p).Reading? && !PcOf(s, p).asleep
    ensures Enabled(s, Step.Read(p, killed))
    ensures var s' := Next(s, Step.Read(p, killed));
            var pc, held := PcOf(s, p), |s.flow.stored| - |s.flow.got|;
            var n := if held == 0 then 0 else if pc.n <= held then pc.n else held;
            && 0 <= n <= held
            && s'.flow == Flow(s.flow.stored, s.flow.got + s.flow.stored[|s.flow.got|..|s.flow.got| + n])
            && s'.readopen == s.readopen && s'.writeopen == s.writeopen
            && PcOf(s', p) == (if held == 0 && s.writeopen && !killed then Reading(pc.n, true) else Outside)
            && forall q :: q != p ==>
                 PcOf(s', q) == if PcOf(s, q).Writing? && (held > 0 || !s.writeopen)
                                then Writing(PcOf(s, q).src, PcOf(s, q).i, false) else PcOf(s, q)
  {
    assert ProcOk(s, p);
    assert s.flow.stored[|s.flow.got|..|s.flow.got|] == [];
  }

  /** Shutting an end wakes all who wait at the other. */
  lemma CloseStep(s: State, writable: bool)
    ensures var s' := Next(s, Step.Close(writable));
            s'.flow == s.flow && s'.writeopen == (s.writeopen && !writable) && s'.readopen == (s.readopen && writable)
    ensures forall q ::
              PcOf(Next(s, Step.Close(writable)), q) ==
              if writable && PcOf(s, q).Reading? then Reading(PcOf(s, q).n, false)
              else if !writable && PcOf(s, q).Writing? then Writing(PcOf(s, q).src, PcOf(s, q).i, false)
              else PcOf(s, q)
  {
  }

  // ----- every step keeps the invariant -----

  lemma OtherKeeps(s: State, step: Step)
    requires Inv(s) && Enabled(s, step) && !step.Write? && !step.Read?
    ensures Inv(Next(s, step))
  {
    var s' := Next(s, step);
    forall p
      ensures ProcOk(s', p)
    {
      assert ProcOk(s, p);
    }
  }

  lemma ReadKeeps(s: State, q: int, killed: bool)
    requires Inv(s) && Enabled(s, Step.Read(q, killed))
    ensures Inv(Next(s, Step.Read(q, killed)))
  {
    var s' := Next(s, Step.Read(q, killed));
    ReadFlow(s.flow, PcOf(s, q).n);
    forall p
      ensures ProcOk(s', p)
    {
      assert ProcOk(s, p);
    }
  }

  lemma WriteKeeps(s: State, q: int, killed: bool)
    requires Inv(s) && Enabled(s, Step.Write(q, killed))
    ensures Inv(Next(s, Step.Write(q, killed)))
  {
    var s' := Next(s, Step.Write(q, killed));
    var pc := PcOf(s, q);
    WriteFlow(s.flow, pc.src, pc.i);
    forall p
      ensures ProcOk(s', p)
    {
      assert ProcOk(s, p);
    }
  }

  lemma NextKeeps(s: State, step: Step)
    requires Inv(s) && Enabled(s, step)
    ensures Inv(Next(s, step))
  {
    match step
    case Write(q, killed) =>
      WriteKeeps(s, q, killed);
    case Read(q, killed) =>
      ReadKeeps(s, q, killed);
    case _ =>
      OtherKeeps(s, step);
  }

  lemma {:induction false} RunInv(run: seq<State>, steps: seq<Step>, i: nat)
    requires IsRun(run, steps) && i < |run|
    ensures Inv(run[i])
  {
    if i == 0 {
      forall p
        ensures ProcOk(run[0], p)
      {
        assert PcOf(run[0], p) == Outside;
      }
    } else {
      RunInv(run, steps, i - 1);
      NextKeeps(run[i - 1], steps[i - 1]);
    }
  }

  /** In every run, what has been read followed by what is held is what has been stored, in order. */
  lemma PipeIsFifo(run: seq<State>, steps: seq<Step>, i: nat)
    requires IsRun(run, steps) && i < |run|
    ensures var f := run[i].flow; f.got + f.Buffered() == f.stored && |f.Buffered()| <= PIPESIZE
  {
    RunInv(run, steps, i);
  }

  // ---- readers that miss a wakeup ----

  ghost predicate Waiting(s: State, p: int) {
    PcOf(s, p).Reading? && PcOf(s, p).asleep
  }

  /** Reader p sleeps although the pipe holds bytes. */
  ghost predicate Stuck(s: State, p: int) {
    Waiting(s, p) && s.flow.Held() > 0
  }

  /** A writer that is killed, or has no readers, has more bytes left than an empty pipe takes. */
  ghost predicate Drops(s: State, step: Step) {
    step.Write? && (step.killed || !s.readopen) && var pc := PcOf(s, step.p); pc.Writing? && |pc.src| - pc.i > PIPESIZE
  }

  /** The step wakes reader p, or takes all the bytes. */
  ghost predicate Rescues(s: State, step: Step, p: int)
    requires Enabled(s, step)
  {
    match step
    case Write(q, killed) => var pc := PcOf(s, q); WriteEnding(s.flow, |pc.src|, pc.i, s.readopen, killed) != Failed
    case Read(q, _) => PcOf(s, q).n >= s.flow.Held()
    case Close(writable) => writable
    case Wake(q) => q == p
    case _ => false
  }

  /** A reader asleep over an empty pipe is left asleep over bytes by exactly these writes. */
  lemma DroppedExactlyThen(s: State, step: Step, p: int)
    requires Inv(s) && Enabled(s, step) && Waiting(s, p) && s.flow.Held() == 0
    ensures Stuck(Next(s, step), p) <==> Drops(s, step)
  {
  }

  /** It stays so until a step rescues it. */
  lemma StuckUntil(s: State, step: Step, p: int)
    requires Inv(s) && Enabled(s, step) && Stuck(s, p)
    ensures Stuck(Next(s, step), p) <==> !Rescues(s, step, p)
  {
  }

  lemma SleepsOverNone(s: State, step: Step, p: int)
    requires Inv(s) && Enabled(s, step) && !Waiting(s, p)
    ensures !Stuck(Next(s, step), p)
  {
  }

  /** In step k of the run a writer let reader p sleep on, and no later step before run[i] rescued p. */
  ghost predicate LeftSince(run: seq<State>, steps: seq<Step>, k: nat, i: nat, p: int)
    requires IsRun(run, steps) && i < |run|
  {
    && k < i && Waiting(run[k], p) && run[k].flow.Held() == 0 && Drops(run[k], steps[k])
    && forall m {:trigger steps[m]} :: k < m < i ==> !Rescues(run[m], steps[m], p)
  }

  ghost predicate LeftBehind(run: seq<State>, steps: seq<Step>, i: nat, p: int)
    requires IsRun(run, steps) && i < |run|
  {
    exists k: nat :: LeftSince(run, steps, k, i, p)
  }

  lemma {:induction false} StuckThenLeft(run: seq<State>, steps: seq<Step>, i: nat, p: int)
    requires IsRun(run, steps) && i < |run| && Stuck(run[i], p)
    ensures LeftBehind(run, steps, i, p)
  {
    if i == 0 {
      assert false;
    } else {
      RunInv(run, steps, i - 1);
      var s, step := run[i - 1], steps[i - 1];
      if Stuck(s, p) {
        StuckThenLeft(run, steps, i - 1, p);
        StuckUntil(s, step, p);
        var k: nat :| LeftSince(run, steps, k, i - 1, p);
        assert LeftSince(run, steps, k, i, p);
      } else if Waiting(s, p) {
        DroppedExactlyThen(s, step, p);
        assert LeftSince(run, steps, i - 1, i, p);
      } else {
        SleepsOverNone(s, step, p);
      }
    }
  }

  lemma {:induction false} LeftThenStuck(run: seq<State>, steps: seq<Step>, k: nat, i: nat, p: int)
    requires IsRun(run, steps) && i < |run| && LeftSince(run, steps, k, i, p)
    ensures Stuck(run[i], p)
  {
    RunInv(run, steps, i - 1);
    if i == k + 1 {
      DroppedExactlyThen(run[k], steps[k], p);
    } else {
      LeftThenStuck(run, steps, k, i - 1, p);
      StuckUntil(run[i - 1], steps[i - 1], p);
    }
  }

  /**
   * In every run, no writer sleeps on a pipe with room or without readers, and no reader on one without writers. A
   * sleeping reader faces an empty pipe exactly if no failing writer has left it behind.
   */
  lemma NoneForgotten(run: seq<State>, steps: seq<Step>, i: nat, p: int)
    requires IsRun(run, steps) && i < |run|
    ensures var s := run[i]; var pc := PcOf(s, p);
            && (pc.Writing? && pc.asleep ==> s.flow.Held() == PIPESIZE && s.readopen)
            && (pc.Reading? && pc.asleep ==> s.writeopen && (s.flow.Held() == 0 <==> !LeftBehind(run, steps, i, p)))
  {
    RunInv(run, steps, i);
    assert ProcOk(run[i], p);
    if Stuck(run[i], p) {
      StuckThenLeft(run, steps, i, p);
    }
    if k: nat :| LeftSince(run, steps, k, i, p) {
      LeftThenStuck(run, steps, k, i, p);
    }
  }

  ghost predicate ReaderStuck(s: State) {
    PcOf(s, 1) == Reading(1, true) && s.flow.Held() == PIPESIZE
  }

  /** Such a writer does leave a reader asleep over a full pipe. */
  lemma ReaderLeftAsleep()
    ensures exists run, steps :: IsRun(run, steps) && ReaderStuck(run[|run| - 1])
  {
    var s0 := State(Flow([], []), true, true, map[]);
    var big := seq(PIPESIZE + 1, k => 0);
    var steps := [BeginRead(1, 1), Read(1, false), BeginWrite(2, big), Write(2, true)];
    var s1 := Next(s0, steps[0]);
    var s2 := Next(s1, steps[1]);
    var s3 := Next(s2, steps[2]);
    var s4 := Next(s3, steps[3]);
    var run := [s0, s1, s2, s3, s4];
    assert PcOf(s2, 1) == Reading(1, true) && PcOf(s3, 1) == Reading(1, true);
    assert WriteEnding(s3.flow, |big|, 0, true, true) == Failed;
    assert ReaderStuck(s4);
    forall i | 0 <= i < |steps|
      ensures Enabled(run[i], steps[i]) && run[i + 1] == Next(run[i], steps[i])
    {
      assert i == 0 || i == 1 || i == 2 || i == 3;
    }
    assert IsRun(run, steps);
  }
}
