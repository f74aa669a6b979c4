/** proc.c's stride selection: path_cal picks the least pass, stride advances it by 10000 over the share. */
module Stride {
  const MAXINT := 2147483647
  const BIG := 10000

  /** Addition of two 32-bit ints, which wraps. */
  function Add32(a: int, b: int): (r: int)
    requires -MAXINT - 1 <= a <= MAXINT && 0 <= b <= BIG
    ensures -MAXINT - 1 <= r <= MAXINT
    ensures r == if a + b <= 2147483647 then a + b else a + b - 4294967296
  {
    if a + b > MAXINT then a + b - 2 * (MAXINT + 1) else a + b
  }

  /** Panicked and Trapped stop the kernel: a negative share, and a division by a share of 0. */
  datatype Outcome = Advanced | Panicked | Trapped

  /** Entries that path_cal looks at. Slots 1 and 2 are never chosen. */
  predicate Eligible(full: seq<bool>, maxPid: int, i: int) {
    0 <= i < |full| && i <= maxPid && i != 1 && i != 2 && full[i]
  }

  /** d is the first of the eligible entries with the least pass. */
  ghost predicate IsLeast(pass: seq<int>, full: seq<bool>, maxPid: int, d: int)
    requires |full| == |pass|
  {
    && Eligible(full, maxPid, d)
    && (forall i :: Eligible(full, maxPid, i) ==> pass[d] <= pass[i])
    && (forall i :: Eligible(full, maxPid, i) && i < d ==> pass[d] < pass[i])
  }

  /** What path_cal returns: the first least entry, or 0 when no eligible pass is below the largest int. */
  ghost predicate Picks(pass: seq<int>, full: seq<bool>, maxPid: int, d: int)
    requires |full| == |pass|
  {
    if exists i :: Eligible(full, maxPid, i) && pass[i] < MAXINT then IsLeast(pass, full, maxPid, d) else d == 0
  }

  class StrideTable {
    const pass: array<int>        // path
    const share: array<int>
    const full: array<bool>
    var maxPid: int

    constructor (pass: array<int>, share: array<int>, full: array<bool>, maxPid: int)
      requires share.Length == pass.Length && full.Length == pass.Length && -1 <= maxPid < pass.Length
      ensures Valid() && this.pass == pass && this.share == share && this.full == full && this.maxPid == maxPid
    {
      this.pass, this.share, this.full, this.maxPid := pass, share, full, maxPid;
    }

    ghost predicate Valid()
      reads this
    {
      share.Length == pass.Length && full.Length == pass.Length && -1 <= maxPid < pass.Length
    }

    method PathCal() returns (d: int)
      requires Valid()
      ensures Picks(pass[..], full[..], maxPid, d)
    {
      d := 0;
      var minimum := MAXINT;
      var i := 0;
      while i < maxPid + 1
        invariant 0 <= i <= maxPid + 1
        invariant forall j :: 0 <= j < i && Eligible(full[..], maxPid, j) ==> minimum <= pass[j]
        invariant minimum == MAXINT ==> d == 0
        invariant minimum < MAXINT ==> Eligible(full[..], maxPid, d) && d < i && pass[d] == minimum
        invariant minimum < MAXINT ==> forall j :: 0 <= j < d && Eligible(full[..], maxPid, j) ==> minimum < pass[j]
        invariant minimum <= MAXINT
      {
        if i == 1 || i == 2 {
          i := i + 1;
          continue;
        }
        if full[i] {
          if pass[i] < minimum {
            minimum := pass[i];
            d := i;
          }
        }
        i := i + 1;
      }
    }

    /** stride: the pass of entry d grows by 10000 over its share, as a 32-bit int. */
    method Advance(d: int) returns (r: Outcome)
      requires Valid() && 0 <= d < pass.Length && share != pass && -MAXINT - 1 <= pass[d] <= MAXINT
      modifies pass
      ensures r == if share[d] < 0 then Panicked else if share[d] == 0 then Trapped else Advanced
      ensures r.Advanced? ==> pass[..] == old(pass[..])[d := Add32(old(pass[d]), BIG / share[d])]
      ensures !r.Advanced? ==> pass[..] == old(pass[..])
      ensures r.Advanced? ==> (pass[d] >= old(pass[d]) <==> old(pass[d]) + BIG / share[d] <= MAXINT)
    {
      if share[d] < 0 {
        return Panicked;
      }
      if share[d] == 0 {
        return Trapped;
      }
      pass[d] := Add32(pass[d], BIG / share[d]);
      return Advanced;
    }
  }

  // ----- whole runs -----

  /** The passes, and how often each entry has been chosen. */
  datatype State = State(pass: seq<int>, count: seq<nat>)

  datatype Table = Table(share: seq<int>, full: seq<bool>, maxPid: int) {
    ghost predicate Valid() {
      |full| == |share| && maxPid < |share| && forall i :: Eligible(full, maxPid, i) ==> share[i] > 0
    }

    ghost predicate May(i: int) {
      Eligible(full, maxPid, i)
    }

    function Step(i: int): int
      requires 0 <= i < |share|
    {
      if share[i] > 0 then BIG / share[i] else 0
    }
  }

  ghost predicate Sized(t: Table, s: State) {
    t.Valid() && |s.pass| == |t.share| && |s.count| == |t.share|
  }

  /** One choice by path_cal and the advance of the entry chosen, d. */
  ghost predicate Next(t: Table, s: State, d: int, s': State) {
    && Sized(t, s) && Picks(s.pass, t.full, t.maxPid, d) && 0 <= d < |s.pass|
    && s' == State(s.pass[d := s.pass[d] + t.Step(d)], s.count[d := s.count[d] + 1])
  }

  ghost predicate IsRun(t: Table, p0: int, run: seq<State>, picks: seq<int>) {
    && |run| == |picks| + 1 && Sized(t, run[0])
    && (forall i :: t.May(i) ==> run[0].pass[i] == p0 && run[0].count[i] == 0)
    && forall k {:trigger picks[k]} :: 0 <= k < |picks| ==> Next(t, run[k], picks[k], run[k + 1])
  }

  /** No pass has reached the largest int. */
  ghost predicate Below(t: Table, s: State) {
    Sized(t, s) && forall i :: t.May(i) ==> s.pass[i] < MAXINT
  }

  ghost predicate Fair(t: Table, s: State) {
    Sized(t, s) && forall i, j :: t.May(i) && t.May(j) ==> s.pass[i] - s.pass[j] <= t.Step(i)
  }

  ghost predicate Counted(t: Table, p0: int, s: State) {
    Sized(t, s) && forall i :: t.May(i) ==> s.pass[i] == p0 + s.count[i] * t.Step(i)
  }

  lemma NextFair(t: Table, s: State, d: int, s': State)
    requires Fair(t, s) && Below(t, s) && Next(t, s, d, s')
    ensures Fair(t, s')
  {
  }

  lemma NextCounted(t: Table, p0: int, s: State, d: int, s': State)
    requires Counted(t, p0, s) && Next(t, s, d, s')
    ensures Counted(t, p0, s')
  {
  }

  lemma {:induction false} RunFair(t: Table, p0: int, run: seq<State>, picks: seq<int>, k: nat)
    requires IsRun(t, p0, run, picks) && k < |run|
    requires forall m :: 0 <= m < |run| ==> Below(t, run[m])
    ensures Fair(t, run[k]) && Counted(t, p0, run[k])
  {
    if k == 0 {
      forall i | t.May(i)
        ensures run[0].pass[i] == p0 + run[0].count[i] * t.Step(i) && t.Step(i) >= 0
      {
      }
    } else {
      RunFair(t, p0, run, picks, k - 1);
      NextFair(t, run[k - 1], picks[k - 1], run[k]);
      NextCounted(t, p0, run[k - 1], picks[k - 1], run[k]);
    }
  }

  /** Fairness: from equal passes, no entry ever runs ahead of another by more than its own stride. */
  lemma PassesStayClose(t: Table, p0: int, run: seq<State>, picks: seq<int>, k: nat, i: int, j: int)
    requires IsRun(t, p0, run, picks) && k < |run| && t.May(i) && t.May(j)
    requires forall m :: 0 <= m < |run| ==> Below(t, run[m])
    ensures |run[k].pass| == |t.share| && run[k].pass[i] - run[k].pass[j] <= BIG / t.share[i]
  {
    RunFair(t, p0, run, picks, k);
  }

  /** So the counts are in proportion: the work done for i exceeds that for j by at most one turn of i. */
  lemma CountsStayProportional(t: Table, p0: int, run: seq<State>, picks: seq<int>, k: nat, i: int, j: int)
    requires IsRun(t, p0, run, picks) && k < |run| && t.May(i) && t.May(j)
    requires forall m :: 0 <= m < |run| ==> Below(t, run[m])
    ensures |run[k].count| == |t.share|
    ensures (run[k].count[i] - 1) * (BIG / t.share[i]) <= run[k].count[j] * (BIG / t.share[j])
  {
    RunFair(t, p0, run, picks, k);
    var s := run[k];
    assert s.pass[i] == p0 + s.count[i] * t.Step(i) && s.pass[j] == p0 + s.count[j] * t.Step(j);
    assert s.pass[i] - s.pass[j] <= t.Step(i);
    assert (s.count[i] - 1) * t.Step(i) == s.count[i] * t.Step(i) - t.Step(i);
  }
}
