/**
  Commit and recovery come to their end. From a quiet cache with a buffer to spare, commit() gets from its first copy
  to an idle system whose disk holds what was logged; with two buffers, recovery gets from a restart to an idle system
  whose disk holds what was committed.
*/
module LogProgress {
  import opened Blocks
  import opened CrashLog
  import opened LogOverflow
  import opened Param

  lemma HomesAreWords(g: Geo, h: seq<nat>)
    requires g.Ok() && HomesOnly(g, h) && |h| <= LOGSIZE
    ensures EntriesOk(h)
  {
    forall i | 0 <= i < |h|
      ensures h[i] <= U32_MAX
    {
      assert g.Home(h[i]);
    }
  }

  /** The committer writes the header. */
  lemma WritesHead(g: Geo, m: nat, s0: State, s: State) returns (s': State)
    requires On(g, m, s0, s) && s.phase == Logging(|s.log.blocks|) && UsedOnly(s, {}) && Spare(s)
    requires |s.log.blocks| < g.size && |s.log.blocks| <= LOGSIZE
    ensures On(g, m, s0, s') && UsedOnly(s', {}) && |s'.bufs| == |s.bufs|
    ensures s' == s.(disk := s'.disk, bufs := s'.bufs, phase := Installing(0), committed := s.latest)
  {
    var s1, k := Bread(g, m, s0, s, s.who, g.start, {});
    HomesAreWords(g, s.log.blocks);
    var s2 := Bwrite(s1, k, PutHead(s1.bufs[k].data, s.log.blocks)).(phase := Installing(0), committed := s.latest);
    Go(g, m, s0, s1, WriteHead(k), s2);
    s' := Release(g, m, s0, s2, s.who, k, {});
  }

  /** install_trans copies one block home. */
  lemma InstallNext(g: Geo, m: nat, s0: State, s: State, t: nat, n: nat) returns (s': State)
    requires On(g, m, s0, s) && s.phase == Installing(t) && t < |s.log.blocks| && n == t + 1
    requires UsedOnly(s, {}) && Spare(s)
    ensures On(g, m, s0, s') && UsedOnly(s', {}) && |s'.bufs| == |s.bufs|
    ensures s' == s.(bufs := s'.bufs, disk := s'.disk, phase := Installing(n))
  {
    assert !g.Home(g.start + 1 + t);
    var s1, k, j := GetBoth(g, m, s0, s, t);
    var s2 := Bwrite(s1, j, s1.bufs[k].data).(phase := Installing(n));
    Go(g, m, s0, s1, InstallOne(k, j), s2);
    assert {j} + {k} == {k, j};
    s' := Release(g, m, s0, s2, s.who, k, {j});
    s' := Release(g, m, s0, s', s.who, j, {});
  }

  lemma {:induction false} InstallUp(g: Geo, m: nat, s0: State, s: State, n: nat) returns (s': State)
    requires On(g, m, s0, s) && s.phase == Installing(0) && n <= |s.log.blocks|
    requires UsedOnly(s, {}) && Spare(s)
    ensures On(g, m, s0, s') && UsedOnly(s', {}) && |s'.bufs| == |s.bufs|
    ensures s' == s.(bufs := s'.bufs, disk := s'.disk, phase := Installing(n))
  {
    if n == 0 {
      s' := s;
    } else {
      s' := InstallUp(g, m, s0, s, n - 1);
      s' := InstallNext(g, m, s0, s', n - 1, n);
    }
  }

  /** Nothing is outstanding: the header on disk is empty and every home block holds its contents in c. */
  ghost predicate Settled(g: Geo, s: State, c: seq<Block>) {
    && s.phase == Idle && !s.recovering && !s.log.committing && s.log.blocks == []
    && |s.disk| == |c| == g.dsize && g.start < g.dsize && Spelled(s.disk[g.start], 0) == 0
    && forall b: nat :: b < g.dsize && (b < g.start || g.start + g.size <= b) ==> s.disk[b] == c[b]
  }

  lemma IdleSettled(g: Geo, s: State)
    requires Inv(g, s) && s.phase == Idle && s.log.blocks == []
    ensures Settled(g, s, s.committed)
  {
    var blk := s.disk[g.start];
    WordIs(blk, 0);
    assert |HeadOf(blk)| == if Word(blk, 0) <= 127 then Word(blk, 0) else 127;
    forall b: nat | b < g.dsize && (b < g.start || g.start + g.size <= b)
      ensures s.disk[b] == s.committed[b]
    {
      assert g.Home(b);
    }
  }

  /** What is in the log goes home, the header is emptied, and the commit or the recovery is over. */
  lemma Settles(g: Geo, m: nat, s0: State, s: State) returns (s': State)
    requires On(g, m, s0, s) && s.phase == Installing(0) && UsedOnly(s, {}) && Spare(s)
    ensures On(g, m, s0, s') && UsedOnly(s', {}) && |s'.bufs| == |s.bufs| && Settled(g, s', s.committed)
    ensures s'.log.ops == s.log.ops && s'.latest == s.latest && s'.committed == s.committed
  {
    var s1 := InstallUp(g, m, s0, s, |s.log.blocks|);
    var s2 := s1.(log := s1.log.(blocks := []), phase := Erasing);
    Go(g, m, s0, s1, EraseMem, s2);
    var s3 := WritesBack(g, m, s0, s2);
    s' := s3.(log := s3.log.(committing := false), phase := Idle, recovering := false);
    Go(g, m, s0, s3, Step.Finish, s');
    IdleSettled(g, s');
  }

  /** A commit with a buffer to spare ends, and everything logged is then at home. */
  lemma CommitEnds(g: Geo, s: State) returns (s': State)
    requires Inv(g, s) && Fits(g, s) && s.phase == Logging(0) && UsedOnly(s, {}) && |s.log.blocks| < |s.bufs|
    ensures Leads(g, 0, s, s') && Settled(g, s', s.latest) && s'.latest == s'.committed == s.latest
  {
    FitsInArray(g, s);
    LeadsSelf(g, 0, s);
    var n := |s.log.blocks|;
    var s1 := CopyUp(g, 0, s, s, n);
    var s2 := WritesHead(g, 0, s, s1);
    s' := Settles(g, 0, s, s2);
  }

  /** From a quiet cache, a commit can end if and only if its entries are fewer than the buffers. */
  lemma CommitEndsIff(g: Geo, s: State)
    requires Inv(g, s) && Fits(g, s) && s.phase == Logging(0) && UsedOnly(s, {}) && 2 <= g.size && s.log.blocks != []
    ensures (exists m: nat, s' :: Leads(g, m, s, s') && Settled(g, s', s.latest)) <==> |s.log.blocks| < |s.bufs|
  {
    if |s.log.blocks| < |s.bufs| {
      var s' := CommitEnds(g, s);
    } else {
      forall m: nat, s' | Leads(g, m, s, s')
        ensures s'.phase == Logging(0)
      {
        var path, steps :| IsPath(g, m, path, steps) && path[0] == s && path[|path| - 1] == s';
        Stuck(g, m, path, steps, |path| - 1);
      }
    }
  }

  /**
    A restart after a crash in any state: with two buffers, recovery ends, and the disk is what it would recover to.
  */
  lemma RecoveryEnds(g: Geo, s: State, boot: nat, s1: State) returns (s': State)
    requires Inv(g, s) && NextStep(g, s, s1, Crash(boot)) && |s.bufs| >= 2
    ensures Leads(g, 0, s1, s') && Settled(g, s', s.committed) && s'.latest == s'.committed == s.committed
  {
    CrashKeeps(g, s, s1, boot);
    LeadsSelf(g, 0, s1);
    var h := HeadOf(s1.disk[g.start]);
    assert g.start !in h by {
      assert HeadOk(g, h);
    }
    var s2, k := Bread(g, 0, s1, s1, boot, g.start, {});
    LogBlockReads(g, s2, k, g.start);
    var s3 := s2.(phase := Installing(0), log := s2.log.(blocks := h));
    Go(g, 0, s1, s2, ReadHead(k), s3);
    var s4 := Release(g, 0, s1, s3, boot, k, {});
    s' := Settles(g, 0, s1, s4);
  }
}
