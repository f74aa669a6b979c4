/** pipe.c: a ring of PIPESIZE bytes with 32-bit counters, and the runs of readers and writers over it. */
module Pipe {
  const PIPESIZE := 512
  const WORD := 0x1_0000_0000

  /** How a stretch with the pipe lock held ends. */
  datatype Ending = Slept | Failed | Returned

  /** All bytes ever stored, and all bytes ever handed to readers. */
  datatype Flow = Flow(stored: seq<int>, got: seq<int>) {
    ghost predicate Valid() {
      got <= stored && |stored| <= |got| + PIPESIZE
    }

    function Held(): int {
      |stored| - |got|
    }

    function Buffered(): seq<int> {
      if |got| <= |stored| then stored[|got|..] else []
    }
  }

  function Min(a: int, b: int): int {
    if a < b then a else b
  }

  /** Where pipewrite stops when it starts at i and may run until the buffer is full. */
  function StopAt(f: Flow, n: nat, i: nat): (stop: nat)
    requires i <= n
    ensures i <= stop <= n
  {
    if f.Held() >= PIPESIZE then i else Min(n, i + PIPESIZE - f.Held())
  }

  function WriteEnding(f: Flow, n: nat, i: nat, readopen: bool, killed: bool): Ending
    requires i <= n
  {
    if StopAt(f, n, i) == n then Returned else if !readopen || killed then Failed else Slept
  }

  function ReadEnding(f: Flow, writeopen: bool, killed: bool): Ending {
    if f.Held() == 0 && writeopen then (if killed then Failed else Slept) else Returned
  }

  function Written(f: Flow, src: seq<int>, i: nat): Flow
    requires i <= |src|
  {
    f.(stored := f.stored + src[i..StopAt(f, |src|, i)])
  }

  function Taken(f: Flow, n: nat): Flow {
    f.(got := f.got + f.Buffered()[..Min(n, |f.Buffered()|)])
  }

  /** What a read of n bytes takes. */
  lemma OldestBytes(f: Flow, n: nat)
    requires |f.got| <= |f.stored|
    ensures var m := if n < |f.stored| - |f.got| then n else |f.stored| - |f.got|;
            f.Buffered()[..Min(n, |f.Buffered()|)] == f.stored[|f.got|..|f.got| + m]
  {
  }

  /** Counters that wrap still tell empty from full, as the buffer never holds more than PIPESIZE. */
  lemma WrapDiff(a: nat, b: nat, d: nat)
    requires a <= b <= a + PIPESIZE && d <= PIPESIZE
    ensures b % WORD == (a % WORD + d) % WORD <==> b == a + d
  {
  }

  lemma WrapIndex(a: nat)
    ensures a % WORD % PIPESIZE == a % PIPESIZE
  {
  }

  lemma WrapNext(a: nat)
    ensures (a % WORD + 1) % WORD == (a + 1) % WORD
  {
  }

  lemma SlotsDiffer(a: nat, b: nat)
    requires a < b < a + PIPESIZE
    ensures a % PIPESIZE != b % PIPESIZE
  {
  }

  class Ring {
    const data: array<int>
    var nread: int
    var nwrite: int
    var readopen: bool
    var writeopen: bool
    ghost var flow: Flow

    ghost predicate Valid()
      reads this, data
    {
      && data.Length == PIPESIZE && flow.Valid()
      && nread == |flow.got| % WORD && nwrite == |flow.stored| % WORD
      && forall k :: |flow.got| <= k < |flow.stored| ==> data[k % PIPESIZE] == flow.stored[k]
    }

    constructor ()
      ensures Valid() && flow == Flow([], []) && readopen && writeopen
      ensures fresh(data)
    {
      data := new int[PIPESIZE];
      nread, nwrite, readopen, writeopen := 0, 0, true, true;
      flow := Flow([], []);
    }

    /** Stores one byte in the slot of the write counter. */
    method PutByte(c: int)
      requires Valid() && flow.Held() < PIPESIZE
      modifies this`nwrite, this`flow, data
      ensures Valid() && flow == old(flow).(stored := old(flow).stored + [c])
    {
      ghost var n := |flow.stored|;
      WrapIndex(n);
      WrapNext(n);
      forall k | |flow.got| <= k < n
        ensures k % PIPESIZE != n % PIPESIZE
      {
        SlotsDiffer(k, n);
      }
      data[nwrite % PIPESIZE] := c;
      nwrite := (nwrite + 1) % WORD;
      flow := flow.(stored := flow.stored + [c]);
    }

    /** Takes the byte in the slot of the read counter. */
    method GetByte() returns (c: int)
      requires Valid() && flow.Held() > 0
      modifies this`nread, this`flow
      ensures Valid() && c == old(flow).stored[|old(flow).got|] && flow == old(flow).(got := old(flow).got + [c])
    {
      WrapIndex(|flow.got|);
      WrapNext(|flow.got|);
      c := data[nread % PIPESIZE];
      nread := (nread + 1) % WORD;
      flow := flow.(got := flow.got + [c]);
    }

    /** pipewrite from byte i on, until it returns or sleeps. It calls wakeup(&nread) unless it fails. */
    method Write(src: seq<int>, i: nat, killed: bool) returns (stop: nat, end: Ending)
      requires Valid() && i <= |src|
      modifies this`nwrite, this`flow, data
      ensures Valid() && flow == Written(old(flow), src, i)
      ensures stop == StopAt(old(flow), |src|, i) && i <= stop <= |src|
      ensures end == WriteEnding(old(flow), |src|, i, readopen, killed)
      ensures end == Returned <==> |src| - i <= 512 - (|old(flow).stored| - |old(flow).got|)
      ensures end == Failed <==> end != Returned && (!readopen || killed)
      ensures end == Returned ==> flow == Flow(old(flow).stored + src[i..], old(flow).got)
      ensures end != Returned ==>
                && stop == i + 512 - (|old(flow).stored| - |old(flow).got|)
                && flow == Flow(old(flow).stored + src[i..stop], old(flow).got)
    {
      stop := i;
      assert src[i..i] == [];
      while stop < |src|
        invariant Valid() && i <= stop <= |src| && i + PIPESIZE - old(flow).Held() >= stop
        invariant flow == old(flow).(stored := old(flow).stored + src[i..stop])
      {
        WrapDiff(|flow.got|, |flow.stored|, PIPESIZE);
        if nwrite == (nread + PIPESIZE) % WORD {
          if !readopen || killed {
            return stop, Failed;
          }
          return stop, Slept;
        }
        PutByte(src[stop]);
        assert src[i..stop + 1] == src[i..stop] + [src[stop]];
        assert old(flow).stored + src[i..stop] + [src[stop]] == old(flow).stored + src[i..stop + 1];
        stop := stop + 1;
      }
      return stop, Returned;
    }

    /** The loop of piperead: the oldest bytes, up to n. */
    method TakeBytes(n: nat) returns (bytes: seq<int>)
      requires Valid()
      modifies this`nread, this`flow
      ensures Valid() && flow == Taken(old(flow), n)
      ensures bytes == old(flow).Buffered()[..Min(n, |old(flow).Buffered()|)]
    {
      bytes := [];
      var i := 0;
      while i < n
        invariant Valid() && 0 <= i <= n && i <= old(flow).Held()
        invariant bytes == old(flow).Buffered()[..i]
        invariant flow == old(flow).(got := old(flow).got + bytes)
      {
        WrapDiff(|flow.got|, |flow.stored|, 0);
        if nread == nwrite {
          break;
        }
        var c := GetByte();
        assert old(flow).Buffered()[..i + 1] == old(flow).Buffered()[..i] + [c];
        assert old(flow).got + bytes + [c] == old(flow).got + (bytes + [c]);
        bytes := bytes + [c];
        i := i + 1;
      }
    }

    /** piperead until it returns or sleeps. It calls wakeup(&nwrite) when it returns. */
    method Read(n: nat, killed: bool) returns (bytes: seq<int>, end: Ending)
      requires Valid()
      modifies this`nread, this`flow
      ensures Valid() && end == ReadEnding(old(flow), writeopen, killed)
      ensures end != Returned ==> bytes == [] && flow == old(flow)
      ensures end == Returned ==>
                flow == Taken(old(flow), n) && bytes == old(flow).Buffered()[..Min(n, |old(flow).Buffered()|)]
      ensures end == Returned <==> |old(flow).stored| > |old(flow).got| || !writeopen
      ensures end == Failed <==> end != Returned && killed
      ensures end == Returned ==>
                var m := if n < |old(flow).stored| - |old(flow).got| then n else |old(flow).stored| - |old(flow).got|;
                bytes == old(flow).stored[|old(flow).got|..|old(flow).got| + m]
    {
      WrapDiff(|flow.got|, |flow.stored|, 0);
      if nread == nwrite && writeopen {
        if killed {
          return [], Failed;
        }
        return [], Slept;
      }
      bytes := TakeBytes(n);
      OldestBytes(old(flow), n);
      return bytes, Returned;
    }

    /** pipeclose: one end is shut; free tells whether the pipe itself goes. */
    method Close(writable: bool) returns (free: bool)
      requires Valid()
      modifies this`readopen, this`writeopen
      ensures Valid() && readopen == (old(readopen) && writable) && writeopen == (old(writeopen) && !writable)
      ensures free <==> !readopen && !writeopen
    {
      if writable {
        writeopen := false;
      } else {
        readopen := false;
      }
      free := !readopen && !writeopen;
    }
  }
}
