/** bio.c: the buffer list, a circular doubly linked list through head, most recently released first. */
module Bio {
  import opened Param

  class Buf {
    var dev: nat
    var blockno: nat
    var valid: bool          // B_VALID
    var dirty: bool          // B_DIRTY
    var refcnt: nat
    var prev: Buf?
    var next: Buf?

    constructor ()
      ensures dev == 0 && blockno == 0 && !valid && !dirty && refcnt == 0
    {
      dev, blockno, valid, dirty, refcnt := 0, 0, false, false, 0;
      prev, next := null, null;
    }
  }

  /** The i-th node going round from head: head itself, then r, then head again. */
  function Node(head: Buf, r: seq<Buf>, i: int): Buf {
    if 1 <= i <= |r| then r[i - 1] else head
  }

  ghost predicate Apart(r: seq<Buf>, i: int, j: int) {
    0 <= i < j < |r| ==> r[i] != r[j]
  }

  ghost predicate Distinct(head: Buf, r: seq<Buf>) {
    head !in r && forall i, j {:trigger Apart(r, i, j)} :: Apart(r, i, j)
  }

  /** next and prev run through head and r in order, both ways, and close the circle. */
  ghost predicate Linked(head: Buf, r: seq<Buf>)
    reads head`next, head`prev, r`next, r`prev
  {
    && Distinct(head, r)
    && (forall i {:trigger Node(head, r, i).next} :: 0 <= i <= |r| ==> Node(head, r, i).next == Node(head, r, i + 1))
    && (forall i {:trigger Node(head, r, i).prev} ::
          1 <= i <= |r| + 1 ==> Node(head, r, i).prev == Node(head, r, i - 1))
  }

  lemma NodesApart(head: Buf, r: seq<Buf>, i: int, j: int)
    requires Distinct(head, r) && 0 <= i <= |r| && 0 <= j <= |r| && i != j
    ensures Node(head, r, i) != Node(head, r, j)
  {
    assert Apart(r, i - 1, j - 1) && Apart(r, j - 1, i - 1);
  }

  lemma DistinctFront(head: Buf, b: Buf, r: seq<Buf>)
    requires Distinct(head, r) && b != head && b !in r
    ensures Distinct(head, [b] + r)
  {
    forall i, j
      ensures Apart([b] + r, i, j)
    {
      assert Apart(r, i - 1, j - 1);
    }
  }

  lemma DistinctRest(head: Buf, r: seq<Buf>, k: nat)
    requires Distinct(head, r) && k < |r|
    ensures Distinct(head, r[..k] + r[k + 1..]) && r[k] !in r[..k] + r[k + 1..]
  {
    var s := r[..k] + r[k + 1..];
    forall i | 0 <= i < |s|
      ensures s[i] != r[k]
    {
      assert Apart(r, i, k) && Apart(r, k, i + 1);
    }
    forall i, j
      ensures Apart(s, i, j)
    {
      assert Apart(r, if i < k then i else i + 1, if j < k then j else j + 1);
    }
  }

  /** binit and brelse: put b at the front of the list. */
  method LinkFront(head: Buf, b: Buf, ghost r: seq<Buf>, ghost s: seq<Buf>)
    requires Linked(head, r) && b != head && b !in r && s == [b] + r
    modifies {head, b}`next, {head, b}`prev, r`prev
    ensures Linked(head, s)
  {
    DistinctFront(head, b, r);
    assert Node(head, r, 0).next == Node(head, r, 1);
    var first := head.next;
    b.next := first;
    b.prev := head;
    first.prev := b;
    head.next := b;
    forall i | 0 <= i <= |s|
      ensures Node(head, s, i).next == Node(head, s, i + 1)
    {
      assert i >= 2 ==> old(Node(head, r, i - 1).next) == Node(head, r, i);
    }
    forall i | 1 <= i <= |s| + 1
      ensures Node(head, s, i).prev == Node(head, s, i - 1)
    {
      if i >= 3 {
        assert old(Node(head, r, i - 1).prev) == Node(head, r, i - 2);
        NodesApart(head, r, 1, if i - 1 <= |r| then i - 1 else 0);
      }
    }
  }

  /** brelse: take b, the k-th of the list, out of it. */
  method Unlink(head: Buf, b: Buf, ghost r: seq<Buf>, ghost k: nat, ghost s: seq<Buf>)
    requires Linked(head, r) && k < |r| && r[k] == b && s == r[..k] + r[k + 1..]
    modifies {head}`next, {head}`prev, r`next, r`prev
    ensures Linked(head, s)
    ensures b.next == old(b.next) && b.prev == old(b.prev)
  {
    DistinctRest(head, r, k);
    assert Node(head, r, k + 1) == b;
    assert Node(head, r, k + 1).next == Node(head, r, k + 2) && Node(head, r, k + 1).prev == Node(head, r, k);
    NodesApart(head, r, k, k + 1);
    b.next.prev := b.prev;
    b.prev.next := b.next;
    forall i | 0 <= i <= |s|
      ensures Node(head, s, i).next == Node(head, s, i + 1)
    {
      ghost var m := if i <= k then i else i + 1;
      assert Node(head, s, i) == Node(head, r, m);
      assert old(Node(head, r, m).next) == Node(head, r, m + 1);
      if m != k {
        NodesApart(head, r, m, k);
      }
    }
    forall i | 1 <= i <= |s| + 1
      ensures Node(head, s, i).prev == Node(head, s, i - 1)
    {
      ghost var m := if i <= k then i else i + 1;
      assert Node(head, s, i) == Node(head, r, m);
      assert old(Node(head, r, m).prev) == Node(head, r, m - 1);
      if m != k + 2 {
        NodesApart(head, r, if m <= |r| then m else 0, if k + 2 <= |r| then k + 2 else 0);
      }
    }
  }

  ghost predicate Later(freed: map<Buf, int>, r: seq<Buf>, i: int, j: int) {
    0 <= i < j < |r| && r[i] in freed && r[j] in freed ==> freed[r[i]] > freed[r[j]]
  }

  /** The list runs from the latest release to the oldest. */
  ghost predicate Recency(r: seq<Buf>, freed: map<Buf, int>, clock: int) {
    && (forall i, j {:trigger Later(freed, r, i, j)} :: Later(freed, r, i, j))
    && (forall c :: c in r ==> c in freed && freed[c] < clock)
  }

  ghost predicate Labelled(b: Buf, d: nat, n: nat)
    reads b`dev, b`blockno
  {
    b.dev == d && b.blockno == n
  }

  ghost predicate Blank(b: Buf)
    reads b`dev, b`blockno, b`refcnt, b`valid, b`dirty
  {
    Labelled(b, 0, 0) && b.refcnt == 0 && !b.valid && !b.dirty
  }

  /** Both buffers hold the same block. Buffers that hold none are labelled (0, 0). */
  ghost predicate Clash(b: Buf, c: Buf)
    reads b`dev, b`blockno, c`dev, c`blockno
  {
    Labelled(b, c.dev, c.blockno) && !Labelled(b, 0, 0)
  }

  ghost predicate Unique(all: set<Buf>)
    reads all`dev, all`blockno
  {
    forall b, c {:trigger Clash(b, c)} :: b in all && c in all && b != c ==> !Clash(b, c)
  }

  /** A buffer that bget may recycle. */
  ghost predicate Eligible(b: Buf)
    reads b`refcnt, b`dirty
  {
    b.refcnt == 0 && !b.dirty
  }

  ghost predicate Members(r: seq<Buf>, all: set<Buf>) {
    |r| == |all| && (forall b :: b in r ==> b in all) && (forall b :: b in all ==> b in r)
  }

  lemma MembersFront(r: seq<Buf>, all: set<Buf>, b: Buf)
    requires Members(r, all) && b !in all
    ensures Members([b] + r, all + {b})
  {
  }

  function Without(r: seq<Buf>, b: Buf): seq<Buf> {
    if r == [] then [] else if r[0] == b then r[1..] else [r[0]] + Without(r[1..], b)
  }

  lemma {:induction false} WithoutIs(r: seq<Buf>, k: nat)
    requires k < |r| && r[k] !in r[..k]
    ensures Without(r, r[k]) == r[..k] + r[k + 1..]
  {
    if k > 0 {
      assert r[..k] == [r[0]] + r[1..][..k - 1];
      WithoutIs(r[1..], k - 1);
      assert r == [r[0]] + r[1..];
    }
  }

  /** The list r' is r with its k-th buffer moved to the front. */
  ghost predicate IsMoved(r: seq<Buf>, k: nat, s: seq<Buf>, r': seq<Buf>) {
    k < |r| && s == r[..k] + r[k + 1..] && r' == [r[k]] + s
  }

  lemma MovedMembers(head: Buf, r: seq<Buf>, k: nat, s: seq<Buf>, r': seq<Buf>, all: set<Buf>)
    requires IsMoved(r, k, s, r') && Distinct(head, r) && Members(r, all)
    ensures r[k] !in s && Members(r', all) && |r'| == |r| && r' == [r[k]] + Without(r, r[k])
  {
    assert r == r[..k] + [r[k]] + r[k + 1..];
    DistinctRest(head, r, k);
    WithoutIs(r, k);
  }

  lemma MovedRecency(r: seq<Buf>, k: nat, s: seq<Buf>, r': seq<Buf>, freed: map<Buf, int>, freed': map<Buf, int>,
                     clock: int, clock': int)
    requires IsMoved(r, k, s, r') && Recency(r, freed, clock) && r[k] !in s
    requires freed' == freed[r[k] := clock] && clock' == clock + 1
    ensures Recency(r', freed', clock') && forall c :: c in r' && c != r[k] ==> freed'[c] < freed'[r[k]]
  {
    forall c | c in s
      ensures c in r
    {
      assert c in r[..k] || c in r[k + 1..];
    }
    forall i, j
      ensures Later(freed', r', i, j)
    {
      assert Later(freed, r, if i <= k then i - 1 else i, if j <= k then j - 1 else j);
    }
  }

  lemma RecencyFront(b: Buf, r: seq<Buf>, freed: map<Buf, int>, clock: int)
    requires Recency(r, freed, clock) && b !in r
    ensures Recency([b] + r, freed[b := clock], clock + 1)
  {
    forall i, j {:trigger Later(freed[b := clock], [b] + r, i, j)}
      ensures Later(freed[b := clock], [b] + r, i, j)
    {
      assert Later(freed, r, i - 1, j - 1);
    }
  }

  class Bcache {
    const head: Buf
    ghost var all: set<Buf>        // bcache.buf[0..NBUF]
    ghost var ring: seq<Buf>       // the list from head.next on
    ghost var freed: map<Buf, int> // when each buffer's refcnt last dropped to 0
    ghost var clock: int

    ghost predicate Valid()
      reads this, head`next, head`prev, ring`next, ring`prev, all`dev, all`blockno
    {
      && Linked(head, ring)
      && Members(ring, all) && |ring| == NBUF
      && Recency(ring, freed, clock)
      && Unique(all)
    }

    constructor ()
      ensures fresh(head) && all == {} && ring == [] && freed == map[]
    {
      head := new Buf();
      all := {};
      ring := [];
      freed := map[];
      clock := 0;
    }

    /** One turn of binit's loop. */
    method AddBuffer() returns (b: Buf)
      requires Linked(head, ring) && Recency(ring, freed, clock) && Members(ring, all)
      modifies this, head`next, head`prev, ring`prev
      ensures fresh(b) && Blank(b) && ring == [b] + old(ring) && all == old(all) + {b}
      ensures Linked(head, ring) && Recency(ring, freed, clock) && Members(ring, all)
    {
      b := new Buf();
      ghost var longer, freed' := [b] + ring, freed[b := clock];
      MembersFront(ring, all, b);
      RecencyFront(b, ring, freed, clock);
      LinkFront(head, b, ring, longer);
      ring, all, freed, clock := longer, all + {b}, freed', clock + 1;
    }

    /** An empty list, then each buffer in turn at its front. */
    method Binit()
      requires all == {} && ring == []
      modifies this, head
      ensures Valid() && fresh(all) && forall b :: b in ring ==> Blank(b)
    {
      head.prev := head;
      head.next := head;
      var i := 0;
      while i < NBUF
        invariant 0 <= i <= NBUF && |ring| == i
        invariant Linked(head, ring) && Recency(ring, freed, clock) && Members(ring, all)
        invariant fresh(ring) && forall b :: b in ring ==> Blank(b)
      {
        var _ := AddBuffer();
        i := i + 1;
      }
    }

    /** bget's first scan, from the most recent end: the buffer holding the block, if any. */
    method FindCached(d: nat, n: nat) returns (b: Buf?)
      requires Linked(head, ring)
      ensures b == null ==> forall c :: c in ring ==> !Labelled(c, d, n)
      ensures b != null ==> b in ring && Labelled(b, d, n)
    {
      assert Node(head, ring, 0).next == Node(head, ring, 1);
      b := head.next;
      ghost var k := 0;
      while b != head
        invariant 0 <= k <= |ring| && b == Node(head, ring, k + 1)
        invariant forall i :: 0 <= i < k ==> !Labelled(ring[i], d, n)
        decreases |ring| - k
      {
        if b.dev == d && b.blockno == n {
          return;
        }
        assert Node(head, ring, k + 1).next == Node(head, ring, k + 2);
        b := b.next;
        k := k + 1;
      }
      b := null;
    }

    /** bget's second scan, from the oldest end: the eligible buffer released longest ago, if any. */
    method FindOldest() returns (b: Buf?)
      requires Linked(head, ring) && Recency(ring, freed, clock)
      ensures b == null ==> forall c :: c in ring ==> !Eligible(c)
      ensures b != null ==> b in ring && Eligible(b) && forall c :: c in ring && Eligible(c) ==> freed[b] <= freed[c]
    {
      ghost var k := |ring|;
      assert Node(head, ring, k + 1).prev == Node(head, ring, k);
      b := head.prev;
      while b != head
        invariant 0 <= k <= |ring| && b == Node(head, ring, k)
        invariant forall i :: k <= i < |ring| ==> !Eligible(ring[i])
        decreases k
      {
        if b.refcnt == 0 && !b.dirty {
          forall i | 0 <= i < k - 1
            ensures freed[b] < freed[ring[i]]
          {
            assert Later(freed, ring, i, k - 1);
          }
          return;
        }
        assert Node(head, ring, k).prev == Node(head, ring, k - 1);
        b := b.prev;
        k := k - 1;
      }
      b := null;
    }

    /** Relabel a buffer that nobody uses. */
    method Recycle(b: Buf, d: nat, n: nat)
      requires Valid() && b in ring && forall c :: c in ring ==> !Labelled(c, d, n)
      modifies b`dev, b`blockno, b`valid, b`dirty, b`refcnt
      ensures Valid()
      ensures Labelled(b, d, n) && !b.valid && !b.dirty && b.refcnt == 1
    {
      b.dev, b.blockno, b.valid, b.dirty, b.refcnt := d, n, false, false, 1;
      forall x, y | x in all && y in all && x != y
        ensures !Clash(x, y)
      {
        assert !old(Clash(x, y)) && !old(Labelled(x, d, n)) && !old(Labelled(y, d, n));
      }
    }

    /** A buffer labelled (d, n) with one more reference, or null where the kernel panics for want of buffers. */
    method Bget(d: nat, n: nat) returns (b: Buf?)
      requires Valid()
      modifies ring`dev, ring`blockno, ring`valid, ring`dirty, ring`refcnt
      ensures Valid()
      ensures b == null <==> forall c :: c in ring ==> !old(Labelled(c, d, n)) && !old(Eligible(c))
      ensures b != null ==> b in ring && Labelled(b, d, n) && b.refcnt == old(b.refcnt) + 1
      ensures forall c :: c in ring && c != b ==> unchanged(c)
      // cached: the contents and flags stay
      ensures b != null && old(Labelled(b, d, n)) ==> b.valid == old(b.valid) && b.dirty == old(b.dirty)
      // not cached: of the buffers neither in use nor dirty, the one released longest ago is taken
      ensures b != null && !old(Labelled(b, d, n)) ==>
                && (forall c :: c in ring ==> !old(Labelled(c, d, n)))
                && old(Eligible(b)) && !b.valid && !b.dirty
                && (forall c :: c in ring && old(Eligible(c)) ==> freed[b] <= freed[c])
    {
      b := FindCached(d, n);
      if b != null {
        b.refcnt := b.refcnt + 1;
        return;
      }
      b := FindOldest();
      if b != null {
        Recycle(b, d, n);
      }
    }

    method MoveToFront(b: Buf, ghost k: nat)
      requires Valid() && k < |ring| && ring[k] == b
      modifies this`ring, this`freed, this`clock, head`next, head`prev, ring`next, ring`prev
      ensures Valid() && ring == [b] + Without(old(ring), b)
      ensures forall c :: c in ring && c != b ==> freed[c] < freed[b]
    {
      ghost var s := ring[..k] + ring[k + 1..];
      ghost var moved, freed', clock' := [b] + s, freed[b := clock], clock + 1;
      MovedMembers(head, ring, k, s, moved, all);
      MovedRecency(ring, k, s, moved, freed, freed', clock, clock');
      Unlink(head, b, ring, k, s);
      LinkFront(head, b, s, moved);
      ring, freed, clock := moved, freed', clock';
    }

    /** Drop a reference; the buffer whose last reference goes moves to the front. */
    method Brelse(b: Buf)
      requires Valid() && b in ring && b.refcnt > 0
      modifies this`ring, this`freed, this`clock, head`next, head`prev, ring`next, ring`prev, {b}`refcnt
      ensures Valid()
      ensures b.refcnt == old(b.refcnt) - 1
      ensures b.refcnt > 0 ==> ring == old(ring)
      ensures b.refcnt == 0 ==> ring == [b] + Without(old(ring), b)
      ensures b.refcnt == 0 ==> forall c :: c in ring && c != b ==> freed[c] < freed[b]
    {
      b.refcnt := b.refcnt - 1;
      if b.refcnt == 0 {
        ghost var k :| 0 <= k < |ring| && ring[k] == b;
        MoveToFront(b, k);
      }
    }
  }
}
