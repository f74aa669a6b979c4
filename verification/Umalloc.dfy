/** umalloc.c: the user heap. Addresses count headers (8 bytes), the unit in which the allocator works. */
module Umalloc {
  const HEADER := 8
  const WORD := 0x1_0000_0000
  const GROW := 4096           // the fewest units morecore asks for
  const KERNBASE := 0x8000_0000

  /** A header field read at an address; memory never written holds 0. */
  function Read(m: map<int, int>, a: int): int {
    if a in m then m[a] else 0
  }

  ghost predicate Owns(owner: map<int, int>, h: int, n: int) {
    forall u {:trigger Read(owner, u)} :: h <= u < h + n ==> u in owner && Read(owner, u) == h
  }

  /** All blocks: the live ones and those on the free list. */
  ghost function Blocks(base: int, fl: seq<int>, live: set<int>): set<int> {
    live + (set h | h in fl) - {base}
  }

  ghost predicate Holds(size: map<int, int>, bs: set<int>, h: int, u: int) {
    h in bs && h <= u < h + Read(size, h)
  }

  /** Every unit obtained from sbrk lies in exactly one of the blocks bs: owner says which. */
  ghost predicate Partition(base: int, size: map<int, int>, bs: set<int>, owner: map<int, int>) {
    && (forall h :: h in bs ==> h > base && Read(size, h) >= 1 && Owns(owner, h, Read(size, h)))
    && (forall u :: u in owner ==> Holds(size, bs, Read(owner, u), u))
  }

  ghost predicate Before(size: map<int, int>, fl: seq<int>, i: int, j: int) {
    0 <= i < j < |fl| ==> fl[i] + Read(size, fl[i]) < fl[j]
  }

  /** From base up in address order, no block reaching the next one. */
  ghost predicate Ordered(base: int, size: map<int, int>, fl: seq<int>) {
    && |fl| > 0 && fl[0] == base && Read(size, base) == 0
    && (forall i, j {:trigger Before(size, fl, i, j)} :: Before(size, fl, i, j))
    && (forall i {:trigger fl[i]} :: 0 <= i < |fl| ==> Read(size, fl[i]) >= 0)
  }

  function NextOf(fl: seq<int>, i: int): int
    requires 0 <= i < |fl|
  {
    if i + 1 < |fl| then fl[i + 1] else fl[0]
  }

  /** The ptr fields run round the list, with the one wrap from its last block to base. */
  ghost predicate LinkedBut(ptr: map<int, int>, fl: seq<int>, t: int) {
    forall i {:trigger NextOf(fl, i)} :: 0 <= i < |fl| && i != t ==> Read(ptr, fl[i]) == NextOf(fl, i)
  }

  ghost predicate Linked(ptr: map<int, int>, fl: seq<int>) {
    LinkedBut(ptr, fl, -1)
  }

  lemma LinkAt(ptr: map<int, int>, fl: seq<int>, k: int)
    requires Linked(ptr, fl) && 0 <= k < |fl|
    ensures Read(ptr, fl[k]) == NextOf(fl, k)
  {
  }

  /** Address a falls between the t-th block of the list and the one after it. */
  ghost predicate Gap(fl: seq<int>, a: int, t: int) {
    0 <= t < |fl| && fl[t] < a && (t + 1 < |fl| ==> a < fl[t + 1])
  }

  lemma {:induction false} FindGap(base: int, size: map<int, int>, fl: seq<int>, a: int, n: nat) returns (t: nat)
    requires Ordered(base, size, fl) && a > base && a !in fl && n < |fl|
    requires n + 1 < |fl| ==> a < fl[n + 1]
    ensures Gap(fl, a, t)
  {
    if fl[n] < a {
      t := n;
    } else {
      t := FindGap(base, size, fl, a, n - 1);
    }
  }

  /** The list is strictly increasing. */
  lemma Increasing(base: int, size: map<int, int>, fl: seq<int>, i: int, j: int)
    requires Ordered(base, size, fl) && 0 <= i < j < |fl|
    ensures fl[i] < fl[j] && fl[i] + Read(size, fl[i]) < fl[j]
  {
    assert Before(size, fl, i, j);
  }

  /** Two different blocks have no unit in common. */
  lemma BlocksApart(base: int, size: map<int, int>, bs: set<int>, owner: map<int, int>, h: int, k: int)
    requires Partition(base, size, bs, owner) && h in bs && k in bs && h < k
    ensures h + Read(size, h) <= k
  {
    assert Read(owner, k) == k;
    assert h <= k < h + Read(size, h) ==> Read(owner, k) == h;
  }

  function Drop(fl: seq<int>, k: int): seq<int>
    requires 0 <= k < |fl|
  {
    fl[..k] + fl[k + 1..]
  }

  function Insert(fl: seq<int>, t: int, a: int): seq<int>
    requires 0 <= t < |fl|
  {
    fl[..t + 1] + [a] + fl[t + 1..]
  }

  function Reassign(owner: map<int, int>, from: int, to: int): map<int, int> {
    map u | u in owner :: if owner[u] == from then to else owner[u]
  }

  /** Block k joins block h, which ends where k starts. */
  lemma MergePartition(base: int, size: map<int, int>, bs: set<int>, owner: map<int, int>, h: int, k: int,
                       size': map<int, int>)
    requires Partition(base, size, bs, owner) && h in bs && k in bs && h + Read(size, h) == k
    requires size' == size[h := Read(size, h) + Read(size, k)]
    ensures Partition(base, size', bs - {k}, Reassign(owner, k, h))
  {
    var owner' := Reassign(owner, k, h);
    forall x | x in bs - {k}
      ensures x > base && Read(size', x) >= 1 && Owns(owner', x, Read(size', x))
    {
      forall u | x <= u < x + Read(size', x)
        ensures u in owner' && Read(owner', u) == x
      {
        assert x == h ==> Read(owner, u) == (if u < k then h else k);
        assert x != h ==> Read(owner, u) == x;
      }
    }
    forall u | u in owner'
      ensures Holds(size', bs - {k}, Read(owner', u), u)
    {
      assert Holds(size, bs, Read(owner, u), u);
    }
  }

  function Tail(owner: map<int, int>, h: int, q: int): map<int, int> {
    map u | u in owner :: if owner[u] == h && u >= q then q else owner[u]
  }

  /** The last n units of block h become a block of their own. */
  lemma SplitPartition(base: int, size: map<int, int>, bs: set<int>, owner: map<int, int>, h: int, n: int,
                       size': map<int, int>, owner': map<int, int>)
    requires Partition(base, size, bs, owner) && h in bs && 1 <= n < Read(size, h)
    requires var q := h + Read(size, h) - n;
             size' == size[h := Read(size, h) - n][q := n] && owner' == Tail(owner, h, q)
    ensures var q := h + Read(size, h) - n; q !in bs && Partition(base, size', bs + {q}, owner')
  {
    var q := h + Read(size, h) - n;
    assert Read(owner, q) == h;
    assert q in bs ==> Read(owner, q) == q;
    forall x | x in bs + {q}
      ensures x > base && Read(size', x) >= 1 && Owns(owner', x, Read(size', x))
    {
      forall u | x <= u < x + Read(size', x)
        ensures u in owner' && Read(owner', u) == x
      {
        assert Read(owner, u) == (if x == q then h else x);
      }
    }
    forall u | u in owner'
      ensures Holds(size', bs + {q}, Read(owner', u), u)
    {
      assert Holds(size, bs, Read(owner, u), u);
    }
  }

  function Region(a: int, n: int): (r: map<int, int>)
    ensures forall u :: (u in r <==> a <= u < a + n) && (u in r ==> r[u] == a)
    decreases n
  {
    if n <= 0 then map[] else Region(a, n - 1)[a + n - 1 := a]
  }

  /** n fresh units at a become one block. */
  lemma GrowPartition(base: int, size: map<int, int>, bs: set<int>, owner: map<int, int>, a: int, n: int,
                      size': map<int, int>, owner': map<int, int>)
    requires Partition(base, size, bs, owner) && a > base && n >= 1
    requires forall u :: a <= u < a + n ==> u !in owner
    requires size' == size[a := n] && owner' == owner + Region(a, n)
    ensures a !in bs && Partition(base, size', bs + {a}, owner')
  {
    assert a in bs ==> Read(owner, a) == a;
    forall x | x in bs + {a}
      ensures x > base && Read(size', x) >= 1 && Owns(owner', x, Read(size', x))
    {
      forall u | x <= u < x + Read(size', x)
        ensures u in owner' && Read(owner', u) == x
      {
        assert x != a ==> Read(owner, u) == x;
      }
    }
    forall u | u in owner'
      ensures Holds(size', bs + {a}, Read(owner', u), u)
    {
      assert u in owner ==> Holds(size, bs, Read(owner, u), u);
    }
  }

  /** Sizes may change as long as no block reaches the next one. */
  lemma OrderedResize(base: int, size: map<int, int>, fl: seq<int>, size': map<int, int>)
    requires Ordered(base, size, fl) && Read(size', base) == 0
    requires forall i {:trigger fl[i]} :: 0 <= i < |fl| ==> Read(size', fl[i]) >= 0
    requires forall i {:trigger NextOf(fl, i)} :: 0 <= i < |fl| - 1 ==> fl[i] + Read(size', fl[i]) < NextOf(fl, i)
    ensures Ordered(base, size', fl)
  {
    forall i, j
      ensures Before(size', fl, i, j)
    {
      if 0 <= i < j < |fl| {
        assert fl[i] + Read(size', fl[i]) < NextOf(fl, i);
        if i + 1 < j {
          Increasing(base, size, fl, i + 1, j);
        }
      }
    }
  }

  lemma OrderedDrop(base: int, size: map<int, int>, fl: seq<int>, k: int)
    requires Ordered(base, size, fl) && 1 <= k < |fl|
    ensures Ordered(base, size, Drop(fl, k))
  {
    forall i, j
      ensures Before(size, Drop(fl, k), i, j)
    {
      assert Before(size, fl, if i < k then i else i + 1, if j < k then j else j + 1);
    }
  }

  lemma OrderedInsert(base: int, size: map<int, int>, fl: seq<int>, t: int, a: int)
    requires Ordered(base, size, fl) && Gap(fl, a, t) && Read(size, a) >= 0
    requires fl[t] + Read(size, fl[t]) < a && (t + 1 < |fl| ==> a + Read(size, a) < fl[t + 1])
    ensures Ordered(base, size, Insert(fl, t, a))
  {
    var fl' := Insert(fl, t, a);
    forall i, j
      ensures Before(size, fl', i, j)
    {
      if 0 <= i < j < |fl'| {
        assert Before(size, fl, if i <= t then i else i - 1, if j <= t then j else j - 1);
        assert Before(size, fl, i, t) && Before(size, fl, t + 1, j - 1);
      }
    }
  }

  /** What malloc and free keep: a free list and live blocks that share out the units obtained. */
  ghost predicate IsHeap(base: int, ptr: map<int, int>, size: map<int, int>, fl: seq<int>, live: set<int>,
                         owner: map<int, int>)
  {
    && Ordered(base, size, fl) && Linked(ptr, fl)
    && Partition(base, size, Blocks(base, fl, live), owner)
    && (forall h :: h in live ==> h !in fl)
  }

  /** Between the two halves of free: bp, still live, fits after the t-th block and points past it. */
  ghost predicate IsJoining(base: int, ptr: map<int, int>, size: map<int, int>, fl: seq<int>, live: set<int>,
                            owner: map<int, int>, bp: int, t: int)
  {
    && Ordered(base, size, fl) && LinkedBut(ptr, fl, t)
    && Gap(fl, bp, t) && Read(ptr, bp) == NextOf(fl, t) && bp in live
    && Partition(base, size, Blocks(base, fl, live), owner)
    && (forall h :: h in live ==> h !in fl)
    && (t + 1 < |fl| ==> bp + Read(size, bp) < fl[t + 1])
  }

  ghost predicate SameSizes(live: set<int>, size: map<int, int>, size': map<int, int>) {
    forall h :: h in live ==> Read(size', h) == Read(size, h)
  }

  lemma DropBlocks(base: int, size: map<int, int>, fl: seq<int>, live: set<int>, k: int)
    requires Ordered(base, size, fl) && 1 <= k < |fl| && fl[k] !in live
    ensures Blocks(base, Drop(fl, k), live) == Blocks(base, fl, live) - {fl[k]}
  {
    assert fl == fl[..k] + [fl[k]] + fl[k + 1..];
    forall i | 0 <= i < |fl| && i != k
      ensures fl[i] != fl[k]
    {
      assert Before(size, fl, i, k) && Before(size, fl, k, i);
    }
  }

  /** Taking the k-th block out leaves the links right but for the one into it. */
  lemma LinksDrop(ptr: map<int, int>, fl: seq<int>, k: int)
    requires Linked(ptr, fl) && 1 <= k < |fl|
    ensures LinkedBut(ptr, Drop(fl, k), k - 1)
    ensures Read(ptr, fl[k]) == NextOf(Drop(fl, k), k - 1)
  {
    var fl' := Drop(fl, k);
    assert Read(ptr, fl[k]) == NextOf(fl, k);
    forall i | 0 <= i < |fl'| && i != k - 1
      ensures Read(ptr, fl'[i]) == NextOf(fl', i)
    {
      assert Read(ptr, fl'[i]) == NextOf(fl, if i < k then i else i + 1);
    }
  }

  lemma LinksFrame(ptr: map<int, int>, fl: seq<int>, t: int, a: int, v: int)
    requires LinkedBut(ptr, fl, t) && a !in fl
    ensures LinkedBut(ptr[a := v], fl, t)
  {
  }

  lemma UpperList(base: int, size: map<int, int>, fl: seq<int>, t: int, bp: int, size': map<int, int>)
    requires Ordered(base, size, fl) && Gap(fl, bp, t) && t + 1 < |fl| && bp !in fl && bp + Read(size, bp) == fl[t + 1]
    requires size' == size[bp := Read(size, bp) + Read(size, fl[t + 1])]
    ensures Ordered(base, size', Drop(fl, t + 1)) && Gap(Drop(fl, t + 1), bp, t)
    ensures t + 2 < |fl| ==> bp + Read(size', bp) < fl[t + 2]
  {
    var fl' := Drop(fl, t + 1);
    OrderedDrop(base, size, fl, t + 1);
    assert Before(size, fl, t + 1, t + 2);
    forall i | 0 <= i < |fl'| - 1
      ensures fl'[i] + Read(size', fl'[i]) < NextOf(fl', i)
    {
      assert Before(size, fl', i, i + 1);
    }
    OrderedResize(base, size, fl', size');
  }

  lemma UpperKeeps(base: int, ptr: map<int, int>, size: map<int, int>, fl: seq<int>, live: set<int>,
                   owner: map<int, int>, bp: int, t: int,
                   ptr': map<int, int>, size': map<int, int>, fl': seq<int>, owner': map<int, int>)
    requires IsHeap(base, ptr, size, fl, live, owner) && bp in live && Gap(fl, bp, t)
    requires t + 1 < |fl| && bp + Read(size, bp) == fl[t + 1]
    requires ptr' == ptr[bp := Read(ptr, fl[t + 1])] && size' == size[bp := Read(size, bp) + Read(size, fl[t + 1])]
    requires fl' == Drop(fl, t + 1) && owner' == Reassign(owner, fl[t + 1], bp)
    ensures IsJoining(base, ptr', size', fl', live, owner', bp, t)
    ensures SameSizes(live - {bp}, size, size') && owner'.Keys == owner.Keys && Read(size', bp) >= Read(size, bp)
  {
    var next := fl[t + 1];
    Increasing(base, size, fl, 0, t + 1);
    LinkAt(ptr, fl, t + 1);
    MergePartition(base, size, Blocks(base, fl, live), owner, bp, next, size');
    UpperList(base, size, fl, t, bp, size');
    DropBlocks(base, size, fl, live, t + 1);
    LinksDrop(ptr, fl, t + 1);
    LinksFrame(ptr, Drop(fl, t + 1), t, bp, Read(ptr, next));
  }

  lemma Positive(base: int, size: map<int, int>, fl: seq<int>, t: int)
    requires Ordered(base, size, fl) && 0 <= t < |fl|
    ensures fl[t] >= base
  {
    assert Before(size, fl, 0, t);
  }

  lemma LowerList(base: int, size: map<int, int>, fl: seq<int>, t: int, bp: int, size': map<int, int>)
    requires Ordered(base, size, fl) && Gap(fl, bp, t) && bp !in fl
    requires fl[t] + Read(size, fl[t]) == bp && Read(size, bp) >= 0
    requires t + 1 < |fl| ==> bp + Read(size, bp) < fl[t + 1]
    requires size' == size[fl[t] := Read(size, fl[t]) + Read(size, bp)]
    ensures Ordered(base, size', fl)
  {
    assert Before(size, fl, 0, t);
    forall i | 0 <= i < |fl|
      ensures Read(size', fl[i]) >= 0 && (i + 1 < |fl| ==> fl[i] + Read(size', fl[i]) < NextOf(fl, i))
    {
      assert Before(size, fl, i, i + 1) && Before(size, fl, i, t) && Before(size, fl, t, i);
    }
    OrderedResize(base, size, fl, size');
  }

  lemma LinksRepair(base: int, size: map<int, int>, ptr: map<int, int>, fl: seq<int>, t: int, next: int)
    requires Ordered(base, size, fl) && LinkedBut(ptr, fl, t) && 0 <= t < |fl| && next == NextOf(fl, t)
    ensures Linked(ptr[fl[t] := next], fl)
  {
    forall i | 0 <= i < |fl|
      ensures Read(ptr[fl[t] := next], fl[i]) == NextOf(fl, i)
    {
      assert Before(size, fl, i, t) && Before(size, fl, t, i);
    }
  }

  lemma LowerKeeps(base: int, ptr: map<int, int>, size: map<int, int>, fl: seq<int>, live: set<int>,
                   owner: map<int, int>, bp: int, t: int,
                   ptr': map<int, int>, size': map<int, int>, live': set<int>, owner': map<int, int>)
    requires IsJoining(base, ptr, size, fl, live, owner, bp, t) && fl[t] + Read(size, fl[t]) == bp
    requires ptr' == ptr[fl[t] := Read(ptr, bp)] && size' == size[fl[t] := Read(size, fl[t]) + Read(size, bp)]
    requires live' == live - {bp} && owner' == Reassign(owner, bp, fl[t])
    ensures IsHeap(base, ptr', size', fl, live', owner')
    ensures SameSizes(live', size, size') && owner'.Keys == owner.Keys && Read(size', fl[t]) >= Read(size, bp)
  {
    var p := fl[t];
    var bs := Blocks(base, fl, live);
    Positive(base, size, fl, t);
    assert fl[0] in fl && p in fl && bp in bs && (p == base || p in bs);
    MergePartition(base, size, bs, owner, p, bp, size');
    assert Blocks(base, fl, live - {bp}) == bs - {bp};
    LowerList(base, size, fl, t, bp, size');
    LinksRepair(base, size, ptr, fl, t, Read(ptr, bp));
  }

  lemma NotIn(base: int, size: map<int, int>, fl: seq<int>, k: int)
    requires Ordered(base, size, fl) && 0 <= k < |fl|
    ensures fl[k] !in Drop(fl, k)
  {
    forall i | 0 <= i < |fl| && i != k
      ensures fl[i] != fl[k]
    {
      assert Before(size, fl, i, k) && Before(size, fl, k, i);
    }
  }

  lemma WholeKeeps(base: int, ptr: map<int, int>, size: map<int, int>, fl: seq<int>, live: set<int>,
                   owner: map<int, int>, k: int, ptr': map<int, int>, fl': seq<int>, live': set<int>)
    requires IsHeap(base, ptr, size, fl, live, owner) && 1 <= k < |fl|
    requires ptr' == ptr[fl[k - 1] := Read(ptr, fl[k])] && fl' == Drop(fl, k) && live' == live + {fl[k]}
    ensures IsHeap(base, ptr', size, fl', live', owner)
    ensures fl[k - 1] in fl' && fl[k] !in live
  {
    var p := fl[k];
    Increasing(base, size, fl, 0, k);
    OrderedDrop(base, size, fl, k);
    LinksDrop(ptr, fl, k);
    DropBlocks(base, size, fl, live, k);
    LinksRepair(base, size, ptr, Drop(fl, k), k - 1, Read(ptr, p));
    assert Blocks(base, Drop(fl, k), live + {p}) == Blocks(base, fl, live);
    NotIn(base, size, fl, k);
    assert Drop(fl, k)[k - 1] == fl[k - 1];
  }

  lemma ShrinkList(base: int, size: map<int, int>, fl: seq<int>, k: int, q: int, size': map<int, int>)
    requires Ordered(base, size, fl) && 1 <= k < |fl| && fl[k] < q < fl[k] + Read(size, fl[k])
    requires size' == size[fl[k] := q - fl[k]][q := fl[k] + Read(size, fl[k]) - q]
    ensures q !in fl && Ordered(base, size', fl)
  {
    forall i | 0 <= i < |fl|
      ensures fl[i] != q
    {
      assert Before(size, fl, i, k) && Before(size, fl, k, i);
    }
    assert Before(size, fl, 0, k);
    forall i | 0 <= i < |fl|
      ensures Read(size', fl[i]) >= 0 && (i + 1 < |fl| ==> fl[i] + Read(size', fl[i]) < NextOf(fl, i))
    {
      assert Before(size, fl, i, i + 1);
    }
    OrderedResize(base, size, fl, size');
  }

  lemma TailKeeps(base: int, ptr: map<int, int>, size: map<int, int>, fl: seq<int>, live: set<int>,
                  owner: map<int, int>, k: int, q: int, size': map<int, int>, live': set<int>, owner': map<int, int>)
    requires IsHeap(base, ptr, size, fl, live, owner) && 1 <= k < |fl| && fl[k] < q < fl[k] + Read(size, fl[k])
    requires size' == size[fl[k] := q - fl[k]][q := fl[k] + Read(size, fl[k]) - q]
    requires live' == live + {q} && owner' == Tail(owner, fl[k], q)
    ensures IsHeap(base, ptr, size', fl, live', owner')
    ensures SameSizes(live, size, size') && owner'.Keys == owner.Keys && q !in live
  {
    var p := fl[k];
    var bs := Blocks(base, fl, live);
    Increasing(base, size, fl, 0, k);
    assert p in bs;
    SplitPartition(base, size, bs, owner, p, p + Read(size, p) - q, size', Tail(owner, p, q));
    assert Blocks(base, fl, live + {q}) == bs + {q};
    ShrinkList(base, size, fl, k, q, size');
  }

  ghost predicate NoFit(size: map<int, int>, fl: seq<int>, n: int) {
    forall h :: h in fl ==> Read(size, h) < n
  }

  /** The index e places round the list from f. */
  function Round(n: int, f: int, e: int): int {
    if f + e < n then f + e else f + e - n
  }

  /** malloc's scan has looked at d blocks of the list from the one after freep, the f-th, and found none that fits. */
  ghost predicate Scanned(size: map<int, int>, fl: seq<int>, n: int, f: int, d: int) {
    && 0 <= f < |fl| && 0 <= d <= |fl|
    && forall e {:trigger Round(|fl|, f, e)} :: 1 <= e <= d ==> Read(size, fl[Round(|fl|, f, e)]) < n
  }

  lemma ScanOne(base: int, size: map<int, int>, fl: seq<int>, n: int, f: int, d: int)
    requires Ordered(base, size, fl) && Scanned(size, fl, n, f, d) && d < |fl|
    requires Read(size, NextOf(fl, Round(|fl|, f, d))) < n
    ensures Scanned(size, fl, n, f, d + 1) && (NextOf(fl, Round(|fl|, f, d)) == fl[f] <==> d + 1 == |fl|)
    ensures d + 1 < |fl| ==> NextOf(fl, Round(|fl|, f, d)) == fl[Round(|fl|, f, d + 1)]
  {
    var k := Round(|fl|, f, d + 1);
    assert Before(size, fl, f, k) && Before(size, fl, k, f);
  }

  lemma Fits(size: map<int, int>, fl: seq<int>, n: int, k: int)
    requires 0 <= k < |fl| && Read(size, NextOf(fl, k)) >= n
    ensures !NoFit(size, fl, n)
  {
  }

  lemma ScannedAll(size: map<int, int>, fl: seq<int>, n: int, f: int)
    requires Scanned(size, fl, n, f, |fl|)
    ensures NoFit(size, fl, n)
  {
    forall i | 0 <= i < |fl|
      ensures Read(size, fl[i]) < n
    {
      assert Round(|fl|, f, if i > f then i - f else i - f + |fl|) == i;
    }
  }

  function Units(nbytes: int): int {
    (nbytes + HEADER - 1) % WORD / HEADER + 1
  }

  function Max(a: int, b: int): int {
    if a < b then b else a
  }

  /** A region of n units above base, none of them obtained before. */
  ghost predicate Fresh(base: int, owner: map<int, int>, a: int, n: int) {
    a > base && forall u :: a <= u < a + n ==> u !in owner
  }

  /** The units of owner' are those of owner and the n at a. */
  ghost predicate Obtained(owner: map<int, int>, owner': map<int, int>, a: int, n: int) {
    forall u :: u in owner' <==> u in owner || a <= u < a + n
  }

  lemma LowerApart(base: int, size: map<int, int>, fl: seq<int>, live: set<int>, owner: map<int, int>, bp: int, t: int)
    requires Ordered(base, size, fl) && Partition(base, size, Blocks(base, fl, live), owner)
    requires bp in live && Gap(fl, bp, t)
    requires bp !in fl
    ensures fl[t] + Read(size, fl[t]) <= bp && (t == 0 ==> fl[t] + Read(size, fl[t]) < bp)
  {
    if t > 0 {
      Increasing(base, size, fl, 0, t);
      assert bp != base;
      BlocksApart(base, size, Blocks(base, fl, live), owner, fl[t], bp);
    }
  }

  lemma InsertBlocks(base: int, fl: seq<int>, live: set<int>, t: int, bp: int)
    requires 0 <= t < |fl| && bp in live && bp !in fl
    ensures Blocks(base, Insert(fl, t, bp), live - {bp}) == Blocks(base, fl, live)
    ensures forall x :: x in Insert(fl, t, bp) <==> x in fl || x == bp
  {
  }

  lemma LinksInsert(base: int, size: map<int, int>, ptr: map<int, int>, fl: seq<int>, t: int, bp: int)
    requires Ordered(base, size, fl) && LinkedBut(ptr, fl, t)
    requires 0 <= t < |fl| && Read(ptr, bp) == NextOf(fl, t) && bp !in fl
    ensures Linked(ptr[fl[t] := bp], Insert(fl, t, bp))
  {
    var fl' := Insert(fl, t, bp);
    forall i | 0 <= i < |fl'|
      ensures Read(ptr[fl[t] := bp], fl'[i]) == NextOf(fl', i)
    {
      var k := if i <= t then i else i - 1;
      assert Before(size, fl, k, t) && Before(size, fl, t, k);
      assert k != t ==> Read(ptr, fl[k]) == NextOf(fl, k);
    }
  }

  /** The two tests of free's loop pick out the right place and no other. */
  lemma Position(base: int, size: map<int, int>, fl: seq<int>, bp: int, t: int, k: int)
    requires Ordered(base, size, fl) && Gap(fl, bp, t) && 0 <= k < |fl|
    ensures var p, q := fl[k], NextOf(fl, k); k == t <==> (bp > p && bp < q) || (p >= q && (bp > p || bp < q))
  {
    if k < t {
      Increasing(base, size, fl, k, k + 1);
      assert k + 1 < t ==> Before(size, fl, k + 1, t);
    }
    if t < k {
      assert t + 1 < k ==> Before(size, fl, t + 1, k);
    }
    assert Before(size, fl, 0, k) && Before(size, fl, k, k + 1) && Before(size, fl, 0, t);
  }

  class Heap {
    const base: int                 // address of the static header base
    var ptr: map<int, int>
    var size: map<int, int>
    var freep: int                  // 0 until the first malloc
    ghost var fl: seq<int>          // the free list in address order, base first
    ghost var live: set<int>        // headers of the blocks handed out
    ghost var owner: map<int, int>  // the units obtained from sbrk, each with the header of its block

    ghost predicate Sound()
      reads this
    {
      IsHeap(base, ptr, size, fl, live, owner)
    }

    ghost predicate Ready()
      reads this
    {
      Sound() && freep in fl
    }

    ghost predicate Valid()
      reads this
    {
      base > 0 && if freep == 0 then fl == [] && live == {} && owner == map[] else Ready()
    }

    constructor (base: int)
      requires base > 0
      ensures Valid() && live == {} && owner == map[]
    {
      this.base := base;
      ptr, size, freep := map[], map[], 0;
      fl, live, owner := [], {}, map[];
    }

    /** free's first loop: the block of the list after which bp belongs. */
    method FindPlace(bp: int) returns (p: int, ghost t: int)
      requires Ordered(base, size, fl) && Linked(ptr, fl) && freep in fl && bp > base && bp !in fl
      ensures Gap(fl, bp, t) && p == fl[t]
      ensures p in fl && p < bp && forall h :: h in fl ==> h <= p || h > bp
    {
      t := FindGap(base, size, fl, bp, |fl| - 1);
      ghost var k :| 0 <= k < |fl| && fl[k] == freep;
      p := freep;
      while !(bp > p && bp < Read(ptr, p))
        invariant 0 <= k < |fl| && p == fl[k]
        decreases if k <= t then t - k else |fl| - k + t
      {
        assert Read(ptr, p) == NextOf(fl, k);
        Position(base, size, fl, bp, t, k);
        if p >= Read(ptr, p) && (bp > p || bp < Read(ptr, p)) {
          break;
        }
        p := Read(ptr, p);
        k := if k + 1 < |fl| then k + 1 else 0;
      }
      assert Read(ptr, p) == NextOf(fl, k);
      Position(base, size, fl, bp, t, k);
      forall i | 0 <= i < |fl|
        ensures fl[i] <= p || fl[i] > bp
      {
        assert Before(size, fl, i, t) && Before(size, fl, t + 1, i);
      }
    }

    /** Between the two halves of free: bp, still live, fits after the t-th block and points past it. */
    ghost predicate Pending(bp: int, t: int)
      reads this
    {
      IsJoining(base, ptr, size, fl, live, owner, bp, t)
    }

    /** Join bp with the free block right above it. */
    method AbsorbUpper(bp: int, next: int, ghost t: int)
      requires Ready() && bp in live && Gap(fl, bp, t) && t + 1 < |fl|
      requires next == fl[t + 1] && bp + Read(size, bp) == next
      modifies this`ptr, this`size, this`fl, this`owner
      ensures Pending(bp, t) && fl[t] == old(fl[t])
      ensures owner.Keys == old(owner.Keys)
      ensures Read(size, bp) >= old(Read(size, bp))
      ensures SameSizes(live - {bp}, old(size), size)
    {
      size := size[bp := Read(size, bp) + Read(size, next)];
      ptr := ptr[bp := Read(ptr, next)];
      fl := Drop(fl, t + 1);
      owner := Reassign(owner, next, bp);
      UpperKeeps(base, old(ptr), old(size), old(fl), live, old(owner), bp, t, ptr, size, fl, owner);
    }

    /** free's first test: bp joins the free block above it if they touch, and points past it. */
    method JoinUpper(p: int, bp: int, ghost t: int)
      requires Ready() && bp in live && Gap(fl, bp, t) && p == fl[t]
      modifies this`ptr, this`size, this`fl, this`owner
      ensures Pending(bp, t) && fl[t] == p
      ensures owner.Keys == old(owner.Keys)
      ensures Read(size, bp) >= old(Read(size, bp))
      ensures SameSizes(live - {bp}, old(size), size)
    {
      assert Read(ptr, p) == NextOf(fl, t);
      if t + 1 < |fl| {
        Increasing(base, size, fl, 0, t + 1);
        BlocksApart(base, size, Blocks(base, fl, live), owner, bp, fl[t + 1]);
      }
      if bp + Read(size, bp) == Read(ptr, p) {
        AbsorbUpper(bp, Read(ptr, p), t);
      } else {
        ptr := ptr[bp := Read(ptr, p)];
      }
    }

    /** Join bp to the free block right below it. */
    method AbsorbLower(p: int, bp: int, ghost t: int)
      requires Pending(bp, t) && p == fl[t] && p + Read(size, p) == bp
      modifies this`ptr, this`size, this`live, this`owner
      ensures Sound() && p in fl && Read(size, p) >= old(Read(size, bp))
      ensures live == old(live) - {bp} && owner.Keys == old(owner.Keys)
      ensures SameSizes(live, old(size), size)
    {
      size := size[p := Read(size, p) + Read(size, bp)];
      ptr := ptr[p := Read(ptr, bp)];
      live := live - {bp};
      owner := Reassign(owner, bp, p);
      LowerKeeps(base, old(ptr), old(size), fl, old(live), old(owner), bp, t, ptr, size, live, owner);
    }

    /** Put bp on the list after p. */
    method LinkAfter(p: int, bp: int, ghost t: int)
      requires Pending(bp, t) && p == fl[t] && p + Read(size, p) < bp
      modifies this`ptr, this`fl, this`live
      ensures Sound() && p in fl && bp in fl
      ensures live == old(live) - {bp}
    {
      OrderedInsert(base, size, fl, t, bp);
      InsertBlocks(base, fl, live, t, bp);
      LinksInsert(base, size, ptr, fl, t, bp);
      ptr := ptr[p := bp];
      fl := Insert(fl, t, bp);
      live := live - {bp};
    }

    /** free: the block leaves the live ones, its units join the free ones, nothing else moves. */
    method Free(ap: int)
      requires Valid() && ap - 1 in live
      modifies this
      ensures Valid() && freep != 0
      ensures live == old(live) - {ap - 1} && owner.Keys == old(owner.Keys)
      ensures SameSizes(live, old(size), size)
      ensures !NoFit(size, fl, old(Read(size, ap - 1)))
    {
      var bp := ap - 1;
      assert fl[0] in fl && bp in Blocks(base, fl, live);
      var p, t := FindPlace(bp);
      Positive(base, size, fl, t);
      JoinUpper(p, bp, t);
      LowerApart(base, size, fl, live, owner, bp, t);
      if p + Read(size, p) == bp {
        AbsorbLower(p, bp, t);
      } else {
        LinkAfter(p, bp, t);
      }
      freep := p;
    }

    lemma GrowReady(a: int, n: int)
      requires Ready() && Fresh(base, owner, a, n) && n >= 1
      ensures a !in live && a !in fl
      ensures Ordered(base, size[a := n], fl)
      ensures Partition(base, size[a := n], Blocks(base, fl, live + {a}), owner + Region(a, n))
    {
      ghost var bs := Blocks(base, fl, live);
      GrowPartition(base, size, bs, owner, a, n, size[a := n], owner + Region(a, n));
      assert Blocks(base, fl, live + {a}) == bs + {a};
      forall i | 0 <= i < |fl|
        ensures fl[i] != a && (i + 1 < |fl| ==> fl[i] + Read(size, fl[i]) < NextOf(fl, i))
      {
        assert Before(size, fl, i, i + 1);
        assert fl[i] == a ==> a in bs;
      }
      OrderedResize(base, size, fl, size[a := n]);
    }

    /** Give a fresh region a header, as if it were a live block. */
    method Adopt(region: int, n: int)
      requires Valid() && freep != 0 && n >= 1 && Fresh(base, owner, region, n)
      modifies this`size, this`owner, this`live
      ensures Valid() && region !in old(live) && live == old(live) + {region} && Read(size, region) == n
      ensures SameSizes(old(live), old(size), size)
      ensures Obtained(old(owner), owner, region, n)
    {
      GrowReady(region, n);
      size := size[region := n];
      owner := owner + Region(region, n);
      live := live + {region};
    }

    /** morecore: region is sbrk's answer, in units, -1 when it refuses. */
    method Morecore(nu: int, region: int) returns (p: int)
      requires Valid() && freep != 0 && nu >= 1
      requires region == -1 || Fresh(base, owner, region, Max(nu, GROW))
      modifies this
      ensures Valid() && freep != 0 && live == old(live)
      ensures p == 0 <==> region == -1
      ensures p == 0 ==> unchanged(this)
      ensures p != 0 ==> p == freep && Obtained(old(owner), owner, region, Max(nu, GROW))
      ensures p != 0 ==> !NoFit(size, fl, nu)
      ensures SameSizes(live, old(size), size)
    {
      var n := Max(nu, GROW);
      if region == -1 {
        return 0;
      }
      Adopt(region, n);
      Free(region + 1);
      return freep;
    }

    /** malloc's exact fit: the k-th block leaves the list whole. */
    method TakeWhole(prevp: int, p: int, ghost k: int)
      requires Ready() && 1 <= k < |fl| && p == fl[k] && prevp == fl[k - 1]
      modifies this`ptr, this`fl, this`live, this`freep
      ensures Ready() && live == old(live) + {p} && p !in old(live)
      ensures freep == prevp
    {
      ptr := ptr[prevp := Read(ptr, p)];
      fl := Drop(fl, k);
      live := live + {p};
      freep := prevp;
      WholeKeeps(base, old(ptr), size, old(fl), old(live), owner, k, ptr, fl, live);
    }

    /** malloc's other fit: the last nunits of the k-th block are handed out. */
    method TakeTail(prevp: int, p: int, nunits: int, ghost k: int) returns (q: int)
      requires Ready() && 1 <= k < |fl| && p == fl[k] && prevp == fl[k - 1] && 1 <= nunits < Read(size, p)
      modifies this`size, this`live, this`owner, this`freep
      ensures Ready() && live == old(live) + {q} && q !in old(live) && Read(size, q) == nunits
      ensures owner.Keys == old(owner.Keys)
      ensures SameSizes(old(live), old(size), size)
      ensures freep == prevp
    {
      q := p + Read(size, p) - nunits;
      size := size[p := Read(size, p) - nunits];
      size := size[q := nunits];
      owner := Tail(owner, p, q);
      live := live + {q};
      freep := prevp;
      TailKeeps(base, ptr, old(size), fl, old(live), old(owner), k, q, size, live, owner);
    }

    /** malloc's first lines: make base a list of one empty block. */
    method Init()
      requires Valid()
      modifies this`ptr, this`size, this`freep, this`fl
      ensures Valid() && freep != 0
      ensures SameSizes(live, old(size), size)
      ensures forall n :: n >= 1 ==> (NoFit(size, fl, n) <==> old(NoFit(size, fl, n)))
    {
      if freep == 0 {
        ptr := ptr[base := base];
        freep := base;
        size := size[base := 0];
        fl := [base];
      }
    }

    /** malloc takes the block it found, whole or in part. */
    method Take(prevp: int, p: int, nunits: int, ghost k: int) returns (ap: int)
      requires Ready() && base > 0 && 0 <= k < |fl| && prevp == fl[k] && p == NextOf(fl, k)
      requires 1 <= nunits <= Read(size, p)
      modifies this
      ensures Valid() && ap > 1
      ensures live == old(live) + {ap - 1} && ap - 1 !in old(live) && Read(size, ap - 1) == nunits
      ensures owner.Keys == old(owner.Keys)
      ensures SameSizes(old(live), old(size), size)
    {
      Positive(base, size, fl, k);
      Increasing(base, size, fl, k, k + 1);
      if Read(size, p) == nunits {
        TakeWhole(prevp, p, k + 1);
        ap := p + 1;
      } else {
        var q := TakeTail(prevp, p, nunits, k + 1);
        ap := q + 1;
        assert q in Blocks(base, fl, live);
      }
    }

    /** malloc's scan has passed d blocks and stands at p, with prevp before it. */
    ghost predicate At(prevp: int, p: int, nunits: int, f: int, d: int)
      reads this
    {
      && Scanned(size, fl, nunits, f, d) && d < |fl| && fl[f] == freep
      && prevp == fl[Round(|fl|, f, d)] && p == NextOf(fl, Round(|fl|, f, d))
    }

    /** morecore, and where the scan starts again. */
    method Refill(nunits: int, region: int) returns (p: int, ghost f: int)
      requires Valid() && freep != 0 && nunits >= 1
      requires region == -1 || Fresh(base, owner, region, Max(nunits, GROW))
      modifies this
      ensures Valid() && freep != 0 && live == old(live)
      ensures p == 0 <==> region == -1
      ensures p == 0 ==> unchanged(this)
      ensures p != 0 ==> At(p, Read(ptr, p), nunits, f, 0) && !NoFit(size, fl, nunits)
      ensures p != 0 ==> Obtained(old(owner), owner, region, Max(nunits, GROW))
      ensures SameSizes(live, old(size), size)
    {
      p := Morecore(nunits, region);
      f :| 0 <= f < |fl| && fl[f] == freep;
      LinkAt(ptr, fl, f);
    }

    /** malloc's loop. Once morecore has succeeded, the second time round must find a block. */
    method Search(nunits: int, region: int) returns (ap: int)
      requires Valid() && freep != 0 && nunits >= 1
      requires NoFit(size, fl, nunits) ==> region == -1 || Fresh(base, owner, region, Max(nunits, GROW))
      modifies this
      ensures Valid()
      ensures ap == 0 <==> region == -1 && old(NoFit(size, fl, nunits))
      ensures ap == 0 ==> live == old(live)
      ensures ap != 0 ==> ap - 1 !in old(live) && live == old(live) + {ap - 1} && Read(size, ap - 1) == nunits
      ensures SameSizes(old(live), old(size), size)
      ensures if region != -1 && old(NoFit(size, fl, nunits))
              then Obtained(old(owner), owner, region, Max(nunits, GROW)) else owner.Keys == old(owner.Keys)
    {
      var prevp := freep;
      ghost var f :| 0 <= f < |fl| && fl[f] == freep;
      ghost var d, grown := 0, false;
      var p := Read(ptr, prevp);
      LinkAt(ptr, fl, f);
      while true
        invariant Valid() && freep != 0 && live == old(live)
        invariant At(prevp, p, nunits, f, d)
        invariant SameSizes(live, old(size), size)
        invariant !grown ==> unchanged(this)
        invariant grown ==> !NoFit(size, fl, nunits) && Obtained(old(owner), owner, region, Max(nunits, GROW))
        invariant grown ==> region != -1 && old(NoFit(size, fl, nunits))
        decreases if grown then 0 else 1, |fl| - d
      {
        if Read(size, p) >= nunits {
          Fits(size, fl, nunits, Round(|fl|, f, d));
          ap := Take(prevp, p, nunits, Round(|fl|, f, d));
          return;
        }
        ScanOne(base, size, fl, nunits, f, d);
        if p == freep {
          ScannedAll(size, fl, nunits, f);
          p, f := Refill(nunits, region);
          if p == 0 {
            return 0;
          }
          d, grown := 0, true;
        } else {
          d := d + 1;
          LinkAt(ptr, fl, Round(|fl|, f, d));
        }
        prevp := p;
        p := Read(ptr, p);
      }
    }

    /** malloc: region is what sbrk would answer if asked, in units, -1 when it refuses. */
    method Malloc(nbytes: int, region: int) returns (ap: int)
      requires Valid() && 0 <= nbytes < WORD
      requires NoFit(size, fl, Units(nbytes)) ==> region == -1 || Fresh(base, owner, region, Max(Units(nbytes), GROW))
      modifies this
      ensures Valid()
      ensures ap == 0 <==> region == -1 && old(NoFit(size, fl, Units(nbytes)))
      ensures ap == 0 ==> live == old(live)
      ensures ap != 0 ==> ap - 1 !in old(live) && live == old(live) + {ap - 1} && Read(size, ap - 1) == Units(nbytes)
      ensures SameSizes(old(live), old(size), size)
      ensures if region != -1 && old(NoFit(size, fl, Units(nbytes)))
              then Obtained(old(owner), owner, region, Max(Units(nbytes), GROW)) else owner.Keys == old(owner.Keys)
    {
      var nunits := (nbytes + HEADER - 1) % WORD / HEADER + 1;
      Init();
      ap := Search(nunits, region);
    }
  }

  /** The int that reaches sbrk when morecore asks for n units. */
  function SbrkArgument(n: int): int {
    var w := n * HEADER % WORD;
    if w < WORD / 2 then w else w - WORD
  }

  /** A block of Units(nbytes) has room for nbytes after its header, unless the rounding up wraps. */
  lemma UnitsSuffice(nbytes: int)
    requires 0 <= nbytes < WORD
    ensures HEADER * (Units(nbytes) - 1) >= nbytes <==> nbytes <= WORD - HEADER
    ensures nbytes <= WORD - HEADER ==> HEADER * (Units(nbytes) - 1) < nbytes + HEADER
  {
  }

  /** The largest request gets a block with no room at all. */
  lemma WrappedRequest()
    ensures Units(WORD - 1) == 1
  {
  }

  /** sbrk gets a positive int exactly for requests that end below 2 GB, and for those that wrap. */
  lemma SbrkPositive(nbytes: int)
    requires 0 <= nbytes < WORD
    ensures SbrkArgument(Max(Units(nbytes), GROW)) > 0 <==>
            nbytes <= WORD / 2 - 2 * HEADER || nbytes > WORD - HEADER
    ensures SbrkArgument(Max(Units(nbytes), GROW)) > 0 ==>
            SbrkArgument(Max(Units(nbytes), GROW)) == HEADER * Max(Units(nbytes), GROW)
  {
  }

  /**
   * sys_sbrk and growproc: the address sbrk(n) answers, -1 when it refuses, and the size of the process afterwards.
   * The sum is a 32-bit unsigned one; fits tells whether allocuvm finds the memory.
   */
  function Sbrk(sz: int, n: int, fits: bool): (r: (int, int)) {
    var end := (sz + n) % WORD;
    if n > 0 then (if end < KERNBASE && fits then (sz, end) else (-1, sz))
    else if n == 0 || end >= sz then (sz, sz)
    else if end == 0 then (-1, sz)
    else (sz, end)
  }

  /**
    For a process of sz bytes: it grows by n > 0 exactly when it stays below 2 GB and the memory is there, shrinks to
    any size but 0, and a request to shrink by more than it has is answered as if it were for nothing.
  */
  lemma SbrkAnswers(sz: int, n: int, fits: bool)
    requires 0 < sz < 0x8000_0000 && -0x8000_0000 <= n < 0x8000_0000
    ensures n > 0 ==> Sbrk(sz, n, fits) == if sz + n < 0x8000_0000 && fits then (sz, sz + n) else (-1, sz)
    ensures n <= 0 ==>
              Sbrk(sz, n, fits) == if sz + n > 0 then (sz, sz + n) else if sz + n == 0 then (-1, sz) else (sz, sz)
  {
  }

  /** When sbrk does not refuse, the region it answers is memory of the process exactly if its argument was positive. */
  lemma SbrkBacks(nbytes: int, sz: int, fits: bool)
    requires 0 <= nbytes < WORD && 0 < sz < KERNBASE
    ensures var n := Max(Units(nbytes), GROW);
            var (addr, sz') := Sbrk(sz, SbrkArgument(n), fits);
            addr != -1 ==> addr == sz && (addr + n * HEADER <= sz' <==> SbrkArgument(n) > 0)
  {
    SbrkPositive(nbytes);
  }

  /**
   * So a request of 2^31 - 15 to 2^32 - 8 bytes that no free block can serve makes morecore write a header at the old
   * end of the process, which is at or past the new one, unless the number given to sbrk is exactly its size.
   */
  lemma LargeRequest(nbytes: int, sz: int, fits: bool)
    requires WORD / 2 - 2 * HEADER < nbytes <= WORD - HEADER && 0 < sz < KERNBASE
    ensures var n := SbrkArgument(Max(Units(nbytes), GROW));
            var (addr, sz') := Sbrk(sz, n, fits);
            n <= 0 && if sz + n == 0 then addr == -1 else addr == sz && sz' <= addr
  {
    SbrkPositive(nbytes);
  }

  ghost function Pick(bs: set<int>): (h: int)
    ensures bs != {} ==> h in bs
  {
    if h: int :| h in bs then h else 0
  }

  /** The sizes of a set of blocks added up. */
  ghost function Total(size: map<int, int>, bs: set<int>): int {
    if bs == {} then 0 else Read(size, Pick(bs)) + Total(size, bs - {Pick(bs)})
  }

  /** The units that belong to blocks of bs. */
  ghost function Within(owner: map<int, int>, bs: set<int>): map<int, int> {
    map u | u in owner && owner[u] in bs :: owner[u]
  }

  lemma WithinPartition(base: int, size: map<int, int>, bs: set<int>, owner: map<int, int>, some: set<int>)
    requires Partition(base, size, bs, owner) && some <= bs
    ensures Partition(base, size, some, Within(owner, some))
  {
    var owner' := Within(owner, some);
    forall h | h in some
      ensures h > base && Read(size, h) >= 1 && Owns(owner', h, Read(size, h))
    {
      forall u | h <= u < h + Read(size, h)
        ensures u in owner' && Read(owner', u) == h
      {
        assert Read(owner, u) == h;
      }
    }
    forall u | u in owner'
      ensures Holds(size, some, Read(owner', u), u)
    {
      assert Holds(size, bs, Read(owner, u), u);
    }
  }

  lemma {:induction false} RegionSize(a: int, n: nat)
    ensures |Region(a, n)| == n
  {
    if n > 0 {
      RegionSize(a, n - 1);
      assert Region(a, n).Keys == Region(a, n - 1).Keys + {a + n - 1};
    }
  }

  lemma SplitUnits(base: int, size: map<int, int>, owner: map<int, int>, a: set<int>, b: set<int>)
    requires Partition(base, size, a + b, owner) && a !! b
    ensures |owner.Keys| == |Within(owner, a).Keys| + |Within(owner, b).Keys|
  {
    var x, y := Within(owner, a).Keys, Within(owner, b).Keys;
    forall u | u in owner.Keys
      ensures u in x + y
    {
      assert Holds(size, a + b, Read(owner, u), u);
    }
    assert owner.Keys == x + y && x !! y;
  }

  lemma OneBlock(base: int, size: map<int, int>, bs: set<int>, owner: map<int, int>, h: int)
    requires Partition(base, size, bs, owner) && h in bs
    ensures |Within(owner, {h}).Keys| == Read(size, h)
  {
    var x, n := Within(owner, {h}).Keys, Read(size, h);
    forall u
      ensures u in x <==> h <= u < h + n
    {
      assert u in owner ==> Holds(size, bs, Read(owner, u), u);
      assert h <= u < h + n ==> Read(owner, u) == h;
    }
    assert x == Region(h, n).Keys;
    RegionSize(h, n);
  }

  lemma {:induction false} CountUnits(base: int, size: map<int, int>, bs: set<int>, owner: map<int, int>)
    requires Partition(base, size, bs, owner)
    ensures |owner.Keys| == Total(size, bs)
    decreases bs
  {
    if bs == {} {
      forall u
        ensures u !in owner
      {
        assert u in owner ==> Holds(size, bs, Read(owner, u), u);
      }
      assert owner.Keys == {};
    } else {
      var h := Pick(bs);
      WithinPartition(base, size, bs, owner, bs - {h});
      CountUnits(base, size, bs - {h}, Within(owner, bs - {h}));
      OneBlock(base, size, bs, owner, h);
      assert bs == {h} + (bs - {h});
      SplitUnits(base, size, owner, {h}, bs - {h});
    }
  }

  lemma CountBoth(base: int, size: map<int, int>, owner: map<int, int>, a: set<int>, b: set<int>)
    requires Partition(base, size, a + b, owner) && a !! b
    ensures |owner.Keys| == Total(size, a) + Total(size, b)
  {
    SplitUnits(base, size, owner, a, b);
    WithinPartition(base, size, a + b, owner, a);
    WithinPartition(base, size, a + b, owner, b);
    CountUnits(base, size, a, Within(owner, a));
    CountUnits(base, size, b, Within(owner, b));
  }

  /** Conservation: live units plus free units are the units obtained from sbrk. */
  lemma Conservation(heap: Heap)
    requires heap.Valid()
    ensures |heap.owner.Keys| == Total(heap.size, heap.live) + Total(heap.size, Blocks(heap.base, heap.fl, {}))
  {
    var live, free := heap.live, Blocks(heap.base, heap.fl, {});
    if heap.freep == 0 {
      assert free == {};
    } else {
      assert heap.fl[0] in heap.fl;
      assert Blocks(heap.base, heap.fl, live) == live + free && live !! free;
      CountBoth(heap.base, heap.size, heap.owner, live, free);
    }
  }

  /** Live blocks share no unit with each other or with a free block. */
  lemma LiveBlocksApart(heap: Heap, h: int, k: int)
    requires heap.Valid() && h in heap.live && k != h && (k in heap.live || k in heap.fl)
    ensures h + Read(heap.size, h) <= k || k + Read(heap.size, k) <= h
  {
    var bs := Blocks(heap.base, heap.fl, heap.live);
    assert heap.fl[0] in heap.fl;
    assert h in bs;
    if k != heap.base {
      if h < k {
        BlocksApart(heap.base, heap.size, bs, heap.owner, h, k);
      } else {
        BlocksApart(heap.base, heap.size, bs, heap.owner, k, h);
      }
    }
  }
}
