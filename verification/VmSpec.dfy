/**
 * vm.c and kalloc.c on values: physical pages, the free list threaded through them, and one two-level page table.
 * A page is named by its frame number, its physical address over 4096; frame 0 is the null pointer.
 */
module VmSpec {
  const PGSIZE := 4096
  const ENTRIES := 1024         // NPDENTRIES, NPTENTRIES
  const KERNBASE := 0x8000_0000
  const USERPAGES := KERNBASE / PGSIZE
  const PTE_WU := 6             // PTE_W|PTE_U

  /** What a frame is in use for. Free(i) is the i-th of the free list, counted from its far end. */
  datatype Kind = Free(i: int) | Dir | Table(x: int) | User(v: int) | Other

  datatype Mach = Mach(mem: map<int, seq<int>>, freelist: int, fl: seq<int>, kind: map<int, Kind>)

  function Word(m: map<int, seq<int>>, f: int, i: int): int {
    if f in m && 0 <= i < |m[f]| then m[f][i] else 0
  }

  function Put(m: map<int, seq<int>>, f: int, i: int, w: int): map<int, seq<int>> {
    if f in m && 0 <= i < |m[f]| then m[f := m[f][i := w]] else m
  }

  function KindOf(k: map<int, Kind>, f: int): Kind {
    if f in k then k[f] else Other
  }

  function Entry(f: int, perm: int): int {
    f * PGSIZE + (if perm % 2 == 0 then perm + 1 else perm)
  }

  function FrameOf(w: int): int {
    w / PGSIZE
  }

  predicate Present(w: int) {
    w % 2 == 1
  }

  /** The word w has frame f above its low twelve bits, bit 0 set, and the other low bits as in perm. */
  predicate IsEntry(w: int, f: int, perm: int) {
    w / 4096 == f && w % 2 == 1 && w % 4096 / 2 == perm / 2
  }

  lemma EntryFields(f: int, perm: int)
    requires f >= 0 && 0 <= perm < PGSIZE
    ensures FrameOf(Entry(f, perm)) == f && Present(Entry(f, perm)) && IsEntry(Entry(f, perm), f, perm)
    ensures perm == PTE_WU ==> Entry(f, perm) == 4096 * f + 7
  {
    var p := if perm % 2 == 0 then perm + 1 else perm;
    var h := p / 2;
    assert p == 2 * h + 1 && 0 <= p < PGSIZE;
    var g := 2048 * f + h;
    assert Entry(f, perm) == 2 * g + 1;
  }

  function Filled(w: int): (s: seq<int>)
    ensures |s| == ENTRIES && forall i :: 0 <= i < ENTRIES ==> s[i] == w
  {
    seq(ENTRIES, i => w)
  }

  function Pdx(v: int): int {
    v / ENTRIES
  }

  function Ptx(v: int): int {
    v % ENTRIES
  }

  function TableOf(m: map<int, seq<int>>, dir: int, x: int): int {
    FrameOf(Word(m, dir, x))
  }

  predicate HasTable(m: map<int, seq<int>>, dir: int, x: int) {
    Present(Word(m, dir, x))
  }

  /** The flat map that the two levels stand for: the present entry of virtual page v, or 0. */
  function Pte(m: map<int, seq<int>>, dir: int, v: int): int {
    var w := Word(m, TableOf(m, dir, Pdx(v)), Ptx(v));
    if HasTable(m, dir, Pdx(v)) && Present(w) then w else 0
  }

  /**
    The same from the words themselves: 1024 entries to a page, the frame above the low twelve bits, present if odd.
  */
  function RawPte(m: map<int, seq<int>>, dir: int, v: int): int {
    if dir !in m || !(0 <= v / 1024 < |m[dir]|) || m[dir][v / 1024] % 2 == 0 then 0
    else
      var t := m[dir][v / 1024] / 4096;
      if t !in m || v % 1024 >= |m[t]| || m[t][v % 1024] % 2 == 0 then 0 else m[t][v % 1024]
  }

  lemma PteIsRaw(m: map<int, seq<int>>, dir: int, v: int)
    ensures Pte(m, dir, v) == RawPte(m, dir, v)
  {
  }

  predicate Mapped(m: map<int, seq<int>>, dir: int, v: int) {
    Present(Pte(m, dir, v))
  }

  /** The frames the allocator manages, from the end of the kernel to PHYSTOP, are the pages of memory. */
  ghost predicate Pages(s: Mach) {
    && (forall f :: f in s.kind ==> f > 0 && f in s.mem && |s.mem[f]| == ENTRIES)
    && (forall f :: f in s.mem ==> f in s.kind)
  }

  function Top(fl: seq<int>): int {
    if fl == [] then 0 else fl[|fl| - 1]
  }

  ghost predicate LinkOk(s: Mach, i: int) {
    0 <= i < |s.fl| ==>
      KindOf(s.kind, s.fl[i]) == Free(i) && FrameOf(Word(s.mem, s.fl[i], 0)) == Top(s.fl[..i])
  }

  /** The free pages, each once, threaded through their first words. */
  ghost predicate FreeList(s: Mach) {
    && s.freelist == Top(s.fl)
    && (forall i :: 0 <= i < |s.fl| ==> LinkOk(s, i))
    && (forall f :: f in s.kind && s.kind[f].Free? ==> 0 <= s.kind[f].i < |s.fl| && s.fl[s.kind[f].i] == f)
  }

  ghost predicate IsTable(s: Mach, dir: int, lo: int, f: int)
    requires f in s.kind && s.kind[f].Table?
  {
    var x := s.kind[f].x;
    lo <= x < ENTRIES && HasTable(s.mem, dir, x) && TableOf(s.mem, dir, x) == f
  }

  /** dir is the directory, and the frames in use as tables are those of its entries from lo on, one each. */
  ghost predicate Tables(s: Mach, dir: int, lo: int) {
    && KindOf(s.kind, dir) == Dir
    && (forall f :: f in s.kind && s.kind[f].Dir? ==> f == dir)
    && (forall x {:trigger HasTable(s.mem, dir, x)} :: lo <= x < ENTRIES && HasTable(s.mem, dir, x) ==>
          KindOf(s.kind, TableOf(s.mem, dir, x)) == Table(x))
    && (forall f :: f in s.kind && s.kind[f].Table? ==> IsTable(s, dir, lo, f))
  }

  ghost predicate IsUser(s: Mach, dir: int, f: int)
    requires f in s.kind && s.kind[f].User?
  {
    var v := s.kind[f].v;
    0 <= v < USERPAGES && Mapped(s.mem, dir, v) && FrameOf(Pte(s.mem, dir, v)) == f
  }

  /** The frames in use as user pages are those mapped below KERNBASE, one each. */
  ghost predicate Users(s: Mach, dir: int) {
    && (forall v {:trigger Pte(s.mem, dir, v)} :: 0 <= v < USERPAGES && Mapped(s.mem, dir, v) ==>
          KindOf(s.kind, FrameOf(Pte(s.mem, dir, v))) == User(v))
    && (forall f :: f in s.kind && s.kind[f].User? ==> IsUser(s, dir, f))
  }

  ghost predicate Inv(s: Mach, dir: int) {
    Pages(s) && FreeList(s) && Tables(s, dir, 0)
  }

  /** kalloc and kfree as functions of the state. */
  ghost function Allocated(s: Mach): Mach
    requires s.fl != []
  {
    var f := Top(s.fl);
    s.(freelist := FrameOf(Word(s.mem, f, 0)), fl := s.fl[..|s.fl| - 1], kind := s.kind[f := Other])
  }

  ghost function Freed(s: Mach, f: int): Mach {
    s.(mem := s.mem[f := Filled(0x0101_0101)[0 := s.freelist * PGSIZE]],
       freelist := f, fl := s.fl + [f], kind := s.kind[f := Free(|s.fl|)])
  }

  lemma AllocatedKeeps(s: Mach, s': Mach)
    requires Pages(s) && FreeList(s) && s.fl != [] && s' == Allocated(s)
    ensures Pages(s') && FreeList(s') && KindOf(s.kind, Top(s.fl)) == Free(|s.fl| - 1)
  {
    var n := |s.fl| - 1;
    assert LinkOk(s, n);
    forall i | 0 <= i < n
      ensures LinkOk(s', i)
    {
      assert LinkOk(s, i);
      assert s'.fl[..i] == s.fl[..i];
    }
  }

  lemma FreedKeeps(s: Mach, f: int, s': Mach)
    requires Pages(s) && FreeList(s) && f in s.kind && !s.kind[f].Free? && s' == Freed(s, f)
    ensures Pages(s') && FreeList(s')
  {
    var n := |s.fl|;
    forall i | 0 <= i <= n
      ensures LinkOk(s', i)
    {
      assert s'.fl[..i] == s.fl[..i];
      assert i < n ==> LinkOk(s, i);
    }
  }

  const VPAGES := ENTRIES * ENTRIES

  /** The directory and the tables hold what they held. */
  ghost predicate Untouched(s: Mach, s': Mach) {
    forall f :: f in s.kind && (s.kind[f].Dir? || s.kind[f].Table?) ==>
      f in s'.mem && f in s.mem && s'.mem[f] == s.mem[f]
  }

  predicate IsTableKind(k: Kind) {
    k.Dir? || k.Table?
  }

  /** The directory and the tables are the same frames. */
  ghost predicate SameTables(k: map<int, Kind>, k': map<int, Kind>) {
    forall f {:trigger KindOf(k', f)} ::
      KindOf(k', f) == KindOf(k, f) || (!IsTableKind(KindOf(k', f)) && !IsTableKind(KindOf(k, f)))
  }

  /** The user pages are the same frames. */
  ghost predicate SameUsers(k: map<int, Kind>, k': map<int, Kind>) {
    forall f {:trigger KindOf(k', f)} ::
      KindOf(k', f) == KindOf(k, f) || (!KindOf(k', f).User? && !KindOf(k, f).User?)
  }

  ghost predicate SamePtes(m: map<int, seq<int>>, m': map<int, seq<int>>, dir: int) {
    forall v {:trigger Pte(m', dir, v)} :: 0 <= v < VPAGES ==> Pte(m', dir, v) == Pte(m, dir, v)
  }

  lemma TablesSame(s: Mach, dir: int, lo: int, s': Mach)
    requires Tables(s, dir, lo) && Untouched(s, s') && SameTables(s.kind, s'.kind)
    ensures Tables(s', dir, lo)
  {
    forall x | lo <= x < ENTRIES && HasTable(s'.mem, dir, x)
      ensures KindOf(s'.kind, TableOf(s'.mem, dir, x)) == Table(x)
    {
      assert HasTable(s.mem, dir, x);
    }
    forall f | f in s'.kind && s'.kind[f].Table?
      ensures IsTable(s', dir, lo, f)
    {
      assert KindOf(s'.kind, f) == KindOf(s.kind, f);
    }
    forall f | f in s'.kind && s'.kind[f].Dir?
      ensures f == dir
    {
      assert KindOf(s'.kind, f) == KindOf(s.kind, f);
    }
    assert KindOf(s'.kind, dir) == Dir;
  }

  lemma PtesSame(s: Mach, dir: int, s': Mach)
    requires Tables(s, dir, 0) && Untouched(s, s')
    ensures SamePtes(s.mem, s'.mem, dir)
  {
  }

  lemma UsersSame(s: Mach, dir: int, s': Mach)
    requires Users(s, dir) && SamePtes(s.mem, s'.mem, dir) && SameUsers(s.kind, s'.kind)
    ensures Users(s', dir)
  {
    forall v | 0 <= v < USERPAGES && Mapped(s'.mem, dir, v)
      ensures KindOf(s'.kind, FrameOf(Pte(s'.mem, dir, v))) == User(v)
    {
      assert Pte(s'.mem, dir, v) == Pte(s.mem, dir, v);
    }
    forall f | f in s'.kind && s'.kind[f].User?
      ensures IsUser(s', dir, f)
    {
      assert KindOf(s'.kind, f) == KindOf(s.kind, f);
      assert IsUser(s, dir, f);
      assert Pte(s'.mem, dir, s.kind[f].v) == Pte(s.mem, dir, s.kind[f].v);
    }
  }

  /** walkpgdir puts in an empty table for directory entry x: no page becomes mapped. */
  ghost function WithTable(s: Mach, dir: int, x: int): Mach
    requires s.fl != []
  {
    var f := Top(s.fl);
    var a := Allocated(s);
    a.(mem := Put(a.mem[f := Filled(0)], dir, x, Entry(f, PTE_WU)), kind := a.kind[f := Table(x)])
  }

  lemma WithTableTables(s: Mach, dir: int, x: int, s': Mach)
    requires Inv(s, dir) && s.fl != [] && 0 <= x < ENTRIES && !HasTable(s.mem, dir, x) && s' == WithTable(s, dir, x)
    ensures Tables(s', dir, 0)
  {
    var f := Top(s.fl);
    assert LinkOk(s, |s.fl| - 1);
    EntryFields(f, PTE_WU);
    assert s'.mem[dir] == s.mem[dir][x := Entry(f, PTE_WU)];
    forall y | 0 <= y < ENTRIES && HasTable(s'.mem, dir, y)
      ensures KindOf(s'.kind, TableOf(s'.mem, dir, y)) == Table(y)
    {
      assert y != x ==> HasTable(s.mem, dir, y);
    }
    forall g | g in s'.kind && s'.kind[g].Table?
      ensures IsTable(s', dir, 0, g)
    {
      assert g != f ==> IsTable(s, dir, 0, g);
      assert g != f ==> HasTable(s.mem, dir, s.kind[g].x);
    }
  }

  lemma WithTableKeeps(s: Mach, dir: int, x: int, s': Mach)
    requires Inv(s, dir) && s.fl != [] && 0 <= x < ENTRIES && !HasTable(s.mem, dir, x) && s' == WithTable(s, dir, x)
    ensures Inv(s', dir) && HasTable(s'.mem, dir, x)
    ensures TableOf(s'.mem, dir, x) == Top(s.fl)
    ensures SamePtes(s.mem, s'.mem, dir)
    ensures Users(s, dir) ==> Users(s', dir)
  {
    var f := Top(s.fl);
    AllocatedKeeps(s, Allocated(s));
    EntryFields(f, PTE_WU);
    assert s'.mem[dir] == s.mem[dir][x := Entry(f, PTE_WU)];
    WithTableTables(s, dir, x, s');
    assert FreeList(s') by {
      forall i | 0 <= i < |s'.fl|
        ensures LinkOk(s', i)
      {
        assert LinkOk(Allocated(s), i);
      }
    }
  }

  /** Entry v of the table that is there for it becomes w. */
  ghost function WithEntry(s: Mach, dir: int, v: int, w: int): Mach {
    s.(mem := Put(s.mem, TableOf(s.mem, dir, Pdx(v)), Ptx(v), w))
  }

  lemma WithEntryKeeps(s: Mach, dir: int, v: int, w: int, s': Mach)
    requires Inv(s, dir) && 0 <= v < VPAGES && HasTable(s.mem, dir, Pdx(v)) && s' == WithEntry(s, dir, v, w)
    ensures Inv(s', dir)
    ensures Pte(s'.mem, dir, v) == if Present(w) then w else 0
    ensures forall u {:trigger Pte(s'.mem, dir, u)} :: 0 <= u < VPAGES && u != v ==>
              Pte(s'.mem, dir, u) == Pte(s.mem, dir, u)
  {
    var t := TableOf(s.mem, dir, Pdx(v));
    assert KindOf(s.kind, t) == Table(Pdx(v));
    assert forall x :: Word(s'.mem, dir, x) == Word(s.mem, dir, x);
    forall i | 0 <= i < |s'.fl|
      ensures LinkOk(s', i)
    {
      assert LinkOk(s, i);
    }
    forall x | 0 <= x < ENTRIES && HasTable(s'.mem, dir, x)
      ensures KindOf(s'.kind, TableOf(s'.mem, dir, x)) == Table(x)
    {
      assert HasTable(s.mem, dir, x);
    }
    forall f | f in s'.kind && s'.kind[f].Table?
      ensures IsTable(s', dir, 0, f)
    {
      assert IsTable(s, dir, 0, f);
    }
    forall u | 0 <= u < VPAGES && u != v
      ensures Pte(s'.mem, dir, u) == Pte(s.mem, dir, u)
    {
      assert HasTable(s.mem, dir, Pdx(u)) ==> KindOf(s.kind, TableOf(s.mem, dir, Pdx(u))) == Table(Pdx(u));
      assert Pdx(u) == Pdx(v) ==> Ptx(u) != Ptx(v);
    }
  }

  /** The only change of use is that free frames have become tables. */
  ghost predicate TablesOnly(k: map<int, Kind>, k': map<int, Kind>) {
    forall f {:trigger KindOf(k', f)} ::
      (f in k' <==> f in k) && (KindOf(k', f) == KindOf(k, f) || (KindOf(k, f).Free? && KindOf(k', f).Table?))
  }

  /** Pages in use for anything but this page table hold what they held. */
  ghost predicate SamePages(s: Mach, s': Mach) {
    forall f :: f in s.kind && (s.kind[f].User? || s.kind[f].Other?) ==>
      f in s.mem && f in s'.mem && s'.mem[f] == s.mem[f]
  }

  /** Pages lo to hi are mapped to frames from pf on, and no other entry differs. */
  ghost predicate MapsRange(m: map<int, seq<int>>, m': map<int, seq<int>>, dir: int, lo: int, hi: int, pf: int,
                            perm: int) {
    forall u {:trigger Pte(m', dir, u)} :: 0 <= u < VPAGES ==>
      Pte(m', dir, u) == if lo <= u < hi then Entry(pf + u - lo, perm) else Pte(m, dir, u)
  }

  ghost predicate InRange(k: Kind, lo: int, hi: int) {
    k.User? && lo <= k.v < hi
  }

  /** The only change of use is that user pages lo to hi have become free. */
  ghost predicate Released(k: map<int, Kind>, k': map<int, Kind>, lo: int, hi: int) {
    forall f {:trigger KindOf(k', f)} ::
      && (f in k' <==> f in k)
      && (|| KindOf(k', f) == KindOf(k, f)
          || (KindOf(k', f).Free? && (KindOf(k, f).Free? || InRange(KindOf(k, f), lo, hi))))
  }

  ghost predicate KeptPages(s: Mach, s': Mach, lo: int, hi: int) {
    forall f :: f in s.kind && (s.kind[f].Other? || (s.kind[f].User? && !InRange(s.kind[f], lo, hi))) ==>
      f in s.mem && f in s'.mem && s'.mem[f] == s.mem[f]
  }

  /** Pages lo to hi are not mapped, and no other entry differs. */
  ghost predicate Cut(m: map<int, seq<int>>, m': map<int, seq<int>>, dir: int, lo: int, hi: int) {
    forall u {:trigger Pte(m', dir, u)} :: 0 <= u < VPAGES ==>
      Pte(m', dir, u) == if lo <= u < hi then 0 else Pte(m, dir, u)
  }

  /** deallocuvm: pages lo to hi have gone, and their frames are free. */
  ghost predicate Shrunk(s: Mach, s': Mach, dir: int, lo: int, hi: int) {
    Released(s.kind, s'.kind, lo, hi) && KeptPages(s, s', lo, hi) && Cut(s.mem, s'.mem, dir, lo, hi)
  }

  lemma UnmapShrinks(s: Mach, dir: int, v: int, s1: Mach, s2: Mach)
    requires Inv(s, dir) && Users(s, dir) && 0 <= v < USERPAGES && Mapped(s.mem, dir, v)
    requires s1 == Freed(s, FrameOf(Pte(s.mem, dir, v))) && s2 == WithEntry(s1, dir, v, 0)
    requires SamePtes(s.mem, s1.mem, dir) && Tables(s1, dir, 0) && HasTable(s1.mem, dir, Pdx(v))
    requires Pte(s2.mem, dir, v) == 0
    requires forall u {:trigger Pte(s2.mem, dir, u)} :: 0 <= u < VPAGES && u != v ==>
               Pte(s2.mem, dir, u) == Pte(s1.mem, dir, u)
    ensures Shrunk(s, s2, dir, v, v + 1)
  {
    var f := FrameOf(Pte(s.mem, dir, v));
    var t := TableOf(s1.mem, dir, Pdx(v));
    assert KindOf(s.kind, f) == User(v) && KindOf(s1.kind, t) == Table(Pdx(v));
  }

  /** A mapped page's frame goes to the free list and its entry is cleared. */
  lemma UnmapKeeps(s: Mach, dir: int, v: int, s1: Mach, s2: Mach)
    requires Inv(s, dir) && Users(s, dir) && 0 <= v < USERPAGES && Mapped(s.mem, dir, v)
    requires s1 == Freed(s, FrameOf(Pte(s.mem, dir, v))) && s2 == WithEntry(s1, dir, v, 0)
    ensures Inv(s2, dir) && Users(s2, dir) && Shrunk(s, s2, dir, v, v + 1)
  {
    var f := FrameOf(Pte(s.mem, dir, v));
    assert KindOf(s.kind, f) == User(v);
    FreedKeeps(s, f, s1);
    TablesSame(s, dir, 0, s1);
    PtesSame(s, dir, s1);
    assert HasTable(s.mem, dir, Pdx(v)) && Word(s1.mem, dir, Pdx(v)) == Word(s.mem, dir, Pdx(v));
    WithEntryKeeps(s1, dir, v, 0, s2);
    forall u | 0 <= u < USERPAGES && Mapped(s2.mem, dir, u)
      ensures KindOf(s2.kind, FrameOf(Pte(s2.mem, dir, u))) == User(u)
    {
      assert u != v && Pte(s2.mem, dir, u) == Pte(s.mem, dir, u);
    }
    forall g | g in s2.kind && s2.kind[g].User?
      ensures IsUser(s2, dir, g)
    {
      assert g != f && IsUser(s, dir, g);
      assert Pte(s2.mem, dir, s.kind[g].v) == Pte(s.mem, dir, s.kind[g].v);
    }
    UnmapShrinks(s, dir, v, s1, s2);
  }

  lemma ShrunkTrans(s: Mach, s1: Mach, s2: Mach, dir: int, lo: int, v: int, hi: int)
    requires Shrunk(s, s1, dir, lo, v) && Shrunk(s1, s2, dir, v, hi) && lo <= v <= hi
    ensures Shrunk(s, s2, dir, lo, hi)
  {
    forall f
      ensures f in s2.kind <==> f in s.kind
      ensures KindOf(s2.kind, f) == KindOf(s.kind, f)
              || (KindOf(s2.kind, f).Free? && (KindOf(s.kind, f).Free? || InRange(KindOf(s.kind, f), lo, hi)))
    {
      assert KindOf(s2.kind, f) == KindOf(s1.kind, f) || KindOf(s2.kind, f).Free?;
    }
    forall f | f in s.kind && (s.kind[f].Other? || (s.kind[f].User? && !InRange(s.kind[f], lo, hi)))
      ensures f in s.mem && f in s2.mem && s2.mem[f] == s.mem[f]
    {
      assert KindOf(s1.kind, f) == KindOf(s.kind, f);
    }
    forall u | 0 <= u < VPAGES
      ensures Pte(s2.mem, dir, u) == if lo <= u < hi then 0 else Pte(s.mem, dir, u)
    {
      assert !(v <= u < hi) ==> Pte(s2.mem, dir, u) == Pte(s1.mem, dir, u);
    }
  }

  lemma ShrunkNothing(s: Mach, dir: int, lo: int, hi: int)
    requires Pages(s) && forall u :: 0 <= u < VPAGES && lo <= u < hi ==> Pte(s.mem, dir, u) == 0
    ensures Shrunk(s, s, dir, lo, hi)
  {
  }

  function PageUp(sz: int): int {
    (sz + PGSIZE - 1) / PGSIZE
  }

  /** PGROUNDUP: the first page that starts at or after sz. */
  lemma PageUpIs(sz: int)
    ensures sz <= PageUp(sz) * 4096 < sz + 4096
  {
  }

  /** Free frames have become tables, or user pages lo to hi, or the one frame e that is on its way to be one. */
  ghost predicate Taken(k: map<int, Kind>, k': map<int, Kind>, lo: int, hi: int, e: int) {
    forall f {:trigger KindOf(k', f)} ::
      && (f in k' <==> f in k)
      && (KindOf(k', f) == KindOf(k, f) ||
          (KindOf(k, f).Free? &&
           (|| KindOf(k', f).Free? || KindOf(k', f).Table?
            || InRange(KindOf(k', f), lo, hi) || (f == e && KindOf(k', f).Other?))))
  }

  /** Page u is mapped, writable by the user, to a zeroed frame that was free in s. */
  ghost predicate NewPage(s: Mach, s': Mach, dir: int, u: int) {
    var f := FrameOf(Pte(s'.mem, dir, u));
    Pte(s'.mem, dir, u) == Entry(f, PTE_WU) && KindOf(s.kind, f).Free? && f in s'.mem && s'.mem[f] == Filled(0)
  }

  /** allocuvm: pages lo to hi are new, and nothing else has changed but for new tables. */
  ghost predicate Grown(s: Mach, s': Mach, dir: int, lo: int, hi: int, e: int) {
    && Taken(s.kind, s'.kind, lo, hi, e) && SamePages(s, s')
    && (forall u {:trigger Pte(s'.mem, dir, u)} :: 0 <= u < VPAGES ==>
          if lo <= u < hi then NewPage(s, s', dir, u) else Pte(s'.mem, dir, u) == Pte(s.mem, dir, u))
  }

  lemma GrownNothing(s: Mach, dir: int, lo: int)
    requires Pages(s)
    ensures Grown(s, s, dir, lo, lo, 0)
  {
  }

  lemma TakenMore(k0: map<int, Kind>, k: map<int, Kind>, lo: int, v: int, f: int, k': map<int, Kind>)
    requires Taken(k0, k, lo, v, 0) && KindOf(k, f).Free? && f in k && k' == k[f := Other] && 0 !in k0
    ensures Taken(k0, k', lo, v, f) && KindOf(k0, f).Free?
  {
    forall g
      ensures (g in k' <==> g in k0) && (g != f ==> KindOf(k', g) == KindOf(k, g))
      ensures g in k && g != 0 ==> KindOf(k, g) == KindOf(k0, g) || KindOf(k0, g).Free?
    {
      assert KindOf(k, g) == KindOf(k0, g) || KindOf(k0, g).Free?;
    }
  }

  /** kalloc took frame f, and it was zeroed. */
  lemma GrownTake(s0: Mach, s: Mach, dir: int, lo: int, v: int, s': Mach)
    requires Grown(s0, s, dir, lo, v, 0) && Pages(s0) && Inv(s, dir) && Users(s, dir) && s.fl != []
    requires 0 <= lo && v <= USERPAGES
    requires var f := Top(s.fl); var a := Allocated(s); s' == a.(mem := a.mem[f := Filled(0)])
    ensures Inv(s', dir) && Users(s', dir) && Grown(s0, s', dir, lo, v, Top(s.fl))
    ensures KindOf(s0.kind, Top(s.fl)).Free? && KindOf(s'.kind, Top(s.fl)) == Other && Top(s.fl) in s'.kind
  {
    var f := Top(s.fl);
    var a := Allocated(s);
    AllocatedKeeps(s, a);
    assert KindOf(s.kind, f).Free? && f != 0;
    TablesSame(s, dir, 0, s');
    PtesSame(s, dir, s');
    UsersSame(s, dir, s');
    forall i | 0 <= i < |s'.fl|
      ensures LinkOk(s', i)
    {
      assert LinkOk(a, i);
    }
    TakenMore(s0.kind, s.kind, lo, v, f, s'.kind);
    forall g | g in s0.kind && (s0.kind[g].User? || s0.kind[g].Other?)
      ensures g in s0.mem && g in s'.mem && s'.mem[g] == s0.mem[g]
    {
      assert KindOf(s.kind, g) == KindOf(s0.kind, g);
    }
    forall u | 0 <= u < VPAGES
      ensures if lo <= u < v then NewPage(s0, s', dir, u) else Pte(s'.mem, dir, u) == Pte(s0.mem, dir, u)
    {
      assert Pte(s'.mem, dir, u) == Pte(s.mem, dir, u);
      if lo <= u < v {
        assert NewPage(s0, s, dir, u);
        EntryFields(FrameOf(Pte(s.mem, dir, u)), PTE_WU);
        assert KindOf(s.kind, FrameOf(Pte(s.mem, dir, u))) == User(u);
      }
    }
  }

  lemma GrownMapUsers(s: Mach, dir: int, v: int, f: int, s1: Mach, s2: Mach)
    requires Users(s, dir) && 0 <= v < USERPAGES && !Mapped(s.mem, dir, v) && f in s.kind && s.kind[f] == Other && f > 0
    requires TablesOnly(s.kind, s1.kind) && MapsRange(s.mem, s1.mem, dir, v, v + 1, f, PTE_WU)
    requires s2 == s1.(kind := s1.kind[f := User(v)])
    ensures Users(s2, dir)
  {
    EntryFields(f, PTE_WU);
    assert KindOf(s1.kind, f) == Other;
    forall u | 0 <= u < USERPAGES && Mapped(s2.mem, dir, u)
      ensures KindOf(s2.kind, FrameOf(Pte(s2.mem, dir, u))) == User(u)
    {
      if u != v {
        assert Pte(s2.mem, dir, u) == Pte(s.mem, dir, u);
        assert KindOf(s1.kind, FrameOf(Pte(s.mem, dir, u))) == User(u);
      }
    }
    forall g | g in s2.kind && s2.kind[g].User?
      ensures IsUser(s2, dir, g)
    {
      if g != f {
        assert KindOf(s1.kind, g) == KindOf(s.kind, g);
        assert IsUser(s, dir, g);
        assert Pte(s2.mem, dir, s.kind[g].v) == Pte(s.mem, dir, s.kind[g].v);
      }
      assert Pte(s2.mem, dir, v) == Entry(f, PTE_WU);
    }
  }

  lemma GrownMapKinds(s0: Mach, s: Mach, lo: int, v: int, f: int, s1: Mach, s2: Mach)
    requires Taken(s0.kind, s.kind, lo, v, f) && SamePages(s0, s)
    requires lo <= v && f in s.kind && s.kind[f] == Other && f > 0
    requires KindOf(s0.kind, f).Free? && TablesOnly(s.kind, s1.kind) && SamePages(s, s1)
    requires s2 == s1.(kind := s1.kind[f := User(v)])
    ensures Taken(s0.kind, s2.kind, lo, v + 1, 0) && SamePages(s0, s2)
  {
    forall g
      ensures g in s2.kind <==> g in s0.kind
      ensures KindOf(s2.kind, g) == KindOf(s0.kind, g) || (KindOf(s0.kind, g).Free? &&
              (KindOf(s2.kind, g).Free? || KindOf(s2.kind, g).Table? || InRange(KindOf(s2.kind, g), lo, v + 1)))
      ensures g in s0.kind && (s0.kind[g].User? || s0.kind[g].Other?) ==> KindOf(s.kind, g) == KindOf(s0.kind, g)
    {
      assert KindOf(s1.kind, g) == KindOf(s.kind, g) || KindOf(s.kind, g).Free?;
      assert KindOf(s.kind, g) == KindOf(s0.kind, g) || KindOf(s0.kind, g).Free?;
    }
  }

  /** mappages mapped page v to the zeroed frame f. */
  lemma GrownMap(s0: Mach, s: Mach, dir: int, lo: int, v: int, f: int, s1: Mach, s2: Mach)
    requires Grown(s0, s, dir, lo, v, f) && Users(s, dir) && 0 <= lo <= v < USERPAGES && !Mapped(s.mem, dir, v)
    requires f in s.kind && s.kind[f] == Other && f > 0 && KindOf(s0.kind, f).Free?
    requires f in s.mem && s.mem[f] == Filled(0)
    requires Inv(s1, dir) && TablesOnly(s.kind, s1.kind) && SamePages(s, s1)
    requires MapsRange(s.mem, s1.mem, dir, v, v + 1, f, PTE_WU) && s2 == s1.(kind := s1.kind[f := User(v)])
    ensures Inv(s2, dir) && Users(s2, dir) && Grown(s0, s2, dir, lo, v + 1, 0)
  {
    EntryFields(f, PTE_WU);
    assert KindOf(s1.kind, f) == Other;
    TablesSame(s1, dir, 0, s2);
    forall i | 0 <= i < |s2.fl|
      ensures LinkOk(s2, i)
    {
      assert LinkOk(s1, i);
    }
    GrownMapUsers(s, dir, v, f, s1, s2);
    GrownMapKinds(s0, s, lo, v, f, s1, s2);
    forall u | 0 <= u < VPAGES
      ensures if lo <= u < v + 1 then NewPage(s0, s2, dir, u) else Pte(s2.mem, dir, u) == Pte(s0.mem, dir, u)
    {
      assert u != v ==> Pte(s2.mem, dir, u) == Pte(s.mem, dir, u);
      if lo <= u < v {
        assert NewPage(s0, s, dir, u);
        EntryFields(FrameOf(Pte(s.mem, dir, u)), PTE_WU);
        assert KindOf(s.kind, FrameOf(Pte(s.mem, dir, u))) == User(u);
      }
      assert u == v ==> Pte(s2.mem, dir, u) == Entry(f, PTE_WU);
    }
  }

  /** allocuvm failed and called deallocuvm: the mapping is back, and so is every data page, all but e. */
  ghost predicate RolledBack(s0: Mach, s: Mach, dir: int, e: int) {
    SamePtes(s0.mem, s.mem, dir) && SamePages(s0, s) && Taken(s0.kind, s.kind, 0, 0, e)
  }

  lemma CutNotUser(s: Mach, s': Mach, dir: int, lo: int, hi: int, f: int)
    requires Cut(s.mem, s'.mem, dir, lo, hi) && Users(s', dir) && f in s'.kind
    ensures !InRange(s'.kind[f], lo, hi)
  {
  }

  lemma RollBack(s0: Mach, s1: Mach, s2: Mach, dir: int, lo: int, v: int, hi: int, e: int)
    requires Grown(s0, s1, dir, lo, v, e) && Shrunk(s1, s2, dir, lo, hi)
    requires Users(s2, dir) && 0 <= lo <= v <= hi <= USERPAGES
    requires forall u :: lo <= u < hi ==> !Mapped(s0.mem, dir, u)
    requires Users(s0, dir)
    ensures RolledBack(s0, s2, dir, e)
  {
    forall u | 0 <= u < VPAGES
      ensures Pte(s2.mem, dir, u) == Pte(s0.mem, dir, u)
    {
      assert lo <= u < hi ==> !Mapped(s0.mem, dir, u);
      assert !(lo <= u < hi) ==> Pte(s2.mem, dir, u) == Pte(s1.mem, dir, u);
    }
    forall g
      ensures g in s2.kind <==> g in s0.kind
      ensures KindOf(s2.kind, g) == KindOf(s0.kind, g) || (KindOf(s0.kind, g).Free? &&
              (KindOf(s2.kind, g).Free? || KindOf(s2.kind, g).Table? || (g == e && KindOf(s2.kind, g).Other?)))
    {
      assert KindOf(s1.kind, g) == KindOf(s0.kind, g) || KindOf(s0.kind, g).Free?;
      assert KindOf(s2.kind, g) == KindOf(s1.kind, g) || KindOf(s2.kind, g).Free?;
      if g in s0.kind && s0.kind[g].User? {
        assert IsUser(s0, dir, g) && !InRange(s0.kind[g], lo, hi);
      }
      if g in s2.kind {
        CutNotUser(s1, s2, dir, lo, hi, g);
      }
    }
    forall g | g in s0.kind && (s0.kind[g].User? || s0.kind[g].Other?)
      ensures g in s0.mem && g in s2.mem && s2.mem[g] == s0.mem[g]
    {
      assert KindOf(s1.kind, g) == KindOf(s0.kind, g);
      if s0.kind[g].User? {
        assert IsUser(s0, dir, g);
      }
    }
  }

  /** kfree of the page that could not be mapped completes it. */
  lemma RollBackLast(s0: Mach, s: Mach, dir: int, e: int, s': Mach)
    requires RolledBack(s0, s, dir, e) && Inv(s, dir) && Users(s, dir)
    requires e in s.kind && s.kind[e] == Other && KindOf(s0.kind, e).Free?
    requires s' == Freed(s, e)
    ensures Inv(s', dir) && Users(s', dir) && RolledBack(s0, s', dir, 0)
  {
    FreedKeeps(s, e, s');
    TablesSame(s, dir, 0, s');
    PtesSame(s, dir, s');
    UsersSame(s, dir, s');
    forall g
      ensures g in s'.kind <==> g in s0.kind
      ensures KindOf(s'.kind, g) == KindOf(s0.kind, g) ||
              (KindOf(s0.kind, g).Free? && (KindOf(s'.kind, g).Free? || KindOf(s'.kind, g).Table?))
    {
      assert KindOf(s.kind, g) == KindOf(s0.kind, g) || KindOf(s0.kind, g).Free?;
    }
    forall u | 0 <= u < VPAGES
      ensures Pte(s'.mem, dir, u) == Pte(s0.mem, dir, u)
    {
      assert Pte(s'.mem, dir, u) == Pte(s.mem, dir, u);
    }
  }

  /** Frames of this address space may have become free; all others are as they were. */
  ghost predicate Returning(s0: Mach, s: Mach) {
    forall f {:trigger KindOf(s.kind, f)} ::
      && (f in s.kind <==> f in s0.kind)
      && (KindOf(s.kind, f) == KindOf(s0.kind, f) || (KindOf(s.kind, f).Free? && !KindOf(s0.kind, f).Other?))
      && (f in s0.kind && s0.kind[f].Other? ==> f in s0.mem && f in s.mem && s.mem[f] == s0.mem[f])
  }

  ghost predicate NoUsers(k: map<int, Kind>) {
    forall f :: f in k ==> !k[f].User?
  }

  lemma FreevmStart(s0: Mach, s: Mach, dir: int)
    requires Shrunk(s0, s, dir, 0, USERPAGES) && Users(s, dir)
    ensures Returning(s0, s) && NoUsers(s.kind)
  {
  }

  lemma NoTableAt(s: Mach, dir: int, i: int)
    requires Tables(s, dir, i) && !HasTable(s.mem, dir, i)
    ensures Tables(s, dir, i + 1)
  {
  }

  lemma ReturnedOne(s0: Mach, s: Mach, t: int, s': Mach)
    requires Returning(s0, s) && t in s.kind && !s.kind[t].Other? && s' == Freed(s, t)
    ensures Returning(s0, s')
  {
    forall f
      ensures f in s'.kind <==> f in s0.kind
      ensures KindOf(s'.kind, f) == KindOf(s0.kind, f) || (KindOf(s'.kind, f).Free? && !KindOf(s0.kind, f).Other?)
      ensures f in s0.kind && s0.kind[f].Other? ==> f in s0.mem && f in s'.mem && s'.mem[f] == s0.mem[f]
    {
      assert KindOf(s.kind, f) == KindOf(s0.kind, f) || KindOf(s.kind, f).Free?;
    }
  }

  /** freevm frees the table of entry i. */
  lemma TableFreed(s0: Mach, s: Mach, dir: int, i: int, s': Mach)
    requires Pages(s) && FreeList(s) && Tables(s, dir, i) && 0 <= i < ENTRIES && HasTable(s.mem, dir, i)
    requires s' == Freed(s, TableOf(s.mem, dir, i)) && Returning(s0, s)
    ensures Tables(s', dir, i + 1) && Returning(s0, s')
  {
    var t := TableOf(s.mem, dir, i);
    assert KindOf(s.kind, t) == Table(i);
    assert forall x :: Word(s'.mem, dir, x) == Word(s.mem, dir, x);
    forall x | i + 1 <= x < ENTRIES && HasTable(s'.mem, dir, x)
      ensures KindOf(s'.kind, TableOf(s'.mem, dir, x)) == Table(x)
    {
      assert HasTable(s.mem, dir, x);
    }
    forall f | f in s'.kind && s'.kind[f].Table?
      ensures IsTable(s', dir, i + 1, f)
    {
      assert IsTable(s, dir, i, f);
    }
    ReturnedOne(s0, s, t, s');
  }

  /** Every page that was not in other use is on the free list. */
  ghost predicate AllReturned(s0: Mach, s: Mach) {
    && Returning(s0, s)
    && forall f :: f in s.kind ==> s.kind[f].Free? || s.kind[f].Other?
  }

  lemma FreevmEnd(s0: Mach, s: Mach, dir: int, s': Mach)
    requires Tables(s, dir, ENTRIES) && NoUsers(s.kind) && Returning(s0, s) && s' == Freed(s, dir)
    ensures AllReturned(s0, s')
  {
    assert KindOf(s.kind, dir) == Dir;
    ReturnedOne(s0, s, dir, s');
    forall f | f in s'.kind
      ensures s'.kind[f].Free? || s'.kind[f].Other?
    {
      assert f in s.kind && s.kind[f].Table? ==> IsTable(s, dir, ENTRIES, f);
    }
  }

  function Missing(m: map<int, seq<int>>, dir: int, lo: int, u: int): nat {
    if !HasTable(m, dir, Pdx(u)) && (u == lo || Pdx(u) != Pdx(u - 1)) then 1 else 0
  }

  /** How many tables mapping pages lo to hi has to make. */
  function TablesFor(m: map<int, seq<int>>, dir: int, lo: int, hi: int): nat
    decreases hi - lo
  {
    if hi <= lo then 0 else TablesFor(m, dir, lo, hi - 1) + Missing(m, dir, lo, hi - 1)
  }

  /** From s to s', pages lo to hi got the tables they lacked, and those and k more pages were taken. */
  ghost predicate Spent(s: Mach, s': Mach, dir: int, lo: int, hi: int, k: int) {
    && |s.fl| - |s'.fl| == TablesFor(s.mem, dir, lo, hi) + k
    && forall x {:trigger HasTable(s'.mem, dir, x)} :: 0 <= x < ENTRIES ==>
         (HasTable(s'.mem, dir, x) <==> HasTable(s.mem, dir, x) || (lo < hi && Pdx(lo) <= x <= Pdx(hi - 1)))
  }

  lemma SpentStep(s0: Mach, s: Mach, s': Mach, dir: int, lo: int, a: int, k: int, j: int)
    requires Spent(s0, s, dir, lo, a, k) && Spent(s, s', dir, a, a + 1, j) && 0 <= lo <= a < VPAGES
    ensures Spent(s0, s', dir, lo, a + 1, k + j)
  {
    assert TablesFor(s.mem, dir, a, a + 1) == TablesFor(s.mem, dir, a, a) + Missing(s.mem, dir, a, a);
    assert HasTable(s.mem, dir, Pdx(a)) <==> HasTable(s0.mem, dir, Pdx(a)) || (lo < a && Pdx(a) <= Pdx(a - 1));
    assert Missing(s.mem, dir, a, a) == Missing(s0.mem, dir, lo, a);
    forall x | 0 <= x < ENTRIES
      ensures HasTable(s'.mem, dir, x) <==> HasTable(s0.mem, dir, x) || Pdx(lo) <= x <= Pdx(a)
    {
      assert HasTable(s'.mem, dir, x) <==> HasTable(s.mem, dir, x) || x == Pdx(a);
    }
  }

  lemma MapsStep(s0: Mach, s: Mach, s': Mach, dir: int, lo: int, a: int, pf: int, perm: int)
    requires TablesOnly(s0.kind, s.kind) && SamePages(s0, s)
    requires MapsRange(s0.mem, s.mem, dir, lo, a, pf, perm) && lo <= a
    requires TablesOnly(s.kind, s'.kind) && SamePages(s, s')
    requires MapsRange(s.mem, s'.mem, dir, a, a + 1, pf + a - lo, perm)
    ensures TablesOnly(s0.kind, s'.kind) && SamePages(s0, s') && MapsRange(s0.mem, s'.mem, dir, lo, a + 1, pf, perm)
  {
    forall f
      ensures (f in s'.kind <==> f in s0.kind)
      ensures KindOf(s'.kind, f) == KindOf(s0.kind, f) || (KindOf(s0.kind, f).Free? && KindOf(s'.kind, f).Table?)
      ensures f in s0.kind && (s0.kind[f].User? || s0.kind[f].Other?) ==> s.kind[f] == s0.kind[f]
    {
      assert KindOf(s'.kind, f) == KindOf(s.kind, f) || KindOf(s.kind, f).Free?;
    }
    forall u | 0 <= u < VPAGES
      ensures Pte(s'.mem, dir, u) == if lo <= u < a + 1 then Entry(pf + u - lo, perm) else Pte(s0.mem, dir, u)
    {
      assert u != a ==> Pte(s'.mem, dir, u) == Pte(s.mem, dir, u);
    }
  }

  /** What mappages has done to pages lo to hi. */
  ghost predicate Unmapped(m: map<int, seq<int>>, dir: int, lo: int, hi: int) {
    forall u {:trigger Mapped(m, dir, u)} :: lo <= u < hi ==> !Mapped(m, dir, u)
  }

  ghost predicate Mapping(s: Mach, s': Mach, dir: int, lo: int, hi: int, pf: int, perm: int) {
    && TablesOnly(s.kind, s'.kind) && SamePages(s, s')
    && MapsRange(s.mem, s'.mem, dir, lo, hi, pf, perm) && Spent(s, s', dir, lo, hi, 0)
  }

  /** Pages lo to hi have the entries of consecutive frames from pf on, with these permissions. */
  ghost predicate RawRange(m: map<int, seq<int>>, dir: int, lo: int, hi: int, pf: int, perm: int) {
    forall u :: lo <= u < hi ==> IsEntry(RawPte(m, dir, u), pf + u - lo, perm)
  }

  lemma MappingIsRaw(s: Mach, s': Mach, dir: int, lo: int, hi: int, pf: int, perm: int)
    requires Mapping(s, s', dir, lo, hi, pf, perm) && 0 <= lo && hi <= VPAGES && pf >= 0 && 0 <= perm < PGSIZE
    ensures RawRange(s'.mem, dir, lo, hi, pf, perm)
  {
    forall u | lo <= u < hi
      ensures IsEntry(RawPte(s'.mem, dir, u), pf + u - lo, perm)
    {
      PteIsRaw(s'.mem, dir, u);
      assert Pte(s'.mem, dir, u) == Entry(pf + u - lo, perm);
      EntryFields(pf + u - lo, perm);
    }
  }

  /** Page u is writable by its user, and all zeros. */
  ghost predicate RawNew(m: map<int, seq<int>>, dir: int, u: int) {
    var w := RawPte(m, dir, u);
    w % 4096 == 7 && w / 4096 in m && |m[w / 4096]| == 1024 && forall i :: 0 <= i < 1024 ==> m[w / 4096][i] == 0
  }

  lemma GrownIsRaw(s: Mach, s': Mach, dir: int, lo: int, hi: int)
    requires Grown(s, s', dir, lo, hi, 0) && Pages(s) && 0 <= lo && hi <= VPAGES
    ensures forall u :: lo <= u < hi ==> RawNew(s'.mem, dir, u)
  {
    forall u | lo <= u < hi
      ensures RawNew(s'.mem, dir, u)
    {
      PteIsRaw(s'.mem, dir, u);
      assert NewPage(s, s', dir, u);
      EntryFields(FrameOf(Pte(s'.mem, dir, u)), PTE_WU);
    }
  }

  lemma MappingNothing(s: Mach, dir: int, lo: int, pf: int, perm: int)
    requires Pages(s)
    ensures Mapping(s, s, dir, lo, lo, pf, perm)
  {
  }

  lemma MappingStep(s0: Mach, s: Mach, s': Mach, dir: int, lo: int, a: int, hi: int, pf: int, f: int, perm: int)
    requires Mapping(s0, s, dir, lo, a, pf, perm) && Mapping(s, s', dir, a, a + 1, f, perm)
    requires 0 <= lo <= a < VPAGES && hi == a + 1 && f == pf + a - lo
    ensures Mapping(s0, s', dir, lo, hi, pf, perm)
  {
    MapsStep(s0, s, s', dir, lo, a, pf, perm);
    SpentStep(s0, s, s', dir, lo, a, 0, 0);
  }

  /** The table being there, the entry is written. */
  lemma MappingOne(s0: Mach, s: Mach, dir: int, v: int, f: int, perm: int, s': Mach)
    requires Inv(s, dir) && 0 <= v < VPAGES && HasTable(s.mem, dir, Pdx(v)) && f >= 0 && 0 <= perm < PGSIZE
    requires TablesOnly(s0.kind, s.kind) && SamePages(s0, s)
    requires SamePtes(s0.mem, s.mem, dir) && Spent(s0, s, dir, v, v + 1, 0)
    requires s' == WithEntry(s, dir, v, Entry(f, perm))
    ensures Inv(s', dir) && Mapping(s0, s', dir, v, v + 1, f, perm)
  {
    WithEntryKeeps(s, dir, v, Entry(f, perm), s');
    EntryFields(f, perm);
    var t := TableOf(s.mem, dir, Pdx(v));
    assert KindOf(s.kind, t) == Table(Pdx(v));
    assert forall x :: Word(s'.mem, dir, x) == Word(s.mem, dir, x);
    forall g | g in s0.kind && (s0.kind[g].User? || s0.kind[g].Other?)
      ensures g in s'.mem && g in s0.mem && s'.mem[g] == s0.mem[g]
    {
      assert KindOf(s.kind, g) == KindOf(s0.kind, g);
    }
    forall x | 0 <= x < ENTRIES
      ensures HasTable(s'.mem, dir, x) <==> HasTable(s0.mem, dir, x) || x == Pdx(v)
    {
      assert HasTable(s'.mem, dir, x) <==> HasTable(s.mem, dir, x);
    }
    forall u | 0 <= u < VPAGES
      ensures Pte(s'.mem, dir, u) == if v <= u < v + 1 then Entry(f + u - v, perm) else Pte(s0.mem, dir, u)
    {
      assert u != v ==> Pte(s'.mem, dir, u) == Pte(s.mem, dir, u);
    }
  }

  lemma {:induction false} TablesForGrows(m: map<int, seq<int>>, dir: int, lo: int, a: int, hi: int)
    requires a <= hi
    ensures TablesFor(m, dir, lo, a) <= TablesFor(m, dir, lo, hi)
    decreases hi - a
  {
    if a < hi {
      TablesForGrows(m, dir, lo, a, hi - 1);
    }
  }

  lemma SpentTake(s0: Mach, s: Mach, dir: int, lo: int, a: int, k: int, s': Mach)
    requires Spent(s0, s, dir, lo, a, k) && |s'.fl| == |s.fl| - 1
    requires dir in s.mem && dir in s'.mem && s'.mem[dir] == s.mem[dir]
    ensures Spent(s0, s', dir, lo, a, k + 1)
  {
    forall x | 0 <= x < ENTRIES
      ensures HasTable(s'.mem, dir, x) <==> HasTable(s0.mem, dir, x) || (lo < a && Pdx(lo) <= x <= Pdx(a - 1))
    {
      assert HasTable(s'.mem, dir, x) <==> HasTable(s.mem, dir, x);
    }
  }

  /** The pages that allocuvm needs for pages lo to hi. */
  function Needed(m: map<int, seq<int>>, dir: int, lo: int, hi: int): int {
    hi - lo + TablesFor(m, dir, lo, hi)
  }

  /** With the free list empty at page a, there were too few pages to start with. */
  lemma RanOut(s0: Mach, s: Mach, dir: int, lo: int, a: int, hi: int, k: int)
    requires Spent(s0, s, dir, lo, a, a - lo + k) && s.fl == [] && 0 <= lo <= a < hi <= VPAGES
    requires k == 0 || (k == 1 && !HasTable(s.mem, dir, Pdx(a)))
    ensures |s0.fl| < Needed(s0.mem, dir, lo, hi)
  {
    assert k == 1 ==> Missing(s0.mem, dir, lo, a) == 1;
    TablesForGrows(s0.mem, dir, lo, a + 1, hi);
  }

  lemma PageMapped(s0: Mach, s: Mach, dir: int, lo: int, v: int, f: int, s1: Mach, s2: Mach)
    requires Grown(s0, s, dir, lo, v, f) && Users(s, dir) && 0 <= lo <= v < USERPAGES && !Mapped(s.mem, dir, v)
    requires f in s.kind && s.kind[f] == Other && f > 0 && KindOf(s0.kind, f).Free?
    requires f in s.mem && s.mem[f] == Filled(0)
    requires Spent(s0, s, dir, lo, v, v - lo + 1)
    requires Inv(s1, dir) && Mapping(s, s1, dir, v, v + 1, f, PTE_WU) && s2 == s1.(kind := s1.kind[f := User(v)])
    ensures Inv(s2, dir) && Users(s2, dir) && Grown(s0, s2, dir, lo, v + 1, 0)
    ensures Spent(s0, s2, dir, lo, v + 1, v + 1 - lo)
  {
    GrownMap(s0, s, dir, lo, v, f, s1, s2);
    SpentStep(s0, s, s2, dir, lo, v, v - lo + 1, 0);
  }
}
