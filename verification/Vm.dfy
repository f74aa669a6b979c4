/** vm.c and kalloc.c as they run: pages are taken from and put on the free list, and table entries written in place. */
module Vm {
  import opened VmSpec

  datatype MapResult = Done | NoTable | Remap

  /**
    Where mappages of pages first to last stops: at the first page mapped before, or at one that needs a table in vain.
  */
  ghost predicate StopsAt(s: Mach, s': Mach, dir: int, first: int, last: int, r: MapResult, stop: int) {
    && first <= stop <= last + 1
    && Unmapped(s.mem, dir, first, stop)
    && (r.Done? <==> stop == last + 1)
    && (r.Remap? <==> stop <= last && Mapped(s.mem, dir, stop))
    && (r.NoTable? ==> s'.fl == [] && !HasTable(s'.mem, dir, Pdx(stop)))
  }

  function Max(a: int, b: int): int {
    if a < b then b else a
  }

  function Min(a: int, b: int): int {
    if a < b then a else b
  }

  lemma FrameAddr(f: int)
    ensures f * PGSIZE % PGSIZE == 0 && f * PGSIZE / PGSIZE == f
  {
  }

  lemma SkipTable(s: Mach, dir: int, lo: int, hi: int)
    requires Pages(s) && 0 <= lo && !HasTable(s.mem, dir, Pdx(lo)) && hi <= (Pdx(lo) + 1) * ENTRIES
    ensures Shrunk(s, s, dir, lo, hi)
  {
  }

  class Memory {
    var mem: map<int, seq<int>>
    var freelist: int
    ghost var fl: seq<int>
    ghost var kind: map<int, Kind>

    ghost function S(): Mach
      reads this
    {
      Mach(mem, freelist, fl, kind)
    }

    /** Before kinit: no page is free yet. */
    constructor (mem: map<int, seq<int>>)
      requires forall f :: f in mem ==> f > 0 && |mem[f]| == ENTRIES
      ensures Pages(S()) && FreeList(S()) && fl == [] && kind == map f | f in mem :: Other
    {
      this.mem, freelist := mem, 0;
      fl, kind := [], map f | f in mem :: Other;
    }

    /** The first page of the free list, or 0. */
    method Kalloc() returns (f: int)
      requires Pages(S()) && FreeList(S())
      modifies this
      ensures Pages(S()) && FreeList(S())
      ensures f == 0 <==> old(fl) == []
      ensures if f == 0 then unchanged(this) else f == Top(old(fl)) && S() == Allocated(old(S()))
      ensures f != 0 ==> old(KindOf(kind, f)).Free? && f in kind
    {
      assert fl != [] ==> LinkOk(S(), |fl| - 1);
      f := freelist;
      if f != 0 {
        freelist := FrameOf(Word(mem, f, 0));
        fl := fl[..|fl| - 1];
        kind := kind[f := Other];
        AllocatedKeeps(old(S()), S());
      }
    }

    /** kfree past its checks. */
    method PushPage(f: int)
      requires Pages(S()) && FreeList(S()) && f in kind && !kind[f].Free?
      modifies this
      ensures Pages(S()) && FreeList(S()) && S() == Freed(old(S()), f)
    {
      mem := mem[f := Filled(0x0101_0101)];
      mem := Put(mem, f, 0, freelist * PGSIZE);
      freelist := f;
      kind := kind[f := Free(|fl|)];
      fl := fl + [f];
      FreedKeeps(old(S()), f, S());
    }

    /**
      Of physical address pa. The kernel panics, ok being false, exactly when that is not a page the allocator manages.
    */
    method Kfree(pa: int) returns (ok: bool)
      requires Pages(S()) && FreeList(S()) && !KindOf(kind, pa / PGSIZE).Free?
      modifies this
      ensures ok <==> pa % PGSIZE == 0 && pa / PGSIZE in old(kind)
      ensures if ok then Pages(S()) && FreeList(S()) && S() == Freed(old(S()), pa / PGSIZE) else unchanged(this)
    {
      if pa % PGSIZE != 0 || pa / PGSIZE !in mem {
        return false;
      }
      PushPage(pa / PGSIZE);
      return true;
    }

    /** freerange: the whole pages between the two addresses go on the free list, in order. */
    method Freerange(vstart: int, vend: int)
      requires Pages(S()) && FreeList(S()) && 0 <= vstart
      requires forall f :: PageUp(vstart) <= f < vend / PGSIZE ==> f in kind && !kind[f].Free?
      modifies this
      ensures Pages(S()) && FreeList(S())
      ensures |fl| == |old(fl)| + Max(0, vend / PGSIZE - PageUp(vstart)) && old(fl) <= fl
      ensures forall i :: |old(fl)| <= i < |fl| ==> fl[i] == PageUp(vstart) + i - |old(fl)|
      ensures forall f :: f in kind <==> f in old(kind)
      ensures forall f :: f in kind && !(PageUp(vstart) <= f < vend / PGSIZE) ==> kind[f] == old(kind)[f]
    {
      var p := PageUp(vstart);
      while p * PGSIZE + PGSIZE <= vend
        invariant PageUp(vstart) <= p <= Max(PageUp(vstart), vend / PGSIZE)
        invariant Pages(S()) && FreeList(S())
        invariant |fl| == |old(fl)| + p - PageUp(vstart) && old(fl) <= fl
        invariant forall i :: |old(fl)| <= i < |fl| ==> fl[i] == PageUp(vstart) + i - |old(fl)|
        invariant forall f :: f in kind <==> f in old(kind)
        invariant forall f :: f in kind && !(PageUp(vstart) <= f < p) ==> kind[f] == old(kind)[f]
      {
        FrameAddr(p);
        var _ := Kfree(p * PGSIZE);
        p := p + 1;
      }
    }

    /** The table that holds the entry of page v, made if asked for and possible, or 0. */
    method Walkpgdir(dir: int, v: int, alloc: bool) returns (t: int)
      requires Inv(S(), dir) && 0 <= v < VPAGES
      modifies this
      ensures Inv(S(), dir) && SamePtes(old(mem), mem, dir) && TablesOnly(old(kind), kind) && SamePages(old(S()), S())
      ensures old(Users(S(), dir)) ==> Users(S(), dir)
      ensures t != 0 ==> HasTable(mem, dir, Pdx(v)) && t == TableOf(mem, dir, Pdx(v))
      ensures !alloc || old(HasTable(mem, dir, Pdx(v))) || old(fl) == [] ==> unchanged(this)
      ensures t == 0 <==> !old(HasTable(mem, dir, Pdx(v))) && (!alloc || old(fl) == [])
      ensures t != 0 ==> Spent(old(S()), S(), dir, v, v + 1, 0)
      ensures t != 0 ==> dir in mem && |mem[dir]| == 1024 && IsEntry(mem[dir][v / 1024], t, mem[dir][v / 1024] % 4096)
      ensures t != 0 && !old(HasTable(mem, dir, Pdx(v))) ==> mem[dir][v / 1024] == t * 4096 + 7
    {
      var x := v / ENTRIES;
      EntryFields(0, PTE_WU);
      if Present(Word(mem, dir, x)) {
        assert HasTable(mem, dir, x);
        t := FrameOf(Word(mem, dir, x));
      } else {
        t := 0;
        if alloc {
          t := Kalloc();
        }
        if t == 0 {
          return;
        }
        mem := mem[t := Filled(0)];
        mem := Put(mem, dir, x, Entry(t, PTE_WU));
        kind := kind[t := Table(x)];
        WithTableKeeps(old(S()), dir, x, S());
      }
    }

    /** One turn of mappages: page v is mapped to frame f, unless it is mapped already or no table can be had for it. */
    method MapPage(dir: int, v: int, f: int, perm: int) returns (r: MapResult)
      requires Inv(S(), dir) && 0 <= v < VPAGES && f >= 0 && 0 <= perm < PGSIZE
      modifies this
      ensures Inv(S(), dir)
      ensures r.Remap? <==> old(Mapped(mem, dir, v))
      ensures r.NoTable? ==> fl == [] && !HasTable(mem, dir, Pdx(v))
      ensures if r.Done? then Mapping(old(S()), S(), dir, v, v + 1, f, perm) else unchanged(this)
    {
      var t := Walkpgdir(dir, v, true);
      if t == 0 {
        return NoTable;
      }
      assert Pte(mem, dir, v) == old(Pte(mem, dir, v));
      if Present(Word(mem, t, v % ENTRIES)) {
        assert Mapped(mem, dir, v) && old(Mapped(mem, dir, v));
        return Remap;
      }
      ghost var s := S();
      mem := Put(mem, t, v % ENTRIES, Entry(f, perm));
      MappingOne(old(S()), s, dir, v, f, perm, S());
      return Done;
    }

    /** mappages' loop, over page numbers. */
    method MapRange(dir: int, first: int, last: int, pf: int, perm: int) returns (r: MapResult, ghost stop: int)
      requires Inv(S(), dir) && 0 <= first <= last < VPAGES && pf >= 0 && 0 <= perm < PGSIZE
      modifies this
      ensures Inv(S(), dir) && Mapping(old(S()), S(), dir, first, stop, pf, perm)
      ensures StopsAt(old(S()), S(), dir, first, last, r, stop)
      ensures stop == first ==> unchanged(this)
    {
      ghost var s0 := S();
      var a, f := first, pf;
      MappingNothing(s0, dir, a, pf, perm);
      while true
        invariant first <= a <= last && f == pf + a - first
        invariant Inv(S(), dir) && Mapping(s0, S(), dir, first, a, pf, perm) && Unmapped(s0.mem, dir, first, a)
        invariant a == first ==> unchanged(this)
        decreases last - a
      {
        assert Pte(mem, dir, a) == Pte(s0.mem, dir, a);
        ghost var s := S();
        var next := a + 1;
        r := MapPage(dir, a, f, perm);
        if !r.Done? {
          return r, a;
        }
        MappingStep(s0, s, S(), dir, first, a, next, pf, f, perm);
        if a == last {
          return r, next;
        }
        a := next;
        f := f + 1;
      }
    }

    /**
     * mappages: the pages that va to va+size-1 touch, from the first to before stop, are mapped to consecutive frames.
     * At stop it is done, or finds no table to be had, or panics over a page that is mapped already.
     */
    method Mappages(dir: int, va: int, size: int, pf: int, perm: int) returns (r: MapResult, ghost stop: int)
      requires Inv(S(), dir) && 0 <= va && 1 <= size && va + size <= VPAGES * PGSIZE && pf >= 0 && 0 <= perm < PGSIZE
      modifies this
      ensures Inv(S(), dir) && Mapping(old(S()), S(), dir, va / PGSIZE, stop, pf, perm)
      ensures StopsAt(old(S()), S(), dir, va / PGSIZE, (va + size - 1) / PGSIZE, r, stop)
      ensures stop == va / PGSIZE ==> unchanged(this)
      ensures RawRange(mem, dir, va / 4096, stop, pf, perm)
    {
      r, stop := MapRange(dir, va / PGSIZE, (va + size - 1) / PGSIZE, pf, perm);
      MappingIsRaw(old(S()), S(), dir, va / PGSIZE, stop, pf, perm);
    }

    /** deallocuvm's loop body for a page whose table is there. */
    method UnmapPage(dir: int, v: int, t: int, ghost hi: int)
      requires Inv(S(), dir) && Users(S(), dir) && 0 <= v < USERPAGES && hi == v + 1
      requires HasTable(mem, dir, Pdx(v)) && t == TableOf(mem, dir, Pdx(v))
      modifies this
      ensures Inv(S(), dir) && Users(S(), dir) && Shrunk(old(S()), S(), dir, v, hi)
    {
      var pte := Word(mem, t, v % ENTRIES);
      if Present(pte) {
        assert Mapped(mem, dir, v) && Pte(mem, dir, v) == pte;
        var f := FrameOf(pte);
        assert KindOf(kind, f) == User(v);
        assert f != 0;
        FrameAddr(f);
        var _ := Kfree(f * PGSIZE);
        ghost var s := S();
        assert t == TableOf(mem, dir, Pdx(v)) by {
          TablesSame(old(S()), dir, 0, s);
          assert KindOf(old(kind), dir) == Dir && Word(mem, dir, Pdx(v)) == old(Word(mem, dir, Pdx(v)));
        }
        mem := Put(mem, t, v % ENTRIES, 0);
        UnmapKeeps(old(S()), dir, v, s, S());
      } else {
        ShrunkNothing(S(), dir, v, hi);
      }
    }

    method Deallocuvm(dir: int, oldsz: int, newsz: int) returns (r: int)
      requires Inv(S(), dir) && Users(S(), dir) && 0 <= newsz && 0 <= oldsz <= KERNBASE
      modifies this
      ensures Inv(S(), dir) && Users(S(), dir)
      ensures r == if newsz >= oldsz then oldsz else newsz
      ensures if newsz >= oldsz then unchanged(this) else Shrunk(old(S()), S(), dir, PageUp(newsz), PageUp(oldsz))
    {
      if newsz >= oldsz {
        return oldsz;
      }
      ghost var s0, lo, hi := S(), PageUp(newsz), PageUp(oldsz);
      ghost var done := lo;
      var a := PageUp(newsz);
      ShrunkNothing(s0, dir, lo, lo);
      while a * PGSIZE < oldsz
        invariant Inv(S(), dir) && Users(S(), dir) && lo <= a
        invariant done == Min(a, hi) && Shrunk(s0, S(), dir, lo, done)
        decreases USERPAGES - a
      {
        ghost var s, v := S(), a;
        assert done == v;
        var t := Walkpgdir(dir, a, false);
        if t == 0 {
          a := (a / ENTRIES + 1) * ENTRIES - 1;
          done := Min(a + 1, hi);
          SkipTable(s, dir, v, done);
        } else {
          done := a + 1;
          UnmapPage(dir, a, t, done);
        }
        ShrunkTrans(s0, s, S(), dir, lo, v, done);
        a := a + 1;
      }
      return newsz;
    }

    /** allocuvm's way out: deallocuvm over the whole range takes back what has been mapped of it. */
    method Undo(dir: int, newsz: int, oldsz: int, ghost s0: Mach, ghost a: int, ghost e: int)
      requires Inv(S(), dir) && Users(S(), dir) && 0 <= oldsz < newsz < KERNBASE
      requires Grown(s0, S(), dir, PageUp(oldsz), a, e) && PageUp(oldsz) <= a <= PageUp(newsz) && Users(s0, dir)
      requires forall u :: PageUp(oldsz) <= u < PageUp(newsz) ==> !Mapped(s0.mem, dir, u)
      modifies this
      ensures Inv(S(), dir) && Users(S(), dir) && RolledBack(s0, S(), dir, e)
      ensures e in old(kind) && old(kind[e]) == Other ==> e in kind && kind[e] == Other
    {
      var _ := Deallocuvm(dir, newsz, oldsz);
      RollBack(s0, old(S()), S(), dir, PageUp(oldsz), a, PageUp(newsz), e);
      assert KindOf(kind, e) == old(KindOf(kind, e)) || KindOf(kind, e).Free?;
    }

    /** kalloc and memset. */
    method TakeZeroed(dir: int, ghost lo: int, ghost a: int, ghost s0: Mach) returns (f: int)
      requires Inv(S(), dir) && Users(S(), dir) && 0 <= lo <= a <= USERPAGES
      requires Pages(s0) && Grown(s0, S(), dir, lo, a, 0)
      requires Spent(s0, S(), dir, lo, a, a - lo)
      modifies this
      ensures Inv(S(), dir) && Users(S(), dir) && Grown(s0, S(), dir, lo, a, f)
      ensures f == 0 || (f in kind && kind[f] == Other && KindOf(s0.kind, f).Free? && mem[f] == Filled(0))
      ensures if f == 0 then unchanged(this) && fl == [] else Spent(s0, S(), dir, lo, a, a - lo + 1)
    {
      f := Kalloc();
      if f != 0 {
        mem := mem[f := Filled(0)];
        GrownTake(s0, old(S()), dir, lo, a, S());
        SpentTake(s0, old(S()), dir, lo, a, a - lo, S());
      }
    }

    /** mappages of the page taken. */
    method MapTaken(dir: int, ghost lo: int, a: int, f: int, ghost s0: Mach) returns (ok: bool)
      requires Inv(S(), dir) && Users(S(), dir) && 0 <= lo <= a < USERPAGES && Grown(s0, S(), dir, lo, a, f)
      requires f in kind && kind[f] == Other && KindOf(s0.kind, f).Free?
      requires mem[f] == Filled(0) && !Mapped(s0.mem, dir, a)
      requires Spent(s0, S(), dir, lo, a, a - lo + 1)
      modifies this
      ensures if ok then Inv(S(), dir) && Users(S(), dir) && Grown(s0, S(), dir, lo, a + 1, 0) else unchanged(this)
      ensures if ok then Spent(s0, S(), dir, lo, a + 1, a + 1 - lo) else fl == [] && !HasTable(mem, dir, Pdx(a))
    {
      ghost var stop;
      assert Pte(mem, dir, a) == Pte(s0.mem, dir, a);
      assert a * PGSIZE / PGSIZE == a && (a * PGSIZE + PGSIZE - 1) / PGSIZE == a;
      var r;
      r, stop := Mappages(dir, a * PGSIZE, PGSIZE, f, PTE_WU);
      ok := r.Done?;
      if ok {
        ghost var s := S();
        kind := kind[f := User(a)];
        PageMapped(s0, old(S()), dir, lo, a, f, s, S());
      }
    }

    /** One turn of allocuvm's loop, with its two ways out. */
    method AddPage(dir: int, oldsz: int, newsz: int, a: int, ghost s0: Mach) returns (ok: bool)
      requires Inv(S(), dir) && Users(S(), dir) && 0 <= oldsz < newsz < KERNBASE && PageUp(oldsz) <= a < PageUp(newsz)
      requires Pages(s0) && Users(s0, dir) && Grown(s0, S(), dir, PageUp(oldsz), a, 0)
      requires Spent(s0, S(), dir, PageUp(oldsz), a, a - PageUp(oldsz))
      requires forall u :: PageUp(oldsz) <= u < PageUp(newsz) ==> !Mapped(s0.mem, dir, u)
      modifies this
      ensures Inv(S(), dir) && Users(S(), dir)
      ensures if ok then Grown(s0, S(), dir, PageUp(oldsz), a + 1, 0) else RolledBack(s0, S(), dir, 0)
      ensures if ok then Spent(s0, S(), dir, PageUp(oldsz), a + 1, a + 1 - PageUp(oldsz))
              else |s0.fl| < Needed(s0.mem, dir, PageUp(oldsz), PageUp(newsz))
    {
      var f := TakeZeroed(dir, PageUp(oldsz), a, s0);
      if f == 0 {
        RanOut(s0, S(), dir, PageUp(oldsz), a, PageUp(newsz), 0);
        Undo(dir, newsz, oldsz, s0, a, 0);
        return false;
      }
      ok := MapTaken(dir, PageUp(oldsz), a, f, s0);
      if !ok {
        RanOut(s0, S(), dir, PageUp(oldsz), a, PageUp(newsz), 1);
        Undo(dir, newsz, oldsz, s0, a, f);
        ghost var s := S();
        FrameAddr(f);
        var _ := Kfree(f * PGSIZE);
        RollBackLast(s0, s, dir, f, S());
      }
    }

    /** allocuvm: pages PageUp(oldsz) to PageUp(newsz) are new, or nothing is. */
    method Allocuvm(dir: int, oldsz: int, newsz: int) returns (r: int)
      requires Inv(S(), dir) && Users(S(), dir) && 0 <= oldsz && 0 <= newsz
      requires oldsz <= newsz < KERNBASE ==> forall u :: PageUp(oldsz) <= u < PageUp(newsz) ==> !Mapped(mem, dir, u)
      modifies this
      ensures Inv(S(), dir) && Users(S(), dir)
      ensures newsz >= KERNBASE ==> r == 0 && unchanged(this)
      ensures newsz < oldsz && newsz < KERNBASE ==> r == oldsz && unchanged(this)
      ensures oldsz <= newsz < KERNBASE ==>
                if r == newsz && newsz > 0 then Grown(old(S()), S(), dir, PageUp(oldsz), PageUp(newsz), 0)
                else r == 0 && RolledBack(old(S()), S(), dir, 0)
      ensures oldsz <= newsz < KERNBASE && newsz > 0 ==>
                (r == newsz <==> |old(fl)| >= Needed(old(mem), dir, PageUp(oldsz), PageUp(newsz)))
      ensures oldsz <= newsz < KERNBASE && r == newsz > 0 ==>
                forall u :: oldsz <= u * 4096 < newsz ==> RawNew(mem, dir, u)
    {
      if newsz >= KERNBASE {
        return 0;
      }
      if newsz < oldsz {
        return oldsz;
      }
      var a := PageUp(oldsz);
      GrownNothing(S(), dir, a);
      assert Spent(S(), S(), dir, a, a, 0);
      while a * PGSIZE < newsz
        invariant PageUp(oldsz) <= a <= Max(PageUp(oldsz), PageUp(newsz))
        invariant Inv(S(), dir) && Users(S(), dir) && Grown(old(S()), S(), dir, PageUp(oldsz), a, 0)
        invariant Spent(old(S()), S(), dir, PageUp(oldsz), a, a - PageUp(oldsz))
      {
        var ok := AddPage(dir, oldsz, newsz, a, old(S()));
        if !ok {
          return 0;
        }
        a := a + 1;
      }
      GrownIsRaw(old(S()), S(), dir, PageUp(oldsz), a);
      PageUpIs(oldsz);
      return newsz;
    }

    /** freevm: every user page, every table and the directory go back to the free list. */
    method Freevm(dir: int)
      requires Inv(S(), dir) && Users(S(), dir)
      modifies this
      ensures Pages(S()) && FreeList(S()) && AllReturned(old(S()), S())
    {
      var _ := Deallocuvm(dir, KERNBASE, 0);
      FreevmStart(old(S()), S(), dir);
      var i := 0;
      while i < ENTRIES
        invariant 0 <= i <= ENTRIES
        invariant Pages(S()) && FreeList(S()) && Tables(S(), dir, i) && NoUsers(kind) && Returning(old(S()), S())
      {
        if Present(Word(mem, dir, i)) {
          ghost var s := S();
          assert HasTable(mem, dir, i);
          FrameAddr(FrameOf(Word(mem, dir, i)));
          var _ := Kfree(FrameOf(Word(mem, dir, i)) * PGSIZE);
          TableFreed(old(S()), s, dir, i, S());
        } else {
          NoTableAt(S(), dir, i);
        }
        i := i + 1;
      }
      ghost var s := S();
      FrameAddr(dir);
      var _ := Kfree(dir * PGSIZE);
      FreevmEnd(old(S()), s, dir, S());
    }
  }
}
