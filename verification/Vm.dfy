/**
  The page allocator and the virtual-memory routines, working on physical memory
  in place.  A frame is a number; a page holds 512 words; the free list is
  threaded through the first word of the free pages.

  Running out of memory is a panic inside kalloc, so it ends the kernel; the
  outcomes that stand for it say how many frames would have been needed.
 */
module Vm {
  import opened Paging
  import opened AddressSpace
  import opened FrameCount
  import opened Mmu

  datatype Walked = Found(frame: nat) | Missing | OutOfMemory
  datatype Mapped = Mapped | Remap | NoMemory
  datatype Sized = Size(sz: nat) | TooLarge | Exhausted
  datatype Grown = Ok | Failed | Panic

  class Machine {
    const lo: nat      // first frame past the kernel image
    const kpte: nat    // the root entry of the shared kernel half
    var mem: Mem
    var freelist: nat
    ghost var free: seq<nat>

    ghost predicate Valid()
      reads this
    {
      0 < lo && |mem| == NFRAMES && ListOk(mem, freelist, free, lo)
    }

    ghost predicate Owns(at: Space)
      reads this
    {
      Valid() && Holds(mem, at, free, lo, kpte)
    }

    // ----- kalloc.c

    method Kfree(f: nat)
      requires Valid() && lo <= f < NFRAMES && f !in free
      modifies `mem, `freelist, `free
      ensures Valid() && free == [f] + old(free)
      ensures mem == old(mem)[f := JunkPage(old(freelist))]
    {
      ListPush(mem, freelist, free, lo, f);
      mem := mem[f := JunkPage(freelist)];
      freelist := f;
      free := [f] + free;
    }

    // 0 is the "Out of memory!" panic.
    method Kalloc() returns (f: nat)
      requires Valid()
      modifies `freelist, `free
      ensures Valid()
      ensures f == 0 <==> old(free) == []
      ensures f != 0 ==> old(free) == [f] + free && lo <= f < NFRAMES && f !in free
      ensures f == 0 ==> free == old(free)
    {
      f := freelist;
      assert free != [] ==> lo <= free[0];
      if f != 0 {
        ListPop(mem, freelist, free, lo);
        freelist := mem[f][0];
        assert free == [f] + free[1..];
        free := free[1..];
      }
    }

    // Frees the pages that lie wholly inside [vstart, vend), the last one first on the
    // list, and no other.
    method FreeRange(vstart: nat, vend: nat)
      requires Valid() && lo * PGSIZE <= vstart && vend <= NFRAMES * PGSIZE
      requires forall i :: 0 <= i < |free| ==> !WholePage(free[i], vstart, vend)
      modifies `mem, `freelist, `free
      ensures Valid() && |free| >= |old(free)| && free[|free| - |old(free)|..] == old(free)
      ensures forall f: nat :: f in free[..|free| - |old(free)|] <==> WholePage(f, vstart, vend)
      ensures forall i, j :: 0 <= i < j < |free| - |old(free)| ==> free[i] > free[j]
    {
      hide *;
      PageSize();
      FirstPageIs(vstart, lo);
      var p := RoundUp(vstart);
      ghost var first, f := FirstPage(vstart), FirstPage(vstart);
      while p + PGSIZE <= vend
        invariant p == f * 4096 && lo <= first <= f && (first < f ==> p <= vend) && Valid()
        invariant |free| == |old(free)| + f - first && free[f - first..] == old(free)
        invariant forall i :: 0 <= i < f - first ==> free[i] == f - 1 - i
        invariant forall i :: 0 <= i < |free| ==> free[i] < f || !WholePage(free[i], vstart, vend)
      {
        PageInside(f, p, vstart, vend);
        Kfree(p / PGSIZE);
        p := p + PGSIZE;
        f := f + 1;
      }
      Descending(free[..f - first], first, f, vstart, vend);
    }

    // memset(page, 0, PGSIZE) on a page just allocated
    method Clear(f: nat)
      requires Valid() && f < NFRAMES && f !in free
      modifies `mem
      ensures Valid() && mem == old(mem)[f := Zeros()]
    {
      ListFrame(mem, mem[f := Zeros()], freelist, free, lo);
      mem := mem[f := Zeros()];
    }

    // ----- vm.c

    // One level of walkpgdir: follow the entry, or allocate a table for it.
    method WalkStep(ghost at: Space, ghost n: Node, table: nat, i: nat, alloc: bool)
      returns (r: Walked, ghost at': Space)
      requires Owns(at) && n in at && n.level >= 2 && table == at[n] && i < Fanout(n)
      modifies `mem, `freelist, `free
      ensures r.OutOfMemory? <==> alloc && Child(n, i) !in at && old(free) == []
      ensures r.Missing? <==> !alloc && Child(n, i) !in at
      ensures !r.Found? ==> at' == at && mem == old(mem) && free == old(free)
      ensures Owns(at') && Grew(old(mem), at, old(free), mem, at', free) && NewFrom(at, at', old(free))
      ensures !alloc || Child(n, i) in at ==> at' == at && mem == old(mem) && free == old(free)
      ensures r.Found? ==> Child(n, i) in at' && at'[Child(n, i)] == r.frame
      ensures r.Found? ==> Paid(at, at', {Child(n, i)}, |old(free)|, |free|)
    {
      hide *;
      NothingGrew(at);
      EntryAt(at, n, i);
      var pte := mem[table][i];
      if Present(pte) {
        PaidNothing(at, {Child(n, i)}, |free|);
        return Found(FrameOf(pte)), at;
      }
      if !alloc {
        return Missing, at;
      }
      var f;
      f, at' := NewTable(at, n, table, i);
      return if f == 0 then OutOfMemory else Found(f), at';
    }

    lemma EntryAt(at: Space, n: Node, i: nat)
      requires Owns(at) && n in at && n.level > 0 && i < Fanout(n)
      ensures at[n] < |mem| && i < |mem[at[n]]|
      ensures Present(mem[at[n]][i]) <==> Child(n, i) in at
      ensures Child(n, i) in at ==> FrameOf(mem[at[n]][i]) == at[Child(n, i)]
    {
      hide KernelHalf, ListOk;
      assert EntryOk(mem, at, n, i);
    }

    lemma NothingGrew(at: Space)
      ensures Grew(mem, at, free, mem, at, free) && NewFrom(at, at, free)
    {
      GrewSame(mem, at, free);
    }

    // A table for an empty entry; 0 if there is no frame.
    method NewTable(ghost at: Space, ghost n: Node, table: nat, i: nat) returns (f: nat, ghost at': Space)
      requires Owns(at) && n in at && n.level >= 2 && table == at[n] && i < Fanout(n) && Child(n, i) !in at
      modifies `mem, `freelist, `free
      ensures f == 0 <==> old(free) == []
      ensures f == 0 ==> at' == at && mem == old(mem) && free == old(free)
      ensures Owns(at') && Grew(old(mem), at, old(free), mem, at', free) && NewFrom(at, at', old(free))
      ensures f != 0 ==> Child(n, i) in at' && at'[Child(n, i)] == f
      ensures f != 0 ==> Paid(at, at', {Child(n, i)}, |old(free)|, |free|)
    {
      hide Paid, Grew, SpaceOk, KernelHalf;
      at' := at;
      NothingGrew(at);
      EntryAt(at, n, i);
      f := Kalloc();
      if f == 0 {
        return 0, at;
      }
      Clear(f);
      TableAddedOk(old(mem), at, old(free), n, i, f, free, lo, kpte);
      ListFrame(mem, SetWord(mem, table, i, MakePte(f, 7)), freelist, free, lo);
      mem := SetWord(mem, table, i, MakePte(f, 7));
      at' := at[Child(n, i) := f];
      PaidOne(at, at', Child(n, i), |old(free)|);
    }

    // walkpgdir: the page table that has (or will have) the entry for va.
    method Walk(ghost at: Space, root: nat, va: nat, alloc: bool) returns (r: Walked, ghost at': Space)
      requires Owns(at) && IsRoot(at, root) && va < USERTOP
      modifies `mem, `freelist, `free
      ensures r.OutOfMemory? <==> alloc && |old(free)| < Lacking(at, TablesOf(va / PGSIZE))
      ensures r.OutOfMemory? ==> free == []
      ensures r.Missing? <==> !alloc && Parent(Page0(va)) !in at
      ensures Owns(at') && Grew(old(mem), at, old(free), mem, at', free)
      ensures !alloc || Parent(Page0(va)) in at ==>
                !r.OutOfMemory? && at' == at && mem == old(mem) && free == old(free)
      ensures r.Found? ==> Parent(Page0(va)) in at' && at'[Parent(Page0(va))] == r.frame
      ensures r.Found? ==> Paid(at, at', TablesOf(va / PGSIZE), |old(free)|, |free|)
    {
      hide *;
      PageSize();
      WalkPath(va);
      AncestorsIn(at, root, va);
      ghost var n1 := Parent(Page0(va));
      ghost var n2 := Parent(n1);
      ghost var n3 := Parent(n2);
      ghost var nodes := TablesOf(va / PGSIZE);
      ghost var m0, f0 := mem, free;
      r, at' := WalkStep(at, Root, root, Pmx(va), alloc);
      if !r.Found? {
        if alloc {
          PaidNothing(at, {}, |f0|);
          TableFails(at, at, {}, n3, nodes, |f0|);
        }
        return r, at';
      }
      ghost var a1, m1, f1 := at', mem, free;
      r, at' := WalkStep(a1, n3, r.frame, Pdpx(va), alloc);
      if !r.Found? {
        if alloc {
          TableFails(at, a1, {n3}, n2, nodes, |f0|);
        }
        return r, at';
      }
      NewFromThen(m0, at, f0, m1, a1, f1, mem, at', free);
      PaidThen(at, a1, at', {n3}, {n2}, |f0|, |f1|, |free|);
      ghost var a2, m2, f2 := at', mem, free;
      r, at' := WalkStep(a2, n2, r.frame, Pdx(va), alloc);
      if r.Found? {
        NewFromThen(m0, at, f0, m2, a2, f2, mem, at', free);
        PaidThen(at, a2, at', {n3} + {n2}, {n1}, |f0|, |f2|, |free|);
        PaidIsEnough(at, at', nodes, |f0|, |free|);
      } else if alloc {
        TableFails(at, a2, {n3} + {n2}, n1, nodes, |f0|);
      }
    }

    lemma AncestorsIn(at: Space, root: nat, va: nat)
      requires Owns(at) && IsRoot(at, root)
      ensures var n1 := Parent(Page0(va));
              && Root in at && at[Root] == root
              && (n1 in at ==> Parent(n1) in at) && (Parent(n1) in at ==> Parent(Parent(n1)) in at)
    {
      hide TableOk, KernelHalf, ListOk;
    }

    // mappages for one page, which is all that any caller asks for.
    method MapPages(ghost at: Space, root: nat, va: nat, f: nat, perm: nat) returns (r: Mapped, ghost at': Space)
      requires Owns(at) && IsRoot(at, root) && va < USERTOP && perm < PGSIZE
      requires lo <= f < NFRAMES && f !in free && f !in Frames(at)
      modifies `mem, `freelist, `free
      ensures Valid()
      ensures r.Remap? <==> Page0(va) in at
      ensures r.NoMemory? <==> |old(free)| < Lacking(at, TablesOf(va / PGSIZE))
      ensures r.NoMemory? ==> free == []
      ensures r.Mapped? ==> Owns(at') && AddedPage(old(mem), at, old(free), mem, at', free, va / PGSIZE, f, perm)
      ensures r.Mapped? ==>
                && IsRoot(at', root) && at'.Keys == at.Keys + PathOf(va / PGSIZE)
                && |free| + Lacking(at, TablesOf(va / PGSIZE)) == |old(free)|
    {
      hide *;
      PageSize();
      EntryOfPage(at, va, va / PGSIZE);
      OwnsHolds(at);
      var w;
      w, at' := Walk(at, root, va, true);
      OwnsValid(at');
      if !w.Found? {
        return NoMemory, at';
      }
      EntryOfPage(at', va, va / PGSIZE);
      GrewPages(old(mem), at, old(free), mem, at', free, va / PGSIZE);
      var pte := mem[w.frame][Ptx(va)];
      if Present(pte) {
        return Remap, at';
      }
      ghost var at1 := at';
      at' := SetPte(old(mem), at, old(free), at', w.frame, va, f, perm);
      OwnsValid(at');
      KeysPath(at, at1, at', va / PGSIZE, |old(free)|, |free|);
      AddedRoot(old(mem), at, old(free), mem, at', free, va / PGSIZE, f, perm, root);
      return Mapped, at';
    }

    // Fills an empty entry of a page table that walkpgdir found or made.
    method SetPte(ghost m0: Mem, ghost at: Space, ghost f0: seq<nat>, ghost at1: Space, table: nat, va: nat, f: nat,
                  perm: nat)
      returns (ghost at': Space)
      requires Owns(at1) && Holds(m0, at, f0, lo, kpte) && Grew(m0, at, f0, mem, at1, free)
      requires va < USERTOP && perm < PGSIZE && lo <= f < NFRAMES && f !in f0 && f !in Frames(at)
      requires Parent(Page0(va)) in at1 && at1[Parent(Page0(va))] == table && Page0(va) !in at1
      modifies `mem
      ensures Owns(at') && AddedPage(m0, at, f0, mem, at', free, va / PGSIZE, f, perm)
      ensures at'.Keys == at1.Keys + {Page0(va)}
    {
      PageAdded(m0, at, f0, mem, at1, free, lo, kpte, va, f, perm);
      ListFrame(mem, SetWord(mem, table, Ptx(va), MakePte(f, perm)), freelist, free, lo);
      mem := SetWord(mem, table, Ptx(va), MakePte(f, perm));
      at' := at1[Page0(va) := f];
    }

    // Grows an address space from oldsz to newsz bytes with zeroed pages.  The
    // "remap" panic of mappages cannot fire.
    method AllocUvm(ghost at: Space, root: nat, oldsz: nat, newsz: nat) returns (r: Sized, ghost at': Space)
      requires Owns(at) && IsRoot(at, root) && SizeOk(at, oldsz)
      modifies `mem, `freelist, `free
      ensures r.TooLarge? <==> newsz >= KERNBASE
      ensures Valid()
      ensures r.Exhausted? <==>
                && oldsz < newsz < KERNBASE
                && |old(free)| < Lacking(at, Paths(RoundUp(oldsz) / PGSIZE, RoundUp(newsz) / PGSIZE))
      ensures r.Exhausted? ==> free == []
      ensures r.Size? && newsz >= oldsz ==>
                Paid(at, at', Paths(RoundUp(oldsz) / PGSIZE, RoundUp(newsz) / PGSIZE), |old(free)|, |free|)
      ensures r.TooLarge? || newsz < oldsz ==> at' == at && mem == old(mem) && free == old(free)
      ensures newsz < KERNBASE && newsz < oldsz ==> r == Size(oldsz)
      ensures r.Size? && newsz >= oldsz ==>
                && r.sz == newsz && Owns(at') && SizeOk(at', newsz)
                && Extends(old(mem), at, old(free), mem, at', free)
                && FreshPages(mem, at', RoundUp(oldsz) / PGSIZE, RoundUp(newsz) / PGSIZE)
      ensures r.Size? && newsz >= oldsz ==>
                forall va: nat :: va < USERTOP ==>
                  if RoundUp(oldsz) <= va < RoundUp(newsz) then SeesZeros(mem, root, va)
                  else SeesTheSame(old(mem), root, mem, va)
    {
      at' := at;
      if newsz >= KERNBASE {
        return TooLarge, at;
      }
      if newsz < oldsz {
        return Size(oldsz), at;
      }
      var ok;
      ok, at' := GrowPages(at, root, oldsz, newsz);
      if !ok {
        return Exhausted, at';
      }
      GrownSeen(old(mem), at, old(free), mem, at', free, root, oldsz, newsz);
      return Size(newsz), at';
    }

    // allocuvm's loop.
    method GrowPages(ghost at: Space, root: nat, oldsz: nat, newsz: nat) returns (ok: bool, ghost at': Space)
      requires Owns(at) && IsRoot(at, root) && SizeOk(at, oldsz) && oldsz <= newsz < KERNBASE
      modifies `mem, `freelist, `free
      ensures Valid()
      ensures !ok <==> |old(free)| < Lacking(at, Paths(RoundUp(oldsz) / PGSIZE, RoundUp(newsz) / PGSIZE))
      ensures !ok ==> newsz > oldsz && free == []
      ensures ok ==>
                && Owns(at') && SizeOk(at', newsz)
                && Paid(at, at', Paths(RoundUp(oldsz) / PGSIZE, RoundUp(newsz) / PGSIZE), |old(free)|, |free|)
                && Extends(old(mem), at, old(free), mem, at', free)
                && FreshPages(mem, at', RoundUp(oldsz) / PGSIZE, RoundUp(newsz) / PGSIZE)
    {
      hide *;
      PageSize();
      var a := RoundUp(oldsz);
      ghost var first, k := RoundUp(oldsz) / PGSIZE, RoundUp(oldsz) / PGSIZE;
      GrowStarts(at, root, oldsz, newsz);
      at' := at;
      while a < newsz
        invariant a == k * 4096 && 1 <= first <= k && k * 4096 < newsz + 4096 && (first < k ==> oldsz < newsz)
        invariant Owns(at') && IsRoot(at', root) && MapsExactly(at', 1, k)
        invariant Extends(old(mem), at, old(free), mem, at', free)
        invariant FreshPages(mem, at', first, k)
        invariant Paid(at, at', Paths(first, k), |old(free)|, |free|)
      {
        PagesFit(at', k);
        ghost var at1, n1 := at', |free|;
        ok, at' := GrowByPage(old(mem), at, old(free), at', root, a, first, k);
        if !ok {
          PageBelow(newsz, k);
          PathsFail(at, at1, first, k, RoundUp(newsz) / PGSIZE, |old(free)|, n1);
          return false, at';
        }
        PathsStep(at, at1, at', first, k, |old(free)|, n1, |free|);
        a := a + PGSIZE;
        k := k + 1;
      }
      RoundUpUnique(newsz, k);
      SizeFromPages(at', newsz, k);
      PaidIsEnough(at, at', Paths(first, k), |old(free)|, |free|);
      OwnsValid(at');
      return true, at';
    }

    lemma GrowStarts(at: Space, root: nat, oldsz: nat, newsz: nat)
      requires Owns(at) && SizeOk(at, oldsz) && oldsz <= newsz
      ensures var first := RoundUp(oldsz) / PGSIZE;
              && RoundUp(oldsz) == first * PGSIZE && first >= 1 && RoundUp(oldsz) < newsz + PGSIZE
              && oldsz <= RoundUp(oldsz)
              && MapsExactly(at, 1, first) && FreshPages(mem, at, first, first)
              && Extends(mem, at, free, mem, at, free) && Paid(at, at, Paths(first, first), |free|, |free|)
    {
      hide Extends, Holds, ListOk, Paid;
      RoundUpFacts(oldsz);
      ExtendsSame(mem, at, free, lo, kpte);
      PaidNothing(at, {}, |free|);
    }

    lemma OwnsValid(at: Space)
      requires Owns(at)
      ensures Valid()
    {
    }

    lemma OwnsHolds(at: Space)
      requires Owns(at)
      ensures Holds(mem, at, free, lo, kpte)
    {
    }

    lemma PagesFit(at: Space, hi: nat)
      requires Owns(at) && MapsExactly(at, 1, hi) && hi >= 1
      ensures hi <= NFRAMES + 1
    {
      MappedPagesBound(mem, at, 1, hi);
    }

    // One round of allocuvm's loop.
    method GrowByPage(ghost m0: Mem, ghost a0: Space, ghost f0: seq<nat>, ghost at: Space, root: nat, a: nat,
                      ghost first: nat, ghost k: nat)
      returns (ok: bool, ghost at': Space)
      requires Owns(at) && IsRoot(at, root) && a == k * PGSIZE && k <= NFRAMES + 1
      requires 1 <= first <= k && MapsExactly(at, 1, k) && FreshPages(mem, at, first, k)
      requires Extends(m0, a0, f0, mem, at, free)
      modifies `mem, `freelist, `free
      ensures Valid()
      ensures !ok <==> |old(free)| < Lacking(at, PathOf(k))
      ensures !ok ==> free == []
      ensures ok ==> Paid(at, at', PathOf(k), |old(free)|, |free|)
      ensures ok ==>
                && Owns(at') && IsRoot(at', root)
                && MapsExactly(at', 1, k + 1) && FreshPages(mem, at', first, k + 1)
                && Extends(m0, a0, f0, mem, at', free)
    {
      hide Extends, FreshPages, AddedPage, SpaceOk, KernelHalf, Lacking;
      NextUnmapped(at, k);
      PagePaid(at, k);
      var f := Kalloc();
      if f == 0 {
        return false, at;
      }
      ghost var f2 := free;
      FillHolds(old(mem), at, old(free), f, Zeros(), f2, lo, kpte);
      Clear(f);
      var r;
      r, at' := MapPages(at, root, a, f, 6);
      assert !r.Remap?;
      if !r.Mapped? {
        return false, at';
      }
      ExtendsStep(m0, a0, f0, old(mem), at, old(free), f, Zeros(), f2, mem, at', free, k, 6);
      FreshStep(old(mem), at, mem, at', f2, free, f, first, k);
      return true, at';
    }

    // Frees the pages between two sizes.
    method DeallocUvm(ghost at: Space, root: nat, oldsz: nat, newsz: nat) returns (sz: nat, ghost at': Space)
      requires Owns(at) && IsRoot(at, root) && oldsz <= USERTOP
      modifies `mem, `freelist, `free
      ensures Owns(at') && IsRoot(at', root)
      ensures newsz >= oldsz ==> sz == oldsz && at' == at && mem == old(mem) && free == old(free)
      ensures newsz < oldsz ==>
                && sz == newsz
                && Dropped(old(mem), at, old(free), mem, at', free, RoundUp(newsz) / PGSIZE, RoundUp(oldsz) / PGSIZE)
      ensures newsz < oldsz ==>
                forall va: nat :: va < USERTOP ==>
                  if RoundUp(newsz) <= va < RoundUp(oldsz) then Translate(mem, root, va) == Fault
                  else SeesTheSame(old(mem), root, mem, va)
    {
      if newsz >= oldsz {
        return oldsz, at;
      }
      RoundUpFacts(newsz);
      ghost var k;
      at', k := DropPages(at, root, RoundUp(newsz), oldsz, RoundUp(newsz) / PGSIZE);
      hide *;
      RoundUpUnique(oldsz, k);
      OwnsSpace(at');
      ShrunkSeen(old(mem), at, old(free), mem, at', free, root, newsz, oldsz);
      return newsz, at';
    }

    lemma OwnsSpace(at: Space)
      requires Owns(at)
      ensures SpaceOk(mem, at)
    {
    }

    // deallocuvm's loop, from page `first` up to the end of oldsz.
    method DropPages(ghost at: Space, root: nat, start: nat, oldsz: nat, ghost first: nat) returns (ghost at': Space,
            ghost k: nat)
      requires Owns(at) && IsRoot(at, root) && oldsz <= USERTOP && start == first * PGSIZE && start < oldsz + PGSIZE
      modifies `mem, `freelist, `free
      ensures Owns(at') && IsRoot(at', root) && oldsz <= k * PGSIZE < oldsz + PGSIZE
      ensures Dropped(old(mem), at, old(free), mem, at', free, first, k)
    {
      NothingDropped(at, first);
      hide *;
      at', k := at, first;
      var a := start;
      while a < oldsz
        invariant a == k * PGSIZE && first <= k && k * PGSIZE < oldsz + PGSIZE
        invariant Owns(at') && IsRoot(at', root)
        invariant Dropped(old(mem), at, old(free), mem, at', free, first, k)
      {
        at' := DropPage(old(mem), at, old(free), at', root, a, first, k);
        a := a + PGSIZE;
        k := k + 1;
      }
    }

    lemma NothingDropped(at: Space, k: nat)
      requires Owns(at)
      ensures Dropped(mem, at, free, mem, at, free, k, k)
    {
      DroppedNone(mem, at, free, k, lo, kpte);
    }

    // One round of deallocuvm's loop.
    method DropPage(ghost m0: Mem, ghost a0: Space, ghost f0: seq<nat>, ghost at: Space, root: nat, a: nat,
                    ghost first: nat, ghost k: nat)
      returns (ghost at': Space)
      requires Owns(at) && IsRoot(at, root) && a == k * PGSIZE && a < USERTOP && first <= k
      requires Dropped(m0, a0, f0, mem, at, free, first, k)
      modifies `mem, `freelist, `free
      ensures Owns(at') && IsRoot(at', root) && Dropped(m0, a0, f0, mem, at', free, first, k + 1)
    {
      hide *;
      var w;
      w, at' := Walk(at, root, a, false);
      PageNumber(a, k);
      EntryOfPage(at, a, k);
      if w.Found? && Present(mem[w.frame][Ptx(a)]) {
        var f := FrameOf(mem[w.frame][Ptx(a)]);
        FreeMapped(at, w.frame, Ptx(a), f, k);
        DroppedThen(m0, a0, f0, old(mem), at, old(free), mem, at - {Node(0, k)}, free, first, k);
        at' := at - {Node(0, k)};
        RootStays(at, root, k);
      } else {
        DropMissing(m0, a0, f0, mem, at, free, first, k);
      }
    }

    // What walkpgdir finds for page k, if there is a table for it.
    lemma EntryOfPage(at: Space, a: nat, k: nat)
      requires Owns(at) && a / PGSIZE == k && a < USERTOP
      ensures Page0(a) == Node(0, k) && Parent(Page0(a)) == Node(1, k / NENT) && Ptx(a) == k % NENT
      ensures Node(1, k / NENT) in at ==>
                && var t := at[Node(1, k / NENT)];
                   && t < |mem| && Ptx(a) < |mem[t]| && mem[t][Ptx(a)] == Pte(mem, at, k)
                   && (Present(mem[t][Ptx(a)]) <==> Node(0, k) in at)
                   && (Node(0, k) in at ==> FrameOf(mem[t][Ptx(a)]) == at[Node(0, k)])
      ensures Node(1, k / NENT) !in at ==> Node(0, k) !in at
      ensures Node(0, k) in at ==> at[Node(0, k)] < |mem| == NFRAMES && |mem[at[Node(0, k)]]| == NENT
    {
      hide TableOk, KernelHalf;
      PathNodes(a);
      PteRefines(mem, at, k);
    }

    // kfree of a mapped page, then *pte = 0.
    method FreeMapped(ghost at: Space, table: nat, i: nat, f: nat, ghost k: nat)
      requires Owns(at) && Node(0, k) in at && Node(1, k / NENT) in at
      requires table == at[Node(1, k / NENT)] && i == k % NENT && f == at[Node(0, k)]
      modifies `mem, `freelist, `free
      ensures Owns(at - {Node(0, k)}) && free == [f] + old(free)
      ensures Dropped(old(mem), at, old(free), mem, at - {Node(0, k)}, free, k, k + 1)
    {
      hide Dropped, SpaceOk, KernelHalf;
      DropStep(mem, at, free, k, JunkPage(freelist), lo, kpte);
      FramesInMemory(mem, at, Node(0, k));
      FramesInMemory(mem, at, Node(1, k / NENT));
      Kfree(f);
      ListFrame(mem, SetWord(mem, table, i, 0), freelist, free, lo);
      mem := SetWord(mem, table, i, 0);
    }

    // sbrk's worker.  After every call that returns, exactly the pages below the
    // recorded size are mapped, unless the caller shrank a process of more than
    // one page to exactly 0 bytes: then the pages are gone, the call fails and the
    // size stays.
    method GrowProc(ghost at: Space, root: nat, sz: nat, n: int) returns (r: Grown, sz': nat, ghost at': Space)
      requires Owns(at) && IsRoot(at, root) && SizeOk(at, sz) && -0x8000_0000_0000_0000 <= n < 0x8000_0000_0000_0000
      modifies `mem, `freelist, `free
      ensures Valid()
      ensures r.Panic? <==>
                && n > 0 && sz + n < KERNBASE
                && |old(free)| < Lacking(at, Paths(RoundUp(sz) / PGSIZE, RoundUp(sz + n) / PGSIZE))
      ensures r.Panic? ==> free == []
      ensures !r.Panic? ==> Owns(at') && IsRoot(at', root)
      ensures !r.Panic? ==> (r.Failed? <==> sz + n >= KERNBASE || sz + n == 0)
      ensures r.Ok? ==> sz' == if sz + n < 0 then sz else sz + n
      ensures r.Failed? ==> sz' == sz
      ensures !r.Panic? ==> (SizeOk(at', sz') <==> !(sz + n == 0 && sz > PGSIZE))
      ensures r.Ok? && n > 0 ==>
                && Extends(old(mem), at, old(free), mem, at', free)
                && FreshPages(mem, at', RoundUp(sz) / PGSIZE, RoundUp(sz') / PGSIZE)
      ensures n < 0 <= sz + n ==>
                Dropped(old(mem), at, old(free), mem, at', free, RoundUp(sz + n) / PGSIZE, RoundUp(sz) / PGSIZE)
      ensures n == 0 || sz + n < 0 || sz + n >= KERNBASE ==> at' == at && mem == old(mem) && free == old(free)
    {
      hide Extends, FreshPages, Dropped, Holds, ListOk, Paths, Lacking, Paid;
      SizeBound(at, sz);
      at', sz' := at, sz;
      if n > 0 {
        var s;
        s, at' := AllocUvm(at, root, sz, sz + n);
        if s.Exhausted? {
          return Panic, sz, at';
        }
        if s.TooLarge? {
          return Failed, sz, at';
        }
        sz' := s.sz;
      } else if n < 0 {
        var newsz := if sz + n >= 0 then sz + n else sz + n + 0x1_0000_0000_0000_0000;
        var s;
        s, at' := DeallocUvm(at, root, sz, newsz);
        if newsz < sz {
          DroppedSize(old(mem), at, old(free), mem, at', free, sz, newsz);
        }
        if s == 0 {
          return Failed, sz, at';
        }
        sz' := s;
      }
      return Ok, sz', at';
    }

    lemma SizeBound(at: Space, sz: nat)
      requires Owns(at) && SizeOk(at, sz)
      ensures 0 < sz < 0x1_0000_0000 && sz < USERTOP
    {
      RoundUpFacts(sz);
      PagesFit(at, RoundUp(sz) / PGSIZE);
    }

    // An empty address space with the kernel half; 0 means out of memory.
    method SetupKvm() returns (root: nat, ghost d: Space)
      requires Valid()
      modifies `mem, `freelist, `free
      ensures Valid()
      ensures root == 0 <==> old(free) == []
      ensures root == 0 ==> free == []
      ensures root != 0 ==>
                && d == map[Root := root] && Owns(d)
                && old(free) == [root] + free && lo <= root < NFRAMES
                && |mem| == |old(mem)| && forall f :: 0 <= f < NFRAMES && f != root ==> mem[f] == old(mem)[f]
    {
      root := Kalloc();
      d := map[Root := root];
      if root != 0 {
        Clear(root);
        ListFrame(mem, SetWord(mem, root, 256, kpte), freelist, free, lo);
        mem := SetWord(mem, root, 256, kpte);
      }
    }

    // fork's copy.  Neither of its panics about the parent's entries can fire.
    method CopyUvm(ghost at: Space, root: nat, sz: nat) returns (droot: nat, ghost d: Space)
      requires Owns(at) && IsRoot(at, root) && SizeOk(at, sz)
      modifies `mem, `freelist, `free
      ensures Valid()
      ensures droot == 0 <==> |old(free)| < 1 + |Paths(1, RoundUp(sz) / PGSIZE)|
      ensures droot == 0 ==> free == []
      ensures droot != 0 ==> |free| + 1 + |Paths(1, RoundUp(sz) / PGSIZE)| == |old(free)|
      ensures droot != 0 ==>
                && Owns(at) && Owns(d) && IsRoot(d, droot) && SizeOk(d, sz)
                && Apart(old(mem), at, mem, d)
                && CopiedPages(old(mem), at, mem, d, RoundUp(sz) / PGSIZE)
                && Elems(free) + Frames(d) == Elems(old(free))
                && (forall f :: 0 <= f < NFRAMES && f !in old(free) ==> mem[f] == old(mem)[f])
                && forall va: nat :: va < USERTOP ==> SeesACopy(old(mem), root, mem, droot, va)
    {
      hide ListOk, Holds, SizeOk, Apart, CopiedPages, MapsExactly, Extends, Elems, Paths, Lacking, Paid, Frames;
      SizeBound(at, sz);
      var size := sz % 0x1_0000_0000;  // the parameter is a 32-bit unsigned int
      droot, d := SetupKvm();
      if droot == 0 {
        return 0, d;
      }
      ghost var m1, d1, f1 := mem, d, free;
      CopyStart(old(mem), at, old(free), mem, d, free, droot, lo, kpte);
      RootAlone(d, droot, RoundUp(sz) / PGSIZE);
      var ok;
      ghost var k;
      ok, d, k := CopyPages(old(mem), at, root, sz, size, d, droot);
      if !ok {
        return 0, d;
      }
      PaidCount(d1, d, Paths(1, RoundUp(sz) / PGSIZE), |f1|, |free|);
      CopyEnd(old(mem), at, old(free), m1, d1, f1, mem, d, free, droot, sz, k);
      OwnsSpace(d);
      CopiedSeen(old(mem), at, root, mem, d, droot, sz);
    }

    // copyuvm's loop.
    method CopyPages(ghost m0: Mem, ghost at: Space, root: nat, ghost sz: nat, size: nat, ghost d0: Space, droot: nat)
      returns (ok: bool, ghost d: Space, ghost k: nat)
      requires Owns(at) && IsRoot(at, root) && SizeOk(at, sz) && size == sz > 0 && SpaceOk(m0, at)
      requires Owns(d0) && IsRoot(d0, droot) && Apart(m0, at, mem, d0)
      requires CopiedPages(m0, at, mem, d0, 1) && MapsExactly(d0, 1, 1) && Extends(mem, d0, free, mem, d0, free)
      modifies `mem, `freelist, `free
      ensures Valid()
      ensures !ok <==> |old(free)| < Lacking(d0, Paths(1, RoundUp(sz) / PGSIZE))
      ensures !ok ==> free == []
      ensures ok ==> Paid(d0, d, Paths(1, RoundUp(sz) / PGSIZE), |old(free)|, |free|)
      ensures ok ==>
                && Owns(at) && Owns(d) && IsRoot(d, droot) && Apart(m0, at, mem, d)
                && 1 <= k && size <= k * PGSIZE && (k - 1) * PGSIZE < size
                && CopiedPages(m0, at, mem, d, k) && MapsExactly(d, 1, k)
                && Extends(old(mem), d0, old(free), mem, d, free)
    {
      hide *;
      SizeBound(at, sz);
      PageSize();
      NothingPaid(d0, 1, |free|);
      d, k := d0, 1;
      var i := PGSIZE;
      while i < size
        invariant i == k * PGSIZE && 1 <= k && (k - 1) * PGSIZE < size
        invariant Owns(at) && Owns(d) && IsRoot(d, droot) && Apart(m0, at, mem, d)
        invariant CopiedPages(m0, at, mem, d, k) && MapsExactly(d, 1, k)
        invariant Extends(old(mem), d0, old(free), mem, d, free)
        invariant Paid(d0, d, Paths(1, k), |old(free)|, |free|)
      {
        PageBelowSize(at, sz, k);
        ghost var d1, n1 := d, |free|;
        ok, d := CopyPage(m0, at, root, old(mem), d0, old(free), d, droot, i, k);
        if !ok {
          PageBelow(sz, k);
          PathsFail(d0, d1, 1, k, RoundUp(sz) / PGSIZE, |old(free)|, n1);
          return false, d, k;
        }
        PathsStep(d0, d1, d, 1, k, |old(free)|, n1, |free|);
        i := i + PGSIZE;
        k := k + 1;
      }
      RoundUpUnique(sz, k);
      PaidIsEnough(d0, d, Paths(1, k), |old(free)|, |free|);
      OwnsValid(d);
      ok := true;
    }

    // One round of copyuvm's loop.
    method CopyPage(ghost m0: Mem, ghost at: Space, root: nat, ghost m1: Mem, ghost d1: Space, ghost f1: seq<nat>,
                    ghost d: Space, droot: nat, i: nat, ghost k: nat) returns (ok: bool, ghost d': Space)
      requires Owns(at) && IsRoot(at, root) && Owns(d) && IsRoot(d, droot) && Apart(m0, at, mem, d) && SpaceOk(m0, at)
      requires i == k * PGSIZE && i < USERTOP && 1 <= k && Node(0, k) in at
      requires CopiedPages(m0, at, mem, d, k) && MapsExactly(d, 1, k) && Extends(m1, d1, f1, mem, d, free)
      modifies `mem, `freelist, `free
      ensures Valid()
      ensures !ok <==> |old(free)| < Lacking(d, PathOf(k))
      ensures !ok ==> free == []
      ensures ok ==> Paid(d, d', PathOf(k), |old(free)|, |free|)
      ensures ok ==>
                && Owns(at) && Owns(d') && IsRoot(d', droot) && Apart(m0, at, mem, d')
                && CopiedPages(m0, at, mem, d', k + 1) && MapsExactly(d', 1, k + 1)
                && Extends(m1, d1, f1, mem, d', free)
    {
      hide Extends, CopiedPages, AddedPage, SpaceOk, KernelHalf, ListOk, MapsExactly, Apart, Pte, Lacking;
      NextUnmapped(d, k);
      PagePaid(d, k);
      var pte := PresentEntry(at, root, i, k);
      var pa := FrameOf(pte);
      ApartPte(m0, at, mem, d, k);
      var f := Kalloc();
      if f == 0 {
        return false, d;
      }
      ghost var f2 := free;
      FillHolds(old(mem), d, old(free), f, mem[pa], f2, lo, kpte);
      Fill(f, mem[pa]);
      var r;
      r, d' := MapPages(d, droot, i, f, Flags(pte));
      assert !r.Remap?;
      if !r.Mapped? {
        return false, d';
      }
      ExtendsStep(m1, d1, f1, old(mem), d, old(free), f, old(mem)[pa], f2, mem, d', free, k, Flags(pte));
      ApartStep(m0, at, old(mem), d, old(free), f, old(mem)[pa], f2, mem, d', free, k, Flags(pte));
      CopyStep(m0, at, old(mem), d, mem, d', f2, free, f, k);
      ApartHolds(m0, at, old(mem), d, mem, d', free, lo, kpte);
      return true, d';
    }

    // walkpgdir on a mapped page of the parent: copyuvm's two checks succeed.
    method PresentEntry(ghost at: Space, root: nat, i: nat, ghost k: nat) returns (pte: nat)
      requires Owns(at) && IsRoot(at, root) && i == k * PGSIZE && i < USERTOP && Node(0, k) in at
      modifies `mem, `freelist, `free
      ensures mem == old(mem) && free == old(free) && Owns(at)
      ensures pte == Pte(mem, at, k) && Present(pte) && FrameOf(pte) == at[Node(0, k)] < NFRAMES
              && |mem[FrameOf(pte)]| == NENT
    {
      hide *;
      PageNumber(i, k);
      EntryOfPage(at, i, k);
      var w;
      ghost var same;
      w, same := Walk(at, root, i, false);
      pte := mem[w.frame][Ptx(i)];
    }

    // memmove into a page just allocated
    method Fill(f: nat, p: Page)
      requires Valid() && f < NFRAMES && f !in free && |p| == NENT
      modifies `mem
      ensures Valid() && mem == old(mem)[f := p]
    {
      ListFrame(mem, mem[f := p], freelist, free, lo);
      mem := mem[f := p];
    }

    // copyuvm and freevm of the copy, one after the other.
    method CopyThenFree(ghost at: Space, root: nat, sz: nat) returns (droot: nat)
      requires Owns(at) && IsRoot(at, root) && SizeOk(at, sz)
      modifies `mem, `freelist, `free
      ensures Valid()
      ensures droot == 0 <==> |old(free)| < 1 + |Paths(1, RoundUp(sz) / PGSIZE)|
      ensures droot == 0 ==> free == []
      ensures droot != 0 ==>
                && Owns(at) && Elems(free) == Elems(old(free))
                && forall n :: n in at ==> mem[at[n]] == old(mem)[at[n]]
    {
      ghost var d;
      droot, d := CopyUvm(at, root, sz);
      if droot != 0 {
        ghost var m1, f1 := mem, free;
        FreeVm(d, droot);
        FreedApart(old(mem), at, m1, d, f1, mem, free, lo, kpte);
      }
    }

    // Returns every frame of an address space, and only those, to the free list.
    method FreeVm(ghost at: Space, root: nat)
      requires Owns(at) && IsRoot(at, root)
      modifies `mem, `freelist, `free
      ensures Valid() && Freed(Frames(at), old(mem), old(free), mem, free)
    {
      FreeTable(mem, at, Root, root, 4);
      AllFramesUnderRoot(old(mem), at);
    }

    // One of freevm's nested loops, on the table (or, at level 0, page) of a node.
    // `m0` is memory before freevm: the tables below n have not been overwritten.
    method FreeTable(ghost m0: Mem, ghost at: Space, ghost n: Node, frame: nat, level: nat)
      requires Valid() && SpaceOk(m0, at) && n in at && at[n] == frame && n.level == level
      requires Intact(m0, at, n, mem, free, lo)
      modifies `mem, `freelist, `free
      ensures Valid() && Freed(FramesUnder(at, n), old(mem), old(free), mem, free)
      decreases level
    {
      hide *;
      FreedNone(at, n, mem, free);
      FanoutIs(n);
      var i, bound := 0, if level == 4 then NENT / 2 else NENT;
      if level > 0 {
        while i < bound
          invariant 0 <= i <= bound && Valid()
          invariant Freed(FramesBelow(at, n, i), old(mem), old(free), mem, free)
        {
          FreeEntry(m0, at, n, frame, level, i, old(mem), old(free));
          i := i + 1;
        }
      }
      FreeSelf(m0, at, n, frame, old(mem), old(free));
    }

    // One entry of a table: the subtree it leads to, if any.
    method FreeEntry(ghost m0: Mem, ghost at: Space, ghost n: Node, frame: nat, level: nat, i: nat, ghost m1: Mem,
                     ghost f1: seq<nat>)
      requires Valid() && SpaceOk(m0, at) && n in at && at[n] == frame && n.level == level > 0 && i < Fanout(n)
      requires Intact(m0, at, n, m1, f1, lo) && Freed(FramesBelow(at, n, i), m1, f1, mem, free)
      modifies `mem, `freelist, `free
      ensures Valid() && Freed(FramesBelow(at, n, i + 1), m1, f1, mem, free)
      decreases level, 0
    {
      hide FramesUnder, FramesBelow, Elems, ListOk;
      EntryUntouched(m0, at, n, i, m1, f1, mem, free, lo);
      BelowStep(m0, at, n, i);
      if Present(mem[frame][i]) {
        FreeTable(m0, at, Child(n, i), FrameOf(mem[frame][i]), level - 1);
      } else {
        NothingUnder(m0, at, Child(n, i));
      }
    }

    // kfree of the table itself, last.
    method FreeSelf(ghost m0: Mem, ghost at: Space, ghost n: Node, frame: nat, ghost m1: Mem, ghost f1: seq<nat>)
      requires Valid() && SpaceOk(m0, at) && n in at && at[n] == frame
      requires Intact(m0, at, n, m1, f1, lo) && Freed(FramesBelow(at, n, Fanout(n)), m1, f1, mem, free)
      modifies `mem, `freelist, `free
      ensures Valid() && Freed(FramesUnder(at, n), m1, f1, mem, free)
    {
      hide FramesUnder, FramesBelow;
      SelfUnder(n);
      BelowAll(m0, at, n);
      assert frame !in Elems(f1);
      assert frame !in Elems(free);
      Kfree(frame);
      assert Elems(free) == Elems(old(free)) + {frame};
    }
  }

  // The same for all addresses.
  lemma GrownSeen(m0: Mem, at: Space, f0: seq<nat>, mem: Mem, at': Space, free: seq<nat>, root: nat, sz: nat, sz': nat)
    requires SpaceOk(m0, at) && SpaceOk(mem, at') && Extends(m0, at, f0, mem, at', free) && IsRoot(at, root)
    requires SizeOk(at, sz) && SizeOk(at', sz') && FreshPages(mem, at', RoundUp(sz) / PGSIZE, RoundUp(sz') / PGSIZE)
    ensures forall va: nat :: va < USERTOP ==>
              if RoundUp(sz) <= va < RoundUp(sz') then SeesZeros(mem, root, va) else SeesTheSame(m0, root, mem, va)
  {
    hide SpaceOk, SizeOk, FreshPages, SeesZeros, SeesTheSame, RoundUp;
    RoundUpFacts(sz);
    RoundUpFacts(sz');
    forall va: nat | va < USERTOP
      ensures if RoundUp(sz) <= va < RoundUp(sz') then SeesZeros(mem, root, va) else SeesTheSame(m0, root, mem, va)
    {
      if RoundUp(sz) <= va < RoundUp(sz') {
        FreshSeen(mem, at', RoundUp(sz) / PGSIZE, RoundUp(sz') / PGSIZE, va);
      } else {
        ExtendedSeen(m0, at, f0, mem, at', free, sz, sz', va);
      }
    }
  }

  lemma ShrunkSeen(m0: Mem, at: Space, f0: seq<nat>, mem: Mem, at': Space, free: seq<nat>, root: nat, sz: nat, sz0: nat)
    requires SpaceOk(m0, at) && SpaceOk(mem, at') && IsRoot(at, root) && IsRoot(at', root)
    requires Dropped(m0, at, f0, mem, at', free, RoundUp(sz) / PGSIZE, RoundUp(sz0) / PGSIZE)
    ensures forall va: nat :: va < USERTOP ==>
              if RoundUp(sz) <= va < RoundUp(sz0) then Translate(mem, root, va) == Fault
              else SeesTheSame(m0, root, mem, va)
  {
    hide SpaceOk, Dropped, SeesTheSame, RoundUp, Translate;
    RoundUpFacts(sz);
    RoundUpFacts(sz0);
    forall va: nat | va < USERTOP
      ensures if RoundUp(sz) <= va < RoundUp(sz0) then Translate(mem, root, va) == Fault
              else SeesTheSame(m0, root, mem, va)
    {
      DroppedSeen(m0, at, f0, mem, at', free, RoundUp(sz) / PGSIZE, RoundUp(sz0) / PGSIZE, va);
    }
  }

  lemma CopiedSeen(m0: Mem, at: Space, root: nat, mem: Mem, d: Space, droot: nat, sz: nat)
    requires SpaceOk(m0, at) && SpaceOk(mem, d) && Apart(m0, at, mem, d) && IsRoot(at, root) && IsRoot(d, droot)
    requires SizeOk(at, sz) && SizeOk(d, sz) && CopiedPages(m0, at, mem, d, RoundUp(sz) / PGSIZE)
    ensures forall va: nat :: va < USERTOP ==> SeesACopy(m0, root, mem, droot, va)
  {
    hide SpaceOk, SizeOk, Apart, CopiedPages, SeesACopy;
    forall va: nat | va < USERTOP
      ensures SeesACopy(m0, root, mem, droot, va)
    {
      CopySeen(m0, at, mem, d, sz, va);
    }
  }

  ghost predicate WholePage(f: nat, vstart: nat, vend: nat) {
    vstart <= f * PGSIZE && (f + 1) * PGSIZE <= vend
  }

  lemma RoundUpPage(a: nat)
    ensures RoundUp(a) == RoundUp(a) / PGSIZE * PGSIZE && a <= RoundUp(a) < a + PGSIZE
  {
  }

  ghost function FirstPage(a: nat): nat { RoundUp(a) / PGSIZE }

  lemma FirstPageIs(a: nat, lo: nat)
    ensures RoundUp(a) == FirstPage(a) * PGSIZE && (lo * PGSIZE <= a ==> lo <= FirstPage(a))
  {
    RoundUpPage(a);
  }

  lemma PageNumber(a: nat, k: nat)
    requires a == k * PGSIZE
    ensures a / PGSIZE == k
  {
  }

  lemma GrewPages(m0: Mem, a0: Space, f0: seq<nat>, m1: Mem, a1: Space, f1: seq<nat>, k: nat)
    requires Grew(m0, a0, f0, m1, a1, f1)
    ensures Node(0, k) in a1 <==> Node(0, k) in a0
  {
  }

  lemma AddedRoot(mem: Mem, at: Space, free: seq<nat>, mem': Mem, at': Space, free': seq<nat>, vpn: nat, f: nat,
                  perm: nat, root: nat)
    requires perm < PGSIZE && AddedPage(mem, at, free, mem', at', free', vpn, f, perm) && IsRoot(at, root)
    ensures IsRoot(at', root)
  {
  }

  // Every node of a1 was in a0 or lies on a frame that was free.
  ghost predicate NewFrom(a0: Space, a1: Space, f0: seq<nat>) {
    forall n :: n in a1 ==> n in a0 || a1[n] in f0
  }

  lemma NewFromThen(m0: Mem, a0: Space, f0: seq<nat>, m1: Mem, a1: Space, f1: seq<nat>, m2: Mem, a2: Space,
                    f2: seq<nat>)
    requires Grew(m0, a0, f0, m1, a1, f1) && Grew(m1, a1, f1, m2, a2, f2) && NewFrom(a0, a1, f0) && NewFrom(a1, a2, f1)
    ensures Grew(m0, a0, f0, m2, a2, f2) && NewFrom(a0, a2, f0)
  {
    GrewTransitive(m0, a0, f0, m1, a1, f1, m2, a2, f2);
  }

  // The nodes that walkpgdir passes.
  lemma WalkPath(va: nat)
    requires va < USERTOP
    ensures var n1 := Parent(Page0(va));
            var n2 := Parent(n1);
            var n3 := Parent(n2);
            && Root.level >= 2 && n3.level >= 2 && n2.level >= 2
            && Pmx(va) < Fanout(Root) && Pdpx(va) < Fanout(n3) && Pdx(va) < Fanout(n2)
            && Child(Root, Pmx(va)) == n3 && Child(n3, Pdpx(va)) == n2 && Child(n2, Pdx(va)) == n1
            && {n3} + {n2} + {n1} == TablesOf(va / PGSIZE)
  {
    PathNodes(va);
  }

  lemma PageSize()
    ensures PGSIZE == 4096
  {
  }

  lemma PageInside(f: nat, p: nat, vstart: nat, vend: nat)
    requires FirstPage(vstart) <= f && p == f * PGSIZE && p + PGSIZE <= vend
    ensures WholePage(f, vstart, vend) && p / PGSIZE == f && (vend <= NFRAMES * PGSIZE ==> f < NFRAMES)
  {
    RoundUpPage(vstart);
  }

  lemma Descending(s: seq<nat>, first: nat, end: nat, vstart: nat, vend: nat)
    requires first <= end && |s| == end - first && forall i :: 0 <= i < |s| ==> s[i] == end - 1 - i
    requires first == FirstPage(vstart) && vend < end * PGSIZE + PGSIZE && (first < end ==> end * PGSIZE <= vend)
    ensures forall f: nat :: f in s <==> WholePage(f, vstart, vend)
  {
    RoundUpPage(vstart);
    forall f: nat
      ensures f in s <==> WholePage(f, vstart, vend)
    {
      if first <= f < end {
        assert s[end - 1 - f] == f;
      }
    }
  }

  lemma RootStays(at: Space, root: nat, k: nat)
    requires IsRoot(at, root)
    ensures IsRoot(at - {Node(0, k)}, root)
  {
  }

  lemma FramesInMemory(mem: Mem, at: Space, n: Node)
    requires SpaceOk(mem, at) && n in at
    ensures at[n] < |mem| && |mem[at[n]]| == NENT
  {
  }

  lemma FanoutIs(n: Node)
    ensures Fanout(n) == if n.level == 4 then NENT / 2 else NENT
  {
  }

  // A page that starts below a size is one of its pages.
  lemma PageBelow(sz: nat, k: nat)
    requires k * PGSIZE < sz
    ensures k < RoundUp(sz) / PGSIZE
  {
    RoundUpFacts(sz);
  }

  lemma NextUnmapped(at: Space, k: nat)
    requires MapsExactly(at, 1, k) && k >= 1
    ensures Node(0, k) !in at
  {
  }
}
