/**
  What the virtual-memory routines do to physical memory, as relations between
  the memory, the address space and the free list before and after.
 */
module AddressSpace {
  import opened Paging

  const NFRAMES: nat := 57344             // PHYSTOP / PGSIZE
  const KERNBASE: nat := 0xFFFF_8000_0000_0000
  const JUNK: nat := 0x0101_0101_0101_0101

  function Zeros(): (p: Page)
    ensures ZeroPage(p)
  {
    seq(NENT, _ => 0)
  }

  function JunkPage(next: nat): (p: Page)
    ensures |p| == NENT && p[0] == next
  {
    [next] + seq(NENT - 1, _ => JUNK)
  }

  ghost function Elems(s: seq<nat>): set<nat> {
    set f | f in s
  }

  ghost function Next(free: seq<nat>, i: nat): nat {
    if i + 1 < |free| then free[i + 1] else 0
  }

  ghost predicate ListOk(mem: Mem, head: nat, free: seq<nat>, lo: nat) {
    && (forall f :: 0 <= f < |mem| ==> |mem[f]| == NENT)
    && head == (if free == [] then 0 else free[0])
    && (forall i :: 0 <= i < |free| ==> lo <= free[i] < |mem|)
    && (forall i, j :: 0 <= i < j < |free| ==> free[i] != free[j])
    && (forall i {:trigger Next(free, i)} :: 0 <= i < |free| ==> mem[free[i]][0] == Next(free, i))
  }

  lemma ListPush(mem: Mem, head: nat, free: seq<nat>, lo: nat, f: nat)
    requires ListOk(mem, head, free, lo) && lo <= f < |mem| && f !in free
    ensures ListOk(mem[f := JunkPage(head)], f, [f] + free, lo)
  {
    var mem', free' := mem[f := JunkPage(head)], [f] + free;
    forall i | 0 <= i < |free'|
      ensures mem'[free'[i]][0] == Next(free', i)
    {
      if i > 0 {
        assert free'[i] == free[i - 1] && Next(free', i) == Next(free, i - 1);
      }
    }
  }

  lemma ListPop(mem: Mem, head: nat, free: seq<nat>, lo: nat)
    requires ListOk(mem, head, free, lo) && free != []
    ensures lo <= head < |mem| && head == free[0] && head !in free[1..] && ListOk(mem, mem[head][0], free[1..], lo)
  {
    var free' := free[1..];
    assert mem[free[0]][0] == Next(free, 0);
    forall i | 0 <= i < |free'|
      ensures mem[free'[i]][0] == Next(free', i)
    {
      assert free'[i] == free[i + 1] && Next(free', i) == Next(free, i + 1);
    }
  }

  // The list does not depend on pages outside it.
  lemma ListFrame(mem: Mem, mem': Mem, head: nat, free: seq<nat>, lo: nat)
    requires ListOk(mem, head, free, lo) && |mem'| == |mem|
    requires forall f :: 0 <= f < |mem| ==> |mem'[f]| == NENT
    requires forall f :: 0 <= f < |mem| && f in free ==> mem'[f] == mem[f]
    ensures ListOk(mem', head, free, lo)
  {
  }

  ghost predicate IsRoot(at: Space, root: nat) {
    Root in at && at[Root] == root
  }

  // `at` is an address space in memory, on frames that are not free.
  ghost predicate Holds(mem: Mem, at: Space, free: seq<nat>, lo: nat, kpte: nat) {
    && SpaceOk(mem, at) && KernelHalf(mem, at, kpte)
    && forall n :: n in at ==> lo <= at[n] && at[n] !in free
  }

  // What allocating table pages may do to memory: nothing that an existing page
  // or page table can see, and every frame taken from the free list became a table.
  ghost predicate Grew(mem: Mem, at: Space, free: seq<nat>, mem': Mem, at': Space, free': seq<nat>) {
    && |mem'| == |mem|
    && (forall n :: n in at ==> n in at' && at'[n] == at[n])
    && (forall n :: n in at' && n !in at ==> n.level > 0)
    && (forall n :: n in at && n.level <= 1 && at[n] < |mem| ==> mem'[at[n]] == mem[at[n]])
    && (forall f :: 0 <= f < |mem| && f !in free && f !in Frames(at) ==> mem'[f] == mem[f])
    && Elems(free') + Frames(at') == Elems(free) + Frames(at)
    && (forall f :: f in free' ==> f in free)
  }

  lemma GrewSame(mem: Mem, at: Space, free: seq<nat>)
    ensures Grew(mem, at, free, mem, at, free)
  {
  }

  lemma GrewTransitive(m0: Mem, a0: Space, f0: seq<nat>, m1: Mem, a1: Space, f1: seq<nat>, m2: Mem, a2: Space,
                       f2: seq<nat>)
    requires Grew(m0, a0, f0, m1, a1, f1) && Grew(m1, a1, f1, m2, a2, f2)
    requires forall n :: n in a1 ==> n in a0 || a1[n] in f0
    ensures Grew(m0, a0, f0, m2, a2, f2)
  {
    forall f | 0 <= f < |m0| && f !in f0 && f !in Frames(a0)
      ensures m2[f] == m0[f]
    {
      assert f !in Elems(f1) + Frames(a1) by {
        assert f !in Elems(f0) + Frames(a0);
      }
      assert f !in f1;
    }
  }

  // A page that moved from one memory to another with its frame, entry and contents.
  ghost predicate SamePage(mem: Mem, at: Space, mem': Mem, at': Space, vpn: nat) {
    var n := Node(0, vpn);
    && n in at && n in at' && at'[n] == at[n]
    && Pte(mem', at', vpn) == Pte(mem, at, vpn)
    && at[n] < |mem| == |mem'| && mem'[at[n]] == mem[at[n]]
  }

  // No page of `at` was touched, no frame outside it either, and no frame was
  // lost: each is still free or owned.
  ghost predicate Extends(mem: Mem, at: Space, free: seq<nat>, mem': Mem, at': Space, free': seq<nat>) {
    && |mem'| == |mem|
    && Root in at && IsRoot(at', at[Root])
    && (forall vpn: nat :: Node(0, vpn) in at ==> SamePage(mem, at, mem', at', vpn))
    && Elems(free') + Frames(at') == Elems(free) + Frames(at)
    && (forall f :: 0 <= f < |mem| && f !in free && f !in Frames(at) ==> mem'[f] == mem[f])
    && (forall f :: f in free' ==> f in free)
  }

  // One page was added.
  ghost predicate AddedPage(mem: Mem, at: Space, free: seq<nat>, mem': Mem, at': Space, free': seq<nat>,
                            vpn: nat, f: nat, perm: nat)
    requires perm < PGSIZE
  {
    && |mem'| == |mem|
    && Root in at && IsRoot(at', at[Root])
    && Node(0, vpn) !in at && Node(0, vpn) in at' && at'[Node(0, vpn)] == f
    && Pte(mem', at', vpn) == MakePte(f, perm)
    && f < |mem| && mem'[f] == mem[f]
    && (forall v: nat :: Node(0, v) in at' <==> Node(0, v) in at || v == vpn)
    && (forall v: nat :: Node(0, v) in at ==> SamePage(mem, at, mem', at', v))
    && Elems(free') + Frames(at') == Elems(free) + Frames(at) + {f}
    && (forall g :: 0 <= g < |mem| && g !in free && g !in Frames(at) ==> mem'[g] == mem[g])
    && (forall g :: g in free' ==> g in free)
  }

  lemma PageAdded(mem: Mem, at: Space, free: seq<nat>, mem1: Mem, at1: Space, free1: seq<nat>,
                  lo: nat, kpte: nat, va: nat, f: nat, perm: nat)
    requires Holds(mem, at, free, lo, kpte) && Holds(mem1, at1, free1, lo, kpte)
    requires Grew(mem, at, free, mem1, at1, free1)
    requires va < USERTOP && lo <= f < |mem| && f !in free && f !in Frames(at) && |mem1[f]| == NENT && perm < PGSIZE
    requires Parent(Page0(va)) in at1 && Page0(va) !in at1
    ensures var mem2 := SetWord(mem1, at1[Parent(Page0(va))], Ptx(va), MakePte(f, perm));
            var at2 := at1[Page0(va) := f];
            Holds(mem2, at2, free1, lo, kpte) && AddedPage(mem, at, free, mem2, at2, free1, va / PGSIZE, f, perm)
  {
    hide AddedPage, Grew;
    PageFrameFresh(mem, at, free, mem1, at1, free1, f);
    var pte := MakePte(f, perm);
    var n := Parent(Page0(va));
    PathNodes(va);
    AddChildOk(mem1, at1, n, Ptx(va), f, pte);
    PageAddedOnly(mem, at, free, mem1, at1, free1, va, f, perm);
  }

  lemma PageFrameFresh(mem: Mem, at: Space, free: seq<nat>, mem1: Mem, at1: Space, free1: seq<nat>, f: nat)
    requires Grew(mem, at, free, mem1, at1, free1) && f !in free && f !in Frames(at)
    ensures |mem1| == |mem| && f !in free1 && f !in Frames(at1)
  {
    assert f !in Elems(free) + Frames(at);
    assert f !in Elems(free1) + Frames(at1);
  }

  lemma PageAddedOnly(mem: Mem, at: Space, free: seq<nat>, mem1: Mem, at1: Space, free1: seq<nat>, va: nat, f: nat,
                      perm: nat)
    requires SpaceOk(mem, at) && Root in at && Shaped(mem1, at1) && Grew(mem, at, free, mem1, at1, free1)
    requires va < USERTOP && f < |mem| && f !in free && f !in Frames(at) && f !in Frames(at1) && perm < PGSIZE
    requires Parent(Page0(va)) in at1 && Page0(va) !in at1
    ensures AddedPage(mem, at, free, SetWord(mem1, at1[Parent(Page0(va))], Ptx(va), MakePte(f, perm)),
                      at1[Page0(va) := f],
                      free1, va / PGSIZE, f, perm)
  {
    hide SpaceOk, SamePage, Pte, Elems;
    var n := Parent(Page0(va));
    var pte := MakePte(f, perm);
    var mem2, at2 := SetWord(mem1, at1[n], Ptx(va), pte), at1[Page0(va) := f];
    PathNodes(va);
    AddConserves(mem, at, free, mem1, at1, free1, Page0(va), f);
    assert at1[n] in Frames(at1);
    forall g | 0 <= g < |mem| && g !in free && g !in Frames(at)
      ensures mem2[g] == mem[g]
    {
      PageFrameFresh(mem, at, free, mem1, at1, free1, g);
    }
    forall v: nat | Node(0, v) in at
      ensures SamePage(mem, at, mem2, at2, v)
    {
      SameAfterAdd(mem, at, free, mem1, at1, free1, va, f, pte, v);
    }
    OwnPte(mem1, at1, va, f, pte);
  }

  lemma AddConserves(mem: Mem, at: Space, free: seq<nat>, mem1: Mem, at1: Space, free1: seq<nat>, n: Node, f: nat)
    requires Grew(mem, at, free, mem1, at1, free1) && n !in at1
    ensures Elems(free1) + Frames(at1[n := f]) == Elems(free) + Frames(at) + {f}
  {
    AddFrame(at1, n, f);
  }

  lemma SameAfterAdd(mem: Mem, at: Space, free: seq<nat>, mem1: Mem, at1: Space, free1: seq<nat>, va: nat, f: nat,
                     pte: nat, v: nat)
    requires SpaceOk(mem, at) && Shaped(mem1, at1) && Grew(mem, at, free, mem1, at1, free1)
    requires va < USERTOP && Parent(Page0(va)) in at1 && Page0(va) !in at1 && Node(0, v) in at
    ensures SamePage(mem, at, SetWord(mem1, at1[Parent(Page0(va))], Ptx(va), pte), at1[Page0(va) := f], v)
  {
    hide TableOk;
    PathNodes(va);
    PteRefines(mem, at, v);
    OtherPte(mem1, at1, va / PGSIZE, v, f, pte);
  }

  lemma OwnPte(mem: Mem, at: Space, va: nat, f: nat, pte: nat)
    requires Shaped(mem, at) && va < USERTOP && Parent(Page0(va)) in at
    ensures Pte(SetWord(mem, at[Parent(Page0(va))], Ptx(va), pte), at[Page0(va) := f], va / PGSIZE) == pte
  {
    PathNodes(va);
  }

  // Entries of different pages are different words.
  lemma OtherPte(mem: Mem, at: Space, vpn: nat, v: nat, f: nat, pte: nat)
    requires Shaped(mem, at) && Node(1, vpn / NENT) in at && v != vpn
    ensures Pte(SetWord(mem, at[Node(1, vpn / NENT)], vpn % NENT, pte), at[Node(0, vpn) := f], v) == Pte(mem, at, v)
  {
  }

  // Pages [lo, hi) are mapped, zeroed, and writable by the user.
  ghost predicate FreshPages(mem: Mem, at: Space, lo: nat, hi: nat) {
    forall v: nat :: lo <= v < hi ==> Node(0, v) in at && FreshPage(mem, at, v)
  }

  ghost predicate FreshPage(mem: Mem, at: Space, v: nat)
    requires Node(0, v) in at
  {
    at[Node(0, v)] < |mem| && ZeroPage(mem[at[Node(0, v)]]) && Pte(mem, at, v) == MakePte(at[Node(0, v)], 6)
  }

  // Pages do not notice that some frame outside the address space was cleared.
  lemma ClearSamePage(mem: Mem, at: Space, f: nat, p: Page, v: nat)
    requires Shaped(mem, at) && Node(0, v) in at && f < |mem| && f !in Frames(at)
    ensures SamePage(mem, at, mem[f := p], at, v)
  {
    assert at[Node(0, v)] in Frames(at);
    assert Parent(Node(0, v)) in at && at[Parent(Node(0, v))] in Frames(at);
  }

  // Allocating a frame, filling it and mapping it extends the address space.
  lemma ExtendsStep(m0: Mem, a0: Space, f0: seq<nat>, m1: Mem, a1: Space, f1: seq<nat>, f: nat, p: Page, f2: seq<nat>,
                    m3: Mem, a3: Space, f3: seq<nat>, vpn: nat, perm: nat)
    requires Extends(m0, a0, f0, m1, a1, f1) && SpaceOk(m1, a1) && perm < PGSIZE
    requires f1 == [f] + f2 && f < |m1| && f !in Frames(a1)
    requires AddedPage(m1[f := p], a1, f2, m3, a3, f3, vpn, f, perm)
    ensures Extends(m0, a0, f0, m3, a3, f3)
    ensures forall v: nat :: Node(0, v) in a1 ==> SamePage(m1, a1, m3, a3, v)
  {
    forall v: nat | Node(0, v) in a1
      ensures SamePage(m1, a1, m3, a3, v)
    {
      ClearSamePage(m1, a1, f, p, v);
      assert SamePage(m1[f := p], a1, m3, a3, v);
    }
    assert Elems(f1) == Elems(f2) + {f};
    forall g | 0 <= g < |m0| && g !in f0 && g !in Frames(a0)
      ensures m3[g] == m0[g]
    {
      assert g !in Elems(f0) + Frames(a0);
      assert g !in Elems(f1) + Frames(a1);
      assert g != f && g !in f2;
    }
  }

  lemma ExtendsSame(mem: Mem, at: Space, free: seq<nat>, lo: nat, kpte: nat)
    requires Holds(mem, at, free, lo, kpte)
    ensures Extends(mem, at, free, mem, at, free)
  {
  }

  // One more page, zeroed: the invariant of allocuvm's loop.
  lemma FreshStep(m1: Mem, a1: Space, m3: Mem, a3: Space, free: seq<nat>, free': seq<nat>, f: nat, lo: nat, hi: nat)
    requires 1 <= lo <= hi && MapsExactly(a1, 1, hi) && FreshPages(m1, a1, lo, hi)
    requires forall v: nat :: Node(0, v) in a1 ==> SamePage(m1, a1, m3, a3, v)
    requires f < |m1| && AddedPage(m1[f := Zeros()], a1, free, m3, a3, free', hi, f, 6)
    ensures MapsExactly(a3, 1, hi + 1) && FreshPages(m3, a3, lo, hi + 1)
  {
    forall v: nat | lo <= v < hi + 1
      ensures Node(0, v) in a3 && FreshPage(m3, a3, v)
    {
      if v < hi {
        assert FreshPage(m1, a1, v);
        assert SamePage(m1, a1, m3, a3, v);
      }
    }
  }

  // Filling a frame that is no longer free and not yet owned.
  lemma FillHolds(mem: Mem, at: Space, free: seq<nat>, f: nat, p: Page, free': seq<nat>, lo: nat, kpte: nat)
    requires Holds(mem, at, free, lo, kpte) && free == [f] + free' && f < |mem| && |p| == NENT
    ensures Holds(mem[f := p], at, free', lo, kpte) && f !in Frames(at)
  {
    assert f in free;
    SpaceFrame(mem, mem[f := p], at);
  }

  // Data pages [lo, hi) are gone and their frames free; nothing else happened.
  ghost predicate Dropped(mem: Mem, at: Space, free: seq<nat>, mem': Mem, at': Space, free': seq<nat>, lo: nat,
                          hi: nat) {
    && |mem'| == |mem|
    && (forall n :: n in at' <==> n in at && !(n.level == 0 && lo <= n.prefix < hi))
    && (forall n :: n in at' ==> at'[n] == at[n])
    && (forall v: nat :: Node(0, v) in at' ==> SamePage(mem, at, mem', at', v))
    && Elems(free') + Frames(at') == Elems(free) + Frames(at)
    && (forall f :: 0 <= f < |mem| && f !in free && f !in Frames(at) ==> mem'[f] == mem[f])
  }

  lemma DroppedNone(mem: Mem, at: Space, free: seq<nat>, k: nat, lo: nat, kpte: nat)
    requires Holds(mem, at, free, lo, kpte)
    ensures Dropped(mem, at, free, mem, at, free, k, k)
  {
  }

  // Page hi is not mapped: nothing to do.
  lemma DropMissing(m0: Mem, a0: Space, f0: seq<nat>, mem: Mem, at: Space, free: seq<nat>, lo: nat, hi: nat)
    requires Dropped(m0, a0, f0, mem, at, free, lo, hi) && lo <= hi && Node(0, hi) !in at
    ensures Dropped(m0, a0, f0, mem, at, free, lo, hi + 1)
  {
  }

  // Freeing the frame of page hi and clearing its entry.
  lemma DropStep(mem: Mem, at: Space, free: seq<nat>, hi: nat, p: Page, lo: nat, kpte: nat)
    requires Holds(mem, at, free, lo, kpte) && Node(0, hi) in at && |p| == NENT
    ensures var f, n := at[Node(0, hi)], Node(1, hi / NENT);
            && n in at && f != at[n] && f < |mem|
            && var mem', at' := SetWord(mem[f := p], at[n], hi % NENT, 0), at - {Node(0, hi)};
               Holds(mem', at', [f] + free, lo, kpte) && Dropped(mem, at, free, mem', at', [f] + free, hi, hi + 1)
  {
    var f, n := at[Node(0, hi)], Node(1, hi / NENT);
    assert n == Parent(Node(0, hi));
    var mem1 := mem[f := p];
    SpaceFrame(mem, mem1, at);
    RemovePageOk(mem1, at, hi);
    DropOne(mem, at, free, hi, p);
  }

  lemma DropOne(mem: Mem, at: Space, free: seq<nat>, hi: nat, p: Page)
    requires Shaped(mem, at) && Node(0, hi) in at && Node(1, hi / NENT) in at && |p| == NENT
    requires at[Node(0, hi)] != at[Node(1, hi / NENT)]
    ensures var f, n := at[Node(0, hi)], Node(1, hi / NENT);
            var mem', at' := SetWord(mem[f := p], at[n], hi % NENT, 0), at - {Node(0, hi)};
            Dropped(mem, at, free, mem', at', [f] + free, hi, hi + 1)
  {
    hide SamePage, Pte, Elems;
    var f, n := at[Node(0, hi)], Node(1, hi / NENT);
    var mem', at' := SetWord(mem[f := p], at[n], hi % NENT, 0), at - {Node(0, hi)};
    forall v: nat | Node(0, v) in at'
      ensures SamePage(mem, at, mem', at', v)
    {
      DropOther(mem, at, hi, p, v);
    }
    DropConserves(at, free, Node(0, hi));
    DropNodes(at, hi);
    assert f in Frames(at) && at[n] in Frames(at);
  }

  lemma DropNodes(at: Space, hi: nat)
    ensures var at' := at - {Node(0, hi)};
            && (forall n :: n in at' <==> n in at && !(n.level == 0 && hi <= n.prefix < hi + 1))
            && (forall n :: n in at' ==> at'[n] == at[n])
  {
    forall n: Node
      ensures n.level == 0 && hi <= n.prefix < hi + 1 <==> n == Node(0, hi)
    {
    }
  }

  lemma DropConserves(at: Space, free: seq<nat>, n: Node)
    requires n in at
    ensures Elems([at[n]] + free) + Frames(at - {n}) == Elems(free) + Frames(at)
  {
    AddFrame(at - {n}, n, at[n]);
    assert (at - {n})[n := at[n]] == at;
    assert Elems([at[n]] + free) == Elems(free) + {at[n]};
  }

  lemma DropOther(mem: Mem, at: Space, hi: nat, p: Page, v: nat)
    requires Shaped(mem, at) && Node(0, hi) in at && Node(1, hi / NENT) in at && |p| == NENT
    requires at[Node(0, hi)] != at[Node(1, hi / NENT)] && Node(0, v) in at && v != hi
    ensures SamePage(mem, at, SetWord(mem[at[Node(0, hi)] := p], at[Node(1, hi / NENT)], hi % NENT, 0),
                     at - {Node(0, hi)}, v)
  {
    assert Parent(Node(0, v)) == Node(1, v / NENT);
    assert Parent(Node(0, v)) in at;
  }

  lemma DroppedThen(m0: Mem, a0: Space, f0: seq<nat>, m1: Mem, a1: Space, f1: seq<nat>, m2: Mem, a2: Space,
                    f2: seq<nat>, lo: nat, hi: nat)
    requires Dropped(m0, a0, f0, m1, a1, f1, lo, hi) && Dropped(m1, a1, f1, m2, a2, f2, hi, hi + 1) && lo <= hi
    ensures Dropped(m0, a0, f0, m2, a2, f2, lo, hi + 1)
  {
    forall v: nat | Node(0, v) in a2
      ensures SamePage(m0, a0, m2, a2, v)
    {
      assert SamePage(m1, a1, m2, a2, v) && SamePage(m0, a0, m1, a1, v);
    }
    forall f | 0 <= f < |m0| && f !in f0 && f !in Frames(a0)
      ensures m2[f] == m0[f]
    {
      assert f !in Elems(f0) + Frames(a0);
      assert f !in Elems(f1) + Frames(a1);
      assert f !in f1;
    }
  }

  // Pages [1, hi) of a copy: own frame, same contents, same flags.
  ghost predicate CopiedPages(m0: Mem, at: Space, mem: Mem, d: Space, hi: nat) {
    forall v: nat :: 1 <= v < hi ==> CopiedPage(m0, at, mem, d, v)
  }

  ghost predicate CopiedPage(m0: Mem, at: Space, mem: Mem, d: Space, v: nat) {
    var n := Node(0, v);
    && n in at && n in d && at[n] < |m0| && d[n] < |mem|
    && mem[d[n]] == m0[at[n]]
    && Flags(Pte(mem, d, v)) == Flags(Pte(m0, at, v))
  }

  // A second address space that shares no frame with the first, and a first that nobody wrote to.
  ghost predicate Apart(m0: Mem, at: Space, mem: Mem, d: Space) {
    && |mem| == |m0|
    && Frames(at) !! Frames(d)
    && forall n :: n in at ==> at[n] < |m0| && mem[at[n]] == m0[at[n]]
  }

  lemma CopyStep(m0: Mem, at: Space, m1: Mem, d1: Space, m3: Mem, d3: Space, f2: seq<nat>, f3: seq<nat>, f: nat,
                 hi: nat)
    requires SpaceOk(m0, at) && Node(0, hi) in at && 1 <= hi
    requires CopiedPages(m0, at, m1, d1, hi) && MapsExactly(d1, 1, hi)
    requires forall v: nat :: Node(0, v) in d1 ==> SamePage(m1, d1, m3, d3, v)
    requires f < |m1| && AddedPage(m1[f := m0[at[Node(0, hi)]]], d1, f2, m3, d3, f3, hi, f, Flags(Pte(m0, at, hi)))
    ensures CopiedPages(m0, at, m3, d3, hi + 1) && MapsExactly(d3, 1, hi + 1)
  {
    PteRefines(m0, at, hi);
    PresentFlags(Pte(m0, at, hi));
    forall v: nat | 1 <= v < hi + 1
      ensures CopiedPage(m0, at, m3, d3, v)
    {
      if v < hi {
        assert CopiedPage(m0, at, m1, d1, v);
        assert SamePage(m1, d1, m3, d3, v);
      }
    }
  }

  lemma PresentFlags(pte: nat)
    requires Present(pte)
    ensures Present(Flags(pte))
  {
  }

  // The original keeps apart while the copy takes one more frame from the free list.
  lemma ApartStep(m0: Mem, at: Space, m1: Mem, d1: Space, f1: seq<nat>, f: nat, p: Page, f2: seq<nat>,
                  m3: Mem, d3: Space, f3: seq<nat>, vpn: nat, perm: nat)
    requires Apart(m0, at, m1, d1) && perm < PGSIZE
    requires f1 == [f] + f2 && f < |m1| && forall n :: n in at ==> at[n] !in f1
    requires AddedPage(m1[f := p], d1, f2, m3, d3, f3, vpn, f, perm)
    ensures Apart(m0, at, m3, d3)
    ensures forall n :: n in at ==> at[n] !in f3
  {
    forall n | n in at
      ensures m3[at[n]] == m0[at[n]] && at[n] !in Frames(d3) && at[n] !in f3
    {
      assert at[n] in Frames(at) && at[n] != f && at[n] !in f2;
      assert at[n] !in Elems(f2) + Frames(d1) + {f};
      assert at[n] !in Elems(f3) + Frames(d3);
    }
  }


  // `freed` went to the free list; no other frame was written.
  ghost predicate Freed(freed: set<nat>, m1: Mem, f1: seq<nat>, mem: Mem, free: seq<nat>) {
    && |mem| == |m1|
    && Elems(free) == Elems(f1) + freed
    && forall f :: 0 <= f < |m1| && f !in freed ==> mem[f] == m1[f]
  }

  // The subtree of n is as it was in m0 and none of it is free.
  ghost predicate Intact(m0: Mem, at: Space, n: Node, mem: Mem, free: seq<nat>, lo: nat) {
    && |mem| == |m0|
    && forall m :: m in at && Under(m, n) ==> at[m] < |m0| && mem[at[m]] == m0[at[m]] && lo <= at[m] && at[m] !in free
  }

  lemma FreedNone(at: Space, n: Node, mem: Mem, free: seq<nat>)
    ensures Freed(FramesBelow(at, n, 0), mem, free, mem, free)
    ensures n.level == 0 ==> Freed(FramesBelow(at, n, Fanout(n)), mem, free, mem, free)
  {
    assert FramesBelow(at, n, 0) == {};
    if n.level == 0 {
      assert FramesBelow(at, n, Fanout(n)) == {};
    }
  }

  // While the first i subtrees go, the table itself and the next subtree stay as they were.
  lemma EntryUntouched(m0: Mem, at: Space, n: Node, i: nat, m1: Mem, f1: seq<nat>, mem: Mem, free: seq<nat>, lo: nat)
    requires SpaceOk(m0, at) && n in at && n.level > 0 && i < Fanout(n)
    requires Intact(m0, at, n, m1, f1, lo) && Freed(FramesBelow(at, n, i), m1, f1, mem, free)
    ensures |mem| == |m0| && mem[at[n]] == m0[at[n]] && EntryOk(m0, at, n, i)
    ensures Intact(m0, at, Child(n, i), mem, free, lo)
  {
    hide Under, Below, Present, FrameOf, Writable, ForUser, EntryOk, TableOk, FramesBelow;
    SelfUnder(n);
    NotSelf(n, i);
    EntryIs(m0, at, n, i);
    BelowOnly(m0, at, n, i);
    forall m | m in at && Under(m, Child(n, i))
      ensures mem[at[m]] == m0[at[m]] && at[m] !in free && lo <= at[m]
    {
      UnderOfChild(m, n, i);
      NotBelow(m, n, i);
      assert at[m] !in Elems(f1) + FramesBelow(at, n, i);
    }
  }

  // The subtree of entry i is not among those of the entries before it, nor is the table.
  lemma NotBelow(m: Node, n: Node, i: nat)
    requires n.level > 0 && i < NENT && Under(m, Child(n, i))
    ensures !Below(m, n, i)
  {
    ChildParent(n, i);
  }

  lemma NotSelf(n: Node, i: nat)
    ensures !Below(n, n, i)
  {
  }

  lemma EntryIs(mem: Mem, at: Space, n: Node, i: nat)
    requires SpaceOk(mem, at) && n in at && n.level > 0 && i < Fanout(n)
    ensures at[n] < |mem| && i < |mem[at[n]]| && EntryOk(mem, at, n, i)
  {
  }

  lemma BelowOnly(mem: Mem, at: Space, n: Node, i: nat)
    requires Shaped(mem, at)
    ensures forall m :: m in at && at[m] in FramesBelow(at, n, i) ==> Below(m, n, i)
  {
    hide Below;
  }

  lemma NothingUnder(mem: Mem, at: Space, n: Node)
    requires Shaped(mem, at) && n !in at && n.level <= 4
    ensures FramesUnder(at, n) == {}
  {
    forall m | m in at
      ensures !Under(m, n)
    {
      if m.level <= n.level {
        AncestorsPresent(mem, at, m, n.level);
      }
    }
  }

  lemma DroppedSize(m0: Mem, at: Space, f0: seq<nat>, mem: Mem, at': Space, free: seq<nat>, sz: nat, newsz: nat)
    requires SizeOk(at, sz) && newsz < sz
    requires Dropped(m0, at, f0, mem, at', free, RoundUp(newsz) / PGSIZE, RoundUp(sz) / PGSIZE)
    ensures newsz > 0 ==> SizeOk(at', newsz)
    ensures newsz == 0 ==> (SizeOk(at', sz) <==> sz <= PGSIZE)
  {
    RoundUpFacts(newsz);
    RoundUpFacts(sz);
    if newsz == 0 && sz > PGSIZE {
      assert Node(0, 1) !in at';
    }
  }

  lemma CopyStart(m0: Mem, at: Space, f0: seq<nat>, mem: Mem, d: Space, free: seq<nat>, droot: nat, lo: nat, kpte: nat)
    requires Holds(m0, at, f0, lo, kpte) && Holds(mem, d, free, lo, kpte) && d == map[Root := droot]
    requires f0 == [droot] + free && |mem| == |m0|
    requires forall f :: 0 <= f < |m0| && f != droot ==> mem[f] == m0[f]
    ensures SpaceOk(m0, at) && Holds(mem, at, free, lo, kpte) && Apart(m0, at, mem, d)
    ensures CopiedPages(m0, at, mem, d, 1) && MapsExactly(d, 1, 1)
    ensures Extends(mem, d, free, mem, d, free)
  {
    assert droot in f0;
    assert Frames(d) == {droot};
    SpaceFrame(m0, mem, at);
    ExtendsSame(mem, d, free, lo, kpte);
  }

  lemma CopyEnd(m0: Mem, at: Space, f0: seq<nat>, m1: Mem, d1: Space, f1: seq<nat>, mem: Mem, d: Space, free: seq<nat>,
                droot: nat, sz: nat, k: nat)
    requires Extends(m1, d1, f1, mem, d, free) && d1 == map[Root := droot] && f0 == [droot] + f1 && |m1| == |m0|
    requires forall f :: 0 <= f < |m0| && f != droot ==> m1[f] == m0[f]
    requires sz > 0 && (k - 1) * PGSIZE < sz <= k * PGSIZE && MapsExactly(d, 1, k)
    ensures SizeOk(d, sz) && RoundUp(sz) / PGSIZE == k
    ensures Elems(free) + Frames(d) == Elems(f0)
    ensures forall f :: 0 <= f < |m0| && f !in f0 ==> mem[f] == m0[f]
  {
    RoundUpUnique(sz, k);
    assert Frames(d1) == {droot};
    assert Elems(f0) == Elems(f1) + {droot};
  }

  lemma PageBelowSize(at: Space, sz: nat, k: nat)
    requires SizeOk(at, sz) && 1 <= k && k * PGSIZE < sz
    ensures Node(0, k) in at
  {
    RoundUpFacts(sz);
  }

  // The parent's entries read the same before and during the copy.
  lemma ApartPte(m0: Mem, at: Space, mem: Mem, d: Space, v: nat)
    requires Apart(m0, at, mem, d) && SpaceOk(m0, at) && Node(0, v) in at
    ensures Pte(mem, at, v) == Pte(m0, at, v)
    ensures at[Node(0, v)] < |m0| && mem[at[Node(0, v)]] == m0[at[Node(0, v)]]
  {
    assert Parent(Node(0, v)) in at;
  }

  lemma ApartHolds(m0: Mem, at: Space, m1: Mem, d1: Space, mem: Mem, d: Space, free: seq<nat>, lo: nat, kpte: nat)
    requires Apart(m0, at, m1, d1) && Apart(m0, at, mem, d) && SpaceOk(m1, at) && KernelHalf(m1, at, kpte)
    requires forall n :: n in at ==> lo <= at[n] && at[n] !in free
    ensures Holds(mem, at, free, lo, kpte)
  {
    SpaceFrame(m1, mem, at);
  }

  lemma FreedApart(m0: Mem, at: Space, m1: Mem, d: Space, f1: seq<nat>, mem: Mem, free: seq<nat>, lo: nat, kpte: nat)
    requires Holds(m1, at, f1, lo, kpte) && Apart(m0, at, m1, d)
    requires Freed(Frames(d), m1, f1, mem, free)
    ensures Holds(mem, at, free, lo, kpte) && forall n :: n in at ==> at[n] < |m0| && mem[at[n]] == m0[at[n]]
  {
    forall n | n in at
      ensures mem[at[n]] == m0[at[n]] && at[n] !in free
    {
      assert at[n] in Frames(at) && at[n] !in Elems(f1) + Frames(d);
    }
    SpaceFrame(m1, mem, at);
  }

  // ----- freeing, subtree by subtree

  ghost predicate Below(m: Node, n: Node, i: nat) {
    m.level < n.level && Under(m, n) && Ancestor(m, n.level - 1).prefix % NENT < i
  }

  // The frames under the first i entries of a table.
  ghost function FramesBelow(at: Space, n: Node, i: nat): set<nat> {
    set m | m in at && Below(m, n, i) :: at[m]
  }

  lemma SelfUnder(n: Node)
    ensures Under(n, n)
  {
  }

  lemma BelowStep(mem: Mem, at: Space, n: Node, i: nat)
    requires Shaped(mem, at) && n in at && n.level > 0 && i < Fanout(n)
    ensures FramesBelow(at, n, i + 1) == FramesBelow(at, n, i) + FramesUnder(at, Child(n, i))
  {
    forall m | m in at
      ensures Below(m, n, i + 1) <==> Below(m, n, i) || Under(m, Child(n, i))
    {
      if m.level < n.level {
        UnderChild(m, n);
        ChildParent(n, i);
        if Under(m, Child(n, i)) {
          UnderOfChild(m, n, i);
        }
      }
    }
  }

  lemma BelowAll(mem: Mem, at: Space, n: Node)
    requires Shaped(mem, at) && n in at
    ensures FramesUnder(at, n) == FramesBelow(at, n, Fanout(n)) + {at[n]}
    ensures at[n] !in FramesBelow(at, n, Fanout(n))
  {
    forall m | m in at
      ensures Under(m, n) <==> Below(m, n, Fanout(n)) || m == n
    {
      if m.level < n.level && Under(m, n) {
        AncestorsPresent(mem, at, m, n.level - 1);
        UnderChild(m, n);
      }
    }
  }

  lemma AllFramesUnderRoot(mem: Mem, at: Space)
    requires Shaped(mem, at)
    ensures FramesUnder(at, Root) == Frames(at)
  {
    forall m | m in at
      ensures Under(m, Root)
    {
      AllUnderRoot(mem, at, m);
    }
    assert forall f :: f in Frames(at) ==> exists m :: m in at && at[m] == f;
  }

  // The entry that leads to a new table.
  lemma TablePte(f: nat)
    ensures var pte := MakePte(f, 7); Present(pte) && FrameOf(pte) == f && Writable(pte) && ForUser(pte)
  {
    RightsOfFlags(MakePte(f, 7));
  }

  lemma TableAddedOk(mem: Mem, at: Space, free: seq<nat>, n: Node, i: nat, f: nat, free': seq<nat>, lo: nat, kpte: nat)
    requires Holds(mem, at, free, lo, kpte) && n in at && n.level >= 2 && i < Fanout(n) && Child(n, i) !in at
    requires free == [f] + free' && lo <= f < |mem| && f !in free'
    ensures var mem', at' := SetWord(mem[f := Zeros()], at[n], i, MakePte(f, 7)), at[Child(n, i) := f];
            Holds(mem', at', free', lo, kpte) && Grew(mem, at, free, mem', at', free')
  {
    hide Grew, TableOk, EntryOk, Present, FrameOf, Writable, ForUser, Flags, MakePte, Elems;
    var mem1 := mem[f := Zeros()];
    assert f in free;
    SpaceFrame(mem, mem1, at);
    TablePte(f);
    AddChildOk(mem1, at, n, i, f, MakePte(f, 7));
    TableAddedGrew(mem, at, free, n, i, f, free');
  }

  lemma TableAddedGrew(mem: Mem, at: Space, free: seq<nat>, n: Node, i: nat, f: nat, free': seq<nat>)
    requires Shaped(mem, at) && n in at && n.level >= 2 && i < Fanout(n) && Child(n, i) !in at
    requires free == [f] + free' && f < |mem| && f !in Frames(at)
    ensures Grew(mem, at, free, SetWord(mem[f := Zeros()], at[n], i, MakePte(f, 7)), at[Child(n, i) := f], free')
  {
    AddFrame(at, Child(n, i), f);
    assert Elems(free) == Elems(free') + {f};
  }

  lemma AddFrame(at: Space, n: Node, f: nat)
    requires n !in at
    ensures Frames(at[n := f]) == Frames(at) + {f}
  {
    var at' := at[n := f];
    assert forall m :: m in at ==> at'[m] == at[m];
    assert at'[n] == f;
  }
}
