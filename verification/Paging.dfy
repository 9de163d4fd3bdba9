/**
  Four-level page tables as they lie in physical memory, after 4-level paging,
  section 4.5 of the Intel 64 SDM Volume 3A.

  A node of an address space is a table or a data page, named by its level (4 is
  the root table, 1 a page table, 0 a data page) and by the bits of the virtual
  address that lead to it.  `Space` maps the nodes of one address space to the
  frames that hold them.
 */
module Paging {

  const PGSIZE: nat := 4096
  const NENT: nat := 512
  const USERTOP: nat := 0x8000_0000_0000  // 2^47

  type Page = seq<nat>
  type Mem = seq<Page>

  function SetWord(mem: Mem, f: nat, i: nat, w: nat): (mem': Mem)
    requires f < |mem| && i < |mem[f]|
    ensures |mem'| == |mem| && |mem'[f]| == |mem[f]|
  {
    var p: Page := mem[f][i := w];
    mem[f := p]
  }

  // ----- addresses and entries

  function Pmx(va: nat): nat { va / 0x80_0000_0000 % NENT }
  function Pdpx(va: nat): nat { va / 0x4000_0000 % NENT }
  function Pdx(va: nat): nat { va / 0x20_0000 % NENT }
  function Ptx(va: nat): nat { va / 0x1000 % NENT }

  function RoundDown(a: nat): nat { a / PGSIZE * PGSIZE }
  function RoundUp(a: nat): nat { (a + PGSIZE - 1) / PGSIZE * PGSIZE }

  predicate Present(pte: nat) { pte % 2 == 1 }
  function FrameOf(pte: nat): nat { pte / PGSIZE }
  function Flags(pte: nat): nat { pte % PGSIZE }

  // PTE_W and PTE_U.
  predicate Writable(pte: nat) { pte / 2 % 2 == 1 }
  predicate ForUser(pte: nat) { pte / 4 % 2 == 1 }

  // An entry for a frame, with PTE_P added to the permissions.
  function MakePte(frame: nat, perm: nat): (pte: nat)
    requires perm < PGSIZE
    ensures Present(pte) && FrameOf(pte) == frame && Flags(pte) == if Present(perm) then perm else perm + 1
  {
    PteParts(frame, if Present(perm) then perm else perm + 1);
    frame * PGSIZE + if Present(perm) then perm else perm + 1
  }

  lemma PteParts(frame: nat, low: nat)
    requires low < PGSIZE
    ensures (frame * PGSIZE + low) / PGSIZE == frame && (frame * PGSIZE + low) % PGSIZE == low
    ensures Present(frame * PGSIZE + low) <==> Present(low)
  {
  }

  // The rights are among the flags.
  lemma RightsOfFlags(pte: nat)
    ensures Writable(pte) <==> Writable(Flags(pte))
    ensures ForUser(pte) <==> ForUser(Flags(pte))
  {
    RightsOfParts(pte / PGSIZE, pte % PGSIZE);
  }

  lemma RightsOfParts(q: nat, r: nat)
    requires r < PGSIZE
    ensures (q * PGSIZE + r) / 2 % 2 == r / 2 % 2 && (q * PGSIZE + r) / 4 % 2 == r / 4 % 2
  {
    Halves(q * 2048, r);
    Halves(q * 1024, r / 2);
    assert (q * PGSIZE + r) / 4 == (q * PGSIZE + r) / 2 / 2 && r / 4 == r / 2 / 2;
    Evens(q * 1024, r / 2);
    Evens(q * 512, r / 4);
  }

  lemma Halves(a: nat, r: nat)
    ensures (a * 2 + r) / 2 == a + r / 2
  {
  }

  lemma Evens(a: nat, r: nat)
    ensures (a * 2 + r) % 2 == r % 2
  {
  }

  // The four indices of a user address determine its page, and the page them.
  lemma IndicesDeterminePage(va: nat)
    requires va < USERTOP
    ensures Pmx(va) < NENT / 2
    ensures ((Pmx(va) * NENT + Pdpx(va)) * NENT + Pdx(va)) * NENT + Ptx(va) == va / PGSIZE
  {
    var p := va / 0x1000;
    assert va / 0x20_0000 == p / NENT;
    assert va / 0x4000_0000 == p / NENT / NENT;
    assert va / 0x80_0000_0000 == p / NENT / NENT / NENT;
  }

  lemma IndicesInjective(va: nat, vb: nat)
    requires va < USERTOP && vb < USERTOP
    ensures (Pmx(va), Pdpx(va), Pdx(va), Ptx(va)) == (Pmx(vb), Pdpx(vb), Pdx(vb), Ptx(vb))
            <==> RoundDown(va) == RoundDown(vb)
  {
    IndicesDeterminePage(va);
    IndicesDeterminePage(vb);
  }

  // ----- nodes

  datatype Node = Node(level: nat, prefix: nat)

  const Root: Node := Node(4, 0)

  function Child(n: Node, i: nat): Node
    requires n.level > 0
  {
    Node(n.level - 1, n.prefix * NENT + i)
  }

  function Parent(n: Node): Node {
    Node(n.level + 1, n.prefix / NENT)
  }

  lemma ChildParent(n: Node, i: nat)
    requires n.level > 0 && i < NENT
    ensures Parent(Child(n, i)) == n && Child(n, i).prefix % NENT == i
  {
  }

  // The user half of the root; every entry of a lower table.
  function Fanout(n: Node): nat {
    if n.level == 4 then NENT / 2 else NENT
  }

  function Page0(va: nat): Node { Node(0, va / PGSIZE) }

  // The tables that walkpgdir visits are the ancestors of the page.
  lemma PathNodes(va: nat)
    requires va < USERTOP
    ensures Pmx(va) < Fanout(Root) && Pdpx(va) < NENT && Pdx(va) < NENT && Ptx(va) < NENT
    ensures var n1 := Parent(Page0(va));
            var n2 := Parent(n1);
            var n3 := Parent(n2);
            && Parent(n3) == Root
            && Child(Root, Pmx(va)) == n3 && Child(n3, Pdpx(va)) == n2 && Child(n2, Pdx(va)) == n1
            && Child(n1, Ptx(va)) == Page0(va)
  {
    IndicesDeterminePage(va);
    var p := va / 0x1000;
    assert va / 0x20_0000 == p / NENT;
    assert va / 0x4000_0000 == p / NENT / NENT;
    assert va / 0x80_0000_0000 == p / NENT / NENT / NENT;
  }

  // ----- address spaces

  type Space = map<Node, nat>

  ghost predicate EntryOk(mem: Mem, at: Space, n: Node, i: nat)
    requires n in at && n.level > 0 && at[n] < |mem| && i < |mem[at[n]]|
  {
    var pte, c := mem[at[n]][i], Child(n, i);
    && (Present(pte) <==> c in at) && (Present(pte) ==> FrameOf(pte) == at[c])
    && (Present(pte) && n.level >= 2 ==> Writable(pte) && ForUser(pte))
  }

  ghost predicate TableOk(mem: Mem, at: Space, n: Node)
    requires n in at && n.level > 0 && at[n] < |mem| && |mem[at[n]]| == NENT
  {
    forall i :: 0 <= i < Fanout(n) ==> EntryOk(mem, at, n, i)
  }

  ghost predicate Shaped(mem: Mem, at: Space) {
    && Root in at
    && (forall n :: n in at ==> n.level <= 4 && at[n] < |mem| && |mem[at[n]]| == NENT)
    && (forall n :: n in at && n.level == 4 ==> n == Root)
    && (forall n :: n in at && n.level < 4 ==> Parent(n) in at && n.prefix % NENT < Fanout(Parent(n)))
    && (forall m, n :: m in at && n in at && m != n ==> at[m] != at[n])
  }

  // The tables in memory spell out exactly this address space, no frame is used twice,
  // and what leads to a table leaves all rights to the entries below.
  ghost predicate SpaceOk(mem: Mem, at: Space) {
    Shaped(mem, at) && forall n :: n in at && n.level > 0 ==> TableOk(mem, at, n)
  }

  // Every root shares the kernel's entries.
  ghost predicate KernelHalf(mem: Mem, at: Space, kpte: nat) {
    && Root in at && at[Root] < |mem| && |mem[at[Root]]| == NENT
    && forall i :: NENT / 2 <= i < NENT ==> mem[at[Root]][i] == if i == NENT / 2 then kpte else 0
  }

  ghost function Frames(at: Space): set<nat> { at.Values }

  // The entry for a page: the partial map that the tables refine (0 where undefined).
  ghost function Pte(mem: Mem, at: Space, vpn: nat): (pte: nat) {
    var n := Node(1, vpn / NENT);
    if n in at && at[n] < |mem| && |mem[at[n]]| == NENT then mem[at[n]][vpn % NENT] else 0
  }

  lemma PteRefines(mem: Mem, at: Space, vpn: nat)
    requires SpaceOk(mem, at)
    ensures Present(Pte(mem, at, vpn)) <==> Node(0, vpn) in at
    ensures Node(0, vpn) in at ==> Node(1, vpn / NENT) in at && FrameOf(Pte(mem, at, vpn)) == at[Node(0, vpn)]
  {
    var n := Parent(Node(0, vpn));
    assert Child(n, vpn % NENT) == Node(0, vpn);
    if n in at {
      assert EntryOk(mem, at, n, vpn % NENT);
    }
  }

  // ----- elementary changes

  ghost predicate ZeroPage(p: Page) {
    |p| == NENT && forall i :: 0 <= i < NENT ==> p[i] == 0
  }

  // Hanging a fresh frame into an empty entry adds exactly one node.
  lemma AddChildOk(mem: Mem, at: Space, n: Node, i: nat, f: nat, pte: nat)
    requires SpaceOk(mem, at) && n in at && n.level > 0 && i < Fanout(n) && Child(n, i) !in at
    requires f < |mem| && f !in Frames(at) && (n.level > 1 ==> ZeroPage(mem[f])) && |mem[f]| == NENT
    requires Present(pte) && FrameOf(pte) == f && (n.level > 1 ==> Writable(pte) && ForUser(pte))
    ensures SpaceOk(SetWord(mem, at[n], i, pte), at[Child(n, i) := f])
  {
    hide Shaped, EntryOk, TableOk;
    AddChildShaped(mem, at, n, i, f, pte);
    var mem', at' := SetWord(mem, at[n], i, pte), at[Child(n, i) := f];
    forall m | m in at' && m.level > 0
      ensures at'[m] < |mem'| && |mem'[at'[m]]| == NENT && TableOk(mem', at', m)
    {
      AddChildTable(mem, at, n, i, f, pte, m);
    }
  }

  lemma AddChildShaped(mem: Mem, at: Space, n: Node, i: nat, f: nat, pte: nat)
    requires Shaped(mem, at) && n in at && n.level > 0 && i < Fanout(n) && Child(n, i) !in at
    requires f < |mem| && f !in Frames(at) && |mem[f]| == NENT
    ensures at[n] < |mem| && i < |mem[at[n]]| && Shaped(SetWord(mem, at[n], i, pte), at[Child(n, i) := f])
  {
    ChildParent(n, i);
  }

  lemma AddChildTable(mem: Mem, at: Space, n: Node, i: nat, f: nat, pte: nat, m: Node)
    requires SpaceOk(mem, at) && n in at && n.level > 0 && i < Fanout(n) && Child(n, i) !in at
    requires f < |mem| && f !in Frames(at) && (n.level > 1 ==> ZeroPage(mem[f])) && |mem[f]| == NENT
    requires Present(pte) && FrameOf(pte) == f && (n.level > 1 ==> Writable(pte) && ForUser(pte))
    requires m in at[Child(n, i) := f] && m.level > 0
    requires Shaped(SetWord(mem, at[n], i, pte), at[Child(n, i) := f])
    ensures var mem', at' := SetWord(mem, at[n], i, pte), at[Child(n, i) := f];
            at'[m] < |mem'| && |mem'[at'[m]]| == NENT && TableOk(mem', at', m)
  {
    hide ZeroPage;
    var c := Child(n, i);
    var mem', at' := SetWord(mem, at[n], i, pte), at[c := f];
    ChildParent(n, i);
    forall j | 0 <= j < Fanout(m)
      ensures EntryOk(mem', at', m, j)
    {
      ChildParent(m, j);
      if m == c {
        NoChild(mem, at, c, j);
        ZeroEntry(mem[f], j);
      } else {
        assert EntryOk(mem, at, m, j);
      }
    }
  }

  // Only nodes of the space have children in it.
  lemma NoChild(mem: Mem, at: Space, c: Node, j: nat)
    requires Shaped(mem, at) && c !in at && 0 < c.level <= 4 && j < NENT
    ensures Child(c, j) !in at
  {
    ChildParent(c, j);
  }

  lemma ZeroEntry(p: Page, j: nat)
    requires ZeroPage(p) && j < NENT
    ensures |p| == NENT && !Present(p[j])
  {
  }

  // Clearing the entry of a data page removes exactly that node.
  lemma RemovePageOk(mem: Mem, at: Space, vpn: nat)
    requires SpaceOk(mem, at) && Node(0, vpn) in at
    ensures var pt := at[Node(1, vpn / NENT)];
            SpaceOk(SetWord(mem, pt, vpn % NENT, 0), at - {Node(0, vpn)})
  {
    hide EntryOk, TableOk;
    var c := Node(0, vpn);
    var mem', at' := SetWord(mem, at[Parent(c)], vpn % NENT, 0), at - {c};
    assert Shaped(mem', at');
    forall m | m in at' && m.level > 0
      ensures TableOk(mem', at', m)
    {
      RemovePageTable(mem, at, vpn, m);
    }
  }

  lemma RemovePageTable(mem: Mem, at: Space, vpn: nat, m: Node)
    requires SpaceOk(mem, at) && Node(0, vpn) in at && m in at && m.level > 0
    ensures Parent(Node(0, vpn)) in at && at[Parent(Node(0, vpn))] < |mem| && at[m] < |mem| && |mem[at[m]]| == NENT
    ensures TableOk(SetWord(mem, at[Parent(Node(0, vpn))], vpn % NENT, 0), at - {Node(0, vpn)}, m)
  {
    hide EntryOk;
    var c := Node(0, vpn);
    assert Parent(c) in at;
    forall j | 0 <= j < Fanout(m)
      ensures EntryOk(SetWord(mem, at[Parent(c)], vpn % NENT, 0), at - {c}, m, j)
    {
      assert EntryOk(mem, at, m, j);
      RemovePageEntry(mem, at, vpn, m, j);
    }
  }

  lemma RemovePageEntry(mem: Mem, at: Space, vpn: nat, m: Node, j: nat)
    requires Node(0, vpn) in at && m in at && m.level > 0 && at[m] < |mem| && j < |mem[at[m]]| == NENT
    requires var n := Parent(Node(0, vpn));
             n in at && at[n] < |mem| && |mem[at[n]]| == NENT && (m != n ==> at[m] != at[n])
    requires EntryOk(mem, at, m, j)
    ensures EntryOk(SetWord(mem, at[Parent(Node(0, vpn))], vpn % NENT, 0), at - {Node(0, vpn)}, m, j)
  {
    ChildParent(m, j);
    assert Child(Parent(Node(0, vpn)), vpn % NENT) == Node(0, vpn);
  }

  // An address space only depends on the contents of its own tables.
  lemma SpaceFrame(mem: Mem, mem': Mem, at: Space)
    requires SpaceOk(mem, at) && |mem'| == |mem|
    requires forall n :: n in at ==> |mem'[at[n]]| == NENT
    requires forall n :: n in at && n.level > 0 ==> mem'[at[n]] == mem[at[n]]
    ensures SpaceOk(mem', at)
  {
    forall m | m in at && m.level > 0
      ensures TableOk(mem', at, m)
    {
      forall j | 0 <= j < Fanout(m)
        ensures EntryOk(mem', at, m, j)
      {
        assert EntryOk(mem, at, m, j);
      }
    }
  }

  // ----- subtrees

  ghost function Ancestor(n: Node, level: nat): (a: Node)
    ensures n.level <= level ==> a.level == level
    decreases if n.level < level then level - n.level else 0
  {
    if n.level >= level then n else Ancestor(Parent(n), level)
  }

  ghost predicate Under(m: Node, n: Node) {
    m.level <= n.level && Ancestor(m, n.level) == n
  }

  lemma {:induction false} AncestorStep(m: Node, level: nat)
    requires m.level < level
    ensures Ancestor(m, level) == Parent(Ancestor(m, level - 1))
    decreases level - m.level
  {
    if m.level < level - 1 {
      AncestorStep(Parent(m), level);
    }
  }

  // A node strictly below n lies below exactly one child of n.
  lemma UnderChild(m: Node, n: Node)
    requires m.level < n.level
    ensures Under(m, n) <==> Parent(Ancestor(m, n.level - 1)) == n
    ensures Under(m, n) ==> Under(m, Child(n, Ancestor(m, n.level - 1).prefix % NENT))
  {
    AncestorStep(m, n.level);
  }

  lemma UnderOfChild(m: Node, n: Node, i: nat)
    requires n.level > 0 && i < NENT && Under(m, Child(n, i))
    ensures Under(m, n) && m != n
  {
    ChildParent(n, i);
    AncestorStep(m, n.level);
  }

  // Everything in an address space hangs from its root.
  lemma {:induction false} AllUnderRoot(mem: Mem, at: Space, m: Node)
    requires Shaped(mem, at) && m in at
    ensures Under(m, Root)
    decreases 4 - m.level
  {
    if m.level < 4 {
      AllUnderRoot(mem, at, Parent(m));
    }
  }

  lemma {:induction false} AncestorsPresent(mem: Mem, at: Space, m: Node, level: nat)
    requires Shaped(mem, at) && m in at && m.level <= level <= 4
    ensures Ancestor(m, level) in at
    ensures level < 4 ==> Ancestor(m, level).prefix % NENT < Fanout(Parent(Ancestor(m, level)))
    decreases level - m.level
  {
    if m.level < level {
      AncestorsPresent(mem, at, Parent(m), level);
    }
  }

  ghost function FramesUnder(at: Space, n: Node): set<nat> {
    set m | m in at && Under(m, n) :: at[m]
  }

  // ----- what a process of size sz has mapped

  ghost predicate MapsExactly(at: Space, lo: nat, hi: nat) {
    forall vpn: nat :: Node(0, vpn) in at <==> lo <= vpn < hi
  }

  // Pages [PGSIZE, PGROUNDUP(sz)) and no others.
  ghost predicate SizeOk(at: Space, sz: nat) {
    sz > 0 && MapsExactly(at, 1, RoundUp(sz) / PGSIZE)
  }

  // Distinct pages need distinct frames, so sizes are bounded by physical memory.
  lemma MappedPagesBound(mem: Mem, at: Space, lo: nat, hi: nat)
    requires Shaped(mem, at) && lo <= hi
    requires forall vpn :: lo <= vpn < hi ==> Node(0, vpn) in at
    ensures hi - lo <= |mem|
  {
    PageFramesCount(at, lo, hi, |mem|);
    FramesBound(PageFrames(at, lo, hi), |mem|);
  }

  ghost function PageFrames(at: Space, lo: nat, hi: nat): set<nat>
    requires forall vpn :: lo <= vpn < hi ==> Node(0, vpn) in at
  {
    set vpn | lo <= vpn < hi :: at[Node(0, vpn)]
  }

  lemma {:induction false} PageFramesCount(at: Space, lo: nat, hi: nat, n: nat)
    requires lo <= hi
    requires forall vpn :: lo <= vpn < hi ==> Node(0, vpn) in at && at[Node(0, vpn)] < n
    requires forall u, v :: lo <= u < v < hi ==> at[Node(0, u)] != at[Node(0, v)]
    ensures |PageFrames(at, lo, hi)| == hi - lo
    ensures forall f :: f in PageFrames(at, lo, hi) ==> f < n
    decreases hi - lo
  {
    if lo < hi {
      PageFramesCount(at, lo, hi - 1, n);
      assert PageFrames(at, lo, hi) == PageFrames(at, lo, hi - 1) + {at[Node(0, hi - 1)]};
      assert at[Node(0, hi - 1)] !in PageFrames(at, lo, hi - 1);
    }
  }

  lemma {:induction false} FramesBound(s: set<nat>, n: nat)
    requires forall f :: f in s ==> f < n
    ensures |s| <= n
  {
    if n == 0 {
      assert s == {};
    } else {
      FramesBound(s - {n - 1}, n - 1);
    }
  }

  lemma RoundUpFacts(sz: nat)
    ensures RoundUp(sz) == RoundUp(sz) / PGSIZE * PGSIZE && sz <= RoundUp(sz) < sz + PGSIZE
    ensures sz > 0 ==> RoundUp(sz) / PGSIZE >= 1
  {
  }

  lemma RoundUpUnique(sz: nat, k: nat)
    requires sz <= k * PGSIZE < sz + PGSIZE
    ensures RoundUp(sz) / PGSIZE == k
  {
    assert (sz + PGSIZE - 1) / PGSIZE == k;
  }

  lemma SizeFromPages(at: Space, sz: nat, k: nat)
    requires sz > 0 && RoundUp(sz) / PGSIZE == k && MapsExactly(at, 1, k)
    ensures SizeOk(at, sz)
  {
  }
}
