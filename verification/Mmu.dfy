/**
  Address translation as the hardware does it: four table lookups, section 4.5 of the
  Intel 64 SDM Volume 3A.  An access by the user is allowed if every entry on the way
  allows it.
 */
module Mmu {
  import opened AddressSpace
  import opened Paging

  datatype Access = Fault | Reach(frame: nat, writable: bool, user: bool)

  // The entry of a table in memory; 0, which is not present, outside of it.
  function Entry(mem: Mem, table: nat, i: nat): nat {
    if table < |mem| && i < |mem[table]| then mem[table][i] else 0
  }

  // What an address leads to from a root table, whatever the tables hold.
  function Translate(mem: Mem, root: nat, va: nat): Access {
    var e4 := Entry(mem, root, va / 0x80_0000_0000 % 512);
    var e3 := Entry(mem, e4 / 4096, va / 0x4000_0000 % 512);
    var e2 := Entry(mem, e3 / 4096, va / 0x20_0000 % 512);
    var e1 := Entry(mem, e2 / 4096, va / 0x1000 % 512);
    if e4 % 2 == 1 && e3 % 2 == 1 && e2 % 2 == 1 && e1 % 2 == 1 then
      Reach(e1 / 4096,
            e4 / 2 % 2 == 1 && e3 / 2 % 2 == 1 && e2 / 2 % 2 == 1 && e1 / 2 % 2 == 1,
            e4 / 4 % 2 == 1 && e3 / 4 % 2 == 1 && e2 / 4 % 2 == 1 && e1 / 4 % 2 == 1)
    else Fault
  }

  // One level of the walk.
  lemma Level(mem: Mem, at: Space, n: Node, i: nat)
    requires SpaceOk(mem, at) && n in at && n.level > 0 && i < Fanout(n)
    ensures var e := Entry(mem, at[n], i);
            && (Present(e) <==> Child(n, i) in at) && (Child(n, i) in at ==> FrameOf(e) == at[Child(n, i)])
            && (Child(n, i) in at && n.level >= 2 ==> Writable(e) && ForUser(e))
  {
    assert EntryOk(mem, at, n, i);
  }

  // The hardware reaches exactly the pages of the address space, each with the rights
  // that its own entry gives.
  lemma TranslateIs(mem: Mem, at: Space, va: nat)
    requires SpaceOk(mem, at) && va < USERTOP
    ensures Root in at
    ensures var pte := Pte(mem, at, va / PGSIZE);
            Translate(mem, at[Root], va) ==
            if Page0(va) in at then Reach(at[Page0(va)], Writable(pte), ForUser(pte)) else Fault
  {
    hide TableOk, EntryOk;
    PathNodes(va);
    var n1 := Parent(Page0(va));
    var n2 := Parent(n1);
    var n3 := Parent(n2);
    Level(mem, at, Root, Pmx(va));
    if n3 in at {
      Level(mem, at, n3, Pdpx(va));
      if n2 in at {
        Level(mem, at, n2, Pdx(va));
        if n1 in at {
          Level(mem, at, n1, Ptx(va));
        }
      }
    }
  }

  // ----- what the user sees of the address space routines

  // The user can write here and finds zeros.
  ghost predicate SeesZeros(mem: Mem, root: nat, va: nat) {
    var a := Translate(mem, root, va);
    a.Reach? && a.writable && a.user && a.frame < |mem| && ZeroPage(mem[a.frame])
  }

  // An access goes where it went before, with the same rights, and finds the same.
  ghost predicate SeesTheSame(m0: Mem, root: nat, mem: Mem, va: nat) {
    var a := Translate(m0, root, va);
    Translate(mem, root, va) == a && (a.Reach? && a.frame < |m0| ==> |mem| == |m0| && mem[a.frame] == m0[a.frame])
  }

  // An access through the copy faults where the original does, and otherwise has the same
  // rights and finds the same on another frame.
  ghost predicate SeesACopy(m0: Mem, root: nat, mem: Mem, droot: nat, va: nat) {
    var a, b := Translate(m0, root, va), Translate(mem, droot, va);
    && (a.Fault? <==> b.Fault?)
    && (a.Reach? && b.Reach? ==>
          && a.writable == b.writable && a.user == b.user && a.frame != b.frame
          && a.frame < |m0| && b.frame < |mem| && mem[b.frame] == m0[a.frame])
  }

  lemma FreshSeen(mem: Mem, at: Space, lo: nat, hi: nat, va: nat)
    requires SpaceOk(mem, at) && FreshPages(mem, at, lo, hi) && lo * PGSIZE <= va < hi * PGSIZE && va < USERTOP
    ensures Root in at && SeesZeros(mem, at[Root], va)
  {
    var v := va / PGSIZE;
    assert Node(0, v) in at && FreshPage(mem, at, v);
    TranslateIs(mem, at, va);
    RightsOfFlags(MakePte(at[Node(0, v)], 6));
  }

  lemma SamePageSeen(m0: Mem, at: Space, mem: Mem, at': Space, va: nat)
    requires SpaceOk(m0, at) && SpaceOk(mem, at') && va < USERTOP && Root in at && IsRoot(at', at[Root])
    requires Page0(va) in at <==> Page0(va) in at'
    requires Page0(va) in at ==> SamePage(m0, at, mem, at', va / PGSIZE)
    ensures SeesTheSame(m0, at[Root], mem, va)
  {
    hide SpaceOk, Translate;
    TranslateIs(m0, at, va);
    TranslateIs(mem, at', va);
  }

  lemma DroppedSeen(m0: Mem, at: Space, f0: seq<nat>, mem: Mem, at': Space, free: seq<nat>, lo: nat, hi: nat, va: nat)
    requires SpaceOk(m0, at) && SpaceOk(mem, at') && Dropped(m0, at, f0, mem, at', free, lo, hi)
    requires va < USERTOP && Root in at && IsRoot(at', at[Root])
    ensures if lo * PGSIZE <= va < hi * PGSIZE then Translate(mem, at[Root], va) == Fault
            else SeesTheSame(m0, at[Root], mem, va)
  {
    hide SpaceOk, Translate, SeesTheSame;
    if lo * PGSIZE <= va < hi * PGSIZE {
      TranslateIs(mem, at', va);
    } else {
      SamePageSeen(m0, at, mem, at', va);
    }
  }

  lemma PageOfAddress(va: nat, k: nat)
    ensures va / PGSIZE < k <==> va < k * PGSIZE
  {
  }

  lemma SameNodes(m0: Mem, at: Space, mem: Mem, at': Space, vpn: nat)
    requires SamePage(m0, at, mem, at', vpn)
    ensures Node(0, vpn) in at'
  {
  }

  lemma ExtendedSeen(m0: Mem, at: Space, f0: seq<nat>, mem: Mem, at': Space, free: seq<nat>, sz: nat, sz': nat, va: nat)
    requires SpaceOk(m0, at) && SpaceOk(mem, at') && Extends(m0, at, f0, mem, at', free)
    requires SizeOk(at, sz) && SizeOk(at', sz') && va < USERTOP && !(RoundUp(sz) <= va < RoundUp(sz'))
    ensures SeesTheSame(m0, at[Root], mem, va)
  {
    hide SpaceOk, Translate, SeesTheSame, SamePage;
    RoundUpFacts(sz);
    RoundUpFacts(sz');
    PageOfAddress(va, RoundUp(sz) / PGSIZE);
    PageOfAddress(va, RoundUp(sz') / PGSIZE);
    assert Page0(va) in at' ==> Page0(va) in at;
    if Page0(va) in at {
      assert SamePage(m0, at, mem, at', va / PGSIZE);
      SameNodes(m0, at, mem, at', va / PGSIZE);
    }
    SamePageSeen(m0, at, mem, at', va);
  }

  lemma CopySeen(m0: Mem, at: Space, mem: Mem, d: Space, sz: nat, va: nat)
    requires SpaceOk(m0, at) && SpaceOk(mem, d) && Apart(m0, at, mem, d) && va < USERTOP
    requires SizeOk(at, sz) && SizeOk(d, sz) && CopiedPages(m0, at, mem, d, RoundUp(sz) / PGSIZE)
    ensures Root in at && Root in d && SeesACopy(m0, at[Root], mem, d[Root], va)
  {
    hide SpaceOk, Translate;
    var v := va / PGSIZE;
    TranslateIs(m0, at, va);
    TranslateIs(mem, d, va);
    if Page0(va) in at {
      assert CopiedPage(m0, at, mem, d, v);
      RightsOfFlags(Pte(m0, at, v));
      RightsOfFlags(Pte(mem, d, v));
      assert at[Node(0, v)] in Frames(at) && d[Node(0, v)] in Frames(d);
    }
  }
}
