/**
  The file system calls as far as they move references: descriptors, open files,
  in-memory inodes and path names.

  A kernel panic is an outcome of its own.
 */
module SysFile {
  import opened InodeCache
  import opened PathNames
  import opened References

  const ROOT: Id := Id(1, 1)

  datatype Lookup = Found(slot: nat) | Missing | Panic

  datatype Outcome = Done | Failed | Panicked

  datatype Opening = Opened(fd: nat) | NotOpened | OpenPanic

  // ----- what the calls do with path names

  lemma WalkNowhere(w: World, id: Id)
    ensures Elements("/") == [] && Walk(w, id, [], false) == Some(id)
  {
  }

  // The inode that create gives for a path: the file that is there, or a new inode.
  function Target(w: World, start: Id, path: string, wantFile: bool, newInum: nat): Option<Id> {
    match Walk(w, start, Elements(path), true)
    case None => None
    case Some(d) =>
      match w.lookup(d, Last(Elements(path)))
      case None => Some(Id(d.dev, newInum))
      case Some(n) => if wantFile && w.isFile(Id(d.dev, n)) then Some(Id(d.dev, n)) else None
  }

  // What link does with its two paths.
  predicate Linkable(w: World, a: Id, from: string, b: Id, to: string) {
    var x, d := Walk(w, a, Elements(from), false), Walk(w, b, Elements(to), true);
    && x.Some? && !w.isDir(x.value) && d.Some?
    && d.value.dev == x.value.dev && w.lookup(d.value, Last(Elements(to))) == None
  }

  predicate Unlinkable(w: World, a: Id, path: string) {
    var d, name := Walk(w, a, Elements(path), true), Last(Elements(path));
    && d.Some? && name != "." && name != ".." && w.lookup(d.value, name).Some?
    && var x := Id(d.value.dev, w.lookup(d.value, name).value);
       !w.isDir(x) || w.dirEmpty(x)
  }

  // What create, link and unlink make of a path, in terms of what namei finds: create opens
  // a file that is there and makes what is not, if the parent exists; link wants a name
  // that leads nowhere next to an existing parent; unlink one that leads somewhere, not to
  // a dot and not to a directory with entries.
  lemma TargetIs(w: World, start: Id, path: string, wantFile: bool, newInum: nat)
    ensures var x, d := Walk(w, start, Elements(path), false), Walk(w, start, Elements(path), true);
            Target(w, start, path, wantFile, newInum) ==
            if d.None? then None
            else if x.None? then Some(Id(d.value.dev, newInum))
            else if wantFile && w.isFile(x.value) then x else None
  {
    hide Walk, Elements;
    ParentHasNames(w, start, Elements(path));
    if Elements(path) != [] {
      ParentThenLookup(w, start, Elements(path));
    }
  }

  lemma LinkableIs(w: World, a: Id, from: string, b: Id, to: string)
    ensures var x, y, d := Walk(w, a, Elements(from), false), Walk(w, b, Elements(to), false),
                           Walk(w, b, Elements(to), true);
            Linkable(w, a, from, b, to) <==>
            x.Some? && !w.isDir(x.value) && y.None? && d.Some? && d.value.dev == x.value.dev
  {
    hide Walk, Elements;
    ParentHasNames(w, b, Elements(to));
    if Elements(to) != [] {
      ParentThenLookup(w, b, Elements(to));
    }
  }

  lemma UnlinkableIs(w: World, a: Id, path: string)
    ensures var x, name := Walk(w, a, Elements(path), false), Last(Elements(path));
            Unlinkable(w, a, path) <==>
            && Elements(path) != [] && name != "." && name != ".." && x.Some?
            && (w.isDir(x.value) ==> w.dirEmpty(x.value))
  {
    hide Walk, Elements;
    ParentHasNames(w, a, Elements(path));
    if Elements(path) != [] {
      ParentThenLookup(w, a, Elements(path));
    }
  }

  // A walk that holds h, on top of cache c, comes to an inode that iget panics for.
  ghost predicate Stalls(w: World, c: Cache, h: Id, elems: seq<string>, parent: bool)
    decreases |elems|
  {
    && elems != [] && w.isDir(h) && !(parent && |elems| == 1) && w.lookup(h, elems[0]).Some?
    && var x := Id(h.dev, w.lookup(h, elems[0]).value);
       Blocked(Holding(c, h), x) || Stalls(w, c, x, elems[1..], parent)
  }

  // The exact conditions for the panic of namei, create, unlink and link.
  ghost predicate Stuck(w: World, c: Cache, start: Id, path: string, parent: bool) {
    Blocked(c, start) || Stalls(w, c, start, Elements(path), parent)
  }

  ghost predicate CreateStuck(w: World, c: Cache, start: Id, path: string, newInum: nat) {
    || Stuck(w, c, start, path, true)
    || match Walk(w, start, Elements(path), true)
       case None => false
       case Some(d) =>
         var n := w.lookup(d, Last(Elements(path)));
         Blocked(Holding(c, d), Id(d.dev, if n.Some? then n.value else newInum))
  }

  // The name's inode, if there is one, cannot be fetched.
  ghost predicate EntryStuck(w: World, c: Cache, d: Id, name: string) {
    var n := w.lookup(d, name);
    n.Some? && Blocked(c, Id(d.dev, n.value))
  }

  ghost predicate UnlinkStuck(w: World, c: Cache, start: Id, path: string) {
    || Stuck(w, c, start, path, true)
    || var d, name := Walk(w, start, Elements(path), true), Last(Elements(path));
       d.Some? && name != "." && name != ".." && EntryStuck(w, Holding(c, d.value), d.value, name)
  }

  ghost predicate LinkStuck(w: World, c: Cache, a: Id, from: string, b: Id, to: string) {
    || Stuck(w, c, a, from, false)
    || var x, d := Walk(w, a, Elements(from), false), Walk(w, b, Elements(to), true);
       && x.Some? && !w.isDir(x.value)
       && var c1 := Holding(c, x.value);
          || Stuck(w, c1, b, to, true)
          || (d.Some? && d.value.dev == x.value.dev
              && EntryStuck(w, Holding(c1, d.value), d.value, Last(Elements(to))))
  }

  // Two free slots are enough for everything but link, which needs three.
  lemma {:induction false} NoStall(w: World, c: Cache, h: Id, elems: seq<string>, parent: bool)
    requires c.free >= 2
    ensures !Stalls(w, c, h, elems, parent)
    decreases |elems|
  {
    if elems != [] && w.lookup(h, elems[0]).Some? {
      NoStall(w, c, Id(h.dev, w.lookup(h, elems[0]).value), elems[1..], parent);
    }
  }

  lemma SlotsSuffice(w: World, c: Cache, a: Id, path: string, b: Id, to: string, parent: bool, newInum: nat)
    ensures c.free >= 2 ==>
              !Stuck(w, c, a, path, parent) && !CreateStuck(w, c, a, path, newInum) && !UnlinkStuck(w, c, a, path)
    ensures c.free >= 3 ==> !LinkStuck(w, c, a, path, b, to)
  {
    hide Stalls, Walk, Elements;
    if c.free >= 2 {
      NoStall(w, c, a, Elements(path), parent);
      NoStall(w, c, a, Elements(path), true);
    }
    if c.free >= 3 {
      NoStall(w, c, a, Elements(path), false);
      var x := Walk(w, a, Elements(path), false);
      if x.Some? {
        NoStall(w, Holding(c, x.value), b, Elements(to), true);
      }
    }
  }

  // Every slot of the inode cache is in use: iget panics for any other inode.
  ghost predicate Full(inodes: seq<Inode>) {
    forall j :: 0 <= j < |inodes| ==> inodes[j].ref != 0
  }

  ghost predicate FileFree(files: seq<File>) {
    exists f :: 0 <= f < |files| && files[f].ref == 0
  }

  ghost predicate TwoFilesFree(files: seq<File>) {
    exists f, g :: 0 <= f < g < |files| && files[f].ref == 0 && files[g].ref == 0
  }

  ghost predicate FdFree(ofile: seq<Option<nat>>) {
    exists n :: 0 <= n < |ofile| && ofile[n] == None
  }

  ghost predicate TwoFdsFree(ofile: seq<Option<nat>>) {
    exists m, n :: 0 <= m < n < |ofile| && ofile[m] == None && ofile[n] == None
  }

  lemma BumpBack(s: seq<int>, k: nat, d: int)
    requires k < |s|
    ensures Bump(Bump(s, k, d), k, -d) == s
  {
  }

  // One reference moves from a to b.
  lemma BumpMove(s: seq<int>, a: nat, b: nat)
    requires a < |s| && b < |s|
    ensures Bump(Bump(Bump(s, a, 1), b, 1), a, -1) == Bump(s, b, 1)
  {
  }

  // No reference is owed.
  ghost predicate NoDebt(s: seq<int>) {
    forall k :: 0 <= k < |s| ==> s[k] >= 0
  }

  lemma CwdHeld(t: Tables, p: nat, i: nat)
    requires Ok(t) && Stands(t.procs, p, i) && NoDebt(t.loanI)
    ensures i < |t.inodes| && t.inodes[i].ref >= 1
  {
    ClearCwdOk(t, p, i);
  }

  lemma FdHeld(t: Tables, p: nat, n: nat, f: nat)
    requires Ok(t) && Holds(t.procs, p, n, f) && NoDebt(t.loanF)
    ensures f < |t.files| && t.files[f].ref >= 1
  {
    ClearFdOk(t, p, n, f);
  }

  // Where a path starts.
  ghost function Start(t: Tables, p: nat, path: string): Id
    requires p < |t.procs| && t.procs[p].cwd.Some? && t.procs[p].cwd.value < |t.inodes|
  {
    if path != "" && path[0] == '/' then ROOT else t.inodes[t.procs[p].cwd.value].id
  }

  // A path that begins with a slash is looked up from the root, whoever asks; any other
  // from the current directory of the process.
  lemma PathStarts(t: Tables, p: nat, q: nat, path: string)
    requires At(t, p) && At(t, q)
    ensures path != "" && path[0] == '/' ==> Start(t, p, path) == Start(t, q, path) == Id(1, 1)
    ensures path == "" || path[0] != '/' ==> Start(t, p, path) == t.inodes[t.procs[p].cwd.value].id
  {
  }

  // A process with a current directory.
  ghost predicate At(t: Tables, p: nat) {
    p < |t.procs| && t.procs[p].cwd.Some? && t.procs[p].cwd.value < |t.inodes|
  }

  // Only the inode cache may differ, and what was in use there is still the same inode.
  ghost predicate Kept(t: Tables, t': Tables) {
    && t'.files == t.files && t'.procs == t.procs && t'.loanF == t.loanF && |t'.inodes| == |t.inodes|
       && |t'.loanI| == |t.loanI|
    && forall j :: 0 <= j < |t.inodes| ==> t.inodes[j].ref > 0 ==> t'.inodes[j].id == t.inodes[j].id
  }

  // With one more reference on loan, that inode's count is one higher and no other has
  // changed.
  lemma OneMore(t: Tables, t': Tables, i: nat, j: nat)
    requires Ok(t) && Ok(t') && Kept(t, t') && i < |t.loanI| && t'.loanI == Bump(t.loanI, i, 1) && j < |t.inodes|
    ensures t'.inodes[j].ref == t.inodes[j].ref + if j == i then 1 else 0
  {
    assert InodeOk(t, j) && InodeOk(t', j);
  }

  // And the cache is the one that holds this inode as well.
  lemma OneMoreHeld(t: Tables, t': Tables, i: nat)
    requires Ok(t) && Ok(t') && Kept(t, t') && i < |t.loanI| && t'.loanI == Bump(t.loanI, i, 1)
    ensures i < |t'.inodes| && Summary(t'.inodes) == Holding(Summary(t.inodes), t'.inodes[i].id)
  {
    hide Summary, Holding, FileOk, ProcOk, Bump;
    forall j | 0 <= j < |t.inodes|
      ensures t'.inodes[j].ref == t.inodes[j].ref + if j == i then 1 else 0
    {
      OneMore(t, t', i, j);
    }
    assert InodeOk(t, i);
    forall j | 0 <= j < |t.inodes| && j != i && t.inodes[j].ref > 0
      ensures t'.inodes[j].id != t'.inodes[i].id
    {
      assert Once(t', j, i);
    }
    SummaryMore(t.inodes, t'.inodes, i);
  }

  // Taking a further reference keeps what was in use before.
  lemma KeptOn(t: Tables, t1: Tables, t2: Tables, i: nat)
    requires Ok(t) && Ok(t1) && Kept(t, t1) && i < |t.loanI| && t1.loanI == Bump(t.loanI, i, 1) && Kept(t1, t2)
    ensures Kept(t, t2)
  {
    forall j | 0 <= j < |t.inodes|
      ensures t.inodes[j].ref > 0 ==> t2.inodes[j].id == t.inodes[j].id
    {
      OneMore(t, t1, i, j);
    }
  }

  lemma Boot(t: Tables)
    requires |t.loanF| == |t.files| && |t.loanI| == |t.inodes|
    requires forall f :: 0 <= f < |t.files| ==> t.files[f] == File(NONE, 0, 0) && t.loanF[f] == 0
    requires forall i :: 0 <= i < |t.inodes| ==> t.inodes[i].ref == 0 && t.loanI[i] == 0
    requires forall p :: 0 <= p < |t.procs| ==> |t.procs[p].ofile| == NOFILE && t.procs[p].cwd == None
    requires forall p, n :: 0 <= p < |t.procs| && 0 <= n < NOFILE ==> t.procs[p].ofile[n] == None
    ensures Settled(t)
  {
    forall f | 0 <= f < |t.files| ensures FileOk(t, f) { assert SlotsOf(t.procs, f) == {}; }
    forall i | 0 <= i < |t.inodes| ensures InodeOk(t, i) { assert OpensOf(t.files, i) == {}
                                                          && CwdsOf(t.procs, i) == {}; }
    forall p | 0 <= p < |t.procs| ensures ProcOk(t, p) {}
    forall i, j | 0 <= i < |t.inodes| && 0 <= j < |t.inodes| ensures Once(t, i, j) {}
  }

  class Kernel {
    var files: seq<File>
    var inodes: seq<Inode>
    var procs: seq<Proc>
    ghost var loanF: seq<int>
    ghost var loanI: seq<int>

    ghost function View(): Tables
      reads this
    {
      Tables(files, inodes, procs, loanF, loanI)
    }

    ghost predicate Valid()
      reads this
    {
      Ok(View())
    }

    // Empty tables at boot.
    constructor (nfile: nat, ninode: nat, nproc: nat)
      ensures Settled(View()) && |files| == nfile && |inodes| == ninode && |procs| == nproc
    {
      files, inodes := seq(nfile, _ => File(NONE, 0, 0)), seq(ninode, _ => Inode(Id(0, 0), 0));
      procs := seq(nproc, _ => Proc(seq(NOFILE, _ => None), None));
      loanF, loanI := seq(nfile, _ => 0), seq(ninode, _ => 0);
      new;
      Boot(View());
    }

    // ----- descriptors and files

    method FdAlloc(p: nat, f: nat) returns (fd: Option<nat>)
      requires Valid() && p < |procs| && f < |files|
      modifies `procs, `loanF
      ensures Valid()
      ensures fd.None? ==> View() == old(View()) && forall n :: 0 <= n < |procs[p].ofile| ==> procs[p].ofile[n].Some?
      ensures fd.Some? <==> FdFree(old(procs)[p].ofile)
      ensures fd.Some? ==>
                && fd.value < |old(procs)[p].ofile| && old(procs)[p].ofile[fd.value] == None
                && (forall n :: 0 <= n < fd.value ==> old(procs)[p].ofile[n].Some?)
                && |loanF| == |files| && View() == old(SetFd(View(), p, fd.value, f))
    {
      var n := 0;
      while n < |procs[p].ofile|
        invariant 0 <= n <= |procs[p].ofile| && forall m :: 0 <= m < n ==> procs[p].ofile[m].Some?
      {
        if procs[p].ofile[n] == None {
          SetFdOk(View(), p, n, f);
          ghost var t := SetFd(View(), p, n, f);
          procs := procs[p := procs[p].(ofile := procs[p].ofile[n := Some(f)])];
          loanF := t.loanF;
          return Some(n);
        }
        n := n + 1;
      }
      return None;
    }

    method FileAlloc() returns (f: Option<nat>)
      requires Valid()
      modifies `files, `loanF
      ensures Valid()
      ensures f.None? ==> View() == old(View()) && forall g :: 0 <= g < |files| ==> files[g].ref != 0
      ensures f.Some? <==> FileFree(old(files))
      ensures f.Some? ==>
                && f.value < |old(files)| && old(files)[f.value].ref == 0 && old(files)[f.value].kind == NONE
                   && f.value < |old(loanF)|
                && View() == old(CountFile(View(), f.value, 1))
    {
      var g := 0;
      while g < |files|
        invariant 0 <= g <= |files| && forall h :: 0 <= h < g ==> files[h].ref != 0
      {
        if files[g].ref == 0 {
          assert FileOk(View(), g);
          CountFileOk(View(), g, 1);
          ghost var t := CountFile(View(), g, 1);
          files := files[g := files[g].(ref := 1)];
          loanF := t.loanF;
          assert View() == t;
          return Some(g);
        }
        g := g + 1;
      }
      return None;
    }

    method FileDup(f: nat)
      requires Valid() && f < |files| && files[f].ref >= 1
      modifies `files, `loanF
      ensures Valid() && |loanF| == |files| && View() == old(CountFile(View(), f, 1))
    {
      CountFileOk(View(), f, 1);
      ghost var t := CountFile(View(), f, 1);
      files := files[f := files[f].(ref := files[f].ref + 1)];
      loanF := t.loanF;
    }

    // The caller's reference goes; with the last one goes the file's own reference to
    // its inode.
    method FileClose(f: nat)
      requires Valid() && f < |files| && files[f].ref >= 1
      requires files[f].kind == INODE && files[f].ip < |loanI| ==> loanI[files[f].ip] >= 0
      modifies `files, `inodes, `loanF, `loanI
      ensures Valid() && procs == old(procs) && |files| == old(|files|) && |inodes| == old(|inodes|)
      ensures f < |old(loanF)| && loanF == Bump(old(loanF), f, -1) && loanI == old(loanI)
      ensures forall g :: 0 <= g < |files| && g != f ==> files[g] == old(files)[g]
    {
      ghost var t := View();
      if files[f].ref - 1 > 0 {
        CountFileOk(t, f, -1);
        files := files[f := files[f].(ref := files[f].ref - 1)];
        loanF := CountFile(t, f, -1).loanF;
        assert View() == CountFile(t, f, -1);
        return;
      }
      var ff := files[f];
      RetireOk(t, f);
      files := files[f := ff.(ref := 0, kind := NONE)];
      ghost var t' := Retire(t, f);
      loanF, loanI := t'.loanF, t'.loanI;
      assert View() == t';
      if ff.kind == INODE {
        Iput(ff.ip);
        BumpBack(t.loanI, ff.ip, 1);
      }
    }

    // ----- inodes

    // None is the panic for a cache that has neither the inode nor a free slot.
    method Iget(id: Id) returns (i: Option<nat>)
      requires Valid()
      modifies `inodes, `loanI
      ensures Valid() && Kept(old(View()), View())
      ensures i.None? <==> forall j :: 0 <= j < |old(inodes)| ==>
                             old(inodes)[j].ref != 0 && (old(inodes)[j].ref > 0 ==> old(inodes)[j].id != id)
      ensures i.None? <==> Blocked(Summary(old(inodes)), id)
      ensures i.None? ==> View() == old(View()) && Full(inodes)
      ensures i.Some? ==>
                && i.value < |inodes| && i.value < |old(loanI)| && inodes[i.value].id == id
                && inodes[i.value].ref == old(inodes)[i.value].ref + 1 >= 1
                && loanI == Bump(old(loanI), i.value, 1)
                && forall j :: 0 <= j < |inodes| && j != i.value ==> inodes[j] == old(inodes)[j]
    {
      hide Summary, Blocked;
      BlockedSlots(inodes, id);
      var empty: Option<nat> := None;
      var k := 0;
      while k < |inodes|
        invariant 0 <= k <= |inodes|
        invariant forall j :: 0 <= j < k ==> inodes[j].ref > 0 ==> inodes[j].id != id
        invariant empty.Some? ==> empty.value < |inodes| && inodes[empty.value].ref == 0
        invariant empty.None? ==> forall j :: 0 <= j < k ==> inodes[j].ref != 0
      {
        if inodes[k].ref > 0 && inodes[k].id == id {
          CountInodeOk(View(), k, 1);
          ghost var t := CountInode(View(), k, 1);
          inodes := inodes[k := inodes[k].(ref := inodes[k].ref + 1)];
          loanI := t.loanI;
          assert View() == t;
          return Some(k);
        }
        if empty == None && inodes[k].ref == 0 {
          empty := Some(k);
        }
        k := k + 1;
      }
      if empty == None {
        return None;
      }
      RecycleOk(View(), empty.value, id);
      ghost var t := Recycle(View(), empty.value, id);
      inodes := inodes[empty.value := Inode(id, 1)];
      loanI := t.loanI;
      assert View() == t;
      return empty;
    }

    method Idup(i: nat)
      requires Valid() && i < |inodes| && inodes[i].ref >= 1
      modifies `inodes, `loanI
      ensures Valid() && |loanI| == |inodes| && View() == old(CountInode(View(), i, 1))
    {
      CountInodeOk(View(), i, 1);
      ghost var t := CountInode(View(), i, 1);
      inodes := inodes[i := inodes[i].(ref := inodes[i].ref + 1)];
      loanI := t.loanI;
    }

    // Freeing an inode without links happens here; it does not move references.
    method Iput(i: nat)
      requires Valid() && i < |inodes| && inodes[i].ref >= 1
      modifies `inodes, `loanI
      ensures Valid() && |loanI| == |inodes| && View() == old(CountInode(View(), i, -1))
    {
      CountInodeOk(View(), i, -1);
      ghost var t := CountInode(View(), i, -1);
      inodes := inodes[i := inodes[i].(ref := inodes[i].ref - 1)];
      loanI := t.loanI;
    }

    // ----- path names

    // Exactly one new reference, on the inode found; none if there is none.
    method Namex(p: nat, path: string, parent: bool, w: World) returns (r: Lookup, name: string)
      requires Valid() && At(View(), p) && NoDebt(loanI)
      modifies `inodes, `loanI
      ensures Valid() && Kept(old(View()), View())
      ensures r.Panic? <==> Stuck(w, Summary(old(inodes)), old(Start(View(), p, path)), path, parent)
      ensures r.Panic? ==> Full(inodes)
      ensures r.Missing? ==> loanI == old(loanI) && Walk(w, old(Start(View(), p, path)), Elements(path), parent) == None
      ensures r.Found? ==>
                && r.slot < |inodes| && r.slot < |old(loanI)| && loanI == Bump(old(loanI), r.slot, 1)
                   && inodes[r.slot].ref >= 1
                && Walk(w, old(Start(View(), p, path)), Elements(path), parent) == Some(inodes[r.slot].id)
                && (parent ==> Elements(path) != [] && name == Last(Elements(path)))
      ensures !r.Panic? && path != "" && path[0] == '/' ==>
                Walk(w, Id(1, 1), Elements(path), parent) == if r.Found? then Some(inodes[r.slot].id) else None
      ensures !r.Panic? && (path == "" || path[0] != '/') ==>
                Walk(w, old(inodes[procs[p].cwd.value].id), Elements(path), parent) ==
                if r.Found? then Some(inodes[r.slot].id) else None
    {
      hide Ok, Elements, Walk;
      ghost var t := View();
      var ip: nat;
      if path != "" && path[0] == '/' {
        var i := Iget(ROOT);
        if i.None? {
          return Panic, "";
        }
        ip := i.value;
      } else {
        ip := procs[p].cwd.value;
        CwdHeld(View(), p, ip);
        UsedSlot(inodes, ip);
        Idup(ip);
      }
      r, name := NamexFrom(ip, path, parent, w, t);
    }

    // namex's loop, with a reference to ip0 in hand that was not there in t.
    method NamexFrom(ip0: nat, path: string, parent: bool, w: World, ghost t: Tables) returns (r: Lookup, name: string)
      requires Valid() && Ok(t) && Kept(t, View())
      requires ip0 < |inodes| && inodes[ip0].ref >= 1 && ip0 < |t.loanI| && loanI == Bump(t.loanI, ip0, 1)
      modifies `inodes, `loanI
      ensures Valid() && Kept(t, View())
      ensures r.Panic? <==> Stalls(w, Summary(t.inodes), old(inodes)[ip0].id, Elements(path), parent)
      ensures r.Panic? ==> Full(inodes)
      ensures r.Missing? ==> loanI == t.loanI && Walk(w, old(inodes)[ip0].id, Elements(path), parent) == None
      ensures r.Found? ==>
                && r.slot < |inodes| && r.slot < |t.loanI| && loanI == Bump(t.loanI, r.slot, 1)
                   && inodes[r.slot].ref >= 1
                && Walk(w, old(inodes)[ip0].id, Elements(path), parent) == Some(inodes[r.slot].id)
                && (parent ==> Elements(path) != [] && name == Last(Elements(path)))
    {
      hide Ok, Elements, Bump, Kept;
      r, name := Missing, "";
      ghost var c := Summary(t.inodes);
      ghost var goal := Walk(w, inodes[ip0].id, Elements(path), parent);
      ghost var stalls := Stalls(w, c, inodes[ip0].id, Elements(path), parent);
      var ip: nat, s := ip0, path;
      while true
        invariant Valid() && Kept(t, View()) && ip < |inodes| && ip < |t.loanI| && inodes[ip].ref >= 1
                  && loanI == Bump(t.loanI, ip, 1)
        invariant Walk(w, inodes[ip].id, Elements(s), parent) == goal
        invariant Stalls(w, c, inodes[ip].id, Elements(s), parent) <==> stalls
        invariant Elements(s) != [] ==> Elements(path) != [] && Last(Elements(s)) == Last(Elements(path))
        decreases |s|
      {
        ghost var t1 := View();
        var rest;
        rest, name := SkipElem(s);
        if rest.None? {
          break;
        }
        LastOf(name, Elements(rest.value));
        if !w.isDir(inodes[ip].id) {
          PutBack(ip, t);
          return Missing, name;
        }
        if parent && rest.value == "" {
          return Found(ip), name;
        }
        var n := w.lookup(inodes[ip].id, name);
        if n.None? {
          PutBack(ip, t);
          return Missing, name;
        }
        OneMoreHeld(t, t1, ip);
        var next := Iget(Id(inodes[ip].id.dev, n.value));
        KeptOn(t, t1, View(), ip);
        KeptSize(t1, View());
        if next.None? {
          return Panic, name;
        }
        ghost var t2 := View();
        Iput(ip);
        KeptCount(t, t2, ip);
        BumpMove(t.loanI, ip, next.value);
        ip, s := next.value, rest.value;
      }
      if parent {
        PutBack(ip, t);
        return Missing, name;
      }
      return Found(ip), name;
    }

    // Gives back the one reference taken since t.
    method PutBack(ip: nat, ghost t: Tables)
      requires Valid() && Kept(t, View()) && ip < |inodes| && inodes[ip].ref >= 1 && ip < |t.loanI|
               && loanI == Bump(t.loanI, ip, 1)
      modifies `inodes, `loanI
      ensures Valid() && Kept(t, View()) && loanI == t.loanI
    {
      ghost var t1 := View();
      Iput(ip);
      KeptCount(t, t1, ip);
      BumpBack(t.loanI, ip, 1);
    }

    // ----- system calls

    // A valid descriptor of process p.
    predicate Arg(p: nat, fd: int)
      reads this
    {
      p < |procs| && 0 <= fd < |procs[p].ofile| && procs[p].ofile[fd].Some?
    }

    method Dup(p: nat, fd: int) returns (r: Option<nat>)
      requires Settled(View()) && p < |procs|
      modifies `files, `procs, `loanF
      ensures Settled(View())
      ensures r.None? ==> View() == old(View())
      ensures r.Some? ==>
                && old(Arg(p, fd)) && r.value < |old(procs)[p].ofile| && old(procs)[p].ofile[r.value] == None
                && var x := old(procs)[p];
                   procs == old(procs)[p := x.(ofile := x.ofile[r.value := x.ofile[fd]])]
      ensures r.Some? <==>
                old(Arg(p, fd)) && exists n :: 0 <= n < |old(procs)[p].ofile| && old(procs)[p].ofile[n] == None
    {
      if !Arg(p, fd) {
        return None;
      }
      var f := procs[p].ofile[fd].value;
      FdHeld(View(), p, fd, f);
      r := FdAlloc(p, f);
      if r.None? {
        return;
      }
      FileDup(f);
      BumpBack(old(loanF), f, -1);
    }

    method Close(p: nat, fd: int) returns (ok: bool)
      requires Settled(View()) && p < |procs|
      modifies `files, `inodes, `procs, `loanF, `loanI
      ensures Settled(View()) && ok == old(Arg(p, fd))
      ensures !ok ==> View() == old(View())
      ensures ok ==> procs == old(procs)[p := old(procs)[p].(ofile := old(procs)[p].ofile[fd := None])]
    {
      if !Arg(p, fd) {
        return false;
      }
      var f := procs[p].ofile[fd].value;
      FdHeld(View(), p, fd, f);
      FdClear(p, fd, f);
      FileClose(f);
      BumpBack(old(loanF), f, 1);
      return true;
    }

    // Two files, or none.
    method PipeAlloc() returns (r: Option<(nat, nat)>)
      requires Valid() && NoDebt(loanI)
      modifies `files, `inodes, `loanF, `loanI
      ensures Valid() && procs == old(procs) && loanI == old(loanI) && |inodes| == old(|inodes|)
              && |files| == old(|files|)
      ensures r.None? ==> loanF == old(loanF)
      ensures r.Some? <==> TwoFilesFree(old(files))
      ensures r.Some? ==>
                && var f0, f1 := r.value.0, r.value.1;
                && f0 < |files| == |old(loanF)| && f1 < |files| && f0 != f1
                   && loanF == Bump(Bump(old(loanF), f0, 1), f1, 1)
                && files[f0].kind == PIPE && files[f1].kind == PIPE && files[f0].ref >= 1 && files[f1].ref >= 1
    {
      hide Ok;
      Sizes(View());
      ghost var loans := loanF;
      var f0 := FileAlloc();
      if f0.None? {
        return None;
      }
      ghost var one := files;
      var f1 := FileAlloc();
      if f1.None? {
        assert forall g :: 0 <= g < |files| && g != f0.value ==> old(files)[g] == one[g];
        FileClose(f0.value);
        BumpBack(loans, f0.value, 1);
        return None;
      }
      BecomePipe(f0.value);
      BecomePipe(f1.value);
      return Some((f0.value, f1.value));
    }

    method FdClear(p: nat, fd: nat, f: nat)
      requires Valid() && Holds(procs, p, fd, f)
      modifies `procs, `loanF
      ensures Valid() && f < |old(loanF)| && View() == old(ClearFd(View(), p, fd, f))
    {
      ClearFdOk(View(), p, fd, f);
      ghost var t := ClearFd(View(), p, fd, f);
      procs := procs[p := procs[p].(ofile := procs[p].ofile[fd := None])];
      loanF := t.loanF;
    }

    // sys_pipe: two descriptors, or nothing.
    method Pipe(p: nat) returns (r: Option<(nat, nat)>)
      requires Settled(View()) && p < |procs|
      modifies `files, `inodes, `procs, `loanF, `loanI
      ensures Settled(View()) && |procs| == old(|procs|)
      ensures r.None? ==> procs == old(procs)
      ensures r.Some? <==> TwoFilesFree(old(files)) && TwoFdsFree(old(procs)[p].ofile)
      ensures r.Some? ==> r.value.0 < r.value.1 && Arg(p, r.value.0) && Arg(p, r.value.1)
    {
      hide Ok;
      Sizes(View());
      ghost var loans := loanF;
      var both := PipeAlloc();
      if both.None? {
        return None;
      }
      var f0, f1 := both.value.0, both.value.1;
      ghost var out := loanF;
      var fd0 := FdAlloc(p, f0);
      if fd0.None? {
        DropBoth(f0, f1, loans);
        return None;
      }
      var fd1 := FdAlloc(p, f1);
      if fd1.None? {
        FdClear(p, fd0.value, f0);
        BumpBack(out, f0, -1);
        DropBoth(f0, f1, loans);
        assert procs[p].ofile == old(procs)[p].ofile;
        assert procs == old(procs);
        return None;
      }
      BumpPair(loans, f0, f1);
      return Some((fd0.value, fd1.value));
    }

    method BecomePipe(f: nat)
      requires Valid() && f < |files| && files[f].kind == NONE && files[f].ref >= 1
      modifies `files
      ensures Valid() && View() == old(View()).(files := old(files)[f := old(files)[f].(kind := PIPE)])
    {
      BecomeOk(View(), f, PIPE, files[f].ip);
      files := files[f := files[f].(kind := PIPE)];
    }

    method DropBoth(f0: nat, f1: nat, ghost loans: seq<int>)
      requires Valid() && f0 < |files| && f1 < |files| && f0 != f1 && |loans| == |files|
               && loanF == Bump(Bump(loans, f0, 1), f1, 1)
      requires files[f0].kind == PIPE && files[f1].kind == PIPE && files[f0].ref >= 1 && files[f1].ref >= 1
      modifies `files, `inodes, `loanF, `loanI
      ensures Valid() && procs == old(procs) && loanF == loans && loanI == old(loanI) && |inodes| == old(|inodes|)
              && |files| == old(|files|)
    {
      FileClose(f0);
      FileClose(f1);
      assert loanF == loans;
    }

    method Chdir(p: nat, path: string, w: World) returns (r: Outcome)
      requires Settled(View()) && At(View(), p)
      modifies `inodes, `procs, `loanI
      ensures r != Panicked ==> Settled(View()) && At(View(), p)
      ensures r == Panicked <==> Stuck(w, Summary(old(inodes)), old(Start(View(), p, path)), path, false)
      ensures r == Panicked ==> Full(inodes)
      ensures r == Failed ==> procs == old(procs)
      ensures var goal := Walk(w, old(Start(View(), p, path)), Elements(path), false);
              && (r == Done ==> goal.Some? && w.isDir(goal.value) && inodes[procs[p].cwd.value].id == goal.value)
              && (r == Failed ==> goal.None? || !w.isDir(goal.value))
      ensures path == "/" && r != Panicked ==> (r == Done <==> w.isDir(Id(1, 1)))
      ensures path == "/" && r == Done ==> inodes[procs[p].cwd.value].id == Id(1, 1)
    {
      WalkNowhere(w, Id(1, 1));
      hide Ok, Walk, Elements;
      Sizes(View());
      ghost var loans := loanI;
      var ip, name := Namex(p, path, false, w);
      if ip.Panic? {
        return Panicked;
      }
      if ip.Missing? {
        return Failed;
      }
      if !w.isDir(inodes[ip.slot].id) {
        Iput(ip.slot);
        BumpBack(loans, ip.slot, 1);
        return Failed;
      }
      var c := procs[p].cwd.value;
      CwdHeld(View(), p, c);
      Iput(c);
      ClearCwdOk(View(), p, c);
      SetCwdOk(ClearCwd(View(), p, c), p, ip.slot);
      ghost var t := SetCwd(ClearCwd(View(), p, c), p, ip.slot);
      procs := procs[p := procs[p].(cwd := Some(ip.slot))];
      loanI := t.loanI;
      assert procs == t.procs;
      assert View() == t;
      BumpExchange(loans, ip.slot, c);
      return Done;
    }

    // create: nameiparent, then the inode the last name stands for, or a new one with
    // the number `newInum` that ialloc finds.
    method Create(p: nat, path: string, wantFile: bool, newInum: nat, w: World) returns (r: Lookup)
      requires Valid() && At(View(), p) && NoDebt(loanI)
      modifies `inodes, `loanI
      ensures Valid() && files == old(files) && procs == old(procs) && loanF == old(loanF) && |inodes| == old(|inodes|)
              && |loanI| == old(|loanI|)
      ensures r.Panic? <==> CreateStuck(w, Summary(old(inodes)), old(Start(View(), p, path)), path, newInum)
      ensures r.Panic? ==> Full(inodes)
      ensures r.Missing? ==>
                loanI == old(loanI) && Target(w, old(Start(View(), p, path)), path, wantFile, newInum) == None
      ensures r.Found? ==>
                && r.slot < |inodes| && r.slot < |old(loanI)| && loanI == Bump(old(loanI), r.slot, 1)
                   && inodes[r.slot].ref >= 1
                && Target(w, old(Start(View(), p, path)), path, wantFile, newInum) == Some(inodes[r.slot].id)
    {
      hide Ok, Walk, Elements, Bump, Full, Summary, Holding, Blocked, Stuck;
      ghost var t, loans := View(), loanI;
      var dp, name := Namex(p, path, true, w);
      if !dp.Found? {
        return dp;
      }
      var n := w.lookup(inodes[dp.slot].id, name);
      OneMoreHeld(t, View(), dp.slot);
      var i := Iget(Id(inodes[dp.slot].id.dev, if n.Some? then n.value else newInum));
      if i.None? {
        return Panic;
      }
      Iput(dp.slot);
      BumpMove(loans, dp.slot, i.value);
      if n.Some? && !(wantFile && w.isFile(inodes[i.value].id)) {
        Iput(i.value);
        BumpBack(loans, i.value, 1);
        return Missing;
      }
      return Found(i.value);
    }

    // The second half of sys_open: a file and a descriptor for the inode in hand.
    method OpenInode(p: nat, i: nat, ghost loans: seq<int>) returns (fd: Option<nat>)
      requires Valid() && p < |procs| && i < |inodes| && i < |loans| && inodes[i].ref >= 1 && loanI == Bump(loans, i, 1)
      requires NoDebt(loans)
      modifies `files, `inodes, `procs, `loanF, `loanI
      ensures Valid() && loanF == old(loanF) && loanI == loans && |procs| == old(|procs|)
      ensures fd.None? ==> procs == old(procs)
      ensures fd.Some? <==> FileFree(old(files)) && FdFree(old(procs)[p].ofile)
      ensures fd.Some? ==> Arg(p, fd.value) && procs[p].ofile[fd.value].value < |files|
                           && files[procs[p].ofile[fd.value].value] == File(INODE, 1, i)
                           && i < |inodes| && inodes[i].id == old(inodes)[i].id
    {
      hide Ok;
      Sizes(View());
      ghost var outF := loanF;
      var f := FileAlloc();
      if f.None? {
        Iput(i);
        BumpBack(loans, i, 1);
        return None;
      }
      fd := FdAlloc(p, f.value);
      if fd.None? {
        FileClose(f.value);
        BumpBack(outF, f.value, 1);
        StillHeld(View(), i);
        Iput(i);
        BumpBack(loans, i, 1);
        return None;
      }
      BumpBack(outF, f.value, 1);
      BecomeOk(View(), f.value, INODE, i);
      ghost var t := Become(View(), f.value, INODE, i);
      files := files[f.value := files[f.value].(kind := INODE, ip := i)];
      loanI := t.loanI;
      assert View() == t;
      BumpBack(loans, i, 1);
    }

    method Open(p: nat, path: string, create: bool, readOnly: bool, newInum: nat, w: World) returns (r: Opening)
      requires Settled(View()) && At(View(), p)
      modifies `files, `inodes, `procs, `loanF, `loanI
      ensures !r.OpenPanic? ==> Settled(View()) && |procs| == old(|procs|)
      ensures r.OpenPanic? <==>
                if create then CreateStuck(w, Summary(old(inodes)), old(Start(View(), p, path)), path, newInum)
                else Stuck(w, Summary(old(inodes)), old(Start(View(), p, path)), path, false)
      ensures r.OpenPanic? ==> Full(inodes)
      ensures r.NotOpened? ==> procs == old(procs)
      ensures var goal := if create then Target(w, old(Start(View(), p, path)), path, true, newInum)
                          else Walk(w, old(Start(View(), p, path)), Elements(path), false);
              !r.OpenPanic? ==>
                (r.Opened? <==>
                 && goal.Some? && (create || readOnly || !w.isDir(goal.value))
                 && FileFree(old(files)) && FdFree(old(procs)[p].ofile))
      ensures var goal := if create then Target(w, old(Start(View(), p, path)), path, true, newInum)
                          else Walk(w, old(Start(View(), p, path)), Elements(path), false);
              r.Opened? ==>
                && Arg(p, r.fd) && procs[p].ofile[r.fd].value < |files|
                && var f := files[procs[p].ofile[r.fd].value];
                && f.kind == INODE && f.ip < |inodes| && goal == Some(inodes[f.ip].id)
                && (create || readOnly || !w.isDir(goal.value))
    {
      hide Ok, Walk, Elements;
      Sizes(View());
      ghost var loans := loanI;
      var ip;
      if create {
        ip := Create(p, path, true, newInum, w);
      } else {
        var name;
        ip, name := Namex(p, path, false, w);
        if ip.Found? && w.isDir(inodes[ip.slot].id) && !readOnly {
          Iput(ip.slot);
          BumpBack(loans, ip.slot, 1);
          return NotOpened;
        }
      }
      if ip.Panic? {
        return OpenPanic;
      }
      if ip.Missing? {
        return NotOpened;
      }
      var fd := OpenInode(p, ip.slot, loans);
      Sizes(View());
      return if fd.Some? then Opened(fd.value) else NotOpened;
    }

    // mkdir and mknod: create, then let go.
    method Make(p: nat, path: string, newInum: nat, w: World) returns (r: Outcome)
      requires Settled(View()) && At(View(), p)
      modifies `inodes, `loanI
      ensures r == Panicked <==> CreateStuck(w, Summary(old(inodes)), old(Start(View(), p, path)), path, newInum)
      ensures r == Panicked ==> Full(inodes)
      ensures r != Panicked ==> Settled(View()) && procs == old(procs)
      ensures r != Panicked ==> (r == Done <==> Target(w, old(Start(View(), p, path)), path, false, newInum).Some?)
    {
      hide Ok, Target;
      Sizes(View());
      ghost var loans := loanI;
      var ip := Create(p, path, false, newInum, w);
      if ip.Panic? {
        return Panicked;
      }
      if ip.Missing? {
        return Failed;
      }
      Iput(ip.slot);
      BumpBack(loans, ip.slot, 1);
      return Done;
    }

    // sys_link: two inodes are looked up and let go on every path.
    method Link(p: nat, from: string, to: string, w: World) returns (r: Outcome)
      requires Settled(View()) && At(View(), p)
      modifies `inodes, `loanI
      ensures r == Panicked <==>
                LinkStuck(w, Summary(old(inodes)), old(Start(View(), p, from)), from, old(Start(View(), p, to)), to)
      ensures r == Panicked ==> Full(inodes)
      ensures r != Panicked ==> Settled(View()) && procs == old(procs)
      ensures r != Panicked ==>
                (r == Done <==> Linkable(w, old(Start(View(), p, from)), from, old(Start(View(), p, to)), to))
    {
      hide Ok, Walk, Elements, Summary, Holding, Stuck, EntryStuck, Full, Bump;
      Sizes(View());
      ghost var t := View();
      var ip, name := Namex(p, from, false, w);
      if ip.Panic? {
        return Panicked;
      }
      if ip.Missing? {
        return Failed;
      }
      if w.isDir(inodes[ip.slot].id) {
        PutBack(ip.slot, t);
        return Failed;
      }
      CwdHeld(t, p, procs[p].cwd.value);
      r := LinkInto(p, ip.slot, to, w, t);
    }

    // The second half of sys_link: with the inode in hand, the directory and the name.
    method LinkInto(p: nat, ip: nat, to: string, w: World, ghost t: Tables) returns (r: Outcome)
      requires Settled(t) && At(t, p) && Valid() && Kept(t, View()) && ip < |inodes| && ip < |t.loanI|
      requires inodes[ip].ref >= 1 && loanI == Bump(t.loanI, ip, 1)
      requires t.inodes[t.procs[p].cwd.value].ref >= 1
      modifies `inodes, `loanI
      ensures var x, b := old(inodes)[ip].id, Start(t, p, to);
              var c, d := Holding(Summary(t.inodes), x), Walk(w, b, Elements(to), true);
              && (r == Panicked <==>
                  Stuck(w, c, b, to, true)
                  || (d.Some? && d.value.dev == x.dev
                      && EntryStuck(w, Holding(c, d.value), d.value, Last(Elements(to)))))
              && (r != Panicked ==>
                  (r == Done <==> d.Some? && d.value.dev == x.dev && w.lookup(d.value, Last(Elements(to))) == None))
      ensures r == Panicked ==> Full(inodes)
      ensures r != Panicked ==> Settled(View()) && procs == old(procs)
    {
      hide Ok, Walk, Elements, Summary, Holding, Stuck, EntryStuck;
      Sizes(t);
      ghost var t1 := View();
      OneMoreHeld(t, t1, ip);
      var dp, name := Namex(p, to, true, w);
      KeptOn(t, t1, View(), ip);
      if dp.Panic? {
        return Panicked;
      }
      r := Failed;
      if dp.Found? {
        OneMoreHeld(t1, View(), dp.slot);
        if inodes[dp.slot].id.dev == inodes[ip].id.dev {
          r := DirLink(dp.slot, name, w);
          if r == Panicked {
            return;
          }
        }
        StillHeld(View(), dp.slot);
        Iput(dp.slot);
        BumpBack(t1.loanI, dp.slot, 1);
      }
      StillHeld(View(), ip);
      Iput(ip);
      BumpBack(t.loanI, ip, 1);
    }

    // dirlink looks the name up first, and lets go of what it finds.
    method DirLink(dp: nat, name: string, w: World) returns (r: Outcome)
      requires Valid() && dp < |inodes|
      modifies `inodes, `loanI
      ensures Valid() && Kept(old(View()), View())
      ensures r == Panicked <==> EntryStuck(w, Summary(old(inodes)), old(inodes)[dp].id, name)
      ensures r == Panicked ==> Full(inodes)
      ensures r != Panicked ==> loanI == old(loanI)
      ensures r != Panicked ==> (r == Done <==> w.lookup(old(inodes)[dp].id, name) == None)
    {
      hide Ok;
      ghost var loans := loanI;
      var n := w.lookup(inodes[dp].id, name);
      if n.None? {
        return Done;
      }
      var i := Iget(Id(inodes[dp].id.dev, n.value));
      if i.None? {
        return Panicked;
      }
      Iput(i.value);
      BumpBack(loans, i.value, 1);
      return Failed;
    }

    // sys_unlink: a directory goes only if it is empty.
    method Unlink(p: nat, path: string, w: World) returns (r: Outcome)
      requires Settled(View()) && At(View(), p)
      modifies `inodes, `loanI
      ensures r == Panicked <==> UnlinkStuck(w, Summary(old(inodes)), old(Start(View(), p, path)), path)
      ensures r == Panicked ==> Full(inodes)
      ensures r != Panicked ==> Settled(View()) && procs == old(procs)
      ensures r != Panicked ==> (r == Done <==> Unlinkable(w, old(Start(View(), p, path)), path))
    {
      hide Ok, Walk, Elements;
      Sizes(View());
      ghost var t, loans := View(), loanI;
      var dp, name := Namex(p, path, true, w);
      if dp.Panic? {
        return Panicked;
      }
      if dp.Missing? {
        return Failed;
      }
      var n := w.lookup(inodes[dp.slot].id, name);
      if name == "." || name == ".." || n.None? {
        Iput(dp.slot);
        BumpBack(loans, dp.slot, 1);
        return Failed;
      }
      OneMoreHeld(t, View(), dp.slot);
      var i := Iget(Id(inodes[dp.slot].id.dev, n.value));
      if i.None? {
        return Panicked;
      }
      if w.isDir(inodes[i.value].id) && !w.dirEmpty(inodes[i.value].id) {
        PutTwo(i.value, dp.slot, Bump(loans, dp.slot, 1), loans);
        return Failed;
      }
      BumpSwap(loans, dp.slot, i.value);
      PutTwo(dp.slot, i.value, Bump(loans, i.value, 1), loans);
      return Done;
    }

    // Two iputs, of the references on top of `below` and then of `bottom`.
    method PutTwo(i: nat, j: nat, ghost below: seq<int>, ghost bottom: seq<int>)
      requires Valid() && NoDebt(bottom) && |bottom| == |inodes| && i < |inodes| && j < |inodes|
      requires below == Bump(bottom, j, 1) && loanI == Bump(below, i, 1)
      modifies `inodes, `loanI
      ensures Valid() && loanI == bottom && |inodes| == old(|inodes|)
    {
      hide Ok;
      StillHeld(View(), i);
      Iput(i);
      BumpBack(below, i, 1);
      StillHeld(View(), j);
      Iput(j);
      BumpBack(bottom, j, 1);
    }


    // ----- processes

    ghost predicate Blank(p: nat)
      reads this
    {
      p < |procs| && procs[p].cwd == None && forall n :: 0 <= n < |procs[p].ofile| ==> procs[p].ofile[n] == None
    }

    // fork's copy of the descriptors and the current directory to a new process.
    method Fork(p: nat, np: nat)
      requires Settled(View()) && At(View(), p) && Blank(np)
      modifies `files, `inodes, `procs, `loanF, `loanI
      ensures Settled(View()) && procs == old(procs)[np := old(procs)[p]]
    {
      hide Ok;
      Widths(View(), p, np);
      ghost var loans := loanF;
      var n := 0;
      while n < NOFILE
        invariant 0 <= n <= NOFILE && Settled(View()) && |procs| == old(|procs|) && inodes == old(inodes)
        invariant loanF == loans && loanI == old(loanI)
        invariant |procs[np].ofile| == NOFILE && procs[np].cwd == None && procs == old(procs)[np := procs[np]]
        invariant forall m :: 0 <= m < NOFILE ==> procs[np].ofile[m] == if m < n then procs[p].ofile[m] else None
      {
        if procs[p].ofile[n].Some? {
          var f := procs[p].ofile[n].value;
          FdHeld(View(), p, n, f);
          FileDup(f);
          SetFdOk(View(), np, n, f);
          ghost var t := SetFd(View(), np, n, f);
          procs := procs[np := procs[np].(ofile := procs[np].ofile[n := Some(f)])];
          loanF := t.loanF;
          assert View() == t;
          BumpBack(loans, f, 1);
        }
        n := n + 1;
      }
      assert procs[np].ofile == procs[p].ofile;
      var c := procs[p].cwd.value;
      CwdHeld(View(), p, c);
      Idup(c);
      SetCwdOk(View(), np, c);
      ghost var t := SetCwd(View(), np, c);
      procs := procs[np := procs[np].(cwd := procs[p].cwd)];
      loanI := t.loanI;
      assert View() == t;
      BumpBack(old(loanI), c, 1);
      assert procs[np] == procs[p];
    }

    // exit closes every descriptor and gives up the current directory.
    method Exit(p: nat)
      requires Settled(View()) && At(View(), p)
      modifies `files, `inodes, `procs, `loanF, `loanI
      ensures Settled(View()) && |procs| == old(|procs|) && Blank(p)
      ensures forall q :: 0 <= q < |procs| && q != p ==> procs[q] == old(procs)[q]
    {
      hide Ok;
      Widths(View(), p, p);
      var n := 0;
      while n < NOFILE
        invariant 0 <= n <= NOFILE && Settled(View()) && |procs| == old(|procs|) && |procs[p].ofile| == NOFILE
        invariant procs[p].cwd == old(procs)[p].cwd && At(View(), p)
        invariant forall m :: 0 <= m < n ==> procs[p].ofile[m] == None
        invariant forall q :: 0 <= q < |procs| && q != p ==> procs[q] == old(procs)[q]
      {
        if procs[p].ofile[n].Some? {
          CloseOne(p, n);
        }
        n := n + 1;
      }
      var c := procs[p].cwd.value;
      ghost var loans := loanI;
      Sizes(View());
      CwdHeld(View(), p, c);
      Iput(c);
      ClearCwdOk(View(), p, c);
      ghost var t := ClearCwd(View(), p, c);
      procs := procs[p := procs[p].(cwd := None)];
      loanI := t.loanI;
      assert View() == t;
      BumpBack(loans, c, -1);
    }

    // exit closes the file before it empties the slot.
    method CloseOne(p: nat, n: nat)
      requires Settled(View()) && At(View(), p) && n < |procs[p].ofile| && procs[p].ofile[n].Some?
      modifies `files, `inodes, `procs, `loanF, `loanI
      ensures Settled(View()) && At(View(), p)
              && procs == old(procs)[p := old(procs)[p].(ofile := old(procs)[p].ofile[n := None])]
    {
      hide Ok;
      Sizes(View());
      ghost var loans := loanF;
      var f := procs[p].ofile[n].value;
      FdHeld(View(), p, n, f);
      FileClose(f);
      FdClear(p, n, f);
      BumpBack(loans, f, -1);
    }
  }

  lemma Widths(t: Tables, p: nat, q: nat)
    requires Ok(t) && p < |t.procs| && q < |t.procs|
    ensures |t.procs[p].ofile| == NOFILE && |t.procs[q].ofile| == NOFILE && |t.loanF| == |t.files|
            && |t.loanI| == |t.inodes|
  {
    assert ProcOk(t, p) && ProcOk(t, q);
  }

  // An inode with a reference on loan has a positive count.
  lemma StillHeld(t: Tables, i: nat)
    requires Ok(t) && i < |t.inodes| && i < |t.loanI| && t.loanI[i] >= 1
    ensures t.inodes[i].ref >= 1
  {
    assert InodeOk(t, i);
  }

  // A current directory changes: one reference in, one out.
  lemma BumpExchange(s: seq<int>, i: nat, c: nat)
    requires i < |s| && c < |s|
    ensures Bump(Bump(Bump(Bump(s, i, 1), c, -1), c, 1), i, -1) == s
  {
  }

  lemma KeptSize(t: Tables, t': Tables)
    requires Kept(t, t')
    ensures |t'.inodes| == |t.inodes|
  {
  }

  lemma KeptCount(t: Tables, t1: Tables, i: nat)
    requires Kept(t, t1) && i < |t1.inodes| && i < |t1.loanI|
    ensures Kept(t, CountInode(t1, i, -1))
  {
  }

  lemma LastOf(name: string, rest: seq<string>)
    ensures Last([name] + rest) == if rest == [] then name else Last(rest)
  {
  }

  lemma BumpSwap(s: seq<int>, a: nat, b: nat)
    requires a < |s| && b < |s|
    ensures Bump(Bump(s, a, 1), b, 1) == Bump(Bump(s, b, 1), a, 1)
  {
  }

  lemma BumpPair(s: seq<int>, a: nat, b: nat)
    requires a < |s| && b < |s|
    ensures Bump(Bump(Bump(Bump(s, a, 1), b, 1), a, -1), b, -1) == s
  {
  }

  lemma Sizes(t: Tables)
    requires Ok(t)
    ensures |t.loanF| == |t.files| && |t.loanI| == |t.inodes|
  {
  }
}
