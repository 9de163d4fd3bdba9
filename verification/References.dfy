/**
  Reference counts of open files and in-memory inodes.

  Between system calls a file's count is the number of descriptor slots that hold it,
  and an inode's count is the number of open files and current directories that use
  it.  Inside a call the kernel may hold references of its own; `loanF` and `loanI`
  count those, and are zero again when the call returns, whatever it returns.  A loan
  is negative while a descriptor has been set before the count was raised.
 */
module References {

  const NOFILE: nat := 16

  datatype Option<T> = None | Some(value: T)

  datatype Kind = NONE | PIPE | INODE

  datatype Id = Id(dev: nat, inum: nat)

  datatype File = File(kind: Kind, ref: int, ip: nat)

  datatype Inode = Inode(id: Id, ref: int)

  datatype Proc = Proc(ofile: seq<Option<nat>>, cwd: Option<nat>)

  datatype Fd = Fd(proc: nat, n: nat)

  datatype Tables = Tables(files: seq<File>, inodes: seq<Inode>, procs: seq<Proc>, loanF: seq<int>, loanI: seq<int>)

  // ----- who holds what

  ghost predicate Holds(procs: seq<Proc>, p: nat, n: nat, f: nat) {
    p < |procs| && n < |procs[p].ofile| && procs[p].ofile[n] == Some(f)
  }

  // The descriptor slots that hold file f.
  ghost function SlotsOf(procs: seq<Proc>, f: nat): (r: set<Fd>)
    ensures forall s :: s in r <==> Holds(procs, s.proc, s.n, f)
  {
    set p, n | 0 <= p < |procs| && 0 <= n < |procs[p].ofile| && Holds(procs, p, n, f) :: Fd(p, n)
  }

  ghost predicate Uses(files: seq<File>, f: nat, i: nat) {
    f < |files| && files[f].kind == INODE && files[f].ip == i
  }

  // The open files on inode i.
  ghost function OpensOf(files: seq<File>, i: nat): (r: set<nat>)
    ensures forall f :: f in r <==> Uses(files, f, i)
  {
    set f | 0 <= f < |files| && Uses(files, f, i)
  }

  ghost predicate Stands(procs: seq<Proc>, p: nat, i: nat) {
    p < |procs| && procs[p].cwd == Some(i)
  }

  // The processes whose current directory is inode i.
  ghost function CwdsOf(procs: seq<Proc>, i: nat): (r: set<nat>)
    ensures forall p :: p in r <==> Stands(procs, p, i)
  {
    set p | 0 <= p < |procs| && Stands(procs, p, i)
  }

  ghost predicate FileOk(t: Tables, f: nat)
    requires f < |t.files| == |t.loanF|
  {
    && t.files[f].ref == |SlotsOf(t.procs, f)| + t.loanF[f] && t.files[f].ref >= 0
    && (t.files[f].ref == 0 ==> t.files[f].kind == NONE)
    && (t.files[f].kind == INODE ==> t.files[f].ip < |t.inodes|)
  }

  ghost predicate InodeOk(t: Tables, i: nat)
    requires i < |t.inodes| == |t.loanI|
  {
    t.inodes[i].ref == |OpensOf(t.files, i)| + |CwdsOf(t.procs, i)| + t.loanI[i] && t.inodes[i].ref >= 0
  }

  ghost predicate ProcOk(t: Tables, p: nat)
    requires p < |t.procs|
  {
    && |t.procs[p].ofile| == NOFILE
    && (forall n :: 0 <= n < NOFILE ==> t.procs[p].ofile[n].Some? ==> t.procs[p].ofile[n].value < |t.files|)
    && (t.procs[p].cwd.Some? ==> t.procs[p].cwd.value < |t.inodes|)
  }

  // An inode is in the cache at most once.
  ghost predicate Once(t: Tables, i: nat, j: nat)
    requires i < |t.inodes| && j < |t.inodes|
  {
    t.inodes[i].ref > 0 && t.inodes[j].ref > 0 && t.inodes[i].id == t.inodes[j].id ==> i == j
  }

  ghost predicate Ok(t: Tables) {
    && |t.loanF| == |t.files| && |t.loanI| == |t.inodes|
    && (forall f :: 0 <= f < |t.files| ==> FileOk(t, f))
    && (forall i :: 0 <= i < |t.inodes| ==> InodeOk(t, i))
    && (forall p :: 0 <= p < |t.procs| ==> ProcOk(t, p))
    && (forall i, j :: 0 <= i < |t.inodes| && 0 <= j < |t.inodes| ==> Once(t, i, j))
  }

  // No loan is out.
  ghost predicate Settled(t: Tables) {
    && Ok(t)
    && (forall f :: 0 <= f < |t.files| ==> t.loanF[f] == 0)
    && (forall i :: 0 <= i < |t.inodes| ==> t.loanI[i] == 0)
  }

  // Conservation, in so many words.
  lemma Conserved(t: Tables, f: nat, i: nat)
    requires Settled(t)
    ensures f < |t.files| ==> t.files[f].ref == |SlotsOf(t.procs, f)|
    ensures i < |t.inodes| ==> t.inodes[i].ref == |OpensOf(t.files, i)| + |CwdsOf(t.procs, i)|
  {
    if f < |t.files| {
      assert FileOk(t, f);
    }
    if i < |t.inodes| {
      assert InodeOk(t, i);
    }
  }

  // ----- the five elementary changes

  ghost function Bump(s: seq<int>, k: nat, d: int): (r: seq<int>)
    requires k < |s|
    ensures |r| == |s| && forall j :: 0 <= j < |s| ==> r[j] == if j == k then s[j] + d else s[j]
  {
    s[k := s[k] + d]
  }

  // A descriptor slot is emptied: its reference is now on loan.
  ghost function ClearFd(t: Tables, p: nat, n: nat, f: nat): Tables
    requires Holds(t.procs, p, n, f) && f < |t.loanF|
  {
    t.(procs := t.procs[p := t.procs[p].(ofile := t.procs[p].ofile[n := None])], loanF := Bump(t.loanF, f, 1))
  }

  lemma ClearSlots(procs: seq<Proc>, p: nat, n: nat, f: nat, g: nat)
    requires Holds(procs, p, n, f)
    ensures var procs' := procs[p := procs[p].(ofile := procs[p].ofile[n := None])];
            |SlotsOf(procs', g)| == |SlotsOf(procs, g)| - if g == f then 1 else 0
  {
    var procs' := procs[p := procs[p].(ofile := procs[p].ofile[n := None])];
    forall s
      ensures s in SlotsOf(procs', g) <==> s in SlotsOf(procs, g) && s != Fd(p, n)
    {
      assert Holds(procs', s.proc, s.n, g) <==> Holds(procs, s.proc, s.n, g) && s != Fd(p, n);
    }
    assert SlotsOf(procs', g) == SlotsOf(procs, g) - {Fd(p, n)};
    assert Fd(p, n) in SlotsOf(procs, g) <==> g == f;
  }

  lemma ClearFdOk(t: Tables, p: nat, n: nat, f: nat)
    requires Ok(t) && Holds(t.procs, p, n, f)
    ensures f < |t.files| && Ok(ClearFd(t, p, n, f)) && ClearFd(t, p, n, f).files[f].ref >= 1 + t.loanF[f]
  {
    assert ProcOk(t, p);
    var t' := ClearFd(t, p, n, f);
    forall g | 0 <= g < |t'.files| ensures FileOk(t', g) {
      assert FileOk(t, g);
      ClearSlots(t.procs, p, n, f, g);
    }
    assert Fd(p, n) in SlotsOf(t.procs, f) && FileOk(t, f);
    SameCwds(t, t');
    forall q | 0 <= q < |t'.procs| ensures ProcOk(t', q) { assert ProcOk(t, q); }
    forall i, j | 0 <= i < |t'.inodes| && 0 <= j < |t'.inodes| ensures Once(t', i, j) { assert Once(t, i, j); }
  }

  // An empty descriptor slot takes over a reference to f.
  ghost function SetFd(t: Tables, p: nat, n: nat, f: nat): Tables
    requires p < |t.procs| && n < |t.procs[p].ofile| && f < |t.loanF|
  {
    t.(procs := t.procs[p := t.procs[p].(ofile := t.procs[p].ofile[n := Some(f)])], loanF := Bump(t.loanF, f, -1))
  }

  lemma SetSlots(procs: seq<Proc>, p: nat, n: nat, f: nat, g: nat)
    requires p < |procs| && n < |procs[p].ofile| && procs[p].ofile[n] == None
    ensures var procs' := procs[p := procs[p].(ofile := procs[p].ofile[n := Some(f)])];
            |SlotsOf(procs', g)| == |SlotsOf(procs, g)| + if g == f then 1 else 0
  {
    var procs' := procs[p := procs[p].(ofile := procs[p].ofile[n := Some(f)])];
    forall s
      ensures s in SlotsOf(procs', g) <==> s in SlotsOf(procs, g) || (g == f && s == Fd(p, n))
    {
      assert Holds(procs', s.proc, s.n, g) <==> Holds(procs, s.proc, s.n, g) || (g == f && s == Fd(p, n));
    }
    assert SlotsOf(procs', g) == SlotsOf(procs, g) + if g == f then {Fd(p, n)} else {};
    assert Fd(p, n) !in SlotsOf(procs, g);
  }

  lemma SetFdOk(t: Tables, p: nat, n: nat, f: nat)
    requires Ok(t) && p < |t.procs| && n < |t.procs[p].ofile| && t.procs[p].ofile[n] == None && f < |t.files|
    ensures Ok(SetFd(t, p, n, f))
  {
    var t' := SetFd(t, p, n, f);
    forall g | 0 <= g < |t'.files| ensures FileOk(t', g) {
      assert FileOk(t, g);
      SetSlots(t.procs, p, n, f, g);
    }
    SameCwds(t, t');
    forall q | 0 <= q < |t'.procs| ensures ProcOk(t', q) { assert ProcOk(t, q); }
    forall i, j | 0 <= i < |t'.inodes| && 0 <= j < |t'.inodes| ensures Once(t', i, j) { assert Once(t, i, j); }
  }

  // A file's count changes without reaching 0.
  ghost function CountFile(t: Tables, f: nat, d: int): Tables
    requires f < |t.files| && f < |t.loanF|
  {
    t.(files := t.files[f := t.files[f].(ref := t.files[f].ref + d)], loanF := Bump(t.loanF, f, d))
  }

  lemma CountFileOk(t: Tables, f: nat, d: int)
    requires Ok(t) && f < |t.files| && t.files[f].ref + d >= 1
    ensures Ok(CountFile(t, f, d))
  {
    var t' := CountFile(t, f, d);
    forall g | 0 <= g < |t'.files| ensures FileOk(t', g) { assert FileOk(t, g); }
    forall i | 0 <= i < |t'.inodes| ensures InodeOk(t', i) {
      assert InodeOk(t, i);
      SameOpens(t.files, t'.files, i);
    }
    forall q | 0 <= q < |t'.procs| ensures ProcOk(t', q) { assert ProcOk(t, q); }
    forall i, j | 0 <= i < |t'.inodes| && 0 <= j < |t'.inodes| ensures Once(t', i, j) { assert Once(t, i, j); }
  }

  lemma SameOpens(files: seq<File>, files': seq<File>, i: nat)
    requires |files'| == |files| && forall f :: 0 <= f < |files| ==>
               files'[f].kind == files[f].kind && files'[f].ip == files[f].ip
    ensures OpensOf(files', i) == OpensOf(files, i)
  {
    forall f
      ensures f in OpensOf(files', i) <==> f in OpensOf(files, i)
    {
      assert Uses(files', f, i) <==> Uses(files, f, i);
    }
  }

  // The last reference to a file goes; a file on an inode leaves that reference behind.
  ghost function Retire(t: Tables, f: nat): Tables
    requires f < |t.files| && f < |t.loanF| && (t.files[f].kind == INODE ==> t.files[f].ip < |t.loanI|)
  {
    t.(files := t.files[f := t.files[f].(ref := 0, kind := NONE)], loanF := Bump(t.loanF, f, -1),
       loanI := if t.files[f].kind == INODE then Bump(t.loanI, t.files[f].ip, 1) else t.loanI)
  }

  lemma RetireOpens(files: seq<File>, f: nat, i: nat)
    requires f < |files|
    ensures var files' := files[f := files[f].(ref := 0, kind := NONE)];
            |OpensOf(files', i)| == |OpensOf(files, i)| - if Uses(files, f, i) then 1 else 0
  {
    var files' := files[f := files[f].(ref := 0, kind := NONE)];
    forall g
      ensures g in OpensOf(files', i) <==> g in OpensOf(files, i) && g != f
    {
      assert Uses(files', g, i) <==> Uses(files, g, i) && g != f;
    }
    assert OpensOf(files', i) == OpensOf(files, i) - {f};
  }

  lemma RetireOk(t: Tables, f: nat)
    requires Ok(t) && f < |t.files| && t.files[f].ref == 1
    ensures (t.files[f].kind == INODE ==> t.files[f].ip < |t.inodes|) && Ok(Retire(t, f))
    ensures t.files[f].kind == INODE ==> t.inodes[t.files[f].ip].ref >= 1 + t.loanI[t.files[f].ip]
  {
    assert FileOk(t, f);
    var t' := Retire(t, f);
    forall g | 0 <= g < |t'.files| ensures FileOk(t', g) { assert FileOk(t, g); }
    forall i | 0 <= i < |t'.inodes| ensures InodeOk(t', i) {
      assert InodeOk(t, i);
      RetireOpens(t.files, f, i);
    }
    if t.files[f].kind == INODE {
      var i := t.files[f].ip;
      assert InodeOk(t, i);
      assert f in OpensOf(t.files, i);
    }
    forall q | 0 <= q < |t'.procs| ensures ProcOk(t', q) { assert ProcOk(t, q); }
    forall i, j | 0 <= i < |t'.inodes| && 0 <= j < |t'.inodes| ensures Once(t', i, j) { assert Once(t, i, j); }
  }

  // A file that was just allocated becomes one end of a pipe, or an open inode that
  // takes over a reference to it.
  ghost function Become(t: Tables, f: nat, kind: Kind, i: nat): Tables
    requires f < |t.files| && (kind == INODE ==> i < |t.loanI|)
  {
    t.(files := t.files[f := t.files[f].(kind := kind, ip := i)], loanI := if kind == INODE then Bump(t.loanI, i, -1)
       else t.loanI)
  }

  lemma BecomeOpens(files: seq<File>, f: nat, kind: Kind, i0: nat, i: nat)
    requires f < |files| && files[f].kind == NONE
    ensures var files' := files[f := files[f].(kind := kind, ip := i0)];
            |OpensOf(files', i)| == |OpensOf(files, i)| + if kind == INODE && i == i0 then 1 else 0
  {
    var files' := files[f := files[f].(kind := kind, ip := i0)];
    forall g
      ensures g in OpensOf(files', i) <==> g in OpensOf(files, i) || (g == f && kind == INODE && i == i0)
    {
      assert Uses(files', g, i) <==> Uses(files, g, i) || (g == f && kind == INODE && i == i0);
    }
    assert OpensOf(files', i) == OpensOf(files, i) + if kind == INODE && i == i0 then {f} else {};
    assert f !in OpensOf(files, i);
  }

  lemma BecomeOk(t: Tables, f: nat, kind: Kind, i: nat)
    requires Ok(t) && f < |t.files| && t.files[f].kind == NONE && t.files[f].ref >= 1
             && (kind == INODE ==> i < |t.inodes|)
    ensures Ok(Become(t, f, kind, i))
  {
    var t' := Become(t, f, kind, i);
    forall g | 0 <= g < |t'.files| ensures FileOk(t', g) { assert FileOk(t, g); }
    forall j | 0 <= j < |t'.inodes| ensures InodeOk(t', j) {
      assert InodeOk(t, j);
      BecomeOpens(t.files, f, kind, i, j);
    }
    forall q | 0 <= q < |t'.procs| ensures ProcOk(t', q) { assert ProcOk(t, q); }
    forall j, k | 0 <= j < |t'.inodes| && 0 <= k < |t'.inodes| ensures Once(t', j, k) { assert Once(t, j, k); }
  }

  // An inode's count changes.
  ghost function CountInode(t: Tables, i: nat, d: int): Tables
    requires i < |t.inodes| && i < |t.loanI|
  {
    t.(inodes := t.inodes[i := t.inodes[i].(ref := t.inodes[i].ref + d)], loanI := Bump(t.loanI, i, d))
  }

  lemma CountInodeOk(t: Tables, i: nat, d: int)
    requires Ok(t) && i < |t.inodes| && t.inodes[i].ref >= 1 && t.inodes[i].ref + d >= 0
    ensures Ok(CountInode(t, i, d))
  {
    var t' := CountInode(t, i, d);
    forall f | 0 <= f < |t'.files| ensures FileOk(t', f) { assert FileOk(t, f); }
    forall j | 0 <= j < |t'.inodes| ensures InodeOk(t', j) { assert InodeOk(t, j); }
    forall q | 0 <= q < |t'.procs| ensures ProcOk(t', q) { assert ProcOk(t, q); }
    forall j, k | 0 <= j < |t'.inodes| && 0 <= k < |t'.inodes| ensures Once(t', j, k) { assert Once(t, j, k); }
  }

  // An unused cache slot is given to another inode.
  ghost function Recycle(t: Tables, i: nat, id: Id): Tables
    requires i < |t.inodes| && i < |t.loanI|
  {
    t.(inodes := t.inodes[i := Inode(id, 1)], loanI := Bump(t.loanI, i, 1))
  }

  lemma RecycleOk(t: Tables, i: nat, id: Id)
    requires Ok(t) && i < |t.inodes| && t.inodes[i].ref == 0
    requires forall j :: 0 <= j < |t.inodes| ==> t.inodes[j].ref > 0 ==> t.inodes[j].id != id
    ensures Ok(Recycle(t, i, id))
  {
    var t' := Recycle(t, i, id);
    forall f | 0 <= f < |t'.files| ensures FileOk(t', f) { assert FileOk(t, f); }
    forall j | 0 <= j < |t'.inodes| ensures InodeOk(t', j) { assert InodeOk(t, j); }
    forall q | 0 <= q < |t'.procs| ensures ProcOk(t', q) { assert ProcOk(t, q); }
    forall j, k | 0 <= j < |t'.inodes| && 0 <= k < |t'.inodes| ensures Once(t', j, k) { assert Once(t, j, k); }
  }

  // A current directory is given up, or taken over from a reference on loan.
  ghost function ClearCwd(t: Tables, p: nat, i: nat): Tables
    requires Stands(t.procs, p, i) && i < |t.loanI|
  {
    t.(procs := t.procs[p := t.procs[p].(cwd := None)], loanI := Bump(t.loanI, i, 1))
  }

  ghost function SetCwd(t: Tables, p: nat, i: nat): Tables
    requires p < |t.procs| && i < |t.loanI|
  {
    t.(procs := t.procs[p := t.procs[p].(cwd := Some(i))], loanI := Bump(t.loanI, i, -1))
  }

  lemma ClearCwds(procs: seq<Proc>, p: nat, i: nat, j: nat)
    requires Stands(procs, p, i)
    ensures |CwdsOf(procs[p := procs[p].(cwd := None)], j)| == |CwdsOf(procs, j)| - if j == i then 1 else 0
  {
    var procs' := procs[p := procs[p].(cwd := None)];
    forall q
      ensures q in CwdsOf(procs', j) <==> q in CwdsOf(procs, j) && q != p
    {
      assert Stands(procs', q, j) <==> Stands(procs, q, j) && q != p;
    }
    assert CwdsOf(procs', j) == CwdsOf(procs, j) - {p};
    assert p in CwdsOf(procs, j) <==> j == i;
  }

  lemma SetCwds(procs: seq<Proc>, p: nat, i: nat, j: nat)
    requires p < |procs| && procs[p].cwd == None
    ensures |CwdsOf(procs[p := procs[p].(cwd := Some(i))], j)| == |CwdsOf(procs, j)| + if j == i then 1 else 0
  {
    var procs' := procs[p := procs[p].(cwd := Some(i))];
    forall q
      ensures q in CwdsOf(procs', j) <==> q in CwdsOf(procs, j) || (q == p && j == i)
    {
      assert Stands(procs', q, j) <==> Stands(procs, q, j) || (q == p && j == i);
    }
    assert CwdsOf(procs', j) == CwdsOf(procs, j) + if j == i then {p} else {};
    assert p !in CwdsOf(procs, j);
  }

  // Files do not notice changes of current directories.
  lemma SameSlots(procs: seq<Proc>, procs': seq<Proc>, f: nat)
    requires |procs'| == |procs| && forall p :: 0 <= p < |procs| ==> procs'[p].ofile == procs[p].ofile
    ensures SlotsOf(procs', f) == SlotsOf(procs, f)
  {
    forall s
      ensures s in SlotsOf(procs', f) <==> s in SlotsOf(procs, f)
    {
      assert Holds(procs', s.proc, s.n, f) <==> Holds(procs, s.proc, s.n, f);
    }
  }

  lemma ClearCwdOk(t: Tables, p: nat, i: nat)
    requires Ok(t) && Stands(t.procs, p, i)
    ensures i < |t.inodes| && Ok(ClearCwd(t, p, i)) && t.inodes[i].ref >= 1 + t.loanI[i]
  {
    assert ProcOk(t, p);
    var t' := ClearCwd(t, p, i);
    forall f | 0 <= f < |t'.files| ensures FileOk(t', f) {
      assert FileOk(t, f);
      SameSlots(t.procs, t'.procs, f);
    }
    forall j | 0 <= j < |t'.inodes| ensures InodeOk(t', j) {
      assert InodeOk(t, j);
      ClearCwds(t.procs, p, i, j);
    }
    assert InodeOk(t, i) && p in CwdsOf(t.procs, i);
    forall q | 0 <= q < |t'.procs| ensures ProcOk(t', q) { assert ProcOk(t, q); }
    forall j, k | 0 <= j < |t'.inodes| && 0 <= k < |t'.inodes| ensures Once(t', j, k) { assert Once(t, j, k); }
  }

  lemma SetCwdOk(t: Tables, p: nat, i: nat)
    requires Ok(t) && p < |t.procs| && t.procs[p].cwd == None && i < |t.inodes|
    ensures Ok(SetCwd(t, p, i))
  {
    var t' := SetCwd(t, p, i);
    forall f | 0 <= f < |t'.files| ensures FileOk(t', f) {
      assert FileOk(t, f);
      SameSlots(t.procs, t'.procs, f);
    }
    forall j | 0 <= j < |t'.inodes| ensures InodeOk(t', j) {
      assert InodeOk(t, j);
      SetCwds(t.procs, p, i, j);
    }
    forall q | 0 <= q < |t'.procs| ensures ProcOk(t', q) { assert ProcOk(t, q); }
    forall j, k | 0 <= j < |t'.inodes| && 0 <= k < |t'.inodes| ensures Once(t', j, k) { assert Once(t, j, k); }
  }

  // Inodes do not notice changes that leave files and current directories alone.
  lemma SameCwds(t: Tables, t': Tables)
    requires Ok(t) && |t'.procs| == |t.procs| && t'.files == t.files && t'.inodes == t.inodes && t'.loanI == t.loanI
    requires forall p :: 0 <= p < |t.procs| ==> t'.procs[p].cwd == t.procs[p].cwd
    ensures forall i :: 0 <= i < |t'.inodes| ==> InodeOk(t', i)
  {
    forall i | 0 <= i < |t'.inodes| ensures InodeOk(t', i) {
      assert InodeOk(t, i);
      forall p ensures p in CwdsOf(t'.procs, i) <==> p in CwdsOf(t.procs, i) {
        assert Stands(t'.procs, p, i) <==> Stands(t.procs, p, i);
      }
      assert CwdsOf(t'.procs, i) == CwdsOf(t.procs, i);
    }
  }
}
