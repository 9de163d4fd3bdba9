/**
  Directories, link counts and the tree they form.

  An inode holds its link count and, for a directory, its entries; entry number 0
  of an unused slot.  `depth` and `up` only record: how far a directory is from the
  root and which entry names it.  A directory whose link count is 0 has been
  unlinked but is still in use; its entries do not count, and it has only its dots.
 */
module Directory {

  const ROOTINO: nat := 1

  datatype Kind = Dir | File | Dev

  datatype Entry = Entry(inum: nat, name: string)

  datatype Inode = Inode(kind: Kind, nlink: int, entries: seq<Entry>)

  datatype Slot = Slot(dir: nat, index: nat)

  datatype Tree = Tree(inodes: map<nat, Inode>, depth: map<nat, nat>, up: map<nat, Slot>)

  const FREE: Entry := Entry(0, "")

  ghost predicate LinkedDir(t: Tree, d: nat) {
    d in t.inodes && t.inodes[d].kind == Dir && t.inodes[d].nlink > 0
  }

  // Entry k of the linked directory d names inode i, and is not ".".
  ghost predicate Names(t: Tree, d: nat, k: nat, i: nat) {
    LinkedDir(t, d) && k < |t.inodes[d].entries| && t.inodes[d].entries[k].inum == i
      && t.inodes[d].entries[k].name != "."
  }

  ghost function Refs(t: Tree, i: nat): (r: set<Slot>)
    ensures forall s :: s in r <==> Names(t, s.dir, s.index, i)
  {
    set d, k | d in t.inodes.Keys && 0 <= k < |t.inodes[d].entries| && Names(t, d, k, i) :: Slot(d, k)
  }

  // An inode's link count is the number of entries that name it.
  ghost predicate CountOk(t: Tree, i: nat) {
    i in t.inodes ==> i >= 1 && t.inodes[i].nlink == |Refs(t, i)|
  }

  // No two used entries of a directory have the same name.
  ghost predicate UniqueName(t: Tree, d: nat, j: nat, k: nat) {
    LinkedDir(t, d) && j < k < |t.inodes[d].entries| && t.inodes[d].entries[j].inum != 0
      && t.inodes[d].entries[k].inum != 0 ==>
      t.inodes[d].entries[j].name != t.inodes[d].entries[k].name
  }

  // The test of isdirempty.
  ghost predicate EmptyDir(es: seq<Entry>) {
    forall k :: 2 <= k < |es| ==> es[k].inum == 0
  }

  // A directory starts with "." and ".."; one that is no longer linked has nothing else.
  ghost predicate DotsOk(t: Tree, d: nat) {
    d in t.inodes && t.inodes[d].kind == Dir ==> HasDots(d, t.inodes[d])
  }

  ghost predicate HasDots(d: nat, x: Inode) {
    var es := x.entries;
    && |es| >= 2 && es[0] == Entry(d, ".") && es[1].name == ".." && es[1].inum != 0
    && (x.nlink <= 0 ==> EmptyDir(es))
  }

  // A linked directory names only inodes that exist.

  ghost predicate TargetOk(t: Tree, d: nat, k: nat) {
    LinkedDir(t, d) && k < |t.inodes[d].entries| && t.inodes[d].entries[k].inum != 0 ==>
      t.inodes[d].entries[k].inum in t.inodes
  }

  // ".." leads to the directory that holds the one entry naming d, one step nearer to
  // the root.
  ghost predicate ParentOk(t: Tree, d: nat) {
    LinkedDir(t, d) && |t.inodes[d].entries| >= 2 ==>
      && d in t.depth
      && var par := t.inodes[d].entries[1].inum;
         if d == ROOTINO then par == d && t.depth[d] == 0
         else
           && LinkedDir(t, par) && par in t.depth && t.depth[d] == t.depth[par] + 1
           && d in t.up && t.up[d].dir == par && t.up[d].index >= 2 && Names(t, par, t.up[d].index, d)
  }

  ghost predicate OneName(t: Tree, x: nat, k: nat, d: nat) {
    Names(t, x, k, d) && LinkedDir(t, d) && k >= 2 ==> d != ROOTINO && d in t.up && t.up[d] == Slot(x, k)
  }

  ghost predicate TreeOk(t: Tree) {
    && LinkedDir(t, ROOTINO)
    && (forall i :: CountOk(t, i))
    && (forall d, j, k :: UniqueName(t, d, j, k))
    && (forall d :: DotsOk(t, d))
    && (forall d, k :: TargetOk(t, d, k))
    && (forall d :: ParentOk(t, d))
    && (forall x, k, d :: OneName(t, x, k, d))
  }

  // ----- the tree

  // n steps along "..".
  ghost function Climb(t: Tree, d: nat, n: nat): nat
    decreases n
  {
    if n == 0 || d !in t.inodes || |t.inodes[d].entries| < 2 then d
    else Climb(t, t.inodes[d].entries[1].inum, n - 1)
  }

  // From every linked directory ".." leads to the root, through linked directories, in
  // exactly as many steps as the directory is deep: there is no cycle.
  lemma {:induction false} DotDotReachesRoot(t: Tree, d: nat, n: nat)
    requires TreeOk(t) && LinkedDir(t, d)
    ensures d in t.depth && LinkedDir(t, Climb(t, d, n))
    ensures Climb(t, d, n) == ROOTINO <==> n >= t.depth[d]
    decreases n
  {
    hide CountOk, UniqueName, TargetOk, OneName;
    assert DotsOk(t, d) && ParentOk(t, d);
    if n > 0 {
      DotDotReachesRoot(t, t.inodes[d].entries[1].inum, n - 1);
    }
  }

  // No directory is above itself.
  lemma NoDirectoryAboveItself(t: Tree, d: nat, n: nat)
    requires TreeOk(t) && LinkedDir(t, d) && d != ROOTINO && n > 0
    ensures Climb(t, d, n) != d
  {
    DotDotReachesRoot(t, d, 0);
    ClimbDepth(t, d, n);
  }

  lemma {:induction false} ClimbDepth(t: Tree, d: nat, n: nat)
    requires TreeOk(t) && LinkedDir(t, d)
    ensures LinkedDir(t, Climb(t, d, n)) && d in t.depth && Climb(t, d, n) in t.depth
    ensures t.depth[Climb(t, d, n)] == if n <= t.depth[d] then t.depth[d] - n else 0
    decreases n
  {
    hide CountOk, UniqueName, TargetOk, OneName;
    assert DotsOk(t, d) && ParentOk(t, d);
    if n > 0 {
      ClimbDepth(t, t.inodes[d].entries[1].inum, n - 1);
    }
  }

  // ----- adding and removing entries

  function Place(es: seq<Entry>, k: nat, e: Entry): (r: seq<Entry>)
    requires k <= |es|
    ensures |r| == (if k == |es| then |es| + 1 else |es|)
    ensures forall j :: 0 <= j < |r| ==> r[j] == if j == k then e else es[j]
  {
    if k == |es| then es + [e] else es[k := e]
  }

  ghost predicate Unused(es: seq<Entry>, name: string) {
    forall j :: 0 <= j < |es| && es[j].inum != 0 ==> es[j].name != name
  }

  // Slot k of the linked directory dp can take a new entry called name.
  ghost predicate CanAdd(t: Tree, dp: nat, k: nat, name: string) {
    && LinkedDir(t, dp)
    && var es := t.inodes[dp].entries;
       2 <= k <= |es| && (k < |es| ==> es[k].inum == 0) && Unused(es, name) && name != "."
  }

  // One more name for a file.
  ghost function Link(t: Tree, dp: nat, k: nat, name: string, ip: nat): Tree
    requires dp in t.inodes && k <= |t.inodes[dp].entries| && ip in t.inodes
  {
    var x, d := t.inodes[ip], t.inodes[dp];
    t.(inodes := t.inodes[ip := x.(nlink := x.nlink + 1)][dp := d.(entries := Place(d.entries, k, Entry(ip, name)))])
  }

  lemma LinkRefs(t: Tree, dp: nat, k: nat, name: string, ip: nat, i: nat)
    requires TreeOk(t) && CanAdd(t, dp, k, name) && ip in t.inodes && t.inodes[ip].kind != Dir && i != 0
    ensures Refs(Link(t, dp, k, name, ip), i) == if i == ip then Refs(t, i) + {Slot(dp, k)} else Refs(t, i)
    ensures Slot(dp, k) !in Refs(t, i)
  {
    var t' := Link(t, dp, k, name, ip);
    forall s
      ensures s in Refs(t', i) <==> s in Refs(t, i) || (i == ip && s == Slot(dp, k))
    {
      assert Names(t', s.dir, s.index, i) <==> Names(t, s.dir, s.index, i) || (i == ip && s == Slot(dp, k));
    }
  }

  lemma LinkParts(t: Tree, dp: nat, k: nat, name: string, ip: nat, d: nat, j: nat, m: nat)
    requires TreeOk(t) && CanAdd(t, dp, k, name) && ip in t.inodes && t.inodes[ip].kind != Dir
    ensures var t' := Link(t, dp, k, name, ip);
            UniqueName(t', d, j, m) && DotsOk(t', d) && TargetOk(t', d, m) && ParentOk(t', d) && OneName(t', j, m, d)
  {
    assert CountOk(t, d) && UniqueName(t, d, j, m) && DotsOk(t, d) && TargetOk(t, d, m) && ParentOk(t, d)
           && OneName(t, j, m, d);
    hide TreeOk, Refs;
  }

  lemma LinkOk(t: Tree, dp: nat, k: nat, name: string, ip: nat)
    requires TreeOk(t) && CanAdd(t, dp, k, name) && ip in t.inodes && t.inodes[ip].kind != Dir
    ensures TreeOk(Link(t, dp, k, name, ip))
  {
    var t' := Link(t, dp, k, name, ip);
    forall i ensures CountOk(t', i) {
      assert CountOk(t, i);
      if i in t.inodes {
        LinkRefs(t, dp, k, name, ip, i);
      }
    }
    hide Refs, CountOk, UniqueName, DotsOk, TargetOk, ParentOk, OneName;
    forall d, j, m ensures UniqueName(t', d, j, m) { LinkParts(t, dp, k, name, ip, d, j, m); }
    forall d ensures DotsOk(t', d) && ParentOk(t', d) { LinkParts(t, dp, k, name, ip, d, 0, 0); }
    forall d, m ensures TargetOk(t', d, m) { LinkParts(t, dp, k, name, ip, d, 0, m); }
    forall x, m, d ensures OneName(t', x, m, d) { LinkParts(t, dp, k, name, ip, d, x, m); }
  }

  // ----- a new inode, not named by anything yet

  ghost predicate CanMake(t: Tree, ip: nat) {
    ip >= 1 && ip !in t.inodes
  }

  ghost function Fresh(t: Tree, ip: nat, x: Inode): Tree {
    t.(inodes := t.inodes[ip := x])
  }

  lemma NoRefs(t: Tree, i: nat)
    requires TreeOk(t) && i !in t.inodes && i != 0
    ensures Refs(t, i) == {}
  {
    forall s
      ensures s !in Refs(t, i)
    {
      assert TargetOk(t, s.dir, s.index);
    }
  }

  lemma FreshRefs(t: Tree, ip: nat, x: Inode, i: nat)
    requires TreeOk(t) && CanMake(t, ip) && x.nlink == 0 && (x.kind == Dir ==> HasDots(ip, x))
    ensures Refs(Fresh(t, ip, x), i) == Refs(t, i)
  {
    forall s
      ensures s in Refs(Fresh(t, ip, x), i) <==> s in Refs(t, i)
    {
      assert Names(Fresh(t, ip, x), s.dir, s.index, i) <==> Names(t, s.dir, s.index, i);
    }
  }

  lemma FreshParts(t: Tree, ip: nat, x: Inode, d: nat, j: nat, m: nat)
    requires TreeOk(t) && CanMake(t, ip) && x.nlink == 0 && (x.kind == Dir ==> HasDots(ip, x))
    ensures var t' := Fresh(t, ip, x);
            CountOk(t', d) && UniqueName(t', d, j, m) && DotsOk(t', d) && TargetOk(t', d, m) && ParentOk(t', d)
              && OneName(t', j, m, d)
  {
    assert CountOk(t, d) && UniqueName(t, d, j, m) && DotsOk(t, d) && TargetOk(t, d, m) && ParentOk(t, d)
           && OneName(t, j, m, d);
    FreshRefs(t, ip, x, d);
    NoRefs(t, ip);
    hide TreeOk, Refs;
  }

  lemma FreshOk(t: Tree, ip: nat, x: Inode)
    requires TreeOk(t) && CanMake(t, ip) && x.nlink == 0 && (x.kind == Dir ==> HasDots(ip, x))
    ensures TreeOk(Fresh(t, ip, x))
  {
    var t' := Fresh(t, ip, x);
    assert LinkedDir(t', ROOTINO);
    hide Refs, CountOk, UniqueName, DotsOk, TargetOk, ParentOk, OneName;
    forall i ensures CountOk(t', i) { FreshParts(t, ip, x, i, 0, 0); }
    forall d, j, m ensures UniqueName(t', d, j, m) { FreshParts(t, ip, x, d, j, m); }
    forall d ensures DotsOk(t', d) && ParentOk(t', d) { FreshParts(t, ip, x, d, 0, 0); }
    forall d, m ensures TargetOk(t', d, m) { FreshParts(t, ip, x, d, 0, m); }
    forall x', m, d ensures OneName(t', x', m, d) { FreshParts(t, ip, x, d, x', m); }
  }

  // ----- an inode that nothing names is freed

  ghost function Drop(t: Tree, ip: nat): Tree {
    t.(inodes := t.inodes - {ip})
  }

  lemma DropRefs(t: Tree, ip: nat, i: nat)
    requires TreeOk(t) && ip in t.inodes && t.inodes[ip].nlink == 0
    ensures Refs(Drop(t, ip), i) == Refs(t, i)
  {
    forall s
      ensures s in Refs(Drop(t, ip), i) <==> s in Refs(t, i)
    {
      assert Names(Drop(t, ip), s.dir, s.index, i) <==> Names(t, s.dir, s.index, i);
    }
  }

  // No entry of a linked directory names it.
  lemma Unnamed(t: Tree, ip: nat, d: nat, k: nat)
    requires TreeOk(t) && ip in t.inodes && t.inodes[ip].nlink == 0
    ensures LinkedDir(t, d) && k < |t.inodes[d].entries| ==> t.inodes[d].entries[k].inum != ip
  {
    assert CountOk(t, ip) && CountOk(t, d) && DotsOk(t, d) && UniqueName(t, d, 0, k);
    assert Refs(t, ip) == {};
    assert Slot(d, k) !in Refs(t, ip);
  }

  lemma DropParts(t: Tree, ip: nat, d: nat, j: nat, m: nat)
    requires TreeOk(t) && ip in t.inodes && t.inodes[ip].nlink == 0
    ensures var t' := Drop(t, ip);
            CountOk(t', d) && UniqueName(t', d, j, m) && DotsOk(t', d) && TargetOk(t', d, m) && ParentOk(t', d)
              && OneName(t', j, m, d)
  {
    assert CountOk(t, d) && UniqueName(t, d, j, m) && DotsOk(t, d) && TargetOk(t, d, m) && ParentOk(t, d)
           && OneName(t, j, m, d);
    DropRefs(t, ip, d);
    Unnamed(t, ip, d, m);
    hide TreeOk, Refs;
  }

  lemma DropOk(t: Tree, ip: nat)
    requires TreeOk(t) && ip in t.inodes && t.inodes[ip].nlink == 0
    ensures TreeOk(Drop(t, ip))
  {
    var t' := Drop(t, ip);
    assert LinkedDir(t', ROOTINO);
    hide Refs, CountOk, UniqueName, DotsOk, TargetOk, ParentOk, OneName;
    forall i ensures CountOk(t', i) { DropParts(t, ip, i, 0, 0); }
    forall d, j, m ensures UniqueName(t', d, j, m) { DropParts(t, ip, d, j, m); }
    forall d ensures DotsOk(t', d) && ParentOk(t', d) { DropParts(t, ip, d, 0, 0); }
    forall d, m ensures TargetOk(t', d, m) { DropParts(t, ip, d, 0, m); }
    forall x, m, d ensures OneName(t', x, m, d) { DropParts(t, ip, d, x, m); }
  }

  // ----- a new directory gets its place in the tree

  ghost predicate CanAttach(t: Tree, dp: nat, k: nat, name: string, ip: nat) {
    && CanAdd(t, dp, k, name) && ip in t.inodes && dp in t.depth
    && t.inodes[ip] == Inode(Dir, 0, [Entry(ip, "."), Entry(dp, "..")])
  }

  ghost function Attach(t: Tree, dp: nat, k: nat, name: string, ip: nat): Tree
    requires dp in t.inodes && k <= |t.inodes[dp].entries| && ip in t.inodes
  {
    var x, d := t.inodes[ip], t.inodes[dp];
    Tree(t.inodes[ip := x.(nlink := 1)]
                 [dp := d.(nlink := d.nlink + 1, entries := Place(d.entries, k, Entry(ip, name)))],
         t.depth[ip := Depth(t, dp) + 1], t.up[ip := Slot(dp, k)])
  }

  ghost function Depth(t: Tree, d: nat): nat {
    if d in t.depth then t.depth[d] else 0
  }

  lemma AttachRefs(t: Tree, dp: nat, k: nat, name: string, ip: nat, i: nat)
    requires TreeOk(t) && CanAttach(t, dp, k, name, ip) && i != 0
    ensures Refs(Attach(t, dp, k, name, ip), i) ==
            Refs(t, i) + (if i == ip then {Slot(dp, k)} else {}) + (if i == dp then {Slot(ip, 1)} else {})
    ensures Slot(dp, k) !in Refs(t, i) && Slot(ip, 1) !in Refs(t, i) && dp != ip
  {
    var t' := Attach(t, dp, k, name, ip);
    forall s
      ensures s in Refs(t', i) <==> s in Refs(t, i) || (i == ip && s == Slot(dp, k)) || (i == dp && s == Slot(ip, 1))
    {
      assert Names(t', s.dir, s.index, i) <==>
               Names(t, s.dir, s.index, i) || (i == ip && s == Slot(dp, k)) || (i == dp && s == Slot(ip, 1));
    }
  }

  lemma AttachCount(t: Tree, dp: nat, k: nat, name: string, ip: nat, i: nat)
    requires TreeOk(t) && CanAttach(t, dp, k, name, ip)
    ensures CountOk(Attach(t, dp, k, name, ip), i)
  {
    hide Refs, TreeOk, Unused;
    CountOf(t, i);
    if i in t.inodes {
      AttachRefs(t, dp, k, name, ip, i);
      MoreTwo(Refs(t, i), if i == ip then {Slot(dp, k)} else {}, if i == dp then {Slot(ip, 1)} else {});
    }
  }

  lemma AttachNames(t: Tree, dp: nat, k: nat, name: string, ip: nat, d: nat, j: nat, m: nat)
    requires TreeOk(t) && CanAttach(t, dp, k, name, ip)
    ensures var t' := Attach(t, dp, k, name, ip);
            UniqueName(t', d, j, m) && DotsOk(t', d) && TargetOk(t', d, m)
  {
    assert CountOk(t, d) && UniqueName(t, d, j, m) && DotsOk(t, d) && TargetOk(t, d, m) && CountOk(t, dp);
    hide TreeOk, Refs;
  }

  lemma AttachParts(t: Tree, dp: nat, k: nat, name: string, ip: nat, d: nat, j: nat, m: nat)
    requires TreeOk(t) && CanAttach(t, dp, k, name, ip)
    ensures var t' := Attach(t, dp, k, name, ip);
            UniqueName(t', d, j, m) && DotsOk(t', d) && TargetOk(t', d, m) && ParentOk(t', d) && OneName(t', j, m, d)
  {
    AttachNames(t, dp, k, name, ip, d, j, m);
    assert CountOk(t, d) && DotsOk(t, d) && ParentOk(t, d) && OneName(t, j, m, d) && CountOk(t, ip) && CountOk(t, dp);
    Unnamed(t, ip, d, m);
    Unnamed(t, ip, j, m);
    hide TreeOk, Refs, UniqueName, TargetOk;
  }

  lemma AttachOk(t: Tree, dp: nat, k: nat, name: string, ip: nat)
    requires TreeOk(t) && CanAttach(t, dp, k, name, ip)
    ensures TreeOk(Attach(t, dp, k, name, ip))
  {
    var t' := Attach(t, dp, k, name, ip);
    assert LinkedDir(t', ROOTINO);
    hide Refs, CountOk, UniqueName, DotsOk, TargetOk, ParentOk, OneName;
    forall i ensures CountOk(t', i) { AttachCount(t, dp, k, name, ip, i); }
    forall d, j, m ensures UniqueName(t', d, j, m) { AttachParts(t, dp, k, name, ip, d, j, m); }
    forall d ensures DotsOk(t', d) && ParentOk(t', d) { AttachParts(t, dp, k, name, ip, d, 0, 0); }
    forall d, m ensures TargetOk(t', d, m) { AttachParts(t, dp, k, name, ip, d, 0, m); }
    forall x, m, d ensures OneName(t', x, m, d) { AttachParts(t, dp, k, name, ip, d, x, m); }
  }

  // ----- unlink

  // Slot k of the linked directory dp names ip, and is neither "." nor "..".
  ghost predicate CanRemove(t: Tree, dp: nat, k: nat, ip: nat) {
    && LinkedDir(t, dp) && 2 <= k < |t.inodes[dp].entries| && t.inodes[dp].entries[k].inum == ip && ip != 0
  }

  // One name less for a file.
  ghost function Remove(t: Tree, dp: nat, k: nat, ip: nat): Tree
    requires dp in t.inodes && k < |t.inodes[dp].entries| && ip in t.inodes
  {
    var x, d := t.inodes[ip], t.inodes[dp];
    t.(inodes := t.inodes[ip := x.(nlink := x.nlink - 1)][dp := d.(entries := Place(d.entries, k, FREE))])
  }

  lemma RemoveRefs(t: Tree, dp: nat, k: nat, ip: nat, i: nat)
    requires TreeOk(t) && CanRemove(t, dp, k, ip) && ip in t.inodes && t.inodes[ip].kind != Dir && i != 0
    ensures Refs(Remove(t, dp, k, ip), i) == Refs(t, i) - {Slot(dp, k)}
    ensures Slot(dp, k) in Refs(t, i) <==> i == ip
  {
    assert DotsOk(t, dp) && UniqueName(t, dp, 0, k) && CountOk(t, dp);
    var t' := Remove(t, dp, k, ip);
    forall s
      ensures s in Refs(t', i) <==> s in Refs(t, i) && s != Slot(dp, k)
    {
      assert Names(t', s.dir, s.index, i) <==> Names(t, s.dir, s.index, i) && s != Slot(dp, k);
    }
  }

  lemma RemoveCount(t: Tree, dp: nat, k: nat, ip: nat, i: nat)
    requires TreeOk(t) && CanRemove(t, dp, k, ip) && ip in t.inodes && t.inodes[ip].kind != Dir
    ensures CountOk(Remove(t, dp, k, ip), i)
  {
    assert CountOk(t, i);
    if i in t.inodes {
      RemoveRefs(t, dp, k, ip, i);
    }
    hide Refs, TreeOk;
  }

  lemma RemoveParts(t: Tree, dp: nat, k: nat, ip: nat, d: nat, j: nat, m: nat)
    requires TreeOk(t) && CanRemove(t, dp, k, ip) && ip in t.inodes && t.inodes[ip].kind != Dir
    ensures var t' := Remove(t, dp, k, ip);
            UniqueName(t', d, j, m) && DotsOk(t', d) && TargetOk(t', d, m) && ParentOk(t', d) && OneName(t', j, m, d)
  {
    assert CountOk(t, d) && UniqueName(t, d, j, m) && DotsOk(t, d) && TargetOk(t, d, m) && ParentOk(t, d)
           && OneName(t, j, m, d);
    hide TreeOk, Refs;
  }

  lemma RemoveOk(t: Tree, dp: nat, k: nat, ip: nat)
    requires TreeOk(t) && CanRemove(t, dp, k, ip) && ip in t.inodes && t.inodes[ip].kind != Dir
    ensures TreeOk(Remove(t, dp, k, ip))
  {
    var t' := Remove(t, dp, k, ip);
    assert LinkedDir(t', ROOTINO);
    hide Refs, CountOk, UniqueName, DotsOk, TargetOk, ParentOk, OneName;
    forall i ensures CountOk(t', i) { RemoveCount(t, dp, k, ip, i); }
    forall d, j, m ensures UniqueName(t', d, j, m) { RemoveParts(t, dp, k, ip, d, j, m); }
    forall d ensures DotsOk(t', d) && ParentOk(t', d) { RemoveParts(t, dp, k, ip, d, 0, 0); }
    forall d, m ensures TargetOk(t', d, m) { RemoveParts(t, dp, k, ip, d, 0, m); }
    forall x, m, d ensures OneName(t', x, m, d) { RemoveParts(t, dp, k, ip, d, x, m); }
  }

  // An empty directory leaves the tree; its ".." counts no longer.
  ghost function Detach(t: Tree, dp: nat, k: nat, ip: nat): Tree
    requires dp in t.inodes && k < |t.inodes[dp].entries| && ip in t.inodes
  {
    var x, d := t.inodes[ip], t.inodes[dp];
    t.(inodes := t.inodes[ip := x.(nlink := x.nlink - 1)]
                         [dp := d.(nlink := d.nlink - 1, entries := Place(d.entries, k, FREE))])
  }

  ghost predicate CanDetach(t: Tree, dp: nat, k: nat, ip: nat) {
    CanRemove(t, dp, k, ip) && ip in t.inodes && t.inodes[ip].kind == Dir && EmptyDir(t.inodes[ip].entries)
  }

  // A directory named by an entry is linked, hangs where the entry says and, if it is
  // empty, has no other name.
  lemma DirRefs(t: Tree, dp: nat, k: nat, ip: nat)
    requires TreeOk(t) && CanDetach(t, dp, k, ip)
    ensures t.inodes[ip].nlink == 1 && Refs(t, ip) == {Slot(dp, k)}
    ensures ip != ROOTINO && ip != dp && |t.inodes[ip].entries| >= 2 && t.inodes[ip].entries[1] == Entry(dp, "..")
    ensures ip in t.up && t.up[ip] == Slot(dp, k)
  {
    assert DotsOk(t, dp) && UniqueName(t, dp, 0, k) && CountOk(t, dp) && CountOk(t, ip);
    assert Slot(dp, k) in Refs(t, ip);
    assert t.inodes[ip].nlink > 0;
    assert OneName(t, dp, k, ip) && DotsOk(t, ip) && ParentOk(t, ip) && ParentOk(t, dp);
    forall s | s in Refs(t, ip)
      ensures s == Slot(dp, k)
    {
      OtherName(t, ip, s);
    }
    assert Refs(t, ip) == {Slot(dp, k)};
  }

  // Any name of an empty directory other than the one in its parent would be the
  // ".." of a child, which it does not have.
  lemma OtherName(t: Tree, ip: nat, s: Slot)
    requires TreeOk(t) && LinkedDir(t, ip) && EmptyDir(t.inodes[ip].entries) && Names(t, s.dir, s.index, ip)
             && ip != ROOTINO
    ensures ip in t.up && s == t.up[ip]
  {
    assert OneName(t, s.dir, s.index, ip) && DotsOk(t, s.dir) && ParentOk(t, s.dir) && CountOk(t, s.dir);
  }

  // The parent of a directory that leaves stays linked itself.
  lemma ParentStays(t: Tree, dp: nat, k: nat, ip: nat)
    requires TreeOk(t) && CanDetach(t, dp, k, ip)
    ensures t.inodes[dp].nlink >= 2
  {
    DirRefs(t, dp, k, ip);
    assert DotsOk(t, dp) && ParentOk(t, dp) && CountOk(t, dp) && LinkedDir(t, ip);
    var own := if dp == ROOTINO then Slot(dp, 1) else t.up[dp];
    assert own in Refs(t, dp) && Slot(ip, 1) in Refs(t, dp) && own != Slot(ip, 1);
    assert {own, Slot(ip, 1)} <= Refs(t, dp);
    SubsetSize({own, Slot(ip, 1)}, Refs(t, dp));
  }

  lemma {:induction false} SubsetSize(a: set<Slot>, b: set<Slot>)
    requires a <= b
    ensures |a| <= |b|
  {
    if a != {} {
      var x :| x in a;
      SubsetSize(a - {x}, b - {x});
    }
  }

  lemma DetachRefs(t: Tree, dp: nat, k: nat, ip: nat, i: nat)
    requires TreeOk(t) && CanDetach(t, dp, k, ip) && i != 0
    ensures Refs(Detach(t, dp, k, ip), i) == Refs(t, i) - {Slot(dp, k)} - {Slot(ip, 1)}
    ensures Slot(dp, k) in Refs(t, i) <==> i == ip
    ensures Slot(ip, 1) in Refs(t, i) <==> i == dp
  {
    DirRefs(t, dp, k, ip);
    ParentStays(t, dp, k, ip);
    assert DotsOk(t, dp) && UniqueName(t, dp, 0, k) && CountOk(t, dp);
    assert DotsOk(t, ip);
    var t' := Detach(t, dp, k, ip);
    forall s
      ensures s in Refs(t', i) <==> s in Refs(t, i) && s != Slot(dp, k) && s != Slot(ip, 1)
    {
      assert Names(t', s.dir, s.index, i) <==> Names(t, s.dir, s.index, i) && s != Slot(dp, k) && s != Slot(ip, 1);
    }
  }

  lemma DetachCount(t: Tree, dp: nat, k: nat, ip: nat, i: nat)
    requires TreeOk(t) && CanDetach(t, dp, k, ip)
    ensures CountOk(Detach(t, dp, k, ip), i)
  {
    hide Refs, TreeOk, EmptyDir;
    CountOf(t, i);
    DirRefs(t, dp, k, ip);
    if i in t.inodes {
      DetachRefs(t, dp, k, ip, i);
      LessTwo(Refs(t, i), Slot(dp, k), Slot(ip, 1));
    }
  }

  lemma CountOf(t: Tree, i: nat)
    requires TreeOk(t)
    ensures CountOk(t, i)
  {
  }

  lemma LessTwo(r: set<Slot>, a: Slot, b: Slot)
    requires a != b
    ensures |r - {a} - {b}| == |r| - (if a in r then 1 else 0) - (if b in r then 1 else 0)
  {
    assert r - {a} - {b} == r - {b} - {a};
  }

  lemma MoreTwo(r: set<Slot>, a: set<Slot>, b: set<Slot>)
    requires |a| <= 1 && |b| <= 1 && r !! a !! b
    ensures |r + a + b| == |r| + |a| + |b|
  {
  }

  lemma DetachParts(t: Tree, dp: nat, k: nat, ip: nat, d: nat, j: nat, m: nat)
    requires TreeOk(t) && CanDetach(t, dp, k, ip)
    ensures var t' := Detach(t, dp, k, ip);
            UniqueName(t', d, j, m) && DotsOk(t', d) && TargetOk(t', d, m) && ParentOk(t', d) && OneName(t', j, m, d)
  {
    assert CountOk(t, d) && UniqueName(t, d, j, m) && DotsOk(t, d) && TargetOk(t, d, m) && ParentOk(t, d)
           && OneName(t, j, m, d);
    DirRefs(t, dp, k, ip);
    ParentStays(t, dp, k, ip);
    hide TreeOk, Refs;
  }

  lemma DetachOk(t: Tree, dp: nat, k: nat, ip: nat)
    requires TreeOk(t) && CanDetach(t, dp, k, ip)
    ensures TreeOk(Detach(t, dp, k, ip)) && Detach(t, dp, k, ip).inodes[ip].nlink == 0
  {
    var t' := Detach(t, dp, k, ip);
    DirRefs(t, dp, k, ip);
    ParentStays(t, dp, k, ip);
    assert LinkedDir(t', ROOTINO);
    hide Refs, CountOk, UniqueName, DotsOk, TargetOk, ParentOk, OneName;
    forall i ensures CountOk(t', i) { DetachCount(t, dp, k, ip, i); }
    forall d, j, m ensures UniqueName(t', d, j, m) { DetachParts(t, dp, k, ip, d, j, m); }
    forall d ensures DotsOk(t', d) && ParentOk(t', d) { DetachParts(t, dp, k, ip, d, 0, 0); }
    forall d, m ensures TargetOk(t', d, m) { DetachParts(t, dp, k, ip, d, 0, m); }
    forall x, m, d ensures OneName(t', x, m, d) { DetachParts(t, dp, k, ip, d, x, m); }
  }

  // ----- the file system mkfs makes

  const DIRSIZ: nat := 14
  const PER_BLOCK: nat := 32   // entries in a block

  // The name a file gets: without a leading underscore, cut to DIRSIZ characters.
  function MkfsName(arg: string): (name: string)
    ensures arg != "" && arg[0] == '_' ==> name <= arg[1..] && |name| == if |arg| <= 15 then |arg| - 1 else 14
    ensures arg == "" || arg[0] != '_' ==> name <= arg && |name| == if |arg| <= 14 then |arg| else 14
  {
    var s := if arg != "" && arg[0] == '_' then arg[1..] else arg;
    if |s| <= DIRSIZ then s else s[..DIRSIZ]
  }

  // Two dots, an entry for every file, and unused entries up to the end of a block, at
  // least one.
  function MkfsEntries(args: seq<string>): (es: seq<Entry>)
    ensures |es| == (|args| + 2) / PER_BLOCK * PER_BLOCK + PER_BLOCK > |args| + 2
    ensures es[0] == Entry(ROOTINO, ".") && es[1] == Entry(ROOTINO, "..")
    ensures forall k :: 2 <= k < |args| + 2 ==> es[k] == Entry(k, MkfsName(args[k - 2]))
    ensures forall k :: |args| + 2 <= k < |es| ==> es[k] == FREE
  {
    [Entry(ROOTINO, "."), Entry(ROOTINO, "..")]
    + seq(|args|, i requires 0 <= i < |args| => Entry(i + 2, MkfsName(args[i])))
    + seq((|args| + 2) / PER_BLOCK * PER_BLOCK + PER_BLOCK - |args| - 2, _ => FREE)
  }

  function MkfsInodes(args: seq<string>): map<nat, Inode> {
    map i: nat | 1 <= i < |args| + 2 :: MkfsInode(args, i)
  }

  function MkfsInode(args: seq<string>, i: nat): Inode {
    if i == ROOTINO then Inode(Dir, 1, MkfsEntries(args)) else Inode(File, 1, [])
  }

  ghost function MkfsTree(args: seq<string>): Tree {
    Tree(MkfsInodes(args), map[ROOTINO := 0], map[])
  }

  // mkfs does not look: the names have to be different and not the dots.
  ghost predicate GoodNames(args: seq<string>) {
    && (forall i :: 0 <= i < |args| ==> MkfsName(args[i]) != "." && MkfsName(args[i]) != "..")
    && (forall i, j :: 0 <= i < j < |args| ==> MkfsName(args[i]) != MkfsName(args[j]))
  }

  lemma MkfsTreeOk(args: seq<string>)
    ensures TreeOk(MkfsTree(args)) <==> GoodNames(args)
  {
    hide MkfsEntries, MkfsName, Refs;
    if GoodNames(args) {
      MkfsGood(args);
    } else if TreeOk(MkfsTree(args)) {
      MkfsBad(args);
    }
  }

  lemma MkfsGood(args: seq<string>)
    requires GoodNames(args)
    ensures TreeOk(MkfsTree(args))
  {
    hide MkfsEntries, MkfsName, Refs;
    var t := MkfsTree(args);
    forall i ensures CountOk(t, i) {
      MkfsCount(args, i);
    }
  }

  lemma MkfsCount(args: seq<string>, i: nat)
    requires forall j :: 0 <= j < |args| ==> MkfsName(args[j]) != "."
    ensures CountOk(MkfsTree(args), i)
  {
    hide MkfsEntries, MkfsName;
    var t := MkfsTree(args);
    if i in t.inodes {
      forall s
        ensures s in Refs(t, i) <==> s == Slot(ROOTINO, i)
      {
        assert Names(t, s.dir, s.index, i) <==> s == Slot(ROOTINO, i);
      }
      assert Refs(t, i) == {Slot(ROOTINO, i)};
    }
  }

  lemma MkfsBad(args: seq<string>)
    requires TreeOk(MkfsTree(args))
    ensures GoodNames(args)
  {
    hide MkfsEntries, MkfsName, Refs;
    var t := MkfsTree(args);
    forall i | 0 <= i < |args|
      ensures MkfsName(args[i]) != "." && MkfsName(args[i]) != ".."
    {
      assert UniqueName(t, ROOTINO, 0, i + 2) && UniqueName(t, ROOTINO, 1, i + 2);
    }
    forall i, j | 0 <= i < j < |args|
      ensures MkfsName(args[i]) != MkfsName(args[j])
    {
      assert UniqueName(t, ROOTINO, i + 2, j + 2);
    }
  }

  // A build that names a program twice, once with the underscore.
  lemma MkfsTwice()
    ensures !TreeOk(MkfsTree(["_cat", "cat"]))
  {
    var args := ["_cat", "cat"];
    MkfsTreeOk(args);
    assert MkfsName(args[0]) == MkfsName(args[1]);
  }

  // ----- a parent that is no longer linked

  // Link counting survives one more name for a file exactly if the directory is linked.
  lemma LinkIffLinked(t: Tree, dp: nat, k: nat, name: string, ip: nat)
    requires TreeOk(t) && ip in t.inodes && t.inodes[ip].kind != Dir && dp in t.inodes && t.inodes[dp].kind == Dir
             && name != "."
    requires var es := t.inodes[dp].entries; 2 <= k <= |es| && (k < |es| ==> es[k].inum == 0) && Unused(es, name)
    ensures TreeOk(Link(t, dp, k, name, ip)) <==> LinkedDir(t, dp)
  {
    if LinkedDir(t, dp) {
      LinkOk(t, dp, k, name, ip);
    } else {
      var t' := Link(t, dp, k, name, ip);
      assert CountOk(t, ip) && CountOk(t, dp);
      forall s
        ensures s in Refs(t', ip) <==> s in Refs(t, ip)
      {
        assert Names(t', s.dir, s.index, ip) <==> Names(t, s.dir, s.index, ip);
      }
      assert Refs(t', ip) == Refs(t, ip);
      assert !CountOk(t', ip);
    }
  }

  // A new file in slot k of directory dp, whatever dp's link count.
  ghost function NewFile(t: Tree, dp: nat, k: nat, name: string, ip: nat, kind: Kind): Tree
    requires dp in t.inodes && k <= |t.inodes[dp].entries| && ip !in t.inodes
  {
    Link(Fresh(t, ip, Inode(kind, 0, [])), dp, k, name, ip)
  }

  // And the same for a new file.
  lemma NewFileIffLinked(t: Tree, dp: nat, k: nat, name: string, ip: nat, kind: Kind)
    requires TreeOk(t) && CanMake(t, ip) && kind != Dir && dp in t.inodes && t.inodes[dp].kind == Dir && name != "."
    requires var es := t.inodes[dp].entries; 2 <= k <= |es| && (k < |es| ==> es[k].inum == 0) && Unused(es, name)
    ensures TreeOk(NewFile(t, dp, k, name, ip, kind)) <==> LinkedDir(t, dp)
  {
    FreshOk(t, ip, Inode(kind, 0, []));
    hide TreeOk;
    LinkIffLinked(Fresh(t, ip, Inode(kind, 0, [])), dp, k, name, ip);
  }

  // mkdir in a directory that has been removed gives it a link again, outside the tree.
  lemma NewDirIffLinked(t: Tree, dp: nat, k: nat, name: string, ip: nat)
    requires TreeOk(t) && CanMake(t, ip) && dp in t.inodes && t.inodes[dp].kind == Dir && name != "."
    requires var es := t.inodes[dp].entries; 2 <= k <= |es| && (k < |es| ==> es[k].inum == 0) && Unused(es, name)
    ensures TreeOk(NewDir(t, dp, k, name, ip)) <==> LinkedDir(t, dp)
  {
    if LinkedDir(t, dp) {
      NewDirOk(t, dp, k, name, ip);
    } else {
      OrphanHasNoPlace(t, dp, k, name, ip);
    }
  }

  lemma OrphanHasNoPlace(t: Tree, dp: nat, k: nat, name: string, ip: nat)
    requires TreeOk(t) && CanMake(t, ip) && dp in t.inodes && t.inodes[dp].kind == Dir && !LinkedDir(t, dp)
    requires 2 <= k <= |t.inodes[dp].entries|
    ensures !ParentOk(NewDir(t, dp, k, name, ip), dp)
  {
    var t' := NewDir(t, dp, k, name, ip);
    assert CountOk(t, dp) && DotsOk(t, dp);
    assert Refs(t, dp) == {};
    forall d, j | j >= 2
      ensures !Names(t', d, j, dp)
    {
      assert Slot(d, j) !in Refs(t, dp);
    }
  }

  // mkdir d, cd d, rmdir d: d has no link any more, and is still the current directory.
  ghost function Removed(): Tree {
    var t := MkfsTree([]);
    var u := NewDir(t, ROOTINO, 2, "d", 2);
    Detach(u, ROOTINO, 2, 2)
  }

  // A file or a directory created there then breaks the tree.
  lemma CreateInUnlinkedDirectory()
    ensures TreeOk(Removed()) && !TreeOk(NewFile(Removed(), 2, 2, "f", 3, File))
            && !TreeOk(NewDir(Removed(), 2, 2, "e", 3))
  {
    hide TreeOk, MkfsEntries, MkfsName;
    var t := MkfsTree([]);
    MkfsTreeOk([]);
    NewDirOk(t, ROOTINO, 2, "d", 2);
    DetachOk(NewDir(t, ROOTINO, 2, "d", 2), ROOTINO, 2, 2);
    NewFileIffLinked(Removed(), 2, 2, "f", 3, File);
    NewDirIffLinked(Removed(), 2, 2, "e", 3);
  }

  // Unlinking the name just linked restores the file system.
  lemma UnlinkUndoesLink(t: Tree, dp: nat, k: nat, name: string, ip: nat)
    requires TreeOk(t) && CanAdd(t, dp, k, name) && k < |t.inodes[dp].entries| && t.inodes[dp].entries[k] == FREE
    requires ip in t.inodes && t.inodes[ip].kind != Dir
    ensures var t' := Link(t, dp, k, name, ip);
            CanRemove(t', dp, k, ip) && Remove(t', dp, k, ip) == t
  {
    assert CountOk(t, ip);
    var t' := Link(t, dp, k, name, ip);
    assert Place(t'.inodes[dp].entries, k, FREE) == t.inodes[dp].entries;
    assert Remove(t', dp, k, ip).inodes == t.inodes;
  }

  // ----- the operations

  const MAX_ENTRIES: nat := 4480   // a directory of MAXFILE blocks

  // dirlink panics when the directory cannot grow.
  ghost predicate HasRoom(es: seq<Entry>) {
    |es| < MAX_ENTRIES || exists k :: 0 <= k < |es| && es[k].inum == 0
  }

  // The slot dirlink writes: the first free one, or a new one at the end.
  ghost predicate FirstFree(es: seq<Entry>, k: nat) {
    k <= |es| && (k < |es| ==> es[k].inum == 0) && forall j :: 0 <= j < k ==> es[j].inum != 0
  }

  // Entry k of dp has this name and may be unlinked: it is not a directory in use.
  ghost predicate Removable(t: Tree, dp: nat, k: nat, name: string) {
    && dp in t.inodes && k < |t.inodes[dp].entries| && t.inodes[dp].entries[k].name == name
    && var ip := t.inodes[dp].entries[k].inum;
       ip != 0 && ip in t.inodes && (t.inodes[ip].kind == Dir ==> EmptyDir(t.inodes[ip].entries))
  }

  lemma OnlyOne(t: Tree, dp: nat, k: nat, name: string)
    requires TreeOk(t) && LinkedDir(t, dp) && k < |t.inodes[dp].entries|
    requires t.inodes[dp].entries[k].inum != 0 && t.inodes[dp].entries[k].name == name
    ensures (exists m :: Removable(t, dp, m, name)) <==> Removable(t, dp, k, name)
  {
    forall m | Removable(t, dp, m, name)
      ensures m == k
    {
      assert UniqueName(t, dp, m, k) && UniqueName(t, dp, k, m);
    }
  }

  datatype Option<T> = None | Some(value: T)

  datatype Creation = Inum(ip: nat) | Refused | NoInode

  class Namespace {
    var inodes: map<nat, Inode>
    ghost var depth: map<nat, nat>
    ghost var up: map<nat, Slot>

    ghost function View(): Tree
      reads this
    {
      Tree(inodes, depth, up)
    }

    ghost predicate Valid()
      reads this
    {
      TreeOk(View())
    }

    // The directory that mkfs writes for its arguments.
    constructor (args: seq<string>)
      ensures View() == MkfsTree(args) && (Valid() <==> GoodNames(args))
    {
      inodes := MkfsInodes(args);
      depth, up := map[ROOTINO := 0], map[];
      new;
      MkfsTreeOk(args);
    }

    method DirLookup(dp: nat, name: string) returns (off: Option<nat>)
      requires dp in inodes && inodes[dp].kind == Dir
      ensures off.None? <==> Unused(inodes[dp].entries, name)
      ensures off.Some? ==>
                && off.value < |inodes[dp].entries| && inodes[dp].entries[off.value].inum != 0
                && inodes[dp].entries[off.value].name == name
    {
      var k := 0;
      while k < |inodes[dp].entries|
        invariant 0 <= k <= |inodes[dp].entries|
        invariant forall j :: 0 <= j < k && inodes[dp].entries[j].inum != 0 ==> inodes[dp].entries[j].name != name
      {
        var de := inodes[dp].entries[k];
        if de.inum != 0 && de.name == name {
          return Some(k);
        }
        k := k + 1;
      }
      return None;
    }

    method DirLink(dp: nat, name: string, inum: nat) returns (ok: bool, ghost k: nat)
      requires dp in inodes && inodes[dp].kind == Dir && HasRoom(inodes[dp].entries)
      modifies `inodes
      ensures ok <==> Unused(old(inodes)[dp].entries, name)
      ensures !ok ==> inodes == old(inodes)
      ensures ok ==>
                && FirstFree(old(inodes)[dp].entries, k)
                && var d := old(inodes)[dp];
                   inodes == old(inodes)[dp := d.(entries := Place(d.entries, k, Entry(inum, name)))]
    {
      k := 0;
      var found := DirLookup(dp, name);
      if found.Some? {
        return false, 0;
      }
      var off := 0;
      while off < |inodes[dp].entries| && inodes[dp].entries[off].inum != 0
        invariant 0 <= off <= |inodes[dp].entries|
        invariant forall j :: 0 <= j < off ==> inodes[dp].entries[j].inum != 0
      {
        off := off + 1;
      }
      inodes := inodes[dp := inodes[dp].(entries := Place(inodes[dp].entries, off, Entry(inum, name)))];
      return true, off;
    }

    method IsDirEmpty(dp: nat) returns (b: bool)
      requires dp in inodes
      ensures b <==> EmptyDir(inodes[dp].entries)
    {
      var k := 2;
      while k < |inodes[dp].entries|
        invariant 2 <= k && forall j :: 2 <= j < k && j < |inodes[dp].entries| ==> inodes[dp].entries[j].inum == 0
      {
        if inodes[dp].entries[k].inum != 0 {
          return false;
        }
        k := k + 1;
      }
      return true;
    }

    // sys_link once both paths are resolved; dp is None if the new path's parent is missing.
    method LinkFile(ip: nat, dp: Option<nat>, name: string) returns (ok: bool, ghost k: nat)
      requires Valid() && ip in inodes
      requires dp.Some? ==> dp.value in inodes && inodes[dp.value].kind == Dir && HasRoom(inodes[dp.value].entries)
      modifies `inodes
      ensures Valid() <==> !ok || (dp.Some? && old(LinkedDir(View(), dp.value)))
      ensures ok <==> old(inodes)[ip].kind != Dir && dp.Some? && Unused(old(inodes)[dp.value].entries, name)
      ensures !ok ==> inodes == old(inodes)
      ensures ok ==>
                && 2 <= k && FirstFree(old(inodes)[dp.value].entries, k)
                && View() == old(Link(View(), dp.value, k, name, ip))
    {
      ok, k := false, 0;
      if inodes[ip].kind == Dir {
        return;
      }
      ghost var t := View();
      hide TreeOk;
      inodes := inodes[ip := inodes[ip].(nlink := inodes[ip].nlink + 1)];
      if dp.Some? {
        Dots(t, dp.value);
        ok, k := DirLink(dp.value, name, ip);
        if ok {
          LinkIffLinked(t, dp.value, k, name, ip);
          assert View() == Link(t, dp.value, k, name, ip);
          return;
        }
      }
      inodes := inodes[ip := inodes[ip].(nlink := inodes[ip].nlink - 1)];
      assert inodes == t.inodes;
    }

    // sys_unlink once the parent is found, which may have been removed itself.  The inode
    // stays until its last user lets go.
    method Unlink(dp: nat, name: string) returns (ok: bool, ghost k: nat)
      requires Valid() && dp in inodes && inodes[dp].kind == Dir
      modifies `inodes
      ensures Valid()
      ensures !ok ==> inodes == old(inodes)
      ensures ok <==> name != "." && name != ".." && exists m :: Removable(old(View()), dp, m, name)
      ensures ok ==>
                && k < |old(inodes)[dp].entries| && old(inodes)[dp].entries[k].name == name
                && var ip := old(inodes)[dp].entries[k].inum;
                && old(CanRemove(View(), dp, k, ip)) && ip in old(inodes)
                && View() == if old(inodes)[ip].kind == Dir then old(Detach(View(), dp, k, ip))
                   else old(Remove(View(), dp, k, ip))
    {
      ok, k := false, 0;
      if name == "." || name == ".." {
        return;
      }
      ghost var t := View();
      var off := DirLookup(dp, name);
      if off.None? {
        return;
      }
      k := off.value;
      var ip := inodes[dp].entries[off.value].inum;
      Named(t, dp, k, ip);
      hide TreeOk;
      assert inodes[ip].nlink >= 1;
      if inodes[ip].kind == Dir {
        var empty := IsDirEmpty(ip);
        if !empty {
          OnlyOne(t, dp, k, name);
          return;
        }
        DetachOk(t, dp, k, ip);
        DirRefs(t, dp, k, ip);
      } else {
        RemoveOk(t, dp, k, ip);
      }
      assert Removable(t, dp, k, name);
      inodes := inodes[dp := inodes[dp].(entries := Place(inodes[dp].entries, off.value, FREE))];
      if inodes[ip].kind == Dir {
        inodes := inodes[dp := inodes[dp].(nlink := inodes[dp].nlink - 1)];
      }
      inodes := inodes[ip := inodes[ip].(nlink := inodes[ip].nlink - 1)];
      ok := true;
      assert inodes == (if t.inodes[ip].kind == Dir then Detach(t, dp, k, ip) else Remove(t, dp, k, ip)).inodes;
    }

    // The last reference to an inode goes: without names it is freed.
    method LastPut(ip: nat)
      requires Valid() && ip in inodes
      modifies `inodes
      ensures Valid() && View() == if old(inodes)[ip].nlink == 0 then old(Drop(View(), ip)) else old(View())
    {
      if inodes[ip].nlink == 0 {
        DropOk(View(), ip);
        inodes := inodes - {ip};
      }
    }

    // The entries of a new directory; its parent gains a link for "..".
    method AddDots(dp: nat, ip: nat)
      requires dp in inodes && ip in inodes && ip != dp && ip != 0 && inodes[ip] == Inode(Dir, 1, [])
      modifies `inodes
      ensures inodes == old(inodes)[dp := old(inodes)[dp].(nlink := old(inodes)[dp].nlink + 1)]
                                   [ip := Inode(Dir, 1, [Entry(ip, "."), Entry(dp, "..")])]
    {
      inodes := inodes[dp := inodes[dp].(nlink := inodes[dp].nlink + 1)];
      var ok, k := DirLink(ip, ".", ip);
      assert inodes[ip].entries == [Entry(ip, ".")];
      ok, k := DirLink(ip, "..", dp);
      assert inodes[ip].entries == [Entry(ip, "."), Entry(dp, "..")];
    }

    // create once the parent is found; ip is the number ialloc finds.  The panic is ilock's,
    // for the ".." of a removed directory whose parent is gone too.
    method Create(dp: nat, name: string, kind: Kind, ip: nat) returns (r: Creation, ghost k: nat)
      requires Valid() && dp in inodes && inodes[dp].kind == Dir && CanMake(View(), ip) && HasRoom(inodes[dp].entries)
      modifies `inodes, `depth, `up
      ensures Valid() <==> !old(Unused(inodes[dp].entries, name)) || old(LinkedDir(View(), dp))
      ensures !old(Unused(inodes[dp].entries, name)) ==>
                && View() == old(View())
                && k < |inodes[dp].entries| && inodes[dp].entries[k].inum != 0 && inodes[dp].entries[k].name == name
                && var i := inodes[dp].entries[k].inum;
                   && (r.NoInode? <==> i !in inodes)
                   && (i in inodes ==> r == if kind == File && inodes[i].kind == File then Inum(i) else Refused)
      ensures old(LinkedDir(View(), dp)) ==> !r.NoInode?
      ensures old(Unused(inodes[dp].entries, name)) ==>
                && r == Inum(ip) && FirstFree(old(inodes)[dp].entries, k) && k >= 2
                && View() == if kind == Dir then old(NewDir(View(), dp, k, name, ip))
                             else old(NewFile(View(), dp, k, name, ip, kind))
    {
      hide TreeOk;
      k := 0;
      ghost var t := View();
      var off := DirLookup(dp, name);
      if off.Some? {
        var i := inodes[dp].entries[off.value].inum;
        TargetOf(t, dp, off.value);
        k := off.value;
        r := if i !in inodes then NoInode else if kind == File && inodes[i].kind == File then Inum(i) else Refused;
        return;
      }
      Dots(t, dp);
      inodes := inodes[ip := Inode(kind, 1, [])];
      var ok;
      if kind == Dir {
        AddDots(dp, ip);
      }
      ok, k := DirLink(dp, name, ip);
      if kind == Dir {
        NewDirIffLinked(t, dp, k, name, ip);
        depth, up := depth[ip := Depth(t, dp) + 1], up[ip := Slot(dp, k)];
        assert inodes == NewDir(t, dp, k, name, ip).inodes;
      } else {
        NewFileIffLinked(t, dp, k, name, ip, kind);
        assert inodes == NewFile(t, dp, k, name, ip, kind).inodes;
      }
      r := Inum(ip);
    }
  }

  // A new directory in slot k of dp.
  ghost function NewDir(t: Tree, dp: nat, k: nat, name: string, ip: nat): Tree
    requires dp in t.inodes && k <= |t.inodes[dp].entries| && ip !in t.inodes
  {
    Attach(Fresh(t, ip, Inode(Dir, 0, [Entry(ip, "."), Entry(dp, "..")])), dp, k, name, ip)
  }

  lemma NewDirOk(t: Tree, dp: nat, k: nat, name: string, ip: nat)
    requires TreeOk(t) && CanMake(t, ip) && CanAdd(t, dp, k, name)
    ensures dp in t.depth && TreeOk(NewDir(t, dp, k, name, ip))
  {
    var x := Inode(Dir, 0, [Entry(ip, "."), Entry(dp, "..")]);
    assert ParentOk(t, dp) && DotsOk(t, dp) && CountOk(t, dp);
    FreshOk(t, ip, x);
    AttachOk(Fresh(t, ip, x), dp, k, name, ip);
  }

  lemma TargetOf(t: Tree, d: nat, k: nat)
    requires TreeOk(t)
    ensures TargetOk(t, d, k)
  {
  }

  lemma Dots(t: Tree, dp: nat)
    requires TreeOk(t) && dp in t.inodes && t.inodes[dp].kind == Dir
    ensures var es := t.inodes[dp].entries;
            |es| >= 2 && es[0].inum != 0 && es[1].inum != 0 && es[0].name == "."
  {
    assert DotsOk(t, dp) && CountOk(t, dp);
  }

  // An entry that lookup finds under an ordinary name can be removed.
  lemma Named(t: Tree, dp: nat, k: nat, ip: nat)
    requires TreeOk(t) && dp in t.inodes && t.inodes[dp].kind == Dir
    requires k < |t.inodes[dp].entries| && t.inodes[dp].entries[k].inum == ip != 0
    requires t.inodes[dp].entries[k].name != "." && t.inodes[dp].entries[k].name != ".."
    ensures CanRemove(t, dp, k, ip) && ip in t.inodes && t.inodes[ip].nlink >= 1
  {
    assert DotsOk(t, dp) && TargetOk(t, dp, k) && CountOk(t, ip) && LinkedDir(t, dp);
    assert Slot(dp, k) in Refs(t, ip);
  }
}
