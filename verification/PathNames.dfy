/**
  Path names: how a path is cut into names, and which inode a list of names leads to.

  `World` stands for the directory contents on disk: which inodes are directories,
  which of those are empty, and what a directory says under a name.
 */
module PathNames {
  import opened References

  const DIRSIZ: nat := 14

  datatype World =
    World(isDir: Id -> bool, isFile: Id -> bool, dirEmpty: Id -> bool, lookup: (Id, string) -> Option<nat>)

  function RunLength(path: string): (n: nat)
    ensures n <= |path| && (forall i :: 0 <= i < n ==> path[i] != '/') && (n < |path| ==> path[n] == '/')
  {
    if path == "" || path[0] == '/' then 0 else 1 + RunLength(path[1..])
  }

  function Clip(s: string): string {
    if |s| <= DIRSIZ then s else s[..DIRSIZ]
  }

  // The names between the slashes, each cut to DIRSIZ characters.
  function Elements(path: string): seq<string>
    decreases |path|
  {
    if path == "" then []
    else if path[0] == '/' then Elements(path[1..])
    else [Clip(path[..RunLength(path)])] + Elements(path[RunLength(path)..])
  }

  method SkipElem(path: string) returns (rest: Option<string>, name: string)
    ensures rest.None? <==> Elements(path) == []
    ensures rest.Some? ==>
              && Elements(path) == [name] + Elements(rest.value) && |rest.value| < |path|
              && (rest.value == "" <==> Elements(rest.value) == [])
  {
    name := "";
    var s := path;
    while s != "" && s[0] == '/'
      invariant |s| <= |path| && Elements(s) == Elements(path)
      decreases |s|
    {
      s := s[1..];
    }
    if s == "" {
      return None, name;
    }
    var n := 0;
    while n < |s| && s[n] != '/'
      invariant 0 <= n <= |s| && forall i :: 0 <= i < n ==> s[i] != '/'
    {
      n := n + 1;
    }
    assert n == RunLength(s);
    name := Clip(s[..n]);
    var t := s[n..];
    while t != "" && t[0] == '/'
      invariant |t| < |path| && Elements(t) == Elements(s[n..])
      decreases |t|
    {
      t := t[1..];
    }
    return Some(t), name;
  }

  function Last(names: seq<string>): string {
    if names == [] then "" else names[|names| - 1]
  }

  // What a path leads to from an inode, or its parent.
  function Walk(w: World, id: Id, elems: seq<string>, parent: bool): Option<Id>
    decreases |elems|
  {
    if elems == [] then (if parent then None else Some(id))
    else if !w.isDir(id) then None
    else if parent && |elems| == 1 then Some(id)
    else
      match w.lookup(id, elems[0])
      case None => None
      case Some(n) => Walk(w, Id(id.dev, n), elems[1..], parent)
  }

  // ----- every way to write a list of names

  ghost predicate Slashes(g: string) {
    forall i :: 0 <= i < |g| ==> g[i] == '/'
  }

  ghost predicate Name(s: string) {
    s != "" && forall i :: 0 <= i < |s| ==> s[i] != '/'
  }

  // One run of slashes in front of every name and one at the end; only the first and
  // the last may be empty.
  ghost predicate Fits(gaps: seq<string>, names: seq<string>) {
    && |gaps| == |names| + 1 && (forall i :: 0 <= i < |gaps| ==> Slashes(gaps[i]))
    && (forall i :: 0 <= i < |names| ==> Name(names[i]))
    && forall i :: 0 < i < |names| ==> gaps[i] != ""
  }

  ghost function Join(gaps: seq<string>, names: seq<string>): string
    requires |gaps| == |names| + 1
    decreases |names|
  {
    if names == [] then gaps[0] else gaps[0] + names[0] + Join(gaps[1..], names[1..])
  }

  // The names, each cut to its first 14 characters.
  ghost predicate Cut(names: seq<string>, elems: seq<string>) {
    |elems| == |names| && forall i :: 0 <= i < |names| ==> elems[i] <= names[i] && |elems[i]| == Shorter(|names[i]|, 14)
  }

  ghost function Shorter(a: nat, b: nat): nat {
    if a < b then a else b
  }

  lemma {:induction false} SkipSlashes(g: string, rest: string)
    requires Slashes(g)
    ensures Elements(g + rest) == Elements(rest)
    decreases |g|
  {
    if g == "" {
      assert g + rest == rest;
    } else {
      assert (g + rest)[1..] == g[1..] + rest;
      SkipSlashes(g[1..], rest);
    }
  }

  lemma {:induction false} RunOf(name: string, rest: string)
    requires (forall i :: 0 <= i < |name| ==> name[i] != '/') && (rest == "" || rest[0] == '/')
    ensures RunLength(name + rest) == |name|
    decreases |name|
  {
    if name == "" {
      assert name + rest == rest;
    } else {
      assert (name + rest)[1..] == name[1..] + rest;
      RunOf(name[1..], rest);
    }
  }

  lemma FirstName(name: string, rest: string)
    requires Name(name) && (rest == "" || rest[0] == '/')
    ensures Elements(name + rest) == [Clip(name)] + Elements(rest)
  {
    var path := name + rest;
    RunOf(name, rest);
    assert path[..|name|] == name && path[|name|..] == rest;
    assert path[0] == name[0];
  }

  // However the slashes are chosen, the names come out again, each cut.
  lemma {:induction false} ElementsOfJoin(gaps: seq<string>, names: seq<string>)
    requires Fits(gaps, names)
    ensures Cut(names, Elements(Join(gaps, names)))
    decreases |names|
  {
    hide Elements, Slashes, Name;
    if names == [] {
      SkipSlashes(gaps[0], "");
      NoElements();
      assert gaps[0] + "" == gaps[0];
    } else {
      var rest := Join(gaps[1..], names[1..]);
      FitsTail(gaps, names);
      ElementsOfJoin(gaps[1..], names[1..]);
      JoinStarts(gaps[1..], names[1..], gaps, names);
      FirstName(names[0], rest);
      SkipSlashes(gaps[0], names[0] + rest);
      assert gaps[0] + (names[0] + rest) == gaps[0] + names[0] + rest;
      assert names == [names[0]] + names[1..];
    }
  }

  lemma NoElements()
    ensures Elements("") == []
  {
  }

  lemma FitsTail(gaps: seq<string>, names: seq<string>)
    requires Fits(gaps, names) && names != []
    ensures Name(names[0]) && Slashes(gaps[0]) && Fits(gaps[1..], names[1..])
  {
    hide Name, Slashes;
  }

  lemma JoinStarts(gaps: seq<string>, names: seq<string>, allGaps: seq<string>, all: seq<string>)
    requires Fits(allGaps, all) && all != [] && gaps == allGaps[1..] && names == all[1..]
    ensures |gaps| == |names| + 1 && (Join(gaps, names) == "" || Join(gaps, names)[0] == '/')
  {
    assert gaps[0] == allGaps[1] && Slashes(allGaps[1]);
    assert names != [] ==> gaps[0] != "";
  }

  // Every path is some writing of names.
  lemma {:induction false} PathIsJoin(path: string) returns (gaps: seq<string>, names: seq<string>)
    ensures Fits(gaps, names) && path == Join(gaps, names)
    ensures path != "" && path[0] != '/' ==> gaps[0] == "" && names != []
    decreases |path|
  {
    if path == "" {
      gaps, names := [""], [];
    } else if path[0] == '/' {
      gaps, names := PathIsJoin(path[1..]);
      gaps := gaps[0 := "/" + gaps[0]];
      assert path == "/" + path[1..];
      LongerGap(path[1..], gaps, names);
    } else {
      var n := RunLength(path);
      gaps, names := PathIsJoin(path[n..]);
      MoreNames(path[..n], gaps, names);
      gaps, names := [""] + gaps, [path[..n]] + names;
      assert path == path[..n] + path[n..];
    }
  }

  lemma LongerGap(rest: string, gaps: seq<string>, names: seq<string>)
    requires gaps != [] && |gaps[0]| > 0 && gaps[0][0] == '/'
    requires var old0 := gaps[0 := gaps[0][1..]]; Fits(old0, names) && rest == Join(old0, names)
    ensures Fits(gaps, names) && Join(gaps, names) == "/" + rest
  {
    var old0 := gaps[0 := gaps[0][1..]];
    assert old0[1..] == gaps[1..] && gaps[0] == "/" + old0[0];
    forall i | 0 <= i < |gaps|
      ensures Slashes(gaps[i])
    {
      assert Slashes(old0[i]);
    }
    forall i | 0 < i < |names|
      ensures gaps[i] != ""
    {
      assert old0[i] != "";
    }
  }

  lemma MoreNames(name: string, gaps: seq<string>, names: seq<string>)
    requires Name(name) && Fits(gaps, names) && (Join(gaps, names) == "" || Join(gaps, names)[0] == '/')
    ensures Fits([""] + gaps, [name] + names) && Join([""] + gaps, [name] + names) == name + Join(gaps, names)
  {
    var g, ns := [""] + gaps, [name] + names;
    assert g[1..] == gaps && ns[1..] == names;
    if names != [] {
      assert Name(names[0]) && Join(gaps, names) == gaps[0] + names[0] + Join(gaps[1..], names[1..]);
    }
    assert names != [] ==> gaps[0] != "";
    assert "" + name == name;
    forall i | 0 < i < |ns|
      ensures g[i] != ""
    {
      assert i > 1 ==> g[i] == gaps[i - 1];
    }
  }

  // A path has these elements exactly if it is such a writing of names that, cut, are
  // these.
  lemma ElementsIff(path: string, elems: seq<string>)
    ensures Elements(path) == elems <==>
            exists gaps, names :: Fits(gaps, names) && path == Join(gaps, names) && Cut(names, elems)
  {
    hide Elements, Join, Cut;
    if Elements(path) == elems {
      var gaps, names := PathIsJoin(path);
      ElementsOfJoin(gaps, names);
    }
    forall gaps, names | Fits(gaps, names) && path == Join(gaps, names) && Cut(names, elems)
      ensures Elements(path) == elems
    {
      ElementsOfJoin(gaps, names);
      CutOnce(names, Elements(path), elems);
    }
  }

  lemma CutOnce(names: seq<string>, a: seq<string>, b: seq<string>)
    requires Cut(names, a) && Cut(names, b)
    ensures a == b
  {
    forall i | 0 <= i < |a|
      ensures a[i] == b[i]
    {
      assert a[i] == names[i][..|a[i]|] == b[i];
    }
  }

  // ----- where a list of names leads

  // ids are the inodes met on the way: each but the last is a directory that has the
  // next one under the next name, on the same device.
  ghost predicate Leads(w: World, ids: seq<Id>, elems: seq<string>) {
    && |ids| == |elems| + 1
    && forall k :: 0 <= k < |elems| ==>
         w.isDir(ids[k]) && ids[k + 1].dev == ids[k].dev && w.lookup(ids[k], elems[k]) == Some(ids[k + 1].inum)
  }

  lemma LeadsTail(w: World, ids: seq<Id>, elems: seq<string>)
    requires Leads(w, ids, elems) && elems != []
    ensures Leads(w, ids[1..], elems[1..])
  {
    var rest, more := ids[1..], elems[1..];
    forall k | 0 <= k < |more|
      ensures w.isDir(rest[k]) && rest[k + 1].dev == rest[k].dev && w.lookup(rest[k], more[k]) == Some(rest[k + 1].inum)
    {
      assert rest[k] == ids[k + 1] && rest[k + 1] == ids[k + 2] && more[k] == elems[k + 1];
    }
  }

  lemma {:induction false} LeadsWalk(w: World, ids: seq<Id>, elems: seq<string>)
    requires Leads(w, ids, elems)
    ensures Walk(w, ids[0], elems, false) == Some(ids[|elems|])
    decreases |elems|
  {
    if elems != [] {
      LeadsTail(w, ids, elems);
      assert ids[1] == Id(ids[0].dev, ids[1].inum);
      LeadsWalk(w, ids[1..], elems[1..]);
    }
  }

  lemma {:induction false} WalkLeads(w: World, id: Id, elems: seq<string>) returns (ids: seq<Id>)
    requires Walk(w, id, elems, false).Some?
    ensures Leads(w, ids, elems) && ids[0] == id && Walk(w, id, elems, false) == Some(ids[|elems|])
    decreases |elems|
  {
    if elems == [] {
      ids := [id];
    } else {
      var rest := WalkLeads(w, Id(id.dev, w.lookup(id, elems[0]).value), elems[1..]);
      ids := [id] + rest;
      forall k | 0 <= k < |elems|
        ensures w.isDir(ids[k]) && ids[k + 1].dev == ids[k].dev && w.lookup(ids[k], elems[k]) == Some(ids[k + 1].inum)
      {
        assert k > 0 ==> ids[k] == rest[k - 1] && ids[k + 1] == rest[k] && elems[k] == elems[1..][k - 1];
      }
    }
  }

  // namei finds x exactly if there is a way to it.
  lemma WalkIff(w: World, id: Id, elems: seq<string>, x: Id)
    ensures Walk(w, id, elems, false) == Some(x) <==>
            exists ids :: Leads(w, ids, elems) && ids[0] == id && ids[|elems|] == x
  {
    if Walk(w, id, elems, false) == Some(x) {
      var ids := WalkLeads(w, id, elems);
    }
    forall ids | Leads(w, ids, elems) && ids[0] == id && ids[|elems|] == x
      ensures Walk(w, id, elems, false) == Some(x)
    {
      LeadsWalk(w, ids, elems);
    }
  }

  // nameiparent goes all the way but the last name, to something that is a directory;
  // there is no parent for no names.
  lemma {:induction false} ParentIsFront(w: World, id: Id, elems: seq<string>, d: Id)
    ensures Walk(w, id, elems, true) == Some(d) <==>
            elems != [] && Walk(w, id, elems[..|elems| - 1], false) == Some(d) && w.isDir(d)
    decreases |elems|
  {
    if |elems| > 1 && w.isDir(id) && w.lookup(id, elems[0]).Some? {
      ParentIsFront(w, Id(id.dev, w.lookup(id, elems[0]).value), elems[1..], d);
      assert elems[1..][..|elems| - 2] == elems[..|elems| - 1][1..];
    } else if |elems| == 1 {
      assert elems[..0] == [];
    }
  }

  // namei is nameiparent and then one lookup.
  lemma {:induction false} ParentThenLookup(w: World, id: Id, elems: seq<string>)
    requires elems != []
    ensures Walk(w, id, elems, false) ==
            match Walk(w, id, elems, true)
            case None => None
            case Some(d) =>
              match w.lookup(d, Last(elems))
              case None => None
              case Some(n) => Some(Id(d.dev, n))
    decreases |elems|
  {
    if |elems| == 1 {
      assert elems[1..] == [];
    } else if w.isDir(id) && w.lookup(id, elems[0]).Some? {
      ParentThenLookup(w, Id(id.dev, w.lookup(id, elems[0]).value), elems[1..]);
    }
  }

  lemma ParentHasNames(w: World, id: Id, elems: seq<string>)
    ensures Walk(w, id, elems, true).Some? ==> elems != []
  {
  }
}
