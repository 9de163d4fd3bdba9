/**
  How many frames an address space takes: one for every node that it gets.
 */
module FrameCount {
  import opened Paging

  // The three tables on the way from the root to a page, and the page itself.
  ghost function TablesOf(vpn: nat): set<Node> {
    var n1 := Parent(Node(0, vpn));
    {Parent(Parent(n1))} + ({Parent(n1)} + {n1})
  }

  ghost function PathOf(vpn: nat): set<Node> {
    TablesOf(vpn) + {Node(0, vpn)}
  }

  // Everything that mapping pages [lo, hi) needs.
  ghost function Paths(lo: nat, hi: nat): set<Node>
    decreases hi
  {
    if hi <= lo then {} else Paths(lo, hi - 1) + PathOf(hi - 1)
  }

  ghost function Lacking(at: Space, nodes: set<Node>): nat {
    |nodes - at.Keys|
  }

  // The space got exactly these nodes, and the count of free frames fell from n to n'
  // by exactly those it did not have.
  ghost predicate Paid(at: Space, at': Space, nodes: set<Node>, n: nat, n': nat) {
    at'.Keys == at.Keys + nodes && n' + Lacking(at, nodes) == n
  }

  lemma PaidNothing(at: Space, nodes: set<Node>, n: nat)
    requires nodes <= at.Keys
    ensures Paid(at, at, nodes, n, n)
  {
    assert nodes - at.Keys == {};
  }

  lemma PaidOne(at: Space, at': Space, c: Node, n: nat)
    requires c !in at && at'.Keys == at.Keys + {c} && n > 0
    ensures Paid(at, at', {c}, n, n - 1)
  {
    assert {c} - at.Keys == {c};
  }

  lemma LackingOne(at: Space, c: Node)
    ensures Lacking(at, {c}) == if c in at then 0 else 1
  {
    assert {c} - at.Keys == if c in at then {} else {c};
  }

  lemma PaidThen(a0: Space, a1: Space, a2: Space, s: set<Node>, t: set<Node>, n0: nat, n1: nat, n2: nat)
    requires Paid(a0, a1, s, n0, n1) && Paid(a1, a2, t, n1, n2)
    ensures Paid(a0, a2, s + t, n0, n2)
  {
    LackingSplit(a0, a1, s, t);
  }

  lemma LackingSplit(a0: Space, a1: Space, s: set<Node>, t: set<Node>)
    requires a1.Keys == a0.Keys + s
    ensures Lacking(a0, s + t) == Lacking(a0, s) + Lacking(a1, t)
  {
    SplitSize(a0.Keys, s, t);
  }

  lemma SplitSize(keys: set<Node>, s: set<Node>, t: set<Node>)
    ensures |(s + t) - keys| == |s - keys| + |t - (keys + s)|
  {
    var all, first, rest := (s + t) - keys, s - keys, t - (keys + s);
    forall n
      ensures n in all <==> n in first || n in rest
    {
    }
    assert all == first + rest;
    UnionSize(first, rest);
  }

  lemma UnionSize(a: set<Node>, b: set<Node>)
    requires a !! b
    ensures |a + b| == |a| + |b|
  {
  }

  // What cannot be paid in the middle cannot be paid from the start.
  lemma PaidFails(a0: Space, a1: Space, s: set<Node>, t: set<Node>, n0: nat, n1: nat)
    requires Paid(a0, a1, s, n0, n1) && n1 < Lacking(a1, t)
    ensures n0 < Lacking(a0, s + t)
  {
    LackingSplit(a0, a1, s, t);
  }

  lemma LackingGrows(at: Space, s: set<Node>, t: set<Node>)
    requires s <= t
    ensures Lacking(at, s) <= Lacking(at, t)
  {
    SplitSize(at.Keys, s, t);
    assert s + t == t;
  }

  // The frame of a page is taken before its tables.
  lemma PagePaid(at: Space, vpn: nat)
    requires Node(0, vpn) !in at
    ensures Lacking(at, PathOf(vpn)) == Lacking(at, TablesOf(vpn)) + 1
  {
    hide TablesOf;
    TablesHigh(vpn);
    SplitSize(at.Keys, TablesOf(vpn), {Node(0, vpn)});
    assert {Node(0, vpn)} - (at.Keys + TablesOf(vpn)) == {Node(0, vpn)};
  }

  lemma TablesHigh(vpn: nat)
    ensures Node(0, vpn) !in TablesOf(vpn)
  {
  }

  lemma {:induction false} PathsGrow(lo: nat, mid: nat, hi: nat)
    requires mid <= hi
    ensures Paths(lo, mid) <= Paths(lo, hi)
    decreases hi
  {
    hide PathOf;
    if mid < hi {
      PathsGrow(lo, mid, hi - 1);
    }
  }

  // One more page of a range.
  lemma PathsStep(a0: Space, a1: Space, a2: Space, lo: nat, k: nat, n0: nat, n1: nat, n2: nat)
    requires lo <= k && Paid(a0, a1, Paths(lo, k), n0, n1) && Paid(a1, a2, PathOf(k), n1, n2)
    ensures Paid(a0, a2, Paths(lo, k + 1), n0, n2)
  {
    PaidThen(a0, a1, a2, Paths(lo, k), PathOf(k), n0, n1, n2);
  }

  lemma PathsFail(a0: Space, a1: Space, lo: nat, k: nat, hi: nat, n0: nat, n1: nat)
    requires lo <= k < hi && Paid(a0, a1, Paths(lo, k), n0, n1) && n1 < Lacking(a1, PathOf(k))
    ensures n0 < Lacking(a0, Paths(lo, hi))
  {
    PaidFails(a0, a1, Paths(lo, k), PathOf(k), n0, n1);
    PathsGrow(lo, k + 1, hi);
    LackingGrows(a0, Paths(lo, k + 1), Paths(lo, hi));
  }

  // No frame is left for one of the tables.
  lemma TableFails(a0: Space, a1: Space, have: set<Node>, c: Node, nodes: set<Node>, n0: nat)
    requires Paid(a0, a1, have, n0, 0) && c !in a1 && have + {c} <= nodes
    ensures n0 < Lacking(a0, nodes)
  {
    LackingOne(a1, c);
    PaidFails(a0, a1, have, {c}, n0, 0);
    LackingGrows(a0, have + {c}, nodes);
  }

  lemma PaidIsEnough(at: Space, at': Space, nodes: set<Node>, n: nat, n': nat)
    requires Paid(at, at', nodes, n, n')
    ensures Lacking(at, nodes) <= n
  {
  }

  lemma PaidCount(at: Space, at': Space, nodes: set<Node>, n: nat, n': nat)
    requires Paid(at, at', nodes, n, n')
    ensures n' + Lacking(at, nodes) == n
  {
  }

  lemma NothingPaid(at: Space, lo: nat, n: nat)
    ensures Paid(at, at, Paths(lo, lo), n, n)
  {
    PaidNothing(at, {}, n);
  }

  // A new root has none of the nodes below it.
  lemma RootAlone(at: Space, root: nat, hi: nat)
    requires at == map[Root := root]
    ensures Lacking(at, Paths(1, hi)) == |Paths(1, hi)|
  {
    NoRoot(1, hi);
    assert Paths(1, hi) - at.Keys == Paths(1, hi);
  }

  lemma {:induction false} NoRoot(lo: nat, hi: nat)
    ensures Root !in Paths(lo, hi)
    decreases hi
  {
    if lo < hi {
      NoRoot(lo, hi - 1);
    }
  }

  // The tables and then the page.
  lemma KeysPath(at: Space, at1: Space, at': Space, vpn: nat, n: nat, n': nat)
    requires Paid(at, at1, TablesOf(vpn), n, n') && at'.Keys == at1.Keys + {Node(0, vpn)}
    ensures at'.Keys == at.Keys + PathOf(vpn) && n' + Lacking(at, TablesOf(vpn)) == n
  {
    hide Lacking, TablesOf;
  }
}
