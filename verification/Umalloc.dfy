/**
  The user-level allocator of section 8.7 of The C Programming Language, 2nd ed.:
  free blocks on one circular list in address order, coalesced with their
  neighbours when freed.

  Addresses and sizes count header-sized units (16 bytes).  `ptr` and `size` are
  the two header fields of every unit of memory; a unit inside an allocated block
  belongs to the user.  Three ghost fields describe the heap: `nodes` is the free
  list from the static header `base` upwards, `live` the allocated blocks with
  their sizes, and `own` says for every unit obtained from sbrk which block holds
  it.
 */
module Umalloc {

  const MINCORE: nat := 4096

  datatype Owner = Free(block: int) | Live(block: int)
  datatype Option<T> = None | Some(value: T)

  function NUnits(nbytes: nat): (n: nat)
    ensures n >= 1 && (n - 1) * 16 >= nbytes && (n > 1 ==> (n - 2) * 16 < nbytes)
  {
    (nbytes + 15) / 16 + 1
  }

  function MaxCore(nu: nat): (n: nat)
    ensures n >= nu && n >= 4096 && (n == nu || n == 4096)
  {
    if nu < MINCORE then MINCORE else nu
  }

  ghost function Succ(i: nat, n: nat): nat {
    if i + 1 == n then 0 else i + 1
  }

  datatype Heap = Heap(base: int, ptr: map<int, int>, size: map<int, int>, nodes: seq<int>, live: map<int, int>,
                       own: map<int, Owner>)

  // Node j: its fields exist, it links to the next one, and only base is empty.
  ghost predicate NodeOk(h: Heap, j: nat)
    requires j < |h.nodes|
  {
    var p := h.nodes[j];
    && p in h.ptr && p in h.size && h.ptr[p] == h.nodes[Succ(j, |h.nodes|)]
    && (if j == 0 then p == h.base && h.size[p] == 0 else h.size[p] >= 1)
  }

  // Node j ends at or before node m.
  ghost predicate Ordered(h: Heap, j: nat, m: nat)
    requires j < m < |h.nodes|
  {
    h.nodes[j] in h.size && h.nodes[j] < h.nodes[m] && h.nodes[j] + h.size[h.nodes[j]] <= h.nodes[m]
  }

  // One circular list in address order, starting at base.
  ghost predicate ListOk(h: Heap) {
    && h.nodes != []
    && (forall j :: 0 <= j < |h.nodes| ==> NodeOk(h, j))
    && (forall j, m :: 0 <= j < m < |h.nodes| ==> Ordered(h, j, m))
  }

  // Node k ends where node k + 1 begins.
  ghost predicate Touch(h: Heap, k: nat) {
    k + 1 < |h.nodes| && h.nodes[k] in h.size && h.nodes[k] + h.size[h.nodes[k]] == h.nodes[k + 1]
  }

  // Unit u belongs to block o.
  ghost predicate At(h: Heap, u: int, o: Owner) {
    u in h.own && h.own[u] == o
  }

  // The owner recorded for a unit is a block that contains it.
  ghost predicate Contains(h: Heap, o: Owner, u: int) {
    match o
    case Free(b) => b in h.nodes && b != h.base && b in h.size && b <= u < b + h.size[b]
    case Live(a) => a in h.live && a <= u < a + h.live[a]
  }

  ghost predicate FreeUnit(h: Heap, j: nat, u: int)
    requires j < |h.nodes|
  {
    var p := h.nodes[j];
    j >= 1 && p in h.size && p <= u < p + h.size[p] ==> At(h, u, Free(p))
  }

  ghost predicate LiveUnit(h: Heap, a: int, u: int) {
    && (a in h.live ==> a in h.size && h.size[a] == h.live[a] && h.live[a] >= 1)
    && (a in h.live && a <= u < a + h.live[a] ==> At(h, u, Live(a)))
  }

  ghost predicate OwnedUnit(h: Heap, u: int) {
    u in h.own ==> Contains(h, h.own[u], u) && u > h.base
  }

  // Free and live blocks partition the units in own.
  ghost predicate OwnOk(h: Heap) {
    && (forall j, u :: 0 <= j < |h.nodes| ==> FreeUnit(h, j, u))
    && (forall a, u :: LiveUnit(h, a, u))
    && (forall u :: OwnedUnit(h, u))
  }

  ghost predicate HeapOk(h: Heap) {
    ListOk(h) && OwnOk(h)
  }

  // No two free blocks touch.
  ghost predicate Coalesced(h: Heap) {
    forall k :: 0 <= k < |h.nodes| ==> !Touch(h, k)
  }

  ghost function Retag(own: map<int, Owner>, a: int, n: int, tag: Owner): (r: map<int, Owner>)
    ensures r.Keys == own.Keys
  {
    map u | u in own :: if a <= u < a + n then tag else own[u]
  }

  lemma RetagAt(own: map<int, Owner>, a: int, n: int, tag: Owner, u: int)
    requires u in own
    ensures Retag(own, a, n, tag)[u] == if a <= u < a + n then tag else own[u]
  {
  }

  ghost function InsertAt(s: seq<int>, i: nat, x: int): (r: seq<int>)
    requires i <= |s|
    ensures |r| == |s| + 1
  {
    s[..i] + [x] + s[i..]
  }

  lemma InsertAtIndex(s: seq<int>, i: nat, x: int, k: nat)
    requires i <= |s| && k <= |s|
    ensures InsertAt(s, i, x)[k] == if k < i then s[k] else if k == i then x else s[k - 1]
  {
  }

  lemma InsertAtKeeps(s: seq<int>, i: nat, x: int, y: int)
    requires i <= |s|
    ensures x in InsertAt(s, i, x) && (y in s ==> y in InsertAt(s, i, x))
  {
    InsertAtIndex(s, i, x, i);
    if y in s {
      var k :| 0 <= k < |s| && s[k] == y;
      InsertAtIndex(s, i, x, if k < i then k else k + 1);
    }
  }

  ghost function RemoveAt(s: seq<int>, i: nat): (r: seq<int>)
    requires i < |s|
    ensures |r| == |s| - 1
  {
    s[..i] + s[i + 1..]
  }

  lemma RemoveAtIndex(s: seq<int>, i: nat, k: nat)
    requires i < |s| && k < |s| - 1
    ensures RemoveAt(s, i)[k] == if k < i then s[k] else s[k + 1]
  {
  }

  lemma RemoveAtKeeps(s: seq<int>, i: nat, y: int)
    requires i < |s|
    ensures y in s && y != s[i] ==> y in RemoveAt(s, i)
  {
    if y in s && y != s[i] {
      var k :| 0 <= k < |s| && s[k] == y;
      RemoveAtIndex(s, i, if k < i then k else k - 1);
    }
  }

  // Nodes are distinct, and distinct from live blocks.
  lemma NodesDistinct(h: Heap, j: nat, m: nat)
    requires ListOk(h) && j < |h.nodes| && m < |h.nodes| && j != m
    ensures h.nodes[j] != h.nodes[m]
  {
    assert if j < m then Ordered(h, j, m) else Ordered(h, m, j);
  }

  lemma NodeNotLive(h: Heap, k: nat)
    requires HeapOk(h) && k < |h.nodes|
    ensures h.nodes[k] !in h.live
  {
    var p := h.nodes[k];
    assert NodeOk(h, k) && FreeUnit(h, k, p) && LiveUnit(h, p, p) && OwnedUnit(h, p);
  }

  // ----- putting a live block on the list

  // Block bp belongs right after node i.
  ghost predicate Place(h: Heap, i: nat, bp: int) {
    i < |h.nodes| && h.nodes[i] < bp && (i + 1 == |h.nodes| || bp < h.nodes[i + 1])
  }

  // A live block overlaps neither neighbour.
  lemma Gaps(h: Heap, i: nat, bp: int)
    requires HeapOk(h) && Place(h, i, bp) && bp in h.live
    ensures h.nodes[i] in h.size && h.nodes[i] + h.size[h.nodes[i]] <= bp
    ensures i + 1 < |h.nodes| ==> bp + h.live[bp] <= h.nodes[i + 1]
    ensures bp in h.size && h.size[bp] == h.live[bp] >= 1 && h.base < bp
  {
    assert NodeOk(h, i) && LiveUnit(h, bp, bp) && FreeUnit(h, i, bp) && OwnedUnit(h, bp);
    if i + 1 < |h.nodes| {
      var q := h.nodes[i + 1];
      assert NodeOk(h, i + 1) && FreeUnit(h, i + 1, q) && LiveUnit(h, bp, q);
    }
  }

  ghost function Inserted(h: Heap, i: nat, bp: int): Heap
    requires HeapOk(h) && Place(h, i, bp) && bp in h.live
  {
    assert NodeOk(h, i);
    h.(ptr := h.ptr[bp := h.ptr[h.nodes[i]]][h.nodes[i] := bp],
       nodes := InsertAt(h.nodes, i + 1, bp),
       live := h.live - {bp}, own := Retag(h.own, bp, h.live[bp], Free(bp)))
  }

  lemma InsertedNode(h: Heap, i: nat, bp: int, k: nat)
    requires HeapOk(h) && Place(h, i, bp) && bp in h.live && k <= |h.nodes|
    ensures NodeOk(Inserted(h, i, bp), k)
  {
    Gaps(h, i, bp);
    var n := |h.nodes|;
    InsertAtIndex(h.nodes, i + 1, bp, k);
    InsertAtIndex(h.nodes, i + 1, bp, Succ(k, n + 1));
    assert NodeOk(h, i);
    hide InsertAt;
    if k != i + 1 {
      var o := if k <= i then k else k - 1;
      assert NodeOk(h, o);
      NodeNotLive(h, o);
      if o != i {
        NodesDistinct(h, o, i);
      }
    }
  }

  lemma OrderedAt(h: Heap, j: nat, m: nat)
    requires ListOk(h) && j < |h.nodes| && m < |h.nodes|
    ensures NodeOk(h, j) && (j < m ==> Ordered(h, j, m))
  {
  }

  lemma InsertedOrder(h: Heap, i: nat, bp: int, k: nat, m: nat)
    requires HeapOk(h) && Place(h, i, bp) && bp in h.live && k < m <= |h.nodes|
    ensures Ordered(Inserted(h, i, bp), k, m)
  {
    Gaps(h, i, bp);
    hide ListOk, OwnOk, InsertAt, Retag;
    InsertAtIndex(h.nodes, i + 1, bp, k);
    InsertAtIndex(h.nodes, i + 1, bp, m);
    var j, l := if k <= i then k else k - 1, if m <= i then m else m - 1;
    OrderedAt(h, j, i);
    OrderedAt(h, j, l);
    if i + 1 < |h.nodes| {
      OrderedAt(h, i + 1, l);
    }
  }

  lemma InsertedUnits(h: Heap, i: nat, bp: int, k: nat, a: int, u: int)
    requires HeapOk(h) && Place(h, i, bp) && bp in h.live && k <= |h.nodes|
    ensures var g := Inserted(h, i, bp); FreeUnit(g, k, u) && LiveUnit(g, a, u) && OwnedUnit(g, u)
  {
    Gaps(h, i, bp);
    hide ListOk, InsertAt;
    InsertAtIndex(h.nodes, i + 1, bp, k);
    assert LiveUnit(h, bp, u) && LiveUnit(h, a, u) && OwnedUnit(h, u);
    assert FreeUnit(h, if k <= i then k else k - 1, u);
    InsertAtKeeps(h.nodes, i + 1, bp, if u in h.own then h.own[u].block else bp);
  }

  lemma InsertedOk(h: Heap, i: nat, bp: int)
    requires HeapOk(h) && Place(h, i, bp) && bp in h.live
    ensures HeapOk(Inserted(h, i, bp))
  {
    var g := Inserted(h, i, bp);
    forall k | 0 <= k < |g.nodes| ensures NodeOk(g, k) { InsertedNode(h, i, bp, k); }
    forall k, m | 0 <= k < m < |g.nodes| ensures Ordered(g, k, m) { InsertedOrder(h, i, bp, k, m); }
    forall k, u | 0 <= k < |g.nodes| ensures FreeUnit(g, k, u) { InsertedUnits(h, i, bp, k, u, u); }
    forall a, u ensures LiveUnit(g, a, u) { InsertedUnits(h, i, bp, 0, a, u); }
    forall u ensures OwnedUnit(g, u) { InsertedUnits(h, i, bp, 0, u, u); }
  }

  // ----- merging a node with the one that follows it

  ghost function Merged(h: Heap, k: nat): Heap
    requires HeapOk(h) && Touch(h, k)
  {
    assert NodeOk(h, k) && NodeOk(h, k + 1);
    var p, q := h.nodes[k], h.nodes[k + 1];
    h.(ptr := h.ptr[p := h.ptr[q]], size := h.size[p := h.size[p] + h.size[q]],
       nodes := RemoveAt(h.nodes, k + 1), own := Retag(h.own, q, h.size[q], Free(p)))
  }

  // base is empty and below everything, so it never touches anything.
  lemma TouchNotBase(h: Heap, k: nat)
    requires ListOk(h) && Touch(h, k)
    ensures k >= 1
  {
    assert NodeOk(h, 0) && Ordered(h, k, k + 1);
  }

  lemma MergedNode(h: Heap, k: nat, j: nat)
    requires HeapOk(h) && Touch(h, k) && j < |h.nodes| - 1
    ensures NodeOk(Merged(h, k), j)
  {
    hide RemoveAt, OwnOk;
    TouchNotBase(h, k);
    var n := |h.nodes|;
    RemoveAtIndex(h.nodes, k + 1, j);
    RemoveAtIndex(h.nodes, k + 1, Succ(j, n - 1));
    var o := if j <= k then j else j + 1;
    assert NodeOk(h, o) && NodeOk(h, k) && NodeOk(h, k + 1);
    if o != k {
      NodesDistinct(h, o, k);
    }
  }

  lemma MergedOrder(h: Heap, k: nat, j: nat, m: nat)
    requires HeapOk(h) && Touch(h, k) && j < m < |h.nodes| - 1
    ensures Ordered(Merged(h, k), j, m)
  {
    hide RemoveAt, OwnOk;
    RemoveAtIndex(h.nodes, k + 1, j);
    RemoveAtIndex(h.nodes, k + 1, m);
    var o, l := if j <= k then j else j + 1, if m <= k then m else m + 1;
    assert Ordered(h, o, l) && (k + 1 < l ==> Ordered(h, k + 1, l));
    if o != k {
      NodesDistinct(h, o, k);
    }
  }

  // The two nodes that are merged, and any other.
  lemma MergedPair(h: Heap, k: nat, o: nat)
    requires HeapOk(h) && Touch(h, k) && o < |h.nodes|
    ensures var p, q := h.nodes[k], h.nodes[k + 1];
            && k >= 1 && p in h.ptr && q in h.ptr && p in h.size && q in h.size && h.size[p] >= 1 && h.size[q] >= 1
            && p !in h.live && q !in h.live && p != h.base && p != q
            && (o != k ==> h.nodes[o] != p) && (o != k + 1 ==> h.nodes[o] != q)
  {
    TouchNotBase(h, k);
    NodeNotLive(h, k);
    NodeNotLive(h, k + 1);
    assert NodeOk(h, 0) && NodeOk(h, k) && NodeOk(h, k + 1);
    NodesDistinct(h, k, k + 1);
    NodesDistinct(h, 0, k);
    if o != k {
      NodesDistinct(h, o, k);
    }
    if o != k + 1 {
      NodesDistinct(h, o, k + 1);
    }
  }

  lemma MergedUnits(h: Heap, k: nat, j: nat, a: int, u: int)
    requires HeapOk(h) && Touch(h, k) && j < |h.nodes| - 1
    ensures var g := Merged(h, k); FreeUnit(g, j, u) && LiveUnit(g, a, u)
  {
    var o := if j <= k then j else j + 1;
    MergedPair(h, k, o);
    hide ListOk, RemoveAt, Retag;
    RemoveAtIndex(h.nodes, k + 1, j);
    assert FreeUnit(h, o, u) && FreeUnit(h, k, u) && FreeUnit(h, k + 1, u) && LiveUnit(h, a, u);
    if u in h.own {
      RetagAt(h.own, h.nodes[k + 1], h.size[h.nodes[k + 1]], Free(h.nodes[k]), u);
    }
  }

  lemma MergedOwned(h: Heap, k: nat, u: int)
    requires HeapOk(h) && Touch(h, k)
    ensures OwnedUnit(Merged(h, k), u)
  {
    MergedPair(h, k, 0);
    hide ListOk, RemoveAt, Retag;
    assert FreeUnit(h, k, u) && FreeUnit(h, k + 1, u) && OwnedUnit(h, u);
    RemoveAtKeeps(h.nodes, k + 1, h.nodes[k]);
    if u in h.own {
      RetagAt(h.own, h.nodes[k + 1], h.size[h.nodes[k + 1]], Free(h.nodes[k]), u);
      RemoveAtKeeps(h.nodes, k + 1, h.own[u].block);
    }
  }

  lemma MergedOk(h: Heap, k: nat)
    requires HeapOk(h) && Touch(h, k)
    ensures HeapOk(Merged(h, k))
  {
    var g := Merged(h, k);
    forall j | 0 <= j < |g.nodes| ensures NodeOk(g, j) { MergedNode(h, k, j); }
    forall j, m | 0 <= j < m < |g.nodes| ensures Ordered(g, j, m) { MergedOrder(h, k, j, m); }
    forall j, u | 0 <= j < |g.nodes| ensures FreeUnit(g, j, u) { MergedUnits(h, k, j, u, u); }
    forall a, u ensures LiveUnit(g, a, u) { MergedUnits(h, k, 0, a, u); }
    forall u ensures OwnedUnit(g, u) { MergedOwned(h, k, u); }
  }

  // ----- which neighbours touch

  lemma InsertedTouch(h: Heap, i: nat, bp: int)
    requires HeapOk(h) && Coalesced(h) && Place(h, i, bp) && bp in h.live
    ensures var g := Inserted(h, i, bp);
            && g.nodes[i + 1] == bp && g.nodes[i] == h.nodes[i] && h.nodes[i] in h.size && bp in h.size
            && (Touch(g, i) <==> h.nodes[i] + h.size[h.nodes[i]] == bp)
            && (Touch(g, i + 1) <==> i + 1 < |h.nodes| && bp + h.live[bp] == h.nodes[i + 1])
            && forall k :: 0 <= k < |g.nodes| && Touch(g, k) ==> k == i || k == i + 1
  {
    Gaps(h, i, bp);
    hide OwnOk, ListOk, InsertAt;
    var g := Inserted(h, i, bp);
    InsertAtIndex(h.nodes, i + 1, bp, i);
    InsertAtIndex(h.nodes, i + 1, bp, i + 1);
    if i + 1 < |h.nodes| {
      InsertAtIndex(h.nodes, i + 1, bp, i + 2);
    }
    forall k | 0 <= k < |g.nodes| && Touch(g, k)
      ensures k == i || k == i + 1
    {
      InsertAtIndex(h.nodes, i + 1, bp, k);
      InsertAtIndex(h.nodes, i + 1, bp, k + 1);
      assert !Touch(h, if k < i then k else if k > i + 1 then k - 1 else 0);
    }
  }

  lemma MergedTouch(h: Heap, k: nat, j: nat)
    requires HeapOk(h) && Touch(h, k) && j < |h.nodes| - 1
    ensures Touch(Merged(h, k), j) ==> Touch(h, if j < k then j else j + 1)
  {
    NodeOrder(h, k, j);
    hide OwnOk, ListOk, RemoveAt;
    RemoveAtIndex(h.nodes, k + 1, j);
    if j + 1 < |h.nodes| - 1 {
      RemoveAtIndex(h.nodes, k + 1, j + 1);
    }
  }

  lemma NodeOrder(h: Heap, k: nat, j: nat)
    requires ListOk(h) && k + 1 < |h.nodes| && j < |h.nodes| - 1
    ensures h.nodes[k + 1] in h.size
    ensures j < k ==> h.nodes[j] != h.nodes[k] && h.nodes[j] in h.size
    ensures j > k ==> h.nodes[j + 1] != h.nodes[k] && h.nodes[j + 1] in h.size
  {
    assert NodeOk(h, k + 1) && NodeOk(h, j) && NodeOk(h, j + 1);
    if j < k {
      NodesDistinct(h, j, k);
    } else {
      NodesDistinct(h, j + 1, k);
    }
  }

  // The node after i, or i itself, has at least n units.
  ghost predicate RoomNear(h: Heap, i: nat, n: int) {
    && i < |h.nodes|
    && var m := Succ(i, |h.nodes|);
       || (h.nodes[i] in h.size && h.size[h.nodes[i]] >= n)
       || (h.nodes[m] in h.size && h.size[h.nodes[m]] >= n)
  }

  // ----- what free does to the heap

  // Insert, then merge with the upper neighbour, then with the lower.
  ghost function Freed(h: Heap, i: nat, bp: int): Heap
    requires HeapOk(h) && Place(h, i, bp) && bp in h.live
  {
    InsertedOk(h, i, bp);
    var g := Inserted(h, i, bp);
    var g1 := if Touch(g, i + 1) then MergedOk(g, i + 1); Merged(g, i + 1) else g;
    if Touch(g1, i) then Merged(g1, i) else g1
  }

  lemma InsertedSizes(h: Heap, i: nat, bp: int)
    requires HeapOk(h) && Place(h, i, bp) && bp in h.live
    ensures var g := Inserted(h, i, bp);
            && i + 2 <= |g.nodes| && g.nodes[i] == h.nodes[i] && g.nodes[i + 1] == bp && bp in g.size
               && g.size[bp] == h.live[bp]
            && h.nodes[i] in g.size && g.size[h.nodes[i]] >= 0
            && (i + 2 < |g.nodes| ==> g.nodes[i + 2] in g.size && g.size[g.nodes[i + 2]] >= 1)
  {
    Gaps(h, i, bp);
    InsertedOk(h, i, bp);
    var g := Inserted(h, i, bp);
    InsertAtIndex(h.nodes, i + 1, bp, i);
    InsertAtIndex(h.nodes, i + 1, bp, i + 1);
    assert NodeOk(g, i);
    if i + 2 < |g.nodes| {
      assert NodeOk(g, i + 2);
    }
  }

  lemma FreedOk(h: Heap, i: nat, bp: int)
    requires HeapOk(h) && Coalesced(h) && Place(h, i, bp) && bp in h.live
    ensures var r := Freed(h, i, bp);
            HeapOk(r) && Coalesced(r) && r.live == h.live - {bp} && r.own.Keys == h.own.Keys && r.base == h.base
            && i < |r.nodes| && r.nodes[i] == h.nodes[i]
            && RoomNear(r, i, h.live[bp])
  {
    hide ListOk, OwnOk, InsertAt, RemoveAt, Retag;
    InsertedOk(h, i, bp);
    InsertedTouch(h, i, bp);
    InsertedSizes(h, i, bp);
    var g := Inserted(h, i, bp);
    var g1 := if Touch(g, i + 1) then Merged(g, i + 1) else g;
    if Touch(g, i + 1) {
      MergedOk(g, i + 1);
      forall k | 0 <= k < |g1.nodes| && Touch(g1, k)
        ensures k == i
      {
        MergedTouch(g, i + 1, k);
      }
      RemoveAtIndex(g.nodes, i + 2, i);
      RemoveAtIndex(g.nodes, i + 2, i + 1);
    }
    if Touch(g1, i) {
      MergedOk(g1, i);
      forall k | 0 <= k < |g1.nodes| - 1
        ensures !Touch(Merged(g1, i), k)
      {
        MergedTouch(g1, i, k);
      }
      RemoveAtIndex(g1.nodes, i + 1, i);
    }
  }

  // ----- taking a whole node, or its tail, for the user

  ghost predicate Usable(h: Heap, j: nat, n: int) {
    1 <= j < |h.nodes| && h.nodes[j] in h.size && h.nodes[j] in h.ptr && n >= 1 && h.size[h.nodes[j]] >= n
  }

  ghost function Taken(h: Heap, j: nat): Heap
    requires 1 <= j < |h.nodes| && h.nodes[j] in h.ptr && h.nodes[j] in h.size
  {
    var p := h.nodes[j];
    h.(ptr := h.ptr[h.nodes[j - 1] := h.ptr[p]], nodes := RemoveAt(h.nodes, j),
       live := h.live[p := h.size[p]], own := Retag(h.own, p, h.size[p], Live(p)))
  }

  lemma TakenList(h: Heap, j: nat, k: nat, m: nat)
    requires HeapOk(h) && Usable(h, j, 1) && k < |h.nodes| - 1 && m < |h.nodes| - 1
    ensures var g := Taken(h, j);
            && NodeOk(g, k) && (k < m ==> Ordered(g, k, m))
            && (Touch(g, k) ==> Touch(h, if k < j then k else k + 1))
  {
    hide OwnOk, RemoveAt;
    var n := |h.nodes|;
    RemoveAtIndex(h.nodes, j, k);
    RemoveAtIndex(h.nodes, j, m);
    RemoveAtIndex(h.nodes, j, Succ(k, n - 1));
    var o, l := if k < j then k else k + 1, if m < j then m else m + 1;
    assert NodeOk(h, o) && NodeOk(h, j) && NodeOk(h, j - 1);
    assert o < l ==> Ordered(h, o, l);
    if o != j - 1 {
      NodesDistinct(h, o, j - 1);
    }
    if k == j - 1 && j + 1 < n {
      assert Ordered(h, j - 1, j) && Ordered(h, j, j + 1);
    }
  }

  lemma TakenUnits(h: Heap, j: nat, k: nat, a: int, u: int)
    requires HeapOk(h) && Usable(h, j, 1) && k < |h.nodes| - 1
    ensures var g := Taken(h, j); FreeUnit(g, k, u) && LiveUnit(g, a, u) && OwnedUnit(g, u)
  {
    var p := h.nodes[j];
    NodeNotLive(h, j);
    var o := if k < j then k else k + 1;
    NodesDistinct(h, o, j);
    assert NodeOk(h, j);
    hide ListOk, RemoveAt;
    RemoveAtIndex(h.nodes, j, k);
    assert FreeUnit(h, o, u) && FreeUnit(h, j, u) && LiveUnit(h, a, u) && OwnedUnit(h, u);
    if u in h.own {
      RemoveAtKeeps(h.nodes, j, h.own[u].block);
    }
  }

  lemma TakenOk(h: Heap, j: nat)
    requires HeapOk(h) && Coalesced(h) && Usable(h, j, 1)
    ensures var g := Taken(h, j); HeapOk(g) && Coalesced(g)
  {
    var g := Taken(h, j);
    forall k | 0 <= k < |g.nodes| ensures NodeOk(g, k) && !Touch(g, k) { TakenList(h, j, k, 0); }
    forall k, m | 0 <= k < m < |g.nodes| ensures Ordered(g, k, m) { TakenList(h, j, k, m); }
    forall k, u | 0 <= k < |g.nodes| ensures FreeUnit(g, k, u) { TakenUnits(h, j, k, u, u); }
    forall a, u ensures LiveUnit(g, a, u) { TakenUnits(h, j, 0, a, u); }
    forall u ensures OwnedUnit(g, u) { TakenUnits(h, j, 0, u, u); }
  }

  ghost function Carved(h: Heap, j: nat, n: int): Heap
    requires j < |h.nodes| && h.nodes[j] in h.size
  {
    var p := h.nodes[j];
    var q := p + h.size[p] - n;
    h.(size := h.size[p := h.size[p] - n][q := n], live := h.live[q := n], own := Retag(h.own, q, n, Live(q)))
  }

  // The tail of a node is nobody's header.
  lemma TailFresh(h: Heap, j: nat, n: int, k: nat, a: int)
    requires HeapOk(h) && Usable(h, j, n) && h.size[h.nodes[j]] > n && k < |h.nodes|
    ensures var q := h.nodes[j] + h.size[h.nodes[j]] - n; h.nodes[k] != q && (a in h.live ==> a != q)
  {
    var q := h.nodes[j] + h.size[h.nodes[j]] - n;
    assert NodeOk(h, k) && FreeUnit(h, j, q) && FreeUnit(h, k, q) && LiveUnit(h, a, q) && NodeOk(h, j);
    if k != j {
      NodesDistinct(h, k, j);
    }
    if k == 0 {
      assert Ordered(h, 0, j);
    }
  }

  lemma CarvedList(h: Heap, j: nat, n: int, k: nat, m: nat)
    requires HeapOk(h) && Usable(h, j, n) && h.size[h.nodes[j]] > n && k < |h.nodes| && m < |h.nodes|
    ensures var g := Carved(h, j, n); NodeOk(g, k) && (k < m ==> Ordered(g, k, m)) && (Touch(g, k) ==> Touch(h, k))
  {
    TailFresh(h, j, n, k, h.base);
    assert NodeOk(h, k) && NodeOk(h, j) && (k < m ==> Ordered(h, k, m));
    if k != j {
      NodesDistinct(h, k, j);
    } else if k + 1 < |h.nodes| {
      assert Ordered(h, k, k + 1);
    }
  }

  lemma CarvedUnits(h: Heap, j: nat, n: int, k: nat, a: int, u: int)
    requires HeapOk(h) && Usable(h, j, n) && h.size[h.nodes[j]] > n && k < |h.nodes|
    ensures var g := Carved(h, j, n); FreeUnit(g, k, u) && LiveUnit(g, a, u) && OwnedUnit(g, u)
  {
    TailFresh(h, j, n, k, a);
    NodeNotLive(h, j);
    assert NodeOk(h, k) && NodeOk(h, j);
    if k != j {
      NodesDistinct(h, k, j);
    }
    assert FreeUnit(h, k, u) && FreeUnit(h, j, u) && LiveUnit(h, a, u) && OwnedUnit(h, u);
    if u in h.own && h.own[u].Free? {
      var b :| 0 <= b < |h.nodes| && h.nodes[b] == h.own[u].block;
      TailFresh(h, j, n, b, a);
    } else if u in h.own {
      TailFresh(h, j, n, j, h.own[u].block);
    }
  }

  lemma CarvedOk(h: Heap, j: nat, n: int)
    requires HeapOk(h) && Coalesced(h) && Usable(h, j, n) && h.size[h.nodes[j]] > n
    ensures var g := Carved(h, j, n); HeapOk(g) && Coalesced(g)
  {
    var g := Carved(h, j, n);
    forall k | 0 <= k < |g.nodes| ensures NodeOk(g, k) && !Touch(g, k) { CarvedList(h, j, n, k, 0); }
    forall k, m | 0 <= k < m < |g.nodes| ensures Ordered(g, k, m) { CarvedList(h, j, n, k, m); }
    forall k, u | 0 <= k < |g.nodes| ensures FreeUnit(g, k, u) { CarvedUnits(h, j, n, k, u, u); }
    forall a, u ensures LiveUnit(g, a, u) { CarvedUnits(h, j, n, 0, a, u); }
    forall u ensures OwnedUnit(g, u) { CarvedUnits(h, j, n, 0, u, u); }
  }

  // ----- memory from sbrk: it starts out as one live block

  ghost predicate FreshCore(h: Heap, hp: int, nu: int) {
    nu >= 1 && h.base < hp && forall u :: hp <= u < hp + nu ==> u !in h.own
  }

  ghost function Units(a: int, n: int): (s: set<int>)
    ensures forall u :: u in s <==> a <= u < a + n
    decreases n
  {
    if n <= 0 then {} else Units(a, n - 1) + {a + n - 1}
  }

  ghost function Extended(h: Heap, hp: int, nu: int): Heap {
    h.(size := h.size[hp := nu], live := h.live[hp := nu], own := h.own + map u | u in Units(hp, nu) :: Live(hp))
  }

  lemma ExtendedUnits(h: Heap, hp: int, nu: int, k: nat, m: nat, a: int, u: int)
    requires HeapOk(h) && FreshCore(h, hp, nu) && k < |h.nodes| && m < |h.nodes|
    ensures var g := Extended(h, hp, nu);
            && NodeOk(g, k) && (k < m ==> Ordered(g, k, m)) && (Touch(g, k) ==> Touch(h, k))
            && FreeUnit(g, k, u) && LiveUnit(g, a, u) && OwnedUnit(g, u)
  {
    assert NodeOk(h, k) && (k < m ==> Ordered(h, k, m)) && FreeUnit(h, k, h.nodes[k]) && LiveUnit(h, hp, hp)
           && LiveUnit(h, a, a);
    assert FreeUnit(h, k, u) && LiveUnit(h, a, u) && OwnedUnit(h, u);
    if u in h.own && h.own[u].Free? {
      var b :| 0 <= b < |h.nodes| && h.nodes[b] == h.own[u].block;
      assert NodeOk(h, b) && FreeUnit(h, b, h.nodes[b]);
    }
  }

  lemma ExtendedOk(h: Heap, hp: int, nu: int)
    requires HeapOk(h) && Coalesced(h) && FreshCore(h, hp, nu)
    ensures var g := Extended(h, hp, nu); HeapOk(g) && Coalesced(g)
  {
    var g := Extended(h, hp, nu);
    forall k | 0 <= k < |g.nodes| ensures NodeOk(g, k) && !Touch(g, k) { ExtendedUnits(h, hp, nu, k, 0, 0, 0); }
    forall k, m | 0 <= k < m < |g.nodes| ensures Ordered(g, k, m) { ExtendedUnits(h, hp, nu, k, m, 0, 0); }
    forall k, u | 0 <= k < |g.nodes| ensures FreeUnit(g, k, u) { ExtendedUnits(h, hp, nu, k, 0, 0, u); }
    forall a, u ensures LiveUnit(g, a, u) { ExtendedUnits(h, hp, nu, 0, 0, a, u); }
    forall u ensures OwnedUnit(g, u) { ExtendedUnits(h, hp, nu, 0, 0, 0, u); }
  }

  // ----- the search loops

  // Steps from node a to node b, following the links.
  ghost function Dist(a: nat, b: nat, n: nat): (d: int)
    requires a < n && b < n
    ensures 0 <= d < n && (d == 0 <==> a == b)
    ensures a != b ==> d == 1 + if b >= Succ(a, n) then b - Succ(a, n) else b - Succ(a, n) + n
  {
    if b >= a then b - a else b - a + n
  }

  // Every block has its place on the list.
  lemma {:induction false} FindPlace(h: Heap, bp: int, lo: nat) returns (i: nat)
    requires ListOk(h) && lo < |h.nodes| && h.nodes[lo] < bp
    requires forall k :: 0 <= k < |h.nodes| ==> h.nodes[k] != bp
    ensures Place(h, i, bp)
    decreases |h.nodes| - lo
  {
    if lo + 1 == |h.nodes| || bp < h.nodes[lo + 1] {
      i := lo;
    } else {
      i := FindPlace(h, bp, lo + 1);
    }
  }

  // free's loop stops at node j exactly if j is the place.
  lemma StopsAtPlace(h: Heap, i: nat, j: nat, bp: int)
    requires ListOk(h) && Place(h, i, bp) && j < |h.nodes| && h.base < bp
    requires forall k :: 0 <= k < |h.nodes| ==> h.nodes[k] != bp
    ensures var p := h.nodes[j];
            && p in h.ptr
            && var q := h.ptr[p];
               (p < bp < q || (p >= q && (bp > p || bp < q))) <==> j == i
  {
    var n := |h.nodes|;
    assert NodeOk(h, j) && NodeOk(h, 0);
    assert (j + 1 < n ==> Ordered(h, j, j + 1)) && (j > 0 ==> Ordered(h, 0, j));
    assert (i < j ==> Ordered(h, i, j)) && (j < i ==> Ordered(h, j, i));
    assert i + 1 < j ==> Ordered(h, i + 1, j);
    assert j + 1 < i ==> Ordered(h, j + 1, i);
  }

  // ----- what the allocator leaves alone

  // Cells inside a block that stays allocated keep both fields.
  ghost predicate LiveCell(h: Heap, g: Heap, a: int, u: int) {
    a in h.live && a in g.live && a <= u < a + h.live[a] ==>
      && (u in h.ptr <==> u in g.ptr) && (u in h.ptr && u in g.ptr ==> h.ptr[u] == g.ptr[u])
      && (u in h.size <==> u in g.size) && (u in h.size && u in g.size ==> h.size[u] == g.size[u])
      && g.live[a] == h.live[a]
  }

  ghost predicate Untouched(h: Heap, g: Heap) {
    forall a, u :: LiveCell(h, g, a, u)
  }

  lemma FreedUntouched(h: Heap, i: nat, bp: int)
    requires HeapOk(h) && Place(h, i, bp) && bp in h.live
    ensures Untouched(h, Freed(h, i, bp))
  {
    var g := Freed(h, i, bp);
    forall a, u
      ensures LiveCell(h, g, a, u)
    {
      var p := h.nodes[i];
      assert LiveUnit(h, a, p) && LiveUnit(h, a, bp) && LiveUnit(h, bp, bp) && FreeUnit(h, i, p) && NodeOk(h, i)
             && OwnedUnit(h, p);
      InsertedSizes(h, i, bp);
      InsertedOk(h, i, bp);
      var g0 := Inserted(h, i, bp);
      if Touch(g0, i + 1) {
        RemoveAtIndex(g0.nodes, i + 2, i);
      }
    }
  }

  lemma TakenUntouched(h: Heap, j: nat)
    requires HeapOk(h) && Usable(h, j, 1)
    ensures Untouched(h, Taken(h, j))
  {
    forall a, u
      ensures LiveCell(h, Taken(h, j), a, u)
    {
      var p, q := h.nodes[j], h.nodes[j - 1];
      NodeNotLive(h, j);
      assert LiveUnit(h, a, q) && FreeUnit(h, j - 1, q) && NodeOk(h, j - 1) && OwnedUnit(h, q);
    }
  }

  lemma CarvedUntouched(h: Heap, j: nat, n: int)
    requires HeapOk(h) && Usable(h, j, n) && h.size[h.nodes[j]] > n
    ensures Untouched(h, Carved(h, j, n))
  {
    forall a, u
      ensures LiveCell(h, Carved(h, j, n), a, u)
    {
      var p := h.nodes[j];
      var q := p + h.size[p] - n;
      TailFresh(h, j, n, j, a);
      assert NodeOk(h, j) && LiveUnit(h, a, p) && LiveUnit(h, a, q) && FreeUnit(h, j, p) && FreeUnit(h, j, q);
    }
  }

  class Allocator {
    const base: int
    var ptr: map<int, int>
    var size: map<int, int>
    var freep: Option<int>   // None before the first malloc
    ghost var nodes: seq<int>
    ghost var live: map<int, int>
    ghost var own: map<int, Owner>

    ghost function View(): Heap
      reads this
    {
      Heap(base, ptr, size, nodes, live, own)
    }

    ghost predicate Valid()
      reads this
    {
      match freep
      case None => nodes == [] && live == map[] && own == map[]
      case Some(p) => HeapOk(View()) && Coalesced(View()) && p in nodes
    }

    constructor (base: int)
      ensures Valid() && this.base == base && live == map[] && own == map[]
    {
      this.base := base;
      ptr, size, freep := map[], map[], None;
      nodes, live, own := [], map[], map[];
    }

    // The user stores into an allocated block, past its header.
    method Store(ghost a: int, u: int, x: int, y: int)
      requires Valid() && a in live && a < u < a + live[a]
      modifies `ptr, `size
      ensures Valid() && ptr == old(ptr)[u := x] && size == old(size)[u := y]
    {
      StoreOk(View(), a, u, x, y);
      ptr, size := ptr[u := x], size[u := y];
    }

    // bp is the header of an allocated block (the user's pointer minus one unit).
    method Free(bp: int) returns (ghost i: nat)
      requires Valid() && bp in live
      modifies `ptr, `size, `freep, `nodes, `live, `own
      ensures Valid() && freep.Some?
      ensures live == old(live) - {bp} && own.Keys == old(own.Keys)
      ensures Untouched(old(View()), View())
      ensures i < |nodes| && freep.value == nodes[i] && RoomNear(View(), i, old(live)[bp])
    {
      hide ListOk, OwnOk, Coalesced, Freed, RoomNear;
      ghost var h := View();
      var p;
      p, i := FindSlot(bp);
      FreedOk(h, i, bp);
      FreedUntouched(h, i, bp);
      FreedFields(h, i, bp);
      if bp + size[bp] == ptr[p] {
        size := size[bp := size[bp] + size[ptr[p]]];
        ptr := ptr[bp := ptr[ptr[p]]];
      } else {
        ptr := ptr[bp := ptr[p]];
      }
      if p + size[p] == bp {
        size := size[p := size[p] + size[bp]];
        ptr := ptr[p := ptr[bp]];
      } else {
        ptr := ptr[p := bp];
      }
      freep := Some(p);
      ghost var r := Freed(h, i, bp);
      nodes, live, own := r.nodes, r.live, r.own;
      assert View() == r;
    }

    // free's search: the node that bp belongs behind.
    method FindSlot(bp: int) returns (p: int, ghost i: nat)
      requires Valid() && bp in live
      ensures Place(View(), i, bp) && p == nodes[i]
    {
      ghost var h := View();
      ghost var n := |nodes|;
      LivePlace(h, bp);
      i := FindPlace(h, bp, 0);
      p := freep.value;
      ghost var j :| 0 <= j < n && nodes[j] == p;
      hide ListOk, OwnOk, Coalesced;
      StopsAtPlace(h, i, j, bp);
      while !(bp > p && bp < ptr[p])
        invariant 0 <= j < n && p == nodes[j] && p in ptr
        invariant (p < bp < ptr[p] || (p >= ptr[p] && (bp > p || bp < ptr[p]))) <==> j == i
        decreases Dist(j, i, n)
      {
        if p >= ptr[p] && (bp > p || bp < ptr[p]) {
          break;
        }
        NextNode(h, j);
        p := ptr[p];
        j := Succ(j, n);
        StopsAtPlace(h, i, j, bp);
      }
    }

    // Gets at least nu units from sbrk, whose answer is brk, and frees them.
    method MoreCore(nu: nat, brk: Option<int>) returns (ok: bool, ghost i: nat)
      requires Valid() && freep.Some? && (brk.Some? ==> FreshCore(View(), brk.value, MaxCore(nu)))
      modifies `ptr, `size, `freep, `nodes, `live, `own
      ensures ok == brk.Some?
      ensures !ok ==> View() == old(View()) && freep == old(freep)
      ensures ok ==>
                && Valid() && freep.Some? && live == old(live)
                && own.Keys == old(own.Keys) + Units(brk.value, MaxCore(nu))
                && Untouched(old(View()), View())
                && i < |nodes| && freep.value == nodes[i] && RoomNear(View(), i, MaxCore(nu))
    {
      hide HeapOk, Coalesced, RoomNear, Untouched, Units, FreshCore, Extended;
      ok, i := false, 0;
      if brk.Some? {
        ghost var h := View();
        var hp := brk.value;
        var n := MaxCore(nu);
        ExtendedOk(h, hp, n);
        ExtendedUntouched(h, hp, n);
        size := size[hp := n];
        ghost var g := Extended(h, hp, n);
        live, own := g.live, g.own;
        assert View() == g;
        i := Free(hp);
        UntouchedTransitive(h, g, View());
        ok := true;
      }
    }

    // Takes nunits from the node p, from its end if it is larger.
    method Allocate(p: int, prevp: int, nunits: nat, ghost j: nat) returns (a: int)
      requires Valid() && freep.Some? && Usable(View(), j, nunits) && p == nodes[j] && prevp == nodes[j - 1]
      modifies `ptr, `size, `freep, `nodes, `live, `own
      ensures Valid() && a !in old(live) && live == old(live)[a := nunits] && own.Keys == old(own.Keys)
      ensures Untouched(old(View()), View())
    {
      hide ListOk, OwnOk, Coalesced, Untouched;
      ghost var h := View();
      NodeNotLive(h, j);
      if size[p] == nunits {
        TakenOk(h, j);
        TakenUntouched(h, j);
        RemoveAtIndex(nodes, j, j - 1);
        ptr := ptr[prevp := ptr[p]];
        ghost var g := Taken(h, j);
        nodes, live, own := g.nodes, g.live, g.own;
        assert View() == g;
        a := p;
      } else {
        CarvedOk(h, j, nunits);
        CarvedUntouched(h, j, nunits);
        size := size[p := size[p] - nunits];
        a := p + size[p];
        TailFresh(h, j, nunits, j, a);
        size := size[a := nunits];
        ghost var g := Carved(h, j, nunits);
        live, own := g.live, g.own;
        assert View() == g;
      }
      freep := Some(prevp);
    }

    // Returns the user's pointer, one unit past the header.  `brk` is what sbrk
    // will answer if it is asked; it is asked at most once, and malloc fails only if
    // sbrk does and no free block is large enough.
    method Malloc(nbytes: nat, brk: Option<int>) returns (r: Option<int>)
      requires Valid() && (brk.Some? ==> FreshCore(View(), brk.value, MaxCore(NUnits(nbytes))))
      modifies `ptr, `size, `freep, `nodes, `live, `own
      ensures Valid()
      ensures r.Some? ==>
                && r.value - 1 !in old(live) && live == old(live)[r.value - 1 := NUnits(nbytes)]
                && (live[r.value - 1] - 1) * 16 >= nbytes
      ensures r.None? ==> brk.None? && live == old(live) && AllSmall(View(), NUnits(nbytes))
      ensures own.Keys == old(own.Keys)
              || (brk.Some? && own.Keys == old(own.Keys) + Units(brk.value, MaxCore(NUnits(nbytes))))
      ensures Untouched(old(View()), View())
    {
      hide HeapOk, Coalesced, Untouched;
      ghost var h := View();
      if freep.None? {
        Start();
        UntouchedNone(h, View());
      } else {
        UntouchedSame(h);
      }
      ghost var g := View();
      r := Search(NUnits(nbytes), brk);
      UntouchedTransitive(h, g, View());
    }

    // malloc's loop, from the node after freep round to freep.
    method Search(nunits: nat, brk: Option<int>) returns (r: Option<int>)
      requires Valid() && freep.Some? && nunits >= 1 && (brk.Some? ==> FreshCore(View(), brk.value, MaxCore(nunits)))
      modifies `ptr, `size, `freep, `nodes, `live, `own
      ensures Valid()
      ensures r.Some? ==> r.value - 1 !in old(live) && live == old(live)[r.value - 1 := nunits]
      ensures r.None? ==> brk.None? && live == old(live) && AllSmall(View(), nunits)
      ensures own.Keys == old(own.Keys) || (brk.Some? && own.Keys == old(own.Keys) + Units(brk.value, MaxCore(nunits)))
      ensures Untouched(old(View()), View())
    {
      hide HeapOk, Coalesced, Untouched, RoomNear, Usable, Scanned, Ahead, AllSmall, FreshCore, Units, MaxCore, NodeOk,
        Dist, Succ, Cursor;
      UntouchedSame(View());
      var prevp := freep.value;
      ghost var h := View();
      ghost var k: nat :| k < |nodes| && nodes[k] == freep.value;
      ghost var j: nat, m: nat, grew := Succ(k, |nodes|), 0, false;
      CursorNext(h, prevp, prevp, k, k);
      ScanStart(h, k, nunits);
      var p := ptr[prevp];
      while true
        invariant Valid() && freep.Some? && live == h.live && Untouched(h, View()) && base == h.base
        invariant Cursor(View(), freep.value, p, prevp, j, k)
        invariant !grew ==> own == h.own && Scanned(View(), k, j, nunits)
        invariant grew ==>
                    && brk.Some? && own.Keys == h.own.Keys + Units(brk.value, MaxCore(nunits))
                    && Ahead(View(), j, k, m, nunits)
        decreases !grew, if j < |nodes| && k < |nodes| then Dist(j, k, |nodes|) else 0
      {
        ghost var g := View();
        CursorAt(g, freep.value, p, prevp, j, k);
        if size[p] >= nunits {
          UsableAt(g, freep.value, p, prevp, j, k, nunits);
          var a := Allocate(p, prevp, nunits, j);
          UntouchedTransitive(h, g, View());
          return Some(a + 1);
        }
        if p == freep.value {
          ScannedAll(g, k, nunits, grew, m);
          FreshSame(h, g, brk, MaxCore(nunits));
          var ok;
          ok, k := MoreCore(nunits, brk);
          if !ok {
            return None;
          }
          UntouchedTransitive(h, g, View());
          p, j, grew := freep.value, k, true;
          m := RoomIndex(View(), k, nunits);
        } else if !grew {
          Advance(g, k, j, nunits);
        } else {
          AheadNext(g, j, k, m, nunits);
        }
        CursorNext(View(), freep.value, p, j, k);
        prevp := p;
        p := ptr[p];
        j := Succ(j, |nodes|);
      }
    }

    // The first call: a list that holds only base.
    method Start()
      requires Valid() && freep.None?
      modifies `ptr, `size, `freep, `nodes
      ensures Valid() && freep.Some? && nodes == [base]
    {
      ptr, size := ptr[base := base], size[base := 0];
      freep, nodes := Some(base), [base];
      StartOk(View());
    }
  }

  lemma LivePlace(h: Heap, bp: int)
    requires HeapOk(h) && bp in h.live
    ensures h.nodes[0] == h.base < bp
    ensures forall k :: 0 <= k < |h.nodes| ==> h.nodes[k] != bp
  {
    assert NodeOk(h, 0) && LiveUnit(h, bp, bp) && OwnedUnit(h, bp);
    forall k | 0 <= k < |h.nodes|
      ensures h.nodes[k] != bp
    {
      NodeNotLive(h, k);
    }
  }

  lemma NodeAt(h: Heap, k: nat)
    requires HeapOk(h) && k < |h.nodes|
    ensures NodeOk(h, k)
  {
  }

  lemma NextNode(h: Heap, j: nat)
    requires HeapOk(h) && j < |h.nodes|
    ensures h.nodes[j] in h.ptr && h.ptr[h.nodes[j]] == h.nodes[Succ(j, |h.nodes|)]
  {
    assert NodeOk(h, j);
  }

  // The header fields that free's assignments compute.
  lemma FreedFields(h: Heap, i: nat, bp: int)
    requires HeapOk(h) && Coalesced(h) && Place(h, i, bp) && bp in h.live
    ensures var p := h.nodes[i];
            && p in h.ptr && p in h.size && bp in h.size && p != bp
            && var q := h.ptr[p];
               var up, low := bp + h.size[bp] == q, p + h.size[p] == bp;
               && (up ==> q in h.size && q in h.ptr && q != p && q != bp)
               && var size1 := if up then h.size[bp := h.size[bp] + h.size[q]] else h.size;
                  var next := if up then h.ptr[q] else q;
                  && Freed(h, i, bp).ptr == h.ptr[bp := next][p := if low then next else bp]
                  && Freed(h, i, bp).size == if low then size1[p := size1[p] + size1[bp]] else size1
  {
    hide ListOk, OwnOk, Coalesced, InsertAt, RemoveAt;
    Gaps(h, i, bp);
    InsertedOk(h, i, bp);
    InsertedTouch(h, i, bp);
    InsertedSizes(h, i, bp);
    var n, p := |h.nodes|, h.nodes[i];
    NodeAt(h, 0);
    NodeAt(h, i);
    var g := Inserted(h, i, bp);
    if Touch(g, i + 1) {
      NodesDistinct(h, i, i + 1);
      NodeNotLive(h, i + 1);
      NodeAt(h, i + 1);
      InsertAtIndex(h.nodes, i + 1, bp, i + 2);
      MergedOk(g, i + 1);
      RemoveAtIndex(g.nodes, i + 2, i);
      RemoveAtIndex(g.nodes, i + 2, i + 1);
    }
    var q := h.ptr[p];
    var up, low := bp + h.size[bp] == q, p + h.size[p] == bp;
    assert up <==> Touch(g, i + 1);
    var next := if up then h.ptr[q] else q;
    assert Freed(h, i, bp).ptr == h.ptr[bp := next][p := if low then next else bp];
  }

  lemma StoreUnits(h: Heap, a: int, u: int, x: int, y: int, k: nat, m: nat, b: int, w: int)
    requires HeapOk(h) && a in h.live && a < u < a + h.live[a] && k < |h.nodes| && m < |h.nodes|
    ensures var g := h.(ptr := h.ptr[u := x], size := h.size[u := y]);
            && NodeOk(g, k) && (k < m ==> Ordered(g, k, m)) && (Touch(g, k) ==> Touch(h, k))
            && FreeUnit(g, k, w) && LiveUnit(g, b, w) && OwnedUnit(g, w)
  {
    NodeIsNot(h, a, u, k);
    assert NodeOk(h, k) && (k < m ==> Ordered(h, k, m)) && LiveUnit(h, a, u) && LiveUnit(h, b, u) && LiveUnit(h, b, b);
    assert FreeUnit(h, k, w) && LiveUnit(h, b, w) && OwnedUnit(h, w);
    if w in h.own && h.own[w].Free? {
      var f :| 0 <= f < |h.nodes| && h.nodes[f] == h.own[w].block;
      NodeIsNot(h, a, u, f);
    }
  }

  // A unit inside a live block is not a node.
  lemma NodeIsNot(h: Heap, a: int, u: int, k: nat)
    requires HeapOk(h) && a in h.live && a <= u < a + h.live[a] && k < |h.nodes|
    ensures h.nodes[k] != u
  {
    assert NodeOk(h, k) && FreeUnit(h, k, u) && LiveUnit(h, a, u) && OwnedUnit(h, u);
  }

  lemma StoreOk(h: Heap, a: int, u: int, x: int, y: int)
    requires HeapOk(h) && a in h.live && a < u < a + h.live[a]
    ensures var g := h.(ptr := h.ptr[u := x], size := h.size[u := y]); HeapOk(g) && (Coalesced(h) ==> Coalesced(g))
  {
    var g := h.(ptr := h.ptr[u := x], size := h.size[u := y]);
    forall k | 0 <= k < |g.nodes| ensures NodeOk(g, k)
      && (Touch(g, k) ==> Touch(h, k)) { StoreUnits(h, a, u, x, y, k, 0, 0, 0); }
    forall k, m | 0 <= k < m < |g.nodes| ensures Ordered(g, k, m) { StoreUnits(h, a, u, x, y, k, m, 0, 0); }
    forall k, w | 0 <= k < |g.nodes| ensures FreeUnit(g, k, w) { StoreUnits(h, a, u, x, y, k, 0, 0, w); }
    forall b, w ensures LiveUnit(g, b, w) { StoreUnits(h, a, u, x, y, 0, 0, b, w); }
    forall w ensures OwnedUnit(g, w) { StoreUnits(h, a, u, x, y, 0, 0, 0, w); }
  }

  lemma StartOk(h: Heap)
    requires h.nodes == [h.base] && h.base in h.ptr && h.ptr[h.base] == h.base && h.base in h.size
             && h.size[h.base] == 0
    requires h.live == map[] && h.own == map[]
    ensures HeapOk(h) && Coalesced(h)
  {
  }

  lemma ExtendedUntouched(h: Heap, hp: int, nu: int)
    requires HeapOk(h) && FreshCore(h, hp, nu)
    ensures var g := Extended(h, hp, nu);
            && g == h.(size := h.size[hp := nu], live := g.live, own := g.own)
            && hp in g.live && g.live[hp] == nu && g.live - {hp} == h.live && g.own.Keys == h.own.Keys + Units(hp, nu)
            && Untouched(h, g)
  {
    assert LiveUnit(h, hp, hp);
    forall a, u
      ensures LiveCell(h, Extended(h, hp, nu), a, u)
    {
      assert LiveUnit(h, a, hp);
    }
  }

  lemma UntouchedSame(h: Heap)
    ensures Untouched(h, h)
  {
  }

  lemma UntouchedTransitive(h: Heap, g: Heap, r: Heap)
    requires Untouched(h, g) && Untouched(g, r) && forall a :: a in h.live && a in r.live ==> a in g.live
    ensures Untouched(h, r)
  {
    forall a, u
      ensures LiveCell(h, r, a, u)
    {
      assert LiveCell(h, g, a, u) && LiveCell(g, r, a, u);
    }
  }

  // ----- malloc's scan

  // p is node j, prevp the node before it, and freep node k.
  ghost predicate Cursor(h: Heap, freep: int, p: int, prevp: int, j: nat, k: nat) {
    && j < |h.nodes| && k < |h.nodes| && p == h.nodes[j] && freep == h.nodes[k]
    && prevp == h.nodes[if j == 0 then |h.nodes| - 1 else j - 1]
  }

  // Every node from k's successor up to but excluding j is too small.
  ghost predicate Scanned(h: Heap, k: nat, j: nat, n: int) {
    && j < |h.nodes| && k < |h.nodes|
    && forall x :: 0 <= x < |h.nodes| && Between(k, x, j, |h.nodes|) ==> h.nodes[x] in h.size && h.size[h.nodes[x]] < n
  }

  ghost predicate Between(k: nat, x: nat, j: nat, n: nat)
    requires k < n && x < n && j < n
  {
    Dist(Succ(k, n), x, n) < Dist(Succ(k, n), j, n)
  }

  ghost predicate AllSmall(h: Heap, n: int) {
    forall x :: 0 <= x < |h.nodes| ==> h.nodes[x] in h.size && h.size[h.nodes[x]] < n
  }

  // A node with room lies on the way from j to k.
  ghost predicate Ahead(h: Heap, j: nat, k: nat, m: nat, n: int) {
    && j < |h.nodes| && k < |h.nodes| && m < |h.nodes|
    && h.nodes[m] in h.size && h.size[h.nodes[m]] >= n && Dist(j, m, |h.nodes|) <= Dist(j, k, |h.nodes|)
  }

  lemma CursorAt(h: Heap, freep: int, p: int, prevp: int, j: nat, k: nat)
    requires HeapOk(h) && Cursor(h, freep, p, prevp, j, k)
    ensures j < |h.nodes| && k < |h.nodes| && p == h.nodes[j] && freep == h.nodes[k] && p in h.size && p in h.ptr
    ensures p == freep ==> j == k
  {
    NodeAt(h, j);
    if p == freep {
      SameIndex(h, j, k);
    }
  }

  lemma CursorNext(h: Heap, freep: int, p: int, j: nat, k: nat)
    requires HeapOk(h) && j < |h.nodes| && k < |h.nodes| && p == h.nodes[j] && freep == h.nodes[k]
    ensures p in h.ptr && Cursor(h, freep, h.ptr[p], p, Succ(j, |h.nodes|), k)
    ensures j != k ==> Dist(Succ(j, |h.nodes|), k, |h.nodes|) < Dist(j, k, |h.nodes|)
  {
    NextNode(h, j);
  }

  lemma UsableAt(h: Heap, freep: int, p: int, prevp: int, j: nat, k: nat, n: nat)
    requires HeapOk(h) && Cursor(h, freep, p, prevp, j, k) && n >= 1 && p in h.size && h.size[p] >= n
    ensures Usable(h, j, n) && 1 <= j && prevp == h.nodes[j - 1]
  {
    NodeAt(h, j);
  }

  lemma SameIndex(h: Heap, j: nat, k: nat)
    requires HeapOk(h) && j < |h.nodes| && k < |h.nodes| && h.nodes[j] == h.nodes[k]
    ensures j == k
  {
    if j != k {
      NodesDistinct(h, j, k);
    }
  }

  // A scan that is back at freep has seen every node and cannot have grown the heap.
  lemma ScannedAll(h: Heap, k: nat, n: int, grew: bool, m: nat)
    requires k < |h.nodes| && h.nodes[k] in h.size && h.size[h.nodes[k]] < n
    requires if grew then Ahead(h, k, k, m, n) else Scanned(h, k, k, n)
    ensures !grew && AllSmall(h, n)
  {
    forall x | 0 <= x < |h.nodes|
      ensures h.nodes[x] in h.size && h.size[h.nodes[x]] < n
    {
      assert x == k || Between(k, x, k, |h.nodes|);
    }
  }

  lemma ScanStart(h: Heap, k: nat, n: int)
    requires k < |h.nodes|
    ensures Scanned(h, k, Succ(k, |h.nodes|), n)
  {
  }

  lemma RoomIndex(h: Heap, i: nat, n: nat) returns (m: nat)
    requires RoomNear(h, i, MaxCore(n))
    ensures Ahead(h, Succ(i, |h.nodes|), i, m, n)
  {
    m := if h.nodes[i] in h.size && h.size[h.nodes[i]] >= n then i else Succ(i, |h.nodes|);
  }

  lemma AheadNext(h: Heap, j: nat, k: nat, m: nat, n: int)
    requires Ahead(h, j, k, m, n) && j != k && h.nodes[j] in h.size && h.size[h.nodes[j]] < n
    ensures Ahead(h, Succ(j, |h.nodes|), k, m, n)
  {
  }

  lemma FreshSame(h: Heap, g: Heap, brk: Option<int>, n: int)
    requires brk.Some? ==> FreshCore(h, brk.value, n)
    requires g.own == h.own && g.base == h.base
    ensures brk.Some? ==> FreshCore(g, brk.value, n)
  {
  }

  lemma UntouchedNone(h: Heap, g: Heap)
    requires h.live == map[]
    ensures Untouched(h, g)
  {
  }

  lemma Advance(h: Heap, k: nat, j: nat, n: int)
    requires Scanned(h, k, j, n) && j != k && h.nodes[j] in h.size && h.size[h.nodes[j]] < n
    ensures Scanned(h, k, Succ(j, |h.nodes|), n)
  {
    var l := |h.nodes|;
    forall x | 0 <= x < l && Between(k, x, Succ(j, l), l)
      ensures h.nodes[x] in h.size && h.size[h.nodes[x]] < n
    {
      assert x == j || Between(k, x, j, l);
    }
  }
}
