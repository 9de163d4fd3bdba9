/**
  What decides whether iget panics: which inodes the cache holds in use, and how many
  slots are free.
 */
module InodeCache {
  import opened References

  datatype Cache = Cache(used: set<Id>, free: nat)

  ghost function UsedIds(inodes: seq<Inode>): set<Id> {
    set j | 0 <= j < |inodes| && inodes[j].ref > 0 :: inodes[j].id
  }

  ghost function FreeSlots(inodes: seq<Inode>): set<nat> {
    set j | 0 <= j < |inodes| && inodes[j].ref == 0
  }

  ghost function Summary(inodes: seq<Inode>): Cache {
    Cache(UsedIds(inodes), |FreeSlots(inodes)|)
  }

  // iget of this inode would panic.
  predicate Blocked(c: Cache, id: Id) {
    id !in c.used && c.free == 0
  }

  // The cache while somebody holds this inode as well.
  function Holding(c: Cache, id: Id): Cache {
    if id in c.used || c.free == 0 then c else Cache(c.used + {id}, c.free - 1)
  }

  lemma BlockedSlots(inodes: seq<Inode>, id: Id)
    ensures Blocked(Summary(inodes), id) <==>
            forall j :: 0 <= j < |inodes| ==> inodes[j].ref != 0 && (inodes[j].ref > 0 ==> inodes[j].id != id)
  {
    if FreeSlots(inodes) != {} {
      var j :| j in FreeSlots(inodes);
      assert inodes[j].ref == 0;
    }
    if id in UsedIds(inodes) {
      var j :| 0 <= j < |inodes| && inodes[j].ref > 0 && inodes[j].id == id;
    }
    forall j | 0 <= j < |inodes|
      ensures inodes[j].ref == 0 ==> j in FreeSlots(inodes)
      ensures inodes[j].ref > 0 ==> inodes[j].id in UsedIds(inodes)
    {
    }
  }

  lemma UsedSlot(inodes: seq<Inode>, j: nat)
    requires j < |inodes| && inodes[j].ref > 0
    ensures inodes[j].id in Summary(inodes).used
  {
  }

  // One reference more, on slot i.
  lemma SummaryMore(a: seq<Inode>, b: seq<Inode>, i: nat)
    requires |a| == |b| && i < |a| && a[i].ref >= 0 && b[i].ref == a[i].ref + 1
    requires forall j :: 0 <= j < |a| && j != i ==> b[j].ref == a[j].ref
    requires forall j :: 0 <= j < |a| && a[j].ref > 0 ==> b[j].id == a[j].id
    requires forall j :: 0 <= j < |a| && j != i && a[j].ref > 0 ==> b[j].id != b[i].id
    ensures Summary(b) == Holding(Summary(a), b[i].id)
  {
    UsedMore(a, b, i);
    if a[i].ref > 0 {
      assert FreeSlots(b) == FreeSlots(a);
    } else {
      assert i in FreeSlots(a) && FreeSlots(b) == FreeSlots(a) - {i};
    }
  }

  lemma UsedMore(a: seq<Inode>, b: seq<Inode>, i: nat)
    requires |a| == |b| && i < |a| && a[i].ref >= 0 && b[i].ref == a[i].ref + 1
    requires forall j :: 0 <= j < |a| && j != i ==> b[j].ref == a[j].ref
    requires forall j :: 0 <= j < |a| && a[j].ref > 0 ==> b[j].id == a[j].id
    requires forall j :: 0 <= j < |a| && j != i && a[j].ref > 0 ==> b[j].id != b[i].id
    ensures UsedIds(b) == UsedIds(a) + {b[i].id} && (b[i].id in UsedIds(a) <==> a[i].ref > 0)
  {
    forall x
      ensures x in UsedIds(b) <==> x in UsedIds(a) || x == b[i].id
    {
      if x in UsedIds(b) {
        var j :| 0 <= j < |b| && b[j].ref > 0 && b[j].id == x;
        assert j == i || (a[j].ref > 0 && a[j].id == x);
      }
      if x in UsedIds(a) {
        var j :| 0 <= j < |a| && a[j].ref > 0 && a[j].id == x;
        assert b[j].ref > 0 && b[j].id == x;
      }
    }
    if b[i].id in UsedIds(a) {
      var j :| 0 <= j < |a| && a[j].ref > 0 && a[j].id == b[i].id;
      assert j == i;
    }
  }
}
