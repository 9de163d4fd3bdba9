/**
  Who owns which disk block, and what bytes a file consists of.

  A slot is one place that can hold a block number: slots 0..11 of an inode are
  its direct entries, slot 12 its indirect block, and slots 13..140 the entries
  in that indirect block, read from the block's bytes.
 */
module BlockMap {
  import opened Bitmap

  const BSIZE: nat := 512
  const NDIRECT: nat := 12
  const NINDIRECT: nat := 128
  const MAXFILE: nat := 140
  const MAXBYTES: nat := 71680  // MAXFILE * BSIZE
  const NSLOTS: nat := 141
  const IPB: nat := 8
  const WORDLIMIT: nat := 0x1_0000_0000

  type Byte = x: int | 0 <= x < 256
  type Block = seq<Byte>

  datatype Inode = Inode(kind: nat, nlink: nat, size: nat, addrs: seq<nat>)
  datatype Slot = Slot(inum: nat, k: nat)

  // nmeta counts the blocks before the data blocks: boot, super, log, inodes and
  // bitmap.  Block number 0 in a slot means "none".
  datatype Volume = Volume(size: nat, nmeta: nat, bitmap: seq<bv8>, data: seq<Block>, inodes: seq<Inode>)

  function Zero(): (b: Block)
    ensures |b| == BSIZE && forall i :: 0 <= i < BSIZE ==> b[i] == 0
  {
    seq(BSIZE, _ => 0)
  }

  // ----- little-endian words

  function Word(b: Block, j: nat): (w: nat)
    requires |b| == BSIZE && j < NINDIRECT
    ensures w < WORDLIMIT
  {
    b[4 * j] as int + 0x100 * b[4 * j + 1] as int + 0x1_0000 * b[4 * j + 2] as int + 0x100_0000 * b[4 * j + 3] as int
  }

  function PutWord(b: Block, j: nat, w: nat): (r: Block)
    requires |b| == BSIZE && j < NINDIRECT && w < WORDLIMIT
    ensures |r| == BSIZE
  {
    b[4 * j := w % 0x100][4 * j + 1 := w / 0x100 % 0x100]
     [4 * j + 2 := w / 0x1_0000 % 0x100][4 * j + 3 := w / 0x100_0000]
  }

  lemma WordSplit(w: nat)
    requires w < WORDLIMIT
    ensures w == w % 0x100 + 0x100 * (w / 0x100 % 0x100) + 0x1_0000 * (w / 0x1_0000 % 0x100)
                 + 0x100_0000 * (w / 0x100_0000)
    ensures w / 0x100_0000 < 0x100
  {
    assert w / 0x1_0000 == w / 0x100 / 0x100 && w / 0x100_0000 == w / 0x1_0000 / 0x100;
  }

  lemma PutWordReads(b: Block, j: nat, w: nat, i: nat)
    requires |b| == BSIZE && j < NINDIRECT && i < NINDIRECT && w < WORDLIMIT
    ensures Word(PutWord(b, j, w), i) == if i == j then w else Word(b, i)
  {
    WordSplit(w);
    var r := PutWord(b, j, w);
    if i != j {
      assert r[4 * i] == b[4 * i] && r[4 * i + 1] == b[4 * i + 1];
      assert r[4 * i + 2] == b[4 * i + 2] && r[4 * i + 3] == b[4 * i + 3];
    }
  }

  lemma ZeroWord(j: nat)
    requires j < NINDIRECT
    ensures Word(Zero(), j) == 0
  {
  }

  // ----- slots

  ghost predicate Shape(v: Volume) {
    && 0 < v.nmeta <= v.size < WORDLIMIT
    && |v.data| == v.size && v.size <= 8 * |v.bitmap|
    && (forall b :: 0 <= b < |v.data| ==> |v.data[b]| == BSIZE)
    && (forall i :: 0 <= i < |v.inodes| ==> |v.inodes[i].addrs| == NDIRECT + 1)
  }

  ghost predicate IsSlot(v: Volume, s: Slot) {
    s.inum < |v.inodes| && s.k < NSLOTS
  }

  ghost function BlockOf(v: Volume, s: Slot): (b: nat)
    requires Shape(v) && IsSlot(v, s)
  {
    var addrs := v.inodes[s.inum].addrs;
    if s.k <= NDIRECT then addrs[s.k]
    else if 0 < addrs[NDIRECT] < v.size then Word(v.data[addrs[NDIRECT]], s.k - NDIRECT - 1)
    else 0
  }

  // The slot of a file's bn-th block.
  function SlotFor(inum: nat, bn: nat): Slot {
    Slot(inum, if bn < NDIRECT then bn else bn + 1)
  }

  // The bitmap marks metadata and exactly the blocks that some slot holds; no
  // two slots hold the same block.  `skip` lists slots whose contents no longer
  // count, while a file is being taken apart.
  ghost predicate Owned(v: Volume, owner: map<nat, Slot>, skip: set<Slot>) {
    && Shape(v)
    && (forall s :: IsSlot(v, s) && s !in skip && BlockOf(v, s) != 0 ==>
        BlockOf(v, s) in owner && owner[BlockOf(v, s)] == s)
    && (forall b :: b in owner ==>
        v.nmeta <= b < v.size && IsSlot(v, owner[b]) && owner[b] !in skip && BlockOf(v, owner[b]) == b)
    && (forall b :: 0 <= b < v.size ==> (Bit(v.bitmap, b) <==> b < v.nmeta || b in owner))
  }

  // The same without the map: in use iff metadata or held by exactly one slot.
  lemma InUseExactlyOnce(v: Volume, owner: map<nat, Slot>, b: nat)
    requires Owned(v, owner, {}) && b < v.size
    ensures Bit(v.bitmap, b) <==> b < v.nmeta || exists s :: IsSlot(v, s) && BlockOf(v, s) == b
    ensures forall s, t :: IsSlot(v, s) && IsSlot(v, t) && BlockOf(v, s) == BlockOf(v, t) == b && b != 0 ==> s == t
    ensures forall s :: IsSlot(v, s) && BlockOf(v, s) == b && b != 0 ==> v.nmeta <= b
  {
    if b in owner {
      assert IsSlot(v, owner[b]) && BlockOf(v, owner[b]) == b;
    }
  }

  // ----- bytes

  // Unallocated blocks read as zeros.
  ghost function ByteAt(v: Volume, inum: nat, p: nat): Byte
    requires Shape(v) && inum < |v.inodes| && p < MAXBYTES
  {
    var b := BlockOf(v, SlotFor(inum, p / BSIZE));
    if 0 < b < v.size then v.data[b][p % BSIZE] else 0
  }

  ghost function Content(v: Volume, inum: nat): (c: seq<Byte>)
    requires Shape(v) && inum < |v.inodes|
    ensures v.inodes[inum].size <= MAXBYTES ==> |c| == v.inodes[inum].size
  {
    var n := if v.inodes[inum].size <= MAXBYTES then v.inodes[inum].size else MAXBYTES;
    seq(n, p requires 0 <= p < n => ByteAt(v, inum, p))
  }

  // Every block below the size is there, so reading allocates nothing.
  ghost predicate Filled(v: Volume, inum: nat)
    requires Shape(v) && inum < |v.inodes|
  {
    && v.inodes[inum].size <= MAXBYTES
    && forall bn :: 0 <= bn < MAXFILE && bn * BSIZE < v.inodes[inum].size ==> BlockOf(v, SlotFor(inum, bn)) != 0
  }

  // ----- allocation

  ghost function WithAddr(ip: Inode, k: nat, b: nat): Inode
    requires k < |ip.addrs|
  {
    ip.(addrs := ip.addrs[k := b])
  }

  // balloc: mark and zero.
  ghost function Allocated(v: Volume, b: nat): (w: Volume)
    requires Shape(v) && b < v.size
  {
    v.(bitmap := SetBit(v.bitmap, b), data := v.data[b := Zero()])
  }

  ghost function AllocDirect(v: Volume, i: nat, k: nat, b: nat): (w: Volume)
    requires Shape(v) && b < v.size && i < |v.inodes| && k <= NDIRECT
  {
    Allocated(v, b).(inodes := v.inodes[i := WithAddr(v.inodes[i], k, b)])
  }

  ghost function AllocEntry(v: Volume, i: nat, j: nat, b: nat): (w: Volume)
    requires Shape(v) && b < v.size && i < |v.inodes| && j < NINDIRECT && v.inodes[i].addrs[NDIRECT] < v.size
  {
    var ind := v.inodes[i].addrs[NDIRECT];
    var a := Allocated(v, b);
    a.(data := a.data[ind := PutWord(a.data[ind], j, b)])
  }

  // A block that is free on the bitmap belongs to nobody.
  lemma FreeBlock(v: Volume, owner: map<nat, Slot>, skip: set<Slot>, b: nat)
    requires Owned(v, owner, skip) && b < v.size && !Bit(v.bitmap, b)
    ensures v.nmeta <= b && b !in owner
    ensures forall s :: IsSlot(v, s) && s !in skip ==> BlockOf(v, s) != b
  {
  }

  lemma BitsAfterSet(v: Volume, owner: map<nat, Slot>, b: nat, s: Slot)
    requires Owned(v, owner, {}) && b < v.size && v.nmeta <= b
    ensures forall c :: 0 <= c < v.size ==> (Bit(SetBit(v.bitmap, b), c) <==> c < v.nmeta || c in owner[b := s])
  {
    forall c | 0 <= c < v.size
      ensures Bit(SetBit(v.bitmap, b), c) <==> c < v.nmeta || c in owner[b := s]
    {
      BitChange(v.bitmap, b, c);
    }
  }

  // Where every slot points after a direct (or indirect-block) entry was filled.
  lemma AllocDirectSlots(v: Volume, owner: map<nat, Slot>, i: nat, k: nat, b: nat, s: Slot)
    requires Owned(v, owner, {}) && b < v.size && !Bit(v.bitmap, b) && i < |v.inodes| && k <= NDIRECT
    requires v.inodes[i].addrs[k] == 0 && IsSlot(v, s)
    ensures var w := AllocDirect(v, i, k, b);
            Shape(w) && BlockOf(w, s) == if s == Slot(i, k) then b else BlockOf(v, s)
  {
    FreeBlock(v, owner, {}, b);
    var ind := BlockOf(v, Slot(s.inum, NDIRECT));
    if s.k > NDIRECT && s.inum == i && k == NDIRECT {
      ZeroWord(s.k - NDIRECT - 1);
    } else if s.k > NDIRECT {
      assert ind != b;
    }
  }

  lemma AllocDirectOk(v: Volume, owner: map<nat, Slot>, i: nat, k: nat, b: nat)
    requires Owned(v, owner, {}) && b < v.size && !Bit(v.bitmap, b) && i < |v.inodes| && k <= NDIRECT
    requires v.inodes[i].addrs[k] == 0
    ensures Owned(AllocDirect(v, i, k, b), owner[b := Slot(i, k)], {})
  {
    var w, owner' := AllocDirect(v, i, k, b), owner[b := Slot(i, k)];
    FreeBlock(v, owner, {}, b);
    BitsAfterSet(v, owner, b, Slot(i, k));
    forall s | IsSlot(v, s)
      ensures Shape(w) && BlockOf(w, s) == if s == Slot(i, k) then b else BlockOf(v, s)
    {
      AllocDirectSlots(v, owner, i, k, b, s);
    }
    assert IsSlot(v, Slot(i, k));
  }

  lemma AllocEntrySlots(v: Volume, owner: map<nat, Slot>, i: nat, j: nat, b: nat, s: Slot)
    requires Owned(v, owner, {}) && b < v.size && !Bit(v.bitmap, b) && i < |v.inodes| && j < NINDIRECT
    requires BlockOf(v, Slot(i, NDIRECT)) != 0 && IsSlot(v, s)
    ensures var ind := v.inodes[i].addrs[NDIRECT]; ind < v.size && ind != b
    ensures var w := AllocEntry(v, i, j, b);
            Shape(w) && BlockOf(w, s) == if s == Slot(i, NDIRECT + 1 + j) then b else BlockOf(v, s)
  {
    FreeBlock(v, owner, {}, b);
    var ind := BlockOf(v, Slot(i, NDIRECT));
    assert IsSlot(v, Slot(i, NDIRECT)) && owner[ind] == Slot(i, NDIRECT);
    if s.k > NDIRECT {
      var other := BlockOf(v, Slot(s.inum, NDIRECT));
      assert IsSlot(v, Slot(s.inum, NDIRECT));
      if s.inum == i {
        PutWordReads(v.data[ind], j, b, s.k - NDIRECT - 1);
      } else if other != 0 {
        assert owner[other] == Slot(s.inum, NDIRECT);
      }
    }
  }

  lemma AllocEntryOk(v: Volume, owner: map<nat, Slot>, i: nat, j: nat, b: nat)
    requires Owned(v, owner, {}) && b < v.size && !Bit(v.bitmap, b) && i < |v.inodes| && j < NINDIRECT
    requires BlockOf(v, Slot(i, NDIRECT)) != 0 && v.inodes[i].addrs[NDIRECT] < v.size
    requires BlockOf(v, Slot(i, NDIRECT + 1 + j)) == 0
    ensures Owned(AllocEntry(v, i, j, b), owner[b := Slot(i, NDIRECT + 1 + j)], {})
  {
    var t := Slot(i, NDIRECT + 1 + j);
    var w, owner' := AllocEntry(v, i, j, b), owner[b := t];
    FreeBlock(v, owner, {}, b);
    BitsAfterSet(v, owner, b, t);
    forall s | IsSlot(v, s)
      ensures Shape(w) && BlockOf(w, s) == if s == t then b else BlockOf(v, s)
    {
      AllocEntrySlots(v, owner, i, j, b, s);
    }
    assert IsSlot(v, t);
  }

  // ----- writing file data

  ghost function WithData(v: Volume, b: nat, blk: Block): (w: Volume)
    requires b < |v.data|
  {
    v.(data := v.data[b := blk])
  }

  // Only indirect blocks influence where slots point.
  lemma WriteKeepsSlots(v: Volume, owner: map<nat, Slot>, b: nat, blk: Block, s: Slot)
    requires Owned(v, owner, {}) && b in owner && owner[b].k != NDIRECT && |blk| == BSIZE && IsSlot(v, s)
    ensures Shape(WithData(v, b, blk)) && BlockOf(WithData(v, b, blk), s) == BlockOf(v, s)
  {
    assert IsSlot(v, Slot(s.inum, NDIRECT));
    assert BlockOf(v, Slot(s.inum, NDIRECT)) != b;
  }

  lemma WriteKeepsOwned(v: Volume, owner: map<nat, Slot>, b: nat, blk: Block)
    requires Owned(v, owner, {}) && b in owner && owner[b].k != NDIRECT && |blk| == BSIZE
    ensures Owned(WithData(v, b, blk), owner, {})
    ensures forall s :: IsSlot(v, s) ==> BlockOf(WithData(v, b, blk), s) == BlockOf(v, s)
  {
    forall s | IsSlot(v, s)
      ensures Shape(WithData(v, b, blk)) && BlockOf(WithData(v, b, blk), s) == BlockOf(v, s)
    {
      WriteKeepsSlots(v, owner, b, blk, s);
    }
  }

  // ----- freeing

  // Frees the block of slot s and makes the slot empty or, inside an indirect
  // block about to be freed, irrelevant.
  lemma BitsAfterClear(v: Volume, owner: map<nat, Slot>, skip: set<Slot>, b: nat)
    requires Owned(v, owner, skip) && b in owner
    ensures forall c :: 0 <= c < v.size ==> (Bit(ClearBit(v.bitmap, b), c) <==> c < v.nmeta || c in owner - {b})
  {
    forall c | 0 <= c < v.size
      ensures Bit(ClearBit(v.bitmap, b), c) <==> c < v.nmeta || c in owner - {b}
    {
      BitChange(v.bitmap, b, c);
    }
  }

  ghost function FreeDirect(v: Volume, i: nat, k: nat): (w: Volume)
    requires Shape(v) && i < |v.inodes| && k <= NDIRECT && v.inodes[i].addrs[k] < v.size
  {
    v.(bitmap := ClearBit(v.bitmap, v.inodes[i].addrs[k]), inodes := v.inodes[i := WithAddr(v.inodes[i], k, 0)])
  }

  lemma FreeDirectOk(v: Volume, owner: map<nat, Slot>, i: nat, k: nat)
    requires Owned(v, owner, {}) && i < |v.inodes| && k < NDIRECT && v.inodes[i].addrs[k] != 0
    ensures var b := v.inodes[i].addrs[k];
            b in owner && b < v.size && Owned(FreeDirect(v, i, k), owner - {b}, {})
  {
    var b := v.inodes[i].addrs[k];
    assert IsSlot(v, Slot(i, k)) && BlockOf(v, Slot(i, k)) == b;
    BitsAfterClear(v, owner, {}, b);
    var w := FreeDirect(v, i, k);
    assert forall s :: IsSlot(v, s) ==> BlockOf(w, s) == if s == Slot(i, k) then 0 else BlockOf(v, s);
  }

  // The entries of inode i's indirect block that were freed so far.
  ghost function Entries(i: nat, n: nat): set<Slot>
    requires n <= NINDIRECT
  {
    set k | NDIRECT < k <= NDIRECT + n :: Slot(i, k)
  }

  lemma FreeEntryOk(v: Volume, owner: map<nat, Slot>, i: nat, j: nat)
    requires i < |v.inodes| && j < NINDIRECT && Owned(v, owner, Entries(i, j))
    ensures var b := BlockOf(v, Slot(i, NDIRECT + 1 + j));
            b != 0 ==>
              && b in owner && b < v.size
              && Owned(v.(bitmap := ClearBit(v.bitmap, b)), owner - {b}, Entries(i, j + 1))
    ensures var b := BlockOf(v, Slot(i, NDIRECT + 1 + j)); b == 0 ==> Owned(v, owner, Entries(i, j + 1))
  {
    hide Entries, Word, Bit, ClearBit;
    var t := Slot(i, NDIRECT + 1 + j);
    var b := BlockOf(v, t);
    assert IsSlot(v, t);
    EntriesStep(i, j);
    if b != 0 {
      BitsAfterClear(v, owner, Entries(i, j), b);
      var w := v.(bitmap := ClearBit(v.bitmap, b));
      assert forall s :: IsSlot(v, s) ==> BlockOf(w, s) == BlockOf(v, s);
    }
  }

  lemma EntriesStep(i: nat, j: nat)
    requires j < NINDIRECT
    ensures Slot(i, NDIRECT + 1 + j) !in Entries(i, j)
    ensures Entries(i, j + 1) == Entries(i, j) + {Slot(i, NDIRECT + 1 + j)}
  {
  }

  // Freeing the indirect block itself makes all its entries vanish.
  lemma FreeIndirectOk(v: Volume, owner: map<nat, Slot>, i: nat)
    requires i < |v.inodes| && Owned(v, owner, Entries(i, NINDIRECT)) && v.inodes[i].addrs[NDIRECT] != 0
    ensures var b := v.inodes[i].addrs[NDIRECT];
            b in owner && b < v.size && Owned(FreeDirect(v, i, NDIRECT), owner - {b}, {})
  {
    var t := Slot(i, NDIRECT);
    var b := v.inodes[i].addrs[NDIRECT];
    assert t !in Entries(i, NINDIRECT);
    assert IsSlot(v, t) && BlockOf(v, t) == b;
    BitsAfterClear(v, owner, Entries(i, NINDIRECT), b);
    var w := FreeDirect(v, i, NDIRECT);
    forall s | IsSlot(v, s)
      ensures BlockOf(w, s) == if s == t || s in Entries(i, NINDIRECT) then 0 else BlockOf(v, s)
    {
    }
  }

  // ----- what one change does to the bytes of files

  // No inode but `inum` changed, that one only in its addresses, and no slot lost its block.
  ghost predicate Keeps(v: Volume, w: Volume, inum: nat) {
    && Shape(v) && Shape(w) && w.size == v.size && w.nmeta == v.nmeta && |w.inodes| == |v.inodes| && inum < |v.inodes|
    && (forall j :: 0 <= j < |v.inodes| && j != inum ==> w.inodes[j] == v.inodes[j])
    && w.inodes[inum] == v.inodes[inum].(addrs := w.inodes[inum].addrs)
    && (forall s :: IsSlot(v, s) && BlockOf(v, s) != 0 ==> BlockOf(w, s) == BlockOf(v, s))
  }

  lemma KeepsTransitive(u: Volume, v: Volume, w: Volume, inum: nat)
    requires Keeps(u, v, inum) && Keeps(v, w, inum)
    ensures Keeps(u, w, inum)
  {
  }

  // Bytes [off, off + |src|) of one file are src; every other byte of every file is as before.
  ghost predicate Patched(v: Volume, w: Volume, inum: nat, off: nat, src: seq<Byte>) {
    && Shape(v) && Shape(w) && |w.inodes| == |v.inodes|
    && forall j, p :: 0 <= j < |v.inodes| && 0 <= p < MAXBYTES ==>
                        ByteAt(w, j, p) == PatchedByte(v, inum, off, src, j, p)
  }

  ghost function PatchedByte(v: Volume, inum: nat, off: nat, src: seq<Byte>, j: nat, p: nat): Byte
    requires Shape(v) && j < |v.inodes| && p < MAXBYTES
  {
    if j == inum && off <= p < off + |src| then src[p - off] else ByteAt(v, j, p)
  }

  lemma AllocDirectBytes(v: Volume, owner: map<nat, Slot>, i: nat, k: nat, b: nat)
    requires Owned(v, owner, {}) && b < v.size && !Bit(v.bitmap, b) && i < |v.inodes| && k <= NDIRECT
    requires v.inodes[i].addrs[k] == 0
    ensures var w := AllocDirect(v, i, k, b); Keeps(v, w, i) && Patched(v, w, i, 0, [])
  {
    var w := AllocDirect(v, i, k, b);
    AllocDirectOk(v, owner, i, k, b);
    FreeBlock(v, owner, {}, b);
    forall s | IsSlot(v, s)
      ensures BlockOf(w, s) == if s == Slot(i, k) then b else BlockOf(v, s)
    {
      AllocDirectSlots(v, owner, i, k, b, s);
    }
    hide Owned, BlockOf;
    forall j, p | 0 <= j < |v.inodes| && 0 <= p < MAXBYTES
      ensures ByteAt(w, j, p) == ByteAt(v, j, p)
    {
      var s := SlotFor(j, p / BSIZE);
      assert IsSlot(v, s) && BlockOf(v, s) != b;
      SlotEmpty(v, i, k);
    }
  }

  lemma SlotEmpty(v: Volume, i: nat, k: nat)
    requires Shape(v) && i < |v.inodes| && k <= NDIRECT
    ensures BlockOf(v, Slot(i, k)) == v.inodes[i].addrs[k]
  {
  }

  lemma AllocEntryBytes(v: Volume, owner: map<nat, Slot>, i: nat, j: nat, b: nat)
    requires Owned(v, owner, {}) && b < v.size && !Bit(v.bitmap, b) && i < |v.inodes| && j < NINDIRECT
    requires BlockOf(v, Slot(i, NDIRECT)) != 0 && v.inodes[i].addrs[NDIRECT] < v.size
    requires BlockOf(v, Slot(i, NDIRECT + 1 + j)) == 0
    ensures var w := AllocEntry(v, i, j, b); Keeps(v, w, i) && Patched(v, w, i, 0, [])
  {
    hide Bit, Word, PutWord;
    var t, ind := Slot(i, NDIRECT + 1 + j), v.inodes[i].addrs[NDIRECT];
    var w := AllocEntry(v, i, j, b);
    AllocEntryOk(v, owner, i, j, b);
    FreeBlock(v, owner, {}, b);
    assert IsSlot(v, Slot(i, NDIRECT)) && owner[ind] == Slot(i, NDIRECT);
    forall s | IsSlot(v, s)
      ensures BlockOf(w, s) == if s == t then b else BlockOf(v, s)
      ensures s.k != NDIRECT ==> BlockOf(v, s) != ind
    {
      AllocEntrySlots(v, owner, i, j, b, s);
    }
    hide Owned, BlockOf;
    forall f, p | 0 <= f < |v.inodes| && 0 <= p < MAXBYTES
      ensures ByteAt(w, f, p) == ByteAt(v, f, p)
    {
      var s := SlotFor(f, p / BSIZE);
      assert IsSlot(v, s) && BlockOf(v, s) != b && s.k != NDIRECT;
    }
  }

  // Overwriting part of one block of one file.
  function Spliced(blk: Block, at: nat, src: seq<Byte>): (r: Block)
    requires at + |src| <= |blk| == BSIZE
    ensures |r| == BSIZE
  {
    blk[..at] + src + blk[at + |src|..]
  }

  lemma WriteBytes(v: Volume, owner: map<nat, Slot>, i: nat, off: nat, src: seq<Byte>, b: nat)
    requires Owned(v, owner, {}) && i < |v.inodes| && off % BSIZE + |src| <= BSIZE && off < MAXBYTES
    requires b == BlockOf(v, SlotFor(i, off / BSIZE)) && b != 0
    ensures b < v.size && b in owner && owner[b].k != NDIRECT && |v.data[b]| == BSIZE
    ensures var w := WithData(v, b, Spliced(v.data[b], off % BSIZE, src));
            Keeps(v, w, i) && Patched(v, w, i, off, src)
  {
    var t := SlotFor(i, off / BSIZE);
    assert IsSlot(v, t) && owner[b] == t;
    var blk := Spliced(v.data[b], off % BSIZE, src);
    var w := WithData(v, b, blk);
    forall s | IsSlot(v, s)
      ensures Shape(w) && BlockOf(w, s) == BlockOf(v, s)
      ensures BlockOf(v, s) == b ==> s == t
    {
      WriteKeepsSlots(v, owner, b, blk, s);
    }
    hide Owned, BlockOf;
    forall j, p | 0 <= j < |v.inodes| && 0 <= p < MAXBYTES
      ensures ByteAt(w, j, p) == PatchedByte(v, i, off, src, j, p)
    {
      var s := SlotFor(j, p / BSIZE);
      assert IsSlot(v, s);
      SameBlockOffsets(i, off, j, p, |src|);
    }
  }

  // Byte positions of one slot are those with the same file and the same quotient.
  lemma SameBlockOffsets(i: nat, off: nat, j: nat, p: nat, n: nat)
    requires off % BSIZE + n <= BSIZE
    ensures SlotFor(j, p / BSIZE) == SlotFor(i, off / BSIZE) <==> j == i && p / BSIZE == off / BSIZE
    ensures p / BSIZE == off / BSIZE ==> p - off == p % BSIZE - off % BSIZE
    ensures off <= p < off + n ==> p / BSIZE == off / BSIZE
  {
  }

  lemma PatchedThen(u: Volume, v: Volume, w: Volume, inum: nat, off: nat, a: seq<Byte>, b: seq<Byte>)
    requires Patched(u, v, inum, off, a) && Patched(v, w, inum, off + |a|, b)
    ensures Patched(u, w, inum, off, a + b)
  {
    forall j, p | 0 <= j < |u.inodes| && 0 <= p < MAXBYTES
      ensures ByteAt(w, j, p) == PatchedByte(u, inum, off, a + b, j, p)
    {
      assert ByteAt(w, j, p) == PatchedByte(v, inum, off + |a|, b, j, p);
      assert ByteAt(v, j, p) == PatchedByte(u, inum, off, a, j, p);
    }
  }

  // ----- files as byte sequences

  datatype Option<T> = None | Some(value: T)

  // What a write of src at off does to a file's contents; None if it is refused.
  function WriteSpec(c: seq<Byte>, off: nat, src: seq<Byte>): (r: Option<seq<Byte>>)
  {
    if off > |c| || off + |src| > MAXBYTES then None
    else Some(c[..off] + src + if off + |src| < |c| then c[off + |src|..] else [])
  }

  // Two adjacent writes are one.
  lemma WriteSpecSplit(c: seq<Byte>, off: nat, a: seq<Byte>, b: seq<Byte>)
    requires off <= |c| <= MAXBYTES && off + |a| + |b| <= MAXBYTES
    ensures WriteSpec(c, off, a).Some? && off + |a| <= |WriteSpec(c, off, a).value|
    ensures WriteSpec(WriteSpec(c, off, a).value, off + |a|, b) == WriteSpec(c, off, a + b)
  {
    var once := WriteSpec(c, off, a).value;
    assert once[..off + |a|] == c[..off] + a;
    assert off + |a| + |b| < |c| ==> once[off + |a| + |b|..] == c[off + |a| + |b|..];
    assert WriteSpec(once, off + |a|, b).value == WriteSpec(c, off, a + b).value;
  }

  lemma PatchedContent(v: Volume, w: Volume, inum: nat, off: nat, src: seq<Byte>, j: nat)
    requires Patched(v, w, inum, off, src) && j < |v.inodes|
    requires v.inodes[j].size <= MAXBYTES && off + |src| <= MAXBYTES
    requires j != inum ==> w.inodes[j].size == v.inodes[j].size
    requires j == inum ==> off <= v.inodes[j].size
                           && w.inodes[j].size == if off + |src| > v.inodes[j].size then off + |src|
                              else v.inodes[j].size
    ensures j != inum ==> Content(w, j) == Content(v, j)
    ensures j == inum ==> WriteSpec(Content(v, j), off, src) == Some(Content(w, j))
  {
    forall p | 0 <= p < w.inodes[j].size
      ensures ByteAt(w, j, p) == PatchedByte(v, inum, off, src, j, p)
    {
    }
    if j == inum {
      assert Content(w, j) == WriteSpec(Content(v, j), off, src).value;
    }
  }
}
