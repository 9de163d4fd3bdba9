/**
  The block and inode layers: balloc, bfree, bmap, itrunc, readi, writei, the
  freeing half of iput, and filewrite's chunk loop.  System calls are atomic
  here; `logged` collects the blocks that log_write saw.
 */
module FileSystem {
  import opened Bitmap
  import opened BlockMap
  import opened BlockCount

  const CHUNK: nat := 6656  // ((LOGSIZE - 1 - 1 - 2) / 2) * 512

  datatype Outcome = Done | Refused | OutOfBlocks

  function Min(a: nat, b: nat): nat {
    if a < b then a else b
  }

  // Slots [lo, hi) of a file's blocks are filled.
  ghost predicate Covered(v: Volume, inum: nat, lo: nat, hi: nat)
    requires Shape(v) && inum < |v.inodes| && hi <= MAXFILE
  {
    forall bn :: lo <= bn < hi ==> BlockOf(v, SlotFor(inum, bn)) != 0
  }

  // The block of a slot, if it has one.
  ghost function InUse(v: Volume, s: Slot): set<nat>
    requires Shape(v) && IsSlot(v, s)
  {
    if BlockOf(v, s) == 0 then {} else {BlockOf(v, s)}
  }

  // ----- free inodes

  predicate NoBlocks(x: Inode) {
    forall k :: 0 <= k < |x.addrs| ==> x.addrs[k] == 0
  }

  // An inode of type 0 has no block.
  ghost predicate FreeEmpty(inodes: seq<Inode>) {
    forall i :: 0 <= i < |inodes| && inodes[i].kind == 0 ==> NoBlocks(inodes[i])
  }

  // ----- what is on disk, and what log_write saw of it

  datatype Image = Image(bitmap: seq<bv8>, data: seq<Block>, dinodes: seq<Inode>)

  // Every block of the disk that changed between two moments is among the logged ones:
  // bitmap blocks, data blocks and inode blocks.
  ghost predicate Recorded(bmapstart: nat, inodestart: nat, d: Image, l: set<nat>, d': Image, l': set<nat>) {
    && l <= l' && |d'.bitmap| == |d.bitmap| && |d'.data| == |d.data| && |d'.dinodes| == |d.dinodes|
    && (forall k :: 0 <= k < |d.bitmap| && d'.bitmap[k] != d.bitmap[k] ==> bmapstart + 8 * k / BPB in l')
    && (forall b :: 0 <= b < |d.data| && d'.data[b] != d.data[b] ==> b in l')
    && (forall i :: 0 <= i < |d.dinodes| && d'.dinodes[i] != d.dinodes[i] ==> inodestart + i / IPB in l')
  }

  lemma RecordedSame(bmapstart: nat, inodestart: nat, d: Image, l: set<nat>)
    ensures Recorded(bmapstart, inodestart, d, l, d, l)
  {
  }

  lemma OneBlock(bmapstart: nat, inodestart: nat, d: Image, l: set<nat>, b: nat, x: Block)
    requires b < |d.data|
    ensures Recorded(bmapstart, inodestart, d, l, d.(data := d.data[b := x]), l + {b})
  {
  }

  lemma OneByte(bmapstart: nat, inodestart: nat, d: Image, l: set<nat>, b: nat, x: bv8)
    requires b < 8 * |d.bitmap|
    ensures Recorded(bmapstart, inodestart, d, l, d.(bitmap := d.bitmap[b / 8 := x]), l + {bmapstart + b / BPB})
  {
    SameBitmapBlock(b);
    hide Bit;
  }

  lemma SameBitmapBlock(b: nat)
    ensures 8 * (b / 8) / BPB == b / BPB
  {
    var q, s := b / BPB, b % BPB;
    assert b / 8 == q * 512 + s / 8;
    Quotient(q, 8 * (s / 8));
  }

  lemma Quotient(q: nat, r: nat)
    requires r < BPB
    ensures (q * BPB + r) / BPB == q
  {
  }

  lemma RecordedThen(bmapstart: nat, inodestart: nat, d: Image, l: set<nat>, d': Image, l': set<nat>, d'': Image,
                     l'': set<nat>)
    requires Recorded(bmapstart, inodestart, d, l, d', l') && Recorded(bmapstart, inodestart, d', l', d'', l'')
    ensures Recorded(bmapstart, inodestart, d, l, d'', l'')
  {
  }

  function NewInode(kind: nat): Inode {
    Inode(kind, 0, 0, seq(NDIRECT + 1, _ => 0))
  }

  class FileSystem {
    const size: nat
    const nmeta: nat
    const inodestart: nat
    const bmapstart: nat
    var bitmap: seq<bv8>
    var data: seq<Block>
    var inodes: seq<Inode>    // in memory
    var dinodes: seq<Inode>   // on disk, written by iupdate
    ghost var owner: map<nat, Slot>
    ghost var logged: set<nat>

    ghost function View(): Volume
      reads this
    {
      Volume(size, nmeta, bitmap, data, inodes)
    }

    ghost function Disk(): Image
      reads this
    {
      Image(bitmap, data, dinodes)
    }

    // Everything on disk that is different from d is logged.
    ghost predicate Since(d: Image, l: set<nat>)
      reads this
    {
      Recorded(bmapstart, inodestart, d, l, Disk(), logged)
    }

    lemma SinceNow()
      ensures Since(Disk(), logged)
    {
      RecordedSame(bmapstart, inodestart, Disk(), logged);
    }

    lemma SinceIs(d: Image, l: set<nat>)
      ensures Since(d, l) <==> Recorded(bmapstart, inodestart, d, l, Disk(), logged)
    {
    }

    lemma SinceThen(d: Image, l: set<nat>, d': Image, l': set<nat>)
      requires Recorded(bmapstart, inodestart, d, l, d', l') && Since(d', l')
      ensures Since(d, l)
    {
      RecordedThen(bmapstart, inodestart, d, l, d', l', Disk(), logged);
    }

    ghost predicate Valid()
      reads this
    {
      && Owned(View(), owner, {})
      && dinodes == inodes
      && forall i :: 0 <= i < |inodes| ==> Filled(View(), i)
    }

    // Reading a disk image: the inodes in memory are those on disk.
    constructor (size: nat, nmeta: nat, inodestart: nat, bmapstart: nat, bitmap: seq<bv8>, data: seq<Block>,
                 inodes: seq<Inode>, ghost owner: map<nat, Slot>)
      ensures View() == Volume(size, nmeta, bitmap, data, inodes) && this.owner == owner && logged == {}
      ensures this.inodestart == inodestart && this.bmapstart == bmapstart && dinodes == inodes
    {
      this.size, this.nmeta, this.inodestart, this.bmapstart := size, nmeta, inodestart, bmapstart;
      this.bitmap, this.data, this.inodes, this.dinodes := bitmap, data, inodes, inodes;
      this.owner, logged := owner, {};
    }

    // ----- blocks

    // 0 is the "out of blocks" panic.
    method Balloc() returns (b: nat)
      requires Owned(View(), owner, {})
      modifies `bitmap, `data, `logged
      ensures b == 0 <==> forall c :: 0 <= c < size ==> Bit(old(bitmap), c)
      ensures b == 0 <==> FreeCount(old(View())) == 0
      ensures b == 0 ==> View() == old(View())
      ensures b != 0 ==> b < size && !Bit(old(bitmap), b) && View() == Allocated(old(View()), b)
      ensures b != 0 ==> forall c :: 0 <= c < b ==> Bit(old(bitmap), c)
      ensures logged == old(logged) + if b != 0 then {bmapstart + b / BPB, b} else {}
      ensures Since(old(Disk()), old(logged))
    {
      hide Recorded;
      SinceNow();
      var f := FirstFree(bitmap, size);
      if f == size {
        NoneFree(View());
        return 0;
      }
      SomeFree(View(), f);
      bitmap := SetBit(bitmap, f);
      logged := logged + {bmapstart + f / BPB};
      OneByte(bmapstart, inodestart, old(Disk()), old(logged), f, bitmap[f / 8]);
      ghost var d1, l1 := Disk(), logged;
      data := data[f := Zero()];
      logged := logged + {f};
      OneBlock(bmapstart, inodestart, d1, l1, f, data[f]);
      SinceThen(old(Disk()), old(logged), d1, l1);
      return f;
    }

    // The "freeing free block" panic cannot fire on a block that has an owner.
    method Bfree(b: nat)
      requires b < size <= 8 * |bitmap| && Bit(bitmap, b)
      modifies `bitmap, `logged
      ensures bitmap == ClearBit(old(bitmap), b) && logged == old(logged) + {bmapstart + b / BPB}
      ensures forall c :: 0 <= c < size ==> (Bit(bitmap, c) <==> Bit(old(bitmap), c) && c != b)
      ensures old(Shape(View())) ==> FreeCount(View()) == FreeCount(old(View())) + 1
      ensures Since(old(Disk()), old(logged))
    {
      hide Bit, Shape, FreeCount, Recorded;
      Cleared(View(), b);
      bitmap := ClearBit(bitmap, b);
      logged := logged + {bmapstart + b / BPB};
      OneByte(bmapstart, inodestart, old(Disk()), old(logged), b, bitmap[b / 8]);
    }

    // ----- inodes

    method Iupdate(inum: nat)
      requires inum < |inodes| == |dinodes|
      modifies `dinodes, `logged
      ensures dinodes == old(dinodes)[inum := inodes[inum]] && logged == old(logged) + {inodestart + inum / IPB}
      ensures Since(old(Disk()), old(logged))
    {
      dinodes := dinodes[inum := inodes[inum]];
      logged := logged + {inodestart + inum / IPB};
    }

    // The address of a file's bn-th block, allocating it if there is none; 0 is
    // the out-of-blocks panic.  Bytes of files do not change.
    method Bmap(inum: nat, bn: nat) returns (addr: nat)
      requires Owned(View(), owner, {}) && inum < |View().inodes| && bn < MAXFILE
      modifies `bitmap, `data, `inodes, `logged, `owner
      ensures Owned(View(), owner, {}) && |inodes| == |old(inodes)|
      ensures Keeps(old(View()), View(), inum) && Patched(old(View()), View(), inum, 0, [])
      ensures Mapped(old(View()), View(), inum, bn, addr)
      ensures addr == 0 <==> FreeCount(old(View())) < Cost(old(View()), inum, bn)
      ensures !old(Lacks(View(), inum, bn)) ==> addr != 0 && View() == old(View()) && logged == old(logged)
      ensures MapLogged(View(), bmapstart, old(logged), logged, inum, bn)
      ensures Since(old(Disk()), old(logged))
    {
      hide Keeps, Patched, Owned, OnlyThis, OnlySlot, FreeCount, Recorded;
      OwnedShape(View(), owner);
      if bn < NDIRECT {
        addr := Direct(inum, bn);
        OwnedShape(View(), owner);
        TookDirect(old(View()), View(), inum, bn, addr);
        return;
      }
      EntryNeedsIndirect(View(), inum, bn - NDIRECT);
      addr := Direct(inum, NDIRECT);
      OwnedShape(View(), owner);
      ghost var v1, ind := View(), addr;
      if addr != 0 {
        OnlyAt(old(View()), v1, Slot(inum, NDIRECT), SlotFor(inum, bn));
        ghost var d1, l1 := Disk(), logged;
        addr := Entry(inum, bn - NDIRECT);
        SinceThen(old(Disk()), old(logged), d1, l1);
        OwnedShape(View(), owner);
        KeepsTransitive(old(View()), v1, View(), inum);
        PatchedNothing(old(View()), v1, View(), inum, 0, []);
      }
      TookEntry(old(View()), v1, View(), inum, bn, ind, addr);
    }

    // ip->addrs[k], allocated if 0.
    method Direct(inum: nat, k: nat) returns (addr: nat)
      requires Owned(View(), owner, {}) && inum < |inodes| && k <= NDIRECT
      modifies `bitmap, `data, `inodes, `logged, `owner
      ensures Owned(View(), owner, {}) && |inodes| == |old(inodes)|
      ensures Keeps(old(View()), View(), inum) && Patched(old(View()), View(), inum, 0, [])
      ensures Took(old(View()), View(), Slot(inum, k), addr)
      ensures old(BlockOf(View(), Slot(inum, k))) != 0 ==> logged == old(logged)
      ensures size <= BPB ==> logged <= old(logged) + {bmapstart} + InUse(View(), Slot(inum, k))
      ensures Since(old(Disk()), old(logged))
    {
      hide Keeps, Patched, FreeCount, Recorded;
      SinceNow();
      ghost var v := View();
      addr := inodes[inum].addrs[k];
      NothingPatched(v, inum);
      if addr == 0 {
        addr := Balloc();
        if addr != 0 {
          AllocDirectBytes(v, owner, inum, k, addr);
          AllocDirectOk(v, owner, inum, k, addr);
          AllocDirectOnly(v, owner, inum, k, addr);
          FreeBlock(v, owner, {}, addr);
          inodes := inodes[inum := inodes[inum].(addrs := inodes[inum].addrs[k := addr])];
          owner := owner[addr := Slot(inum, k)];
          assert View() == AllocDirect(v, inum, k, addr);
        }
      }
    }

    // Entry j of the indirect block, allocated if 0.
    method Entry(inum: nat, j: nat) returns (addr: nat)
      requires Owned(View(), owner, {}) && inum < |inodes| && j < NINDIRECT
      requires BlockOf(View(), Slot(inum, NDIRECT)) != 0
      modifies `bitmap, `data, `logged, `owner
      ensures Owned(View(), owner, {}) && |inodes| == |old(inodes)|
      ensures Keeps(old(View()), View(), inum) && Patched(old(View()), View(), inum, 0, [])
      ensures Took(old(View()), View(), Slot(inum, NDIRECT + 1 + j), addr)
      ensures old(BlockOf(View(), Slot(inum, NDIRECT + 1 + j))) != 0 ==> logged == old(logged)
      ensures size <= BPB ==>
                logged <= old(logged) + {bmapstart} + InUse(View(), Slot(inum, NDIRECT))
                                      + InUse(View(), Slot(inum, NDIRECT + 1 + j))
      ensures Since(old(Disk()), old(logged))
    {
      hide Keeps, Patched, Owned, FreeCount, Recorded;
      SinceNow();
      OwnedShape(View(), owner);
      ghost var v := View();
      var ind := inodes[inum].addrs[NDIRECT];
      NothingPatched(v, inum);
      IndirectBlock(v, owner, inum);
      addr := Word(data[ind], j);
      if addr == 0 {
        addr := Balloc();
        if addr != 0 {
          AllocEntryBytes(v, owner, inum, j, addr);
          AllocEntryOk(v, owner, inum, j, addr);
          AllocEntrySlots(v, owner, inum, j, addr, Slot(inum, NDIRECT + 1 + j));
          AllocEntryOnly(v, owner, inum, j, addr);
          ghost var d1, l1 := Disk(), logged;
          data := data[ind := PutWord(data[ind], j, addr)];
          logged := logged + {ind};
          OneBlock(bmapstart, inodestart, d1, l1, ind, data[ind]);
          SinceThen(old(Disk()), old(logged), d1, l1);
          owner := owner[addr := Slot(inum, NDIRECT + 1 + j)];
          assert View() == AllocEntry(v, inum, j, addr);
        }
      }
    }

    // ----- file contents

    ghost function File(inum: nat): (c: seq<Byte>)
      requires Valid() && inum < |inodes|
      reads this
      ensures |c| == inodes[inum].size <= MAXBYTES
    {
      assert Filled(View(), inum);
      Content(View(), inum)
    }

    // Reads a clipped slice and changes nothing.
    method Readi(inum: nat, off: nat, n: nat) returns (ok: bool, dst: seq<Byte>)
      requires Valid() && inum < |inodes| && off < WORDLIMIT && n < WORDLIMIT
      modifies `bitmap, `data, `inodes, `logged, `owner
      ensures Valid() && View() == old(View()) && logged == old(logged)
      ensures ok <==> off <= inodes[inum].size && off + n < WORDLIMIT
      ensures ok ==> dst == File(inum)[off..Min(off + n, inodes[inum].size)]
      ensures !ok ==> dst == []
    {
      hide Owned, Filled, BlockOf, ByteAt, Bytes, Content;
      ghost var v := View();
      dst := [];
      OwnedShape(v, owner);
      FilledSize(v, inum);
      if off > inodes[inum].size || off + n >= WORDLIMIT {
        return false, [];
      }
      var len := if off + n > inodes[inum].size then inodes[inum].size - off else n;
      var tot := 0;
      assert Bytes(v, inum, off, off) == [];
      while tot < len
        invariant 0 <= tot <= len && View() == v && logged == old(logged) && Valid()
        invariant dst == Bytes(v, inum, off, off + tot)
      {
        var piece := ReadBlock(inum, off + tot, len - tot);
        BytesJoin(v, inum, off, off + tot, off + tot + |piece|);
        dst := dst + piece;
        tot := tot + |piece|;
      }
      BytesOfContent(v, inum, off, off + len);
      return true, dst;
    }

    // One round of readi's loop: up to the end of the block.
    method ReadBlock(inum: nat, at: nat, left: nat) returns (piece: seq<Byte>)
      requires Valid() && inum < |inodes| && left > 0 && at + left <= inodes[inum].size
      modifies `bitmap, `data, `inodes, `logged, `owner
      ensures Valid() && View() == old(View()) && logged == old(logged)
      ensures |piece| == Min(left, BSIZE - at % BSIZE) && at + |piece| <= MAXBYTES
      ensures piece == Bytes(View(), inum, at, at + |piece|)
    {
      FilledAt(View(), inum, at);
      var addr := Bmap(inum, at / BSIZE);
      var m := Min(left, BSIZE - at % BSIZE);
      BlockBytes(View(), owner, inum, at, m, addr);
      piece := data[addr][at % BSIZE..at % BSIZE + m];
    }

    // A successful write replaces or extends exactly [off, off + n) of this file
    // and changes no byte of another; a refused one changes nothing.
    method Writei(inum: nat, off: nat, src: seq<Byte>) returns (r: Outcome)
      requires Valid() && inum < |inodes|
      modifies `bitmap, `data, `inodes, `dinodes, `logged, `owner
      ensures r.Refused? <==> off > old(inodes)[inum].size || off + |src| > MAXBYTES
      ensures r.Refused? ==> View() == old(View()) && Valid() && logged == old(logged)
      ensures !r.Refused? ==> BlocksEnd(off, |src|) <= MAXFILE
      ensures r.OutOfBlocks? <==>
                !r.Refused? && FreeCount(old(View())) < Need(old(View()), inum, off / BSIZE, BlocksEnd(off, |src|))
      ensures r.Done? ==> Spent(old(View()), View(), inum, off / BSIZE, BlocksEnd(off, |src|))
      ensures r.Done? ==>
                && Valid() && |inodes| == |old(inodes)|
                && Finished(old(View()), View(), owner, inum, off, src)
                && WriteSpec(old(File(inum)), off, src) == Some(File(inum))
                && inodes[inum].kind == old(inodes)[inum].kind && inodes[inum].nlink == old(inodes)[inum].nlink
                && (forall j :: 0 <= j < |inodes| && j != inum ==>
                    inodes[j] == old(inodes)[j] && File(j) == old(File(j)))
                && (size <= BPB ==> logged <= old(logged) + MayLog(View(), inodestart, bmapstart, inum, off, |src|))
      ensures Since(old(Disk()), old(logged))
    {
      SinceNow();
      ghost var v := View();
      if off > inodes[inum].size || off + |src| > MAXBYTES {
        return Refused;
      }
      assert Filled(v, inum);
      hide *;
      var ok := WriteLoop(v, inum, off, src);
      if !ok {
        return OutOfBlocks;
      }
      ghost var d1, l1 := Disk(), logged;
      FinishWrite(v, inum, off, src, old(logged));
      SinceThen(old(Disk()), old(logged), d1, l1);
      SpentPrice(v, View(), inum, off / BSIZE, BlocksEnd(off, |src|));
      return Done;
    }

    method WriteLoop(ghost v: Volume, inum: nat, off: nat, src: seq<Byte>) returns (ok: bool)
      requires v == View() && dinodes == inodes && Owned(v, owner, {}) && inum < |v.inodes| && Filled(v, inum)
      requires off <= v.inodes[inum].size && off + |src| <= MAXBYTES
      modifies `bitmap, `data, `inodes, `logged, `owner
      ensures BlocksEnd(off, |src|) <= MAXFILE
      ensures !ok ==> FreeCount(v) < Need(v, inum, off / BSIZE, BlocksEnd(off, |src|))
      ensures ok ==>
                && Spent(v, View(), inum, off / BSIZE, BlocksEnd(off, |src|))
                && WriteInv(v, View(), owner, inum, off, src)
                && (off + |src| <= v.inodes[inum].size ==> View().inodes == v.inodes)
                && LoggedOk(View(), old(logged), logged, bmapstart, inum, off, |src|)
      ensures Since(old(Disk()), old(logged))
    {
      hide *;
      SinceNow();
      BlockSize(off);
      OwnedShape(v, owner);
      WriteStart(v, owner, inum, off);
      SpentStarts(v, inum, off);
      BlocksEndFits(off, |src|);
      NothingLogged(v, logged, bmapstart, inum, off);
      var tot := 0;
      assert src[..0] == [];
      while tot < |src|
        invariant 0 <= tot <= |src|
        invariant WriteInv(v, View(), owner, inum, off, src[..tot])
        invariant off + tot <= v.inodes[inum].size ==> View().inodes == v.inodes
        invariant LoggedOk(View(), old(logged), logged, bmapstart, inum, off, tot)
        invariant Spent(v, View(), inum, off / BSIZE, BlocksEnd(off, tot))
        invariant Since(old(Disk()), old(logged))
      {
        ghost var d1, l1 := Disk(), logged;
        SinceIs(old(Disk()), old(logged));
        var m := WriteBlock(v, inum, off, src, tot, old(logged));
        SinceThen(old(Disk()), old(logged), d1, l1);
        if m == 0 {
          return false;
        }
        tot := tot + m;
      }
      assert src[..|src|] == src;
      return true;
    }

    // One round of writei's loop; 0 if there was no block left.
    method WriteBlock(ghost v: Volume, inum: nat, off: nat, src: seq<Byte>, tot: nat,
                      ghost logged0: set<nat>) returns (m: nat)
      requires tot < |src| && off + |src| <= MAXBYTES && WriteInv(v, View(), owner, inum, off, src[..tot])
      requires Filled(v, inum) && (off + tot <= v.inodes[inum].size ==> View().inodes == v.inodes)
      requires LoggedOk(View(), logged0, logged, bmapstart, inum, off, tot)
      requires Spent(v, View(), inum, off / BSIZE, BlocksEnd(off, tot))
      modifies `bitmap, `data, `inodes, `logged, `owner
      ensures m <= |src| - tot
      ensures m == 0 ==>
                && BlocksEnd(off, |src|) <= MAXFILE
                && FreeCount(v) < Need(v, inum, off / BSIZE, BlocksEnd(off, |src|))
      ensures m > 0 ==>
                && Spent(v, View(), inum, off / BSIZE, BlocksEnd(off, tot + m))
                && WriteInv(v, View(), owner, inum, off, src[..tot + m])
                && (off + tot + m <= v.inodes[inum].size ==> View().inodes == v.inodes)
                && LoggedOk(View(), logged0, logged, bmapstart, inum, off, tot + m)
      ensures Since(old(Disk()), old(logged))
    {
      hide *;
      BlockSize(off + tot);
      var at := off + tot;
      var bn := at / BSIZE;
      m := Min(|src| - tot, BSIZE - at % BSIZE);
      ghost var w0, logged1, owner0 := View(), logged, owner;
      BlocksEndAt(off, tot, |src|);
      RoundBegins(v, w0, owner, inum, off, src[..tot]);
      var addr := Bmap(inum, bn);
      if addr == 0 {
        SpentFails(v, w0, inum, off / BSIZE, BlocksEnd(off, tot), bn, BlocksEnd(off, |src|));
        return 0;
      }
      IsMappedAt(w0, View(), owner, inum, bn, addr);
      WriteRound(v, w0, View(), owner0, owner, inum, off, src, tot, m, addr);
      LogRound(v, w0, View(), owner0, owner, inum, off, src, tot, m, addr, bmapstart, logged0, logged1, logged);
      ghost var d1, l1 := Disk(), logged;
      SinceIs(old(Disk()), old(logged));
      Splice(addr, at, src[tot..tot + m]);
      SinceThen(old(Disk()), old(logged), d1, l1);
    }

    // memmove into a buffer, and log_write.
    method Splice(addr: nat, at: nat, piece: seq<Byte>)
      requires addr < |View().data| && |View().data[addr]| == BSIZE && at % BSIZE + |piece| <= BSIZE
      modifies `data, `logged
      ensures View() == Written(old(View()), addr, at, piece) && logged == old(logged) + {addr}
      ensures Since(old(Disk()), old(logged))
    {
      data := data[addr := Spliced(data[addr], at % BSIZE, piece)];
      logged := logged + {addr};
    }

    // The size and iupdate at the end of writei.
    method FinishWrite(ghost v: Volume, inum: nat, off: nat, src: seq<Byte>, ghost logged0: set<nat>)
      requires WriteInv(v, View(), owner, inum, off, src) && dinodes == v.inodes
               && off <= v.inodes[inum].size <= MAXBYTES
      requires off + |src| <= v.inodes[inum].size ==> View().inodes == v.inodes
      requires forall i :: 0 <= i < |v.inodes| ==> Filled(v, i)
      requires LoggedOk(View(), logged0, logged, bmapstart, inum, off, |src|)
      requires Spent(v, View(), inum, off / BSIZE, BlocksEnd(off, |src|))
      modifies `inodes, `dinodes, `logged
      ensures Finished(v, View(), owner, inum, off, src)
      ensures Valid() && |inodes| == |v.inodes|
      ensures Spent(v, View(), inum, off / BSIZE, BlocksEnd(off, |src|))
      ensures WriteSpec(Content(v, inum), off, src) == Some(File(inum))
      ensures inodes[inum].kind == v.inodes[inum].kind && inodes[inum].nlink == v.inodes[inum].nlink
      ensures forall j :: 0 <= j < |inodes| && j != inum ==> inodes[j] == v.inodes[j] && File(j) == Content(v, j)
      ensures size <= BPB ==> logged <= logged0 + MayLog(View(), inodestart, bmapstart, inum, off, |src|)
      ensures Since(old(Disk()), old(logged))
    {
      hide *;
      ghost var w := View();
      FinishOk(v, w, owner, inum, off, src);
      FinishSpent(v, w, owner, inum, off, src);
      SetSize(v, inum, off, src, logged0);
      Finish(v, inum, off, src);
    }

    method SetSize(ghost v: Volume, inum: nat, off: nat, src: seq<Byte>, ghost logged0: set<nat>)
      requires WriteInv(v, View(), owner, inum, off, src) && dinodes == v.inodes && off <= v.inodes[inum].size
      requires off + |src| <= v.inodes[inum].size ==> View().inodes == v.inodes
      requires LoggedOk(View(), logged0, logged, bmapstart, inum, off, |src|)
      modifies `inodes, `dinodes, `logged
      ensures View() == Resized(old(View()), inum, off + |src|) && dinodes == inodes
      ensures Shape(View()) && inum < |inodes|
      ensures size <= BPB ==> logged <= logged0 + MayLog(View(), inodestart, bmapstart, inum, off, |src|)
      ensures Since(old(Disk()), old(logged))
    {
      hide Filled, Content, Owned, Keeps, Patched, Covered, BlockOf, Recorded;
      SinceNow();
      ghost var w := View();
      SizeKept(v, w, inum);
      ResizeKeeps(w, owner, inum, off + |src|);
      OwnedShape(Resized(w, inum, off + |src|), owner);
      if |src| > 0 && off + |src| > inodes[inum].size {
        inodes := inodes[inum := inodes[inum].(size := off + |src|)];
        Iupdate(inum);
      }
    }

    lemma Finish(v: Volume, inum: nat, off: nat, src: seq<Byte>)
      requires Finished(v, View(), owner, inum, off, src) && dinodes == inodes
      ensures Valid() && |inodes| == |v.inodes|
      ensures WriteSpec(Content(v, inum), off, src) == Some(File(inum))
      ensures inodes[inum].kind == v.inodes[inum].kind && inodes[inum].nlink == v.inodes[inum].nlink
      ensures forall j :: 0 <= j < |inodes| && j != inum ==> inodes[j] == v.inodes[j] && File(j) == Content(v, j)
    {
      hide Filled, Content, Owned;
      forall j | 0 <= j < |inodes| && j != inum
        ensures inodes[j] == v.inodes[j] && File(j) == Content(v, j)
      {
        assert FileKept(v, View(), j);
      }
    }

    // ----- freeing a file

    // Frees every block of a file, each once, and nothing else.
    method Itrunc(inum: nat)
      requires Valid() && inum < |inodes|
      modifies `bitmap, `inodes, `dinodes, `logged, `owner
      ensures Valid() && |inodes| == |old(inodes)| && inodes[inum].size == 0
      ensures forall k :: 0 <= k < NSLOTS ==> BlockOf(View(), Slot(inum, k)) == 0
      ensures forall j :: 0 <= j < |inodes| && j != inum ==> inodes[j] == old(inodes)[j] && File(j) == old(File(j))
      ensures inodes[inum] == old(inodes)[inum].(size := 0, addrs := inodes[inum].addrs)
      ensures Since(old(Disk()), old(logged))
    {
      hide Recorded;
      SinceNow();
      ghost var v := View();
      ghost var d1, l1 := Disk(), logged;
      var i := 0;
      while i < NDIRECT
        invariant 0 <= i <= NDIRECT && TrimInv(v, View(), owner, inum, i, {}) && dinodes == v.inodes
        invariant Since(old(Disk()), old(logged))
      {
        d1, l1 := Disk(), logged;
        TruncDirect(v, inum, i);
        SinceThen(old(Disk()), old(logged), d1, l1);
        i := i + 1;
      }
      d1, l1 := Disk(), logged;
      if inodes[inum].addrs[NDIRECT] != 0 {
        TruncIndirect(v, inum);
        SinceThen(old(Disk()), old(logged), d1, l1);
      }
      ghost var w := View();
      d1, l1 := Disk(), logged;
      inodes := inodes[inum := inodes[inum].(size := 0)];
      Iupdate(inum);
      SinceThen(old(Disk()), old(logged), d1, l1);
      TrimEnd(v, w, owner, inum);
      hide *;
      assert View() == w.(inodes := w.inodes[inum := w.inodes[inum].(size := 0)]);
    }

    method TruncDirect(ghost v: Volume, inum: nat, i: nat)
      requires i < NDIRECT && TrimInv(v, View(), owner, inum, i, {})
      modifies `bitmap, `inodes, `logged, `owner
      ensures TrimInv(v, View(), owner, inum, i + 1, {})
      ensures Since(old(Disk()), old(logged))
    {
      hide Recorded;
      SinceNow();
      var b := inodes[inum].addrs[i];
      if b != 0 {
        FreeDirectOk(View(), owner, inum, i);
        ghost var w := View();
        Bfree(b);
        inodes := inodes[inum := inodes[inum].(addrs := inodes[inum].addrs[i := 0])];
        owner := owner - {b};
        assert View() == FreeDirect(w, inum, i);
      }
    }

    method TruncIndirect(ghost v: Volume, inum: nat)
      requires TrimInv(v, View(), owner, inum, NDIRECT, {}) && inodes[inum].addrs[NDIRECT] != 0
      modifies `bitmap, `inodes, `logged, `owner
      ensures TrimInv(v, View(), owner, inum, NDIRECT + 1, {})
      ensures Since(old(Disk()), old(logged))
    {
      hide *;
      SinceNow();
      IndirectStarts(v, inum);
      var ind := inodes[inum].addrs[NDIRECT];
      ghost var d1, l1 := Disk(), logged;
      var j := 0;
      while j < NINDIRECT
        invariant 0 <= j <= NINDIRECT && TrimInv(v, View(), owner, inum, NDIRECT, Entries(inum, j))
        invariant HasIndirect(View(), inum, ind)
        invariant Since(old(Disk()), old(logged))
      {
        d1, l1 := Disk(), logged;
        SinceIs(old(Disk()), old(logged));
        TruncEntry(v, inum, ind, j);
        SinceThen(old(Disk()), old(logged), d1, l1);
        j := j + 1;
      }
      d1, l1 := Disk(), logged;
      SinceIs(old(Disk()), old(logged));
      DropIndirect(v, inum, ind);
      SinceThen(old(Disk()), old(logged), d1, l1);
    }

    lemma IndirectStarts(v: Volume, inum: nat)
      requires TrimInv(v, View(), owner, inum, NDIRECT, {}) && inodes[inum].addrs[NDIRECT] != 0
      ensures inum < |inodes| && NDIRECT < |inodes[inum].addrs|
      ensures TrimInv(v, View(), owner, inum, NDIRECT, Entries(inum, 0))
      ensures HasIndirect(View(), inum, inodes[inum].addrs[NDIRECT])
    {
      IndirectBlock(View(), owner, inum);
      assert Entries(inum, 0) == {};
    }

    method DropIndirect(ghost v: Volume, inum: nat, ind: nat)
      requires TrimInv(v, View(), owner, inum, NDIRECT, Entries(inum, NINDIRECT)) && HasIndirect(View(), inum, ind)
      modifies `bitmap, `inodes, `logged, `owner
      ensures TrimInv(v, View(), owner, inum, NDIRECT + 1, {})
      ensures Since(old(Disk()), old(logged))
    {
      hide Entries, BlockOf, Recorded;
      FreeIndirectOk(View(), owner, inum);
      ghost var w := View();
      Bfree(ind);
      inodes := inodes[inum := inodes[inum].(addrs := inodes[inum].addrs[NDIRECT := 0])];
      owner := owner - {ind};
      assert View() == FreeDirect(w, inum, NDIRECT);
    }

    method TruncEntry(ghost v: Volume, inum: nat, ind: nat, j: nat)
      requires j < NINDIRECT && TrimInv(v, View(), owner, inum, NDIRECT, Entries(inum, j))
      requires HasIndirect(View(), inum, ind)
      modifies `bitmap, `logged, `owner
      ensures TrimInv(v, View(), owner, inum, NDIRECT, Entries(inum, j + 1)) && HasIndirect(View(), inum, ind)
      ensures Since(old(Disk()), old(logged))
    {
      hide Entries, Recorded;
      SinceNow();
      var b := Word(data[ind], j);
      FreeEntryOk(View(), owner, inum, j);
      if b != 0 {
        Bfree(b);
        owner := owner - {b};
      }
    }

    // What iput does when it drops the last reference to an inode without links.
    method FreeInode(inum: nat)
      requires Valid() && inum < |inodes|
      modifies `bitmap, `inodes, `dinodes, `logged, `owner
      ensures Valid() && |inodes| == |old(inodes)|
      ensures inodes[inum] == old(inodes)[inum].(kind := 0, size := 0, addrs := inodes[inum].addrs)
      ensures forall k :: 0 <= k < NSLOTS ==> BlockOf(View(), Slot(inum, k)) == 0
      ensures forall j :: 0 <= j < |inodes| && j != inum ==> inodes[j] == old(inodes)[j] && File(j) == old(File(j))
      ensures old(FreeEmpty(inodes)) ==> FreeEmpty(inodes)
      ensures Since(old(Disk()), old(logged))
    {
      Itrunc(inum);
      AllZero(View(), owner, inum);
      hide Owned, Filled, BlockOf, Content, Shape, Recorded;
      ghost var w := View();
      ghost var d1, l1 := Disk(), logged;
      OwnedShape(w, owner);
      KindIrrelevant(w, owner, inum);
      assert forall j :: 0 <= j < |inodes| && j != inum ==> Content(w, j) == old(File(j));
      inodes := inodes[inum := inodes[inum].(kind := 0)];
      Iupdate(inum);
      SinceThen(old(Disk()), old(logged), d1, l1);
      assert View() == w.(inodes := w.inodes[inum := w.inodes[inum].(kind := 0)]);
      assert Valid();
      FreeEmptyKept(old(inodes), inodes, inum);
      hide Valid, View;
    }

    // The first inode of type 0 from 1 on, cleared and given its type; 0 is the panic.
    // Only because a free inode has no block does clearing it lose none.
    method Ialloc(kind: nat) returns (inum: nat)
      requires Valid() && FreeEmpty(inodes) && kind != 0
      modifies `inodes, `dinodes, `logged
      ensures Valid() && FreeEmpty(inodes) && |inodes| == |old(inodes)|
      ensures inum == 0 <==> forall i :: 1 <= i < |inodes| ==> old(inodes)[i].kind != 0
      ensures inum == 0 ==> View() == old(View()) && logged == old(logged)
      ensures inum != 0 ==>
                && inum < |inodes| && old(inodes)[inum].kind == 0
                && (forall i :: 1 <= i < inum ==> old(inodes)[i].kind != 0)
                && inodes[inum].kind == kind && inodes[inum].nlink == 0 && File(inum) == []
                && (forall j :: 0 <= j < |inodes| && j != inum ==>
                      inodes[j] == old(inodes)[j] && File(j) == old(File(j)))
                && logged == old(logged) + {inodestart + inum / IPB}
      ensures Since(old(Disk()), old(logged))
    {
      hide Owned, Filled, Content, NoBlocks;
      inum := 1;
      while inum < |dinodes|
        invariant 1 <= inum && forall i :: 1 <= i < inum && i < |inodes| ==> inodes[i].kind != 0
      {
        if dinodes[inum].kind == 0 {
          ghost var w := View();
          ClearOk(w, owner, inum, kind);
          dinodes := dinodes[inum := NewInode(kind)];
          logged := logged + {inodestart + inum / IPB};
          inodes := inodes[inum := NewInode(kind)];
          assert View() == w.(inodes := w.inodes[inum := NewInode(kind)]);
          return;
        }
        inum := inum + 1;
      }
      return 0;
    }

    // ----- filewrite

    // Writes in chunks small enough for a transaction; -1 unless all of src was
    // written.  None is the out-of-blocks panic.
    method FileWrite(inum: nat, off: nat, src: seq<Byte>) returns (r: Option<int>, off': nat)
      requires Valid() && inum < |inodes|
      modifies `bitmap, `data, `inodes, `dinodes, `logged, `owner
      ensures r.Some? ==>
                && Valid() && |inodes| == |old(inodes)|
                && var m := if off > old(inodes)[inum].size then 0 else Chunked(off, |src|);
                   && r.value == (if m == |src| then |src| else -1)
                   && off' == off + m
                   && (m > 0 ==> WriteSpec(old(File(inum)), off, src[..m]) == Some(File(inum)))
                   && (m == 0 ==> File(inum) == old(File(inum)))
      ensures r.Some? ==> forall j :: 0 <= j < |inodes| && j != inum ==> File(j) == old(File(j))
      ensures r.Some? ==> OthersSame(old(inodes), inodes, inum)
      ensures r.Some? && old(FreeEmpty(inodes)) && old(inodes)[inum].kind != 0 ==> FreeEmpty(inodes)
      ensures r.None? <==>
                && off <= old(inodes)[inum].size
                && FreeCount(old(View())) < ChunkedNeed(old(View()), inum, off, |src|)
      ensures Since(old(Disk()), old(logged))
    {
      hide *;
      SinceNow();
      ghost var v := View();
      FilesAre();
      ChunkStarts(v, inum, off, src);
      var i := 0;
      off' := off;
      while i < |src|
        invariant 0 <= i <= |src| && off' == off + i && Valid() && |inodes| == |old(inodes)|
        invariant ChunkInv(v, View(), inum, off, src, i)
        invariant Since(old(Disk()), old(logged))
      {
        ghost var d1, l1 := Disk(), logged;
        SinceIs(old(Disk()), old(logged));
        FilesAre();
        MinIs(|src| - i, CHUNK);
        var n1 := Min(|src| - i, CHUNK);
        ghost var w0 := View();
        var w := Writei(inum, off', src[i..i + n1]);
        SinceThen(old(Disk()), old(logged), d1, l1);
        if w.Refused? {
          break;
        }
        if w.OutOfBlocks? {
          ChunkShort(v, w0, inum, off, src, i, n1);
          return None, off';
        }
        ChunkNext(v, w0, View(), owner, inum, off, src, i, n1);
        i := i + n1;
        off' := off' + n1;
      }
      FilesAre();
      ChunkEnd(v, View(), inum, off, src, i);
      ChunkFiles(v, View(), inum, off, src, i);
      r := Some(if i == |src| then |src| else -1);
    }

    lemma FilesAre()
      requires Valid()
      ensures View().inodes == inodes && Shape(View())
      ensures forall j :: 0 <= j < |inodes| ==> Filled(View(), j) && File(j) == Content(View(), j)
    {
      hide Owned, Filled, Content;
      OwnedShape(View(), owner);
    }
  }

  lemma OnlyAt(v: Volume, w: Volume, t: Slot, s: Slot)
    requires OnlyThis(v, w, t) && IsSlot(v, s) && s != t
    ensures IsSlot(w, s) && BlockOf(w, s) == BlockOf(v, s)
  {
  }

  lemma NothingPatched(v: Volume, inum: nat)
    requires Shape(v) && inum < |v.inodes|
    ensures Keeps(v, v, inum) && Patched(v, v, inum, 0, [])
  {
  }

  lemma EntryNeedsIndirect(v: Volume, inum: nat, j: nat)
    requires Shape(v) && inum < |v.inodes| && j < NINDIRECT
    ensures BlockOf(v, Slot(inum, NDIRECT + 1 + j)) != 0 ==> BlockOf(v, Slot(inum, NDIRECT)) != 0
  {
  }

  lemma IndirectBlock(v: Volume, owner: map<nat, Slot>, inum: nat)
    requires Owned(v, owner, {}) && inum < |v.inodes|
    ensures v.inodes[inum].addrs[NDIRECT] == BlockOf(v, Slot(inum, NDIRECT)) < v.size
  {
    assert IsSlot(v, Slot(inum, NDIRECT));
  }

  lemma OwnedShape(v: Volume, owner: map<nat, Slot>)
    requires Owned(v, owner, {})
    ensures Shape(v)
  {
  }

  // Bytes [a, b) of a file's blocks.
  ghost function Bytes(v: Volume, inum: nat, a: nat, b: nat): (s: seq<Byte>)
    requires Shape(v) && inum < |v.inodes| && a <= b <= MAXBYTES
    ensures |s| == b - a
  {
    seq<Byte>(b - a, p requires 0 <= p < b - a => ByteAt(v, inum, a + p))
  }

  lemma BytesJoin(v: Volume, inum: nat, a: nat, b: nat, c: nat)
    requires Shape(v) && inum < |v.inodes| && a <= b <= c <= MAXBYTES
    ensures Bytes(v, inum, a, b) + Bytes(v, inum, b, c) == Bytes(v, inum, a, c)
  {
  }

  lemma BytesOfContent(v: Volume, inum: nat, a: nat, b: nat)
    requires Shape(v) && inum < |v.inodes| && a <= b <= v.inodes[inum].size <= MAXBYTES
    ensures Content(v, inum)[a..b] == Bytes(v, inum, a, b)
  {
  }

  lemma FilledAt(v: Volume, inum: nat, at: nat)
    requires Shape(v) && inum < |v.inodes| && Filled(v, inum) && at < v.inodes[inum].size
    ensures at / BSIZE < MAXFILE && BlockOf(v, SlotFor(inum, at / BSIZE)) != 0
  {
    var bn := at / BSIZE;
    assert bn < MAXFILE && bn * BSIZE < v.inodes[inum].size;
  }

  // A run of bytes inside one block of a file.
  lemma BlockBytes(v: Volume, owner: map<nat, Slot>, inum: nat, at: nat, m: nat, addr: nat)
    requires Owned(v, owner, {}) && inum < |v.inodes| && at + m <= MAXBYTES && m > 0 && at % BSIZE + m <= BSIZE
    requires addr == BlockOf(v, SlotFor(inum, at / BSIZE)) && addr != 0
    ensures addr < v.size && |v.data[addr]| == BSIZE
    ensures v.data[addr][at % BSIZE..at % BSIZE + m] == Bytes(v, inum, at, at + m)
  {
    assert IsSlot(v, SlotFor(inum, at / BSIZE));
    var piece := v.data[addr][at % BSIZE..at % BSIZE + m];
    forall p | 0 <= p < m
      ensures piece[p] == Bytes(v, inum, at, at + m)[p]
    {
      SplitOffset(at, p);
    }
  }

  lemma BlockSize(at: nat)
    ensures BSIZE > 0 && BSIZE - at % BSIZE > 0
  {
  }

  lemma SplitOffset(at: nat, p: nat)
    requires at % BSIZE + p < BSIZE
    ensures (at + p) / BSIZE == at / BSIZE && (at + p) % BSIZE == at % BSIZE + p
  {
  }

  // The state between two rounds of writei's loop: `done` is written at off.
  ghost predicate WriteInv(v: Volume, w: Volume, owner: map<nat, Slot>, inum: nat, off: nat, done: seq<Byte>) {
    && Shape(v) && Shape(w) && inum < |v.inodes| == |w.inodes|
    && Owned(w, owner, {}) && Keeps(v, w, inum) && Patched(v, w, inum, off, done)
    && off + |done| <= MAXBYTES && Covered(w, inum, off / BSIZE, BlocksEnd(off, |done|))
  }

  // What mapping block bn may have logged.
  ghost predicate MapLogged(v: Volume, bmapstart: nat, logged0: set<nat>, logged: set<nat>, inum: nat, bn: nat) {
    && Shape(v) && inum < |v.inodes| && bn < MAXFILE
    && (v.size <= BPB ==> logged <= logged0 + {bmapstart} + InUse(v, Slot(inum, NDIRECT)) + InUse(v, SlotFor(inum, bn)))
  }

  // The blocks that writei's loop may have logged after tot bytes: the bitmap,
  // the indirect block and the file blocks it touched.
  ghost function TouchLog(v: Volume, bmapstart: nat, inum: nat, off: nat, tot: nat): set<nat>
    requires Shape(v) && inum < |v.inodes| && off + tot <= MAXBYTES
  {
    {bmapstart} + InUse(v, Slot(inum, NDIRECT)) + FileBlocks(v, inum, off / BSIZE, BlocksEnd(off, tot))
  }

  ghost predicate LoggedOk(v: Volume, logged0: set<nat>, logged: set<nat>, bmapstart: nat, inum: nat, off: nat,
                           tot: nat) {
    && Shape(v) && inum < |v.inodes| && off + tot <= MAXBYTES
    && (v.size <= BPB ==> logged <= logged0 + TouchLog(v, bmapstart, inum, off, tot))
  }

  lemma NothingLogged(v: Volume, logged: set<nat>, bmapstart: nat, inum: nat, off: nat)
    requires Shape(v) && inum < |v.inodes| && off <= MAXBYTES
    ensures LoggedOk(v, logged, logged, bmapstart, inum, off, 0)
  {
  }

  ghost function MayLog(v: Volume, inodestart: nat, bmapstart: nat, inum: nat, off: nat, n: nat): set<nat>
    requires Shape(v) && inum < |v.inodes| && off + n <= MAXBYTES
  {
    {inodestart + inum / IPB} + TouchLog(v, bmapstart, inum, off, n)
  }

  // One past the last block index that [off, off + n) touches.
  function BlocksEnd(off: nat, n: nat): nat {
    if n == 0 then off / BSIZE else (off + n - 1) / BSIZE + 1
  }

  ghost function FileBlocks(v: Volume, inum: nat, lo: nat, hi: nat): set<nat>
    requires Shape(v) && inum < |v.inodes| && hi <= MAXFILE
  {
    set bn | lo <= bn < hi :: BlockOf(v, SlotFor(inum, bn))
  }

  lemma WriteStart(v: Volume, owner: map<nat, Slot>, inum: nat, off: nat)
    requires Owned(v, owner, {}) && inum < |v.inodes| && off <= MAXBYTES
    ensures WriteInv(v, v, owner, inum, off, [])
  {
  }

  // Mapping a block and then splicing the next piece into it.
  lemma WriteStep(v: Volume, w0: Volume, w1: Volume, owner: map<nat, Slot>, inum: nat, off: nat, src: seq<Byte>,
                  tot: nat, m: nat, addr: nat)
    requires tot < |src| && off + |src| <= MAXBYTES
    requires Shape(v) && Shape(w0) && inum < |v.inodes| == |w0.inodes| == |w1.inodes| && Keeps(v, w0, inum)
    requires Patched(v, w0, inum, off, src[..tot]) && Covered(w0, inum, off / BSIZE, BlocksEnd(off, tot))
    requires Owned(w1, owner, {}) && Keeps(w0, w1, inum) && Patched(w0, w1, inum, 0, [])
    requires addr == BlockOf(w1, SlotFor(inum, (off + tot) / BSIZE)) && addr != 0
    requires m == Min(|src| - tot, BSIZE - (off + tot) % BSIZE)
    ensures m > 0 && addr < w1.size && |w1.data[addr]| == BSIZE
    ensures WriteInv(v, WithData(w1, addr, Spliced(w1.data[addr], (off + tot) % BSIZE, src[tot..tot + m])), owner, inum,
                     off, src[..tot + m])
    ensures var w2 := WithData(w1, addr, Spliced(w1.data[addr], (off + tot) % BSIZE, src[tot..tot + m]));
            Shape(w2) && forall s :: IsSlot(w1, s) ==> BlockOf(w2, s) == BlockOf(w1, s)
  {
    hide Keeps, Patched;
    var at, piece := off + tot, src[tot..tot + m];
    WriteBytes(w1, owner, inum, at, piece, addr);
    var w2 := WithData(w1, addr, Spliced(w1.data[addr], at % BSIZE, piece));
    WriteKeepsOwned(w1, owner, addr, w2.data[addr]);
    KeepsTransitive(v, w0, w1, inum);
    KeepsTransitive(v, w1, w2, inum);
    PatchedNothing(v, w0, w1, inum, off, src[..tot]);
    PatchedThen(v, w1, w2, inum, off, src[..tot], piece);
    assert src[..tot] + piece == src[..tot + m];
    KeepsTransitive(w0, w1, w2, inum);
    CoverStep(w0, w1, w2, inum, off, tot, m);
  }

  // Before a round of writei's loop.
  lemma RoundBegins(v: Volume, w0: Volume, owner: map<nat, Slot>, inum: nat, off: nat, done: seq<Byte>)
    requires WriteInv(v, w0, owner, inum, off, done)
    ensures Owned(w0, owner, {}) && Shape(w0) && inum < |w0.inodes| == |v.inodes|
  {
  }

  // The volume after a round of writei's loop that mapped its block at addr in w1.
  ghost function Written(w1: Volume, addr: nat, at: nat, piece: seq<Byte>): Volume {
    if addr < |w1.data| && at % BSIZE + |piece| <= |w1.data[addr]| == BSIZE
    then WithData(w1, addr, Spliced(w1.data[addr], at % BSIZE, piece)) else w1
  }

  // What Bmap has done for block bn.
  ghost predicate MappedAt(w0: Volume, w1: Volume, owner: map<nat, Slot>, inum: nat, bn: nat, addr: nat) {
    && Owned(w1, owner, {}) && Keeps(w0, w1, inum) && Patched(w0, w1, inum, 0, [])
    && Mapped(w0, w1, inum, bn, addr) && addr != 0
  }

  lemma IsMappedAt(w0: Volume, w1: Volume, owner: map<nat, Slot>, inum: nat, bn: nat, addr: nat)
    requires Owned(w1, owner, {}) && Keeps(w0, w1, inum) && Patched(w0, w1, inum, 0, [])
    requires Mapped(w0, w1, inum, bn, addr) && addr != 0
    ensures MappedAt(w0, w1, owner, inum, bn, addr)
  {
  }

  lemma MappedAtBlock(w0: Volume, w1: Volume, owner: map<nat, Slot>, inum: nat, bn: nat, addr: nat)
    requires MappedAt(w0, w1, owner, inum, bn, addr)
    ensures OnlySlot(w0, w1, inum, bn) && Shape(w0) && Shape(w1) && inum < |w0.inodes| == |w1.inodes| && bn < MAXFILE
    ensures addr == BlockOf(w1, SlotFor(inum, bn)) != 0 && (!Lacks(w0, inum, bn) ==> w1 == w0)
  {
  }

  // One round: the piece is written and paid for, and the inodes are as before if the
  // write stays inside the file.
  lemma WriteRound(v: Volume, w0: Volume, w1: Volume, owner0: map<nat, Slot>, owner: map<nat, Slot>, inum: nat,
                   off: nat,
                   src: seq<Byte>, tot: nat, m: nat, addr: nat)
    requires tot < |src| && off + |src| <= MAXBYTES && m == Min(|src| - tot, BSIZE - (off + tot) % BSIZE)
    requires WriteInv(v, w0, owner0, inum, off, src[..tot]) && Spent(v, w0, inum, off / BSIZE, BlocksEnd(off, tot))
    requires Filled(v, inum) && (off + tot <= v.inodes[inum].size ==> w0.inodes == v.inodes)
    requires MappedAt(w0, w1, owner, inum, (off + tot) / BSIZE, addr)
    ensures 0 < m <= |src| - tot && (off + tot) % BSIZE + m <= BSIZE
    ensures addr < w1.size == |w1.data| && |w1.data[addr]| == BSIZE
    ensures var w2 := Written(w1, addr, off + tot, src[tot..tot + m]);
            && WriteInv(v, w2, owner, inum, off, src[..tot + m])
            && Spent(v, w2, inum, off / BSIZE, BlocksEnd(off, tot + m))
            && (off + tot + m <= v.inodes[inum].size ==> w2.inodes == v.inodes)
  {
    hide Owned, Keeps, Patched, Spent, Mapped, OnlySlot, FreeCount, Need, Filled;
    var at := off + tot;
    MappedAtBlock(w0, w1, owner, inum, at / BSIZE, addr);
    OwnedShape(w1, owner);
    SizesKept(w0, w1, inum);
    BlocksEndAt(off, tot, |src|);
    WriteStep(v, w0, w1, owner, inum, off, src, tot, m, addr);
    SpentStep(v, w0, w1, inum, off / BSIZE, BlocksEnd(off, tot), at / BSIZE, addr);
    BlocksEndStep(off, tot, m);
    SpentSame(v, w1, Written(w1, addr, at, src[tot..tot + m]), inum, off / BSIZE, BlocksEnd(off, tot + m));
    InsideFile(v, w0, w1, owner, inum, at, addr);
  }

  // A block that the file has already is mapped without a change.
  lemma InsideFile(v: Volume, w0: Volume, w1: Volume, owner: map<nat, Slot>, inum: nat, at: nat, addr: nat)
    requires Shape(v) && Shape(w0) && inum < |v.inodes| == |w0.inodes| && Keeps(v, w0, inum) && Filled(v, inum)
    requires MappedAt(w0, w1, owner, inum, at / BSIZE, addr)
    ensures at < v.inodes[inum].size ==> w1 == w0
  {
    hide Owned, Keeps, Patched, OnlySlot, Mapped, Filled;
    MappedAtBlock(w0, w1, owner, inum, at / BSIZE, addr);
    if at < v.inodes[inum].size {
      FilledAt(v, inum, at);
      KeepsNonzero(v, w0, inum, SlotFor(inum, at / BSIZE));
    }
  }

  // And what it has logged.
  lemma LogRound(v: Volume, w0: Volume, w1: Volume, owner0: map<nat, Slot>, owner: map<nat, Slot>, inum: nat, off: nat,
                 src: seq<Byte>, tot: nat, m: nat, addr: nat, bmapstart: nat, logged0: set<nat>, logged: set<nat>,
                   logged1: set<nat>)
    requires tot < |src| && off + |src| <= MAXBYTES && m == Min(|src| - tot, BSIZE - (off + tot) % BSIZE)
    requires WriteInv(v, w0, owner0, inum, off, src[..tot]) && MappedAt(w0, w1, owner, inum, (off + tot) / BSIZE, addr)
    requires LoggedOk(w0, logged0, logged, bmapstart, inum, off, tot)
    requires MapLogged(w1, bmapstart, logged, logged1, inum, (off + tot) / BSIZE)
    ensures addr < |w1.data| && |w1.data[addr]| == BSIZE
    ensures var w2 := Written(w1, addr, off + tot, src[tot..tot + m]);
            LoggedOk(w2, logged0, logged1 + {addr}, bmapstart, inum, off, tot + m)
  {
    hide Owned, Keeps, Patched, OnlySlot, Mapped, Filled;
    MappedAtBlock(w0, w1, owner, inum, (off + tot) / BSIZE, addr);
    OwnedShape(w1, owner);
    SizesKept(w0, w1, inum);
    WriteStep(v, w0, w1, owner, inum, off, src, tot, m, addr);
    var w2 := Written(w1, addr, off + tot, src[tot..tot + m]);
    SizesKept(w0, w1, inum);
    TouchStep(w0, w1, w2, bmapstart, inum, off, tot, m);
  }

  lemma SizesKept(v: Volume, w: Volume, inum: nat)
    requires Keeps(v, w, inum)
    ensures w.size == v.size && |w.inodes| == |v.inodes|
  {
  }

  lemma PatchedNothing(u: Volume, v: Volume, w: Volume, inum: nat, off: nat, a: seq<Byte>)
    requires Patched(u, v, inum, off, a) && Patched(v, w, inum, 0, [])
    ensures Patched(u, w, inum, off, a)
  {
    forall j, p | 0 <= j < |u.inodes| && 0 <= p < MAXBYTES
      ensures ByteAt(w, j, p) == PatchedByte(u, inum, off, a, j, p)
    {
      assert ByteAt(w, j, p) == PatchedByte(v, inum, 0, [], j, p);
      assert ByteAt(v, j, p) == PatchedByte(u, inum, off, a, j, p);
    }
  }

  lemma BlocksEndStep(off: nat, tot: nat, m: nat)
    requires 0 < m <= BSIZE - (off + tot) % BSIZE
    ensures BlocksEnd(off, tot + m) == (off + tot) / BSIZE + 1
    ensures (off + tot) / BSIZE <= BlocksEnd(off, tot) <= BlocksEnd(off, tot + m)
  {
    var a := off + tot;
    SplitOffset(a, m - 1);
  }

  // The next byte lies in the next block, or in the last one.
  lemma BlocksEndAt(off: nat, tot: nat, n: nat)
    requires tot < n && off + n <= MAXBYTES
    ensures var bn, hi := (off + tot) / BSIZE, BlocksEnd(off, tot);
            (bn == hi || off / BSIZE <= bn == hi - 1) && bn < BlocksEnd(off, n) <= MAXFILE
  {
  }

  lemma BlocksEndFits(off: nat, n: nat)
    requires off + n <= MAXBYTES
    ensures off / BSIZE <= BlocksEnd(off, n) <= MAXFILE
  {
  }

  lemma SpentPrice(v: Volume, w: Volume, inum: nat, lo: nat, hi: nat)
    requires Spent(v, w, inum, lo, hi)
    ensures Need(v, inum, lo, hi) <= FreeCount(v)
  {
  }

  lemma SpentResized(v: Volume, w: Volume, owner: map<nat, Slot>, inum: nat, off: nat, n: nat)
    requires Spent(v, w, inum, off / BSIZE, BlocksEnd(off, n)) && Owned(w, owner, {}) && inum < |w.inodes|
    ensures Spent(v, Resized(w, inum, off + n), inum, off / BSIZE, BlocksEnd(off, n))
  {
    hide Spent, Owned, BlockOf, Need;
    OwnedShape(w, owner);
    ResizeKeeps(w, owner, inum, off + n);
    OwnedShape(Resized(w, inum, off + n), owner);
    SpentSame(v, w, Resized(w, inum, off + n), inum, off / BSIZE, BlocksEnd(off, n));
  }

  lemma CoverStep(w0: Volume, w1: Volume, w2: Volume, inum: nat, off: nat, tot: nat, m: nat)
    requires Keeps(w0, w1, inum) && Keeps(w1, w2, inum) && off + tot + m <= MAXBYTES
    requires 0 < m <= BSIZE - (off + tot) % BSIZE
    requires Covered(w0, inum, off / BSIZE, BlocksEnd(off, tot))
    requires BlockOf(w1, SlotFor(inum, (off + tot) / BSIZE)) != 0
    ensures Covered(w2, inum, off / BSIZE, BlocksEnd(off, tot + m))
  {
    BlocksEndStep(off, tot, m);
    forall bn | off / BSIZE <= bn < BlocksEnd(off, tot + m)
      ensures BlockOf(w2, SlotFor(inum, bn)) != 0
    {
      assert IsSlot(w0, SlotFor(inum, bn));
      if bn < BlocksEnd(off, tot) {
        assert BlockOf(w0, SlotFor(inum, bn)) != 0;
      } else {
        assert bn == (off + tot) / BSIZE;
      }
    }
  }

  lemma KeepsNonzero(v: Volume, w: Volume, inum: nat, s: Slot)
    requires Keeps(v, w, inum) && IsSlot(v, s)
    ensures BlockOf(v, s) != 0 ==> BlockOf(w, s) == BlockOf(v, s)
  {
  }

  // The set of loggable blocks only grows while the loop runs.
  lemma TouchStep(w0: Volume, w1: Volume, w2: Volume, bmapstart: nat, inum: nat, off: nat, tot: nat, m: nat)
    requires Keeps(w0, w1, inum) && off + tot + m <= MAXBYTES && 0 < m <= BSIZE - (off + tot) % BSIZE
    requires Covered(w0, inum, off / BSIZE, BlocksEnd(off, tot))
    requires Shape(w2) && |w2.inodes| == |w1.inodes| && forall s :: IsSlot(w1, s) ==> BlockOf(w2, s) == BlockOf(w1, s)
    requires BlockOf(w1, SlotFor(inum, (off + tot) / BSIZE)) != 0
    ensures TouchLog(w0, bmapstart, inum, off, tot) <= TouchLog(w2, bmapstart, inum, off, tot + m)
    ensures InUse(w1, Slot(inum, NDIRECT)) + InUse(w1, SlotFor(inum, (off + tot) / BSIZE))
            <= TouchLog(w2, bmapstart, inum, off, tot + m)
  {
    BlocksEndStep(off, tot, m);
    var lo, mid, hi := off / BSIZE, BlocksEnd(off, tot), BlocksEnd(off, tot + m);
    assert IsSlot(w0, Slot(inum, NDIRECT));
    forall b | b in FileBlocks(w0, inum, lo, mid)
      ensures b in FileBlocks(w2, inum, lo, hi)
    {
      var bn :| lo <= bn < mid && b == BlockOf(w0, SlotFor(inum, bn));
      assert IsSlot(w0, SlotFor(inum, bn)) && BlockOf(w2, SlotFor(inum, bn)) == b;
    }
    var last := (off + tot) / BSIZE;
    assert IsSlot(w1, SlotFor(inum, last));
    assert lo <= last < hi && BlockOf(w2, SlotFor(inum, last)) in FileBlocks(w2, inum, lo, hi);
  }

  // ----- the end of a write

  ghost function Resized(w: Volume, inum: nat, end: nat): Volume
    requires inum < |w.inodes|
  {
    if end > w.inodes[inum].size then w.(inodes := w.inodes[inum := w.inodes[inum].(size := end)]) else w
  }

  lemma SizeKept(v: Volume, w: Volume, inum: nat)
    requires Keeps(v, w, inum)
    ensures |w.inodes| == |v.inodes| && w.inodes[inum].size == v.inodes[inum].size
    ensures w.inodes[inum].kind == v.inodes[inum].kind && w.inodes[inum].nlink == v.inodes[inum].nlink
    ensures forall j :: 0 <= j < |v.inodes| && j != inum ==> w.inodes[j] == v.inodes[j]
  {
  }

  // What writei leaves behind.
  ghost predicate Finished(v: Volume, u: Volume, owner: map<nat, Slot>, inum: nat, off: nat, src: seq<Byte>) {
    && Shape(v) && Shape(u) && Owned(u, owner, {}) && inum < |u.inodes| == |v.inodes|
    && (forall i :: 0 <= i < |u.inodes| ==> Filled(u, i))
    && Filled(v, inum) && WriteSpec(Content(v, inum), off, src) == Some(Content(u, inum))
    && u.inodes[inum].kind == v.inodes[inum].kind && u.inodes[inum].nlink == v.inodes[inum].nlink
    && (forall j :: 0 <= j < |u.inodes| && j != inum ==> FileKept(v, u, j))
  }

  ghost predicate FileKept(v: Volume, u: Volume, j: nat)
    requires Shape(v) && Shape(u) && j < |u.inodes| == |v.inodes|
  {
    u.inodes[j] == v.inodes[j] && Filled(v, j) && Filled(u, j) && Content(u, j) == Content(v, j)
  }

  lemma FinishOk(v: Volume, w: Volume, owner: map<nat, Slot>, inum: nat, off: nat, src: seq<Byte>)
    requires WriteInv(v, w, owner, inum, off, src) && off <= v.inodes[inum].size <= MAXBYTES
    requires forall i :: 0 <= i < |v.inodes| ==> Filled(v, i)
    ensures inum < |w.inodes| && Finished(v, Resized(w, inum, off + |src|), owner, inum, off, src)
  {
    hide Keeps, Patched, Owned, Covered, BlockOf, ByteAt, Filled, Content;
    var u := Resized(w, inum, off + |src|);
    SizeKept(v, w, inum);
    ResizeKeeps(w, owner, inum, off + |src|);
    OwnedShape(u, owner);
    ResizePatched(v, w, inum, off, src);
    forall i | 0 <= i < |u.inodes|
      ensures Filled(u, i)
      ensures i == inum ==> WriteSpec(Content(v, i), off, src) == Some(Content(u, i))
      ensures i != inum ==> Content(u, i) == Content(v, i)
    {
      FinishOne(v, w, inum, off, src, i);
    }
  }

  lemma FinishSpent(v: Volume, w: Volume, owner: map<nat, Slot>, inum: nat, off: nat, src: seq<Byte>)
    requires WriteInv(v, w, owner, inum, off, src) && Spent(v, w, inum, off / BSIZE, BlocksEnd(off, |src|))
    ensures inum < |w.inodes| && Spent(v, Resized(w, inum, off + |src|), inum, off / BSIZE, BlocksEnd(off, |src|))
  {
    hide Spent, Keeps, Patched, Owned, Covered;
    SpentResized(v, w, owner, inum, off, |src|);
  }

  lemma FinishOne(v: Volume, w: Volume, inum: nat, off: nat, src: seq<Byte>, i: nat)
    requires Shape(v) && i < |v.inodes| && inum < |v.inodes| == |w.inodes| && Filled(v, i) && Keeps(v, w, inum)
    requires off + |src| <= MAXBYTES && Covered(w, inum, off / BSIZE, BlocksEnd(off, |src|))
             && off <= v.inodes[inum].size
    requires Shape(Resized(w, inum, off + |src|)) && Patched(v, Resized(w, inum, off + |src|), inum, off, src)
    requires forall s :: IsSlot(w, s) ==> BlockOf(Resized(w, inum, off + |src|), s) == BlockOf(w, s)
    ensures var u := Resized(w, inum, off + |src|);
            && Filled(u, i)
            && (i == inum ==> WriteSpec(Content(v, i), off, src) == Some(Content(u, i)))
            && (i != inum ==> Content(u, i) == Content(v, i))
  {
    SizeKept(v, w, inum);
    hide Patched, Keeps, BlockOf, ByteAt, Covered;
    PatchedContent(v, Resized(w, inum, off + |src|), inum, off, src, i);
    FinishFilled(v, w, inum, off, |src|, i);
  }

  lemma ResizeKeeps(w: Volume, owner: map<nat, Slot>, inum: nat, end: nat)
    requires Owned(w, owner, {}) && inum < |w.inodes|
    ensures Owned(Resized(w, inum, end), owner, {})
    ensures forall s :: IsSlot(w, s) ==> BlockOf(Resized(w, inum, end), s) == BlockOf(w, s)
  {
    var u := Resized(w, inum, end);
    assert Shape(u);
    assert forall s :: IsSlot(w, s) ==> BlockOf(u, s) == BlockOf(w, s);
  }

  lemma ResizePatched(v: Volume, w: Volume, inum: nat, off: nat, src: seq<Byte>)
    requires Patched(v, w, inum, off, src) && inum < |w.inodes| && Shape(Resized(w, inum, off + |src|))
    ensures Patched(v, Resized(w, inum, off + |src|), inum, off, src)
  {
    var u := Resized(w, inum, off + |src|);
    assert forall j, p :: 0 <= j < |w.inodes| && 0 <= p < MAXBYTES ==> ByteAt(u, j, p) == ByteAt(w, j, p);
  }

  lemma FinishFilled(v: Volume, w: Volume, inum: nat, off: nat, n: nat, i: nat)
    requires Keeps(v, w, inum) && i < |v.inodes| && Filled(v, i) && off + n <= MAXBYTES
    requires i == inum ==> off <= v.inodes[inum].size && Covered(w, inum, off / BSIZE, BlocksEnd(off, n))
    requires Shape(Resized(w, inum, off + n))
    requires forall s :: IsSlot(w, s) ==> BlockOf(Resized(w, inum, off + n), s) == BlockOf(w, s)
    ensures Filled(Resized(w, inum, off + n), i)
  {
    var u := Resized(w, inum, off + n);
    forall bn | 0 <= bn < MAXFILE && bn * BSIZE < u.inodes[i].size
      ensures BlockOf(u, SlotFor(i, bn)) != 0
    {
      assert IsSlot(v, SlotFor(i, bn));
      if bn * BSIZE >= v.inodes[i].size {
        assert off / BSIZE <= bn < BlocksEnd(off, n);
      }
    }
  }

  // ----- truncation

  // The first n address slots of inum are empty; its other slots still count
  // unless they are in skip; nobody else noticed anything.
  ghost predicate TrimInv(v: Volume, w: Volume, owner: map<nat, Slot>, inum: nat, n: nat, skip: set<Slot>) {
    && Owned(w, owner, skip) && inum < |v.inodes| == |w.inodes| && n <= NDIRECT + 1
    && w.size == v.size && w.nmeta == v.nmeta && w.data == v.data
    && (forall j :: 0 <= j < |v.inodes| && j != inum ==> w.inodes[j] == v.inodes[j])
    && w.inodes[inum] == v.inodes[inum].(addrs := w.inodes[inum].addrs)
    && (forall k :: 0 <= k < n ==> w.inodes[inum].addrs[k] == 0)
  }

  ghost predicate HasIndirect(v: Volume, inum: nat, ind: nat) {
    inum < |v.inodes| && |v.inodes[inum].addrs| == NDIRECT + 1 && 0 < ind == v.inodes[inum].addrs[NDIRECT] < v.size
  }

  lemma TrimEnd(v: Volume, w: Volume, owner: map<nat, Slot>, inum: nat)
    requires Shape(v) && TrimInv(v, w, owner, inum, NDIRECT, {}) && w.inodes[inum].addrs[NDIRECT] == 0
    requires forall i :: 0 <= i < |v.inodes| ==> Filled(v, i)
    ensures var u := w.(inodes := w.inodes[inum := w.inodes[inum].(size := 0)]);
            && Owned(u, owner, {})
            && (forall k :: 0 <= k < NSLOTS ==> BlockOf(u, Slot(inum, k)) == 0)
            && (forall i :: 0 <= i < |u.inodes| ==> Filled(u, i))
            && (forall j :: 0 <= j < |u.inodes| && j != inum ==> Content(u, j) == Content(v, j))
  {
    var u := w.(inodes := w.inodes[inum := w.inodes[inum].(size := 0)]);
    assert Shape(u);
    assert forall s :: IsSlot(w, s) ==> BlockOf(u, s) == BlockOf(w, s);
    forall i | 0 <= i < |u.inodes|
      ensures Filled(u, i)
      ensures i != inum ==> Content(u, i) == Content(v, i)
    {
      assert Filled(v, i);
      if i != inum {
        SameInodeSameFile(v, u, i);
      }
    }
  }

  lemma SameInodeSameFile(v: Volume, u: Volume, i: nat)
    requires Shape(v) && Shape(u) && u.size == v.size && u.data == v.data && i < |v.inodes| == |u.inodes|
             && u.inodes[i] == v.inodes[i]
    ensures Content(u, i) == Content(v, i) && (Filled(v, i) ==> Filled(u, i))
  {
    assert forall k :: 0 <= k < NSLOTS ==> BlockOf(u, Slot(i, k)) == BlockOf(v, Slot(i, k));
    assert forall p :: 0 <= p < MAXBYTES ==> ByteAt(u, i, p) == ByteAt(v, i, p);
  }

  lemma FreeEmptyKept(a: seq<Inode>, b: seq<Inode>, inum: nat)
    requires |a| == |b| && inum < |b| && forall j :: 0 <= j < |a| && j != inum ==> b[j] == a[j]
    ensures FreeEmpty(a) && (b[inum].kind != 0 || NoBlocks(b[inum])) ==> FreeEmpty(b)
  {
  }

  // Only inode inum may differ, and not in its type and links.
  ghost predicate OthersSame(a: seq<Inode>, b: seq<Inode>, inum: nat) {
    && |a| == |b| && inum < |a| && a[inum].kind == b[inum].kind && a[inum].nlink == b[inum].nlink
    && forall j :: 0 <= j < |a| && j != inum ==> b[j] == a[j]
  }

  lemma OthersStart(a: seq<Inode>, inum: nat)
    requires inum < |a|
    ensures OthersSame(a, a, inum)
  {
  }

  lemma OthersThen(a: seq<Inode>, b: seq<Inode>, c: seq<Inode>, inum: nat)
    requires OthersSame(a, b, inum) && |b| == |c| && b[inum].kind == c[inum].kind && b[inum].nlink == c[inum].nlink
    requires forall j :: 0 <= j < |b| && j != inum ==> c[j] == b[j]
    ensures OthersSame(a, c, inum)
  {
  }

  lemma OthersFree(a: seq<Inode>, b: seq<Inode>, inum: nat)
    requires OthersSame(a, b, inum)
    ensures FreeEmpty(a) && a[inum].kind != 0 ==> FreeEmpty(b)
  {
  }

  lemma AllZero(w: Volume, owner: map<nat, Slot>, inum: nat)
    requires Owned(w, owner, {}) && inum < |w.inodes|
    requires forall k :: 0 <= k < NSLOTS ==> BlockOf(w, Slot(inum, k)) == 0
    ensures NoBlocks(w.inodes[inum])
  {
    forall k | 0 <= k <= NDIRECT
      ensures w.inodes[inum].addrs[k] == 0
    {
      assert BlockOf(w, Slot(inum, k)) == 0;
    }
  }

  // Clearing an inode without blocks.
  lemma ClearOk(w: Volume, owner: map<nat, Slot>, inum: nat, kind: nat)
    requires Owned(w, owner, {}) && inum < |w.inodes| && NoBlocks(w.inodes[inum])
    requires forall i :: 0 <= i < |w.inodes| ==> Filled(w, i)
    ensures var u := w.(inodes := w.inodes[inum := NewInode(kind)]);
            && Owned(u, owner, {}) && Content(u, inum) == [] && NoBlocks(NewInode(kind))
            && (forall i :: 0 <= i < |u.inodes| ==> Filled(u, i))
            && (forall j :: 0 <= j < |u.inodes| && j != inum ==> Content(u, j) == Content(w, j))
  {
    var u := w.(inodes := w.inodes[inum := NewInode(kind)]);
    assert Shape(u);
    assert forall s :: IsSlot(w, s) ==> BlockOf(u, s) == BlockOf(w, s);
    forall j | 0 <= j < |u.inodes| && j != inum
      ensures Filled(u, j) && Content(u, j) == Content(w, j)
    {
      SameInodeSameFile(w, u, j);
    }
  }

  lemma KindIrrelevant(w: Volume, owner: map<nat, Slot>, inum: nat)
    requires Owned(w, owner, {}) && inum < |w.inodes|
    ensures var u := w.(inodes := w.inodes[inum := w.inodes[inum].(kind := 0)]);
            && Owned(u, owner, {})
            && (forall s :: IsSlot(w, s) ==> BlockOf(u, s) == BlockOf(w, s))
            && (forall i :: 0 <= i < |w.inodes| ==> Content(u, i) == Content(w, i) && (Filled(w, i) ==> Filled(u, i)))
  {
    var u := w.(inodes := w.inodes[inum := w.inodes[inum].(kind := 0)]);
    assert Shape(u);
    assert forall s :: IsSlot(w, s) ==> BlockOf(u, s) == BlockOf(w, s);
    forall i | 0 <= i < |w.inodes|
      ensures Content(u, i) == Content(w, i)
    {
      assert forall p :: 0 <= p < MAXBYTES ==> ByteAt(u, i, p) == ByteAt(w, i, p);
    }
  }

  // ----- chunks

  // How many bytes filewrite's loop writes of n, starting at off within the file.
  function Chunked(off: nat, n: nat): (m: nat)
    ensures m <= n
  {
    if off + n <= MAXBYTES then n
    else if off > MAXBYTES then 0
    else (MAXBYTES - off) / CHUNK * CHUNK
  }

  // The blocks that filewrite's loop takes.
  ghost function ChunkedNeed(v: Volume, inum: nat, off: nat, n: nat): nat
    requires Shape(v) && inum < |v.inodes|
  {
    if off > MAXBYTES then 0
    else
      BlocksEndFits(off, Chunked(off, n));
      Need(v, inum, off / BSIZE, BlocksEnd(off, Chunked(off, n)))
  }

  lemma SpentStarts(v: Volume, inum: nat, off: nat)
    requires Shape(v) && inum < |v.inodes|
    ensures off <= MAXBYTES ==> Spent(v, v, inum, off / BSIZE, BlocksEnd(off, 0))
  {
    if off <= MAXBYTES {
      SpentNone(v, inum, off / BSIZE);
    }
  }

  lemma BlocksEndThen(off: nat, i: nat, n: nat)
    requires n > 0
    ensures BlocksEnd(off + i, n) == BlocksEnd(off, i + n)
    ensures var lo, mid, lo' := off / BSIZE, BlocksEnd(off, i), (off + i) / BSIZE;
            lo <= lo' <= mid <= BlocksEnd(off, i + n) && (lo < mid || lo' == lo) && (lo' == mid || lo' + 1 == mid)
  {
  }

  // The state between two rounds of filewrite's loop: i bytes are written and paid for.
  ghost predicate ChunkInv(v: Volume, w: Volume, inum: nat, off: nat, src: seq<Byte>, i: nat) {
    && Shape(v) && Shape(w) && inum < |v.inodes| == |w.inodes| && Filled(v, inum) && Filled(w, inum)
    && i <= |src| && (i % CHUNK == 0 || i == |src|) && OthersSame(v.inodes, w.inodes, inum)
    && (forall j :: 0 <= j < |w.inodes| && j != inum ==> FileKept(v, w, j))
    && (off <= v.inodes[inum].size ==> Spent(v, w, inum, off / BSIZE, BlocksEnd(off, i)))
    && var c := Content(v, inum);
       && (i == 0 ==> Content(w, inum) == c)
       && (i > 0 ==> off <= |c| && i <= Chunked(off, |src|) && WriteSpec(c, off, src[..i]) == Some(Content(w, inum)))
  }

  lemma MinIs(a: nat, b: nat)
    ensures Min(a, b) <= a && Min(a, b) <= b && (a > 0 && b == CHUNK ==> Min(a, b) > 0)
  {
  }

  lemma ChunkStarts(v: Volume, inum: nat, off: nat, src: seq<Byte>)
    requires Shape(v) && inum < |v.inodes| && forall j :: 0 <= j < |v.inodes| ==> Filled(v, j)
    ensures ChunkInv(v, v, inum, off, src, 0)
  {
    hide Filled, Content, Spent;
    FilledSize(v, inum);
    SpentStarts(v, inum, off);
    OthersStart(v.inodes, inum);
  }

  lemma FilledSize(v: Volume, inum: nat)
    requires Shape(v) && inum < |v.inodes| && Filled(v, inum)
    ensures |Content(v, inum)| == v.inodes[inum].size <= MAXBYTES
  {
  }

  lemma ChunkNext(v: Volume, w: Volume, u: Volume, owner: map<nat, Slot>, inum: nat, off: nat, src: seq<Byte>, i: nat,
                  n1: nat)
    requires ChunkInv(v, w, inum, off, src, i) && i < |src| && n1 == Min(|src| - i, CHUNK)
    requires off + i <= w.inodes[inum].size && off + i + n1 <= MAXBYTES
    requires Finished(w, u, owner, inum, off + i, src[i..i + n1])
    requires Spent(w, u, inum, (off + i) / BSIZE, BlocksEnd(off + i, n1))
    ensures ChunkInv(v, u, inum, off, src, i + n1)
  {
    hide Owned, Filled, Content, Spent, WriteSpec, Chunked, OthersSame, FileKept;
    FilledSize(v, inum);
    FilledSize(w, inum);
    ChunkStep(Content(v, inum), off, src, i, n1);
    SpecOfNothing(Content(v, inum), off, src);
    ChunkSpent(v, w, u, inum, off, i, n1);
    forall j | 0 <= j < |u.inodes| && j != inum
      ensures FileKept(v, u, j) && u.inodes[j] == w.inodes[j]
    {
      FileKeptThen(v, w, u, j);
    }
    OthersThen(v.inodes, w.inodes, u.inodes, inum);
  }

  lemma SpecOfNothing(c: seq<Byte>, off: nat, src: seq<Byte>)
    requires off <= |c| <= MAXBYTES
    ensures WriteSpec(c, off, src[..0]) == Some(c)
  {
    assert c[..off] + src[..0] + c[off..] == c;
  }

  lemma FileKeptThen(v: Volume, w: Volume, u: Volume, j: nat)
    requires Shape(v) && Shape(w) && Shape(u) && j < |u.inodes| == |w.inodes| == |v.inodes|
    requires FileKept(v, w, j) && FileKept(w, u, j)
    ensures FileKept(v, u, j) && u.inodes[j] == w.inodes[j]
  {
    hide Filled, Content;
  }

  lemma ChunkShort(v: Volume, w: Volume, inum: nat, off: nat, src: seq<Byte>, i: nat, n1: nat)
    requires ChunkInv(v, w, inum, off, src, i) && i < |src| && n1 == Min(|src| - i, CHUNK)
    requires off + i <= w.inodes[inum].size && off + i + n1 <= MAXBYTES && BlocksEnd(off + i, n1) <= MAXFILE
    requires FreeCount(w) < Need(w, inum, (off + i) / BSIZE, BlocksEnd(off + i, n1))
    ensures off <= v.inodes[inum].size && FreeCount(v) < ChunkedNeed(v, inum, off, |src|)
  {
    hide Filled, Content, Spent, WriteSpec, Chunked, OthersSame, FileKept, FreeCount, Need, BlocksEnd, ChunkedNeed;
    FilledSize(v, inum);
    FilledSize(w, inum);
    ChunkStep(Content(v, inum), off, src, i, n1);
    ChunkFails(v, w, inum, off, i, n1, |src|);
  }

  lemma ChunkEnd(v: Volume, w: Volume, inum: nat, off: nat, src: seq<Byte>, i: nat)
    requires ChunkInv(v, w, inum, off, src, i)
    requires i < |src| ==> off + i > w.inodes[inum].size || off + i + Min(|src| - i, CHUNK) > MAXBYTES
    ensures i == if off > v.inodes[inum].size then 0 else Chunked(off, |src|)
    ensures off <= v.inodes[inum].size ==> ChunkedNeed(v, inum, off, |src|) <= FreeCount(v)
  {
    hide Filled, Content, Spent, OthersSame, FileKept, FreeCount, Need, BlocksEnd;
    FilledSize(v, inum);
    FilledSize(w, inum);
    if off <= v.inodes[inum].size {
      SpentPrice(v, w, inum, off / BSIZE, BlocksEnd(off, i));
    }
  }

  // What the loop has done to the files.
  lemma ChunkFiles(v: Volume, w: Volume, inum: nat, off: nat, src: seq<Byte>, i: nat)
    requires ChunkInv(v, w, inum, off, src, i)
    ensures Content(w, inum) == Content(v, inum) || i > 0
    ensures i > 0 ==> WriteSpec(Content(v, inum), off, src[..i]) == Some(Content(w, inum))
    ensures forall j :: 0 <= j < |w.inodes| && j != inum ==> Content(w, j) == Content(v, j)
    ensures OthersSame(v.inodes, w.inodes, inum)
    ensures FreeEmpty(v.inodes) && v.inodes[inum].kind != 0 ==> FreeEmpty(w.inodes)
  {
    hide Filled, Content, Spent, FreeEmpty, OthersSame, WriteSpec, Chunked;
    OthersFree(v.inodes, w.inodes, inum);
    forall j | 0 <= j < |w.inodes| && j != inum
      ensures Content(w, j) == Content(v, j)
    {
      assert FileKept(v, w, j);
    }
  }

  lemma ChunkSpent(v: Volume, w: Volume, u: Volume, inum: nat, off: nat, i: nat, n1: nat)
    requires n1 > 0 && Spent(v, w, inum, off / BSIZE, BlocksEnd(off, i))
    requires Spent(w, u, inum, (off + i) / BSIZE, BlocksEnd(off + i, n1))
    ensures Spent(v, u, inum, off / BSIZE, BlocksEnd(off, i + n1))
  {
    BlocksEndThen(off, i, n1);
    SpentThen(v, w, u, inum, off / BSIZE, BlocksEnd(off, i), (off + i) / BSIZE, BlocksEnd(off, i + n1));
  }

  lemma ChunkFails(v: Volume, w: Volume, inum: nat, off: nat, i: nat, n1: nat, n: nat)
    requires n1 > 0 && Spent(v, w, inum, off / BSIZE, BlocksEnd(off, i)) && off <= MAXBYTES
    requires BlocksEnd(off + i, n1) <= MAXFILE && i + n1 <= Chunked(off, n)
    requires FreeCount(w) < Need(w, inum, (off + i) / BSIZE, BlocksEnd(off + i, n1))
    ensures FreeCount(v) < ChunkedNeed(v, inum, off, n)
  {
    BlocksEndThen(off, i, n1);
    var lo, hi := off / BSIZE, BlocksEnd(off, i + n1);
    NeedThen(v, w, inum, lo, BlocksEnd(off, i), (off + i) / BSIZE, hi);
    BlocksEndFits(off, Chunked(off, n));
    BlocksEndGrows(off, i + n1, Chunked(off, n));
    NeedGrows(v, inum, lo, hi, BlocksEnd(off, Chunked(off, n)));
  }

  lemma BlocksEndGrows(off: nat, m: nat, n: nat)
    requires m <= n
    ensures BlocksEnd(off, m) <= BlocksEnd(off, n)
  {
  }

  // The loop does what one write would do exactly when all of it fits, or not even
  // the first chunk does; between those it leaves a partial write behind.
  lemma ChunkedVersusWhole(c: seq<Byte>, off: nat, src: seq<Byte>)
    requires off <= |c| <= MAXBYTES
    ensures Chunked(off, |src|) == |src| <==> WriteSpec(c, off, src).Some?
    ensures WriteSpec(c, off, src).None? ==> (Chunked(off, |src|) == 0 <==> off + Min(|src|, CHUNK) > MAXBYTES)
  {
  }

  lemma ChunkStep(c: seq<Byte>, off: nat, src: seq<Byte>, i: nat, n1: nat)
    requires i < |src| && n1 == Min(|src| - i, CHUNK) && i % CHUNK == 0 && off + i + n1 <= MAXBYTES
    requires off <= |c| <= MAXBYTES
    ensures i + n1 <= Chunked(off, |src|)
    ensures (i + n1) % CHUNK == 0 || i + n1 == |src|
    ensures WriteSpec(c, off, src[..i]).Some?
    ensures WriteSpec(WriteSpec(c, off, src[..i]).value, off + i, src[i..i + n1]) == WriteSpec(c, off, src[..i + n1])
  {
    WriteSpecSplit(c, off, src[..i], src[i..i + n1]);
    assert src[..i] + src[i..i + n1] == src[..i + n1];
    if off + |src| > MAXBYTES {
      assert (i + CHUNK) / CHUNK <= (MAXBYTES - off) / CHUNK;
    }
  }

  // A chunk logs at most 14 file blocks, the indirect block, the inode's block and
  // the one bitmap block: more than MAXOPBLOCKS, but within LOGSIZE.
  lemma ChunkLogsAtMost17(v: Volume, inodestart: nat, bmapstart: nat, inum: nat, off: nat, n: nat)
    requires Shape(v) && inum < |v.inodes| && off + n <= MAXBYTES && n <= CHUNK
    ensures |MayLog(v, inodestart, bmapstart, inum, off, n)| <= 17
  {
    var files := FileBlocks(v, inum, off / BSIZE, BlocksEnd(off, n));
    FileBlocksCount(v, inum, off / BSIZE, BlocksEnd(off, n));
    assert BlocksEnd(off, n) - off / BSIZE <= 14;
    var ind := InUse(v, Slot(inum, NDIRECT));
    assert |{bmapstart} + ind| <= 2;
    assert |{bmapstart} + ind + files| <= 16;
  }

  lemma {:induction false} FileBlocksCount(v: Volume, inum: nat, lo: nat, hi: nat)
    requires Shape(v) && inum < |v.inodes| && hi <= MAXFILE
    ensures lo <= hi ==> |FileBlocks(v, inum, lo, hi)| <= hi - lo
    ensures lo > hi ==> FileBlocks(v, inum, lo, hi) == {}
    decreases hi
  {
    hide Shape, BlockOf, Word;
    if lo < hi {
      FileBlocksCount(v, inum, lo, hi - 1);
      assert FileBlocks(v, inum, lo, hi) == FileBlocks(v, inum, lo, hi - 1) + {BlockOf(v, SlotFor(inum, hi - 1))};
    } else {
      assert FileBlocks(v, inum, lo, hi) == {};
    }
  }
}
