/** The code of fs.c that allocates, maps, reads, writes and frees file blocks. */
module FsCode {
  import opened FsTree
  import opened FsBitmap
  import opened FsGrow
  import opened FsWrite
  import opened FsBudget
  import opened FsTrunc

  /** Positions of inode i that had a block keep it. */
  ghost predicate StillMapped(f: Fs, i: nat, g: Fs)
    requires WfFs(f) && WfFs(g) && i < |f.inodes| && i < |g.inodes|
  {
    forall q :: ValidPos(q) && Addr(f, i, q) != 0 ==> Addr(g, i, q) == Addr(f, i, q)
  }

  lemma MappedMore(f: Fs, i: nat, g: Fs, off: nat, tot: nat, m: nat)
    requires WfFs(f) && WfFs(g) && i < |f.inodes| && i < |g.inodes| && StillMapped(f, i, g)
    requires tot > 0 ==> Mapped(f, i, off / BSIZE, BlocksFor(off + tot))
    requires 0 < m <= BSIZE - (off + tot) % BSIZE && (off + tot) / BSIZE < MAXFILE
    requires tot > 0 ==> (off + tot) % BSIZE == 0
    requires Addr(g, i, PosOf((off + tot) / BSIZE)) != 0
    ensures Mapped(g, i, off / BSIZE, BlocksFor(off + tot + m))
  {
    hide Addr, PosOf;
    forall bn: nat | off / BSIZE <= bn < BlocksFor(off + tot + m) && bn < MAXFILE
      ensures Addr(g, i, PosOf(bn)) != 0
    {
      if bn < (off + tot) / BSIZE {
        assert Addr(f, i, PosOf(bn)) != 0;
      }
    }
  }

  /** Every file longer than its direct and singly indirect blocks has something in its double-indirect tree. */
  lemma LongFileNotEmpty(f: Fs, i: nat)
    requires WfFs(f) && i < |f.inodes| && FileOk(f, i) && f.inodes[i].size > (NDIRECT + NINDIRECT) * BSIZE
    ensures !DoubleEmpty(f, i)
  {
    hide Addr, Path;
    assert Addr(f, i, PosOf(NDIRECT + NINDIRECT)) != 0;
    Paths(0, 0, 0);
    AncestorsThere(f, i, Leaf(0, 0), Middle(0));
  }

  lemma SingleWords(f: Fs, i: nat, m: nat)
    requires WfFs(f) && i < |f.inodes| && m < NINDIRECT && Addr(f, i, InSingle(m)) != 0
    ensures Names(f, i, 11 + m, Addr(f, i, InSingle(m)))
  {
    hide Addr, Names;
    AddrWords(f, i, 11 + m);
  }

  lemma DoubleWords(f: Fs, i: nat, m: nat)
    requires WfFs(f) && i < |f.inodes| && m < NINDIRECT * NINDIRECT && Addr(f, i, Leaf(m / NINDIRECT, m % NINDIRECT)) != 0
    ensures Names(f, i, 11 + 128 + m, Addr(f, i, Leaf(m / NINDIRECT, m % NINDIRECT)))
  {
    hide Addr, Names;
    AddrWords(f, i, 11 + 128 + m);
  }

  class FileSystem {
    const size: nat
    const datastart: nat
    var disk: seq<Block>
    var bits: seq<bv8>
    var inodes: seq<Inode>
    ghost var own: map<nat, Owner>
    /** the blocks that the operation in progress has passed to log_write */
    ghost var logged: set<Logged>
    /** the most of them that there were at the start of a log_write */
    ghost var peak: nat

    ghost function Snap(): (f: Fs)
      reads this`disk, this`inodes
    {
      Fs(disk, inodes)
    }

    /** Every allocated block belongs to exactly one position of one inode, and the free map agrees. */
    ghost predicate Valid()
      reads this`disk, this`inodes, this`bits, this`own
    {
      && WfFs(Snap()) && |disk| == size && OwnedBy(Snap(), own)
      && BitsOk(bits, datastart, size, own)
    }

    ghost predicate Unchanged(f: Fs, w: map<nat, Owner>, bs: seq<bv8>, logs: set<Logged>)
      reads this`disk, this`inodes, this`bits, this`own, this`logged
    {
      Snap() == f && own == w && bits == bs && logged == logs
    }

    ghost predicate Full()
      reads this`bits
    {
      size <= 8 * |bits| && forall b :: 0 <= b < size ==> TestBit(bits, b)
    }

    /** log_write of block b, as far as the log's space is concerned. */
    ghost method LogWrite(b: Logged)
      modifies this`logged, this`peak
      ensures logged == old(logged) + {b} && peak == Larger(old(peak), |old(logged)|)
      ensures Peaked(old(logged), old(peak), logged, peak)
    {
      PeakedOne(logged, peak, b);
      peak := Larger(peak, |logged|);
      logged := logged + {b};
    }

    /** balloc: the first free block, marked used and zeroed; fails exactly when there is none. */
    method Balloc() returns (ok: bool, a: nat)
      requires |disk| == size <= 8 * |bits|
      modifies this`disk, this`bits, this`logged, this`peak
      ensures ok ==> a < size && !TestBit(old(bits), a) && forall b :: 0 <= b < a ==> TestBit(old(bits), b)
      ensures ok ==> bits == SetBit(old(bits), a) && disk == old(disk)[a := ZeroBlock()]
      ensures ok ==> logged == old(logged) + {BitmapBlock(a / BPB), DataBlock(a)}
      ensures Peaked(old(logged), old(peak), logged, peak)
      ensures !ok ==> bits == old(bits) && disk == old(disk) && logged == old(logged) && Full()
    {
      hide TestBit, SetBit, Peaked;
      PeakedNone(logged, peak);
      var b := 0;
      while b < size
        invariant bits == old(bits) && disk == old(disk) && logged == old(logged) && peak == old(peak)
        invariant forall c :: 0 <= c < b && c < size ==> TestBit(bits, c)
      {
        var bi := 0;
        while bi < BPB && b + bi < size
          invariant bi <= BPB
          invariant bits == old(bits) && disk == old(disk) && logged == old(logged) && peak == old(peak)
          invariant forall c :: 0 <= c < b + bi && c < size ==> TestBit(bits, c)
        {
          if !TestBit(bits, b + bi) {
            bits := SetBit(bits, b + bi);
            disk := disk[b + bi := ZeroBlock()];
            LogWrite(BitmapBlock((b + bi) / BPB));
            ghost var logs, peak0 := logged, peak;
            LogWrite(DataBlock(b + bi));
            PeakedTrans(old(logged), old(peak), logs, peak0, logged, peak);
            return true, b + bi;
          }
          bi := bi + 1;
        }
        b := b + BPB;
      }
      return false, 0;
    }

    /** One of the inode's own addresses, allocated if it is missing. */
    method EnsureRoot(i: nat, p: Pos) returns (ok: bool, a: nat)
      requires Valid() && ValidRef(Snap(), i, p) && IsRoot(p)
      modifies this`disk, this`bits, this`inodes, this`own, this`logged, this`peak
      ensures ok ==> Valid() && Ensured(old(Snap()), old(own), i, p, Snap(), own, a)
      ensures ok ==> logged <= old(logged) + {BitmapBlock(a / BPB), DataBlock(a)}
      ensures ok && a in old(own) ==> logged == old(logged)
      ensures old(Addr(Snap(), i, p)) != 0 ==> ok && bits == old(bits) && logged == old(logged)
      ensures ok ==> Peaked(old(logged), old(peak), logged, peak)
      ensures !ok ==> Full()
    {
      hide TestBit, SetBit, OwnedBy, BitsOk, Peaked;
      PeakedNone(logged, peak);
      SizesOk();
      a := inodes[i].addrs[Slot(p)];
      ok := true;
      if a == 0 {
        ghost var f := Snap();
        ok, a := Balloc();
        if ok {
          BitsAfterAlloc(old(bits), datastart, size, own, a, Owner(i, p));
          inodes := inodes[i := inodes[i].(addrs := inodes[i].addrs[Slot(p) := a])];
          assert Snap() == Link(f, i, p, a);
          LinkOwned(f, own, i, p, a);
          own := own[a := Owner(i, p)];
        }
      }
    }

    /** The entry for p in the index block b above it, allocated if it is missing; the index block is then logged. */
    method EnsureEntry(i: nat, p: Pos, b: nat) returns (ok: bool, a: nat)
      requires Valid() && ValidRef(Snap(), i, p) && !IsRoot(p)
      requires Addr(Snap(), i, Parent(p)) == b != 0
      modifies this`disk, this`bits, this`own, this`logged, this`peak
      ensures ok ==> Valid() && Ensured(old(Snap()), old(own), i, p, Snap(), own, a)
      ensures ok ==> logged <= old(logged) + {BitmapBlock(a / BPB), DataBlock(a), DataBlock(b)}
      ensures ok && a in old(own) ==> logged == old(logged)
      ensures old(Addr(Snap(), i, p)) != 0 ==> ok && bits == old(bits) && logged == old(logged)
      ensures ok ==> Peaked(old(logged), old(peak), logged, peak)
      ensures !ok ==> Full()
    {
      hide TestBit, SetBit, BitsOk, SetWord, Word, Peaked;
      PeakedNone(logged, peak);
      SizesOk();
      ghost var f := Snap();
      assert IsIndexBlock(f, b);
      a := Word(disk[b], Index(p));
      assert a == Addr(f, i, p);
      ok := true;
      if a == 0 {
        ok, a := Balloc();
        if ok {
          BitsAfterAlloc(old(bits), datastart, size, own, a, Owner(i, p));
          disk := disk[b := SetWord(disk[b], Index(p), a)];
          ghost var logs, peak0 := logged, peak;
          LogWrite(DataBlock(b));
          PeakedTrans(old(logged), old(peak), logs, peak0, logged, peak);
          assert Snap() == Link(f, i, p, a);
          LinkOwned(f, own, i, p, a);
          own := own[a := Owner(i, p)];
        }
      }
    }

    /** bmap's branch for the blocks below the single index block. */
    method BmapSingle(i: nat, m: nat) returns (ok: bool, a: nat)
      requires Valid() && i < |inodes| && m < NINDIRECT
      modifies this`disk, this`bits, this`inodes, this`own, this`logged, this`peak
      ensures ok ==> Valid() && ValidRef(Snap(), i, InSingle(m)) && Addr(Snap(), i, InSingle(m)) == a != 0
      ensures ok ==> Growth(old(Snap()), old(own), i, Path(InSingle(m)), Snap(), own, logged - old(logged))
      ensures old(Addr(Snap(), i, InSingle(m))) != 0 ==> ok && Unchanged(old(Snap()), old(own), old(bits), old(logged))
      ensures ok ==> Names(Snap(), i, 11 + m, a)
      ensures ok ==> Peaked(old(logged), old(peak), logged, peak)
      ensures !ok ==> Full()
    {
      hide Names, PosOf, Peaked, OwnedBy, BitsOk, Growth, Addr, Link, CanLink, Path;
      ghost var f, w, logs, ps := Snap(), own, logged, Path(InSingle(m));
      Paths(0, 0, m);
      if Addr(f, i, InSingle(m)) != 0 {
        AncestorsThere(f, i, InSingle(m), Single);
      }
      var b: nat;
      ok, b := EnsureRoot(i, Single);
      if !ok {
        return false, 0;
      }
      ghost var g, w', logs', peak' := Snap(), own, logged, peak;
      EnsuredGrowth(f, w, i, Single, g, w', b, ps, logs' - logs);
      ok, a := EnsureEntry(i, InSingle(m), b);
      if ok {
        PeakedTrans(logs, old(peak), logs', peak', logged, peak);
        EnsuredGrowth(g, w', i, InSingle(m), Snap(), own, a, ps, logged - logs');
        GrowthTrans(f, w, i, ps, g, w', logs' - logs, Snap(), own, logged - logs');
        GrowthFewer(f, w, i, ps, Snap(), own, logs' - logs + (logged - logs'), logged - logs);
        SingleWords(Snap(), i, m);
      }
    }

    /** The two index blocks above leaf (k, _): the double-indirect root and its entry k. */
    method BmapMiddle(i: nat, k: nat, ghost ps: set<Pos>) returns (ok: bool, b: nat)
      requires Valid() && i < |inodes| && k < NINDIRECT && Double in ps && Middle(k) in ps
      modifies this`disk, this`bits, this`inodes, this`own, this`logged, this`peak
      ensures ok ==> Valid() && ValidRef(Snap(), i, Middle(k)) && Addr(Snap(), i, Middle(k)) == b != 0
      ensures ok ==> Growth(old(Snap()), old(own), i, ps, Snap(), own, logged - old(logged))
      ensures old(Addr(Snap(), i, Double)) != 0 && old(Addr(Snap(), i, Middle(k))) != 0 ==>
                ok && Unchanged(old(Snap()), old(own), old(bits), old(logged))
      ensures ok ==> Peaked(old(logged), old(peak), logged, peak)
      ensures !ok ==> Full()
    {
      hide Peaked, OwnedBy, BitsOk, Growth, Addr, Link, CanLink;
      ghost var f, w, logs := Snap(), own, logged;
      ok, b := EnsureRoot(i, Double);
      if !ok {
        return false, 0;
      }
      ghost var g, w', logs', peak' := Snap(), own, logged, peak;
      EnsuredGrowth(f, w, i, Double, g, w', b, ps, logs' - logs);
      ok, b := EnsureEntry(i, Middle(k), b);
      if ok {
        PeakedTrans(logs, old(peak), logs', peak', logged, peak);
        EnsuredGrowth(g, w', i, Middle(k), Snap(), own, b, ps, logged - logs');
        GrowthTrans(f, w, i, ps, g, w', logs' - logs, Snap(), own, logged - logs');
        GrowthFewer(f, w, i, ps, Snap(), own, logs' - logs + (logged - logs'), logged - logs);
      }
    }

    /** bmap's branch for the blocks below the double index block. */
    method BmapDouble(i: nat, m: nat) returns (ok: bool, a: nat)
      requires Valid() && i < |inodes| && m < NINDIRECT * NINDIRECT
      modifies this`disk, this`bits, this`inodes, this`own, this`logged, this`peak
      ensures
        var p := Leaf(m / NINDIRECT, m % NINDIRECT);
        ok ==>
          && Valid() && ValidRef(Snap(), i, p) && Addr(Snap(), i, p) == a != 0
          && Growth(old(Snap()), old(own), i, Path(p), Snap(), own, logged - old(logged))
      ensures old(Addr(Snap(), i, Leaf(m / NINDIRECT, m % NINDIRECT))) != 0 ==>
                ok && Unchanged(old(Snap()), old(own), old(bits), old(logged))
      ensures ok ==> Names(Snap(), i, 11 + 128 + m, a)
      ensures ok ==> Peaked(old(logged), old(peak), logged, peak)
      ensures !ok ==> Full()
    {
      hide Names, PosOf, Peaked, OwnedBy, BitsOk, Growth, Addr, Link, CanLink, Path;
      var p := Leaf(m / NINDIRECT, m % NINDIRECT);
      ghost var f, w, logs, ps := Snap(), own, logged, Path(p);
      Paths(0, m / NINDIRECT, m % NINDIRECT);
      if Addr(f, i, p) != 0 {
        AncestorsThere(f, i, p, Middle(m / NINDIRECT));
        AncestorsThere(f, i, p, Double);
      }
      var b: nat;
      ok, b := BmapMiddle(i, m / NINDIRECT, ps);
      if !ok {
        return false, 0;
      }
      ghost var h, w', logs', peak' := Snap(), own, logged, peak;
      ok, a := EnsureEntry(i, p, b);
      if ok {
        PeakedTrans(logs, old(peak), logs', peak', logged, peak);
        EnsuredGrowth(h, w', i, p, Snap(), own, a, ps, logged - logs');
        GrowthTrans(f, w, i, ps, h, w', logs' - logs, Snap(), own, logged - logs');
        GrowthFewer(f, w, i, ps, Snap(), own, logs' - logs + (logged - logs'), logged - logs);
        DoubleWords(Snap(), i, m);
      }
    }

    /**
     bmap: the block of file block bn, allocated with its index blocks where
     missing.  It panics only when bn is out of range or the disk is full.
     */
    method Bmap(i: nat, bn: nat) returns (ok: bool, a: nat)
      requires Valid() && i < |inodes|
      modifies this`disk, this`bits, this`inodes, this`own, this`logged, this`peak
      ensures ok ==> bn < MAXFILE && Valid()
      ensures ok ==> Growth(old(Snap()), old(own), i, Path(PosOf(bn)), Snap(), own, logged - old(logged))
      ensures ok ==> ValidRef(Snap(), i, PosOf(bn)) && Addr(Snap(), i, PosOf(bn)) == a != 0
      ensures ok ==> Names(Snap(), i, bn, a)
      ensures bn < MAXFILE && old(Addr(Snap(), i, PosOf(bn))) != 0 ==>
                ok && Unchanged(old(Snap()), old(own), old(bits), old(logged))
      ensures ok ==> Peaked(old(logged), old(peak), logged, peak)
      ensures !ok ==> bn >= MAXFILE || Full()
    {
      hide Names, Peaked, OwnedBy, BitsOk, Growth, Addr, Link, CanLink, Path;
      ghost var f, w, logs := Snap(), own, logged;
      if bn < NDIRECT {
        Paths(bn, 0, 0);
        ok, a := EnsureRoot(i, Direct(bn));
        if ok {
          EnsuredGrowth(f, w, i, Direct(bn), Snap(), own, a, Path(PosOf(bn)), logged - logs);
          AddrWords(Snap(), i, bn);
        }
        return;
      }
      var m := bn - NDIRECT;
      if m < NINDIRECT {
        ok, a := BmapSingle(i, m);
        return;
      }
      m := m - NINDIRECT;
      if m < NINDIRECT * NINDIRECT {
        ok, a := BmapDouble(i, m);
        return;
      }
      return false, 0;
    }

    /**
     One round of writei's loop: bmap, copy and log_write.  The ghost arguments
     say where the whole write stands.
     */
    method WriteBlock(i: nat, chunk: seq<Byte>, at: nat,
                      ghost f: Fs, ghost w: map<nat, Owner>, ghost ps: set<Pos>, ghost off: nat,
                      ghost data: seq<Byte>, ghost logs: set<Logged>) returns (ok: bool)
      requires Valid() && i < |inodes| && at == off + |data| && at % BSIZE + |chunk| <= BSIZE && at / BSIZE < MAXFILE
      requires Writing(f, w, i, ps, off, data, Snap(), own, logged - logs)
      requires Path(PosOf(at / BSIZE)) <= ps
      modifies this`disk, this`bits, this`inodes, this`own, this`logged, this`peak
      ensures ok ==> Valid() && Writing(f, w, i, ps, off, data + chunk, Snap(), own, logged - logs)
      ensures ok ==> ValidRef(Snap(), i, PosOf(at / BSIZE)) && Addr(Snap(), i, PosOf(at / BSIZE)) != 0
      ensures ok ==> WfFs(old(Snap())) && StillMapped(old(Snap()), i, Snap())
      ensures ok ==> Peaked(old(logged), old(peak), logged, peak)
      ensures !ok ==> Full()
    {
      hide Peaked, OwnedBy, BitsOk, Writing, Addr, PosOf, Path, LogsOk, AddrsGrown, OwnGrown, SameBytes, Patch;
      ghost var g, w', logs' := Snap(), own, logged - logs;
      ghost var new0 := logged;
      var a: nat;
      ok, a := Bmap(i, at / BSIZE);
      if !ok {
        return;
      }
      ghost var h, w'', more := Snap(), own, logged - new0;
      GrowthWider(g, w', i, Path(PosOf(at / BSIZE)), ps, h, w'', more);
      WritingGrow(f, w, i, ps, off, data, g, w', logs', h, w'', more);
      PathHasPos(PosOf(at / BSIZE));
      WritingStore(f, w, i, ps, off, data, h, w'', logs' + more, chunk, a);
      disk := disk[a := Patch(disk[a], at % BSIZE, chunk)];
      ghost var logs1, peak1 := logged, peak;
      LogWrite(DataBlock(a));
      PeakedTrans(new0, old(peak), logs1, peak1, logged, peak);
      WritingFewer(f, w, i, ps, off, data + chunk, Snap(), own, logs' + more + {DataBlock(a)}, logged - logs);
      WritingWf(f, w, i, ps, off, data + chunk, Snap(), own, logged - logs);
      GrowthThenStore(g, w', i, ps, h, w'', Snap());
    }

    /** writei's loop over the blocks the write touches. */
    method WriteBlocks(i: nat, src: seq<Byte>, off: nat) returns (ok: bool)
      requires Valid() && i < |inodes| && off + |src| <= MAXFILE * BSIZE
      modifies this`disk, this`bits, this`inodes, this`own, this`logged, this`peak
      ensures ok ==> Valid() && |inodes| == |old(inodes)|
      ensures ok ==> Writing(old(Snap()), old(own), i, PathsOf(off / BSIZE, BlocksFor(off + |src|)), off, src,
                             Snap(), own, logged - old(logged))
      ensures ok && src != [] ==> Mapped(Snap(), i, off / BSIZE, BlocksFor(off + |src|))
      ensures ok ==> Peaked(old(logged), old(peak), logged, peak)
      ensures !ok ==> Full()
    {
      hide Peaked, OwnedBy, BitsOk, Writing, Addr, PosOf, PathsOf, Path, Mapped, StillMapped;
      var n := |src|;
      ghost var f, w, logs := Snap(), own, logged;
      ghost var ps := PathsOf(off / BSIZE, BlocksFor(off + n));
      WritingStart(f, w, i, ps, off);
      PeakedNone(logged, peak);
      assert logged - logs == {} && src[..0] == [];
      var tot := 0;
      while tot < n
        invariant 0 <= tot <= n
        invariant Valid() && i < |inodes| && WfFs(Snap())
        invariant Writing(f, w, i, ps, off, src[..tot], Snap(), own, logged - logs)
        invariant tot > 0 ==> Mapped(Snap(), i, off / BSIZE, BlocksFor(off + tot))
        invariant 0 < tot < n ==> (off + tot) % BSIZE == 0
        invariant Peaked(logs, old(peak), logged, peak)
      {
        var at := off + tot;
        var m := if n - tot < BSIZE - at % BSIZE then n - tot else BSIZE - at % BSIZE;
        ghost var g, logs', peak' := Snap(), logged, peak;
        PathInPathsOf(off / BSIZE, BlocksFor(off + n), at / BSIZE);
        ok := WriteBlock(i, src[tot..tot + m], at, f, w, ps, off, src[..tot], logs);
        if !ok {
          return false;
        }
        assert src[..tot] + src[tot..tot + m] == src[..tot + m];
        WritingWf(f, w, i, ps, off, src[..tot + m], Snap(), own, logged - logs);
        PeakedTrans(logs, old(peak), logs', peak', logged, peak);
        MappedMore(g, i, Snap(), off, tot, m);
        tot := tot + m;
      }
      assert src[..n] == src;
      WritingWf(f, w, i, ps, off, src, Snap(), own, logged - logs);
      ok := true;
    }

    ghost predicate BadWrite(i: nat, off: nat, n: nat)
      requires i < |inodes|
      reads this`inodes
    {
      off > inodes[i].size || off + n >= UINT || off + n > MAXFILE * BSIZE
    }

    /** The end of writei: a size that has grown goes to the inode, and iupdate logs the inode's block. */
    method UpdateSize(i: nat, end: nat, ghost logs: set<Logged>, ghost peak0: nat)
      requires i < |inodes| && InodeBlock(i / IPB) !in logged - logs && peak <= Larger(peak0, |logged|)
      modifies this`inodes, this`logged, this`peak
      ensures Snap() == Closed(old(Snap()), i, end)
      ensures logged == old(logged) || logged == old(logged) + {InodeBlock(i / IPB)}
      ensures logs == {} ==> peak <= Larger(peak0, |logged - {InodeBlock(i / IPB)}|)
    {
      ghost var more, peak' := logged, peak;
      if end > inodes[i].size {
        inodes := inodes[i := inodes[i].(size := end)];
        LogWrite(InodeBlock(i / IPB));
      }
      if logs == {} {
        assert InodeBlock(i / IPB) !in more;
        InodeLast(more, peak0, peak', InodeBlock(i / IPB), logged, peak);
      }
    }

    /**
     writei: the file becomes its old contents with src spliced in at off, and no
     other file changes.  A write that starts past the end, wraps around or ends
     past the largest file size is refused and changes nothing.
     */
    method Writei(i: nat, src: seq<Byte>, off: nat) returns (ok: bool, r: int)
      requires Valid() && FilesOk(Snap()) && i < |inodes| && off < UINT && |src| < UINT
      modifies this`disk, this`bits, this`inodes, this`own, this`logged, this`peak
      ensures old(BadWrite(i, off, |src|)) ==> ok && r == -1 && Unchanged(old(Snap()), old(own), old(bits), old(logged))
      ensures ok && !old(BadWrite(i, off, |src|)) ==>
                && r == |src|
                && Valid() && FilesOk(Snap()) && |inodes| == |old(inodes)|
                && WfFs(old(Snap())) && off <= |Contents(old(Snap()), i)|
                && Contents(Snap(), i) == Splice(Contents(old(Snap()), i), off, src)
                && (forall j :: 0 <= j < |inodes| && j != i ==> Contents(Snap(), j) == Contents(old(Snap()), j))
      ensures ok && !old(BadWrite(i, off, |src|)) ==>
                Growing(old(Snap()), old(own), i, PathsOf(off / BSIZE, BlocksFor(off + |src|)), Snap(), own,
                        logged - old(logged) - {InodeBlock(i / IPB)})
      ensures ok && !old(BadWrite(i, off, |src|)) && old(logged) == {} ==>
                peak <= Larger(old(peak), |logged - {InodeBlock(i / IPB)}|)
      ensures !ok ==> Full()
    {
      hide Peaked, OwnedBy, BitsOk, FilesOk, Writing, Addr, PosOf, PathsOf, Growing, Contents, Splice, Mapped;
      var n := |src|;
      if off > inodes[i].size || (off + n) % UINT < off {
        return true, -1;
      }
      if off + n > MAXFILE * BSIZE {
        return true, -1;
      }
      ghost var f, w, logs := Snap(), own, logged;
      ghost var ps := PathsOf(off / BSIZE, BlocksFor(off + n));
      ok := WriteBlocks(i, src, off);
      if !ok {
        return false, -1;
      }
      FinishWrite(f, w, i, ps, off, src, Snap(), own, logged - logs);
      ghost var g, more := Snap(), logged - logs;
      NoInodeLogged(f, w, i, ps, off, src, g, own, more, InodeBlock(i / IPB));
      PeakedMeans(logs, old(peak), logged, peak);
      assert logs == {} ==> logged == more;
      if n > 0 {
        UpdateSize(i, off + n, logs, old(peak));
      }
      assert Snap() == Closed(g, i, off + n);
      GrowingFewer(f, w, i, ps, Snap(), own, more, logged - logs - {InodeBlock(i / IPB)});
      ok, r := true, n;
    }

    /**
     readi: the file's bytes from off on, at most n of them.  The blocks are all
     there, so bmap allocates nothing and the file system is unchanged.
     */
    method Readi(i: nat, off: nat, n: nat) returns (ok: bool, r: int, dst: seq<Byte>)
      requires Valid() && FilesOk(Snap()) && i < |inodes| && off < UINT && n < UINT
      modifies this`disk, this`bits, this`inodes, this`own, this`logged, this`peak
      ensures ok && Unchanged(old(Snap()), old(own), old(bits), old(logged)) && WfFs(Snap())
      ensures off > inodes[i].size || off + n >= UINT ==> r == -1 && dst == []
      ensures off <= inodes[i].size && off + n < UINT ==>
                && r == (if off + n > inodes[i].size then inodes[i].size - off else n)
                && |Contents(Snap(), i)| == inodes[i].size
                && dst == Contents(Snap(), i)[off..off + r]
    {
      hide OwnedBy, BitsOk, Addr, PosOf, Contents, Growth;
      ContentsSize(i);
      dst := [];
      if off > inodes[i].size || (off + n) % UINT < off {
        return true, -1, [];
      }
      var n' := if off + n > inodes[i].size then inodes[i].size - off else n;
      var tot := 0;
      while tot < n'
        invariant 0 <= tot <= n'
        invariant Unchanged(old(Snap()), old(own), old(bits), old(logged))
        invariant dst == Contents(Snap(), i)[off..off + tot]
      {
        var at := off + tot;
        var m := if n' - tot < BSIZE - at % BSIZE then n' - tot else BSIZE - at % BSIZE;
        assert FileOk(Snap(), i);
        ReadChunk(Snap(), own, i, at, m);
        var a: nat;
        ok, a := Bmap(i, at / BSIZE);
        dst := dst + disk[a][at % BSIZE..at % BSIZE + m];
        tot := tot + m;
      }
      ok, r := true, n';
    }

    lemma ContentsSize(i: nat)
      requires WfFs(Snap()) && i < |inodes|
      ensures |Contents(Snap(), i)| == inodes[i].size
    {
    }

    /** One transaction of filewrite; tx is what it logged. */
    method WriteChunk(i: nat, chunk: seq<Byte>, off: nat) returns (ok: bool, w: int, ghost tx: Tx)
      requires Valid() && FilesOk(Snap()) && i < |inodes| && off < UINT && 0 < |chunk| <= CHUNK
      modifies this`disk, this`bits, this`inodes, this`own, this`logged, this`peak
      ensures old(BadWrite(i, off, |chunk|)) ==>
                ok && w == -1 && Snap() == old(Snap()) && own == old(own) && bits == old(bits)
      ensures ok && !old(BadWrite(i, off, |chunk|)) ==>
                && w == |chunk| && TxFits(tx)
                && Valid() && FilesOk(Snap()) && |inodes| == |old(inodes)|
                && WfFs(old(Snap())) && off <= |Contents(old(Snap()), i)|
                && Contents(Snap(), i) == Splice(Contents(old(Snap()), i), off, chunk)
                && (forall j :: 0 <= j < |inodes| && j != i ==> Contents(Snap(), j) == Contents(old(Snap()), j))
      ensures !ok ==> Full()
    {
      hide OwnedBy, BitsOk, FilesOk, Contents, Splice, Growing, PathsOf, TxFits, FileOk;
      ghost var f, w0 := Snap(), own;
      logged, peak := {}, 0;
      ok, w := Writei(i, chunk, off);
      tx := Tx(logged, peak);
      if ok && w >= 0 {
        FileOkAt(f, i);
        assert logged - {} == logged;
        ChunkFits(f, w0, i, off, |chunk|, Snap(), own, tx);
      }
    }

    /**
     filewrite on a file: chunk by chunk, each in its own transaction.  What is
     written is a prefix of src, all of it unless a chunk is refused, and the
     file offset moves past it.  txs lists what each chunk's transaction logged.
     */
    method Filewrite(i: nat, src: seq<Byte>, pos: nat)
      returns (ok: bool, r: int, pos': nat, ghost txs: seq<Tx>)
      requires Valid() && FilesOk(Snap()) && i < |inodes| && pos < UINT && |src| < 0x8000_0000
      modifies this`disk, this`bits, this`inodes, this`own, this`logged, this`peak
      ensures ok ==> Valid() && FilesOk(Snap()) && |inodes| == |old(inodes)| && pos <= pos' <= pos + |src|
      ensures !ok ==> Full()
      ensures ok ==> r == if pos' == pos + |src| then |src| else -1
      ensures ok && pos' > pos ==>
                && WfFs(old(Snap())) && pos <= |Contents(old(Snap()), i)|
                && Contents(Snap(), i) == Splice(Contents(old(Snap()), i), pos, src[..pos' - pos])
      ensures ok && pos' == pos ==> Snap() == old(Snap()) && own == old(own) && bits == old(bits)
      ensures forall t :: 0 <= t < |txs| ==> TxFits(txs[t])
      ensures ok ==> WfFs(old(Snap()))
      ensures ok ==> forall j :: 0 <= j < |inodes| && j != i ==> Contents(Snap(), j) == Contents(old(Snap()), j)
      ensures ok && pos' < pos + |src| ==>
                (pos' - pos) % CHUNK == 0 &&
                BadWrite(i, pos', if pos + |src| - pos' > CHUNK then CHUNK else pos + |src| - pos')
    {
      hide OwnedBy, BitsOk, FilesOk, Contents, Splice, Growing, PathsOf, TxFits, FileOk, WfFs;
      var n, k := |src|, 0;
      txs := [];
      while k < n
        invariant 0 <= k <= n && (k == n || k % CHUNK == 0) && pos + k < UINT
        invariant Valid() && FilesOk(Snap()) && |inodes| == |old(inodes)| && WfFs(old(Snap()))
        invariant k > 0 ==> pos <= |Contents(old(Snap()), i)| && Contents(Snap(), i) == Splice(Contents(old(Snap()), i), pos, src[..k])
        invariant k == 0 ==> Snap() == old(Snap()) && own == old(own) && bits == old(bits)
        invariant forall t :: 0 <= t < |txs| ==> TxFits(txs[t])
        invariant forall j :: 0 <= j < |inodes| && j != i ==> Contents(Snap(), j) == Contents(old(Snap()), j)
      {
        var n1 := if n - k > CHUNK then CHUNK else n - k;
        var w: int;
        ghost var tx: Tx;
        ok, w, tx := WriteChunk(i, src[k..k + n1], pos + k);
        if !ok {
          return false, -1, pos, txs;
        }
        if w < 0 {
          return true, -1, pos + k, txs;
        }
        txs := txs + [tx];
        assert src[..k] + src[k..k + n1] == src[..k + n1];
        if k > 0 {
          SpliceSplice(Contents(old(Snap()), i), pos, src[..k], src[k..k + n1]);
        }
        WholeChunks(k);
        k := k + w;
      }
      assert src[..n] == src;
      return true, n, pos + n, txs;
    }

    lemma WholeChunks(k: nat)
      ensures k % CHUNK == 0 ==> (k + CHUNK) % CHUNK == 0
    {
    }

    /** bfree: clears the block's bit; panics on a block that is already free. */
    method Bfree(b: nat) returns (ok: bool)
      requires b < size <= 8 * |bits|
      modifies this`bits, this`logged, this`peak
      ensures ok <==> TestBit(old(bits), b)
      ensures ok ==> bits == ClearBit(old(bits), b) && logged == old(logged) + {BitmapBlock(b / BPB)}
      ensures !ok ==> bits == old(bits) && logged == old(logged)
    {
      ok := TestBit(bits, b);
      if ok {
        bits := ClearBit(bits, b);
        LogWrite(BitmapBlock(b / BPB));
      }
    }

    /** itrunc has freed the blocks inode i had in f at the positions in done, and no others. */
    ghost predicate Truncating(f: Fs, w: map<nat, Owner>, i: nat, done: set<Pos>)
      reads this`disk, this`bits
    {
      && WfFs(f) && OwnedBy(f, w) && i < |f.inodes| && disk == f.disk && |disk| == size
      && (forall a :: a in w ==> datastart <= a < size)
      && BitsOk(bits, datastart, size, w - Gone(w, i, done))
    }

    /** The block of one position is freed if there is one. */
    method FreeAt(a: nat, ghost f: Fs, ghost w: map<nat, Owner>, ghost i: nat, ghost done: set<Pos>, ghost p: Pos)
      returns (ok: bool)
      requires Truncating(f, w, i, done) && ValidRef(f, i, p) && p !in done && a == Addr(f, i, p)
      modifies this`bits, this`logged, this`peak
      ensures ok && Truncating(f, w, i, done + {p})
    {
      hide Addr, OwnedBy, BitsOk, TestBit, ClearBit, Gone;
      GoneMore(f, w, i, done, p);
      ok := true;
      if a != 0 {
        BitsAfterFree(bits, datastart, size, w - Gone(w, i, done), a);
        BitsFit(w - Gone(w, i, done));
        ok := Bfree(a);
      }
    }

    lemma BitsFit(w: map<nat, Owner>)
      requires BitsOk(bits, datastart, size, w)
      ensures size <= 8 * |bits|
    {
    }

    /** itrunc's first loop: the direct blocks. */
    method TruncDirect(i: nat)
      requires Valid() && i < |inodes|
      modifies this`bits, this`inodes, this`logged, this`peak
      ensures Truncating(old(Snap()), own, i, Directs(NDIRECT))
      ensures |old(inodes)[i].addrs| == NDIRECT + 2
      ensures inodes == old(inodes)[i := old(inodes)[i].(addrs := Zeros(NDIRECT) + old(inodes)[i].addrs[NDIRECT..])]
    {
      hide OwnedBy, BitsOk, Truncating;
      ghost var f, ino := Snap(), inodes[i];
      StartTruncating(i);
      assert ino.addrs == Zeros(0) + ino.addrs[0..];
      for k := 0 to NDIRECT
        invariant Truncating(f, own, i, Directs(k))
        invariant inodes == f.inodes[i := ino.(addrs := Zeros(k) + ino.addrs[k..])]
      {
        RowsGrow(k);
        assert (Zeros(k) + ino.addrs[k..])[k := 0] == Zeros(k + 1) + ino.addrs[k + 1..];
        var ok := FreeAt(inodes[i].addrs[k], f, own, i, Directs(k), Direct(k));
        inodes := inodes[i := inodes[i].(addrs := inodes[i].addrs[k := 0])];
      }
    }

    lemma StartTruncating(i: nat)
      requires Valid() && i < |inodes|
      ensures Truncating(Snap(), own, i, Directs(0))
    {
      hide OwnedBy, TestBit;
      assert Gone(own, i, Directs(0)) == {};
      assert own - {} == own;
    }

    /** itrunc's second part: the single index block and the blocks it lists. */
    method TruncSingle(i: nat, ghost f: Fs)
      requires Truncating(f, own, i, Directs(NDIRECT)) && |inodes| == |f.inodes|
      requires i < |inodes| && |inodes[i].addrs| == NDIRECT + 2 && inodes[i].addrs[NDIRECT] == Addr(f, i, Single)
      modifies this`bits, this`inodes, this`logged, this`peak
      ensures Truncating(f, own, i, Directs(NDIRECT) + Singles(NINDIRECT) + {Single})
      ensures inodes == old(inodes)[i := old(inodes)[i].(addrs := old(inodes)[i].addrs[NDIRECT := 0])]
    {
      hide OwnedBy, BitsOk, Truncating, Word;
      ghost var done := Directs(NDIRECT);
      SameDisk(f, i, done);
      var s := inodes[i].addrs[NDIRECT];
      SingleFacts(f, i);
      if s != 0 {
        IndexBlockAt(f, i, Single);
        assert done + Singles(0) == done;
        for j := 0 to NINDIRECT
          invariant Truncating(f, own, i, done + Singles(j))
          invariant inodes == old(inodes)
        {
          RowsGrow(j);
          assert InSingle(j) !in done && done + Singles(j + 1) == done + Singles(j) + {InSingle(j)};
          assert Word(disk[s], j) == Addr(f, i, InSingle(j)) by {
            SameDisk(f, i, done + Singles(j));
          }
          var ok := FreeAt(Word(disk[s], j), f, own, i, done + Singles(j), InSingle(j));
        }
        var ok := FreeAt(s, f, own, i, done + Singles(NINDIRECT), Single);
        inodes := inodes[i := inodes[i].(addrs := inodes[i].addrs[NDIRECT := 0])];
      } else {
        NoneBelow(f, i, done, Singles(NINDIRECT) + {Single});
        assert done + (Singles(NINDIRECT) + {Single}) == done + Singles(NINDIRECT) + {Single};
        assert inodes[i].addrs[NDIRECT := 0] == inodes[i].addrs;
      }
    }

    /** Everything before the double index block. */
    ghost function DoneSingle(): (s: set<Pos>) {
      Directs(NDIRECT) + Singles(NINDIRECT) + {Single}
    }

    /**
     itrunc's inner loop for entry aj of the double index block.  The code takes
     the list to free from the double index block itself, not from the block aj
     names; so it frees every middle block, aj's among them, and the bfree of
     aj that follows panics.
     */
    method FreeMiddle(i: nat, root: nat, aj: nat, ghost j: nat, ghost f: Fs) returns (ok: bool)
      requires Truncating(f, own, i, DoneSingle()) && WfFs(f) && i < |f.inodes| && j < NINDIRECT
      requires root != 0 && root == Addr(f, i, Double) && aj != 0 && aj == Addr(f, i, Middle(j))
      modifies this`bits, this`logged, this`peak
      ensures !ok
    {
      hide OwnedBy, BitsOk, Truncating, Word, DoneSingle, Addr;
      ghost var done := DoneSingle();
      SameDisk(f, i, done);
      IndexBlockAt(f, i, Double);
      assert done + Middles(0) == done;
      for k := 0 to NINDIRECT
        invariant Truncating(f, own, i, done + Middles(k))
      {
        RowsGrow(k);
        NotDone(k);
        assert done + Middles(k + 1) == done + Middles(k) + {Middle(k)};
        SameDisk(f, i, done + Middles(k));
        MiddleWord(f, i, k);
        var freed := FreeAt(Word(disk[root], k), f, own, i, done + Middles(k), Middle(k));
      }
      MiddleFreed(f, i, j);
      ok := Bfree(aj);
    }

    lemma NotDone(k: nat)
      ensures Middle(k) !in DoneSingle() && Double !in DoneSingle()
    {
    }

    lemma MiddleWord(f: Fs, i: nat, k: nat)
      requires WfFs(f) && i < |f.inodes| && k < NINDIRECT && IsIndexBlock(f, Addr(f, i, Double))
      ensures Addr(f, i, Middle(k)) == Word(f.disk[Addr(f, i, Double)], k)
    {
    }

    lemma MiddleFreed(f: Fs, i: nat, j: nat)
      requires Truncating(f, own, i, DoneSingle() + Middles(NINDIRECT)) && j < NINDIRECT && Addr(f, i, Middle(j)) != 0
      ensures Addr(f, i, Middle(j)) < size <= 8 * |bits| && !TestBit(bits, Addr(f, i, Middle(j)))
    {
      hide Addr, OwnedBy, TestBit, Gone;
      GoneIsFree(f, own, i, DoneSingle() + Middles(NINDIRECT), Middle(j), bits, datastart, size);
    }

    /** itrunc's third part, as the code has it: it gets through exactly when the double index block lists nothing. */
    method TruncDouble(i: nat, ghost f: Fs) returns (ok: bool)
      requires Truncating(f, own, i, DoneSingle()) && |inodes| == |f.inodes|
      requires i < |inodes| && |inodes[i].addrs| == NDIRECT + 2 && WfFs(f) && inodes[i].addrs[NDIRECT + 1] == Addr(f, i, Double)
      modifies this`bits, this`inodes, this`logged, this`peak
      ensures ok <==> DoubleEmpty(f, i)
      ensures ok ==> Truncating(f, own, i, DoneSingle() + {Double})
      ensures ok ==> inodes == old(inodes)[i := old(inodes)[i].(addrs := old(inodes)[i].addrs[NDIRECT + 1 := 0])]
    {
      hide OwnedBy, BitsOk, Truncating, Word, DoneSingle, Addr;
      SameDisk(f, i, DoneSingle());
      SingleFacts(f, i);
      NotDone(0);
      var root := inodes[i].addrs[NDIRECT + 1];
      if root != 0 {
        IndexBlockAt(f, i, Double);
        for j := 0 to NINDIRECT
          invariant Truncating(f, own, i, DoneSingle()) && inodes == old(inodes)
          invariant forall m :: 0 <= m < j ==> Addr(f, i, Middle(m)) == 0
        {
          MiddleWord(f, i, j);
          SameDisk(f, i, DoneSingle());
          var aj := Word(disk[root], j);
          if aj != 0 {
            ok := FreeMiddle(i, root, aj, j, f);
            return;
          }
        }
        ok := FreeAt(root, f, own, i, DoneSingle(), Double);
        inodes := inodes[i := inodes[i].(addrs := inodes[i].addrs[NDIRECT + 1 := 0])];
      } else {
        NoneBelow(f, i, DoneSingle(), {Double});
        assert inodes[i].addrs[NDIRECT + 1 := 0] == inodes[i].addrs;
        ok := true;
      }
    }

    /**
     itrunc: on an inode whose double-indirect tree is empty it frees exactly the
     blocks the inode owns and nothing else; on any other it panics by freeing a
     block twice.
     */
    method Itrunc(i: nat) returns (ok: bool)
      requires Valid() && i < |inodes|
      modifies this`bits, this`inodes, this`own, this`logged, this`peak
      ensures WfFs(old(Snap())) && (ok <==> DoubleEmpty(old(Snap()), i))
      ensures ok ==> Valid() && disk == old(disk) && inodes == old(inodes)[i := Inode(Zeros(NDIRECT + 2), 0)]
      ensures ok ==> own == old(own) - set b | b in old(own) && old(own)[b].inum == i
    {
      hide OwnedBy, BitsOk, Truncating, Word, Addr, DoubleEmpty, Gone, DoneSingle;
      ghost var f := Snap();
      TruncDirect(i);
      RootAddrs(f, i);
      assert inodes[i].addrs == Zeros(NDIRECT) + f.inodes[i].addrs[NDIRECT..];
      TruncSingle(i, f);
      Stages();
      ok := TruncDouble(i, f);
      if ok {
        assert inodes[i].addrs == Zeros(NDIRECT + 2);
        inodes := inodes[i := inodes[i].(size := 0)];
        LogWrite(InodeBlock(i / IPB));
        EmptiedOwned(f, own, i);
        assert Snap() == Emptied(f, i);
        Truncated(f, i);
        own := own - Gone(own, i, DoneSingle() + {Double});
      }
    }

    lemma RootAddrs(f: Fs, i: nat)
      requires WfFs(f) && i < |f.inodes|
      ensures Addr(f, i, Single) == f.inodes[i].addrs[NDIRECT] && Addr(f, i, Double) == f.inodes[i].addrs[NDIRECT + 1]
    {
    }

    lemma Stages()
      ensures DoneSingle() == Directs(NDIRECT) + Singles(NINDIRECT) + {Single}
      ensures DoneSingle() + {Double} == Directs(NDIRECT) + Singles(NINDIRECT) + {Single, Double}
    {
    }

    lemma Truncated(f: Fs, i: nat)
      requires Truncating(f, own, i, DoneSingle() + {Double})
      ensures BitsOk(bits, datastart, size, own - Gone(own, i, DoneSingle() + {Double})) && |disk| == size
    {
    }

    lemma SameDisk(f: Fs, i: nat, done: set<Pos>)
      requires Truncating(f, own, i, done)
      ensures WfFs(f) && OwnedBy(f, own) && i < |f.inodes| && disk == f.disk
    {
    }

    lemma IndexBlockAt(f: Fs, i: nat, p: Pos)
      requires WfFs(f) && OwnedBy(f, own) && ValidRef(f, i, p) && Addr(f, i, p) != 0
      ensures IsIndexBlock(f, Addr(f, i, p))
    {
    }

    /** Positions without a block have nothing to free. */
    lemma NoneBelow(f: Fs, i: nat, done: set<Pos>, ps: set<Pos>)
      requires Truncating(f, own, i, done)
      requires forall p :: p in ps ==> ValidPos(p) && Addr(f, i, p) == 0
      ensures Truncating(f, own, i, done + ps)
    {
      hide TestBit, Addr;
      assert Gone(own, i, done + ps) == Gone(own, i, done);
    }

    lemma SingleFacts(f: Fs, i: nat)
      requires WfFs(f) && i < |f.inodes|
      ensures Addr(f, i, Single) == 0 ==> forall j :: 0 <= j < NINDIRECT ==> Addr(f, i, InSingle(j)) == 0
      ensures Addr(f, i, Double) == 0 ==> forall j :: 0 <= j < NINDIRECT ==> Addr(f, i, Middle(j)) == 0
    {
    }

    lemma SizesOk()
      requires Valid()
      ensures |disk| == size <= 8 * |bits|
    {
    }
  }
}
