/** Allocation and log_write traffic of one file operation, and what storing bytes does to file contents. */
module FsWrite {
  import opened FsTree
  import opened FsGrow

  /** Bits of the free map per bitmap block. */
  const BPB: nat := 4096

  /** A block passed to log_write. */
  datatype Logged = BitmapBlock(k: nat) | InodeBlock(k: nat) | DataBlock(b: nat)

  /** The log_writes made while growing: bitmap blocks of new blocks, and blocks of positions in ps. */
  ghost predicate LogsOk(logs: set<Logged>, g: Fs, i: nat, ps: set<Pos>, own: map<nat, Owner>, own': map<nat, Owner>)
    requires WfFs(g) && i < |g.inodes|
  {
    forall l :: l in logs ==>
      || (l.BitmapBlock? && exists c :: c in own' && c !in own && c / BPB == l.k)
      || (l.DataBlock? && l.b != 0 && exists q :: q in ps && ValidPos(q) && Addr(g, i, q) == l.b)
  }

  /** Allocations for inode i at positions in ps, and the log_writes that go with them. */
  ghost predicate Growth(f: Fs, own: map<nat, Owner>, i: nat, ps: set<Pos>, g: Fs, own': map<nat, Owner>, logs: set<Logged>) {
    Grown(f, own, i, ps, g, own') && i < |g.inodes| && LogsOk(logs, g, i, ps, own, own')
  }

  lemma GrowthTrans(f: Fs, own: map<nat, Owner>, i: nat, ps: set<Pos>, g: Fs, own': map<nat, Owner>, logs: set<Logged>,
                    h: Fs, own'': map<nat, Owner>, logs': set<Logged>)
    requires Growth(f, own, i, ps, g, own', logs) && Growth(g, own', i, ps, h, own'', logs')
    ensures Growth(f, own, i, ps, h, own'', logs + logs')
  {
    hide Addr, RawByte, OwnedBy, SameBytes;
    GrownTrans(f, own, i, ps, g, own', h, own'');
    forall l | l in logs && l.DataBlock?
      ensures exists q :: q in ps && ValidPos(q) && Addr(h, i, q) == l.b
    {
      var q :| q in ps && ValidPos(q) && Addr(g, i, q) == l.b;
      assert ValidRef(g, i, q);
    }
  }

  lemma GrowthFewer(f: Fs, own: map<nat, Owner>, i: nat, ps: set<Pos>, g: Fs, own': map<nat, Owner>, logs: set<Logged>, fewer: set<Logged>)
    requires Growth(f, own, i, ps, g, own', logs) && fewer <= logs
    ensures Growth(f, own, i, ps, g, own', fewer)
  {
    hide Grown;
  }

  /** One "allocate if missing" as a growth step. */
  lemma EnsuredGrowth(f: Fs, own: map<nat, Owner>, i: nat, p: Pos, g: Fs, own': map<nat, Owner>, a: nat, ps: set<Pos>, logs: set<Logged>)
    requires WfFs(f) && OwnedBy(f, own) && ValidRef(f, i, p) && Ensured(f, own, i, p, g, own', a)
    requires p in ps && (!IsRoot(p) ==> Parent(p) in ps && Addr(f, i, Parent(p)) != 0)
    requires logs <= {BitmapBlock(a / BPB), DataBlock(a)} + if IsRoot(p) then {} else {DataBlock(Addr(f, i, Parent(p)))}
    requires a in own ==> logs == {}
    ensures Growth(f, own, i, ps, g, own', logs)
    ensures ValidRef(g, i, p) && Addr(g, i, p) == a != 0
    ensures |own'| == |own| + if Addr(f, i, p) == 0 then 1 else 0
  {
    hide Addr, Link, OwnedBy, RawByte, SameBytes;
    EnsuredGrown(f, own, i, p, g, own', a);
    GrownWider(f, own, i, {p}, ps, g, own');
    if Addr(f, i, p) != 0 {
      assert a in own by {
        EnsuredOwned(f, own, i, p);
      }
    } else {
      assert a in own' && a !in own;
      if !IsRoot(p) {
        assert ValidRef(f, i, Parent(p));
        assert Addr(g, i, Parent(p)) == Addr(f, i, Parent(p));
      }
    }
  }

  lemma EnsuredOwned(f: Fs, own: map<nat, Owner>, i: nat, p: Pos)
    requires WfFs(f) && OwnedBy(f, own) && ValidRef(f, i, p) && Addr(f, i, p) != 0
    ensures Addr(f, i, p) in own && own[Addr(f, i, p)] == Owner(i, p)
  {
  }

  /** Block x with data copied over it from byte at on. */
  function Patch(x: Block, at: nat, data: seq<Byte>): (r: Block)
    requires at + |data| <= |x|
    ensures |r| == |x|
  {
    x[..at] + data + x[at + |data|..]
  }

  /** g differs from f in exactly the bytes off .. off + |data| of file i, which now hold data. */
  ghost predicate Wrote(f: Fs, i: nat, off: nat, data: seq<Byte>, g: Fs)
    requires WfFs(f) && WfFs(g) && SameShape(f, g)
  {
    forall j, o :: 0 <= j < |f.inodes| && 0 <= o < MAXFILE * BSIZE ==>
      RawByte(g, j, o) == if j == i && off <= o < off + |data| then data[o - off] else RawByte(f, j, o)
  }

  lemma PatchAt(x: Block, at: nat, data: seq<Byte>, k: nat)
    requires at + |data| <= |x| && k < |x|
    ensures Patch(x, at, data)[k] == if at <= k < at + |data| then data[k - at] else x[k]
  {
  }

  lemma SameBlockNo(o: nat, off: nat)
    requires o / BSIZE < MAXFILE && off / BSIZE < MAXFILE && PosOf(o / BSIZE) == PosOf(off / BSIZE)
    ensures o / BSIZE == off / BSIZE
  {
    PathsDistinct();
    assert BlockNo(PosOf(o / BSIZE)) == o / BSIZE;
  }

  /** Copying data into the block that holds offset off of file i writes exactly those bytes of that file. */
  lemma StoreByte(f: Fs, own: map<nat, Owner>, i: nat, off: nat, data: seq<Byte>, a: nat, j: nat, o: nat)
    requires WfFs(f) && OwnedBy(f, own) && i < |f.inodes| && off / BSIZE < MAXFILE && off % BSIZE + |data| <= BSIZE
    requires a != 0 && a == Addr(f, i, PosOf(off / BSIZE)) && a < |f.disk|
    requires j < |f.inodes| && o < MAXFILE * BSIZE
    ensures
      var g := f.(disk := f.disk[a := Patch(f.disk[a], off % BSIZE, data)]);
      && WfFs(g)
      && RawByte(g, j, o) == if j == i && off <= o < off + |data| then data[o - off] else RawByte(f, j, o)
  {
    hide Addr, PosOf, Patch;
    EnsuredOwned(f, own, i, PosOf(off / BSIZE));
    var x := Patch(f.disk[a], off % BSIZE, data);
    StoreRaw(f, own, a, x, j, o);
    assert off <= o < off + |data| ==> o / BSIZE == off / BSIZE;
    if own[a] == Owner(j, PosOf(o / BSIZE)) {
      SameBlockNo(o, off);
      PatchAt(f.disk[a], off % BSIZE, data, o % BSIZE);
      assert RawByte(f, j, o) == f.disk[a][o % BSIZE];
    }
  }

  lemma StoreChunk(f: Fs, own: map<nat, Owner>, i: nat, off: nat, data: seq<Byte>, a: nat)
    requires WfFs(f) && OwnedBy(f, own) && i < |f.inodes| && off / BSIZE < MAXFILE && off % BSIZE + |data| <= BSIZE
    requires a != 0 && a == Addr(f, i, PosOf(off / BSIZE))
    ensures a < |f.disk|
    ensures
      var g := f.(disk := f.disk[a := Patch(f.disk[a], off % BSIZE, data)]);
      && WfFs(g) && OwnedBy(g, own) && SameShape(f, g) && Wrote(f, i, off, data, g)
      && forall j, q :: ValidRef(f, j, q) ==> Addr(g, j, q) == Addr(f, j, q)
  {
    hide Addr, PosOf, Patch, RawByte;
    EnsuredOwned(f, own, i, PosOf(off / BSIZE));
    OwnedInRange(f, own, a);
    var x := Patch(f.disk[a], off % BSIZE, data);
    var g := f.(disk := f.disk[a := x]);
    StoreOwned(f, own, a, x);
    forall j: nat, o: nat | j < |f.inodes| && o < MAXFILE * BSIZE
      ensures RawByte(g, j, o) == if j == i && off <= o < off + |data| then data[o - off] else RawByte(f, j, o)
    {
      StoreByte(f, own, i, off, data, a, j, o);
    }
    forall j: nat, q: Pos | ValidRef(f, j, q)
      ensures Addr(g, j, q) == Addr(f, j, q)
    {
      StoreAddr(f, own, a, x, j, q);
    }
  }

  lemma OwnedInRange(f: Fs, own: map<nat, Owner>, a: nat)
    requires WfFs(f) && OwnedBy(f, own) && a in own
    ensures 0 < a < |f.disk|
  {
  }

  /** All positions on the paths of file blocks lo .. hi - 1. */
  ghost function PathsOf(lo: nat, hi: nat): (ps: set<Pos>)
    requires hi <= MAXFILE
    decreases hi
  {
    if hi <= lo then {} else PathsOf(lo, hi - 1) + Path(PosOf(hi - 1))
  }

  lemma {:induction false} PathInPathsOf(lo: nat, hi: nat, bn: nat)
    requires lo <= bn < hi <= MAXFILE
    ensures Path(PosOf(bn)) <= PathsOf(lo, hi)
    decreases hi
  {
    if bn < hi - 1 {
      PathInPathsOf(lo, hi - 1, bn);
    }
  }

  /** File blocks lo .. hi - 1 of inode i have blocks. */
  ghost predicate Mapped(f: Fs, i: nat, lo: nat, hi: nat)
    requires WfFs(f) && i < |f.inodes|
  {
    forall bn :: lo <= bn < hi && bn < MAXFILE ==> Addr(f, i, PosOf(bn)) != 0
  }

  /**
   Where a file write stands: bytes data of file i are written from off on and
   no other byte of any file has changed; only positions in ps of inode i have
   grown; logs are the blocks logged for it.
   */
  ghost predicate Writing(f: Fs, own: map<nat, Owner>, i: nat, ps: set<Pos>, off: nat, data: seq<Byte>,
                          g: Fs, own': map<nat, Owner>, logs: set<Logged>) {
    && WfFs(f) && WfFs(g) && OwnedBy(f, own) && OwnedBy(g, own') && SameShape(f, g) && i < |f.inodes|
    && AddrsGrown(f, i, ps, g) && OwnGrown(own, i, ps, own')
    && Wrote(f, i, off, data, g) && LogsOk(logs, g, i, ps, own, own')
  }

  lemma WritingStart(f: Fs, own: map<nat, Owner>, i: nat, ps: set<Pos>, off: nat)
    requires WfFs(f) && OwnedBy(f, own) && i < |f.inodes|
    ensures Writing(f, own, i, ps, off, [], f, own, {})
  {
  }

  /** bmap inside a write: the bytes stay, positions grow. */
  lemma WritingGrow(f: Fs, own: map<nat, Owner>, i: nat, ps: set<Pos>, off: nat, data: seq<Byte>,
                    g: Fs, own': map<nat, Owner>, logs: set<Logged>, h: Fs, own'': map<nat, Owner>, logs': set<Logged>)
    requires Writing(f, own, i, ps, off, data, g, own', logs) && Growth(g, own', i, ps, h, own'', logs')
    ensures Writing(f, own, i, ps, off, data, h, own'', logs + logs')
  {
    hide Addr, RawByte, OwnedBy;
    forall j: nat, q: Pos | ValidRef(f, j, q)
      ensures Addr(h, j, q) == Addr(f, j, q) || (j == i && q in ps && Addr(f, j, q) == 0)
    {
      assert ValidRef(g, j, q);
    }
    forall l | l in logs && l.DataBlock?
      ensures exists q :: q in ps && ValidPos(q) && Addr(h, i, q) == l.b
    {
      var q :| q in ps && ValidPos(q) && Addr(g, i, q) == l.b;
      assert ValidRef(g, i, q);
    }
  }

  /** The copy and log_write inside a write. */
  lemma WritingStore(f: Fs, own: map<nat, Owner>, i: nat, ps: set<Pos>, off: nat, data: seq<Byte>,
                     g: Fs, own': map<nat, Owner>, logs: set<Logged>, chunk: seq<Byte>, a: nat)
    requires Writing(f, own, i, ps, off, data, g, own', logs)
    requires var at := off + |data|;
             && at / BSIZE < MAXFILE && at % BSIZE + |chunk| <= BSIZE
             && PosOf(at / BSIZE) in ps && a != 0 && a == Addr(g, i, PosOf(at / BSIZE))
    ensures a < |g.disk|
    ensures
      var h := g.(disk := g.disk[a := Patch(g.disk[a], (off + |data|) % BSIZE, chunk)]);
      && Writing(f, own, i, ps, off, data + chunk, h, own', logs + {DataBlock(a)})
      && forall q :: ValidPos(q) ==> Addr(h, i, q) == Addr(g, i, q)
  {
    hide Addr, RawByte, OwnedBy, Patch, PosOf;
    var at := off + |data|;
    StoreChunk(g, own', i, at, chunk, a);
    var h := g.(disk := g.disk[a := Patch(g.disk[a], at % BSIZE, chunk)]);
    WroteMore(f, i, off, data, g, chunk, h);
    StoreKeepsRefs(f, own, i, ps, g, own', logs, h);
    var q := PosOf(at / BSIZE);
    assert ValidRef(g, i, q) && Addr(h, i, q) == a;
  }

  lemma WroteMore(f: Fs, i: nat, off: nat, data: seq<Byte>, g: Fs, chunk: seq<Byte>, h: Fs)
    requires WfFs(f) && WfFs(g) && WfFs(h) && SameShape(f, g) && SameShape(g, h)
    requires Wrote(f, i, off, data, g) && Wrote(g, i, off + |data|, chunk, h)
    ensures SameShape(f, h) && Wrote(f, i, off, data + chunk, h)
  {
    hide RawByte, WfFs;
  }

  lemma StoreKeepsRefs(f: Fs, own: map<nat, Owner>, i: nat, ps: set<Pos>, g: Fs, own': map<nat, Owner>, logs: set<Logged>, h: Fs)
    requires WfFs(f) && WfFs(g) && WfFs(h) && SameShape(f, g) && SameShape(g, h) && i < |f.inodes|
    requires AddrsGrown(f, i, ps, g) && LogsOk(logs, g, i, ps, own, own')
    requires forall j, q :: ValidRef(g, j, q) ==> Addr(h, j, q) == Addr(g, j, q)
    ensures SameShape(f, h) && AddrsGrown(f, i, ps, h) && LogsOk(logs, h, i, ps, own, own')
    ensures forall q :: ValidPos(q) ==> Addr(h, i, q) == Addr(g, i, q)
  {
    hide Addr;
    forall j: nat, q: Pos | ValidRef(f, j, q)
      ensures Addr(h, j, q) == Addr(f, j, q) || (j == i && q in ps && Addr(f, j, q) == 0)
    {
      assert ValidRef(g, j, q);
    }
    forall q: Pos | ValidPos(q)
      ensures Addr(h, i, q) == Addr(g, i, q)
    {
      assert ValidRef(g, i, q);
    }
  }

  /** Only the size of inode i changes. */
  function Resized(f: Fs, i: nat, size: nat): (g: Fs)
    requires i < |f.inodes|
  {
    f.(inodes := f.inodes[i := f.inodes[i].(size := size)])
  }

  lemma {:induction false} ResizeAddr(f: Fs, i: nat, size: nat, j: nat, q: Pos)
    requires WfFs(f) && i < |f.inodes| && ValidRef(f, j, q)
    ensures WfFs(Resized(f, i, size)) && Addr(Resized(f, i, size), j, q) == Addr(f, j, q)
    decreases Depth(q)
  {
    hide Word;
    if !IsRoot(q) {
      ResizeAddr(f, i, size, j, Parent(q));
    }
  }

  lemma ResizeKeeps(f: Fs, own: map<nat, Owner>, i: nat, size: nat)
    requires WfFs(f) && OwnedBy(f, own) && i < |f.inodes|
    ensures WfFs(Resized(f, i, size)) && OwnedBy(Resized(f, i, size), own)
    ensures forall j, q :: ValidRef(f, j, q) ==> Addr(Resized(f, i, size), j, q) == Addr(f, j, q)
    ensures forall j, o :: 0 <= j < |f.inodes| && 0 <= o < MAXFILE * BSIZE ==>
              RawByte(Resized(f, i, size), j, o) == RawByte(f, j, o)
  {
    hide Addr, PosOf;
    forall j: nat, q: Pos | ValidRef(f, j, q)
      ensures WfFs(Resized(f, i, size)) && Addr(Resized(f, i, size), j, q) == Addr(f, j, q)
    {
      ResizeAddr(f, i, size, j, q);
    }
    forall j: nat, o: nat | j < |f.inodes| && o < MAXFILE * BSIZE
      ensures RawByte(Resized(f, i, size), j, o) == RawByte(f, j, o)
    {
      assert ValidRef(f, j, PosOf(o / BSIZE));
    }
  }

  function BlocksFor(size: nat): (n: nat) {
    (size + BSIZE - 1) / BSIZE
  }

  /** The file has a block for every byte below its size. */
  ghost predicate FileOk(f: Fs, i: nat)
    requires WfFs(f) && i < |f.inodes|
  {
    f.inodes[i].size <= MAXFILE * BSIZE && Mapped(f, i, 0, BlocksFor(f.inodes[i].size))
  }

  ghost predicate FilesOk(f: Fs)
    requires WfFs(f)
  {
    forall i :: 0 <= i < |f.inodes| ==> FileOk(f, i)
  }

  /** A file as its users see it: a flat sequence of bytes. */
  ghost function Contents(f: Fs, i: nat): (s: seq<Byte>)
    requires WfFs(f) && i < |f.inodes|
  {
    seq(f.inodes[i].size, o requires 0 <= o => if o < MAXFILE * BSIZE then RawByte(f, i, o) else 0)
  }

  /** Byte o of a file is byte o mod 512 of the disk block that its words name for file block o / 512. */
  lemma ContentsAt(f: Fs, i: nat, o: nat)
    requires WfFs(f) && i < |f.inodes| && FileOk(f, i) && o < f.inodes[i].size
    ensures o / 512 < MAXFILE && |Contents(f, i)| == f.inodes[i].size
    ensures forall a :: 0 < a < |f.disk| && Names(f, i, o / 512, a) ==> o % 512 < |f.disk[a]| && Contents(f, i)[o] == f.disk[a][o % 512]
    ensures exists a :: 0 < a && Names(f, i, o / 512, a)
  {
    hide Addr, PosOf, Names;
    var a := Addr(f, i, PosOf(o / 512));
    AddrWords(f, i, o / 512);
    forall b | 0 < b < |f.disk| && Names(f, i, o / 512, b)
      ensures b == a
    {
      NamesOne(f, i, o / 512, a, b);
    }
  }

  /** s with data written over it from off on, longer if need be. */
  function Splice(s: seq<Byte>, off: nat, data: seq<Byte>): (r: seq<Byte>)
    requires off <= |s|
  {
    s[..off] + data + if off + |data| <= |s| then s[off + |data|..] else []
  }

  /** Which byte is where after a write. */
  lemma SpliceAt(s: seq<Byte>, off: nat, data: seq<Byte>, o: nat)
    requires off <= |s|
    ensures |Splice(s, off, data)| == if off + |data| <= |s| then |s| else off + |data|
    ensures o < |Splice(s, off, data)| ==> Splice(s, off, data)[o] == if off <= o < off + |data| then data[o - off] else s[o]
  {
  }

  /** The state writei ends in: the size grows if the write went past it. */
  function Closed(g: Fs, i: nat, end: nat): (h: Fs)
    requires i < |g.inodes|
  {
    if end > g.inodes[i].size then Resized(g, i, end) else g
  }

  lemma GrownStaysMapped(f: Fs, i: nat, ps: set<Pos>, g: Fs, j: nat, lo: nat, hi: nat)
    requires WfFs(f) && WfFs(g) && SameShape(f, g) && AddrsGrown(f, i, ps, g) && j < |f.inodes| && Mapped(f, j, lo, hi)
    ensures Mapped(g, j, lo, hi)
  {
    hide Addr, PosOf;
    forall bn: nat | lo <= bn < hi && bn < MAXFILE
      ensures Addr(g, j, PosOf(bn)) != 0
    {
      assert ValidRef(f, j, PosOf(bn));
    }
  }

  /** A finished write keeps every file's blocks in place. */
  lemma WriteKeepsFiles(f: Fs, own: map<nat, Owner>, i: nat, ps: set<Pos>, off: nat, data: seq<Byte>,
                        g: Fs, own': map<nat, Owner>, logs: set<Logged>)
    requires Writing(f, own, i, ps, off, data, g, own', logs) && FilesOk(f)
    requires off <= f.inodes[i].size && off + |data| <= MAXFILE * BSIZE
    requires Mapped(g, i, off / BSIZE, BlocksFor(off + |data|)) || data == []
    ensures
      var h := Closed(g, i, off + |data|);
      WfFs(h) && OwnedBy(h, own') && |h.inodes| == |f.inodes| && |h.disk| == |f.disk| && FilesOk(h)
  {
    hide Addr, PosOf, OwnedBy, Wrote, LogsOk, OwnGrown;
    var h := Closed(g, i, off + |data|);
    ResizeKeeps(g, own', i, off + |data|);
    forall j: nat | j < |f.inodes|
      ensures FileOk(h, j)
    {
      assert FileOk(f, j);
      GrownStaysMapped(f, i, ps, g, j, 0, BlocksFor(f.inodes[j].size));
      forall bn: nat | bn < BlocksFor(h.inodes[j].size) && bn < MAXFILE
        ensures Addr(h, j, PosOf(bn)) != 0
      {
        assert ValidRef(g, j, PosOf(bn));
      }
    }
  }

  lemma WriteContents(f: Fs, own: map<nat, Owner>, i: nat, ps: set<Pos>, off: nat, data: seq<Byte>,
                      g: Fs, own': map<nat, Owner>, logs: set<Logged>)
    requires Writing(f, own, i, ps, off, data, g, own', logs) && FilesOk(f)
    requires off <= f.inodes[i].size && off + |data| <= MAXFILE * BSIZE
    requires var h := Closed(g, i, off + |data|); WfFs(h) && |h.inodes| == |f.inodes| && FilesOk(h)
    ensures off <= |Contents(f, i)|
    ensures Contents(Closed(g, i, off + |data|), i) == Splice(Contents(f, i), off, data)
    ensures forall j :: 0 <= j < |f.inodes| && j != i ==> Contents(Closed(g, i, off + |data|), j) == Contents(f, j)
  {
    hide Addr, PosOf, OwnedBy, LogsOk, OwnGrown, RawByte;
    var h := Closed(g, i, off + |data|);
    ResizeKeeps(g, own', i, off + |data|);
    assert FileOk(f, i);
    var c, d := Contents(h, i), Splice(Contents(f, i), off, data);
    assert |c| == |d|;
    forall o | 0 <= o < |c|
      ensures c[o] == d[o]
    {
      assert RawByte(h, i, o) == RawByte(g, i, o);
    }
    forall j: nat | j < |f.inodes| && j != i
      ensures Contents(h, j) == Contents(f, j)
    {
      assert FileOk(f, j);
    }
  }

  lemma GrowthWider(f: Fs, own: map<nat, Owner>, i: nat, ps: set<Pos>, qs: set<Pos>, g: Fs, own': map<nat, Owner>, logs: set<Logged>)
    requires Growth(f, own, i, ps, g, own', logs) && ps <= qs
    ensures Growth(f, own, i, qs, g, own', logs)
  {
    GrownWider(f, own, i, ps, qs, g, own');
  }

  lemma PathHasPos(p: Pos)
    ensures p in Path(p)
  {
  }

  lemma WritingFewer(f: Fs, own: map<nat, Owner>, i: nat, ps: set<Pos>, off: nat, data: seq<Byte>,
                     g: Fs, own': map<nat, Owner>, logs: set<Logged>, fewer: set<Logged>)
    requires Writing(f, own, i, ps, off, data, g, own', logs) && fewer <= logs
    ensures Writing(f, own, i, ps, off, data, g, own', fewer)
  {
    hide OwnedBy, Wrote, AddrsGrown, OwnGrown;
  }

  lemma WritingWf(f: Fs, own: map<nat, Owner>, i: nat, ps: set<Pos>, off: nat, data: seq<Byte>,
                  g: Fs, own': map<nat, Owner>, logs: set<Logged>)
    requires Writing(f, own, i, ps, off, data, g, own', logs)
    ensures WfFs(f) && OwnedBy(f, own) && WfFs(g) && OwnedBy(g, own') && SameShape(f, g)
  {
  }

  const MAXOPBLOCKS: nat := 10

  /** filewrite's chunk size: what a transaction of MAXOPBLOCKS blocks is meant to hold. */
  const CHUNK: nat := (MAXOPBLOCKS - 1 - 1 - 2) / 2 * BSIZE

  /** Inodes per disk block. */
  const IPB: nat := 8

  /** Positions of inode i in ps grew, from f to g; logs are blocks of those positions and of the bitmap. */
  ghost predicate Growing(f: Fs, own: map<nat, Owner>, i: nat, ps: set<Pos>, g: Fs, own': map<nat, Owner>, logs: set<Logged>) {
    && WfFs(f) && WfFs(g) && OwnedBy(f, own) && OwnedBy(g, own') && |g.inodes| == |f.inodes| && i < |f.inodes|
    && (forall q :: ValidPos(q) && Addr(f, i, q) != 0 ==> Addr(g, i, q) == Addr(f, i, q))
    && OwnGrown(own, i, ps, own') && LogsOk(logs, g, i, ps, own, own')
  }

  lemma WritingGrowing(f: Fs, own: map<nat, Owner>, i: nat, ps: set<Pos>, off: nat, data: seq<Byte>,
                       g: Fs, own': map<nat, Owner>, logs: set<Logged>, size: nat)
    requires Writing(f, own, i, ps, off, data, g, own', logs)
    ensures Growing(f, own, i, ps, g, own', logs) && Growing(f, own, i, ps, Resized(g, i, size), own', logs)
  {
    hide Addr, OwnedBy, Wrote;
    ResizeKeeps(g, own', i, size);
    forall q: Pos | ValidPos(q)
      ensures Addr(Resized(g, i, size), i, q) == Addr(g, i, q) && (Addr(f, i, q) != 0 ==> Addr(g, i, q) == Addr(f, i, q))
    {
      assert ValidRef(g, i, q) && ValidRef(f, i, q);
    }
  }

  lemma GrowingFewer(f: Fs, own: map<nat, Owner>, i: nat, ps: set<Pos>, g: Fs, own': map<nat, Owner>, logs: set<Logged>, fewer: set<Logged>)
    requires Growing(f, own, i, ps, g, own', logs) && fewer <= logs
    ensures Growing(f, own, i, ps, g, own', fewer)
  {
    hide OwnedBy;
  }

  lemma FileOkAt(f: Fs, i: nat)
    requires WfFs(f) && FilesOk(f) && i < |f.inodes|
    ensures FileOk(f, i)
  {
  }

  lemma FinishWrite(f: Fs, own: map<nat, Owner>, i: nat, ps: set<Pos>, off: nat, data: seq<Byte>,
                    g: Fs, own': map<nat, Owner>, logs: set<Logged>)
    requires Writing(f, own, i, ps, off, data, g, own', logs) && WfFs(f) && FilesOk(f) && i < |f.inodes|
    requires WfFs(g) && i < |g.inodes|
    requires off <= f.inodes[i].size && off + |data| <= MAXFILE * BSIZE
    requires data != [] ==> Mapped(g, i, off / BSIZE, BlocksFor(off + |data|))
    ensures
      var h := Closed(g, i, off + |data|);
      && WfFs(h) && OwnedBy(h, own') && |h.inodes| == |f.inodes| && |h.disk| == |f.disk| && FilesOk(h)
      && off <= |Contents(f, i)|
      && Contents(h, i) == Splice(Contents(f, i), off, data)
      && (forall j :: 0 <= j < |f.inodes| && j != i ==> Contents(h, j) == Contents(f, j))
      && Growing(f, own, i, ps, h, own', logs)
    ensures data == [] ==> Closed(g, i, off + |data|) == g
    ensures g.inodes[i].size == f.inodes[i].size
  {
    hide Addr, OwnedBy, Contents, Splice, FilesOk, Growing;
    WriteKeepsFiles(f, own, i, ps, off, data, g, own', logs);
    WriteContents(f, own, i, ps, off, data, g, own', logs);
    WritingGrowing(f, own, i, ps, off, data, g, own', logs, off + |data|);
  }

  lemma GrowthThenStore(g: Fs, own: map<nat, Owner>, i: nat, ps: set<Pos>, h: Fs, own': map<nat, Owner>, k: Fs)
    requires Grown(g, own, i, ps, h, own') && WfFs(k) && SameShape(h, k) && i < |g.inodes|
    requires forall q :: ValidPos(q) ==> Addr(k, i, q) == Addr(h, i, q)
    requires k.inodes == h.inodes
    ensures SameShape(g, k)
    ensures forall q :: ValidPos(q) ==> Addr(k, i, q) == Addr(g, i, q) || Addr(g, i, q) == 0
  {
    hide Addr, SameBytes, OwnGrown, OwnedBy;
    forall q: Pos | ValidPos(q)
      ensures Addr(k, i, q) == Addr(g, i, q) || Addr(g, i, q) == 0
    {
      assert ValidRef(g, i, q);
    }
  }

  /** The bytes of one block of file i, from offset at on, are the file's bytes there. */
  lemma ReadChunk(f: Fs, own: map<nat, Owner>, i: nat, at: nat, m: nat)
    requires WfFs(f) && OwnedBy(f, own) && i < |f.inodes| && FileOk(f, i)
    requires at % BSIZE + m <= BSIZE && at + m <= f.inodes[i].size && 0 < m
    ensures at / BSIZE < MAXFILE
    ensures
      var a := Addr(f, i, PosOf(at / BSIZE));
      && 0 < a < |f.disk| && |f.disk[a]| == BSIZE
      && f.disk[a][at % BSIZE..at % BSIZE + m] == Contents(f, i)[at..at + m]
  {
    hide Addr, PosOf;
    assert at / BSIZE < BlocksFor(f.inodes[i].size);
    var a := Addr(f, i, PosOf(at / BSIZE));
    EnsuredOwned(f, own, i, PosOf(at / BSIZE));
    OwnedInRange(f, own, a);
    var x, c := f.disk[a][at % BSIZE..at % BSIZE + m], Contents(f, i)[at..at + m];
    forall k | 0 <= k < m
      ensures x[k] == c[k]
    {
      assert (at + k) / BSIZE == at / BSIZE && (at + k) % BSIZE == at % BSIZE + k;
    }
  }

  lemma SpliceSplice(c: seq<Byte>, off: nat, a: seq<Byte>, b: seq<Byte>)
    requires off <= |c|
    ensures off + |a| <= |Splice(c, off, a)|
    ensures Splice(Splice(c, off, a), off + |a|, b) == Splice(c, off, a + b)
  {
  }
}
