/** How many blocks one chunk of filewrite allocates and logs. */
module FsBudget {
  import opened FsTree
  import opened FsGrow
  import opened FsWrite

  /** A set covered by the image of s under f is no larger than s. */
  lemma {:induction false} ImageSize<A, B>(s: set<A>, f: A -> B, t: set<B>)
    requires forall b :: b in t ==> exists a :: a in s && f(a) == b
    ensures |t| <= |s|
    decreases s
  {
    if t != {} {
      var b :| b in t;
      var a :| a in s && f(a) == b;
      ImageSize(s - {a}, f, t - {b});
    }
  }

  lemma SubsetSize<A>(s: set<A>, t: set<A>)
    requires s <= t
    ensures |s| <= |t|
  {
    ImageSize(t, x => x, s);
  }

  function Larger(a: nat, b: nat): (m: nat) {
    if a <= b then b else a
  }

  /**
   The set logged grew from l to l', and at each of the log_writes in between it
   held at most as many blocks as in the end; p and p' are the largest sizes it
   had at a log_write so far.
   */
  ghost predicate Peaked(l: set<Logged>, p: nat, l': set<Logged>, p': nat) {
    l <= l' && p' <= Larger(p, |l'|)
  }

  lemma PeakedTrans(l: set<Logged>, p: nat, l': set<Logged>, p': nat, l'': set<Logged>, p'': nat)
    requires Peaked(l, p, l', p') && Peaked(l', p', l'', p'')
    ensures Peaked(l, p, l'', p'')
  {
    SubsetSize(l', l'');
  }

  lemma PeakedNone(l: set<Logged>, p: nat)
    ensures Peaked(l, p, l, p)
  {
  }

  lemma PeakedMeans(l: set<Logged>, p: nat, l': set<Logged>, p': nat)
    requires Peaked(l, p, l', p')
    ensures l <= l' && p' <= Larger(p, |l'|)
  {
  }

  /** The blocks of a write are data, index and bitmap blocks. */
  lemma NoInodeLogged(f: Fs, own: map<nat, Owner>, i: nat, ps: set<Pos>, off: nat, data: seq<Byte>,
                      g: Fs, own': map<nat, Owner>, logs: set<Logged>, ib: Logged)
    requires Writing(f, own, i, ps, off, data, g, own', logs) && ib.InodeBlock?
    ensures ib !in logs
  {
  }

  /** The inode block is logged last, if at all. */
  lemma InodeLast(l: set<Logged>, p: nat, p': nat, ib: Logged, l': set<Logged>, p'': nat)
    requires ib !in l && p' <= Larger(p, |l|)
    requires (l' == l && p'' == p') || (l' == l + {ib} && p'' == Larger(p', |l|))
    ensures p'' <= Larger(p, |l' - {ib}|)
  {
    assert l' - {ib} == l;
  }

  /** A log_write of b. */
  lemma PeakedOne(l: set<Logged>, p: nat, b: Logged)
    ensures Peaked(l, p, l + {b}, Larger(p, |l|))
  {
    SubsetSize(l, l + {b});
  }

  ghost function Bitmaps(logs: set<Logged>): (s: set<Logged>) {
    set l | l in logs && l.BitmapBlock?
  }

  ghost function Plain(logs: set<Logged>): (s: set<Logged>) {
    set l | l in logs && !l.BitmapBlock?
  }

  /** Positions of the file blocks lo .. lo + k - 1. */
  ghost function DataOf(lo: nat, k: nat): (s: set<Pos>)
    requires lo + k <= MAXFILE
    decreases k
  {
    if k == 0 then {} else DataOf(lo, k - 1) + {PosOf(lo + k - 1)}
  }

  lemma {:induction false} DataOfSize(lo: nat, k: nat)
    requires lo + k <= MAXFILE
    ensures |DataOf(lo, k)| <= k
    ensures forall bn :: lo <= bn < lo + k ==> PosOf(bn) in DataOf(lo, k)
    decreases k
  {
    hide PosOf;
    if k > 0 {
      DataOfSize(lo, k - 1);
    }
  }

  /** Index positions above at most four consecutive file blocks. */
  ghost function IndexOf(lo: nat, hi: nat): (s: set<Pos>)
    requires lo < hi <= MAXFILE
  {
    var first := NDIRECT + NINDIRECT;
    if hi <= NDIRECT then {}
    else if hi <= first then {Single}
    else if lo < first then {Single, Double, Middle(0)}
    else {Double, Middle((lo - first) / NINDIRECT), Middle((hi - 1 - first) / NINDIRECT)}
  }

  lemma PathCovered(lo: nat, hi: nat, bn: nat)
    requires lo <= bn < hi <= MAXFILE && hi <= lo + 4
    ensures Path(PosOf(bn)) <= {PosOf(bn)} + IndexOf(lo, hi)
  {
    hide Path;
    var m := bn - NDIRECT - NINDIRECT;
    if bn < NDIRECT {
      Paths(bn, 0, 0);
    } else if bn < NDIRECT + NINDIRECT {
      Paths(0, 0, bn - NDIRECT);
    } else {
      Paths(0, m / NINDIRECT, m % NINDIRECT);
    }
  }

  lemma {:induction false} PathsCovered(lo: nat, hi: nat, k: nat)
    requires lo < hi <= MAXFILE && hi <= lo + 4 && lo + k <= hi
    ensures PathsOf(lo, lo + k) <= DataOf(lo, k) + IndexOf(lo, hi)
    decreases k
  {
    hide PosOf, Path, IndexOf;
    if k > 0 {
      PathsCovered(lo, hi, k - 1);
      PathCovered(lo, hi, lo + k - 1);
    }
  }

  lemma IndexOfSize(lo: nat, hi: nat)
    requires lo < hi <= MAXFILE && hi <= lo + 4
    ensures |IndexOf(lo, hi)| <= 3
  {
  }

  /** At most four data and three index blocks hang on the paths of a chunk. */
  lemma PathsOfSize(lo: nat, hi: nat)
    requires lo < hi <= MAXFILE && hi <= lo + 4
    ensures |PathsOf(lo, hi)| <= 7
  {
    hide PathsOf, IndexOf, DataOf;
    PathsCovered(lo, hi, hi - lo);
    DataOfSize(lo, hi - lo);
    IndexOfSize(lo, hi);
    SubsetSize(PathsOf(lo, hi), DataOf(lo, hi - lo) + IndexOf(lo, hi));
  }

  /** A chunk starts in or right after the file's blocks, and starts a new block only at a block boundary. */
  lemma ChunkShape(size: nat, off: nat, n: nat)
    requires off <= size && 0 < n <= CHUNK && off + n <= MAXFILE * BSIZE
    ensures
      var lo, hi := off / BSIZE, BlocksFor(off + n);
      lo < hi <= MAXFILE && hi <= lo + 4 && lo <= BlocksFor(size) && (hi == lo + 4 ==> lo < BlocksFor(size))
  {
  }

  /** The index positions of a chunk that may still be without a block. */
  ghost function NewIndex(lo: nat, hi: nat): (s: set<Pos>)
    requires lo < hi <= MAXFILE
  {
    var first := NDIRECT + NINDIRECT;
    if hi <= NDIRECT then {}
    else if hi <= first then {Single}
    else if lo <= first then {Double, Middle(0)}
    else {Middle((lo - first) / NINDIRECT), Middle((hi - 1 - first) / NINDIRECT)}
  }

  /** The block before the chunk is there, and so are the index blocks above it. */
  lemma OldIndex(f: Fs, i: nat, lo: nat, hi: nat, q: Pos)
    requires WfFs(f) && i < |f.inodes| && FileOk(f, i) && lo < hi <= MAXFILE && hi <= lo + 4
    requires lo <= BlocksFor(f.inodes[i].size)
    requires q in IndexOf(lo, hi) && q !in NewIndex(lo, hi)
    ensures ValidPos(q) && Addr(f, i, q) != 0
  {
    hide Addr, Path;
    var first := NDIRECT + NINDIRECT;
    assert lo > NDIRECT && Addr(f, i, PosOf(lo - 1)) != 0;
    var m := lo - 1 - first;
    if lo <= first {
      Paths(0, 0, lo - 1 - NDIRECT);
    } else {
      Paths(0, m / NINDIRECT, m % NINDIRECT);
    }
    AncestorsThere(f, i, PosOf(lo - 1), q);
  }

  /** The positions of ps that have no block. */
  ghost function Missing(f: Fs, i: nat, ps: set<Pos>): (s: set<Pos>)
    requires WfFs(f) && i < |f.inodes|
  {
    set q | q in ps && ValidPos(q) && Addr(f, i, q) == 0
  }

  /** At most five positions on the paths of a chunk are without a block: three data and two index. */
  lemma MissingFew(f: Fs, i: nat, off: nat, n: nat)
    requires WfFs(f) && i < |f.inodes| && FileOk(f, i)
    requires off <= f.inodes[i].size && 0 < n <= CHUNK && off + n <= MAXFILE * BSIZE
    ensures BlocksFor(off + n) <= MAXFILE
    ensures |Missing(f, i, PathsOf(off / BSIZE, BlocksFor(off + n)))| <= 5
  {
    hide Addr, Path, PathsOf, IndexOf, NewIndex, DataOf, PosOf;
    ChunkShape(f.inodes[i].size, off, n);
    var lo, hi := off / BSIZE, BlocksFor(off + n);
    var missing := Missing(f, i, PathsOf(lo, hi));
    PathsCovered(lo, hi, hi - lo);
    var d := if hi == lo + 4 then DataOf(lo + 1, 3) else DataOf(lo, hi - lo);
    DataOfSize(if hi == lo + 4 then lo + 1 else lo, if hi == lo + 4 then 3 else hi - lo);
    NewIndexSize(lo, hi);
    assert hi == lo + 4 ==> Addr(f, i, PosOf(lo)) != 0;
    forall q | q in missing
      ensures q in d + NewIndex(lo, hi)
    {
      if q in IndexOf(lo, hi) {
        if q !in NewIndex(lo, hi) {
          OldIndex(f, i, lo, hi, q);
        }
      } else {
        DataOfMember(lo, hi - lo, q);
        DataOfSize(lo, hi - lo);
      }
    }
    SubsetSize(missing, d + NewIndex(lo, hi));
  }

  lemma NewIndexSize(lo: nat, hi: nat)
    requires lo < hi <= MAXFILE && hi <= lo + 4
    ensures |NewIndex(lo, hi)| <= 2
  {
  }

  lemma {:induction false} DataOfMember(lo: nat, k: nat, q: Pos)
    requires lo + k <= MAXFILE && q in DataOf(lo, k)
    ensures exists bn :: lo <= bn < lo + k && q == PosOf(bn)
    decreases k
  {
    hide PosOf;
    if q != PosOf(lo + k - 1) {
      DataOfMember(lo, k - 1, q);
    }
  }

  lemma NewBlockWasMissing(f: Fs, own: map<nat, Owner>, i: nat, ps: set<Pos>, g: Fs, own': map<nat, Owner>, logs: set<Logged>, a: nat)
    requires Growing(f, own, i, ps, g, own', logs) && a in own' && a !in own
    ensures ValidPos(own'[a].pos) && Addr(g, i, own'[a].pos) == a && own'[a].pos in Missing(f, i, ps)
  {
    hide Addr, LogsOk;
    var q := own'[a].pos;
    assert ValidRef(g, i, q) && ValidRef(f, i, q);
  }

  /** New blocks fill distinct positions that had none. */
  lemma NewBlocksFew(f: Fs, own: map<nat, Owner>, i: nat, ps: set<Pos>, g: Fs, own': map<nat, Owner>, logs: set<Logged>)
    requires Growing(f, own, i, ps, g, own', logs)
    ensures |own'.Keys - own.Keys| <= |Missing(f, i, ps)|
  {
    hide Addr, LogsOk, Missing, OwnedBy;
    var addr := (q: Pos) => if ValidPos(q) then Addr(g, i, q) else 0;
    forall a | a in own'.Keys - own.Keys
      ensures exists q :: q in Missing(f, i, ps) && addr(q) == a
    {
      NewBlockWasMissing(f, own, i, ps, g, own', logs, a);
      assert addr(own'[a].pos) == a;
    }
    ImageSize(Missing(f, i, ps), addr, own'.Keys - own.Keys);
  }

  lemma DataLogsFew(f: Fs, own: map<nat, Owner>, i: nat, ps: set<Pos>, g: Fs, own': map<nat, Owner>, logs: set<Logged>)
    requires Growing(f, own, i, ps, g, own', logs)
    ensures |Plain(logs)| <= |ps|
  {
    hide Addr, OwnedBy;
    var plain := Plain(logs);
    var block := (q: Pos) => if ValidPos(q) then DataBlock(Addr(g, i, q)) else InodeBlock(0);
    forall l | l in plain
      ensures exists q :: q in ps && block(q) == l
    {
      var q :| q in ps && ValidPos(q) && Addr(g, i, q) == l.b;
      assert block(q) == l;
    }
    ImageSize(ps, block, plain);
  }

  lemma BitmapLogsFew(f: Fs, own: map<nat, Owner>, i: nat, ps: set<Pos>, g: Fs, own': map<nat, Owner>, logs: set<Logged>)
    requires Growing(f, own, i, ps, g, own', logs)
    ensures |Bitmaps(logs)| <= |own'.Keys - own.Keys|
  {
    var bitmap := Bitmaps(logs);
    var block := (c: nat) => BitmapBlock(c / BPB);
    forall l | l in bitmap
      ensures exists c :: c in own'.Keys - own.Keys && block(c) == l
    {
      var c :| c in own' && c !in own && c / BPB == l.k;
      assert c in own'.Keys - own.Keys && block(c) == l;
    }
    ImageSize(own'.Keys - own.Keys, block, bitmap);
  }

  /**
   What one chunk of filewrite may log: at most eight blocks besides bitmap
   blocks, at most five bitmap blocks, and within MAXOPBLOCKS whenever the new
   blocks lie in at most two bitmap blocks.  Then, too, each log_write finds
   fewer than MAXOPBLOCKS blocks logged, although some blocks are logged again.
   */
  ghost predicate TxFits(tx: Tx) {
    && |Plain(tx.logs)| <= 8
    && |Bitmaps(tx.logs)| <= 5
    && (|Bitmaps(tx.logs)| <= 2 ==> |tx.logs| <= MAXOPBLOCKS && tx.peak < MAXOPBLOCKS)
  }

  /** A transaction's blocks, and the most that were logged at the start of a log_write. */
  datatype Tx = Tx(logs: set<Logged>, peak: nat)

  lemma ChunkFits(f: Fs, own: map<nat, Owner>, i: nat, off: nat, n: nat, g: Fs, own': map<nat, Owner>, tx: Tx)
    requires WfFs(f) && i < |f.inodes| && FileOk(f, i)
    requires off <= f.inodes[i].size && 0 < n <= CHUNK && off + n <= MAXFILE * BSIZE && BlocksFor(off + n) <= MAXFILE
    requires Growing(f, own, i, PathsOf(off / BSIZE, BlocksFor(off + n)), g, own', tx.logs - {InodeBlock(i / IPB)})
    requires tx.peak <= |tx.logs - {InodeBlock(i / IPB)}|
    ensures TxFits(tx)
  {
    hide Growing, PathsOf, FileOk, Addr, Plain, Bitmaps, Missing, TxFits;
    var logs := tx.logs - {InodeBlock(i / IPB)};
    ChunkBudget(f, own, i, off, n, g, own', logs);
    BitmapLogsFew(f, own, i, PathsOf(off / BSIZE, BlocksFor(off + n)), g, own', logs);
    WithInode(logs, InodeBlock(i / IPB), tx);
  }

  lemma WithInode(logs: set<Logged>, ib: Logged, tx: Tx)
    requires ib.InodeBlock? && logs == tx.logs - {ib} && tx.peak <= |logs|
    requires |Plain(logs)| <= 7 && |Bitmaps(logs)| <= 5
    ensures TxFits(tx)
  {
    var plain, bitmap := Plain(logs), Bitmaps(logs);
    assert bitmap == Bitmaps(tx.logs) && logs == plain + bitmap;
    SubsetSize(Plain(tx.logs), plain + {ib});
    SubsetSize(tx.logs, logs + {ib});
  }

  /**
   One chunk of filewrite, with logs its log_writes besides the inode block: it
   allocates at most five blocks and logs at most seven data and index blocks,
   so with the inode block and at most two bitmap blocks it stays within the
   MAXOPBLOCKS that begin_op reserved.
   */
  lemma ChunkBudget(f: Fs, own: map<nat, Owner>, i: nat, off: nat, n: nat, g: Fs, own': map<nat, Owner>, logs: set<Logged>)
    requires WfFs(f) && i < |f.inodes| && FileOk(f, i)
    requires off <= f.inodes[i].size && 0 < n <= CHUNK && off + n <= MAXFILE * BSIZE && BlocksFor(off + n) <= MAXFILE
    requires Growing(f, own, i, PathsOf(off / BSIZE, BlocksFor(off + n)), g, own', logs)
    ensures |own'.Keys - own.Keys| <= 5
    ensures |Plain(logs)| <= 7
    ensures |Bitmaps(logs)| <= 2 ==> |logs + {InodeBlock(i / IPB)}| <= MAXOPBLOCKS
  {
    hide Growing, PathsOf, FileOk, Addr, Missing;
    ChunkShape(f.inodes[i].size, off, n);
    var ps := PathsOf(off / BSIZE, BlocksFor(off + n));
    PathsOfSize(off / BSIZE, BlocksFor(off + n));
    MissingFew(f, i, off, n);
    NewBlocksFew(f, own, i, ps, g, own', logs);
    DataLogsFew(f, own, i, ps, g, own', logs);
    var plain, bitmap := Plain(logs), Bitmaps(logs);
    assert logs == plain + bitmap;
  }
}
