/**
 Files as their users see them, over any sequence of writes, reads and
 truncations of any files: flat byte strings, one per inode.
 */
module FsRuns {
  import opened FsTree
  import opened FsWrite
  import opened FsTrunc
  import opened FsCode

  datatype FileOp = Put(i: nat, src: seq<Byte>, off: nat) | Get(i: nat, off: nat, n: nat) | Cut(i: nat)

  datatype FileReply = Count(r: int) | Bytes(r: int, dst: seq<Byte>) | Emptied

  /** The reference: one byte string for each inode. */
  type Flat = seq<seq<Byte>>

  predicate Refused(c: seq<Byte>, off: nat, n: nat) {
    off > |c| || off + n >= UINT || off + n > MAXFILE * BSIZE
  }

  function FlatNext(s: Flat, op: FileOp): (r: Flat)
    requires op.i < |s|
    ensures |r| == |s|
  {
    match op
    case Put(i, src, off) => if Refused(s[i], off, |src|) then s else s[i := Splice(s[i], off, src)]
    case Get(_, _, _) => s
    case Cut(i) => s[i := []]
  }

  function FlatReply(s: Flat, op: FileOp): (r: FileReply)
    requires op.i < |s|
  {
    match op
    case Put(i, src, off) => if Refused(s[i], off, |src|) then Count(-1) else Count(|src|)
    case Get(i, off, n) =>
      if off > |s[i]| || off + n >= UINT then Bytes(-1, [])
      else if off + n > |s[i]| then Bytes(|s[i]| - off, s[i][off..])
      else Bytes(n, s[i][off..off + n])
    case Cut(_) => Emptied
  }

  /** s answers the operations with the replies, one after the other, and ends as s'. */
  ghost predicate FlatRun(s: Flat, ops: seq<FileOp>, rs: seq<FileReply>, s': Flat)
    decreases |ops|
  {
    if ops == [] then rs == [] && s' == s
    else
      && rs != [] && ops[|ops| - 1].i < |s| && |rs| == |ops|
      && exists m: Flat ::
           && |m| == |s| && FlatRun(s, ops[..|ops| - 1], rs[..|ops| - 1], m)
           && rs[|ops| - 1] == FlatReply(m, ops[|ops| - 1]) && s' == FlatNext(m, ops[|ops| - 1])
  }

  /** What was just written is read back, and reads of other files do not notice. */
  lemma ReadBack(s: Flat, i: nat, src: seq<Byte>, off: nat, get: FileOp)
    requires i < |s| && !Refused(s[i], off, |src|) && get.Get? && get.i < |s|
    ensures var t := FlatNext(s, Put(i, src, off));
            && FlatReply(t, Get(i, off, |src|)) == Bytes(|src|, src)
            && (get.i != i ==> FlatReply(t, get) == FlatReply(s, get))
            && (get.i == i && get.off + get.n <= off ==> FlatReply(t, get) == FlatReply(s, get))
  {
    var c, t := s[i], Splice(s[i], off, src);
    assert t[off..off + |src|] == src;
    if get.i == i && get.off + get.n <= off {
      assert t[get.off..get.off + get.n] == c[get.off..get.off + get.n];
    }
  }

  lemma FlatMore(s: Flat, ops: seq<FileOp>, rs: seq<FileReply>, m: Flat, op: FileOp, r: FileReply, s': Flat)
    requires |rs| == |ops| && |m| == |s| && FlatRun(s, ops, rs, m) && op.i < |s| && r == FlatReply(m, op) && s' == FlatNext(m, op)
    ensures FlatRun(s, ops + [op], rs + [r], s')
  {
    hide FlatReply, FlatNext;
    assert (ops + [op])[..|ops|] == ops && (rs + [r])[..|ops|] == rs;
  }

  ghost function FlatOf(f: Fs): (s: Flat)
    requires WfFs(f)
    ensures |s| == |f.inodes| && forall i :: 0 <= i < |s| ==> s[i] == Contents(f, i) && |s[i]| == f.inodes[i].size
  {
    seq(|f.inodes|, i requires 0 <= i < |f.inodes| => Contents(f, i))
  }

  // Truncation leaves the other files alone.

  lemma {:induction false} AddrSame(f: Fs, g: Fs, j: nat, p: Pos)
    requires j < |f.inodes| && j < |g.inodes| && |f.inodes[j].addrs| == NDIRECT + 2 && ValidPos(p)
    requires g.disk == f.disk && g.inodes[j] == f.inodes[j]
    ensures Addr(g, j, p) == Addr(f, j, p)
    decreases Depth(p)
  {
    if !IsRoot(p) {
      AddrSame(f, g, j, Parent(p));
    }
  }

  lemma CutOther(f: Fs, g: Fs, i: nat, j: nat)
    requires WfFs(f) && WfFs(g) && i < |f.inodes| && j < |f.inodes| && j != i && FileOk(f, j)
    requires g.disk == f.disk && |g.inodes| == |f.inodes| && g.inodes[j] == f.inodes[j]
    ensures FileOk(g, j) && Contents(g, j) == Contents(f, j)
  {
    hide Addr, PosOf;
    forall bn: nat | bn < MAXFILE
      ensures Addr(g, j, PosOf(bn)) == Addr(f, j, PosOf(bn))
    {
      AddrSame(f, g, j, PosOf(bn));
    }
    forall o: nat | o < MAXFILE * BSIZE
      ensures RawByte(g, j, o) == RawByte(f, j, o)
    {
      AddrSame(f, g, j, PosOf(o / BSIZE));
    }
  }

  lemma CutFlat(f: Fs, g: Fs, i: nat)
    requires WfFs(f) && WfFs(g) && FilesOk(f) && i < |f.inodes|
    requires g.disk == f.disk && g.inodes == f.inodes[i := Inode(Zeros(NDIRECT + 2), 0)]
    ensures FilesOk(g) && FlatOf(g) == FlatOf(f)[i := []]
  {
    hide Addr, PosOf, Contents, FileOk, WfFs;
    CutSelf(g, i);
    forall j | 0 <= j < |g.inodes|
      ensures FileOk(g, j) && Contents(g, j) == if j == i then [] else Contents(f, j)
    {
      if j != i {
        CutOther(f, g, i, j);
      }
    }
  }

  lemma CutSelf(g: Fs, i: nat)
    requires WfFs(g) && i < |g.inodes| && g.inodes[i].size == 0
    ensures FileOk(g, i) && Contents(g, i) == []
  {
  }

  /** The operation names an inode, and its numbers are 32-bit. */
  predicate Plain(op: FileOp, inodes: nat) {
    op.i < inodes && (op.Put? ==> op.off < UINT && |op.src| < UINT) && (op.Get? ==> op.off < UINT && op.n < UINT)
  }

  /** One operation by writei, readi or itrunc; ok is false when the kernel panics. */
  method Serve(fs: FileSystem, op: FileOp) returns (ok: bool, r: FileReply)
    requires fs.Valid() && FilesOk(fs.Snap()) && Plain(op, |fs.inodes|)
    modifies fs
    ensures ok ==> fs.Valid() && FilesOk(fs.Snap()) && |fs.inodes| == |old(fs.inodes)|
    ensures WfFs(old(fs.Snap()))
    ensures ok ==> FlatOf(fs.Snap()) == FlatNext(FlatOf(old(fs.Snap())), op) && r == FlatReply(FlatOf(old(fs.Snap())), op)
    ensures !ok ==> (op.Put? && fs.Full()) || op.Cut?
    ensures op.Cut? ==> (ok <==> DoubleEmpty(old(fs.Snap()), op.i))
  {
    hide OwnedBy, FilesOk, Contents, Growing, PathsOf, DoubleEmpty, Addr;
    ghost var f := fs.Snap();
    var n: int;
    match op {
      case Put(i, src, off) =>
        ok, n := fs.Writei(i, src, off);
        r := Count(n);
      case Get(i, off, len) =>
        var dst: seq<Byte>;
        ok, n, dst := fs.Readi(i, off, len);
        r := Bytes(n, dst);
      case Cut(i) =>
        ok := fs.Itrunc(i);
        r := Emptied;
        if ok {
          CutFlat(f, fs.Snap(), i);
        }
    }
  }

  /**
   Any sequence of writes, reads and truncations, of any files, until the
   kernel panics: every reply, so every byte read back, is the one that flat
   files give.  It panics only for want of a free block, or in itrunc where
   Itrunc says.
   */
  method ServeAll(fs: FileSystem, ops: seq<FileOp>) returns (rs: seq<FileReply>, ghost last: Flat)
    requires fs.Valid() && FilesOk(fs.Snap()) && forall k :: 0 <= k < |ops| ==> Plain(ops[k], |fs.inodes|)
    modifies fs
    ensures WfFs(old(fs.Snap())) && |rs| <= |ops| && FlatRun(FlatOf(old(fs.Snap())), ops[..|rs|], rs, last)
    ensures |rs| == |ops| ==> fs.Valid() && FilesOk(fs.Snap()) && last == FlatOf(fs.Snap())
    ensures |rs| < |ops| ==> (ops[|rs|].Put? && fs.Full()) || ops[|rs|].Cut?
  {
    hide OwnedBy, FilesOk, FlatRun, FlatNext, FlatReply, DoubleEmpty;
    ghost var s := FlatOf(fs.Snap());
    rs, last := [], s;
    assert FlatRun(s, [], [], s) by {
      FlatNone(s);
    }
    while |rs| < |ops|
      invariant fs.Valid() && FilesOk(fs.Snap()) && |fs.inodes| == |old(fs.inodes)| && |rs| <= |ops|
      invariant last == FlatOf(fs.Snap()) && FlatRun(s, ops[..|rs|], rs, last)
    {
      var op := ops[|rs|];
      var ok, r := Serve(fs, op);
      if !ok {
        return;
      }
      ghost var was := last;
      last := FlatOf(fs.Snap());
      FlatMore(s, ops[..|rs|], rs, was, op, r, last);
      assert ops[..|rs|] + [op] == ops[..|rs| + 1];
      rs := rs + [r];
    }
  }

  lemma FlatNone(s: Flat)
    ensures FlatRun(s, [], [], s)
  {
  }
}
