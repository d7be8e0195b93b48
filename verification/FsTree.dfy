/**
 Inodes and their index trees on disk: eleven direct blocks, one block of block
 numbers, and one block of such blocks.  Index blocks and data blocks are the
 same disk blocks, read as little-endian words or as bytes.
 */
module FsTree {

  const BSIZE: nat := 512
  const NDIRECT: nat := 11
  const NINDIRECT: nat := 128
  const MAXFILE: nat := 16523
  const UINT: nat := 0x1_0000_0000

  type Byte = x: nat | x < 256
  type Block = seq<Byte>

  function ZeroBlock(): (b: Block)
    ensures |b| == BSIZE && forall k :: 0 <= k < BSIZE ==> b[k] == 0
  {
    seq(BSIZE, i => 0)
  }

  datatype Inode = Inode(addrs: seq<nat>, size: nat)

  /** A place in an inode's tree that holds a block number. */
  datatype Pos =
    | Direct(i: nat)
    | Single
    | Double
    | InSingle(k: nat)
    | Middle(k: nat)
    | Leaf(j: nat, k: nat)

  /** The mutable part of the file system that the block tree lives in. */
  datatype Fs = Fs(disk: seq<Block>, inodes: seq<Inode>)

  datatype Owner = Owner(inum: nat, pos: Pos)

  /** The k-th little-endian word of a block. */
  function Word(bl: Block, k: nat): (v: nat)
    requires 4 * k + 3 < |bl|
  {
    var b0: nat, b1: nat, b2: nat, b3: nat := bl[4 * k], bl[4 * k + 1], bl[4 * k + 2], bl[4 * k + 3];
    b0 + 0x100 * b1 + 0x1_0000 * b2 + 0x100_0000 * b3
  }

  function SetWord(bl: Block, k: nat, v: nat): (r: Block)
    requires 4 * k + 3 < |bl|
    ensures |r| == |bl|
  {
    bl[4 * k := v % 0x100][4 * k + 1 := v / 0x100 % 0x100][4 * k + 2 := v / 0x1_0000 % 0x100][4 * k + 3 := v / 0x100_0000 % 0x100]
  }

  /** A word is the sum of its four bytes. */
  lemma FourBytes(v: nat)
    requires v < UINT
    ensures v % 0x100 + 0x100 * (v / 0x100 % 0x100) + 0x1_0000 * (v / 0x1_0000 % 0x100) + 0x100_0000 * (v / 0x100_0000 % 0x100) == v
  {
    var a := v / 0x100;
    var b := a / 0x100;
    assert v / 0x1_0000 == b;
    assert v / 0x100_0000 == b / 0x100 < 0x100;
  }

  lemma SetWordBytes(bl: Block, k: nat, v: nat)
    requires 4 * k + 3 < |bl|
    ensures var r := SetWord(bl, k, v);
            && r[4 * k] == v % 0x100 && r[4 * k + 1] == v / 0x100 % 0x100
            && r[4 * k + 2] == v / 0x1_0000 % 0x100 && r[4 * k + 3] == v / 0x100_0000 % 0x100
  {
  }

  lemma SetWordSame(bl: Block, k: nat, v: nat)
    requires 4 * k + 3 < |bl| && v < UINT
    ensures Word(SetWord(bl, k, v), k) == v
  {
    hide SetWord;
    SetWordBytes(bl, k, v);
    FourBytes(v);
  }

  lemma SetWordOther(bl: Block, k: nat, v: nat, j: nat)
    requires 4 * k + 3 < |bl| && 4 * j + 3 < |bl| && j != k
    ensures Word(SetWord(bl, k, v), j) == Word(bl, j)
  {
  }

  lemma ZeroWord(k: nat)
    requires k < NINDIRECT
    ensures Word(ZeroBlock(), k) == 0
  {
  }

  predicate ValidPos(p: Pos) {
    match p
    case Direct(i) => i < NDIRECT
    case InSingle(k) => k < NINDIRECT
    case Middle(k) => k < NINDIRECT
    case Leaf(j, k) => j < NINDIRECT && k < NINDIRECT
    case _ => true
  }

  predicate IsRoot(p: Pos) {
    p.Direct? || p.Single? || p.Double?
  }

  /** Positions whose block holds file bytes; the others' blocks hold block numbers. */
  predicate IsData(p: Pos) {
    p.Direct? || p.InSingle? || p.Leaf?
  }

  function Slot(p: Pos): (i: nat)
    requires IsRoot(p)
  {
    match p
    case Direct(i) => i
    case Single => NDIRECT
    case Double => NDIRECT + 1
  }

  function Parent(p: Pos): (q: Pos)
    requires !IsRoot(p)
  {
    match p
    case InSingle(_) => Single
    case Middle(_) => Double
    case Leaf(j, _) => Middle(j)
  }

  function Index(p: Pos): (k: nat)
    requires !IsRoot(p)
  {
    p.k
  }

  function Depth(p: Pos): (n: nat) {
    if IsRoot(p) then 0 else if p.Leaf? then 2 else 1
  }

  predicate IsIndexBlock(fs: Fs, b: nat) {
    b != 0 && b < |fs.disk| && |fs.disk[b]| == BSIZE
  }

  /** The block number stored at position p of inode i; 0 when there is none. */
  function Addr(fs: Fs, i: nat, p: Pos): (a: nat)
    requires i < |fs.inodes| && |fs.inodes[i].addrs| == NDIRECT + 2 && ValidPos(p)
    decreases Depth(p)
  {
    if IsRoot(p) then fs.inodes[i].addrs[Slot(p)]
    else
      var b := Addr(fs, i, Parent(p));
      if IsIndexBlock(fs, b) then Word(fs.disk[b], Index(p)) else 0
  }

  /** Where bmap puts the bn-th block of a file. */
  function PosOf(bn: nat): (p: Pos)
    requires bn < MAXFILE
    ensures ValidPos(p) && IsData(p)
  {
    if bn < NDIRECT then Direct(bn)
    else if bn - NDIRECT < NINDIRECT then InSingle(bn - NDIRECT)
    else Leaf((bn - NDIRECT - NINDIRECT) / NINDIRECT, (bn - NDIRECT - NINDIRECT) % NINDIRECT)
  }

  /**
   The words on disk name block a as the bn-th block of inode i: one of the
   inode's first eleven, one of the 128 in the block that its twelfth names, or
   one of the 128 in a block that the block of its thirteenth names.
   */
  predicate Names(fs: Fs, i: nat, bn: nat, a: nat) {
    && i < |fs.inodes| && |fs.inodes[i].addrs| == 13
    && var w := fs.inodes[i].addrs;
    if bn < 11 then a == w[bn]
    else if bn < 11 + 128 then Listed(fs, w[11], bn - 11, a)
    else
      var m := bn - 11 - 128;
      m < 128 * 128 && exists c: nat | c < |fs.disk| :: Listed(fs, w[12], m / 128, c) && Listed(fs, c, m % 128, a)
  }

  /** Word k of disk block b is a. */
  predicate Listed(fs: Fs, b: nat, k: nat, a: nat) {
    0 < b < |fs.disk| && |fs.disk[b]| == 512 && k < 128 && Word(fs.disk[b], k) == a
  }

  /** A position's block is the one that the words name. */
  lemma AddrWords(fs: Fs, i: nat, bn: nat)
    requires WfFs(fs) && i < |fs.inodes| && bn < MAXFILE && Addr(fs, i, PosOf(bn)) != 0
    ensures Names(fs, i, bn, Addr(fs, i, PosOf(bn)))
  {
    hide Word;
    if bn >= 139 {
      var j := (bn - 139) / 128;
      assert Parent(PosOf(bn)) == Middle(j) && Parent(Middle(j)) == Double;
      assert IsIndexBlock(fs, Addr(fs, i, Middle(j))) && IsIndexBlock(fs, Addr(fs, i, Double));
      assert Listed(fs, fs.inodes[i].addrs[12], j, Addr(fs, i, Middle(j)));
    } else if bn >= 11 {
      assert Parent(PosOf(bn)) == Single;
    }
  }

  /** The words name at most one block. */
  lemma NamesOne(fs: Fs, i: nat, bn: nat, a: nat, b: nat)
    requires Names(fs, i, bn, a) && Names(fs, i, bn, b)
    ensures a == b
  {
  }

  /** The file block number of a data position: the inverse of PosOf. */
  function BlockNo(p: Pos): (bn: nat)
    requires ValidPos(p) && IsData(p)
    ensures bn < MAXFILE
  {
    match p
    case Direct(i) => i
    case InSingle(k) => NDIRECT + k
    case Leaf(j, k) => NDIRECT + NINDIRECT + j * NINDIRECT + k
  }

  /** File block numbers below MAXFILE and data positions correspond one to one. */
  lemma PathsDistinct()
    ensures forall bn :: 0 <= bn < MAXFILE ==> BlockNo(PosOf(bn)) == bn
    ensures forall p :: ValidPos(p) && IsData(p) ==> PosOf(BlockNo(p)) == p
  {
  }

  ghost predicate WfFs(fs: Fs) {
    && |fs.disk| < UINT
    && (forall b :: 0 <= b < |fs.disk| ==> |fs.disk[b]| == BSIZE)
    && forall i :: 0 <= i < |fs.inodes| ==> |fs.inodes[i].addrs| == NDIRECT + 2
  }

  ghost predicate ValidRef(fs: Fs, i: nat, p: Pos) {
    i < |fs.inodes| && ValidPos(p)
  }

  /** own says who owns each allocated block: exactly one position of exactly one inode. */
  ghost predicate OwnedBy(fs: Fs, own: map<nat, Owner>)
    requires WfFs(fs)
  {
    && (forall i, p :: ValidRef(fs, i, p) && Addr(fs, i, p) != 0 ==>
          Addr(fs, i, p) in own && own[Addr(fs, i, p)] == Owner(i, p))
    && (forall a :: a in own ==>
          0 < a < |fs.disk| && ValidRef(fs, own[a].inum, own[a].pos) && Addr(fs, own[a].inum, own[a].pos) == a)
  }

  /** Position p of inode i can take a block: it has none, and the index block it lies in exists. */
  ghost predicate CanLink(fs: Fs, own: map<nat, Owner>, i: nat, p: Pos, a: nat)
    requires WfFs(fs)
  {
    && OwnedBy(fs, own)
    && ValidRef(fs, i, p) && Addr(fs, i, p) == 0
    && (!IsRoot(p) ==> Addr(fs, i, Parent(p)) != 0)
    && 0 < a < |fs.disk| && a !in own
  }

  /** Block a, zeroed, becomes the block of position p of inode i. */
  function Link(fs: Fs, i: nat, p: Pos, a: nat): (r: Fs)
    requires i < |fs.inodes| && |fs.inodes[i].addrs| == NDIRECT + 2 && ValidPos(p) && a < |fs.disk|
  {
    var z := fs.disk[a := ZeroBlock()];
    if IsRoot(p) then
      var ino := fs.inodes[i];
      Fs(z, fs.inodes[i := ino.(addrs := ino.addrs[Slot(p) := a])])
    else
      var b := Addr(fs, i, Parent(p));
      if b < |z| && |z[b]| == BSIZE then Fs(z[b := SetWord(z[b], Index(p), a)], fs.inodes) else Fs(z, fs.inodes)
  }

  lemma LinkWf(fs: Fs, i: nat, p: Pos, a: nat)
    requires WfFs(fs) && ValidRef(fs, i, p) && a < |fs.disk|
    ensures WfFs(Link(fs, i, p, a))
    ensures |Link(fs, i, p, a).disk| == |fs.disk| && |Link(fs, i, p, a).inodes| == |fs.inodes|
    ensures forall j :: 0 <= j < |fs.inodes| ==> Link(fs, i, p, a).inodes[j].size == fs.inodes[j].size
  {
    hide Addr, SetWord;
  }

  lemma SamePlace(p: Pos, q: Pos)
    requires !IsRoot(p) && !IsRoot(q) && Parent(p) == Parent(q) && Index(p) == Index(q)
    ensures p == q
  {
  }

  /** What Link does to the disk blocks: the new one, the index block above it, and no other. */
  lemma LinkBlocks(fs: Fs, own: map<nat, Owner>, i: nat, p: Pos, a: nat)
    requires WfFs(fs) && CanLink(fs, own, i, p, a)
    ensures Link(fs, i, p, a).disk[a] == ZeroBlock()
    ensures !IsRoot(p) ==>
              var b := Addr(fs, i, Parent(p));
              && b != a && IsIndexBlock(fs, b) && b in own && own[b] == Owner(i, Parent(p))
              && Link(fs, i, p, a).disk[b] == SetWord(fs.disk[b], Index(p), a)
    ensures forall c :: 0 <= c < |fs.disk| && c != a && (IsRoot(p) || c != Addr(fs, i, Parent(p))) ==>
              Link(fs, i, p, a).disk[c] == fs.disk[c]
  {
    hide Addr, SetWord;
  }

  /** Linking a block fills its own position and no other position of any inode. */
  lemma {:induction false} LinkAddr(fs: Fs, own: map<nat, Owner>, i: nat, p: Pos, a: nat, j: nat, q: Pos)
    requires WfFs(fs) && CanLink(fs, own, i, p, a) && ValidRef(fs, j, q)
    ensures WfFs(Link(fs, i, p, a)) && |Link(fs, i, p, a).inodes| == |fs.inodes|
    ensures Addr(Link(fs, i, p, a), j, q) == if (j, q) == (i, p) then a else Addr(fs, j, q)
    decreases Depth(q)
  {
    hide SetWord, Word;
    var r := Link(fs, i, p, a);
    LinkWf(fs, i, p, a);
    if !IsRoot(q) {
      LinkAddr(fs, own, i, p, a, j, Parent(q));
      LinkBlocks(fs, own, i, p, a);
      LinkWord(fs, own, i, p, a, j, q);
    }
  }

  lemma LinkWord(fs: Fs, own: map<nat, Owner>, i: nat, p: Pos, a: nat, j: nat, q: Pos)
    requires WfFs(fs) && CanLink(fs, own, i, p, a) && ValidRef(fs, j, q) && !IsRoot(q)
    requires var r := Link(fs, i, p, a); WfFs(r) && |r.inodes| == |fs.inodes| && |r.disk| == |fs.disk|
    requires Addr(Link(fs, i, p, a), j, Parent(q)) == if (j, Parent(q)) == (i, p) then a else Addr(fs, j, Parent(q))
    ensures Addr(Link(fs, i, p, a), j, q) == if (j, q) == (i, p) then a else Addr(fs, j, q)
  {
    hide SetWord, Word, Link;
    var r := Link(fs, i, p, a);
    LinkBlocks(fs, own, i, p, a);
    var b := Addr(fs, j, Parent(q));
    if (j, Parent(q)) == (i, p) {
      ZeroWord(Index(q));
      assert Addr(fs, j, q) == 0;
    } else if b != 0 && !IsRoot(p) && b == Addr(fs, i, Parent(p)) {
      assert own[b] == Owner(j, Parent(q)) == Owner(i, Parent(p));
      if Index(p) == Index(q) {
        SamePlace(p, q);
        SetWordSame(fs.disk[b], Index(p), a);
      } else {
        SetWordOther(fs.disk[b], Index(p), a, Index(q));
      }
    } else if b != 0 {
      assert b in own && b != a;
    }
  }

  lemma LinkOwned(fs: Fs, own: map<nat, Owner>, i: nat, p: Pos, a: nat)
    requires WfFs(fs) && CanLink(fs, own, i, p, a)
    ensures WfFs(Link(fs, i, p, a)) && OwnedBy(Link(fs, i, p, a), own[a := Owner(i, p)])
  {
    hide Link, Addr;
    LinkWf(fs, i, p, a);
    forall j: nat, q: Pos | ValidRef(fs, j, q)
      ensures Addr(Link(fs, i, p, a), j, q) == if (j, q) == (i, p) then a else Addr(fs, j, q)
    {
      LinkAddr(fs, own, i, p, a, j, q);
    }
  }

  /** The byte at offset o of file i, with blocks that are not there reading as zeros. */
  function RawByte(fs: Fs, i: nat, o: nat): (x: Byte)
    requires WfFs(fs) && i < |fs.inodes| && o < MAXFILE * BSIZE
  {
    var b := Addr(fs, i, PosOf(o / BSIZE));
    if IsIndexBlock(fs, b) then fs.disk[b][o % BSIZE] else 0
  }

  /** Allocation never changes what any file contains. */
  lemma LinkRaw(fs: Fs, own: map<nat, Owner>, i: nat, p: Pos, a: nat, j: nat, o: nat)
    requires WfFs(fs) && CanLink(fs, own, i, p, a) && j < |fs.inodes| && o < MAXFILE * BSIZE
    ensures WfFs(Link(fs, i, p, a)) && |Link(fs, i, p, a).inodes| == |fs.inodes|
    ensures RawByte(Link(fs, i, p, a), j, o) == RawByte(fs, j, o)
  {
    hide Link, Addr, SetWord, PosOf;
    LinkWf(fs, i, p, a);
    var q := PosOf(o / BSIZE);
    LinkAddr(fs, own, i, p, a, j, q);
    LinkBlocks(fs, own, i, p, a);
  }

  /** Storing new bytes in a data block leaves every tree as it is. */
  lemma {:induction false} StoreAddr(fs: Fs, own: map<nat, Owner>, a: nat, x: Block, j: nat, q: Pos)
    requires WfFs(fs) && OwnedBy(fs, own) && a in own && IsData(own[a].pos) && |x| == BSIZE && ValidRef(fs, j, q)
    ensures a < |fs.disk| && WfFs(fs.(disk := fs.disk[a := x]))
    ensures Addr(fs.(disk := fs.disk[a := x]), j, q) == Addr(fs, j, q)
    decreases Depth(q)
  {
    hide Word;
    if !IsRoot(q) {
      StoreAddr(fs, own, a, x, j, Parent(q));
    }
  }

  lemma StoreOwned(fs: Fs, own: map<nat, Owner>, a: nat, x: Block)
    requires WfFs(fs) && OwnedBy(fs, own) && a in own && IsData(own[a].pos) && |x| == BSIZE
    ensures a < |fs.disk| && WfFs(fs.(disk := fs.disk[a := x]))
    ensures OwnedBy(fs.(disk := fs.disk[a := x]), own)
  {
    hide Addr;
    var r := fs.(disk := fs.disk[a := x]);
    forall j: nat, q: Pos | ValidRef(fs, j, q)
      ensures Addr(r, j, q) == Addr(fs, j, q)
    {
      StoreAddr(fs, own, a, x, j, q);
    }
  }

  /** A data block's bytes are the bytes of one block of one file. */
  lemma StoreRaw(fs: Fs, own: map<nat, Owner>, a: nat, x: Block, j: nat, o: nat)
    requires WfFs(fs) && OwnedBy(fs, own) && a in own && IsData(own[a].pos) && |x| == BSIZE
    requires j < |fs.inodes| && o < MAXFILE * BSIZE
    ensures a < |fs.disk| && WfFs(fs.(disk := fs.disk[a := x]))
    ensures RawByte(fs.(disk := fs.disk[a := x]), j, o)
            == if own[a] == Owner(j, PosOf(o / BSIZE)) then x[o % BSIZE] else RawByte(fs, j, o)
  {
    hide Addr, PosOf;
    StoreAddr(fs, own, a, x, j, PosOf(o / BSIZE));
  }
}
