/** What freeing an inode's blocks position by position does to the free map and to the trees. */
module FsTrunc {
  import opened FsTree
  import opened FsBitmap

  /** Bit b of the free map is set exactly for the blocks before the data area and the owned ones. */
  ghost predicate BitsOk(bits: seq<bv8>, datastart: nat, size: nat, own: map<nat, Owner>) {
    && size <= 8 * |bits| && 0 < datastart <= size
    && (forall a :: a in own ==> datastart <= a < size)
    && forall b :: 0 <= b < size ==> (TestBit(bits, b) <==> b < datastart || b in own)
  }

  lemma BitsAfterAlloc(bits: seq<bv8>, datastart: nat, size: nat, own: map<nat, Owner>, a: nat, w: Owner)
    requires BitsOk(bits, datastart, size, own) && a < size && !TestBit(bits, a)
    ensures 0 < datastart <= a && a !in own
    ensures BitsOk(SetBit(bits, a), datastart, size, own[a := w])
  {
    hide TestBit, SetBit;
    forall b: nat | b < size
      ensures TestBit(SetBit(bits, a), b) <==> b < datastart || b in own[a := w]
    {
      SetBitAt(bits, a, b);
    }
  }

  lemma BitsAfterFree(bits: seq<bv8>, datastart: nat, size: nat, own: map<nat, Owner>, a: nat)
    requires BitsOk(bits, datastart, size, own) && a in own
    ensures a < size && TestBit(bits, a)
    ensures BitsOk(ClearBit(bits, a), datastart, size, own - {a})
  {
    hide TestBit, ClearBit;
    forall b: nat | b < size
      ensures TestBit(ClearBit(bits, a), b) <==> b < datastart || b in own - {a}
    {
      ClearBitAt(bits, a, b);
    }
  }

  /** The blocks inode i owns at the positions in done. */
  ghost function Gone(own: map<nat, Owner>, i: nat, done: set<Pos>): (s: set<nat>) {
    set b | b in own && own[b].inum == i && own[b].pos in done
  }

  /** Freeing the block of one more position. */
  lemma GoneMore(f: Fs, own: map<nat, Owner>, i: nat, done: set<Pos>, p: Pos)
    requires WfFs(f) && OwnedBy(f, own) && ValidRef(f, i, p) && p !in done
    ensures
      var a := Addr(f, i, p);
      if a == 0 then Gone(own, i, done + {p}) == Gone(own, i, done)
      else
        && a in own && a !in Gone(own, i, done)
        && Gone(own, i, done + {p}) == Gone(own, i, done) + {a}
        && own - Gone(own, i, done + {p}) == own - Gone(own, i, done) - {a}
  {
    hide Addr;
    var a := Addr(f, i, p);
    assert forall b :: b in own && own[b].inum == i && own[b].pos == p ==> b == a;
  }

  /** A block at a position in done is no longer allocated. */
  lemma GoneIsFree(f: Fs, own: map<nat, Owner>, i: nat, done: set<Pos>, p: Pos, bits: seq<bv8>, datastart: nat, size: nat)
    requires WfFs(f) && OwnedBy(f, own) && ValidRef(f, i, p) && p in done && Addr(f, i, p) != 0
    requires (forall a :: a in own ==> datastart <= a < size) && size <= 8 * |bits|
    requires BitsOk(bits, datastart, size, own - Gone(own, i, done))
    ensures Addr(f, i, p) < size && !TestBit(bits, Addr(f, i, p))
  {
    hide Addr, TestBit;
  }

  /** Positions 0 .. k - 1 of a row of positions. */
  ghost function Directs(k: nat): (s: set<Pos>) {
    set j | 0 <= j < k :: Direct(j)
  }

  ghost function Singles(k: nat): (s: set<Pos>) {
    set j | 0 <= j < k :: InSingle(j)
  }

  ghost function Middles(k: nat): (s: set<Pos>) {
    set j | 0 <= j < k :: Middle(j)
  }

  lemma RowsGrow(k: nat)
    ensures Directs(k + 1) == Directs(k) + {Direct(k)} && Direct(k) !in Directs(k)
    ensures Singles(k + 1) == Singles(k) + {InSingle(k)} && InSingle(k) !in Singles(k)
    ensures Middles(k + 1) == Middles(k) + {Middle(k)} && Middle(k) !in Middles(k)
  {
  }

  function Zeros(n: nat): (s: seq<nat>) {
    seq(n, i => 0)
  }

  /** Inode i emptied: no blocks, size zero. */
  function Emptied(f: Fs, i: nat): (g: Fs)
    requires i < |f.inodes|
  {
    f.(inodes := f.inodes[i := Inode(Zeros(NDIRECT + 2), 0)])
  }

  lemma {:induction false} EmptiedAddr(f: Fs, i: nat, j: nat, q: Pos)
    requires WfFs(f) && i < |f.inodes| && ValidRef(f, j, q)
    ensures WfFs(Emptied(f, i)) && Addr(Emptied(f, i), j, q) == if j == i then 0 else Addr(f, j, q)
    decreases Depth(q)
  {
    hide Word;
    if !IsRoot(q) {
      EmptiedAddr(f, i, j, Parent(q));
    }
  }

  /** The index block of the double-indirect root, if there is one, lists nothing. */
  ghost predicate DoubleEmpty(f: Fs, i: nat)
    requires WfFs(f) && i < |f.inodes|
  {
    forall j :: 0 <= j < NINDIRECT ==> Addr(f, i, Middle(j)) == 0
  }

  /** What itrunc reaches when the double-indirect tree is empty is all the inode owns. */
  lemma EmptiedOwned(f: Fs, own: map<nat, Owner>, i: nat)
    requires WfFs(f) && OwnedBy(f, own) && i < |f.inodes| && DoubleEmpty(f, i)
    ensures
      var done := Directs(NDIRECT) + Singles(NINDIRECT) + {Single, Double};
      && Gone(own, i, done) == (set b | b in own && own[b].inum == i)
      && WfFs(Emptied(f, i)) && OwnedBy(Emptied(f, i), own - Gone(own, i, done))
  {
    hide Addr;
    var done := Directs(NDIRECT) + Singles(NINDIRECT) + {Single, Double};
    forall b | b in own && own[b].inum == i
      ensures own[b].pos in done
    {
      DoneOrDouble(f, i, own[b].pos);
    }
    forall j: nat, q: Pos | ValidRef(f, j, q)
      ensures WfFs(Emptied(f, i)) && Addr(Emptied(f, i), j, q) == if j == i then 0 else Addr(f, j, q)
    {
      EmptiedAddr(f, i, j, q);
    }
  }

  lemma DoneOrDouble(f: Fs, i: nat, q: Pos)
    requires WfFs(f) && ValidRef(f, i, q) && Addr(f, i, q) != 0 && DoubleEmpty(f, i)
    ensures q in Directs(NDIRECT) + Singles(NINDIRECT) + {Single, Double}
  {
    hide Word;
  }
}
