/** What any number of block allocations for one inode does to the whole file system. */
module FsGrow {
  import opened FsTree

  /** Position p with the index positions above it. */
  function Path(p: Pos): (s: set<Pos>)
    decreases Depth(p)
  {
    if IsRoot(p) then {p} else {p} + Path(Parent(p))
  }

  lemma Paths(i: nat, j: nat, k: nat)
    ensures Path(Direct(i)) == {Direct(i)}
    ensures Path(InSingle(k)) == {InSingle(k), Single}
    ensures Path(Leaf(j, k)) == {Leaf(j, k), Middle(j), Double}
  {
    assert Path(Single) == {Single} && Path(Double) == {Double};
    assert Path(Middle(j)) == {Middle(j), Double};
  }

  ghost predicate SameShape(f: Fs, g: Fs) {
    && |g.inodes| == |f.inodes| && |g.disk| == |f.disk|
    && forall j :: 0 <= j < |f.inodes| ==> g.inodes[j].size == f.inodes[j].size
  }

  /** Positions of inode i in ps may have received blocks; no other position changed. */
  ghost predicate AddrsGrown(f: Fs, i: nat, ps: set<Pos>, g: Fs)
    requires WfFs(f) && WfFs(g) && SameShape(f, g)
  {
    forall j, q :: ValidRef(f, j, q) ==>
      Addr(g, j, q) == Addr(f, j, q) || (j == i && q in ps && Addr(f, j, q) == 0)
  }

  ghost predicate OwnGrown(own: map<nat, Owner>, i: nat, ps: set<Pos>, own': map<nat, Owner>) {
    && (forall a :: a in own ==> a in own' && own'[a] == own[a])
    && forall a :: a in own' && a !in own ==> own'[a].inum == i && own'[a].pos in ps
  }

  ghost predicate SameBytes(f: Fs, g: Fs)
    requires WfFs(f) && WfFs(g) && SameShape(f, g)
  {
    forall j, o :: 0 <= j < |f.inodes| && 0 <= o < MAXFILE * BSIZE ==> RawByte(g, j, o) == RawByte(f, j, o)
  }

  ghost predicate Grown(f: Fs, own: map<nat, Owner>, i: nat, ps: set<Pos>, g: Fs, own': map<nat, Owner>) {
    && WfFs(f) && WfFs(g) && OwnedBy(f, own) && OwnedBy(g, own')
    && SameShape(f, g) && AddrsGrown(f, i, ps, g) && OwnGrown(own, i, ps, own') && SameBytes(f, g)
  }

  lemma GrownRefl(f: Fs, own: map<nat, Owner>, i: nat, ps: set<Pos>)
    requires WfFs(f) && OwnedBy(f, own)
    ensures Grown(f, own, i, ps, f, own)
  {
  }

  lemma GrownTrans(f: Fs, own: map<nat, Owner>, i: nat, ps: set<Pos>, g: Fs, own': map<nat, Owner>,
                   h: Fs, own'': map<nat, Owner>)
    requires Grown(f, own, i, ps, g, own') && Grown(g, own', i, ps, h, own'')
    ensures Grown(f, own, i, ps, h, own'')
  {
    hide Addr, RawByte, OwnedBy;
    assert SameShape(f, h);
    forall j: nat, q: Pos | ValidRef(f, j, q)
      ensures Addr(h, j, q) == Addr(f, j, q) || (j == i && q in ps && Addr(f, j, q) == 0)
    {
      assert ValidRef(g, j, q);
    }
  }

  lemma GrownWider(f: Fs, own: map<nat, Owner>, i: nat, ps: set<Pos>, qs: set<Pos>, g: Fs, own': map<nat, Owner>)
    requires Grown(f, own, i, ps, g, own') && ps <= qs
    ensures Grown(f, own, i, qs, g, own')
  {
    hide Addr, RawByte, OwnedBy, WfFs;
  }

  /** One allocation. */
  lemma LinkGrown(f: Fs, own: map<nat, Owner>, i: nat, p: Pos, a: nat)
    requires WfFs(f) && CanLink(f, own, i, p, a)
    ensures Grown(f, own, i, {p}, Link(f, i, p, a), own[a := Owner(i, p)])
  {
    hide Addr, RawByte, Link, OwnedBy;
    var g := Link(f, i, p, a);
    LinkWf(f, i, p, a);
    LinkOwned(f, own, i, p, a);
    forall j: nat, q: Pos | ValidRef(f, j, q)
      ensures Addr(g, j, q) == Addr(f, j, q) || (j == i && q in {p} && Addr(f, j, q) == 0)
    {
      LinkAddr(f, own, i, p, a, j, q);
    }
    forall j: nat, o: nat | j < |f.inodes| && o < MAXFILE * BSIZE
      ensures RawByte(g, j, o) == RawByte(f, j, o)
    {
      LinkRaw(f, own, i, p, a, j, o);
    }
  }

  /** The outcome of "if there is no block here, allocate one". */
  ghost predicate Ensured(f: Fs, own: map<nat, Owner>, i: nat, p: Pos, g: Fs, own': map<nat, Owner>, a: nat)
    requires WfFs(f) && ValidRef(f, i, p)
  {
    if Addr(f, i, p) != 0 then g == f && own' == own && a == Addr(f, i, p)
    else CanLink(f, own, i, p, a) && g == Link(f, i, p, a) && own' == own[a := Owner(i, p)]
  }

  lemma EnsuredGrown(f: Fs, own: map<nat, Owner>, i: nat, p: Pos, g: Fs, own': map<nat, Owner>, a: nat)
    requires WfFs(f) && OwnedBy(f, own) && ValidRef(f, i, p) && Ensured(f, own, i, p, g, own', a)
    ensures Grown(f, own, i, {p}, g, own') && ValidRef(g, i, p) && Addr(g, i, p) == a != 0
    ensures |own'| == |own| + if Addr(f, i, p) == 0 then 1 else 0
  {
    hide Addr, Link, OwnedBy;
    if Addr(f, i, p) != 0 {
      GrownRefl(f, own, i, {p});
    } else {
      LinkGrown(f, own, i, p, a);
      LinkAddr(f, own, i, p, a, i, p);
      assert own'.Keys == own.Keys + {a};
    }
  }

  /** A block can hang only below blocks that are there. */
  lemma {:induction false} AncestorsThere(f: Fs, i: nat, p: Pos, q: Pos)
    requires WfFs(f) && ValidRef(f, i, p) && Addr(f, i, p) != 0 && q in Path(p)
    ensures ValidPos(q) && Addr(f, i, q) != 0
    decreases Depth(p)
  {
    if q != p {
      AncestorsThere(f, i, Parent(p), q);
    }
  }
}
