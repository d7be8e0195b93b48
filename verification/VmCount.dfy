/** How many frames an operation needs: counting the frames that enter a directory by what they are there for. */
module VmCount {
  import opened VmTree
  import opened VmMoves

  // Sets and their sizes.

  ghost function Image(s: set<nat>, own: map<nat, Owner>, page: bool): (r: set<nat>)
    requires forall f :: f in s ==> f in own && if page then own[f].PageOf? else own[f].TableOf?
  {
    set f | f in s :: if page then own[f].v else own[f].i
  }

  /** Distinct frames with distinct places: as many places as frames. */
  lemma {:induction false} ImageCount(s: set<nat>, own: map<nat, Owner>, page: bool)
    requires forall f :: f in s ==> f in own && if page then own[f].PageOf? else own[f].TableOf?
    requires forall f, g :: f in s && g in s && own[f] == own[g] ==> f == g
    requires forall f, g :: f in s && g in s ==> own[f].d == own[g].d
    ensures |Image(s, own, page)| == |s|
    decreases |s|
  {
    if s == {} {
      assert Image(s, own, page) == {};
    } else {
      var x :| x in s;
      var rest, k := s - {x}, if page then own[x].v else own[x].i;
      ImageCount(rest, own, page);
      assert Image(s, own, page) == Image(rest, own, page) + {k};
      assert k !in Image(rest, own, page);
      assert |s| == |rest| + 1;
    }
  }

  lemma SubsetCount(a: set<nat>, b: set<nat>)
    requires a <= b
    ensures |a| <= |b|
  {
    assert b == a + (b - a);
  }

  lemma StrictCount(a: set<nat>, b: set<nat>, x: nat)
    requires a <= b && x in b && x !in a
    ensures |a| < |b|
  {
    SubsetCount(a + {x}, b);
  }

  ghost function Range(lo: nat, hi: nat): (s: set<nat>)
    ensures forall i :: i in s <==> lo <= i < hi
    decreases hi
  {
    if lo < hi then Range(lo, hi - 1) + {hi - 1} else {}
  }

  lemma {:induction false} RangeCount(lo: nat, hi: nat)
    requires lo <= hi
    ensures |Range(lo, hi)| == hi - lo
    decreases hi - lo
  {
    if lo < hi {
      RangeCount(lo, hi - 1);
    }
  }

  // Frames on hand.

  lemma FrameSum(all: set<nat>, free: seq<nat>, own: map<nat, Owner>, loose: set<nat>)
    requires Balance(all, free, own, loose)
    ensures |free| + |own| + |loose| == |all|
  {
    SeqSet(free);
    var a, b := AsSet(free), own.Keys;
    assert all == a + b + loose;
    assert a !! b && (a + b) !! loose;
  }

  // Frames that are new since own0.

  ghost function NewFrames(own0: map<nat, Owner>, own: map<nat, Owner>, page: bool): (s: set<nat>) {
    set f | f in own && f !in own0 && if page then own[f].PageOf? else own[f].TableOf?
  }

  ghost function NewTables(own0: map<nat, Owner>, own: map<nat, Owner>): (s: set<nat>) {
    Image(NewFrames(own0, own, false), own, false)
  }

  ghost function NewPages(own0: map<nat, Owner>, own: map<nat, Owner>): (s: set<nat>) {
    Image(NewFrames(own0, own, true), own, true)
  }

  /** Everything new belongs to directory d. */
  ghost predicate AllFor(own0: map<nat, Owner>, own: map<nat, Owner>, d: nat) {
    && (forall f :: f in own0 ==> f in own)
    && (forall f :: f in own && f !in own0 ==> Belongs(own, d, f))
  }

  /** A place has one frame. */
  lemma OneFrame(mem: Mem, own: map<nat, Owner>, f: nat, g: nat)
    requires Owned(mem, own) && f in own && g in own && own[f] == own[g] && !own[f].DirOf?
    ensures f == g
  {
    hide Owned, Entry, Slot;
    OwnedAt(mem, own, f);
    OwnedAt(mem, own, g);
  }

  lemma PartNew(own0: map<nat, Owner>, own: map<nat, Owner>, d: nat)
    requires AllFor(own0, own, d) && IsDir(own, d)
    ensures own.Keys == own0.Keys + NewFrames(own0, own, false) + NewFrames(own0, own, true) + if d in own0 then {} else {d}
  {
  }

  /** The new frames, counted by their places. */
  lemma CountNew(mem: Mem, own0: map<nat, Owner>, own: map<nat, Owner>, d: nat)
    requires Owned(mem, own) && AllFor(own0, own, d) && IsDir(own, d)
    ensures |own| == |own0| + |NewTables(own0, own)| + |NewPages(own0, own)| + if d in own0 then 0 else 1
  {
    hide Owned, Belongs, Image;
    var t, p, r := NewFrames(own0, own, false), NewFrames(own0, own, true), if d in own0 then {} else {d};
    forall f, g | f in own && g in own && own[f] == own[g] && !own[f].DirOf?
      ensures f == g
    {
      OneFrame(mem, own, f, g);
    }
    SameDir(own0, own, d, false);
    SameDir(own0, own, d, true);
    ImageCount(t, own, false);
    ImageCount(p, own, true);
    PartNew(own0, own, d);
    assert own0.Keys !! t && (own0.Keys + t) !! p && (own0.Keys + t + p) !! r;
    assert |own.Keys| == |own0.Keys| + |t| + |p| + |r|;
  }

  lemma SameDir(own0: map<nat, Owner>, own: map<nat, Owner>, d: nat, page: bool)
    requires AllFor(own0, own, d)
    ensures forall f :: f in NewFrames(own0, own, page) ==> own[f].d == d
  {
  }

  lemma NewTableAt(own0: map<nat, Owner>, own: map<nat, Owner>, i: nat)
    ensures i in NewTables(own0, own) <==> exists f :: f in own && f !in own0 && own[f].TableOf? && own[f].i == i
  {
    if f :| f in own && f !in own0 && own[f].TableOf? && own[f].i == i {
      assert f in NewFrames(own0, own, false);
    }
  }

  lemma NewPageAt(own0: map<nat, Owner>, own: map<nat, Owner>, v: nat)
    ensures v in NewPages(own0, own) <==> exists f :: f in own && f !in own0 && own[f].PageOf? && own[f].v == v
  {
    if f :| f in own && f !in own0 && own[f].PageOf? && own[f].v == v {
      assert f in NewFrames(own0, own, true);
    }
  }

  // Growing a directory by the pages lo .. hi - 1.

  /** One past the index of the table of page hi - 1. */
  function TableEnd(lo: nat, hi: nat): (e: nat) {
    if hi <= lo then lo / NPT else (hi - 1) / NPT + 1
  }

  /** The page tables for pages lo .. hi - 1 that d does not have. */
  ghost function WantedTables(mem: Mem, d: nat, lo: nat, hi: nat): (s: set<nat>) {
    set i | i in Range(lo / NPT, TableEnd(lo, hi)) && Slot(mem, d, i) == NoPte
  }

  /** A frame for each page and for each missing table. */
  ghost function GrowthNeeds(mem: Mem, d: nat, lo: nat, hi: nat): (n: int) {
    hi - lo + |WantedTables(mem, d, lo, hi)|
  }

  /** The new tables are for these indices. */
  ghost predicate TablesIn(own0: map<nat, Owner>, own: map<nat, Owner>, lo: nat, end: nat) {
    forall f :: f in own && f !in own0 && own[f].TableOf? ==> lo <= own[f].i < end
  }

  lemma NoNewTables(own: map<nat, Owner>, lo: nat)
    ensures TablesIn(own, own, lo / NPT, TableEnd(lo, lo))
  {
  }

  lemma TablesWiden(own0: map<nat, Owner>, own: map<nat, Owner>, lo: nat, a: nat, hi: nat)
    requires TablesIn(own0, own, lo / NPT, TableEnd(lo, a)) && lo <= a <= hi
    ensures TablesIn(own0, own, lo / NPT, TableEnd(lo, hi))
  {
    assert TableEnd(lo, a) <= TableEnd(lo, hi);
  }

  lemma TablesMore(own0: map<nat, Owner>, own1: map<nat, Owner>, own: map<nat, Owner>, lo: nat, a: nat)
    requires TablesIn(own0, own1, lo / NPT, TableEnd(lo, a)) && TablesIn(own1, own, a / NPT, a / NPT + 1) && lo <= a
    requires forall f :: f in own1 ==> f in own && own[f] == own1[f]
    ensures TablesIn(own0, own, lo / NPT, TableEnd(lo, a + 1))
  {
    assert lo / NPT <= a / NPT && TableEnd(lo, a) <= a / NPT + 1 == TableEnd(lo, a + 1);
  }

  /** A table that is there stays there, and a new one was not there before. */
  lemma TableThen(mem0: Mem, own0: map<nat, Owner>, mem: Mem, own: map<nat, Owner>, d: nat, i: nat)
    requires Owned(mem0, own0) && Owned(mem, own) && IsDir(own0, d) && i < NPT && AllFor(own0, own, d)
    requires forall f :: f in own0 ==> f in own && own[f] == own0[f]
    ensures Slot(mem0, d, i).Pte? ==> Slot(mem, d, i).Pte?
    ensures i in NewTables(own0, own) <==> Slot(mem0, d, i) == NoPte && Slot(mem, d, i).Pte?
  {
    hide Owned, Entry, Slot, NewTables;
    NewTableAt(own0, own, i);
    if Slot(mem0, d, i).Pte? {
      OwnedSlot(mem0, own0, d, i);
      OwnedAt(mem, own, Slot(mem0, d, i).frame);
    }
    if Slot(mem, d, i).Pte? {
      OwnedSlot(mem, own, d, i);
      var f := Slot(mem, d, i).frame;
      if f in own0 {
        OwnedAt(mem0, own0, f);
      }
    }
    forall f | f in own && f !in own0 && own[f].TableOf? && own[f].i == i
      ensures Slot(mem, d, i).Pte? && Slot(mem, d, i).frame == f
    {
      OwnedAt(mem, own, f);
    }
  }

  lemma SpreadAllFor(mem0: Mem, own0: map<nat, Owner>, d: nat, lo: nat, hi: nat, mem: Mem, own: map<nat, Owner>)
    requires Spread(mem0, own0, d, lo, hi, mem, own)
    ensures AllFor(own0, own, d) && forall f :: f in own0 ==> f in own && own[f] == own0[f]
    ensures forall f :: f in own && f !in own0 && own[f].PageOf? ==> lo <= own[f].v < hi
  {
    hide Entry;
  }

  lemma NewPagesWithin(own0: map<nat, Owner>, own: map<nat, Owner>, lo: nat, hi: nat)
    requires lo <= hi && forall f :: f in own && f !in own0 && own[f].PageOf? ==> lo <= own[f].v < hi
    ensures NewPages(own0, own) <= Range(lo, hi) && |NewPages(own0, own)| <= hi - lo
  {
    forall v | v in NewPages(own0, own)
      ensures v in Range(lo, hi)
    {
      NewPageAt(own0, own, v);
    }
    RangeCount(lo, hi);
    SubsetCount(NewPages(own0, own), Range(lo, hi));
  }

  lemma NewTablesWithin(mem0: Mem, own0: map<nat, Owner>, mem: Mem, own: map<nat, Owner>, d: nat, lo: nat, a: nat, hi: nat)
    requires Owned(mem0, own0) && Owned(mem, own) && IsDir(own0, d) && AllFor(own0, own, d) && lo <= a <= hi <= ALLPAGES
    requires forall f :: f in own0 ==> f in own && own[f] == own0[f]
    requires TablesIn(own0, own, lo / NPT, TableEnd(lo, a))
    ensures NewTables(own0, own) <= WantedTables(mem0, d, lo, hi)
  {
    hide Owned, Entry, Slot, NewTables;
    forall i | i in NewTables(own0, own)
      ensures i in WantedTables(mem0, d, lo, hi)
    {
      NewTableAt(own0, own, i);
      EndsGrow(lo, a, hi);
      TableThen(mem0, own0, mem, own, d, i);
    }
  }

  lemma EndsGrow(lo: nat, a: nat, hi: nat)
    requires lo <= a <= hi <= ALLPAGES
    ensures TableEnd(lo, a) <= TableEnd(lo, hi) <= NPT + lo / NPT && (a < hi ==> lo / NPT <= a / NPT < TableEnd(lo, hi) <= NPT)
    ensures lo < a ==> TableEnd(lo, a) <= NPT
  {
  }

  /** While pages are missing, fewer frames have been used than are needed; a missing table means one fewer still. */
  lemma GrowthShort(mem0: Mem, own0: map<nat, Owner>, mem: Mem, own: map<nat, Owner>, d: nat, lo: nat, a: nat, hi: nat)
    requires Owned(mem0, own0) && Owned(mem, own) && IsDir(own0, d) && IsDir(own, d) && lo <= a < hi <= USERPAGES
    requires Spread(mem0, own0, d, lo, a, mem, own) && TablesIn(own0, own, lo / NPT, TableEnd(lo, a))
    ensures |own| - |own0| < GrowthNeeds(mem0, d, lo, hi)
    ensures Slot(mem, d, a / NPT) == NoPte ==> |own| - |own0| < GrowthNeeds(mem0, d, lo, hi) - 1
  {
    hide Owned, Entry, Slot, NewTables, NewPages, Spread, TablesIn, AllFor;
    SpreadAllFor(mem0, own0, d, lo, a, mem, own);
    CountNew(mem, own0, own, d);
    NewPagesWithin(own0, own, lo, a);
    NewTablesWithin(mem0, own0, mem, own, d, lo, a, hi);
    SubsetCount(NewTables(own0, own), WantedTables(mem0, d, lo, hi));
    if Slot(mem, d, a / NPT) == NoPte {
      EndsGrow(lo, a, hi);
      TableThen(mem0, own0, mem, own, d, a / NPT);
      StrictCount(NewTables(own0, own), WantedTables(mem0, d, lo, hi), a / NPT);
    }
  }

  /** With all pages there, the frames used are at least those needed. */
  lemma GrowthFull(mem0: Mem, own0: map<nat, Owner>, mem: Mem, own: map<nat, Owner>, d: nat, lo: nat, hi: nat)
    requires Owned(mem0, own0) && Owned(mem, own) && IsDir(own0, d) && IsDir(own, d) && lo <= hi <= USERPAGES
    requires Spread(mem0, own0, d, lo, hi, mem, own) && Hole(mem0, d, lo, hi)
    requires forall x :: lo <= x < hi ==> Entry(mem, d, x).Pte?
    ensures |own| - |own0| >= GrowthNeeds(mem0, d, lo, hi)
  {
    hide Owned, Entry, Slot, NewTables, NewPages, Spread, AllFor;
    SpreadAllFor(mem0, own0, d, lo, hi, mem, own);
    CountNew(mem, own0, own, d);
    forall x | x in Range(lo, hi)
      ensures x in NewPages(own0, own)
    {
      PageIsNew(mem0, own0, mem, own, d, x);
    }
    RangeCount(lo, hi);
    SubsetCount(Range(lo, hi), NewPages(own0, own));
    forall i | i in WantedTables(mem0, d, lo, hi)
      ensures i in NewTables(own0, own)
    {
      var x := PageOfTable(lo, hi, i);
      EntryHasTable(mem, own, d, x);
      TableThen(mem0, own0, mem, own, d, i);
    }
    SubsetCount(WantedTables(mem0, d, lo, hi), NewTables(own0, own));
  }

  lemma PageIsNew(mem0: Mem, own0: map<nat, Owner>, mem: Mem, own: map<nat, Owner>, d: nat, x: nat)
    requires Owned(mem0, own0) && Owned(mem, own) && IsDir(own0, d) && IsDir(own, d) && x < USERPAGES
    requires forall f :: f in own0 ==> f in own && own[f] == own0[f]
    requires Entry(mem0, d, x) == NoPte && Entry(mem, d, x).Pte?
    ensures x in NewPages(own0, own)
  {
    hide Owned, Entry;
    OwnedEntry(mem, own, d, x);
    var f := Entry(mem, d, x).frame;
    if f in own0 {
      OwnedAt(mem0, own0, f);
    }
    NewPageAt(own0, own, x);
  }

  lemma PageOfTable(lo: nat, hi: nat, i: nat) returns (x: nat)
    requires lo / NPT <= i < TableEnd(lo, hi) && hi <= ALLPAGES
    ensures lo <= x < hi && x / NPT == i && i < NPT
  {
    x := if lo <= i * NPT then i * NPT else lo;
  }

  // A directory that was not there before.

  ghost function DirTables(mem: Mem, d: nat): (s: set<nat>) {
    set i | i in Range(0, NPT) && Slot(mem, d, i).Pte?
  }

  ghost function DirPages(mem: Mem, d: nat): (s: set<nat>) {
    set v | v in Range(0, USERPAGES) && Entry(mem, d, v).Pte?
  }

  lemma TableOfNew(mem0: Mem, own0: map<nat, Owner>, mem: Mem, own: map<nat, Owner>, d: nat, i: nat)
    requires Owned(mem0, own0) && Owned(mem, own) && Added(mem0, own0, d, mem, own)
    ensures i in NewTables(own0, own) <==> i in DirTables(mem, d)
  {
    hide Owned, Entry, Slot, NewTables, Quiet;
    NewTableAt(own0, own, i);
    if i < NPT && Slot(mem, d, i).Pte? {
      OwnedSlot(mem, own, d, i);
      var f := Slot(mem, d, i).frame;
      if f in own0 {
        OwnedAt(mem0, own0, f);
      }
    }
    if f :| f in own && f !in own0 && own[f].TableOf? && own[f].i == i {
      OwnedAt(mem, own, f);
    }
  }

  lemma PageOfNew(mem0: Mem, own0: map<nat, Owner>, mem: Mem, own: map<nat, Owner>, d: nat, v: nat)
    requires Owned(mem0, own0) && Owned(mem, own) && Added(mem0, own0, d, mem, own)
    ensures v in NewPages(own0, own) <==> v in DirPages(mem, d)
  {
    hide Owned, Entry, Slot, NewPages, Quiet;
    NewPageAt(own0, own, v);
    if v < USERPAGES && Entry(mem, d, v).Pte? {
      OwnedEntry(mem, own, d, v);
      var f := Entry(mem, d, v).frame;
      if f in own0 {
        OwnedAt(mem0, own0, f);
      }
    }
    if f :| f in own && f !in own0 && own[f].PageOf? && own[f].v == v {
      OwnedAt(mem, own, f);
    }
  }

  /** A new directory takes a frame for itself, for each of its tables and for each of its pages. */
  lemma CountDir(mem0: Mem, own0: map<nat, Owner>, mem: Mem, own: map<nat, Owner>, d: nat)
    requires Owned(mem0, own0) && Owned(mem, own) && Added(mem0, own0, d, mem, own)
    ensures |own| == |own0| + 1 + |DirTables(mem, d)| + |DirPages(mem, d)|
  {
    hide Owned, Entry, Slot, NewPages, NewTables, Quiet, DirTables, DirPages;
    CountNew(mem, own0, own, d);
    forall i
      ensures i in NewTables(own0, own) <==> i in DirTables(mem, d)
      ensures i in NewPages(own0, own) <==> i in DirPages(mem, d)
    {
      TableOfNew(mem0, own0, mem, own, d, i);
      PageOfNew(mem0, own0, mem, own, d, i);
    }
    assert NewTables(own0, own) == DirTables(mem, d);
    assert NewPages(own0, own) == DirPages(mem, d);
  }

  /** Tables that appear in a step are for the indices of that step. */
  lemma DirTablesGrow(mem: Mem, own: map<nat, Owner>, mem': Mem, own': map<nat, Owner>, d: nat, lo: nat, end: nat)
    requires Owned(mem, own) && Owned(mem', own') && IsDir(own, d) && IsDir(own', d) && TablesIn(own, own', lo, end)
    requires forall f :: f in own ==> f in own' && own'[f] == own[f]
    ensures DirTables(mem', d) <= DirTables(mem, d) + Range(lo, end)
  {
    hide Owned, Entry, Slot;
    forall i | i in DirTables(mem', d)
      ensures i in DirTables(mem, d) + Range(lo, end)
    {
      OwnedSlot(mem', own', d, i);
      var f := Slot(mem', d, i).frame;
      if f in own {
        OwnedAt(mem, own, f);
      }
    }
  }

  // The kernel's tables.

  const KERNELTABLES: nat := 64

  ghost function KernelTables(): (s: set<nat>) {
    Range(USERPAGES / NPT, PHYSTOP / NPT) + Range(DEVSPACE / NPT, NPT)
  }

  lemma KernelTablesCount()
    ensures |KernelTables()| == KERNELTABLES
  {
    RangeCount(USERPAGES / NPT, PHYSTOP / NPT);
    RangeCount(DEVSPACE / NPT, NPT);
    assert Range(USERPAGES / NPT, PHYSTOP / NPT) !! Range(DEVSPACE / NPT, NPT);
  }

  /** The tables for a range of kmap are kernel tables. */
  lemma KmapTables(data: nat, k: nat)
    requires KERNLINK < data < PHYSTOP && k < 4
    ensures var m := Kmap(data)[k]; Range(m.virt / NPT, TableEnd(m.virt, m.virt + m.pages)) <= KernelTables()
  {
  }

  /** With all kernel mappings in place all kernel tables are there. */
  lemma KernelTablesThere(mem: Mem, d: nat, data: nat)
    requires KERNLINK < data < PHYSTOP && KernelUpTo(mem, d, data, ALLPAGES)
    ensures KernelTables() <= DirTables(mem, d) && DirPages(mem, d) == {}
  {
    hide Entry, Slot, Range;
    CleanTables(mem, d, data, 0);
  }

  /** Without user pages so far, there are none after kernel mappings either. */
  lemma StillNoPages(mem: Mem, own: map<nat, Owner>, d: nat, data: nat, bound: nat, lo: nat, hi: nat, mem': Mem, own': map<nat, Owner>)
    requires IsDir(own, d) && KernelUpTo(mem, d, data, bound) && USERPAGES <= lo && Spread(mem, own, d, lo, hi, mem', own')
    ensures DirPages(mem', d) == {}
  {
    hide Entry, Spread;
    forall v | v in Range(0, USERPAGES)
      ensures Entry(mem', d, v) == NoPte
    {
      SpreadEntry(mem, own, d, lo, hi, mem', own', d, v);
    }
  }

  // Copies.

  ghost function MappedBelow(mem: Mem, src: nat, n: nat): (s: set<nat>) {
    set v | v in Range(0, n) && Entry(mem, src, v).Pte?
  }

  ghost function UserTables(mem: Mem, src: nat, n: nat): (s: set<nat>) {
    set v | v in MappedBelow(mem, src, n) :: v / NPT
  }

  /** A directory, the kernel's tables, and a frame for each mapped page below n and each table these need. */
  ghost function CopyNeeds(mem: Mem, src: nat, n: nat): (c: nat) {
    1 + KERNELTABLES + |UserTables(mem, src, n)| + |MappedBelow(mem, src, n)|
  }

  lemma TableSum(mem: Mem, src: nat, n: nat)
    requires n <= USERPAGES
    ensures |KernelTables() + UserTables(mem, src, n)| == KERNELTABLES + |UserTables(mem, src, n)|
  {
    hide Range, Entry;
    KernelTablesCount();
    forall v | v in MappedBelow(mem, src, n)
      ensures v / NPT !in KernelTables()
    {
    }
    assert KernelTables() !! UserTables(mem, src, n);
  }

  /** What the copy of the first i pages has. */
  lemma CopySets(mem0: Mem, src: nat, mem: Mem, d: nat, data: nat, i: nat)
    requires CopyRange(mem0, src, mem, d, i) && CleanFrom(mem, d, data, i) && i <= USERPAGES && KERNLINK < data < PHYSTOP
    ensures DirPages(mem, d) == MappedBelow(mem0, src, i)
    ensures KernelTables() + UserTables(mem0, src, i) <= DirTables(mem, d)
  {
    hide Entry, Slot, Range, KernelTables, KernelEntry;
    forall v | v in Range(0, USERPAGES)
      ensures Entry(mem, d, v).Pte? <==> v < i && Entry(mem0, src, v).Pte?
    {
      if v < i {
        assert CopyAt(mem0, src, mem, d, v);
      } else {
        NoKernelBelow(data, v);
      }
    }
    CleanTables(mem, d, data, i);
    forall v | v in MappedBelow(mem0, src, i)
      ensures v / NPT in DirTables(mem, d)
    {
      EntryHasTable(mem, map[], d, v);
    }
  }

  lemma NoKernelBelow(data: nat, v: nat)
    requires v < USERPAGES
    ensures KernelEntry(data, v) == NoPte
  {
  }

  lemma CleanTables(mem: Mem, d: nat, data: nat, i: nat)
    requires CleanFrom(mem, d, data, i) && i <= USERPAGES && KERNLINK < data < PHYSTOP
    ensures KernelTables() <= DirTables(mem, d)
  {
    hide Entry, Slot, Range;
    forall k | k in KernelTables()
      ensures k in DirTables(mem, d)
    {
      assert Entry(mem, d, k * NPT) == KernelEntry(data, k * NPT);
      EntryHasTable(mem, map[], d, k * NPT);
    }
  }

  lemma UserTablesGrow(mem: Mem, src: nat, i: nat, n: nat)
    requires i <= n
    ensures MappedBelow(mem, src, i) <= MappedBelow(mem, src, n) && UserTables(mem, src, i) <= UserTables(mem, src, n)
    ensures i < n && Entry(mem, src, i).Pte? ==> i in MappedBelow(mem, src, n) && i / NPT in UserTables(mem, src, n)
  {
    hide Entry;
  }

  /** A copy stopped at a mapped page i has used fewer frames than it needs; a missing table means one fewer still. */
  lemma CopyShort(mem0: Mem, own0: map<nat, Owner>, src: nat, mem: Mem, own: map<nat, Owner>, d: nat, data: nat, i: nat, n: nat)
    requires Owned(mem0, own0) && Owned(mem, own) && Added(mem0, own0, d, mem, own) && i < n <= USERPAGES && KERNLINK < data < PHYSTOP
    requires CopyRange(mem0, src, mem, d, i) && CleanFrom(mem, d, data, i) && Entry(mem0, src, i).Pte?
    requires DirTables(mem, d) <= KernelTables() + UserTables(mem0, src, i)
    ensures |own| - |own0| < CopyNeeds(mem0, src, n)
    ensures Slot(mem, d, i / NPT) == NoPte ==> |own| - |own0| < CopyNeeds(mem0, src, n) - 1
  {
    hide Owned, Entry, Slot, Added, CopyRange, CleanFrom, KernelTables, MappedBelow, UserTables, DirPages;
    CountDir(mem0, own0, mem, own, d);
    CopySets(mem0, src, mem, d, data, i);
    UserTablesGrow(mem0, src, i, n);
    NotBelow(mem0, src, i);
    StrictCount(MappedBelow(mem0, src, i), MappedBelow(mem0, src, n), i);
    TableSum(mem0, src, n);
    var most := KernelTables() + UserTables(mem0, src, n);
    SubsetCount(DirTables(mem, d), most);
    if Slot(mem, d, i / NPT) == NoPte {
      StrictCount(DirTables(mem, d), most, i / NPT);
    }
  }

  lemma NotBelow(mem: Mem, src: nat, i: nat)
    ensures i !in MappedBelow(mem, src, i)
  {
  }

  lemma CopyFull(mem0: Mem, own0: map<nat, Owner>, src: nat, mem: Mem, own: map<nat, Owner>, d: nat, data: nat, n: nat)
    requires Owned(mem0, own0) && Owned(mem, own) && Added(mem0, own0, d, mem, own) && n <= USERPAGES && KERNLINK < data < PHYSTOP
    requires CopyRange(mem0, src, mem, d, n) && CleanFrom(mem, d, data, n)
    requires DirTables(mem, d) <= KernelTables() + UserTables(mem0, src, n)
    ensures |own| - |own0| == CopyNeeds(mem0, src, n)
  {
    hide Owned, Entry, Slot, Added, CopyRange, CleanFrom, KernelTables, MappedBelow, UserTables, DirPages, DirTables;
    CountDir(mem0, own0, mem, own, d);
    CopySets(mem0, src, mem, d, data, n);
    TableSum(mem0, src, n);
    SubsetCount(KernelTables() + UserTables(mem0, src, n), DirTables(mem, d));
    SubsetCount(DirTables(mem, d), KernelTables() + UserTables(mem0, src, n));
  }

  /** One more page mapped, or a hole passed: still no tables but the kernel's and those of mapped pages. */
  lemma CopyTablesNext(mem0: Mem, src: nat, i: nat, before: set<nat>, after: set<nat>)
    requires before <= KernelTables() + UserTables(mem0, src, i)
    requires if Entry(mem0, src, i).Pte? then after <= before + Range(i / NPT, i / NPT + 1) else after == before
    ensures after <= KernelTables() + UserTables(mem0, src, i + 1)
  {
    hide KernelTables, MappedBelow, UserTables, Entry;
    UserTablesGrow(mem0, src, i, i + 1);
  }

  lemma NoTablesYet(mem: Mem, d: nat)
    requires forall i :: 0 <= i < NPT ==> Slot(mem, d, i) == NoPte
    ensures DirTables(mem, d) == {}
  {
  }

  lemma NoUserTables(mem: Mem, src: nat)
    ensures UserTables(mem, src, 0) == {}
  {
  }

  /** A directory without some kernel table and without user pages has taken fewer frames than setupkvm needs. */
  lemma SetupShort(mem0: Mem, own0: map<nat, Owner>, mem: Mem, own: map<nat, Owner>, d: nat, lo: nat, end: nat)
    requires Owned(mem0, own0) && Owned(mem, own) && Added(mem0, own0, d, mem, own)
    requires DirPages(mem, d) == {} && DirTables(mem, d) <= KernelTables() && Range(lo, end) <= KernelTables()
    requires exists i :: lo <= i < end && Slot(mem, d, i) == NoPte
    ensures |own| - |own0| < 1 + KERNELTABLES
  {
    hide Owned, Added, KernelTables, Slot, Range, DirPages;
    CountDir(mem0, own0, mem, own, d);
    KernelTablesCount();
    var i :| lo <= i < end && Slot(mem, d, i) == NoPte;
    assert i in Range(lo, end);
    StrictCount(DirTables(mem, d), KernelTables(), i);
  }

  lemma SetupFull(mem0: Mem, own0: map<nat, Owner>, mem: Mem, own: map<nat, Owner>, d: nat, data: nat)
    requires Owned(mem0, own0) && Owned(mem, own) && Added(mem0, own0, d, mem, own)
    requires KERNLINK < data < PHYSTOP && KernelUpTo(mem, d, data, ALLPAGES)
    ensures |own| - |own0| >= 1 + KERNELTABLES
  {
    hide Owned, Added, KernelTables, Slot, DirTables, DirPages, KernelUpTo;
    CountDir(mem0, own0, mem, own, d);
    KernelTablesCount();
    KernelTablesThere(mem, d, data);
    SubsetCount(KernelTables(), DirTables(mem, d));
  }

  /** Filling a frame in hand does not touch a slot. */
  lemma SlotThen(mem1: Mem, own1: map<nat, Owner>, mem2: Mem, d: nat, i: nat)
    requires Owned(mem1, own1) && Owned(mem2, own1) && IsDir(own1, d) && i < NPT
    ensures Slot(mem1, d, i).Pte? <==> Slot(mem2, d, i).Pte?
  {
    hide Owned, Entry, Slot;
    if Slot(mem1, d, i).Pte? {
      OwnedSlot(mem1, own1, d, i);
      OwnedAt(mem2, own1, Slot(mem1, d, i).frame);
    }
    if Slot(mem2, d, i).Pte? {
      OwnedSlot(mem2, own1, d, i);
      OwnedAt(mem1, own1, Slot(mem2, d, i).frame);
    }
  }

  /** Frames for one more page: itself, and its table if that is missing. */
  function FaultNeeds(mem: Mem, d: nat, v: nat): (n: nat) {
    if Slot(mem, d, v / NPT) == NoPte then 2 else 1
  }

  lemma EntryTable(mem: Mem, d: nat, v: nat)
    ensures Entry(mem, d, v).Pte? ==> Slot(mem, d, v / NPT).Pte?
  {
  }
}
