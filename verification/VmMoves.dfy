/** What the page-table operations do to memory and to frame ownership, as relations between states. */
module VmMoves {
  import opened VmTree

  function PagesFor(size: nat): (n: nat) {
    (size + PGSIZE - 1) / PGSIZE
  }

  /** How many pages of user memory a size covers. */
  function UserPages(size: nat): (n: nat) {
    if PagesFor(size) <= USERPAGES then PagesFor(size) else USERPAGES
  }

  ghost predicate NoDup(s: seq<nat>) {
    forall i, j :: 0 <= i < j < |s| ==> s[i] != s[j]
  }

  lemma OneMore(s: seq<nat>, x: nat)
    requires NoDup(s) && x !in s
    ensures NoDup([x] + s) && forall y :: y in [x] + s <==> y == x || y in s
  {
    var t := [x] + s;
    forall i, j | 0 <= i < j < |t|
      ensures t[i] != t[j]
    {
      assert t[j] == s[j - 1];
      if i > 0 {
        assert t[i] == s[i - 1];
      }
    }
  }

  /** Every frame is free, owned or in hand, and only one of these. */
  ghost predicate Balance(all: set<nat>, free: seq<nat>, own: map<nat, Owner>, loose: set<nat>) {
    && NoDup(free)
    && (forall f :: f in all <==> f in free || f in own || f in loose)
    && (forall f :: f in free ==> f !in own && f !in loose)
    && (forall f :: f in loose ==> f !in own)
  }

  /** User pages keep their bytes. */
  ghost predicate SamePages(mem: Mem, own: map<nat, Owner>, mem': Mem) {
    forall f :: f in own && own[f].PageOf? && f in mem ==> f in mem' && mem'[f] == mem[f]
  }

  /** No entry of any directory and no user page differs. */
  ghost predicate Quiet(mem: Mem, own: map<nat, Owner>, mem': Mem) {
    && (forall c, v :: IsDir(own, c) && 0 <= v < ALLPAGES ==> Entry(mem', c, v) == Entry(mem, c, v))
    && SamePages(mem, own, mem')
  }

  datatype Outcome = Done | NoMemory | Panic

  /** A new process size, failure, a kernel panic, or a frame freed that the kernel still uses. */
  datatype SizeResult = Size(n: nat) | Failed | Halted | Wild

  /** User pages lo .. hi - 1 of directory d. */
  ghost function PagesIn(own: map<nat, Owner>, d: nat, lo: nat, hi: nat): (s: set<nat>) {
    set f | f in own && own[f].PageOf? && own[f].d == d && lo <= own[f].v < hi
  }

  /** mem, own are mem0, own0 with the user pages lo .. hi - 1 of d unmapped and let go. */
  ghost predicate Shrunk(mem0: Mem, own0: map<nat, Owner>, d: nat, lo: nat, hi: nat, mem: Mem, own: map<nat, Owner>) {
    && own == own0 - PagesIn(own0, d, lo, hi)
    && (forall c, x :: IsDir(own0, c) && 0 <= x < ALLPAGES ==>
          Entry(mem, c, x) == if c == d && lo <= x < hi then NoPte else Entry(mem0, c, x))
    && SamePages(mem0, own, mem)
  }

  lemma ShrunkNothing(mem: Mem, own: map<nat, Owner>, d: nat, lo: nat)
    ensures Shrunk(mem, own, d, lo, lo, mem, own)
  {
    assert PagesIn(own, d, lo, lo) == {};
  }

  /** Pages without an entry cost nothing to unmap. */
  lemma ShrunkSkip(mem0: Mem, own0: map<nat, Owner>, d: nat, lo: nat, hi: nat, hi': nat, mem: Mem, own: map<nat, Owner>)
    requires Owned(mem0, own0) && IsDir(own0, d) && Shrunk(mem0, own0, d, lo, hi, mem, own) && lo <= hi <= hi' <= USERPAGES
    requires forall x :: hi <= x < hi' ==> Entry(mem0, d, x) == NoPte
    ensures Shrunk(mem0, own0, d, lo, hi', mem, own)
  {
    hide Entry;
    forall f | f in own0 && own0[f].PageOf? && own0[f].d == d
      ensures !(hi <= own0[f].v < hi')
    {
      OwnedAt(mem0, own0, f);
    }
    assert PagesIn(own0, d, lo, hi') == PagesIn(own0, d, lo, hi);
  }

  /** One more page unmapped. */
  lemma ShrunkOne(mem0: Mem, own0: map<nat, Owner>, d: nat, lo: nat, hi: nat, mem: Mem, own: map<nat, Owner>, p: nat, mem': Mem)
    requires Owned(mem0, own0) && IsDir(own0, d) && Shrunk(mem0, own0, d, lo, hi, mem, own) && lo <= hi < USERPAGES
    requires Entry(mem0, d, hi).Pte? && p == Entry(mem0, d, hi).frame
    requires forall c, x :: IsDir(own0, c) && 0 <= x < ALLPAGES ==>
               Entry(mem', c, x) == if c == d && x == hi then NoPte else Entry(mem, c, x)
    requires SamePages(mem, own - {p}, mem')
    ensures p in own && own[p] == PageOf(d, hi)
    ensures Shrunk(mem0, own0, d, lo, hi + 1, mem', own - {p})
  {
    hide Entry;
    OwnedEntry(mem0, own0, d, hi);
    forall f | f in own0 && own0[f].PageOf? && own0[f].d == d && own0[f].v == hi
      ensures f == p
    {
      OwnedAt(mem0, own0, f);
    }
    assert PagesIn(own0, d, lo, hi + 1) == PagesIn(own0, d, lo, hi) + {p};
    assert own - {p} == own0 - PagesIn(own0, d, lo, hi + 1);
  }

  /** Frames only enter own: as page tables of d, or as its user pages lo .. hi - 1, and only those entries change. */
  ghost predicate Spread(mem0: Mem, own0: map<nat, Owner>, d: nat, lo: nat, hi: nat, mem: Mem, own: map<nat, Owner>) {
    && (forall f :: f in own0 ==> f in own && own[f] == own0[f])
    && (forall f :: f in own && f !in own0 ==> NewFor(own[f], d, lo, hi))
    && (forall c, x :: IsDir(own0, c) && 0 <= x < ALLPAGES && !(c == d && lo <= x < hi) ==> Entry(mem, c, x) == Entry(mem0, c, x))
    && SamePages(mem0, own0, mem)
  }

  ghost predicate NewFor(w: Owner, d: nat, lo: nat, hi: nat) {
    match w
    case DirOf => false
    case TableOf(c, _) => c == d
    case PageOf(c, v) => c == d && lo <= v < hi
  }

  lemma QuietTrans(mem: Mem, own: map<nat, Owner>, mem': Mem, mem'': Mem)
    requires Quiet(mem, own, mem') && Quiet(mem', own, mem'')
    ensures Quiet(mem, own, mem'')
  {
    hide Entry;
  }

  lemma QuietSpread(mem: Mem, own: map<nat, Owner>, d: nat, lo: nat, mem': Mem)
    requires Quiet(mem, own, mem')
    ensures Spread(mem, own, d, lo, lo, mem', own)
  {
    hide Entry;
  }

  lemma SpreadNothing(mem: Mem, own: map<nat, Owner>, d: nat, lo: nat)
    ensures Spread(mem, own, d, lo, lo, mem, own)
  {
  }

  /** A step confined to the entries lo .. hi - 1 after steps confined to them. */
  lemma SpreadTrans(mem0: Mem, own0: map<nat, Owner>, d: nat, lo: nat, hi: nat, mem1: Mem, own1: map<nat, Owner>,
                    lo': nat, hi': nat, mem2: Mem, own2: map<nat, Owner>, lo2: nat, hi2: nat)
    requires Spread(mem0, own0, d, lo, hi, mem1, own1) && Spread(mem1, own1, d, lo', hi', mem2, own2)
    requires forall f :: f in own0 && own0[f].PageOf? ==> f in mem0
    requires lo2 <= lo && hi <= hi2 && (lo' == hi' || (lo2 <= lo' && hi' <= hi2))
    ensures Spread(mem0, own0, d, lo2, hi2, mem2, own2)
  {
    hide Entry;
    forall c, x | IsDir(own0, c) && 0 <= x < ALLPAGES && !(c == d && lo2 <= x < hi2)
      ensures Entry(mem2, c, x) == Entry(mem0, c, x)
    {
      assert Entry(mem1, c, x) == Entry(mem0, c, x);
      assert IsDir(own1, c);
    }
  }

  lemma SpreadWiden(mem0: Mem, own0: map<nat, Owner>, d: nat, lo: nat, hi: nat, mem: Mem, own: map<nat, Owner>, hi': nat)
    requires Spread(mem0, own0, d, lo, hi, mem, own) && hi <= hi'
    ensures Spread(mem0, own0, d, lo, hi', mem, own)
  {
    hide Entry;
  }

  /** Unmapping a range that was empty before the spread leaves at most page tables behind. */
  lemma Undone(mem0: Mem, own0: map<nat, Owner>, d: nat, lo: nat, a: nat, mem1: Mem, own1: map<nat, Owner>,
               hi: nat, mem2: Mem, own2: map<nat, Owner>)
    requires Owned(mem0, own0) && IsDir(own0, d) && lo <= a <= hi <= USERPAGES
    requires Hole(mem0, d, lo, hi)
    requires Spread(mem0, own0, d, lo, a, mem1, own1) && Shrunk(mem1, own1, d, lo, hi, mem2, own2)
    ensures Spread(mem0, own0, d, lo, lo, mem2, own2)
  {
    hide Entry;
    forall f | f in own0
      ensures f in own2 && own2[f] == own0[f]
      ensures own0[f].PageOf? ==> f in mem0
    {
      OwnedAt(mem0, own0, f);
    }
    forall c, x | IsDir(own0, c) && 0 <= x < ALLPAGES
      ensures Entry(mem2, c, x) == Entry(mem0, c, x)
    {
      assert IsDir(own1, c);
      assert Entry(mem2, c, x) == if c == d && lo <= x < hi then NoPte else Entry(mem1, c, x);
    }
  }

  /** Virtual pages lo .. hi - 1 of d are writable user pages full of zeros. */
  ghost predicate ZeroRange(mem: Mem, d: nat, lo: nat, hi: nat) {
    forall x :: lo <= x < hi ==> ZeroAt(mem, d, x)
  }

  ghost predicate ZeroAt(mem: Mem, d: nat, x: nat) {
    var e := Entry(mem, d, x);
    e.Pte? && e.write && e.user && e.frame in mem && mem[e.frame] == ZeroPage()
  }

  lemma ZerosMapped(mem: Mem, d: nat, lo: nat, hi: nat)
    requires ZeroRange(mem, d, lo, hi)
    ensures forall x :: lo <= x < hi ==> Entry(mem, d, x).Pte?
  {
    hide Entry;
    forall x | lo <= x < hi
      ensures Entry(mem, d, x).Pte?
    {
      assert ZeroAt(mem, d, x);
    }
  }

  ghost predicate Hole(mem: Mem, d: nat, lo: nat, hi: nat) {
    forall x :: lo <= x < hi ==> Entry(mem, d, x) == NoPte
  }

  /** Growth over a hole: all of it zeroed user pages, or nothing but page tables. */
  ghost predicate Grew(mem0: Mem, own0: map<nat, Owner>, d: nat, lo: nat, hi: nat, mem: Mem, own: map<nat, Owner>,
                       newsz: nat, r: SizeResult) {
    match r
    case Size(n) => n == newsz && Spread(mem0, own0, d, lo, hi, mem, own) && ZeroRange(mem, d, lo, hi)
    case Failed => Spread(mem0, own0, d, lo, lo, mem, own)
    case _ => false
  }

  /** The zeroed pages below a survive a frame being filled and mapped at a. */
  lemma MoreZeros(mem1: Mem, own1: map<nat, Owner>, mem2: Mem, d: nat, lo: nat, a: nat, mem: Mem, own: map<nat, Owner>)
    requires Owned(mem1, own1) && Owned(mem2, own1) && IsDir(own1, d) && lo <= a < USERPAGES
    requires ZeroRange(mem1, d, lo, a) && Quiet(mem1, own1, mem2)
    requires Spread(mem2, own1, d, a, a + 1, mem, own) && ZeroAt(mem, d, a)
    ensures ZeroRange(mem, d, lo, a + 1)
  {
    hide Entry, Owned;
    forall x | lo <= x < a
      ensures ZeroAt(mem, d, x)
    {
      assert ZeroAt(mem1, d, x);
      OwnedEntry(mem1, own1, d, x);
      OwnedAt(mem1, own1, Entry(mem1, d, x).frame);
      SpreadKeeps(mem2, own1, d, a, a + 1, mem, own, x);
    }
  }

  /** Virtual page x of d in mem is a copy of page x of src in mem0: same bytes, same rights, a hole for a hole. */
  ghost predicate CopyAt(mem0: Mem, src: nat, mem: Mem, d: nat, x: nat) {
    var e, e' := Entry(mem0, src, x), Entry(mem, d, x);
    if e == NoPte then e' == NoPte
    else e'.Pte? && e'.write == e.write && e'.user == e.user && e.frame in mem0 && e'.frame in mem && mem[e'.frame] == mem0[e.frame]
  }

  ghost predicate CopyRange(mem0: Mem, src: nat, mem: Mem, d: nat, hi: nat) {
    forall x :: 0 <= x < hi ==> CopyAt(mem0, src, mem, d, x)
  }

  lemma SpreadEntry(mem0: Mem, own0: map<nat, Owner>, d: nat, lo: nat, hi: nat, mem: Mem, own: map<nat, Owner>, c: nat, x: nat)
    requires Spread(mem0, own0, d, lo, hi, mem, own) && IsDir(own0, c) && x < ALLPAGES && !(c == d && lo <= x < hi)
    ensures Entry(mem, c, x) == Entry(mem0, c, x)
  {
  }

  /** Page x of d in mem is unchanged by a spread that does not touch it. */
  lemma SpreadKeeps(mem0: Mem, own0: map<nat, Owner>, d: nat, lo: nat, hi: nat, mem: Mem, own: map<nat, Owner>, x: nat)
    requires Owned(mem0, own0) && IsDir(own0, d) && x < USERPAGES && !(lo <= x < hi)
    requires Spread(mem0, own0, d, lo, hi, mem, own)
    ensures Entry(mem, d, x) == Entry(mem0, d, x)
    ensures var e := Entry(mem0, d, x); e.Pte? ==> e.frame in mem0 && e.frame in mem && mem[e.frame] == mem0[e.frame]
  {
    hide Entry;
    if Entry(mem0, d, x).Pte? {
      OwnedEntry(mem0, own0, d, x);
      OwnedAt(mem0, own0, Entry(mem0, d, x).frame);
    }
  }


  lemma AddTableAll(mem: Mem, own: map<nat, Owner>, d: nat, i: nat, t: nat)
    requires Owned(mem, own) && IsDir(own, d) && i < NPT && Slot(mem, d, i) == NoPte && t !in own
    ensures IsTable(mem, d)
    ensures
      var mem', own' := AddTable(mem, d, i, t), own[t := TableOf(d, i)];
      && Owned(mem', own') && Quiet(mem, own, mem')
      && Slot(mem', d, i).Pte?
      && forall f :: f in mem && f != t && f != d ==> f in mem' && mem'[f] == mem[f]
  {
    hide Owned, Entry, AddTable;
    AddTableOwned(mem, own, d, i, t);
    AddTableSlot(mem, own, d, i, t, d, i);
    forall c: nat, v: nat | IsDir(own, c) && v < ALLPAGES
      ensures Entry(AddTable(mem, d, i, t), c, v) == Entry(mem, c, v)
    {
      AddTableEntry(mem, own, d, i, t, c, v);
    }
    forall f | f in mem && f != t && f != d
      ensures f in AddTable(mem, d, i, t) && AddTable(mem, d, i, t)[f] == mem[f]
    {
      AddTableKeeps(mem, d, i, t, f);
    }
  }

  lemma SetKeepsPages(mem: Mem, own: map<nat, Owner>, d: nat, v: nat, e: Pte)
    requires HasTable(mem, own, d, v)
    ensures SamePages(mem, own, SetEntry(mem, d, v, e))
    ensures forall f :: f in mem && f !in own ==> f in SetEntry(mem, d, v, e) && SetEntry(mem, d, v, e)[f] == mem[f]
  {
    hide Owned, SetEntry, Slot;
    OwnedSlot(mem, own, d, v / NPT);
    forall f | f in mem && (f !in own || own[f].PageOf?)
      ensures f in SetEntry(mem, d, v, e) && SetEntry(mem, d, v, e)[f] == mem[f]
    {
      SetEntrySlot(mem, own, d, v, e, f, 0);
    }
  }

  lemma NoTableNoEntries(mem: Mem, d: nat, a: nat, b: nat)
    requires Slot(mem, d, a / NPT) == NoPte && b <= (a / NPT + 1) * NPT
    ensures forall x :: a <= x < b ==> Entry(mem, d, x) == NoPte
  {
    forall x | a <= x < b
      ensures Entry(mem, d, x) == NoPte
    {
      assert x / NPT == a / NPT;
    }
  }

  // Kernel mappings.

  /** Virtual pages lo .. hi - 1 of d are supervisor pages, the first at physical page p0 and so on upwards. */
  ghost predicate KernelRange(mem: Mem, d: nat, lo: nat, hi: nat, p0: nat, write: bool) {
    forall x :: lo <= x < hi ==> Entry(mem, d, x) == Pte(p0 + (x - lo), write, false)
  }

  lemma KernelMore(mem1: Mem, own1: map<nat, Owner>, mem2: Mem, own2: map<nat, Owner>, d: nat, v0: nat, a: nat, mem: Mem,
                   p0: nat, write: bool)
    requires IsDir(own1, d) && v0 <= a < ALLPAGES && KernelRange(mem1, d, v0, a, p0, write)
    requires Spread(mem1, own1, d, a, a, mem2, own2) && Spread(mem2, own2, d, a, a + 1, mem, own2)
    requires Entry(mem, d, a) == Pte(p0 + (a - v0), write, false)
    ensures KernelRange(mem, d, v0, a + 1, p0, write)
  {
    hide Entry;
    forall x | v0 <= x < a
      ensures Entry(mem, d, x) == Pte(p0 + (x - v0), write, false)
    {
      SpreadEntry(mem1, own1, d, a, a, mem2, own2, d, x);
      SpreadEntry(mem2, own2, d, a, a + 1, mem, own2, d, x);
    }
  }

  const KERNLINK: nat := 0x8_0100
  const PHYSTOP: nat := 0x8_E000
  const DEVSPACE: nat := 0xF_E000

  datatype KernelMap = KernelMap(virt: nat, pages: nat, phys: nat, write: bool)

  /** kmap, in pages. */
  function Kmap(data: nat): (s: seq<KernelMap>)
    requires KERNLINK < data < PHYSTOP
  {
    [KernelMap(USERPAGES, KERNLINK - USERPAGES, 0, true),
     KernelMap(KERNLINK, data - KERNLINK, KERNLINK - USERPAGES, false),
     KernelMap(data, PHYSTOP - data, data - USERPAGES, true),
     KernelMap(DEVSPACE, ALLPAGES - DEVSPACE, DEVSPACE, true)]
  }

  /** The kernel's view of virtual page v: the same in every directory. */
  function KernelEntry(data: nat, v: nat): (e: Pte) {
    if v < USERPAGES then NoPte
    else if v < PHYSTOP then Pte(v - USERPAGES, v < KERNLINK || data <= v, false)
    else if v < DEVSPACE then NoPte
    else Pte(v, true, false)
  }

  /**
   The kernel's mappings by address: the first 224 megabytes of physical memory
   from 2 gigabytes on, read-only between the megabyte and the kernel's data,
   and the last 32 megabytes mapped to themselves; none of it for programs.
   */
  lemma KernelLayout(data: nat, va: nat)
    requires va < 0x1_0000_0000 && 0x8_0100 < data < 0x8_E000
    ensures var e := KernelEntry(data, va / 0x1000);
            && (0x8000_0000 <= va < 0x8E00_0000 || 0xFE00_0000 <= va <==> e.Pte?)
            && (e.Pte? ==> !e.user && (e.write <==> !(0x8010_0000 <= va < data * 0x1000)))
            && (0x8000_0000 <= va < 0x8E00_0000 ==> e.frame == (va - 0x8000_0000) / 0x1000)
            && (0xFE00_0000 <= va ==> e.frame == va / 0x1000)
  {
  }

  /** An entry that setupkvm makes for virtual page x: not open to the program. */
  predicate KernelPage(e: Pte, x: nat) {
    if x < PHYSTOP then e.Pte? && !e.user && e.frame == x - USERPAGES
    else if x < DEVSPACE then e == NoPte
    else e.Pte? && !e.user && e.frame == x
  }

  /** Above user memory the directory holds the kernel's mappings. */
  ghost predicate KernelMapped(mem: Mem, d: nat) {
    forall x :: USERPAGES <= x < ALLPAGES ==> KernelPage(Entry(mem, d, x), x)
  }

  lemma CleanMapped(mem: Mem, d: nat, data: nat, n: nat)
    requires CleanFrom(mem, d, data, n) && n <= USERPAGES
    ensures KernelMapped(mem, d)
  {
    hide Entry;
  }

  // Unmapping above user memory.

  /** Sizes and addresses are 32-bit. */
  const WRAP: nat := 0x1_0000_0000

  lemma SizePages(newsz: nat, oldsz: nat)
    requires newsz < oldsz < WRAP
    ensures PagesFor(newsz) <= PagesFor(oldsz) <= ALLPAGES && UserPages(oldsz) <= USERPAGES
    ensures PagesFor(oldsz) <= USERPAGES ==> PagesFor(newsz) % ALLPAGES == UserPages(newsz) && UserPages(newsz) <= UserPages(oldsz)
    ensures PagesFor(newsz) < ALLPAGES ==> PagesFor(newsz) % ALLPAGES == PagesFor(newsz)
    ensures PagesFor(newsz) >= ALLPAGES ==> PagesFor(newsz) % ALLPAGES == 0
  {
  }

  lemma ShrunkKernel(mem0: Mem, own0: map<nat, Owner>, d: nat, lo: nat, hi: nat, mem: Mem, own: map<nat, Owner>)
    requires IsDir(own0, d) && KernelMapped(mem0, d) && hi <= USERPAGES && Shrunk(mem0, own0, d, lo, hi, mem, own)
    ensures KernelMapped(mem, d)
  {
    hide Entry, KernelPage;
  }

  lemma KernelPresent(mem: Mem, d: nat, data: nat)
    requires CleanFrom(mem, d, data, USERPAGES)
    ensures Entry(mem, d, USERPAGES).Pte? && Slot(mem, d, USERPAGES / NPT).Pte?
  {
    assert Entry(mem, d, USERPAGES) == KernelEntry(data, USERPAGES);
  }

  datatype Fate = Fine | Panics | Frees

  /**
   What deallocuvm comes to on the virtual pages lo .. hi - 1 above KERNBASE,
   when the kernel's own image ends at page end: the first mapped page decides.
   */
  function KernelFate(end: nat, lo: nat, hi: nat): (r: Fate) {
    if lo >= hi then Fine
    else if lo < PHYSTOP then if lo < end then Panics else Frees
    else if hi <= DEVSPACE then Fine else Panics
  }

  /** The same for a change of size; the rounding of newsz to pages wraps around. */
  function ShrinkFate(end: nat, newsz: nat, oldsz: nat): (r: Fate) {
    var lo := PagesFor(newsz) % ALLPAGES;
    if newsz >= oldsz then Fine else KernelFate(end, if lo < USERPAGES then USERPAGES else lo, PagesFor(oldsz))
  }

  /** Within user memory shrinking is fine; from above it, down into user memory, it always panics. */
  lemma ShrinkToUser(end: nat, newsz: nat, oldsz: nat)
    requires newsz <= USERPAGES * PGSIZE && USERPAGES < end
    ensures ShrinkFate(end, newsz, oldsz).Panics? <==> newsz < oldsz && USERPAGES * PGSIZE < oldsz
    ensures oldsz <= USERPAGES * PGSIZE ==> ShrinkFate(end, newsz, oldsz).Fine?
  {
  }

  ghost predicate KernelUpTo(mem: Mem, d: nat, data: nat, bound: nat) {
    forall x :: 0 <= x < ALLPAGES ==> Entry(mem, d, x) == if x < bound then KernelEntry(data, x) else NoPte
  }

  /** Where the first k ranges of kmap end. */
  function KernelBound(data: nat, k: nat): (b: nat) {
    if k == 0 then USERPAGES else if k == 1 then KERNLINK else if k == 2 then data else if k == 3 then PHYSTOP else ALLPAGES
  }

  lemma KernelNone(mem: Mem, d: nat, data: nat)
    requires Hole(mem, d, 0, ALLPAGES)
    ensures KernelUpTo(mem, d, data, KernelBound(data, 0))
  {
    hide Entry;
  }

  lemma KernelGap(mem: Mem, d: nat, data: nat, k: nat)
    requires KERNLINK < data < PHYSTOP && k < 4 && KernelUpTo(mem, d, data, KernelBound(data, k))
    ensures var m := Kmap(data)[k]; USERPAGES <= m.virt && m.virt + m.pages <= ALLPAGES && Hole(mem, d, m.virt, m.virt + m.pages)
  {
    hide Entry;
  }

  lemma KernelNext(mem1: Mem, own1: map<nat, Owner>, d: nat, data: nat, k: nat, mem: Mem, own: map<nat, Owner>)
    requires KERNLINK < data < PHYSTOP && k < 4 && IsDir(own1, d) && KernelUpTo(mem1, d, data, KernelBound(data, k))
    requires var m := Kmap(data)[k];
             && Spread(mem1, own1, d, m.virt, m.virt + m.pages, mem, own)
             && KernelRange(mem, d, m.virt, m.virt + m.pages, m.phys, m.write)
    ensures KernelUpTo(mem, d, data, KernelBound(data, k + 1))
  {
    hide Entry, Spread;
    var m := Kmap(data)[k];
    forall x | 0 <= x < ALLPAGES
      ensures Entry(mem, d, x) == if x < KernelBound(data, k + 1) then KernelEntry(data, x) else NoPte
    {
      if !(m.virt <= x < m.virt + m.pages) {
        SpreadEntry(mem1, own1, d, m.virt, m.virt + m.pages, mem, own, d, x);
      }
    }
  }

  // A directory that was not there before.

  /** d is a new directory, the frames that entered own are its own, and nothing older differs. */
  ghost predicate Added(mem0: Mem, own0: map<nat, Owner>, d: nat, mem: Mem, own: map<nat, Owner>) {
    && d !in own0 && IsDir(own, d)
    && (forall f :: f in own0 ==> f in own && own[f] == own0[f])
    && (forall f :: f in own && f !in own0 ==> Belongs(own, d, f))
    && Quiet(mem0, own0, mem)
  }

  lemma AddedSpread(mem0: Mem, own0: map<nat, Owner>, d: nat, mem1: Mem, own1: map<nat, Owner>, lo: nat, hi: nat,
                    mem: Mem, own: map<nat, Owner>)
    requires Owned(mem0, own0) && Added(mem0, own0, d, mem1, own1) && Spread(mem1, own1, d, lo, hi, mem, own)
    ensures Added(mem0, own0, d, mem, own)
  {
    hide Entry;
    OwnedInMem(mem0, own0);
    assert forall c :: IsDir(own0, c) ==> IsDir(own1, c) && c != d;
  }

  lemma AddedDropped(mem0: Mem, own0: map<nat, Owner>, d: nat, mem1: Mem, own1: map<nat, Owner>, mem: Mem, own: map<nat, Owner>)
    requires Owned(mem0, own0) && Added(mem0, own0, d, mem1, own1) && Dropped(mem1, own1, d, mem, own)
    ensures own == own0 && Quiet(mem0, own0, mem)
  {
    hide Entry;
    OwnedInMem(mem0, own0);
    forall f | f in own0
      ensures !Belongs(own1, d, f)
    {
      OwnedAt(mem0, own0, f);
    }
  }

  lemma AddedDir(mem0: Mem, own0: map<nat, Owner>, d: nat, mem: Mem, own: map<nat, Owner>, c: nat)
    requires Added(mem0, own0, d, mem, own) && IsDir(own0, c)
    ensures IsDir(own, c) && IsDir(own, d)
  {
  }

  /** A page of an older directory is as it was. */
  lemma AddedKeeps(mem0: Mem, own0: map<nat, Owner>, d: nat, mem: Mem, own: map<nat, Owner>, c: nat, x: nat)
    requires Owned(mem0, own0) && Added(mem0, own0, d, mem, own) && IsDir(own0, c) && x < USERPAGES
    ensures Entry(mem, c, x) == Entry(mem0, c, x)
    ensures var e := Entry(mem0, c, x);
            e.Pte? ==> e.frame in mem0 && e.frame in mem && mem[e.frame] == mem0[e.frame] && WholePage(mem[e.frame])
  {
    hide Entry;
    if Entry(mem0, c, x).Pte? {
      OwnedEntry(mem0, own0, c, x);
      OwnedAt(mem0, own0, Entry(mem0, c, x).frame);
    }
  }

  /** No user page from i on, and above them the kernel's mappings. */
  ghost predicate CleanFrom(mem: Mem, d: nat, data: nat, i: nat) {
    forall x :: i <= x < ALLPAGES ==> Entry(mem, d, x) == KernelEntry(data, x)
  }

  lemma NothingCopied(mem0: Mem, src: nat, mem: Mem, d: nat, data: nat)
    requires KernelUpTo(mem, d, data, ALLPAGES)
    ensures CopyRange(mem0, src, mem, d, 0) && CleanFrom(mem, d, data, 0)
  {
  }

  lemma CopyHole(mem0: Mem, src: nat, mem: Mem, d: nat, data: nat, i: nat)
    requires CopyRange(mem0, src, mem, d, i) && CleanFrom(mem, d, data, i) && i < USERPAGES && Entry(mem0, src, i) == NoPte
    ensures CopyRange(mem0, src, mem, d, i + 1) && CleanFrom(mem, d, data, i + 1)
  {
    hide Entry;
    assert CopyAt(mem0, src, mem, d, i);
  }

  lemma CleanEntry(mem1: Mem, own1: map<nat, Owner>, d: nat, data: nat, i: nat, mem2: Mem)
    requires IsDir(own1, d) && CleanFrom(mem1, d, data, i) && Quiet(mem1, own1, mem2) && i < USERPAGES
    ensures Entry(mem2, d, i) == NoPte
  {
    hide Entry;
  }

  lemma CleanOne(mem1: Mem, own1: map<nat, Owner>, mem2: Mem, d: nat, data: nat, i: nat, mem: Mem, own: map<nat, Owner>)
    requires IsDir(own1, d) && CleanFrom(mem1, d, data, i) && Quiet(mem1, own1, mem2)
    requires Spread(mem2, own1, d, i, i + 1, mem, own)
    ensures CleanFrom(mem, d, data, i + 1)
  {
    hide Entry;
    forall x | i + 1 <= x < ALLPAGES
      ensures Entry(mem, d, x) == KernelEntry(data, x)
    {
      SpreadEntry(mem2, own1, d, i, i + 1, mem, own, d, x);
    }
  }

  /** One more page copied: the pages below i stay copies, page i is one. */
  lemma CopyOne(mem0: Mem, src: nat, mem1: Mem, own1: map<nat, Owner>, mem2: Mem, d: nat, i: nat, mem: Mem, own: map<nat, Owner>)
    requires Owned(mem1, own1) && Owned(mem2, own1) && IsDir(own1, d) && i < USERPAGES
    requires CopyRange(mem0, src, mem1, d, i) && Quiet(mem1, own1, mem2) && Spread(mem2, own1, d, i, i + 1, mem, own)
    requires CopyAt(mem0, src, mem, d, i)
    ensures CopyRange(mem0, src, mem, d, i + 1)
  {
    hide Entry, Owned;
    forall x | 0 <= x < i
      ensures CopyAt(mem0, src, mem, d, x)
    {
      assert CopyAt(mem0, src, mem1, d, x);
      if Entry(mem1, d, x).Pte? {
        OwnedEntry(mem1, own1, d, x);
        OwnedAt(mem1, own1, Entry(mem1, d, x).frame);
      }
      SpreadKeeps(mem2, own1, d, i, i + 1, mem, own, x);
    }
  }

  lemma QuietRefl(mem: Mem, own: map<nat, Owner>)
    ensures Quiet(mem, own, mem)
  {
  }

  lemma SameFree(all: set<nat>, free0: seq<nat>, free: seq<nat>, own: map<nat, Owner>, loose: set<nat>)
    requires Balance(all, free0, own, loose) && Balance(all, free, own, loose)
    ensures AsSet(free) == AsSet(free0)
  {
  }

  // Freeing a whole directory.

  /** Directory d and its frames are gone; the other directories and pages are as they were. */
  ghost predicate Dropped(mem0: Mem, own0: map<nat, Owner>, d: nat, mem: Mem, own: map<nat, Owner>) {
    && own == own0 - FramesOf(own0, d)
    && Quiet(mem0, own, mem)
  }

  ghost function TablesFrom(own: map<nat, Owner>, d: nat, i: nat): (s: set<nat>) {
    set f | f in own && own[f].TableOf? && own[f].d == d && i <= own[f].i < NPT
  }

  lemma TablesStep(mem: Mem, own: map<nat, Owner>, d: nat, i: nat)
    requires Owned(mem, own) && IsDir(own, d) && i < NPT
    ensures d in mem
    ensures Slot(mem, d, i).Pte? ==> Slot(mem, d, i).frame in TablesFrom(own, d, i)
    ensures TablesFrom(own, d, i + 1) == TablesFrom(own, d, i) - (if Slot(mem, d, i).Pte? then {Slot(mem, d, i).frame} else {})
    ensures TablesFrom(own, d, NPT) == {}
  {
    hide Owned, Slot;
    OwnedAt(mem, own, d);
    if Slot(mem, d, i).Pte? {
      OwnedSlot(mem, own, d, i);
    }
    forall f | f in own && own[f] == TableOf(d, i)
      ensures Slot(mem, d, i).Pte? && Slot(mem, d, i).frame == f
    {
      OwnedAt(mem, own, f);
    }
  }

  /** Owned frames are let go into the hand. */
  lemma LetGo(all: set<nat>, free: seq<nat>, own: map<nat, Owner>, loose: set<nat>, s: set<nat>)
    requires Balance(all, free, own, loose) && s <= own.Keys
    ensures Balance(all, free, own - s, loose + s)
    ensures loose !! own.Keys
  {
  }

  /** With its user pages gone, a directory has itself and its tables left. */
  lemma UserFrames(mem0: Mem, own0: map<nat, Owner>, d: nat, own1: map<nat, Owner>)
    requires Owned(mem0, own0) && IsDir(own0, d) && own1 == own0 - PagesIn(own0, d, 0, USERPAGES)
    ensures FramesOf(own1, d) == {d} + TablesFrom(own1, d, 0)
    ensures own1 - FramesOf(own1, d) == own0 - FramesOf(own0, d)
  {
    forall f | f in own0
      ensures OwnerOk(mem0, own0, f, own0[f])
    {
      OwnedAt(mem0, own0, f);
    }
  }

  lemma DroppedAll(mem0: Mem, own0: map<nat, Owner>, d: nat, mem1: Mem, own1: map<nat, Owner>, mem: Mem, own: map<nat, Owner>)
    requires Owned(mem0, own0) && IsDir(own0, d) && Shrunk(mem0, own0, d, 0, USERPAGES, mem1, own1)
    requires own == own1 - FramesOf(own1, d) == own0 - FramesOf(own0, d) && Quiet(mem1, own, mem)
    ensures Dropped(mem0, own0, d, mem, own)
  {
    hide Entry;
    OwnedInMem(mem0, own0);
  }

  /** What left own, with nothing left in hand, is back on the free list. */
  lemma Returned(all: set<nat>, free0: seq<nat>, own0: map<nat, Owner>, loose: set<nat>, free: seq<nat>, own: map<nat, Owner>, s: set<nat>)
    requires Balance(all, free0, own0, loose) && Balance(all, free, own, loose) && s <= own0.Keys && own == own0 - s
    ensures AsSet(free) == AsSet(free0) + s
  {
  }

  lemma OwnedInMem(mem: Mem, own: map<nat, Owner>)
    requires Owned(mem, own)
    ensures forall f :: f in own ==> f in mem
  {
    forall f | f in own
      ensures f in mem
    {
      OwnedAt(mem, own, f);
    }
  }

  lemma EntryHasTable(mem: Mem, own: map<nat, Owner>, d: nat, v: nat)
    requires Entry(mem, d, v).Pte?
    ensures Slot(mem, d, v / NPT).Pte?
  {
  }

  lemma TakenIntoOwn(all: set<nat>, free: seq<nat>, own: map<nat, Owner>, loose: set<nat>, f: nat, w: Owner)
    requires Balance(all, free, own, loose) && f in loose
    ensures Balance(all, free, own[f := w], loose - {f})
  {
  }

  ghost function AsSet(s: seq<nat>): (r: set<nat>) {
    set f | f in s
  }

  lemma {:induction false} SeqSet(s: seq<nat>)
    requires NoDup(s)
    ensures |AsSet(s)| == |s|
    decreases |s|
  {
    if s != [] {
      SeqSet(s[1..]);
      assert s[0] !in AsSet(s[1..]);
      assert AsSet(s) == {s[0]} + AsSet(s[1..]);
    }
  }
}
