/** The page allocator and the page-table code: kalloc.c, vm.c and the page-fault helper of trap.c. */
module VmCode {
  import opened VmTree
  import opened VmMoves
  import opened VmCount

  class Vm {
    /** the virtual pages at which the kernel's writable data starts and its image ends */
    const data: nat
    const end: nat
    /** the frames the allocator was given at boot */
    ghost const all: set<nat>
    /** kmem.freelist */
    var free: seq<nat>
    var mem: Mem
    ghost var own: map<nat, Owner>
    /** frames taken from the free list and not yet entered into a page table */
    ghost var loose: set<nat>

    ghost predicate Valid()
      reads this
    {
      Owned(mem, own) && Balance(all, free, own, loose) && Placed()
    }

    /** Where the linker put the kernel, and that the allocator's frames lie behind it. */
    ghost predicate Placed() {
      && KERNLINK < data <= end <= PHYSTOP && data < PHYSTOP
      && forall f :: f in all ==> Freeable(f)
    }

    /** kfree's own test of the address it is given. */
    predicate Freeable(f: nat) {
      end <= (f + USERPAGES) % ALLPAGES < PHYSTOP
    }

    /** kinit1 and kinit2: every frame behind the kernel's image is free. */
    constructor (data: nat, end: nat)
      requires KERNLINK < data <= end <= PHYSTOP && data < PHYSTOP
      ensures Valid() && this.data == data && this.end == end && own == map[] && loose == {}
      ensures |free| == PHYSTOP - end && forall f :: f in free <==> end - USERPAGES <= f < PHYSTOP - USERPAGES
    {
      this.data, this.end := data, end;
      all := Range(end - USERPAGES, PHYSTOP - USERPAGES);
      mem, own, loose := map[], map[], {};
      free := [];
      new;
      var p := end - USERPAGES;
      while p < PHYSTOP - USERPAGES
        invariant end - USERPAGES <= p <= PHYSTOP - USERPAGES && |free| == p - (end - USERPAGES)
        invariant NoDup(free) && forall f :: f in free <==> end - USERPAGES <= f < p
        invariant mem == map[] && own == map[] && loose == {}
      {
        OneMore(free, p);
        free := [p] + free;
        p := p + 1;
      }
    }

    /** kalloc: the first free frame, if any. */
    method Kalloc() returns (ok: bool, f: nat)
      requires Valid()
      modifies this`free, this`loose
      ensures Valid() && (ok <==> old(free) != [])
      ensures ok ==> f == old(free)[0] && free == old(free)[1..] && loose == old(loose) + {f} && f !in own && f !in old(loose)
      ensures !ok ==> free == old(free) && loose == old(loose)
    {
      hide Owned;
      ok, f := free != [], 0;
      if ok {
        f := free[0];
        assert free == [f] + free[1..];
        free := free[1..];
        loose := loose + {f};
      }
    }

    /** kfree of a frame in hand: junk in the frame, the frame in front of the free list. */
    method Kfree(f: nat)
      requires Valid() && f in loose
      modifies this`free, this`loose, this`mem
      ensures Valid() && free == [f] + old(free) && loose == old(loose) - {f} && mem == old(mem)[f := Junk]
      ensures Quiet(old(mem), own, mem)
    {
      hide Owned, Entry;
      OffTablesOwned(mem, own, f, Junk);
      mem := mem[f := Junk];
      free := [f] + free;
      loose := loose - {f};
      assert forall g :: g in free <==> g == f || g in old(free);
    }

    /**
     walkpgdir with allocation: the page table for virtual page v is there
     afterwards, empty if new; nothing at all changes when it cannot be allocated.
     */
    method WalkAlloc(d: nat, v: nat) returns (ok: bool)
      requires Valid() && IsDir(own, d) && v < ALLPAGES
      modifies this
      ensures Valid() && loose == old(loose) && (ok <==> Slot(old(mem), d, v / NPT).Pte? || old(free) != [])
      ensures ok ==> HasTable(mem, own, d, v) && Spread(old(mem), old(own), d, v, v, mem, own)
      ensures ok ==> TablesIn(old(own), own, v / NPT, v / NPT + 1)
      ensures ok ==> forall f :: f in loose && f in old(mem) ==> f in mem && mem[f] == old(mem)[f]
      ensures !ok ==> free == old(free) && mem == old(mem) && own == old(own) && free == [] && Slot(mem, d, v / NPT) == NoPte
    {
      hide Owned, Entry;
      var i := v / NPT;
      ok := true;
      if Slot(mem, d, i) == NoPte {
        var t: nat;
        ok, t := Kalloc();
        if ok {
          AddTableAll(mem, own, d, i, t);
          mem := AddTable(mem, d, i, t);
          own := own[t := TableOf(d, i)];
          loose := loose - {t};
        }
      }
    }

    /**
     mappages for one user page: the frame in hand becomes virtual page v of d,
     unless the page table cannot be allocated or the page is mapped already.
     */
    method MapUser(d: nat, v: nat, f: nat, write: bool, user: bool) returns (r: Outcome)
      requires Valid() && IsDir(own, d) && v < USERPAGES && f in loose && f in mem && WholePage(mem[f])
      modifies this
      ensures Valid() && IsDir(own, d) && (r.Panic? <==> Entry(old(mem), d, v).Pte?)
      ensures r.NoMemory? <==> old(free) == [] && Slot(old(mem), d, v / NPT) == NoPte
      ensures !r.Done? ==> loose == old(loose)
      ensures r.NoMemory? ==> mem == old(mem) && own == old(own) && free == old(free) == [] && Slot(mem, d, v / NPT) == NoPte
      ensures r.Done? ==> TablesIn(old(own), own, v / NPT, v / NPT + 1)
      ensures r.Done? ==> loose == old(loose) - {f} && Entry(mem, d, v) == Pte(f, write, user)
      ensures r.Done? ==> f in mem && mem[f] == old(mem)[f] && Spread(old(mem), old(own), d, v, v + 1, mem, own)
    {
      hide Owned, Entry, SetEntry, Balance, Slot;
      ghost var mem0, own0 := mem, own;
      OwnedInMem(mem, own);
      if Entry(mem, d, v).Pte? {
        EntryHasTable(mem, own, d, v);
      }
      var ok := WalkAlloc(d, v);
      if !ok {
        return NoMemory;
      }
      if Entry(mem, d, v).Pte? {
        return Panic;
      }
      ghost var mem1, own1 := mem, own;
      Enter(d, v, Pte(f, write, user));
      SpreadTrans(mem0, own0, d, v, v, mem1, own1, v, v + 1, mem, own, v, v + 1);
      return Done;
    }

    /** The entry is written and the frame in hand belongs to the directory. */
    method Enter(d: nat, v: nat, e: Pte)
      requires Valid() && HasTable(mem, own, d, v) && v < USERPAGES && Entry(mem, d, v) == NoPte
      requires e.Pte? && e.frame in loose && e.frame in mem && WholePage(mem[e.frame])
      modifies this`mem, this`own, this`loose
      ensures Valid() && loose == old(loose) - {e.frame} && Entry(mem, d, v) == e && own == old(own)[e.frame := PageOf(d, v)]
      ensures e.frame in mem && mem[e.frame] == old(mem)[e.frame] && Spread(old(mem), old(own), d, v, v + 1, mem, own)
    {
      hide Owned, Entry, SetEntry, Balance, Slot;
      InHand();
      AttachPage(mem, own, d, v, e);
      EntriesAfterSet(mem, own, d, v, e);
      SetKeepsPages(mem, own, d, v, e);
      TakenIntoOwn(all, free, own, loose, e.frame, PageOf(d, v));
      mem := SetEntry(mem, d, v, e);
      own := own[e.frame := PageOf(d, v)];
      loose := loose - {e.frame};
    }

    lemma InHand()
      requires Valid()
      ensures forall f :: f in loose ==> f !in own
    {
      hide Owned;
    }

    /** The frames that a directory holds pass kfree's test. */
    lemma OwnFreeable(f: nat)
      requires Valid() && f in own
      ensures Freeable(f) && f != 0
    {
      hide Owned, NoDup;
      assert f in all;
    }

    /** deallocuvm's work on a present entry: the frame passes kfree's test and is freed, and the entry is cleared. */
    method Unmap(d: nat, v: nat)
      requires Valid() && IsDir(own, d) && v < USERPAGES && Entry(mem, d, v).Pte?
      modifies this
      ensures Valid() && loose == old(loose)
      ensures var p := Entry(old(mem), d, v).frame;
              && p != 0 && Freeable(p) && own == old(own) - {p} && free == [p] + old(free)
              && SamePages(old(mem), own, mem)
      ensures forall c, x :: IsDir(old(own), c) && 0 <= x < ALLPAGES ==>
                Entry(mem, c, x) == if c == d && x == v then NoPte else Entry(old(mem), c, x)
    {
      hide Owned, Entry, SetEntry;
      ghost var mem0, own0 := mem, own;
      var p := Entry(mem, d, v).frame;
      DetachPage(mem, own, d, v);
      OwnedEntry(mem, own, d, v);
      OwnFreeable(p);
      EntriesAfterSet(mem, own, d, v, NoPte);
      SetKeepsPages(mem, own, d, v, NoPte);
      mem := SetEntry(mem, d, v, NoPte);
      own := own - {p};
      loose := loose + {p};
      assert forall c :: IsDir(own0, c) ==> IsDir(own, c);
      Kfree(p);
    }

    /** deallocuvm's loop below KERNBASE: it skips whole page tables that are not there. */
    method UnmapUser(d: nat, lo: nat, hi: nat)
      requires Valid() && IsDir(own, d) && lo <= hi <= USERPAGES
      modifies this
      ensures Valid() && loose == old(loose) && IsDir(own, d)
      ensures Shrunk(old(mem), old(own), d, lo, hi, mem, own)
    {
      hide Owned, Entry, Balance, Slot, Placed;
      ghost var mem0, own0 := mem, own;
      var a := lo;
      ShrunkNothing(mem, own, d, lo);
      while a < hi
        invariant lo <= a <= hi
        invariant Valid() && loose == old(loose) && IsDir(own, d)
        invariant Shrunk(mem0, own0, d, lo, a, mem, own)
      {
        if Slot(mem, d, a / NPT) == NoPte {
          var next := (a / NPT + 1) * NPT;
          var b := if next < hi then next else hi;
          NoTableNoEntries(mem, d, a, b);
          ShrunkSkip(mem0, own0, d, lo, a, b, mem, own);
          a := b;
        } else {
          assert Entry(mem, d, a) == Entry(mem0, d, a);
          if Entry(mem, d, a).Pte? {
            ghost var mem1, own1 := mem, own;
            Unmap(d, a);
            ShrunkOne(mem0, own0, d, lo, a, mem1, own1, Entry(mem0, d, a).frame, mem);
          } else {
            ShrunkSkip(mem0, own0, d, lo, a, a + 1, mem, own);
          }
          a := a + 1;
        }
      }
    }

    /**
     deallocuvm's loop above KERNBASE: it stops at the first page that the
     kernel maps, with panic "kfree" or by handing a frame of the kernel to kfree.
     */
    method MeetKernel(d: nat, lo: nat, hi: nat) returns (r: Fate)
      requires Valid() && KernelMapped(mem, d) && USERPAGES <= lo && hi <= ALLPAGES
      ensures r == KernelFate(end, lo, hi)
    {
      hide Owned, Entry, Balance, Slot;
      var a := lo;
      while a < hi
        invariant lo <= a && (a <= hi || a == lo)
        invariant a > lo ==> PHYSTOP <= lo && a <= DEVSPACE
      {
        var e := Entry(mem, d, a);
        assert KernelPage(e, a);
        if e.Pte? {
          return if e.frame == 0 || !Freeable(e.frame) then Panics else Frees;
        }
        a := a + 1;
      }
      return Fine;
    }

    /**
     deallocuvm: the user pages from newsz up to oldsz are unmapped and their
     frames freed.  Nothing happens when the size does not shrink; a range that
     reaches into the kernel's mappings ends as ShrinkFate says.
     */
    method Deallocuvm(d: nat, oldsz: nat, newsz: nat) returns (r: SizeResult)
      requires Valid() && IsDir(own, d) && oldsz < WRAP && newsz < WRAP
      requires oldsz <= USERPAGES * PGSIZE || KernelMapped(mem, d)
      modifies this
      ensures Valid() && loose == old(loose) && IsDir(own, d)
      ensures r.Halted? <==> ShrinkFate(end, newsz, oldsz).Panics?
      ensures r.Wild? <==> ShrinkFate(end, newsz, oldsz).Frees?
      ensures ShrinkFate(end, newsz, oldsz).Fine? ==> r == Size(if newsz >= oldsz then oldsz else newsz)
      ensures newsz >= oldsz ==> mem == old(mem) && own == old(own) && free == old(free)
      ensures r.Size? && newsz < oldsz ==> Shrunk(old(mem), old(own), d, UserPages(newsz), UserPages(oldsz), mem, own)
    {
      hide Owned, Entry, Balance, Slot, Placed, KernelMapped;
      if newsz >= oldsz {
        return Size(oldsz);
      }
      ghost var mem0, own0 := mem, own;
      var lo, hi := PagesFor(newsz) % ALLPAGES, PagesFor(oldsz);
      SizePages(newsz, oldsz);
      UnmapUser(d, if lo < USERPAGES then lo else USERPAGES, UserPages(oldsz));
      if hi <= USERPAGES {
        return Size(newsz);
      }
      ShrunkKernel(mem0, own0, d, if lo < USERPAGES then lo else USERPAGES, UserPages(oldsz), mem, own);
      var f := MeetKernel(d, if lo < USERPAGES then USERPAGES else lo, hi);
      match f {
        case Fine => return Size(newsz);
        case Panics => return Halted;
        case Frees => return Wild;
      }
    }

    /** memset of a frame in hand, or memmove of a whole page into it. */
    method Fill(f: nat, x: Frame)
      requires Valid() && f in loose
      modifies this`mem
      ensures Valid() && mem == old(mem)[f := x] && Quiet(old(mem), own, mem)
    {
      hide Owned, Entry, Balance;
      InHand();
      OffTablesOwned(mem, own, f, x);
      mem := mem[f := x];
    }

    /**
     reservarPagina: a fresh zeroed page at v.  When memory runs out nothing
     that a directory or a user page holds has changed.
     */
    method ReservePage(d: nat, v: nat) returns (r: Outcome)
      requires Valid() && IsDir(own, d) && v < USERPAGES
      modifies this
      ensures Valid() && (r.Panic? <==> old(free) != [] && Entry(old(mem), d, v).Pte?)
      ensures !r.Panic? ==> loose == old(loose)
      ensures r.NoMemory? <==> |old(free)| < FaultNeeds(old(mem), d, v)
      ensures r.NoMemory? ==> own == old(own) && Quiet(old(mem), own, mem)
      ensures r.Done? ==> Entry(old(mem), d, v) == NoPte && ZeroAt(mem, d, v) && Spread(old(mem), old(own), d, v, v + 1, mem, own)
    {
      hide Owned, Entry, Balance, Slot;
      ghost var mem0, own0 := mem, own;
      OwnedInMem(mem, own);
      EntryTable(mem, d, v);
      var ok, f := Kalloc();
      if !ok {
        return NoMemory;
      }
      Fill(f, ZeroPage());
      ghost var mem1 := mem;
      SlotThen(mem0, own0, mem1, d, v / NPT);
      QuietSpread(mem0, own0, d, v, mem1);
      r := MapUser(d, v, f, true, true);
      if r.Done? {
        SpreadTrans(mem0, own0, d, v, v, mem1, own0, v, v + 1, mem, own, v, v + 1);
      } else if r.NoMemory? {
        Kfree(f);
      }
    }

    /**
     allocuvm: zeroed pages from oldsz up to newsz.  On failure the pages
     mapped so far are unmapped again, so that only page tables stay.
     */
    method Allocuvm(d: nat, oldsz: nat, newsz: nat) returns (r: SizeResult)
      requires Valid() && IsDir(own, d)
      modifies this
      ensures Valid()
      ensures newsz >= USERPAGES * PGSIZE ==> r == Failed && mem == old(mem) && own == old(own) && free == old(free)
      ensures newsz < USERPAGES * PGSIZE && newsz < oldsz ==>
                r == Size(oldsz) && mem == old(mem) && own == old(own) && free == old(free)
      ensures !r.Halted? ==> loose == old(loose)
      ensures oldsz <= newsz < USERPAGES * PGSIZE && Hole(old(mem), d, PagesFor(oldsz), PagesFor(newsz)) ==>
                && Grew(old(mem), old(own), d, PagesFor(oldsz), PagesFor(newsz), mem, own, newsz, r)
                && (r == Failed <==> |old(free)| < GrowthNeeds(old(mem), d, PagesFor(oldsz), PagesFor(newsz)))
    {
      hide Owned, Entry, Balance, Spread, Quiet, SamePages, TablesIn, GrowthNeeds, Slot;
      if newsz >= USERPAGES * PGSIZE {
        return Failed;
      }
      if newsz < oldsz {
        return Size(oldsz);
      }
      ghost var mem0, own0, lo, hole := mem, own, PagesFor(oldsz), Hole(mem, d, PagesFor(oldsz), PagesFor(newsz));
      var a, hi := PagesFor(oldsz), PagesFor(newsz);
      SpreadNothing(mem, own, d, lo);
      OwnedInMem(mem, own);
      NoNewTables(own, lo);
      FrameSum(all, free, own, loose);
      while a < hi
        invariant lo <= a <= hi <= USERPAGES
        invariant Valid() && loose == old(loose) && IsDir(own, d)
        invariant Spread(mem0, own0, d, lo, a, mem, own) && ZeroRange(mem, d, lo, a)
        invariant TablesIn(own0, own, lo / NPT, TableEnd(lo, a))
      {
        GrowthShort(mem0, own0, mem, own, d, lo, a, hi);
        FrameSum(all, free, own, loose);
        var ok, f := Kalloc();
        if !ok {
          var _ := Unspread(mem0, own0, d, lo, a, newsz, oldsz, hole);
          return Failed;
        }
        ghost var mem1, own1 := mem, own;
        Fill(f, ZeroPage());
        QuietSpread(mem1, own1, d, a, mem);
        SpreadTrans(mem0, own0, d, lo, a, mem1, own1, a, a, mem, own, lo, a);
        ghost var mem2 := mem;
        SpreadEntry(mem0, own0, d, lo, a, mem, own, d, a);
        var m := MapUser(d, a, f, true, true);
        if m.Panic? {
          return Halted;
        }
        if m.NoMemory? {
          GrowthShort(mem0, own0, mem, own, d, lo, a, hi);
          FrameSum(all, free, own, loose);
          var _ := Unspread(mem0, own0, d, lo, a, newsz, oldsz, hole);
          ghost var mem3, own3 := mem, own;
          Kfree(f);
          if hole {
            QuietSpread(mem3, own3, d, lo, mem);
            SpreadTrans(mem0, own0, d, lo, lo, mem3, own3, lo, lo, mem, own, lo, lo);
          }
          return Failed;
        }
        SpreadTrans(mem0, own0, d, lo, a, mem2, own1, a, a + 1, mem, own, lo, a + 1);
        SpreadAllFor(mem2, own1, d, a, a + 1, mem, own);
        TablesMore(own0, own1, own, lo, a);
        MoreZeros(mem1, own1, mem2, d, lo, a, mem, own);
        a := a + 1;
      }
      if hole {
        ZerosMapped(mem, d, lo, hi);
        GrowthFull(mem0, own0, mem, own, d, lo, hi);
      }
      FrameSum(all, free, own, loose);
      return Size(newsz);
    }

    /** The failure path of allocuvm up to its last kfree. */
    method Unspread(ghost mem0: Mem, ghost own0: map<nat, Owner>, d: nat, ghost lo: nat, ghost a: nat,
                    newsz: nat, oldsz: nat, ghost hole: bool)
      returns (sz: SizeResult)
      requires Valid() && Owned(mem0, own0) && IsDir(own0, d) && IsDir(own, d) && oldsz < newsz <= USERPAGES * PGSIZE
      requires lo == PagesFor(oldsz) <= a <= PagesFor(newsz) && Spread(mem0, own0, d, lo, a, mem, own)
      requires hole ==> Hole(mem0, d, lo, PagesFor(newsz))
      modifies this
      ensures Valid() && loose == old(loose) && IsDir(own, d)
      ensures hole ==> Spread(mem0, own0, d, lo, lo, mem, own)
    {
      hide Owned, Entry, Balance;
      ghost var mem1, own1 := mem, own;
      sz := Deallocuvm(d, newsz, oldsz);
      if hole {
        Undone(mem0, own0, d, lo, a, mem1, own1, PagesFor(newsz), mem, own);
      }
    }

    /** freevm: exactly the frames of directory d go back to the free list; the others are not touched. */
    method Freevm(d: nat)
      requires Valid() && IsDir(own, d)
      modifies this
      ensures Valid() && loose == old(loose) && Dropped(old(mem), old(own), d, mem, own)
      ensures AsSet(free) == AsSet(old(free)) + FramesOf(old(own), d)
    {
      hide Owned, Entry, Balance, Slot, SamePages, Belongs;
      ghost var mem0, own0, loose0, free0 := mem, own, loose, free;
      var _ := Deallocuvm(d, USERPAGES * PGSIZE, 0);
      ghost var mem1, own1 := mem, own;
      OwnedInMem(mem, own);
      DropDir(mem, own, d, mem);
      LetGo(all, free, own, loose, FramesOf(own, d));
      UserFrames(mem0, own0, d, own1);
      own := own - FramesOf(own1, d);
      loose := loose + FramesOf(own1, d);
      FreeTables(d, mem1, own1, loose0);
      ghost var mem2 := mem;
      Kfree(d);
      QuietTrans(mem1, own, mem2, mem);
      DroppedAll(mem0, own0, d, mem1, own1, mem, own);
      Returned(all, free0, own0, loose0, free, own, FramesOf(own0, d));
    }

    /** freevm's loop over the directory. */
    method FreeTables(d: nat, ghost mem1: Mem, ghost own1: map<nat, Owner>, ghost loose0: set<nat>)
      requires Valid() && Owned(mem1, own1) && IsDir(own1, d) && mem == mem1 && own == own1 - FramesOf(own1, d)
      requires loose == loose0 + {d} + TablesFrom(own1, d, 0) && loose0 !! own1.Keys
      modifies this`free, this`loose, this`mem
      ensures Valid() && loose == loose0 + {d} && Quiet(mem1, own, mem)
    {
      hide Owned, Entry, Balance, Slot, Belongs;
      OwnedInMem(mem1, own1);
      var i := 0;
      while i < NPT
        invariant i <= NPT && Valid()
        invariant loose == loose0 + {d} + TablesFrom(own1, d, i)
        invariant d in mem && d in mem1 && mem[d] == mem1[d] && Quiet(mem1, own, mem)
      {
        SameFrameSlot(mem1, mem, d, i);
        TablesStep(mem1, own1, d, i);
        if Slot(mem, d, i).Pte? {
          Kfree(Slot(mem, d, i).frame);
        }
        i := i + 1;
      }
    }

    /** The kernel entry is written; no frame changes hands. */
    method EnterKernel(d: nat, v: nat, e: Pte)
      requires Valid() && HasTable(mem, own, d, v) && USERPAGES <= v
      modifies this`mem
      ensures Valid() && Entry(mem, d, v) == e && Spread(old(mem), own, d, v, v + 1, mem, own)
    {
      hide Owned, Entry, SetEntry, Balance, Slot;
      MapKernel(mem, own, d, v, e);
      EntriesAfterSet(mem, own, d, v, e);
      SetKeepsPages(mem, own, d, v, e);
      mem := SetEntry(mem, d, v, e);
    }

    /** mappages for a kernel range of virtual pages v0 .. v0 + n - 1. */
    method MapRange(d: nat, v0: nat, n: nat, p0: nat, write: bool) returns (r: Outcome)
      requires Valid() && IsDir(own, d) && USERPAGES <= v0 && v0 + n <= ALLPAGES
      modifies this
      ensures Valid() && loose == old(loose) && IsDir(own, d) && Spread(old(mem), old(own), d, v0, v0 + n, mem, own)
      ensures Hole(old(mem), d, v0, v0 + n) ==> !r.Panic?
      ensures r.Done? ==> KernelRange(mem, d, v0, v0 + n, p0, write)
      ensures TablesIn(old(own), own, v0 / NPT, TableEnd(v0, v0 + n))
      ensures r.NoMemory? ==> free == [] && exists i :: v0 / NPT <= i < TableEnd(v0, v0 + n) && Slot(mem, d, i) == NoPte
    {
      hide Owned, Entry, Balance, Spread, SamePages, TablesIn, Slot;
      ghost var mem0, own0 := mem, own;
      var a := v0;
      SpreadNothing(mem, own, d, v0);
      OwnedInMem(mem, own);
      SpreadWiden(mem0, own0, d, v0, v0, mem, own, v0 + n);
      NoNewTables(own, v0);
      while a < v0 + n
        invariant v0 <= a <= v0 + n && Valid() && loose == old(loose) && IsDir(own, d)
        invariant Spread(mem0, own0, d, v0, a, mem, own) && KernelRange(mem, d, v0, a, p0, write)
        invariant TablesIn(own0, own, v0 / NPT, TableEnd(v0, a))
      {
        ghost var mem1, own1 := mem, own;
        SpreadWiden(mem0, own0, d, v0, a, mem, own, v0 + n);
        EndsGrow(v0, a, v0 + n);
        TablesWiden(own0, own, v0, a, v0 + n);
        var ok := WalkAlloc(d, a);
        if !ok {
          return NoMemory;
        }
        SpreadAllFor(mem1, own1, d, a, a, mem, own);
        TablesMore(own0, own1, own, v0, a);
        TablesWiden(own0, own, v0, a + 1, v0 + n);
        SpreadTrans(mem0, own0, d, v0, a, mem1, own1, a, a, mem, own, v0, a);
        SpreadEntry(mem0, own0, d, v0, a, mem, own, d, a);
        if Entry(mem, d, a).Pte? {
          SpreadWiden(mem0, own0, d, v0, a, mem, own, v0 + n);
          return Panic;
        }
        ghost var mem2, own2 := mem, own;
        EnterKernel(d, a, Pte(p0 + (a - v0), write, false));
        KernelMore(mem1, own1, mem2, own2, d, v0, a, mem, p0, write);
        SpreadTrans(mem0, own0, d, v0, a, mem2, own2, a, a + 1, mem, own, v0, a + 1);
        a := a + 1;
      }
      return Done;
    }

    /**
     setupkvm: a directory with the kernel's mappings and no user page, or
     nothing changed at all but the order of the free list.
     */
    method Setupkvm() returns (ok: bool, d: nat)
      requires Valid()
      modifies this
      ensures Valid() && loose == old(loose)
      ensures ok <==> |old(free)| >= 1 + KERNELTABLES
      ensures ok ==> Added(old(mem), old(own), d, mem, own) && KernelUpTo(mem, d, data, ALLPAGES) && DirTables(mem, d) <= KernelTables()
      ensures !ok ==> own == old(own) && Quiet(old(mem), own, mem) && AsSet(free) == AsSet(old(free))
    {
      hide Owned, Entry, Balance, Spread, Quiet, KernelUpTo, Added, Dropped, TablesIn, KernelTables, DirPages, DirTables, Slot;
      ghost var mem0, own0, free0 := mem, own, free;
      FrameSum(all, free, own, loose);
      KernelTablesCount();
      ok, d := Kalloc();
      if !ok {
        QuietRefl(mem, own);
        return;
      }
      NewDirectory(d);
      var ranges := Kmap(data);
      KernelNone(mem, d, data);
      NoTablesYet(mem, d);
      var k := 0;
      while k < |ranges|
        invariant k <= |ranges| && Valid() && loose == old(loose) && IsDir(own, d)
        invariant Added(mem0, own0, d, mem, own) && KernelUpTo(mem, d, data, KernelBound(data, k))
        invariant DirTables(mem, d) <= KernelTables()
      {
        var r := SetupRange(d, ranges[k], k, mem0, own0);
        if r.NoMemory? {
          FrameSum(all, free, own, loose);
          FreeNew(d, mem0, own0, free0);
          return false, d;
        }
        k := k + 1;
      }
      SetupFull(mem0, own0, mem, own, d, data);
      FrameSum(all, free, own, loose);
    }

    /** One round of setupkvm's loop: range k of kmap. */
    method SetupRange(d: nat, m: KernelMap, ghost k: nat, ghost mem0: Mem, ghost own0: map<nat, Owner>)
      returns (r: Outcome)
      requires Valid() && k < 4 && m == Kmap(data)[k] && Owned(mem0, own0)
      requires Added(mem0, own0, d, mem, own) && KernelUpTo(mem, d, data, KernelBound(data, k)) && DirTables(mem, d) <= KernelTables()
      modifies this
      ensures Valid() && loose == old(loose) && IsDir(own, d) && Added(mem0, own0, d, mem, own) && DirTables(mem, d) <= KernelTables()
      ensures r.Done? ==> KernelUpTo(mem, d, data, KernelBound(data, k + 1))
      ensures r.NoMemory? ==> free == [] && |own| - |own0| < 1 + KERNELTABLES
      ensures !r.Panic?
    {
      hide Owned, Entry, Balance, Spread, Quiet, KernelUpTo, TablesIn, KernelTables, DirPages, DirTables, Slot, Kmap, KernelBound, Belongs;
      ghost var mem1, own1 := mem, own;
      KernelGap(mem, d, data, k);
      r := MapRange(d, m.virt, m.pages, m.phys, m.write);
      AddedSpread(mem0, own0, d, mem1, own1, m.virt, m.virt + m.pages, mem, own);
      SpreadAllFor(mem1, own1, d, m.virt, m.virt + m.pages, mem, own);
      DirTablesGrow(mem1, own1, mem, own, d, m.virt / NPT, TableEnd(m.virt, m.virt + m.pages));
      KmapTables(data, k);
      if r.NoMemory? {
        StillNoPages(mem1, own1, d, data, KernelBound(data, k), m.virt, m.virt + m.pages, mem, own);
        SetupShort(mem0, own0, mem, own, d, m.virt / NPT, TableEnd(m.virt, m.virt + m.pages));
      } else {
        KernelNext(mem1, own1, d, data, k, mem, own);
      }
    }

    /** freevm of a directory made since mem0: all as it was. */
    method FreeNew(d: nat, ghost mem0: Mem, ghost own0: map<nat, Owner>, ghost free0: seq<nat>)
      requires Valid() && Owned(mem0, own0) && Balance(all, free0, own0, loose) && Added(mem0, own0, d, mem, own)
      modifies this
      ensures Valid() && loose == old(loose) && own == own0 && Quiet(mem0, own, mem) && AsSet(free) == AsSet(free0)
    {
      hide Owned, Entry, Balance, Quiet, Dropped;
      ghost var mem1, own1 := mem, own;
      Freevm(d);
      AddedDropped(mem0, own0, d, mem1, own1, mem, own);
      SameFree(all, free0, free, own, loose);
    }

    /** A frame in hand becomes an empty directory. */
    method NewDirectory(d: nat)
      requires Valid() && d in loose
      modifies this`mem, this`own, this`loose
      ensures Valid() && IsDir(own, d) && loose == old(loose) - {d} && Added(old(mem), old(own), d, mem, own)
      ensures Hole(mem, d, 0, ALLPAGES) && forall i :: 0 <= i < NPT ==> Slot(mem, d, i) == NoPte
    {
      hide Owned, Entry, Balance;
      InHand();
      NewDir(mem, own, d);
      EmptyDir(mem, d);
      TakenIntoOwn(all, free, own, loose, d, DirOf);
      mem := mem[d := ZeroTable()];
      own := own[d := DirOf];
      loose := loose - {d};
    }

    /**
     copyuvm up to user page n: a new directory whose pages are copies of those
     of src, with the same rights and a hole for every hole.  On failure nothing
     has changed but the order of the free list.
     */
    method CopyUser(src: nat, n: nat) returns (ok: bool, d: nat)
      requires Valid() && IsDir(own, src) && n <= USERPAGES
      modifies this
      ensures Valid() && loose == old(loose)
      ensures ok <==> |old(free)| >= CopyNeeds(old(mem), src, n)
      ensures ok ==> |free| == |old(free)| - CopyNeeds(old(mem), src, n)
      ensures ok ==> Added(old(mem), old(own), d, mem, own) && CopyRange(old(mem), src, mem, d, n) && CleanFrom(mem, d, data, n)
      ensures !ok ==> own == old(own) && Quiet(old(mem), own, mem) && AsSet(free) == AsSet(old(free))
    {
      hide Owned, Entry, Balance, Spread, Quiet, Added, KernelEntry, TablesIn, DirTables, KernelTables, UserTables, MappedBelow, Slot;
      ghost var mem0, own0, free0 := mem, own, free;
      FrameSum(all, free, own, loose);
      ok, d := Setupkvm();
      if !ok {
        return;
      }
      NothingCopied(mem0, src, mem, d, data);
      AddedDir(mem0, own0, d, mem, own, src);
      NoUserTables(mem0, src);
      var i := 0;
      while i < n
        invariant i <= n && Valid() && loose == old(loose) && IsDir(own, d) && IsDir(own, src)
        invariant Added(mem0, own0, d, mem, own) && CopyRange(mem0, src, mem, d, i) && CleanFrom(mem, d, data, i)
        invariant DirTables(mem, d) <= KernelTables() + UserTables(mem0, src, i)
      {
        ghost var mem1, own1 := mem, own;
        var e := Entry(mem, src, i);
        AddedKeeps(mem0, own0, d, mem, own, src, i);
        if e.Pte? {
          CopyShort(mem0, own0, src, mem, own, d, data, i, n);
          FrameSum(all, free, own, loose);
          var f: nat;
          ok, f := Kalloc();
          if !ok {
            FreeNew(d, mem0, own0, free0);
            return;
          }
          Fill(f, mem[e.frame]);
          QuietSpread(mem1, own1, d, i, mem);
          AddedSpread(mem0, own0, d, mem1, own1, i, i, mem, own);
          ghost var mem2 := mem;
          CleanEntry(mem1, own1, d, data, i, mem2);
          var r := MapUser(d, i, f, e.write, e.user);
          if r.NoMemory? {
            SlotThen(mem1, own1, mem2, d, i / NPT);
            ghost var mem3 := mem;
            Kfree(f);
            QuietSpread(mem3, own, d, i, mem);
            AddedSpread(mem0, own0, d, mem3, own, i, i, mem, own);
            FreeNew(d, mem0, own0, free0);
            return false, d;
          }
          AddedSpread(mem0, own0, d, mem2, own1, i, i + 1, mem, own);
          AddedDir(mem0, own0, d, mem, own, src);
          CopyOne(mem0, src, mem1, own1, mem2, d, i, mem, own);
          CleanOne(mem1, own1, mem2, d, data, i, mem, own);
          SpreadAllFor(mem2, own1, d, i, i + 1, mem, own);
          DirTablesGrow(mem1, own1, mem, own, d, i / NPT, i / NPT + 1);
        } else {
          CopyHole(mem0, src, mem, d, data, i);
        }
        CopyTablesNext(mem0, src, i, DirTables(mem1, d), DirTables(mem, d));
        i := i + 1;
      }
      CopyFull(mem0, own0, src, mem, own, d, data, n);
      FrameSum(all, free, own, loose);
    }

    /**
     copyuvm.  Above KERNBASE the first page it comes to is mapped in the new
     directory already: given a frame for the copy, mappages panics "remap".
     */
    method Copyuvm(src: nat, sz: nat) returns (r: Outcome, d: nat)
      requires Valid() && IsDir(own, src) && KernelMapped(mem, src)
      modifies this
      ensures Valid() && (!r.Panic? ==> loose == old(loose))
      ensures r.Done? <==> sz <= USERPAGES * PGSIZE && |old(free)| >= CopyNeeds(old(mem), src, UserPages(sz))
      ensures r.Panic? <==> sz > USERPAGES * PGSIZE && |old(free)| >= CopyNeeds(old(mem), src, USERPAGES) + 1
      ensures r.Done? ==> Added(old(mem), old(own), d, mem, own)
      ensures r.Done? ==> CopyRange(old(mem), src, mem, d, UserPages(sz)) && CleanFrom(mem, d, data, UserPages(sz))
      ensures r.NoMemory? ==> own == old(own) && Quiet(old(mem), own, mem) && AsSet(free) == AsSet(old(free))
    {
      hide Owned, Entry, Balance, Spread, Quiet, Added, CopyNeeds, CopyRange, KernelMapped, Slot, Placed;
      ghost var mem0, own0, free0 := mem, own, free;
      var ok;
      ok, d := CopyUser(src, UserPages(sz));
      if !ok {
        return NoMemory, d;
      }
      if PagesFor(sz) > USERPAGES {
        KernelPresent(mem, d, data);
        var got, f := Kalloc();
        if !got {
          FreeNew(d, mem0, own0, free0);
          return NoMemory, d;
        }
        ghost var mem1, own1 := mem, own;
        AddedDir(mem0, own0, d, mem, own, src);
        ok := WalkAlloc(d, USERPAGES);
        SpreadEntry(mem1, own1, d, USERPAGES, USERPAGES, mem, own, d, USERPAGES);
        assert Entry(mem, d, USERPAGES).Pte?;
        return Panic, d;
      }
      return Done, d;
    }

    /** A store by the program into its page x. */
    method Poke(d: nat, x: nat, k: nat, b: nat)
      requires Valid() && IsDir(own, d) && x < USERPAGES && k < PGSIZE && Entry(mem, d, x).Pte?
      modifies this`mem
      ensures Valid() && var f := Entry(old(mem), d, x).frame;
              f in old(mem) && WholePage(old(mem)[f]) && mem == old(mem)[f := Page(old(mem)[f].bytes[k := b])]
      ensures forall c, v :: IsDir(own, c) && 0 <= v < ALLPAGES ==> Entry(mem, c, v) == Entry(old(mem), c, v)
    {
      hide Owned, Entry, Balance;
      var f := Entry(mem, d, x).frame;
      OwnedEntry(mem, own, d, x);
      OwnedAt(mem, own, f);
      OffTablesOwned(mem, own, f, Page(mem[f].bytes[k := b]));
      mem := mem[f := Page(mem[f].bytes[k := b])];
    }

    /** freemem: the number of free frames, or of free bytes; -1 for any other request. */
    method Freemem(kind: int) returns (r: int)
      requires Valid()
      ensures r == if kind == 0 then |free| else if kind == 1 then PGSIZE * |free| else -1
      ensures kind == 0 ==> r == |all - own.Keys - loose|
    {
      hide Owned;
      var pages, rest := 0, free;
      while rest != []
        invariant pages + |rest| == |free|
        decreases |rest|
      {
        pages, rest := pages + 1, rest[1..];
      }
      FreeCount();
      return if kind == 0 then pages else if kind == 1 then PGSIZE * pages else -1;
    }

    lemma FreeCount()
      requires Balance(all, free, own, loose)
      ensures |free| == |all - own.Keys - loose|
    {
      SeqSet(free);
      assert AsSet(free) == all - own.Keys - loose;
    }
  }
}
