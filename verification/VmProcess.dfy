/** Memory of one process: growproc, sys_sbrk, the page-fault case of trap, and the memory part of fork. */
module VmProcess {
  import opened VmTree
  import opened VmMoves
  import opened VmCount
  import opened VmUser
  import opened VmCode

  /** What an access comes to; NoFrames is the end of the process for want of memory. */
  datatype Access = Value(b: nat) | Stored | Killed | NoFrames | Panicked

  /** A system call returns, panics, or has freed a frame that the kernel maps for itself. */
  datatype Answer = Returned(value: int) | Down | Astray

  /** What the program gets from reading byte va, when frames are there. */
  function LoadResult(mem: Mem, p: Proc, va: nat): (r: Access) {
    match ReachOf(mem, p, va / PGSIZE, false)
    case Kill => Killed
    case Remap => Panicked
    case _ => Value(ByteOf(PageView(mem, p.pgdir, va / PGSIZE).bytes, va % PGSIZE))
  }

  function StoreResult(mem: Mem, p: Proc, va: nat): (r: Access) {
    match ReachOf(mem, p, va / PGSIZE, true)
    case Kill => Killed
    case Remap => Panicked
    case _ => Stored
  }

  /** The access needs a new page and there are not frames enough. */
  predicate Starved(mem: Mem, p: Proc, va: nat, write: bool, frames: nat) {
    var r := ReachOf(mem, p, va / PGSIZE, write);
    (r.Reserve? || r.Remap?) && frames < FaultNeeds(mem, p.pgdir, va / PGSIZE)
  }

  function ByteOf(bytes: seq<nat>, k: nat): (b: nat) {
    if k < |bytes| then bytes[k] else 0
  }

  // What the operations promise, as relations between memory before and after.

  /** The operation was p's: p and all other processes are in order, and no other process sees a difference. */
  ghost predicate Local(mem0: Mem, own0: map<nat, Owner>, p: Proc, mem: Mem, own: map<nat, Owner>, p': Proc) {
    && Owned(mem, own) && Elsewhere(mem0, own0, p.pgdir, mem, own) && ProcOk(mem, own, p')
    && p'.pgdir == p.pgdir && p'.guard == p.guard
  }

  ghost predicate BrkStep(mem0: Mem, own0: map<nat, Owner>, p: Proc, n: int, mem: Mem, own: map<nat, Owner>, p': Proc, addr: int) {
    Local(mem0, own0, p, mem, own, p') && SbrkReply(Memory(mem, p'), addr) == Sbrk(Memory(mem0, p), n)
  }

  ghost predicate LoadStep(mem0: Mem, own0: map<nat, Owner>, p: Proc, va: nat, mem: Mem, own: map<nat, Owner>, r: Access) {
    r == LoadResult(mem0, p, va) && (!r.Panicked? ==> Local(mem0, own0, p, mem, own, p) && Memory(mem, p) == Memory(mem0, p))
  }

  ghost predicate StoreStep(mem0: Mem, own0: map<nat, Owner>, p: Proc, va: nat, b: nat, mem: Mem, own: map<nat, Owner>, r: Access) {
    && r == StoreResult(mem0, p, va)
    && (!r.Panicked? ==> Local(mem0, own0, p, mem, own, p))
    && (r.Stored? ==> Memory(mem, p) == Written(Memory(mem0, p), va / PGSIZE, va % PGSIZE, b))
    && (r.Killed? ==> Memory(mem, p) == Memory(mem0, p))
  }

  /** c is a child of p, in a directory that was not there before. */
  ghost predicate ForkStep(mem0: Mem, own0: map<nat, Owner>, p: Proc, mem: Mem, own: map<nat, Owner>, c: Proc) {
    && Local(mem0, own0, p, mem, own, p) && ProcOk(mem, own, c) && c.sz == p.sz && c.pgdir !in own0
    && Memory(mem, c) == Memory(mem, p) == Memory(mem0, p)
    && forall x :: 0 <= x < UserPages(p.sz) ==> SameRights(mem, p.pgdir, c.pgdir, x)
  }

  /** What shrinking an image by -n leads to: reply r and image m', or the end of the kernel. */
  ghost predicate ShrinkReply(end: nat, m: Image, n: int, m': Image, r: Answer)
    requires |m.pages| == UserPages(m.size)
  {
    var fate := ShrinkFate(end, (m.size + n) % WRAP, m.size);
    && (r.Down? <==> fate.Panics?) && (r.Astray? <==> fate.Frees?)
    && (r.Returned? ==> m' == Sbrk(m, n).image && (r.value == -1 <==> Sbrk(m, n).addr == -1))
  }

  /** A process within user memory can give back what it likes. */
  lemma ShrinkFrom(end: nat, sz: nat, n: int)
    requires -0x8000_0000 <= n < 0
    ensures sz <= KERNBASE ==> ShrinkFate(end, (sz + n) % WRAP, sz).Fine?
  {
  }

  /** sbrk(n) and then sbrk(-n), by a process within user memory, panics exactly when the size was above KERNBASE between. */
  lemma SbrkAndBack(end: nat, sz: nat, n: int)
    requires sz <= KERNBASE < end * PGSIZE && 0 < n < 0x8000_0000
    ensures sz + n < WRAP && (sz + n - n) % WRAP == sz
    ensures ShrinkFate(end, sz, sz + n).Panics? <==> sz + n > KERNBASE
    ensures sz == 2 && n == 0x7FFF_FFFF ==> ShrinkFate(end, sz, sz + n).Panics?
  {
    ShrinkToUser(end, sz, sz + n);
  }

  class Process {
    const vm: Vm
    var pgdir: nat
    var sz: nat
    /** inicio_pagina_guarda */
    var guard: nat
    var killed: bool

    ghost function P(): Proc
      reads this
    {
      Proc(pgdir, sz, guard)
    }

    ghost predicate Valid()
      reads this, vm
    {
      vm.Valid() && ProcOk(vm.mem, vm.own, P())
    }

    /** Every other process sees the memory it saw. */
    twostate predicate Others()
      reads this, vm
    {
      Elsewhere(old(vm.mem), old(vm.own), old(pgdir), vm.mem, vm.own) && vm.loose == old(vm.loose)
    }

    constructor (vm: Vm, pgdir: nat, sz: nat, guard: nat)
      ensures this.vm == vm && P() == Proc(pgdir, sz, guard) && !killed
    {
      this.vm, this.pgdir, this.sz, this.guard, this.killed := vm, pgdir, sz, guard, false;
    }

    /**
     growproc: eager growth.  The image grows by zeros at once, or shrinks; a
     failed growth leaves it as it was.  A size that wraps around is reported as
     success, with nothing done.
     */
    method Growproc(n: int) returns (r: Answer)
      requires Valid() && -0x8000_0000 <= n < 0x8000_0000
      modifies this`sz, vm
      ensures vm.Valid() && (r.Returned? ==> Valid() && Others() && (r.value == 0 || r.value == -1))
      ensures n >= 0 ==> r.Returned?
      ensures n >= 0 && r == Returned(-1) ==> Memory(vm.mem, P()) == old(Memory(vm.mem, P()))
      ensures n >= 0 && r == Returned(0) ==>
                Memory(vm.mem, P()) == if old(sz) + n < WRAP then Sbrk(old(Memory(vm.mem, P())), n).image else old(Memory(vm.mem, P()))
      ensures n > 0 ==>
                (r == Returned(0) <==>
                   var newsz := (old(sz) + n) % WRAP;
                   && newsz < KERNBASE
                   && (newsz < old(sz) || |old(vm.free)| >= GrowthNeeds(old(vm.mem), pgdir, PagesFor(old(sz)), PagesFor(newsz))))
      ensures n < 0 ==> ShrinkReply(vm.end, old(Memory(vm.mem, P())), n, Memory(vm.mem, P()), r)
    {
      hide Owned, Entry, Balance, Spread, Shrunk, Hole, KernelMapped, PageView, Elsewhere, GrowthNeeds, ShrinkReply;
      ghost var mem0, own0, p0 := vm.mem, vm.own, P();
      SameElsewhere(mem0, own0, pgdir);
      if n > 0 {
        OpenHole();
        var newsz := (sz + n) % WRAP;
        var a := vm.Allocuvm(pgdir, sz, newsz);
        if a.Failed? || a == Size(0) {
          if newsz < KERNBASE {
            Unseen(mem0, own0, p0, PagesFor(sz), vm.mem, vm.own);
          }
          return Returned(-1);
        }
        if sz <= newsz {
          EagerGrowth(mem0, own0, p0, vm.mem, vm.own, newsz);
          SpreadElsewhere(mem0, own0, pgdir, PagesFor(sz), PagesFor(newsz), vm.mem, vm.own);
        }
        sz := a.n;
      } else if n < 0 {
        r := Shrink(n);
        return;
      } else {
        SameSize(vm.mem, P());
      }
      return Returned(0);
    }

    /** growproc for n < 0. */
    method Shrink(n: int) returns (r: Answer)
      requires Valid() && -0x8000_0000 <= n < 0
      modifies this`sz, vm
      ensures vm.Valid() && (r.Returned? ==> Valid() && Others() && (r.value == 0 || r.value == -1))
      ensures ShrinkReply(vm.end, old(Memory(vm.mem, P())), n, Memory(vm.mem, P()), r)
    {
      hide Owned, Entry, Balance, Spread, Shrunk, Hole, KernelMapped, PageView, Elsewhere, ShrinkFate;
      ghost var mem0, own0, p0 := vm.mem, vm.own, P();
      var newsz := (sz + n) % WRAP;
      SameElsewhere(mem0, own0, pgdir);
      var s := vm.Deallocuvm(pgdir, sz, newsz);
      if s.Halted? {
        return Down;
      }
      if s.Wild? {
        return Astray;
      }
      if newsz < sz {
        Unmapped(mem0, own0, p0, vm.mem, vm.own, newsz);
        ShrunkElsewhere(mem0, own0, pgdir, UserPages(newsz), UserPages(sz), vm.mem, vm.own);
      }
      if s == Size(0) {
        return Returned(-1);
      }
      sz := s.n;
      return Returned(0);
    }

    /** sys_sbrk for n < 0. */
    method GiveBack(n: int) returns (r: Answer)
      requires Valid() && -0x8000_0000 <= n < 0
      modifies this`sz, vm
      ensures vm.Valid() && (r.Returned? ==> Others())
      ensures r.Down? <==> ShrinkFate(vm.end, (old(sz) + n) % WRAP, old(sz)).Panics?
      ensures r.Astray? <==> ShrinkFate(vm.end, (old(sz) + n) % WRAP, old(sz)).Frees?
      ensures 0 < old(sz) + n && r.Returned? ==> r == Returned(old(sz)) && sz == old(sz) + n
      ensures r.Returned? ==> BrkStep(old(vm.mem), old(vm.own), old(P()), n, vm.mem, vm.own, P(), r.value)
      ensures old(sz) <= KERNBASE ==> Valid() && r.Returned? && sz <= KERNBASE
    {
      hide Owned, Entry, Balance, Hole, KernelMapped, PageView, Elsewhere, ShrinkFate;
      var addr := sz;
      ShrinkFrom(vm.end, sz, n);
      r := Growproc(n);
      return if r.Returned? then Returned(if r.value < 0 then -1 else addr) else r;
    }

    /** sys_sbrk for n >= 0. */
    method Raise(n: nat)
      requires Valid() && n < 0x8000_0000
      modifies this`sz
      ensures sz == (old(sz) + n) % WRAP
      ensures BrkStep(vm.mem, vm.own, old(P()), n, vm.mem, vm.own, P(), old(sz)) <==> old(sz) + n < WRAP
      ensures Elsewhere(vm.mem, vm.own, pgdir, vm.mem, vm.own) && (old(sz) + n < WRAP ==> Valid())
    {
      hide Owned, Entry, Balance, Hole, KernelMapped, PageView, Elsewhere;
      SameElsewhere(vm.mem, vm.own, pgdir);
      if sz + n < WRAP {
        LazyGrowth(vm.mem, vm.own, P(), sz + n);
      }
      sz := (sz + n) % WRAP;
    }

    /**
     sys_sbrk: growth only raises the size, to any 32-bit value.  Image and
     result are those of memory that grows at once exactly when the size does
     not wrap around; giving back memory ends as ShrinkFate says.
     */
    method SysSbrk(n: int) returns (r: Answer)
      requires Valid() && -0x8000_0000 <= n < 0x8000_0000
      modifies this`sz, vm
      ensures vm.Valid()
      ensures n >= 0 ==> r == Returned(old(sz)) && sz == (old(sz) + n) % WRAP && pgdir == old(pgdir)
      ensures n >= 0 ==> vm.mem == old(vm.mem) && vm.own == old(vm.own) && vm.free == old(vm.free) && vm.loose == old(vm.loose)
      ensures n >= 0 ==> (BrkStep(old(vm.mem), old(vm.own), old(P()), n, vm.mem, vm.own, P(), old(sz)) <==> old(sz) + n < WRAP)
      ensures n < 0 ==> (r.Down? <==> ShrinkFate(vm.end, (old(sz) + n) % WRAP, old(sz)).Panics?)
      ensures n < 0 ==> (r.Astray? <==> ShrinkFate(vm.end, (old(sz) + n) % WRAP, old(sz)).Frees?)
      ensures n < 0 && 0 < old(sz) + n && r.Returned? ==> r == Returned(old(sz)) && sz == old(sz) + n
      ensures n < 0 && r.Returned? ==> BrkStep(old(vm.mem), old(vm.own), old(P()), n, vm.mem, vm.own, P(), r.value)
      ensures r.Returned? ==> Others()
      ensures old(sz) <= KERNBASE ==> Valid() && r.Returned? && (sz <= KERNBASE <==> n < 0 || old(sz) + n <= KERNBASE)
    {
      hide Owned, Entry, Balance, Hole, KernelMapped, PageView, Elsewhere, ShrinkFate, BrkStep, ProcOk;
      if n < 0 {
        r := GiveBack(n);
      } else {
        r := Returned(sz);
        Raise(n);
      }
    }

    /** The page-fault case of trap for an access to page x: does the program go on? */
    method PageFault(x: nat) returns (r: Access)
      requires Valid() && x < ALLPAGES
      modifies this`killed, vm
      ensures vm.Valid() && (!r.Panicked? ==> Valid() && Others() && Memory(vm.mem, P()) == old(Memory(vm.mem, P())))
      ensures r.Stored? || r.Killed? || r.NoFrames? || r.Panicked?
      ensures r.Killed? <==> !Reserves(P(), x)
      ensures r.NoFrames? <==> Reserves(P(), x) && |old(vm.free)| < FaultNeeds(old(vm.mem), pgdir, x)
      ensures r.Killed? || r.NoFrames? ==> killed
      ensures r.Panicked? ==> Reserves(P(), x) && Entry(old(vm.mem), pgdir, x).Pte?
      ensures r.Stored? ==> Reserves(P(), x) && Entry(old(vm.mem), pgdir, x) == NoPte && ZeroAt(vm.mem, pgdir, x) && killed == old(killed)
    {
      hide Owned, Entry, Balance, Hole, KernelMapped, PageView, Elsewhere, Spread, Memory, ZeroAt, FaultNeeds;
      ghost var mem0, own0 := vm.mem, vm.own;
      SameElsewhere(mem0, own0, pgdir);
      if x * PGSIZE >= sz || x * PGSIZE >= KERNBASE || x * PGSIZE == guard {
        killed := true;
        return Killed;
      }
      PageStart(x, sz);
      var o := vm.ReservePage(pgdir, x);
      match o {
        case Panic => return Panicked;
        case NoMemory =>
          QuietSpread(mem0, own0, pgdir, x, vm.mem);
          Unseen(mem0, own0, P(), x, vm.mem, vm.own);
          killed := true;
          return NoFrames;
        case Done =>
          Touched(mem0, own0, P(), x, vm.mem, vm.own);
          SpreadElsewhere(mem0, own0, pgdir, x, x + 1, vm.mem, vm.own);
          return Stored;
      }
    }

    /** The program reads byte va. */
    method Load(va: nat) returns (r: Access)
      requires Valid() && va < ALLPAGES * PGSIZE
      modifies this`killed, vm
      ensures vm.Valid() && (!r.Panicked? ==> Valid() && Others() && Memory(vm.mem, P()) == old(Memory(vm.mem, P())))
      ensures r.NoFrames? <==> Starved(old(vm.mem), P(), va, false, |old(vm.free)|)
      ensures !r.NoFrames? ==> LoadStep(old(vm.mem), old(vm.own), P(), va, vm.mem, vm.own, r)
      ensures r.Killed? || r.NoFrames? ==> killed
    {
      hide Owned, Entry, Balance, Hole, KernelMapped, Elsewhere, Memory;
      ghost var mem0 := vm.mem;
      var x := va / PGSIZE;
      var e := Entry(vm.mem, pgdir, x);
      SameElsewhere(vm.mem, vm.own, pgdir);
      if !(e.Pte? && e.user) {
        var f := PageFault(x);
        if !f.Stored? {
          return f;
        }
        ZeroView(vm.mem, pgdir, x);
      }
      UserPresent(vm.mem, vm.own, P(), x);
      return Value(vm.mem[Entry(vm.mem, pgdir, x).frame].bytes[va % PGSIZE]);
    }

    /** The program writes byte va. */
    method Store(va: nat, b: nat) returns (r: Access)
      requires Valid() && va < ALLPAGES * PGSIZE
      modifies this`killed, vm
      ensures vm.Valid() && (!r.Panicked? ==> Valid() && Others())
      ensures r.NoFrames? <==> Starved(old(vm.mem), P(), va, true, |old(vm.free)|)
      ensures !r.NoFrames? ==> StoreStep(old(vm.mem), old(vm.own), P(), va, b, vm.mem, vm.own, r)
      ensures r.Killed? || r.NoFrames? ==> killed && Memory(vm.mem, P()) == old(Memory(vm.mem, P()))
    {
      hide Owned, Entry, Balance, Hole, KernelMapped, Elsewhere, Memory, WholePage, Written;
      ghost var mem0, own0 := vm.mem, vm.own;
      var x := va / PGSIZE;
      var e := Entry(vm.mem, pgdir, x);
      SameElsewhere(vm.mem, vm.own, pgdir);
      if !(e.Pte? && e.user && e.write) {
        var f := PageFault(x);
        if !f.Stored? {
          return f;
        }
      }
      ghost var mem1, own1 := vm.mem, vm.own;
      UserPresent(vm.mem, vm.own, P(), x);
      vm.Poke(pgdir, x, va % PGSIZE, b);
      Poked(mem1, own1, P(), x, va % PGSIZE, b, Entry(mem1, pgdir, x).frame, vm.mem);
      ElsewhereTrans(mem0, own0, pgdir, mem1, own1, vm.mem, vm.own);
      return Stored;
    }

    /**
     The memory part of fork: the child's image equals the parent's, holes
     included, in frames of its own; a failed fork returns every frame.  With
     frames enough it panics exactly for a process larger than user memory.  The
     child's guard field is what the process-table slot held before.
     */
    method Fork(stale: nat) returns (child: Process?, panic: bool, ghost kstack: nat)
      requires Valid()
      modifies vm
      ensures vm.Valid() && (!panic ==> Valid())
      ensures child != null <==> sz <= KERNBASE && |old(vm.free)| >= 1 + CopyNeeds(old(vm.mem), pgdir, UserPages(sz))
      ensures panic <==> sz > KERNBASE && |old(vm.free)| >= 2 + CopyNeeds(old(vm.mem), pgdir, USERPAGES)
      ensures child == null && !panic ==> Memory(vm.mem, P()) == old(Memory(vm.mem, P()))
      ensures child == null && !panic ==> Elsewhere(old(vm.mem), old(vm.own), pgdir, vm.mem, vm.own)
      ensures child == null && !panic ==> vm.own == old(vm.own) && vm.loose == old(vm.loose) && AsSet(vm.free) == AsSet(old(vm.free))
      ensures child != null ==> fresh(child) && child.vm == vm && child.Valid() && !child.killed && child.guard == stale
      ensures child != null ==> ForkStep(old(vm.mem), old(vm.own), P(), vm.mem, vm.own, child.P())
      ensures child != null ==> vm.loose == old(vm.loose) + {kstack} && kstack !in old(vm.loose)
    {
      hide Owned, Entry, Balance, Hole, KernelMapped, PageView, Elsewhere, Quiet, Added, CopyNeeds, CopyRange, CleanFrom;
      ghost var mem0, own0, free0, p0 := vm.mem, vm.own, vm.free, P();
      SameElsewhere(mem0, own0, pgdir);
      var got, stack := vm.Kalloc();
      kstack := stack;
      if !got {
        return null, false, kstack;
      }
      var r, d := vm.Copyuvm(pgdir, sz);
      if r.Panic? {
        return null, true, kstack;
      }
      if r.NoMemory? {
        ghost var mem1 := vm.mem;
        vm.Kfree(stack);
        QuietTrans(mem0, own0, mem1, vm.mem);
        QuietSpread(mem0, own0, pgdir, 0, vm.mem);
        Unseen(mem0, own0, p0, 0, vm.mem, own0);
        SameFree(vm.all, free0, vm.free, vm.own, vm.loose);
        return null, false, kstack;
      }
      ForkView(mem0, own0, p0, d, vm.mem, vm.own, vm.data, stale);
      child := new Process(vm, d, sz, stale);
      panic := false;
    }

    lemma OpenHole()
      requires Valid()
      ensures forall hi :: 0 <= hi <= USERPAGES ==> Hole(vm.mem, pgdir, PagesFor(sz), hi)
    {
      hide Owned, Entry, Balance;
    }
  }

  /** A page the program can use lies below the process size and is there. */
  lemma UserPresent(mem: Mem, own: map<nat, Owner>, p: Proc, x: nat)
    requires Owned(mem, own) && ProcOk(mem, own, p) && x < ALLPAGES && Entry(mem, p.pgdir, x).Pte? && Entry(mem, p.pgdir, x).user
    ensures x < UserPages(p.sz) <= USERPAGES
    ensures var f := Entry(mem, p.pgdir, x).frame; f in mem && WholePage(mem[f]) && PageView(mem, p.pgdir, x).bytes == mem[f].bytes
  {
    hide Owned, Entry;
    PagesBelow(p.sz);
    OwnedEntry(mem, own, p.pgdir, x);
    OwnedAt(mem, own, Entry(mem, p.pgdir, x).frame);
  }

  lemma ElsewhereTrans(mem0: Mem, own0: map<nat, Owner>, d: nat, mem1: Mem, own1: map<nat, Owner>, mem: Mem, own: map<nat, Owner>)
    requires Elsewhere(mem0, own0, d, mem1, own1) && Elsewhere(mem1, own1, d, mem, own)
    ensures Elsewhere(mem0, own0, d, mem, own)
  {
    hide Entry, PageView;
  }

  /** A page of the child is mapped, writable and open to the program exactly when the parent's is. */
  ghost predicate SameRights(mem: Mem, d: nat, d': nat, x: nat) {
    var e, e' := Entry(mem, d, x), Entry(mem, d', x);
    (e.Pte? <==> e'.Pte?) && (e.Pte? ==> e.write == e'.write && e.user == e'.user && e.frame != e'.frame)
  }

  lemma ForkView(mem0: Mem, own0: map<nat, Owner>, p: Proc, d: nat, mem: Mem, own: map<nat, Owner>, data: nat, stale: nat)
    requires Owned(mem0, own0) && Owned(mem, own) && ProcOk(mem0, own0, p) && Added(mem0, own0, d, mem, own)
    requires CopyRange(mem0, p.pgdir, mem, d, UserPages(p.sz)) && CleanFrom(mem, d, data, UserPages(p.sz))
    ensures ProcOk(mem, own, p) && Memory(mem, p) == Memory(mem0, p) && Elsewhere(mem0, own0, p.pgdir, mem, own) && d !in own0
    ensures ProcOk(mem, own, Proc(d, p.sz, stale)) && Memory(mem, Proc(d, p.sz, stale)) == Memory(mem0, p)
    ensures forall x :: 0 <= x < UserPages(p.sz) ==> SameRights(mem, p.pgdir, d, x)
  {
    hide Owned, Entry, PageView, SameRights;
    AddedUnseen(mem0, own0, p, d, mem, own);
    CleanMapped(mem, d, data, UserPages(p.sz));
    var c := Proc(d, p.sz, stale);
    PagesBelow(p.sz);
    forall x | 0 <= x < UserPages(p.sz)
      ensures PageView(mem, d, x) == PageView(mem0, p.pgdir, x) && SameRights(mem, p.pgdir, d, x)
    {
      AddedKeeps(mem0, own0, d, mem, own, p.pgdir, x);
      CopyView(mem0, own0, p.pgdir, mem, own, d, x);
    }
    assert Memory(mem, c).pages == Memory(mem0, p).pages;
  }

  lemma AddedUnseen(mem0: Mem, own0: map<nat, Owner>, p: Proc, d: nat, mem: Mem, own: map<nat, Owner>)
    requires Owned(mem0, own0) && ProcOk(mem0, own0, p) && Added(mem0, own0, d, mem, own)
    ensures ProcOk(mem, own, p) && Memory(mem, p) == Memory(mem0, p) && Elsewhere(mem0, own0, p.pgdir, mem, own)
  {
    hide Owned, Entry, PageView;
    QuietSpread(mem0, own0, p.pgdir, 0, mem);
    Unseen(mem0, own0, p, 0, mem, own0);
  }

  lemma CopyView(mem0: Mem, own0: map<nat, Owner>, s: nat, mem: Mem, own: map<nat, Owner>, d: nat, x: nat)
    requires Owned(mem0, own0) && Owned(mem, own) && IsDir(own0, s) && IsDir(own, s) && IsDir(own, d) && d != s && x < USERPAGES
    requires CopyAt(mem0, s, mem, d, x) && Entry(mem, s, x) == Entry(mem0, s, x)
    ensures PageView(mem, d, x) == PageView(mem0, s, x) && SameRights(mem, s, d, x)
  {
    hide Owned, Entry;
    if Entry(mem, d, x).Pte? {
      OwnedEntry(mem, own, d, x);
      OwnedEntry(mem, own, s, x);
    }
  }

  lemma SameElsewhere(mem: Mem, own: map<nat, Owner>, d: nat)
    ensures Elsewhere(mem, own, d, mem, own)
  {
  }

  lemma SameSize(mem: Mem, p: Proc)
    ensures Resized(Memory(mem, p), p.sz) == Memory(mem, p)
  {
  }
}
