/**
 Lazy growth refines eager growth: over every run of sbrk, loads, stores and
 forks by any number of processes, each process gets the answers it would get
 from memory that grows at once.
 */
module VmRuns {
  import opened VmTree
  import opened VmMoves
  import opened VmUser
  import opened VmProcess

  datatype World = World(mem: Mem, own: map<nat, Owner>, procs: map<nat, Proc>)

  datatype Op = Brk(pid: nat, n: int) | Read(pid: nat, va: nat) | Write(pid: nat, va: nat, b: nat) | Spawn(pid: nat, child: nat, stale: nat)

  datatype Reply = Addr(a: int) | Got(r: Access) | Spawned

  /** What a program can know of a process: its image, and where its guard page is. */
  datatype Seen = Seen(image: Image, guard: nat)

  type Eager = map<nat, Seen>

  // Memory that grows at once.

  ghost predicate WfEager(s: Eager) {
    forall pid :: pid in s ==> |s[pid].image.pages| == UserPages(s[pid].image.size)
  }

  function EagerNext(s: Eager, op: Op): (r: Eager)
    requires op.pid in s && |s[op.pid].image.pages| == UserPages(s[op.pid].image.size)
  {
    var p := s[op.pid];
    match op
    case Brk(pid, n) => s[pid := p.(image := Sbrk(p.image, n).image)]
    case Read(pid, va) => s
    case Write(pid, va, b) =>
      if Legal(p.image, va / PGSIZE, true) then s[pid := p.(image := Written(p.image, va / PGSIZE, va % PGSIZE, b))] else s
    case Spawn(pid, child, stale) => s[child := p.(guard := stale)]
  }

  function EagerReply(s: Eager, op: Op): (r: Reply)
    requires op.pid in s && |s[op.pid].image.pages| == UserPages(s[op.pid].image.size)
  {
    var p := s[op.pid];
    match op
    case Brk(pid, n) => Addr(Sbrk(p.image, n).addr)
    case Read(pid, va) =>
      if Legal(p.image, va / PGSIZE, false) then Got(Value(ByteOf(p.image.pages[va / PGSIZE].bytes, va % PGSIZE))) else Got(Killed)
    case Write(pid, va, b) => if Legal(p.image, va / PGSIZE, true) then Got(Stored) else Got(Killed)
    case Spawn(pid, child, stale) => Spawned
  }

  /** Below the size, the one page the program may not fully use is the guard page. */
  predicate GuardSeen(s: Seen) {
    forall x :: 0 <= x < |s.image.pages| ==> (x * PGSIZE == s.guard <==> !(s.image.pages[x].user && s.image.pages[x].write))
  }

  /**
   The operation is one the kernel carries through: sizes within user memory,
   and afterwards the process and its child have not lost their guard pages
   below their sizes.
   */
  ghost predicate Careful(s: Eager, op: Op)
    requires op.pid in s && |s[op.pid].image.pages| == UserPages(s[op.pid].image.size)
  {
    && (op.Brk? ==> -0x8000_0000 <= op.n < 0x8000_0000 && s[op.pid].image.size + op.n <= KERNBASE)
    && (op.Read? || op.Write? ==> op.va < ALLPAGES * PGSIZE)
    && (op.Spawn? ==> op.child !in s && GuardSeen(EagerNext(s, op)[op.child]))
    && GuardSeen(EagerNext(s, op)[op.pid])
  }

  // The kernel.

  ghost predicate WorldOk(w: World) {
    && Owned(w.mem, w.own)
    && (forall pid :: pid in w.procs ==> ProcOk(w.mem, w.own, w.procs[pid]) && w.procs[pid].sz <= KERNBASE)
    && (forall pid, q :: pid in w.procs && q in w.procs && pid != q ==> w.procs[pid].pgdir != w.procs[q].pgdir)
    && (forall pid :: pid in w.procs ==> GuardSeen(SeenOf(w, pid)))
  }

  function SeenOf(w: World, pid: nat): (s: Seen)
    requires pid in w.procs
  {
    Seen(Memory(w.mem, w.procs[pid]), w.procs[pid].guard)
  }

  function View(w: World): (s: Eager) {
    map pid | pid in w.procs :: SeenOf(w, pid)
  }

  /** One operation of one process, as SysSbrk, Load, Store and Fork promise it when there are frames enough. */
  ghost predicate Step(w: World, op: Op, w': World, r: Reply) {
    && op.pid in w.procs && op.pid in w'.procs
    && var p, p' := w.procs[op.pid], w'.procs[op.pid];
    match op
    case Brk(pid, n) => w'.procs == w.procs[pid := p'] && r.Addr? && BrkStep(w.mem, w.own, p, n, w'.mem, w'.own, p', r.a)
    case Read(pid, va) => w'.procs == w.procs && r.Got? && LoadStep(w.mem, w.own, p, va, w'.mem, w'.own, r.r)
    case Write(pid, va, b) => w'.procs == w.procs && r.Got? && StoreStep(w.mem, w.own, p, va, b, w'.mem, w'.own, r.r)
    case Spawn(pid, child, stale) =>
      && r == Spawned && child !in w.procs && child in w'.procs && w'.procs == w.procs[child := w'.procs[child]]
      && ForkStep(w.mem, w.own, p, w'.mem, w'.own, w'.procs[child]) && w'.procs[child].guard == stale
  }

  /** Under WorldOk no access halts the kernel, so every step is local to its process. */
  lemma StepLocal(w: World, op: Op, w': World, r: Reply)
    requires WorldOk(w) && Step(w, op, w', r) && (op.Read? || op.Write? ==> op.va < ALLPAGES * PGSIZE)
    ensures Local(w.mem, w.own, w.procs[op.pid], w'.mem, w'.own, w'.procs[op.pid])
    ensures r.Got? ==> !r.r.Panicked?
    ensures op.Read? ==> Memory(w'.mem, w.procs[op.pid]) == Memory(w.mem, w.procs[op.pid])
  {
    hide Entry, PageView, Owned, ProcOk, Elsewhere, Memory, LoadResult, StoreResult, GuardSeen, Legal, Written, Sbrk;
    if op.Read? || op.Write? {
      AccessSame(w, op.pid, op.va);
      if op.Write? {
        assert Got(StoreResult(w.mem, w.procs[op.pid], op.va)) == EagerReply(View(w), op);
      }
    }
  }

  lemma OthersSame(w: World, w': World, d: nat, q: nat)
    requires WorldOk(w) && q in w.procs && w.procs[q].pgdir != d
    requires Elsewhere(w.mem, w.own, d, w'.mem, w'.own)
    ensures ProcOk(w'.mem, w'.own, w.procs[q]) && Memory(w'.mem, w.procs[q]) == Memory(w.mem, w.procs[q])
  {
    hide Entry, PageView, Owned;
    var p := w.procs[q];
    PagesBelow(p.sz);
    assert Memory(w'.mem, p).pages == Memory(w.mem, p).pages;
  }

  /** The page-fault handler answers an access as the image says, once the guard is where it is seen. */
  lemma SeenRight(w: World, pid: nat)
    requires WorldOk(w) && pid in w.procs
    ensures GuardRight(w.mem, w.procs[pid])
  {
    hide Entry, PageView, Owned;
    var p := w.procs[pid];
    assert GuardSeen(SeenOf(w, pid));
    forall x | 0 <= x < UserPages(p.sz)
      ensures RightAt(w.mem, p, x)
    {
      ViewRights(w.mem, w.own, p, x);
    }
  }

  lemma AccessSame(w: World, pid: nat, va: nat)
    requires WorldOk(w) && pid in w.procs && va < ALLPAGES * PGSIZE
    ensures var s, p := View(w), w.procs[pid];
            && |s[pid].image.pages| == UserPages(s[pid].image.size)
            && Got(LoadResult(w.mem, p, va)) == EagerReply(s, Read(pid, va))
            && forall b :: Got(StoreResult(w.mem, p, va)) == EagerReply(s, Write(pid, va, b))
  {
    hide Entry, PageView, Owned, ProcOk;
    var p := w.procs[pid];
    SeenRight(w, pid);
    GuardExact(w.mem, w.own, p);
    assert Agrees(w.mem, p, va / PGSIZE, false) && Agrees(w.mem, p, va / PGSIZE, true);
    MemorySize(w.mem, p);
  }

  lemma OthersAll(w: World, op: Op, w': World, r: Reply)
    requires WorldOk(w) && Step(w, op, w', r) && (op.Read? || op.Write? ==> op.va < ALLPAGES * PGSIZE)
    ensures forall q :: q in w.procs && q != op.pid ==>
              ProcOk(w'.mem, w'.own, w.procs[q]) && Memory(w'.mem, w.procs[q]) == Memory(w.mem, w.procs[q])
    ensures forall q :: q in w.procs ==> w.procs[q].pgdir in w.own
  {
    hide Entry, PageView, Owned, Elsewhere, Memory, LoadResult, StoreResult, GuardSeen;
    StepLocal(w, op, w', r);
    forall q | q in w.procs && q != op.pid
      ensures ProcOk(w'.mem, w'.own, w.procs[q]) && Memory(w'.mem, w.procs[q]) == Memory(w.mem, w.procs[q])
    {
      OthersSame(w, w', w.procs[op.pid].pgdir, q);
    }
  }

  /** The reply, and the image of the process that acted. */
  lemma OwnImage(w: World, op: Op, w': World, r: Reply)
    requires WorldOk(w) && Step(w, op, w', r)
    requires op.pid in View(w) && WfEager(View(w)) && Careful(View(w), op)
    ensures SeenOf(w', op.pid) == EagerNext(View(w), op)[op.pid] && r == EagerReply(View(w), op)
    ensures op.Spawn? ==> SeenOf(w', op.child) == SeenOf(w, op.pid).(guard := op.stale)
  {
    hide Entry, PageView, Owned, ProcOk, Elsewhere, Memory, LoadResult, StoreResult, GuardSeen, Legal, Written, Sbrk, WorldOk;
    assert View(w)[op.pid] == SeenOf(w, op.pid);
    if op.Read? || op.Write? {
      AccessSame(w, op.pid, op.va);
    }
    StepLocal(w, op, w', r);
  }

  lemma StepView(w: World, op: Op, w': World, r: Reply)
    requires WorldOk(w) && Step(w, op, w', r)
    requires op.pid in View(w) && WfEager(View(w)) && Careful(View(w), op)
    ensures View(w') == EagerNext(View(w), op) && r == EagerReply(View(w), op)
  {
    hide Owned, ProcOk, Memory, GuardSeen, Legal, Written, Sbrk, BrkStep, LoadStep, StoreStep, ForkStep, EagerReply, WorldOk;
    OthersAll(w, op, w', r);
    OwnImage(w, op, w', r);
    assert View(w') == EagerNext(View(w), op);
  }

  lemma SizesKept(w: World, op: Op, w': World, r: Reply)
    requires WorldOk(w) && Step(w, op, w', r)
    requires op.pid in View(w) && WfEager(View(w)) && Careful(View(w), op)
    ensures forall q :: q in w'.procs ==> w'.procs[q].sz <= KERNBASE
  {
    hide Owned, ProcOk, GuardSeen, Local, LoadStep, StoreStep, PageView, EagerNext, UserPages;
    if op.Brk? {
      BrkSize(w.mem, w.own, w.procs[op.pid], op.n, w'.mem, w'.own, w'.procs[op.pid], r.a);
    }
  }

  lemma BrkSize(mem0: Mem, own0: map<nat, Owner>, p: Proc, n: int, mem: Mem, own: map<nat, Owner>, p': Proc, a: int)
    requires BrkStep(mem0, own0, p, n, mem, own, p', a) && p.sz <= KERNBASE && p.sz + n <= KERNBASE
    ensures p'.sz <= KERNBASE
  {
    hide Owned, ProcOk, Local, PageView;
    assert Memory(mem, p').size == p'.sz;
  }

  /** One step of the kernel is one step of memory that grows at once. */
  lemma StepRefines(w: World, op: Op, w': World, r: Reply)
    requires WorldOk(w) && Step(w, op, w', r)
    requires op.pid in View(w) && WfEager(View(w)) && Careful(View(w), op)
    ensures WorldOk(w') && WfEager(View(w')) && View(w') == EagerNext(View(w), op) && r == EagerReply(View(w), op)
  {
    hide Entry, PageView, Owned, ProcOk, Elsewhere, Memory, LoadResult, StoreResult, GuardSeen, Legal, Written, Sbrk;
    StepLocal(w, op, w', r);
    OthersAll(w, op, w', r);
    StepView(w, op, w', r);
    SizesKept(w, op, w', r);
    forall q | q in w'.procs
      ensures GuardSeen(SeenOf(w', q)) && |SeenOf(w', q).image.pages| == UserPages(SeenOf(w', q).image.size)
    {
      assert View(w')[q] == SeenOf(w', q);
      SizeSeen(w', q);
      if q in w.procs {
        assert GuardSeen(SeenOf(w, q)) && View(w)[q] == SeenOf(w, q);
      }
    }
  }

  lemma SizeSeen(w: World, q: nat)
    requires q in w.procs
    ensures |SeenOf(w, q).image.pages| == UserPages(SeenOf(w, q).image.size)
  {
  }

  // Whole runs.

  /** The kernel's states over a run, each step careful. */
  ghost predicate CarefulRun(ws: seq<World>, ops: seq<Op>, rs: seq<Reply>) {
    && |ws| == |ops| + 1 && |rs| == |ops|
    && forall k :: 0 <= k < |ops| ==> CarefulStep(ws[k], ops[k], ws[k + 1], rs[k])
  }

  ghost predicate CarefulStep(w: World, op: Op, w': World, r: Reply) {
    && Step(w, op, w', r)
    && |View(w)[op.pid].image.pages| == UserPages(View(w)[op.pid].image.size)
    && Careful(View(w), op)
  }

  /** s answers the operations with the replies, one after the other, and ends as s'. */
  ghost predicate EagerRun(s: Eager, ops: seq<Op>, rs: seq<Reply>, s': Eager)
    decreases |ops|
  {
    if ops == [] then rs == [] && s' == s
    else
      && rs != [] && ops[0].pid in s && |s[ops[0].pid].image.pages| == UserPages(s[ops[0].pid].image.size)
      && rs[0] == EagerReply(s, ops[0])
      && EagerRun(EagerNext(s, ops[0]), ops[1..], rs[1..], s')
  }

  /** Over every run the programs get exactly the replies, and end with exactly the memory, of eager growth. */
  lemma {:induction false} LazyRefinesEager(ws: seq<World>, ops: seq<Op>, rs: seq<Reply>)
    requires CarefulRun(ws, ops, rs) && WorldOk(ws[0])
    ensures EagerRun(View(ws[0]), ops, rs, View(ws[|ops|])) && WorldOk(ws[|ops|])
    decreases |ops|
  {
    hide Step, Careful, WorldOk, EagerNext, EagerReply, SeenOf;
    if ops != [] {
      assert CarefulStep(ws[0], ops[0], ws[1], rs[0]);
      AllSized(ws[0]);
      StepPid(ws[0], ops[0], ws[1], rs[0]);
      StepRefines(ws[0], ops[0], ws[1], rs[0]);
      forall k | 0 <= k < |ops[1..]|
        ensures CarefulStep(ws[1..][k], ops[1..][k], ws[1..][k + 1], rs[1..][k])
      {
        assert CarefulStep(ws[k + 1], ops[k + 1], ws[k + 2], rs[k + 1]);
      }
      LazyRefinesEager(ws[1..], ops[1..], rs[1..]);
    }
  }

  lemma AllSized(w: World)
    ensures WfEager(View(w))
  {
    forall q | q in w.procs
      ensures |View(w)[q].image.pages| == UserPages(View(w)[q].image.size)
    {
      SizeSeen(w, q);
    }
  }

  lemma StepPid(w: World, op: Op, w': World, r: Reply)
    requires Step(w, op, w', r)
    ensures op.pid in w.procs
  {
  }

  // When the guard field goes wrong.

  /** Growing the size keeps the guard field right exactly when it does not climb over the guard address. */
  lemma GrowthGuard(mem: Mem, own: map<nat, Owner>, p: Proc, sz: nat)
    requires ProcOk(mem, own, p) && p.sz <= sz < WRAP
    ensures GuardRight(mem, p.(sz := sz)) <==>
              GuardRight(mem, p) && !(p.guard % PGSIZE == 0 && UserPages(p.sz) <= p.guard / PGSIZE < UserPages(sz))
  {
    hide Entry;
    var q := p.(sz := sz);
    PagesBelow(sz);
    forall x: nat
      ensures RightAt(mem, q, x) == RightAt(mem, p, x)
      ensures UserPages(p.sz) <= x < UserPages(sz) ==> (RightAt(mem, q, x) <==> x * PGSIZE != p.guard)
    {
    }
    if GuardRight(mem, q) {
      forall x | 0 <= x < UserPages(sz)
        ensures RightAt(mem, p, x)
      {
        assert RightAt(mem, q, x);
      }
      var g := p.guard / PGSIZE;
      assert UserPages(p.sz) <= g < UserPages(sz) ==> RightAt(mem, q, g);
    } else {
      var x: nat :| x < UserPages(sz) && !RightAt(mem, q, x);
      assert x < UserPages(p.sz) ==> !RightAt(mem, p, x);
    }
  }

  /**
   fork leaves the child with whatever guard address its slot held: for a
   parent with a guard page, the child's field is right exactly when that
   happens to be the parent's address.
   */
  lemma ForkGuard(mem0: Mem, own0: map<nat, Owner>, p: Proc, mem: Mem, own: map<nat, Owner>, c: Proc, g: nat)
    requires ForkStep(mem0, own0, p, mem, own, c) && GuardRight(mem, p)
    requires g < UserPages(p.sz) && g * PGSIZE == p.guard && Entry(mem, p.pgdir, g).Pte? && !Entry(mem, p.pgdir, g).user
    ensures GuardRight(mem, c) <==> c.guard == p.guard
    ensures c.guard != p.guard ==> ReachOf(mem, c, g, false) == Remap
  {
    hide Entry, Local, Memory;
    PagesBelow(c.sz);
    PageStart(g, c.sz);
    assert SameRights(mem, p.pgdir, c.pgdir, g);
    if c.guard == p.guard {
      forall x | 0 <= x < UserPages(c.sz)
        ensures RightAt(mem, c, x)
      {
        assert RightAt(mem, p, x) && SameRights(mem, p.pgdir, c.pgdir, x);
      }
    } else {
      assert !RightAt(mem, c, g);
    }
  }

  // What the reference promises to programs, access by access.

  ghost predicate Sized(s: Eager, pid: nat) {
    pid in s && |s[pid].image.pages| == UserPages(s[pid].image.size)
  }

  /** Every page of the process is whole. */
  ghost predicate Whole(s: Eager, pid: nat) {
    Sized(s, pid) && forall x :: 0 <= x < |s[pid].image.pages| ==> |s[pid].image.pages[x].bytes| == 4096
  }

  /** The images that the kernel shows are of this kind. */
  lemma SeenWhole(w: World, pid: nat)
    requires pid in w.procs
    ensures Whole(View(w), pid)
  {
    SizeSeen(w, pid);
  }

  /** A byte that was stored is read back, until that byte of that process is stored again. */
  lemma StoreLaw(s: Eager, pid: nat, va: nat, b: nat, q: nat, va': nat)
    requires Whole(s, pid) && Sized(s, q) && EagerReply(s, Write(pid, va, b)) == Got(Stored)
    ensures var t := EagerNext(s, Write(pid, va, b));
            && Whole(t, pid) && Sized(t, q)
            && (EagerReply(s, Read(pid, va)).r.Value? ==> EagerReply(t, Read(pid, va)) == Got(Value(b)))
            && (q != pid || va' != va ==> EagerReply(t, Read(q, va')) == EagerReply(s, Read(q, va')))
  {
    var x, k := va / PGSIZE, va % PGSIZE;
    var p := s[pid].image.pages[x];
    assert va == x * PGSIZE + k && va' == va' / PGSIZE * PGSIZE + va' % PGSIZE;
  }

  /** Memory that sbrk adds reads as zeros, and the memory below it as before. */
  lemma BrkLaw(s: Eager, pid: nat, n: nat, va: nat)
    requires Whole(s, pid) && s[pid].image.size + n <= KERNBASE
    ensures var t := EagerNext(s, Brk(pid, n));
            && Whole(t, pid) && t[pid].image.size == s[pid].image.size + n
            && EagerReply(s, Brk(pid, n)) == Addr(s[pid].image.size)
            && (EagerReply(s, Read(pid, va)).r.Value? ==> EagerReply(t, Read(pid, va)) == EagerReply(s, Read(pid, va)))
            && ((s[pid].image.size + 4095) / 4096 * 4096 <= va < s[pid].image.size + n ==> EagerReply(t, Read(pid, va)) == Got(Value(0)))
  {
    var m := s[pid].image;
    PagesBelow(m.size);
    PageStart(va / PGSIZE, m.size + n);
  }

  /** A child reads what its parent reads, and from then on each has its own memory. */
  lemma SpawnLaw(s: Eager, pid: nat, child: nat, stale: nat, va: nat, b: nat)
    requires Whole(s, pid) && child !in s
    ensures var t := EagerNext(s, Spawn(pid, child, stale));
            && Whole(t, pid) && Whole(t, child)
            && EagerReply(t, Read(child, va)) == EagerReply(s, Read(pid, va)) == EagerReply(t, Read(pid, va))
            && EagerReply(EagerNext(t, Write(child, va, b)), Read(pid, va)) == EagerReply(s, Read(pid, va))
  {
  }
}
