/**
 The kernel at work: any number of process objects that share one memory carry
 out sbrk, loads, stores and forks, and the programs cannot tell the result
 from memory that grows at once.
 */
module VmMachine {
  import opened VmTree
  import opened VmMoves
  import opened VmCount
  import opened VmUser
  import opened VmCode
  import opened VmProcess
  import opened VmRuns

  /** The operation needs more frames than there are. */
  ghost predicate Wants(w: World, op: Op, frames: nat)
    requires op.pid in w.procs
  {
    var p := w.procs[op.pid];
    match op
    case Brk(pid, n) => false
    case Read(pid, va) => Starved(w.mem, p, va, false, frames)
    case Write(pid, va, b) => Starved(w.mem, p, va, true, frames)
    case Spawn(pid, child, stale) => frames < 1 + CopyNeeds(w.mem, p.pgdir, UserPages(p.sz))
  }

  class Machine {
    const vm: Vm
    var procs: map<nat, Process>

    ghost function World(): (w: World)
      reads this, vm, procs.Values
    {
      VmRuns.World(vm.mem, vm.own, map pid | pid in procs :: procs[pid].P())
    }

    ghost predicate Valid()
      reads this, vm, procs.Values
    {
      && vm.Valid() && WorldOk(World())
      && (forall pid :: pid in procs ==> procs[pid].vm == vm)
      && (forall pid, q :: pid in procs && q in procs && pid != q ==> procs[pid] != procs[q])
    }

    /** The operation is careful for a process that is there. */
    ghost predicate Ready(op: Op)
      reads this, vm, procs.Values
    {
      && op.pid in procs && |View(World())[op.pid].image.pages| == UserPages(View(World())[op.pid].image.size)
      && Careful(View(World()), op)
    }

    constructor (pid: nat, first: Process)
      requires first.Valid() && first.sz <= KERNBASE && GuardSeen(Seen(Memory(first.vm.mem, first.P()), first.guard))
      ensures Valid() && vm == first.vm && procs == map[pid := first]
    {
      vm := first.vm;
      procs := map[pid := first];
    }

    method Brk(pid: nat, n: int) returns (addr: int)
      requires Valid() && Ready(Op.Brk(pid, n))
      modifies vm, procs.Values
      ensures vm.Valid() && procs == old(procs)
      ensures Step(old(World()), Op.Brk(pid, n), World(), Addr(addr))
    {
      hide WorldOk, BrkStep, Careful, ProcOk, Owned, Balance, GuardSeen, EagerNext;
      InOrder(pid);
      CarefulBrk(View(World()), pid, n);
      var p := procs[pid];
      var r := p.SysSbrk(n);
      addr := r.value;
      assert World().procs == old(World()).procs[pid := p.P()];
    }

    method Read(pid: nat, va: nat) returns (r: Access)
      requires Valid() && Ready(Op.Read(pid, va))
      modifies vm, procs.Values
      ensures vm.Valid() && procs == old(procs)
      ensures r.NoFrames? <==> Wants(old(World()), Op.Read(pid, va), |old(vm.free)|)
      ensures r.NoFrames? ==> WorldOk(World()) && View(World()) == old(View(World()))
      ensures !r.NoFrames? ==> Step(old(World()), Op.Read(pid, va), World(), Got(r))
    {
      hide WorldOk, LoadStep, Careful, ProcOk, Owned, Balance, GuardSeen, EagerNext, Starved, View, Memory, Elsewhere;
      ghost var w := World();
      InOrder(pid);
      ViewKeys(w);
      CarefulAccess(View(World()), Op.Read(pid, va));
      var p := procs[pid];
      r := p.Load(va);
      assert World().procs == w.procs;
      if r.NoFrames? {
        Unchanged(w, World(), pid);
      }
    }

    method Write(pid: nat, va: nat, b: nat) returns (r: Access)
      requires Valid() && Ready(Op.Write(pid, va, b))
      modifies vm, procs.Values
      ensures vm.Valid() && procs == old(procs)
      ensures r.NoFrames? <==> Wants(old(World()), Op.Write(pid, va, b), |old(vm.free)|)
      ensures r.NoFrames? ==> WorldOk(World()) && View(World()) == old(View(World()))
      ensures !r.NoFrames? ==> Step(old(World()), Op.Write(pid, va, b), World(), Got(r))
    {
      hide WorldOk, StoreStep, Careful, ProcOk, Owned, Balance, GuardSeen, EagerNext, Starved, View, Memory, Elsewhere;
      ghost var w := World();
      InOrder(pid);
      ViewKeys(w);
      CarefulAccess(View(World()), Op.Write(pid, va, b));
      var p := procs[pid];
      r := p.Store(va, b);
      assert World().procs == w.procs;
      if r.NoFrames? {
        Unchanged(w, World(), pid);
      }
    }

    method Spawn(pid: nat, child: nat, stale: nat) returns (ok: bool)
      requires Valid() && Ready(Op.Spawn(pid, child, stale))
      modifies this`procs, vm
      ensures vm.Valid() && (ok <==> !Wants(old(World()), Op.Spawn(pid, child, stale), |old(vm.free)|))
      ensures !ok ==> procs == old(procs) && WorldOk(World()) && View(World()) == old(View(World()))
      ensures ok ==> child in procs && fresh(procs[child]) && procs[child].vm == vm && procs == old(procs)[child := procs[child]]
      ensures ok ==> Step(old(World()), Op.Spawn(pid, child, stale), World(), Spawned)
    {
      hide WorldOk, ForkStep, Careful, ProcOk, Owned, Balance, GuardSeen, EagerNext, View, Memory, Elsewhere, CopyNeeds;
      ghost var w := World();
      InOrder(pid);
      ViewKeys(w);
      CarefulSpawn(View(World()), Op.Spawn(pid, child, stale));
      var p := procs[pid];
      var c, panic, kstack := p.Fork(stale);
      ok := c != null;
      if ok {
        procs := procs[child := c];
        assert World().procs == w.procs[child := c.P()];
      } else {
        assert World().procs == w.procs;
        Unchanged(w, World(), pid);
      }
    }

    /**
     One operation, as the kernel's methods carry it out: a step of the run, or,
     for want of frames alone, nothing that any program can see.
     */
    method Carry(op: Op) returns (ok: bool, r: Reply)
      requires Valid() && Ready(op)
      modifies this`procs, vm, procs.Values
      ensures Valid() && (ok <==> !Wants(old(World()), op, |old(vm.free)|))
      ensures ok ==> CarefulStep(old(World()), op, World(), r) && View(World()) == EagerNext(old(View(World())), op)
      ensures !ok ==> View(World()) == old(View(World()))
      ensures forall pid :: pid in procs ==> procs[pid] in old(procs.Values) || fresh(procs[pid])
    {
      hide WorldOk, BrkStep, LoadStep, StoreStep, ForkStep, Careful, ProcOk, Owned, Balance, GuardSeen, EagerNext, EagerReply, View, Starved, CopyNeeds;
      ghost var w := World();
      ok := true;
      match op {
        case Brk(pid, n) =>
          var a := Brk(pid, n);
          r := Addr(a);
        case Read(pid, va) =>
          var x := Read(pid, va);
          ok, r := !x.NoFrames?, Got(x);
        case Write(pid, va, b) =>
          var x := Write(pid, va, b);
          ok, r := !x.NoFrames?, Got(x);
        case Spawn(pid, child, stale) =>
          ok := Spawn(pid, child, stale);
          r := Spawned;
      }
      if ok {
        AllSized(w);
        ViewKeys(w);
        StepRefines(w, op, World(), r);
      }
    }

    /**
     Any list of careful operations, one after the other, until frames run out:
     the programs get exactly the replies, and end with exactly the memory, of
     memory that grows at once.
     */
    method Run(ops: seq<Op>) returns (rs: seq<Reply>, ghost short: World, ghost frames: nat)
      requires Valid() && CarefulOps(View(World()), ops)
      modifies this`procs, vm, procs.Values
      ensures Valid() && |rs| <= |ops| && EagerRun(old(View(World())), ops[..|rs|], rs, View(World()))
      ensures |rs| < |ops| ==> View(short) == View(World()) && ops[|rs|].pid in short.procs && Wants(short, ops[|rs|], frames)
    {
      hide WorldOk, Careful, View, EagerNext, EagerReply, CarefulStep, CarefulRun, CarefulOps, EagerRun, Wants, UserPages;
      ghost var ws := [World()];
      rs := [];
      short, frames := World(), 0;
      NoneYet(World());
      assert ops[0..] == ops;
      while |rs| < |ops|
        invariant Valid() && |rs| <= |ops| && |ws| == |rs| + 1 && ws[0] == old(World()) && ws[|rs|] == World()
        invariant CarefulRun(ws, ops[..|rs|], rs) && CarefulOps(View(World()), ops[|rs|..])
        invariant forall pid :: pid in procs ==> procs[pid] in old(procs.Values) || fresh(procs[pid])
      {
        var op := ops[|rs|];
        CarefulHead(World(), ops, |rs|);
        short, frames := World(), |vm.free|;
        var ok, r := Carry(op);
        if !ok {
          LazyRefinesEager(ws, ops[..|rs|], rs);
          return;
        }
        MoreCareful(ws, ops, rs, op, World(), r);
        ws, rs := ws + [World()], rs + [r];
      }
      LazyRefinesEager(ws, ops[..|rs|], rs);
    }

    lemma InOrder(pid: nat)
      requires Valid() && pid in procs
      ensures procs[pid].Valid() && procs[pid].vm == vm && procs[pid].sz <= KERNBASE
    {
      hide Owned, Balance, ProcOk, GuardSeen;
      assert World().procs[pid] == procs[pid].P();
    }
  }

  /** Every operation is careful in the memory that those before it leave. */
  ghost predicate CarefulOps(s: Eager, ops: seq<Op>)
    decreases |ops|
  {
    ops != [] ==>
      && ops[0].pid in s && |s[ops[0].pid].image.pages| == UserPages(s[ops[0].pid].image.size)
      && Careful(s, ops[0]) && CarefulOps(EagerNext(s, ops[0]), ops[1..])
  }

  lemma CarefulHead(w: World, ops: seq<Op>, k: nat)
    requires k < |ops| && CarefulOps(View(w), ops[k..])
    ensures ops[k].pid in w.procs && |View(w)[ops[k].pid].image.pages| == UserPages(View(w)[ops[k].pid].image.size)
    ensures Careful(View(w), ops[k]) && CarefulOps(EagerNext(View(w), ops[k]), ops[k + 1..])
  {
    hide Careful, EagerNext, SeenOf;
    assert ops[k..][0] == ops[k] && ops[k..][1..] == ops[k + 1..];
  }

  lemma NoneYet(w: World)
    ensures CarefulRun([w], [], [])
  {
  }

  lemma MoreCareful(ws: seq<World>, ops: seq<Op>, rs: seq<Reply>, op: Op, w': World, r: Reply)
    requires |rs| < |ops| && CarefulRun(ws, ops[..|rs|], rs) && op == ops[|rs|] && CarefulStep(ws[|rs|], op, w', r)
    ensures CarefulRun(ws + [w'], ops[..|rs| + 1], rs + [r])
  {
    hide CarefulStep;
  }

  /** Nobody sees a difference. */
  lemma Unchanged(w: World, w': World, pid: nat)
    requires WorldOk(w) && pid in w.procs && w'.procs == w.procs && Owned(w'.mem, w'.own)
    requires var p := w.procs[pid];
             && Elsewhere(w.mem, w.own, p.pgdir, w'.mem, w'.own) && ProcOk(w'.mem, w'.own, p)
             && Memory(w'.mem, p) == Memory(w.mem, p)
    ensures WorldOk(w') && View(w') == View(w)
  {
    hide Owned, ProcOk, GuardSeen, Memory, Elsewhere;
    forall q | q in w.procs
      ensures ProcOk(w'.mem, w'.own, w.procs[q]) && SeenOf(w', q) == SeenOf(w, q)
    {
      if q != pid {
        OthersSame(w, w', w.procs[pid].pgdir, q);
      }
    }
  }

  lemma ViewKeys(w: World)
    ensures View(w).Keys == w.procs.Keys
  {
  }

  lemma CarefulSpawn(s: Eager, op: Op)
    requires op.pid in s && |s[op.pid].image.pages| == UserPages(s[op.pid].image.size) && Careful(s, op) && op.Spawn?
    ensures op.child !in s
  {
  }

  lemma CarefulAccess(s: Eager, op: Op)
    requires op.pid in s && |s[op.pid].image.pages| == UserPages(s[op.pid].image.size) && Careful(s, op)
    ensures op.Read? || op.Write? ==> op.va < ALLPAGES * PGSIZE
  {
  }

  lemma CarefulBrk(s: Eager, pid: nat, n: int)
    requires pid in s && |s[pid].image.pages| == UserPages(s[pid].image.size) && Careful(s, Op.Brk(pid, n))
    ensures -0x8000_0000 <= n < 0x8000_0000 && s[pid].image.size + n <= KERNBASE
  {
  }
}
