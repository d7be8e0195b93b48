/**
 Sleep locks, down to the lock steps inside sleep and wakeup, for any number of
 processes.  A process is where its program counter says; every step is one
 acquire, one release or one group of field accesses under a lock.
 */
module SleepLock {
  datatype Pc =
    | Idle
    // acquiresleep
    | AcqInner | Test | SetLocked | SetPid | RelAcquired
    // sleep, called by acquiresleep
    | SleepAcqTable | SleepRelInner | SleepChan | SleepState | Switch | Asleep | Woken | DropTable | Retake
    | Holding
    // releasesleep, with the scan of wakeup1 at slot i
    | RelAcq | ClearLocked | ClearPid | WakeAcqTable | WakeScan(i: nat) | WakeRelTable | RelInner
    // holdingsleep; mine: does the caller hold the lock
    | QueryAcq(mine: bool) | QueryRead(mine: bool) | QueryRel(mine: bool, result: bool)

  /** A slot of the process table: where it is, and its state and chan fields as far as this lock is concerned. */
  datatype Slot = Slot(pc: Pc, sleeping: bool, onLock: bool)

  datatype Holder = Free | By(p: nat)

  /** The inner spinlock, ptable.lock, and the two fields of the sleep lock. */
  datatype Shared = Shared(inner: Holder, table: Holder, locked: bool, pid: nat)

  datatype State = State(g: Shared, procs: seq<Slot>)

  /** Choices: a process calls acquiresleep, releasesleep or holdingsleep, goes on with what it is doing, or is killed. */
  datatype Act = Acquire | Release | Query | Go | Kill

  predicate NeedsInner(pc: Pc) {
    pc.AcqInner? || pc.Retake? || pc.RelAcq? || pc.QueryAcq?
  }

  /** Asleep needs it through the scheduler, which runs the process with ptable.lock held. */
  predicate NeedsTable(pc: Pc) {
    pc.SleepAcqTable? || pc.WakeAcqTable? || pc.Asleep?
  }

  predicate HasInner(pc: Pc) {
    match pc
    case Test => true
    case SetLocked => true
    case SetPid => true
    case RelAcquired => true
    case SleepAcqTable => true
    case SleepRelInner => true
    case ClearLocked => true
    case ClearPid => true
    case WakeAcqTable => true
    case WakeScan(_) => true
    case WakeRelTable => true
    case RelInner => true
    case QueryRead(_) => true
    case QueryRel(_, _) => true
    case _ => false
  }

  predicate HasTable(pc: Pc) {
    match pc
    case SleepRelInner => true
    case SleepChan => true
    case SleepState => true
    case Switch => true
    case Woken => true
    case DropTable => true
    case WakeScan(_) => true
    case WakeRelTable => true
    case _ => false
  }

  /** The process holds the sleep lock, or is about to be told so. */
  predicate Owns(pc: Pc) {
    match pc
    case SetPid => true
    case RelAcquired => true
    case Holding => true
    case RelAcq => true
    case ClearLocked => true
    case QueryAcq(m) => m
    case QueryRead(m) => m
    case QueryRel(m, _) => m
    case _ => false
  }

  predicate CanMove(g: Shared, x: Slot, a: Act) {
    match a
    case Acquire => x.pc.Idle?
    case Release => x.pc.Holding?
    case Query => x.pc.Idle? || x.pc.Holding?
    case Kill => g.table.Free?
    case Go =>
      && !x.pc.Idle? && !x.pc.Holding?
      && (NeedsInner(x.pc) ==> g.inner.Free?) && (NeedsTable(x.pc) ==> g.table.Free?)
      && (x.pc.Asleep? ==> !x.sleeping)
  }

  /** What a step of process p, one of n, does to its own slot. */
  function MoveSlot(g: Shared, p: nat, x: Slot, a: Act, n: nat): (r: Slot) {
    match a
    case Acquire => x.(pc := AcqInner)
    case Release => x.(pc := RelAcq)
    case Query => x.(pc := QueryAcq(x.pc.Holding?))
    case Kill => x.(sleeping := false)
    case Go =>
      match x.pc
      case AcqInner => x.(pc := Test)
      case Test => x.(pc := if g.locked then SleepAcqTable else SetLocked)
      case SetLocked => x.(pc := SetPid)
      case SetPid => x.(pc := RelAcquired)
      case RelAcquired => x.(pc := Holding)
      case SleepAcqTable => x.(pc := SleepRelInner)
      case SleepRelInner => x.(pc := SleepChan)
      case SleepChan => x.(pc := SleepState, onLock := true)
      case SleepState => x.(pc := Switch, sleeping := true)
      case Switch => x.(pc := Asleep)
      case Asleep => x.(pc := Woken)
      case Woken => x.(pc := DropTable, onLock := false)
      case DropTable => x.(pc := Retake)
      case Retake => x.(pc := Test)
      case RelAcq => x.(pc := ClearLocked)
      case ClearLocked => x.(pc := ClearPid)
      case ClearPid => x.(pc := WakeAcqTable)
      case WakeAcqTable => x.(pc := WakeScan(0))
      case WakeScan(i) => x.(pc := if i < n then WakeScan(i + 1) else WakeRelTable)
      case WakeRelTable => x.(pc := RelInner)
      case RelInner => x.(pc := Idle)
      case QueryAcq(m) => x.(pc := QueryRead(m))
      case QueryRead(m) => x.(pc := QueryRel(m, g.locked && g.pid == p + 1))
      case QueryRel(m, _) => x.(pc := if m then Holding else Idle)
      case _ => x
  }

  /** What it does to the locks and the fields of the sleep lock. */
  function MoveShared(g: Shared, p: nat, pc: Pc, a: Act): (r: Shared) {
    if !a.Go? then g else
      match pc
      case AcqInner => g.(inner := By(p))
      case SetLocked => g.(locked := true)
      case SetPid => g.(pid := p + 1)
      case RelAcquired => g.(inner := Free)
      case SleepAcqTable => g.(table := By(p))
      case SleepRelInner => g.(inner := Free)
      case Switch => g.(table := Free)
      case Asleep => g.(table := By(p))
      case DropTable => g.(table := Free)
      case Retake => g.(inner := By(p))
      case RelAcq => g.(inner := By(p))
      case ClearLocked => g.(locked := false)
      case ClearPid => g.(pid := 0)
      case WakeAcqTable => g.(table := By(p))
      case WakeRelTable => g.(table := Free)
      case RelInner => g.(inner := Free)
      case QueryAcq(_) => g.(inner := By(p))
      case QueryRel(_, _) => g.(inner := Free)
      case _ => g
  }

  predicate Enabled(s: State, p: nat, a: Act) {
    p < |s.procs| && CanMove(s.g, s.procs[p], a)
  }

  /** wakeup1's visit to slot i. */
  function Visit(x: Slot): (r: Slot) {
    if x.sleeping && x.onLock then x.(sleeping := false) else x
  }

  function Next(s: State, p: nat, a: Act): (r: State)
    requires Enabled(s, p, a)
  {
    var x := s.procs[p];
    var procs :=
      if a.Go? && x.pc.WakeScan? && x.pc.i < |s.procs| then s.procs[x.pc.i := Visit(s.procs[x.pc.i])] else s.procs;
    State(MoveShared(s.g, p, x.pc, a), procs[p := MoveSlot(s.g, p, procs[p], a, |procs|)])
  }

  ghost predicate Init(s: State) {
    s.g == Shared(Free, Free, false, 0) && forall p :: 0 <= p < |s.procs| ==> s.procs[p] == Slot(Idle, false, false)
  }

  // The invariant.

  /** Asleep on the lock, or past the point where going to sleep can be called off. */
  predicate Sleepy(x: Slot) {
    x.pc.SleepChan? || x.pc.SleepState? || x.sleeping
  }

  /** A releaser that has yet to visit slot p. */
  predicate WillWake(pc: Pc, p: nat) {
    pc.ClearPid? || pc.WakeAcqTable? || (pc.WakeScan? && pc.i <= p)
  }

  predicate SlotOk(g: Shared, p: nat, x: Slot) {
    HeldOk(g, p, x.pc) && FieldsOk(g, p, x.pc) && RestOk(x)
  }

  predicate HeldOk(g: Shared, p: nat, pc: Pc) {
    (HasInner(pc) <==> g.inner == By(p)) && (HasTable(pc) <==> g.table == By(p))
  }

  /** What the place of process p says about the fields of the sleep lock. */
  predicate FieldsOk(g: Shared, p: nat, pc: Pc) {
    && (pc.SleepAcqTable? || pc.SleepRelInner? ==> g.locked)
    && (pc.SetLocked? ==> !g.locked)
    && (pc.ClearPid? || pc.WakeAcqTable? || pc.WakeScan? || pc.WakeRelTable? || pc.RelInner? ==> !g.locked)
    && (Owns(pc) ==> g.locked && (!pc.SetPid? ==> g.pid == p + 1))
    && (g.locked && g.pid == p + 1 ==> Owns(pc))
    && (!g.locked && g.pid != 0 && HasInner(pc) ==> pc.ClearPid?)
    && (pc.SetPid? ==> g.pid == 0)
  }

  predicate RestOk(x: Slot) {
    && (x.pc.QueryRel? ==> x.pc.result == x.pc.mine)
    && (x.sleeping ==> x.onLock && (x.pc.Switch? || x.pc.Asleep?))
    && (x.onLock ==> x.pc.SleepState? || x.pc.Switch? || x.pc.Asleep? || x.pc.Woken?)
    && (x.pc.SleepState? || x.pc.Switch? ==> x.onLock)
  }

  /** The locks are held by processes; a taken lock, or a stale pid, has a process behind it. */
  ghost predicate LockOk(s: State) {
    && (s.g.inner.By? ==> s.g.inner.p < |s.procs|) && (s.g.table.By? ==> s.g.table.p < |s.procs|)
    && (s.g.locked ==> exists p :: 0 <= p < |s.procs| && Owns(s.procs[p].pc))
    && (!s.g.locked && s.g.pid != 0 ==> s.g.inner.By?)
  }

  ghost predicate OneOwner(s: State) {
    forall p, q :: 0 <= p < |s.procs| && 0 <= q < |s.procs| && Owns(s.procs[p].pc) && Owns(s.procs[q].pc) ==> p == q
  }

  /** With the lock not taken, every process asleep or about to sleep is still to be woken. */
  ghost predicate WakeOk(s: State) {
    !s.g.locked ==> forall p :: 0 <= p < |s.procs| && Sleepy(s.procs[p]) ==>
      s.g.inner.By? && s.g.inner.p < |s.procs| && WillWake(s.procs[s.g.inner.p].pc, p)
  }

  ghost predicate Inv(s: State) {
    LockOk(s) && OneOwner(s) && (forall p :: 0 <= p < |s.procs| ==> SlotOk(s.g, p, s.procs[p])) && WakeOk(s)
  }

  lemma InitInv(s: State)
    requires Init(s)
    ensures Inv(s)
  {
  }

  // One step: first the slots, one at a time.

  lemma MoveHeld(g: Shared, p: nat, x: Slot, a: Act, n: nat)
    requires SlotOk(g, p, x) && CanMove(g, x, a)
    ensures HeldOk(MoveShared(g, p, x.pc, a), p, MoveSlot(g, p, x, a, n).pc)
  {
    hide FieldsOk, RestOk;
  }

  lemma MoveFields(g: Shared, p: nat, x: Slot, a: Act, n: nat)
    requires SlotOk(g, p, x) && CanMove(g, x, a) && (!g.locked && g.pid != 0 ==> g.inner.By?)
    ensures FieldsOk(MoveShared(g, p, x.pc, a), p, MoveSlot(g, p, x, a, n).pc)
  {
    hide RestOk;
  }

  lemma MoveRest(g: Shared, p: nat, x: Slot, a: Act, n: nat)
    requires SlotOk(g, p, x) && CanMove(g, x, a)
    ensures RestOk(MoveSlot(g, p, x, a, n))
  {
    hide HeldOk;
  }

  lemma MoveSelf(g: Shared, p: nat, x: Slot, a: Act, n: nat)
    requires SlotOk(g, p, x) && CanMove(g, x, a) && (!g.locked && g.pid != 0 ==> g.inner.By?)
    ensures SlotOk(MoveShared(g, p, x.pc, a), p, MoveSlot(g, p, x, a, n))
  {
    hide HeldOk, FieldsOk, RestOk, MoveShared, MoveSlot, CanMove;
    MoveHeld(g, p, x, a, n);
    MoveFields(g, p, x, a, n);
    MoveRest(g, p, x, a, n);
  }

  lemma MoveOther(g: Shared, p: nat, x: Slot, a: Act, q: nat, y: Slot)
    requires SlotOk(g, p, x) && SlotOk(g, q, y) && p != q && CanMove(g, x, a) && !(Owns(x.pc) && Owns(y.pc))
    ensures SlotOk(MoveShared(g, p, x.pc, a), q, y)
  {
  }

  lemma VisitOk(g: Shared, q: nat, y: Slot)
    requires SlotOk(g, q, y)
    ensures SlotOk(g, q, Visit(y)) && Visit(y).pc == y.pc && !(Visit(y).sleeping && Visit(y).onLock)
  {
  }

  /** The slots of the others: as they were, or visited by the scan. */
  lemma StepOthers(s: State, p: nat, a: Act, q: nat)
    requires Enabled(s, p, a) && q < |s.procs| && q != p
    ensures |Next(s, p, a).procs| == |s.procs|
    ensures var y := s.procs[q];
            Next(s, p, a).procs[q] == if a.Go? && s.procs[p].pc == WakeScan(q) then Visit(y) else y
  {
  }

  lemma StepMine(s: State, p: nat, a: Act)
    requires Inv(s) && Enabled(s, p, a)
    ensures Next(s, p, a).procs[p] == MoveSlot(s.g, p, s.procs[p], a, |s.procs|)
  {
    assert SlotOk(s.g, p, s.procs[p]);
  }

  lemma StepSlot(s: State, p: nat, a: Act, q: nat)
    requires Inv(s) && Enabled(s, p, a) && q < |s.procs|
    ensures SlotOk(Next(s, p, a).g, q, Next(s, p, a).procs[q])
  {
    hide SlotOk, MoveSlot, MoveShared, Visit, Owns, WakeOk;
    assert SlotOk(s.g, p, s.procs[p]) && SlotOk(s.g, q, s.procs[q]);
    if p == q {
      StepMine(s, p, a);
      MoveSelf(s.g, p, s.procs[p], a, |s.procs|);
    } else {
      StepOthers(s, p, a, q);
      VisitOk(s.g, q, s.procs[q]);
      assert !(Owns(s.procs[p].pc) && Owns(s.procs[q].pc));
      MoveOther(s.g, p, s.procs[p], a, q, s.procs[q]);
      MoveOther(s.g, p, s.procs[p], a, q, Visit(s.procs[q]));
    }
  }

  /** The lock is taken by one step and given up by another; every other step leaves the owner where it is. */
  lemma MoveOwns(g: Shared, p: nat, x: Slot, a: Act, n: nat)
    requires SlotOk(g, p, x) && CanMove(g, x, a)
    ensures var x', g' := MoveSlot(g, p, x, a, n), MoveShared(g, p, x.pc, a);
            && (g'.locked == g.locked ==> Owns(x'.pc) == Owns(x.pc))
            && (g'.locked && !g.locked ==> Owns(x'.pc) && !Owns(x.pc))
            && (!g'.locked && g.locked ==> !Owns(x'.pc) && Owns(x.pc))
            && (g'.inner == g.inner || g'.inner == Free || g'.inner == By(p))
            && (g'.table == g.table || g'.table == Free || g'.table == By(p))
            && (!g'.locked && g'.pid != 0 ==> g'.inner.By? || (!g.locked && g.pid != 0))
  {
  }

  lemma StepOwner(s: State, p: nat, a: Act)
    requires Inv(s) && Enabled(s, p, a)
    ensures LockOk(Next(s, p, a)) && OneOwner(Next(s, p, a))
  {
    hide SlotOk, MoveSlot, MoveShared, Visit, Owns, WakeOk, CanMove, HasInner;
    var s', x := Next(s, p, a), s.procs[p];
    assert SlotOk(s.g, p, x);
    StepMine(s, p, a);
    MoveOwns(s.g, p, x, a, |s.procs|);
    forall q | 0 <= q < |s.procs| && q != p
      ensures s'.procs[q].pc == s.procs[q].pc
    {
      StepOthers(s, p, a, q);
      assert SlotOk(s.g, q, s.procs[q]);
      VisitOk(s.g, q, s.procs[q]);
    }
    forall q | 0 <= q < |s.procs| && Owns(s.procs[q].pc)
      ensures s.g.locked
    {
      OwnsLocked(s.g, q, s.procs[q]);
    }
    if s.g.locked && s'.g.locked {
      var q :| 0 <= q < |s.procs| && Owns(s.procs[q].pc);
      assert Owns(s'.procs[q].pc);
    }
    if !s'.g.locked && s'.g.pid != 0 {
      StaleInner(s, p, a);
    }
  }

  lemma OwnsLocked(g: Shared, q: nat, y: Slot)
    requires SlotOk(g, q, y) && Owns(y.pc)
    ensures g.locked
  {
  }

  lemma StaleInner(s: State, p: nat, a: Act)
    requires Inv(s) && Enabled(s, p, a)
    ensures var g' := Next(s, p, a).g; !g'.locked && g'.pid != 0 ==> g'.inner.By?
  {
    hide WakeOk, OneOwner;
    assert SlotOk(s.g, p, s.procs[p]);
  }

  lemma StepWake(s: State, p: nat, a: Act)
    requires Inv(s) && Enabled(s, p, a)
    ensures WakeOk(Next(s, p, a))
  {
    var s' := Next(s, p, a);
    if !s'.g.locked {
      forall q | 0 <= q < |s'.procs| && Sleepy(s'.procs[q])
        ensures s'.g.inner.By? && s'.g.inner.p < |s'.procs| && WillWake(s'.procs[s'.g.inner.p].pc, q)
      {
        assert SlotOk(s.g, p, s.procs[p]) && SlotOk(s.g, q, s.procs[q]);
      }
    }
  }

  lemma StepInv(s: State, p: nat, a: Act)
    requires Inv(s) && Enabled(s, p, a)
    ensures Inv(Next(s, p, a))
  {
    hide SlotOk, WakeOk, LockOk, OneOwner;
    var s' := Next(s, p, a);
    StepOwner(s, p, a);
    StepWake(s, p, a);
    forall q | 0 <= q < |s'.procs|
      ensures SlotOk(s'.g, q, s'.procs[q])
    {
      StepSlot(s, p, a, q);
    }
  }

  // Whole runs.

  ghost predicate StepTo(s: State, s': State) {
    exists p: nat, a :: Enabled(s, p, a) && s' == Next(s, p, a)
  }

  ghost predicate IsRun(ss: seq<State>) {
    ss != [] && Init(ss[0]) && forall k :: 0 <= k < |ss| - 1 ==> StepTo(ss[k], ss[k + 1])
  }

  lemma {:induction false} RunInv(ss: seq<State>, k: nat)
    requires IsRun(ss) && k < |ss|
    ensures Inv(ss[k])
  {
    hide Inv, Init, Next, Enabled;
    if k == 0 {
      InitInv(ss[0]);
    } else {
      RunInv(ss, k - 1);
      assert StepTo(ss[k - 1], ss[k - 1 + 1]);
      var p: nat, a :| Enabled(ss[k - 1], p, a) && ss[k] == Next(ss[k - 1], p, a);
      StepInv(ss[k - 1], p, a);
    }
  }

  /** At most one process is past acquiresleep and not yet through with releasesleep. */
  lemma MutualExclusion(ss: seq<State>, k: nat, p: nat, q: nat)
    requires IsRun(ss) && k < |ss| && p < |ss[k].procs| && q < |ss[k].procs|
    requires Owns(ss[k].procs[p].pc) && Owns(ss[k].procs[q].pc)
    ensures p == q && ss[k].g.locked
  {
    hide IsRun, SlotOk, WakeOk;
    RunInv(ss, k);
    assert SlotOk(ss[k].g, p, ss[k].procs[p]);
    OwnsLocked(ss[k].g, p, ss[k].procs[p]);
  }

  /** With the inner spinlock free and the sleep lock not taken, nobody is asleep on it or about to be. */
  lemma NoLostWakeup(ss: seq<State>, k: nat, p: nat)
    requires IsRun(ss) && k < |ss| && p < |ss[k].procs|
    requires ss[k].g.inner.Free? && !ss[k].g.locked
    ensures !Sleepy(ss[k].procs[p]) && !ss[k].procs[p].pc.SleepAcqTable? && !ss[k].procs[p].pc.SleepRelInner?
  {
    hide IsRun;
    RunInv(ss, k);
    assert SlotOk(ss[k].g, p, ss[k].procs[p]);
  }

  /** holdingsleep answers yes exactly to the process that holds the lock. */
  lemma QueryAnswers(ss: seq<State>, k: nat, p: nat)
    requires IsRun(ss) && k < |ss| && p < |ss[k].procs| && ss[k].procs[p].pc.QueryRel?
    ensures ss[k].procs[p].pc.result <==> Owns(ss[k].procs[p].pc)
  {
    hide IsRun;
    RunInv(ss, k);
    assert SlotOk(ss[k].g, p, ss[k].procs[p]);
  }

  /** As long as some process is busy with the lock, some process that is busy can move. */
  lemma NoDeadlock(ss: seq<State>, k: nat, p: nat)
    requires IsRun(ss) && k < |ss| && p < |ss[k].procs| && !ss[k].procs[p].pc.Idle?
    ensures exists q: nat :: Enabled(ss[k], q, Go) || Enabled(ss[k], q, Release)
  {
    hide IsRun;
    RunInv(ss, k);
    var s := ss[k];
    if s.g.table.By? {
      assert SlotOk(s.g, s.g.table.p, s.procs[s.g.table.p]);
      assert Enabled(s, s.g.table.p, Go);
    } else if s.g.inner.By? {
      assert SlotOk(s.g, s.g.inner.p, s.procs[s.g.inner.p]);
      assert Enabled(s, s.g.inner.p, Go);
    } else if s.procs[p].sleeping {
      assert SlotOk(s.g, p, s.procs[p]);
      assert s.g.locked;
      var q :| 0 <= q < |s.procs| && Owns(s.procs[q].pc);
      assert SlotOk(s.g, q, s.procs[q]);
      assert Enabled(s, q, Go) || Enabled(s, q, Release);
    } else {
      assert SlotOk(s.g, p, s.procs[p]);
      assert Enabled(s, p, Go) || Enabled(s, p, Release);
    }
  }
}
