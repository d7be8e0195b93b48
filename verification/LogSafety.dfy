/**
 What every reachable state of the logging system keeps, and what follows for
 whole runs with crashes.
 */
module LogSafety {
  import opened LogDisk
  import opened LogCode
  import opened LogSystem

  ghost function ActiveCount(ops: seq<Op>): (n: nat) {
    if ops == [] then 0 else ActiveCount(ops[1..]) + if ops[0].Active? then 1 else 0
  }

  /** Log blocks reserved for the active operations and not used by them yet. */
  ghost function Unused(ops: seq<Op>): (n: int) {
    if ops == [] then 0 else Unused(ops[1..]) + Left(ops[0])
  }

  ghost function Left(op: Op): (n: int) {
    if op.Active? then MAXOPBLOCKS - |op.wrote| else 0
  }

  /** Index into lh from which the logged blocks are still pinned dirty in the cache. */
  ghost function DirtyFrom(s: State): (k: nat) {
    match s.phase
    case Run => 0
    case WriteSlot(_) => 0
    case WriteHeader => 0
    case InstallHome(k) => k
    case _ => |s.lh|
  }

  ghost predicate Shape(lay: Layout, s: State) {
    && LOGSIZE < lay.size
    && WfDisk(lay, s.disk)
    && Targets(lay, |s.disk|, s.lh)
    && s.outstanding == ActiveCount(s.ops)
    && (s.committing <==> InCommit(s.phase))
    && (0 < s.outstanding ==> s.phase.Run?)
    && match s.phase
       case Boot => s.lh == []
       case Replay(k) => k < |s.lh|
       case WriteSlot(k) => k < |s.lh|
       case InstallHome(k) => k < |s.lh|
       case WriteHeader => s.lh != []
       case Committed => s.lh == []
       case _ => true
  }

  /** The dirty buffers are exactly those still to be installed; any other settled buffer mirrors the disk. */
  ghost predicate CacheOk(s: State) {
    && (forall b :: b in s.cache ==> b < |s.disk| && (s.cache[b].dirty || b in s.touched || s.cache[b].data == s.disk[b]))
    && (forall i :: DirtyFrom(s) <= i < |s.lh| ==> s.lh[i] in s.cache && s.cache[s.lh[i]].dirty)
    && (forall b :: b in s.cache && s.cache[b].dirty ==> b in s.lh)
    && (forall i :: 0 <= i < DirtyFrom(s) && i < |s.lh| && s.lh[i] in s.cache ==> !s.cache[s.lh[i]].dirty)
  }

  ghost predicate LocksOk(lay: Layout, s: State) {
    && (forall b :: b in s.locked ==> b in s.cache && s.locked[b] < |s.ops|)
    && (forall b :: b in s.touched ==> b in s.locked && IsActive(s, s.locked[b]) && IsHome(lay, b))
    && (forall p :: 0 <= p < |s.ops| && s.ops[p].Active? && s.ops[p].checked.Some? ==>
          Holds(s, p, s.ops[p].checked.value) && IsHome(lay, s.ops[p].checked.value))
  }

  /** What the disk holds at each stage of commit and recovery. */
  ghost predicate DiskOk(lay: Layout, s: State)
    requires WfDisk(lay, s.disk) && Targets(lay, |s.disk|, s.lh)
  {
    match s.phase
    case Boot => true
    case Replay(k) => Header(lay, s.disk) == s.lh && InstalledTo(lay, s, k)
    case ClearReplay => Header(lay, s.disk) == s.lh && InstalledTo(lay, s, |s.lh|)
    case Run => Header(lay, s.disk) == []
    case WriteSlot(k) => Header(lay, s.disk) == [] && LoggedTo(lay, s, k)
    case WriteHeader => Header(lay, s.disk) == [] && LoggedTo(lay, s, |s.lh|)
    case InstallHome(k) => Header(lay, s.disk) == s.lh && InstalledTo(lay, s, k) && LoggedFrom(lay, s, k)
    case ClearHeader => Header(lay, s.disk) == s.lh && InstalledTo(lay, s, |s.lh|)
    case Committed => Header(lay, s.disk) == []
  }

  ghost predicate LoggedTo(lay: Layout, s: State, k: nat)
    requires lay.start + lay.size <= |s.disk| && Targets(lay, |s.disk|, s.lh)
  {
    forall i :: 0 <= i < k && i < |s.lh| ==> Slots(lay, s.disk, |s.lh|)[i] == View(s, s.lh[i])
  }

  ghost predicate LoggedFrom(lay: Layout, s: State, k: nat)
    requires lay.start + lay.size <= |s.disk| && Targets(lay, |s.disk|, s.lh)
  {
    forall i :: k <= i < |s.lh| ==> Slots(lay, s.disk, |s.lh|)[i] == View(s, s.lh[i])
  }

  ghost predicate InstalledTo(lay: Layout, s: State, k: nat)
    requires lay.start + lay.size <= |s.disk| && Targets(lay, |s.disk|, s.lh)
  {
    forall i :: 0 <= i < k && i < |s.lh| ==> s.disk[s.lh[i]] == Slots(lay, s.disk, |s.lh|)[i]
  }

  /** The reservation made by begin_op covers every log_write still to come. */
  ghost predicate BudgetOk(s: State) {
    && |s.lh| + Unused(s.ops) <= LOGSIZE
    && forall p :: 0 <= p < |s.ops| && s.ops[p].Active? ==> OpOk(s.lh, s.ops[p])
  }

  ghost predicate OpOk(lh: seq<nat>, op: Op)
    requires op.Active?
  {
    && |op.wrote| <= MAXOPBLOCKS
    && (forall b :: b in op.wrote ==> b in lh)
    && (op.checked.Some? ==> |op.wrote + {op.checked.value}| <= MAXOPBLOCKS)
  }

  ghost predicate Inv(lay: Layout, s: State) {
    Shape(lay, s) && CacheOk(s) && LocksOk(lay, s) && DiskOk(lay, s) && BudgetOk(s)
  }

  lemma {:induction false} CountUpdate(ops: seq<Op>, p: nat, op: Op)
    requires p < |ops|
    ensures ActiveCount(ops[p := op])
            == ActiveCount(ops) - (if ops[p].Active? then 1 else 0) + if op.Active? then 1 else 0
    ensures Unused(ops[p := op]) == Unused(ops) - Left(ops[p]) + Left(op)
    decreases |ops|
  {
    if p == 0 {
      assert ops[p := op][1..] == ops[1..];
    } else {
      CountUpdate(ops[1..], p - 1, op);
      assert ops[p := op][1..] == ops[1..][p - 1 := op];
    }
  }

  lemma {:induction false} SomeActive(ops: seq<Op>, p: nat)
    requires p < |ops| && ops[p].Active?
    ensures 1 <= ActiveCount(ops)
    decreases p
  {
    if p > 0 {
      SomeActive(ops[1..], p - 1);
    }
  }

  lemma {:induction false} NoneActive(ops: seq<Op>)
    requires forall p :: 0 <= p < |ops| ==> ops[p].Idle?
    ensures ActiveCount(ops) == 0 && Unused(ops) == 0
    decreases |ops|
  {
    if ops != [] {
      NoneActive(ops[1..]);
    }
  }

  /** Every operation's share of the reservation is at most the whole. */
  lemma {:induction false} LeftAtMostUnused(ops: seq<Op>, p: nat)
    requires p < |ops|
    requires forall q :: 0 <= q < |ops| && ops[q].Active? ==> |ops[q].wrote| <= MAXOPBLOCKS
    ensures 0 <= Left(ops[p]) <= Unused(ops)
    decreases |ops|
  {
    UnusedNonNegative(ops[1..]);
    if p > 0 {
      LeftAtMostUnused(ops[1..], p - 1);
    }
  }

  lemma {:induction false} UnusedNonNegative(ops: seq<Op>)
    requires forall q :: 0 <= q < |ops| && ops[q].Active? ==> |ops[q].wrote| <= MAXOPBLOCKS
    ensures 0 <= Unused(ops)
    decreases |ops|
  {
    if ops != [] {
      UnusedNonNegative(ops[1..]);
    }
  }

  /** begin_op's test covers the reservation, because each active operation holds at most MAXOPBLOCKS of it. */
  lemma {:induction false} UnusedAtMost(ops: seq<Op>)
    ensures Unused(ops) <= ActiveCount(ops) * MAXOPBLOCKS
    decreases |ops|
  {
    if ops != [] {
      UnusedAtMost(ops[1..]);
    }
  }

  /** The step leaves alone what bread returns for every home block. */
  ghost predicate SameView(lay: Layout, s: State, t: State) {
    && |s.disk| == |t.disk|
    && forall b :: 0 <= b < |s.disk| && IsHome(lay, b) ==> View(t, b) == View(s, b)
  }

  /** The step leaves alone what a recovery from the disk would restore. */
  ghost predicate SameMeaning(lay: Layout, s: State, t: State) {
    && WfDisk(lay, s.disk) && WfDisk(lay, t.disk)
    && HomeEq(lay, Logical(lay, t.disk), Logical(lay, s.disk))
  }

  lemma NothingTouched(lay: Layout, s: State)
    requires Shape(lay, s) && LocksOk(lay, s) && s.outstanding == 0
    ensures s.touched == {} && forall p :: 0 <= p < |s.ops| ==> s.ops[p].Idle?
  {
    forall p | 0 <= p < |s.ops|
      ensures s.ops[p].Idle?
    {
      if s.ops[p].Active? {
        SomeActive(s.ops, p);
      }
    }
  }

  lemma DiskOkSame(lay: Layout, s: State, t: State)
    requires Shape(lay, s) && DiskOk(lay, s)
    requires t.disk == s.disk && t.lh == s.lh && t.phase == s.phase && SameView(lay, s, t)
    ensures DiskOk(lay, t)
  {
  }

  // Steps that change only the cache or the locks.

  lemma CacheTrafficOk(s: State, t: State)
    requires CacheOk(s)
    requires t.disk == s.disk && t.lh == s.lh && t.phase == s.phase && t.touched == s.touched
    requires forall b :: b in t.cache && b in s.cache ==> t.cache[b] == s.cache[b]
    requires forall b :: b in t.cache && b !in s.cache ==> b < |s.disk| && t.cache[b] == Buf(s.disk[b], false)
    requires forall b :: b in s.cache && s.cache[b].dirty ==> b in t.cache
    ensures CacheOk(t)
  {
  }

  lemma StepCacheTraffic(lay: Layout, s: State, st: Step)
    requires Inv(lay, s) && Enabled(lay, s, st)
    requires st.Load? || st.Evict? || st.Lock? || st.Unlock?
    ensures Inv(lay, Do(lay, s, st)) && SameView(lay, s, Do(lay, s, st))
    ensures Do(lay, s, st).disk == s.disk
  {
    hide Targets, WfDisk, BudgetOk, IOEnabled, DiskOk, CacheOk, LocksOk;
    var t := Do(lay, s, st);
    if st.Load? || st.Evict? {
      TrafficLocks(lay, s, st, t);
    } else {
      LockingLocks(lay, s, st, t);
    }
    CacheTrafficOk(s, t);
    DiskOkSame(lay, s, t);
    BudgetSame(s, t);
  }

  lemma TrafficLocks(lay: Layout, s: State, st: Step, t: State)
    requires LocksOk(lay, s) && CacheOk(s) && Enabled(lay, s, st) && t == Do(lay, s, st)
    requires st.Load? || st.Evict?
    ensures LocksOk(lay, t) && SameView(lay, s, t)
  {
    hide LocksOk, SameView, IOEnabled, Targets, CacheOk;
    if st.Evict? {
      EvictView(lay, s, st.b, t);
    } else {
      LoadView(lay, s, st.b, t);
    }
  }

  lemma EvictView(lay: Layout, s: State, b: nat, t: State)
    requires LocksOk(lay, s) && CacheOk(s) && b in s.cache && !s.cache[b].dirty && b !in s.locked
    requires t == s.(cache := s.cache - {b})
    ensures LocksOk(lay, t) && SameView(lay, s, t)
  {
    hide DirtyFrom;
  }

  lemma LoadView(lay: Layout, s: State, b: nat, t: State)
    requires LocksOk(lay, s) && b < |s.disk| && b !in s.cache
    requires t == s.(cache := s.cache[b := Buf(s.disk[b], false)]) || t == s.(panicked := true)
    ensures LocksOk(lay, t) && SameView(lay, s, t)
  {
  }

  lemma LockingLocks(lay: Layout, s: State, st: Step, t: State)
    requires LocksOk(lay, s) && Enabled(lay, s, st) && t == Do(lay, s, st)
    requires st.Lock? || st.Unlock?
    ensures LocksOk(lay, t) && SameView(lay, s, t)
  {
    hide Targets, IOEnabled, DirtyFrom;
  }

  lemma BudgetSame(s: State, t: State)
    requires BudgetOk(s) && t.lh == s.lh && t.ops == s.ops
    ensures BudgetOk(t)
  {
  }

  lemma ModifyCache(lay: Layout, s: State, b: nat, x: Block, t: State)
    requires CacheOk(s) && b in s.cache
    requires t == s.(cache := s.cache[b := s.cache[b].(data := x)], touched := s.touched + {b})
    ensures CacheOk(t)
    ensures forall c :: 0 <= c < |s.disk| && c != b ==> View(t, c) == View(s, c)
    ensures b < |s.disk| && View(t, b) == x
  {
  }

  lemma ModifyLocks(lay: Layout, s: State, p: nat, b: nat, x: Block, t: State)
    requires LocksOk(lay, s) && IsActive(s, p) && Holds(s, p, b) && IsHome(lay, b)
    requires t == s.(cache := s.cache[b := s.cache[b].(data := x)], touched := s.touched + {b})
    ensures LocksOk(lay, t)
  {
  }

  lemma StepModify(lay: Layout, s: State, st: Step)
    requires Inv(lay, s) && Enabled(lay, s, st) && st.Modify?
    ensures Inv(lay, Do(lay, s, st)) && Do(lay, s, st).disk == s.disk
    ensures forall b :: 0 <= b < |s.disk| && b != st.b ==> View(Do(lay, s, st), b) == View(s, b)
    ensures st.b < |s.disk| && View(Do(lay, s, st), st.b) == st.x
  {
    hide Targets, WfDisk, IOEnabled, CacheOk, LocksOk, BudgetOk;
    var t := Do(lay, s, st);
    SomeActive(s.ops, st.p);
    ModifyCache(lay, s, st.b, st.x, t);
    ModifyLocks(lay, s, st.p, st.b, st.x, t);
    BudgetSame(s, t);
  }

  lemma CheckBudget(s: State, p: nat, b: nat, t: State)
    requires BudgetOk(s) && IsActive(s, p) && |s.ops[p].wrote + {b}| <= MAXOPBLOCKS
    requires t.lh == s.lh && t.ops == s.ops[p := s.ops[p].(checked := Some(b))]
    ensures BudgetOk(t) && ActiveCount(t.ops) == ActiveCount(s.ops)
  {
    CountUpdate(s.ops, p, s.ops[p].(checked := Some(b)));
  }

  lemma CheckLocks(lay: Layout, s: State, p: nat, b: nat, t: State)
    requires LocksOk(lay, s) && IsActive(s, p) && Holds(s, p, b) && IsHome(lay, b)
    requires t == s.(ops := s.ops[p := s.ops[p].(checked := Some(b))])
    ensures LocksOk(lay, t)
  {
  }

  lemma CacheOkSame(s: State, t: State)
    requires CacheOk(s)
    requires t.disk == s.disk && t.lh == s.lh && t.touched == s.touched && t.cache == s.cache
    requires DirtyFrom(t) == DirtyFrom(s)
    ensures CacheOk(t)
  {
  }

  lemma StepCheck(lay: Layout, s: State, st: Step)
    requires Inv(lay, s) && Enabled(lay, s, st) && st.Check?
    ensures Inv(lay, Do(lay, s, st)) && SameView(lay, s, Do(lay, s, st))
    ensures Do(lay, s, st).disk == s.disk
  {
    hide Targets, WfDisk, IOEnabled, CacheOk, LocksOk, BudgetOk, DiskOk, ActiveCount;
    var t := Do(lay, s, st);
    SomeActive(s.ops, st.p);
    CacheOkSame(s, t);
    DiskOkSame(lay, s, t);
    if t.panicked {
      BudgetSame(s, t);
      LocksSame(lay, s, t);
    } else {
      CheckBudget(s, st.p, st.b, t);
      CheckLocks(lay, s, st.p, st.b, t);
    }
  }

  lemma LocksSame(lay: Layout, s: State, t: State)
    requires LocksOk(lay, s) && t.locked == s.locked && t.cache == s.cache && t.ops == s.ops && t.touched == s.touched
    ensures LocksOk(lay, t)
  {
  }

  lemma BeginBudget(s: State, p: nat, t: State)
    requires BudgetOk(s) && p < |s.ops| && s.ops[p].Idle? && t.lh == s.lh && t.ops == s.ops[p := Active({}, None)]
    requires |s.lh| + (ActiveCount(s.ops) + 1) * MAXOPBLOCKS <= LOGSIZE
    ensures BudgetOk(t) && ActiveCount(t.ops) == ActiveCount(s.ops) + 1
  {
    CountUpdate(s.ops, p, Active({}, None));
    UnusedAtMost(t.ops);
  }

  lemma BeginLocks(lay: Layout, s: State, p: nat, t: State)
    requires LocksOk(lay, s) && p < |s.ops| && s.ops[p].Idle?
    requires t == s.(ops := s.ops[p := Active({}, None)], outstanding := s.outstanding + 1)
    ensures LocksOk(lay, t)
  {
  }

  lemma StepBegin(lay: Layout, s: State, st: Step)
    requires Inv(lay, s) && Enabled(lay, s, st) && st.Begin?
    ensures Inv(lay, Do(lay, s, st)) && SameView(lay, s, Do(lay, s, st))
    ensures Do(lay, s, st).disk == s.disk
  {
    hide Targets, WfDisk, IOEnabled, CacheOk, LocksOk, BudgetOk, DiskOk, ActiveCount;
    var t := Do(lay, s, st);
    CacheOkSame(s, t);
    DiskOkSame(lay, s, t);
    BeginBudget(s, st.p, t);
    BeginLocks(lay, s, st.p, t);
  }

  // log_write's locked part.

  lemma AppendTargets(lay: Layout, n: nat, lh: seq<nat>, b: nat)
    requires Targets(lay, n, lh) && b < n && IsHome(lay, b) && b !in lh && |lh| < LOGSIZE < lay.size
    ensures Targets(lay, n, lh + [b])
  {
  }

  /** An operation that passed the unlocked check still has its slot, whatever the others appended since. */
  lemma AppendBudget(s: State, p: nat, b: nat, t: State)
    requires BudgetOk(s) && IsActive(s, p) && s.ops[p].checked == Some(b)
    requires t.lh == (if b in s.lh then s.lh else s.lh + [b])
    requires t.ops == s.ops[p := Active(s.ops[p].wrote + {b}, None)]
    ensures BudgetOk(t) && ActiveCount(t.ops) == ActiveCount(s.ops) && |t.lh| <= LOGSIZE
  {
    var op := s.ops[p];
    var op' := Active(op.wrote + {b}, None);
    CountUpdate(s.ops, p, op');
    assert OpOk(s.lh, op);
    if b in op.wrote {
      assert op'.wrote == op.wrote;
    }
    forall q | 0 <= q < |t.ops| && t.ops[q].Active?
      ensures OpOk(t.lh, t.ops[q])
    {
      assert q != p ==> OpOk(s.lh, s.ops[q]);
    }
    UnusedNonNegative(t.ops);
  }

  lemma AppendLocks(lay: Layout, s: State, p: nat, b: nat, t: State)
    requires LocksOk(lay, s) && IsActive(s, p) && Holds(s, p, b) && p < |s.ops|
    requires t.cache == s.cache[b := s.cache[b].(dirty := true)] && t.locked == s.locked
    requires t.touched == s.touched - {b} && t.ops == s.ops[p := Active(s.ops[p].wrote + {b}, None)]
    ensures LocksOk(lay, t)
  {
  }

  lemma AppendCache(s: State, b: nat, t: State)
    requires CacheOk(s) && b in s.cache && s.phase.Run? && t.phase.Run? && t.disk == s.disk
    requires t.lh == (if b in s.lh then s.lh else s.lh + [b])
    requires t.cache == s.cache[b := s.cache[b].(dirty := true)] && t.touched == s.touched - {b}
    ensures CacheOk(t)
  {
  }

  lemma StepAppend(lay: Layout, s: State, st: Step)
    requires Inv(lay, s) && Enabled(lay, s, st) && st.Append?
    ensures Inv(lay, Do(lay, s, st)) && SameView(lay, s, Do(lay, s, st))
    ensures Do(lay, s, st).disk == s.disk
  {
    hide WfDisk, IOEnabled, LocksOk, BudgetOk, ActiveCount, Targets, CacheOk;
    var t := Do(lay, s, st);
    SomeActive(s.ops, st.p);
    assert st.b < |s.disk| && IsHome(lay, st.b) by {
      AppendedIsHome(lay, s, st.p, st.b);
    }
    AppendBudget(s, st.p, st.b, t);
    if st.b !in s.lh {
      AppendTargets(lay, |s.disk|, s.lh, st.b);
    }
    AppendLocks(lay, s, st.p, st.b, t);
    AppendCache(s, st.b, t);
  }

  lemma AppendedIsHome(lay: Layout, s: State, p: nat, b: nat)
    requires LocksOk(lay, s) && CacheOk(s) && IsActive(s, p) && s.ops[p].checked == Some(b)
    ensures b < |s.disk| && IsHome(lay, b)
  {
  }

  // end_op and commit's own bookkeeping.

  lemma EndBudget(s: State, p: nat, t: State)
    requires BudgetOk(s) && IsActive(s, p) && t.lh == s.lh && t.ops == s.ops[p := Idle]
    ensures BudgetOk(t) && ActiveCount(t.ops) == ActiveCount(s.ops) - 1
  {
    CountUpdate(s.ops, p, Idle);
  }

  lemma EndLocks(lay: Layout, s: State, p: nat, t: State)
    requires LocksOk(lay, s) && p < |s.ops| && forall b :: b in s.locked ==> s.locked[b] != p
    requires t.locked == s.locked && t.cache == s.cache && t.ops == s.ops[p := Idle] && t.touched == s.touched
    ensures LocksOk(lay, t)
  {
  }

  lemma StepEnd(lay: Layout, s: State, st: Step)
    requires Inv(lay, s) && Enabled(lay, s, st) && st.End?
    ensures Inv(lay, Do(lay, s, st)) && SameView(lay, s, Do(lay, s, st))
    ensures Do(lay, s, st).disk == s.disk && !Do(lay, s, st).panicked
  {
    hide WfDisk, IOEnabled, LocksOk, BudgetOk, ActiveCount, Targets, CacheOk;
    var t := Do(lay, s, st);
    SomeActive(s.ops, st.p);
    EndBudget(s, st.p, t);
    EndLocks(lay, s, st.p, t);
    CacheOkSame(s, t);
  }

  lemma StepEndCommit(lay: Layout, s: State)
    requires Inv(lay, s) && Enabled(lay, s, EndCommit)
    ensures Inv(lay, Do(lay, s, EndCommit)) && SameView(lay, s, Do(lay, s, EndCommit))
    ensures Do(lay, s, EndCommit).disk == s.disk
  {
    hide WfDisk, IOEnabled, LocksOk, BudgetOk, ActiveCount, Targets, CacheOk;
    var t := Do(lay, s, EndCommit);
    CacheOkSame(s, t);
    LocksSame(lay, s, t);
    BudgetSame(s, t);
  }

  lemma StepCrash(lay: Layout, s: State)
    requires Inv(lay, s)
    ensures Inv(lay, Do(lay, s, Crash)) && Do(lay, s, Crash).disk == s.disk
  {
    NoneActive(Do(lay, s, Crash).ops);
  }

  // Disk actions of commit and recovery: no operation is active, so nothing is touched.

  lemma QuietPut(lay: Layout, s: State, b: nat, x: Block, ph: Phase, t: State)
    requires LocksOk(lay, s) && BudgetOk(s) && s.touched == {} && b < |s.disk|
    requires forall p :: 0 <= p < |s.ops| ==> s.ops[p].Idle?
    requires |t.lh| <= LOGSIZE && t == Put(s, b, x, ph).(lh := t.lh)
    ensures LocksOk(lay, t) && BudgetOk(t)
  {
    NoneActive(s.ops);
  }

  /** Outside the log region a settled buffer either is still logged or mirrors the disk. */
  lemma SettledView(lay: Layout, s: State, b: nat)
    requires CacheOk(s) && s.touched == {} && b < |s.disk|
    requires b !in s.lh || (b in s.cache ==> !s.cache[b].dirty)
    ensures View(s, b) == s.disk[b]
  {
  }

  lemma SlotView(lay: Layout, s: State, k: nat)
    requires Shape(lay, s) && CacheOk(s) && s.touched == {} && k <= |s.lh|
    ensures lay.start + k < |s.disk| && View(s, lay.start + k) == s.disk[lay.start + k]
    ensures forall i :: 0 <= i < |s.lh| ==> s.lh[i] != lay.start + k
  {
    assert !IsHome(lay, lay.start + k);
    if lay.start + k in s.lh {
      assert false;
    }
    SettledView(lay, s, lay.start + k);
  }

  lemma InstallMeans(lay: Layout, d: Disk, bl: seq<nat>, k: nat)
    requires WfDisk(lay, d) && Header(lay, d) == bl && k < |bl|
    ensures
      var e := d[bl[k] := Slots(lay, d, |bl|)[k]];
      && WfDisk(lay, e) && Header(lay, e) == bl && Slots(lay, e, |bl|) == Slots(lay, d, |bl|)
      && HomeEq(lay, Logical(lay, e), Logical(lay, d))
  {
    hide Apply, InstallWrites;
    var data := Slots(lay, d, |bl|);
    SlotsKept(lay, d, bl, k, data[k]);
    var e := d[bl[k] := data[k]];
    assert e[lay.start] == d[lay.start];
    LogicalAt(lay, d, bl, data);
    LogicalAt(lay, e, bl, data);
  }

  lemma InstallCache(s: State, k: nat, x: Block, t: State)
    requires CacheOk(s) && s.touched == {} && k < |s.lh| && s.lh[k] < |s.disk|
    requires forall i, j :: 0 <= i < j < |s.lh| ==> s.lh[i] != s.lh[j]
    requires t.disk == s.disk[s.lh[k] := x] && t.cache == s.cache[s.lh[k] := Buf(x, false)]
    requires t.lh == s.lh && t.touched == s.touched
    requires (s.phase == InstallHome(k) && DirtyFrom(t) == k + 1) || (s.phase == Replay(k) && DirtyFrom(t) == |s.lh|)
    ensures CacheOk(t)
  {
  }

  lemma PutElsewhereCache(s: State, b: nat, x: Block, t: State)
    requires CacheOk(s) && s.touched == {} && b < |s.disk| && b !in s.lh
    requires t.disk == s.disk[b := x] && t.cache == s.cache[b := Buf(x, false)]
    requires t.lh == s.lh && t.touched == s.touched && DirtyFrom(t) == DirtyFrom(s)
    ensures CacheOk(t)
  {
  }

  lemma CleanCache(s: State, b: nat, x: Block, t: State)
    requires CacheOk(s) && s.touched == {} && b < |s.disk| && DirtyFrom(s) >= |s.lh|
    requires t.disk == s.disk[b := x] && t.cache == s.cache[b := Buf(x, false)]
    requires t.lh == [] && t.touched == s.touched
    ensures CacheOk(t)
  {
    forall c | c in s.cache && c in s.lh
      ensures !s.cache[c].dirty
    {
      var i :| 0 <= i < |s.lh| && s.lh[i] == c;
    }
  }

  lemma StepBoot(lay: Layout, s: State)
    requires Inv(lay, s) && IOEnabled(lay, s) && s.phase.Boot?
    ensures Inv(lay, DoIO(lay, s)) && DoIO(lay, s).disk == s.disk
  {
    hide IOEnabled, LocksOk, ActiveCount, Unused;
    var t := DoIO(lay, s);
    NothingTouched(lay, s);
    NoneActive(s.ops);
    LocksSame(lay, s, t);
  }

  lemma InstallProgress(lay: Layout, s: State, k: nat, t: State)
    requires lay.start + lay.size <= |s.disk| && Targets(lay, |s.disk|, s.lh) && k < |s.lh|
    requires InstalledTo(lay, s, k) && t.lh == s.lh
    requires t.disk == s.disk[s.lh[k] := Slots(lay, s.disk, |s.lh|)[k]]
    requires Slots(lay, t.disk, |s.lh|) == Slots(lay, s.disk, |s.lh|)
    ensures InstalledTo(lay, t, k + 1)
  {
  }

  lemma StepReplay(lay: Layout, s: State)
    requires Inv(lay, s) && IOEnabled(lay, s) && s.phase.Replay?
    ensures Inv(lay, DoIO(lay, s)) && SameMeaning(lay, s, DoIO(lay, s))
  {
    hide LocksOk, BudgetOk, ActiveCount, CacheOk, Logical, EncodeHeader, DecodeHeader, InstalledTo;
    var t := DoIO(lay, s);
    var k := s.phase.k;
    NothingTouched(lay, s);
    SlotView(lay, s, 1 + k);
    var x := Slots(lay, s.disk, |s.lh|)[k];
    assert View(s, lay.start + 1 + k) == x;
    InstallMeans(lay, s.disk, s.lh, k);
    QuietPut(lay, s, s.lh[k], x, t.phase, t);
    InstallCache(s, k, x, t);
    InstallProgress(lay, s, k, t);
  }

  lemma InstallHomeView(lay: Layout, s: State, k: nat, t: State)
    requires lay.start + lay.size <= |s.disk| && Targets(lay, |s.disk|, s.lh) && k < |s.lh|
    requires LoggedFrom(lay, s, k)
    requires t.lh == s.lh && t.disk == s.disk[s.lh[k] := Slots(lay, s.disk, |s.lh|)[k]]
    requires t.cache == s.cache[s.lh[k] := Buf(Slots(lay, s.disk, |s.lh|)[k], false)]
    requires Slots(lay, t.disk, |s.lh|) == Slots(lay, s.disk, |s.lh|)
    ensures LoggedFrom(lay, t, k + 1)
    ensures SameView(lay, s, t)
  {
    assert View(s, s.lh[k]) == Slots(lay, s.disk, |s.lh|)[k];
  }

  lemma StepInstallHome(lay: Layout, s: State)
    requires Inv(lay, s) && IOEnabled(lay, s) && s.phase.InstallHome?
    ensures Inv(lay, DoIO(lay, s)) && SameMeaning(lay, s, DoIO(lay, s)) && SameView(lay, s, DoIO(lay, s))
  {
    hide LocksOk, BudgetOk, ActiveCount, CacheOk, Logical, EncodeHeader, DecodeHeader, InstalledTo, LoggedFrom, SameView;
    var t := DoIO(lay, s);
    var k := s.phase.k;
    NothingTouched(lay, s);
    SlotView(lay, s, 1 + k);
    var x := Slots(lay, s.disk, |s.lh|)[k];
    assert View(s, lay.start + 1 + k) == x;
    InstallMeans(lay, s.disk, s.lh, k);
    QuietPut(lay, s, s.lh[k], x, t.phase, t);
    InstallCache(s, k, x, t);
    InstallProgress(lay, s, k, t);
    InstallHomeView(lay, s, k, t);
  }

  lemma SlotWriteDisk(lay: Layout, d: Disk, k: nat, x: Block)
    requires WfDisk(lay, d) && Header(lay, d) == [] && 1 + k < lay.size
    ensures
      var e := d[lay.start + 1 + k := x];
      WfDisk(lay, e) && Header(lay, e) == [] && HomeEq(lay, Logical(lay, e), Logical(lay, d))
  {
    var e := d[lay.start + 1 + k := x];
    EmptyLog(lay, d);
    EmptyLog(lay, e);
  }

  lemma SlotProgress(lay: Layout, s: State, k: nat, t: State)
    requires lay.start + lay.size <= |s.disk| && Targets(lay, |s.disk|, s.lh) && k < |s.lh|
    requires LoggedTo(lay, s, k)
    requires t.lh == s.lh && t.disk == s.disk[lay.start + 1 + k := View(s, s.lh[k])]
    requires t.cache == s.cache[lay.start + 1 + k := Buf(View(s, s.lh[k]), false)]
    ensures LoggedTo(lay, t, k + 1) && SameView(lay, s, t)
  {
    forall i | 0 <= i < k + 1
      ensures Slots(lay, t.disk, |s.lh|)[i] == View(t, t.lh[i])
    {
      assert IsHome(lay, s.lh[i]);
      assert Slots(lay, s.disk, |s.lh|)[i] == s.disk[lay.start + 1 + i];
      assert Slots(lay, t.disk, |s.lh|)[i] == t.disk[lay.start + 1 + i];
    }
  }

  lemma StepWriteSlot(lay: Layout, s: State)
    requires Inv(lay, s) && IOEnabled(lay, s) && s.phase.WriteSlot?
    ensures Inv(lay, DoIO(lay, s)) && SameMeaning(lay, s, DoIO(lay, s)) && SameView(lay, s, DoIO(lay, s))
  {
    hide LocksOk, BudgetOk, ActiveCount, CacheOk, Logical, EncodeHeader, DecodeHeader, LoggedTo, SameView, WfDisk;
    var t := DoIO(lay, s);
    var k := s.phase.k;
    NothingTouched(lay, s);
    SlotView(lay, s, 1 + k);
    SlotWriteDisk(lay, s.disk, k, View(s, s.lh[k]));
    QuietPut(lay, s, lay.start + 1 + k, View(s, s.lh[k]), t.phase, t);
    PutElsewhereCache(s, lay.start + 1 + k, View(s, s.lh[k]), t);
    SlotProgress(lay, s, k, t);
  }

  /** The commit point: from here on a recovery restores what bread returns now. */
  ghost predicate Commits(lay: Layout, s: State, t: State) {
    && WfDisk(lay, t.disk) && |t.disk| == |s.disk|
    && forall b :: 0 <= b < |s.disk| && IsHome(lay, b) ==> Logical(lay, t.disk)[b] == View(s, b)
  }

  lemma HeaderWriteMeans(lay: Layout, s: State)
    requires Shape(lay, s) && CacheOk(s) && DiskOk(lay, s) && s.phase.WriteHeader? && s.touched == {}
    ensures
      var e := s.disk[lay.start := EncodeHeader(s.disk[lay.start], s.lh)];
      && WfDisk(lay, e) && Header(lay, e) == s.lh && Slots(lay, e, |s.lh|) == Slots(lay, s.disk, |s.lh|)
      && forall b :: 0 <= b < |s.disk| && IsHome(lay, b) ==> Logical(lay, e)[b] == View(s, b)
  {
    hide Apply, InstallWrites, EncodeHeader, DecodeHeader, Logical;
    var data := Slots(lay, s.disk, |s.lh|);
    CommitPoint(lay, s.disk, s.lh, data);
    OverlayAt(s.disk, s.lh, data);
    forall b | 0 <= b < |s.disk| && IsHome(lay, b)
      ensures Overlay(s.disk, s.lh, data)[b] == View(s, b)
    {
      if b in s.lh {
        var i :| 0 <= i < |s.lh| && s.lh[i] == b;
      } else {
        SettledView(lay, s, b);
      }
    }
  }

  lemma HeaderWriteProgress(lay: Layout, s: State, t: State)
    requires lay.start + lay.size <= |s.disk| && Targets(lay, |s.disk|, s.lh) && lay.size > 0
    requires LoggedTo(lay, s, |s.lh|)
    requires t.lh == s.lh && |t.disk| == |s.disk| && t.disk == s.disk[lay.start := t.disk[lay.start]]
    requires Slots(lay, t.disk, |s.lh|) == Slots(lay, s.disk, |s.lh|)
    requires t.cache == s.cache[lay.start := Buf(t.disk[lay.start], false)]
    ensures LoggedFrom(lay, t, 0) && InstalledTo(lay, t, 0) && SameView(lay, s, t)
  {
  }

  lemma StepWriteHeader(lay: Layout, s: State)
    requires Inv(lay, s) && IOEnabled(lay, s) && s.phase.WriteHeader?
    ensures Inv(lay, DoIO(lay, s)) && Commits(lay, s, DoIO(lay, s)) && SameView(lay, s, DoIO(lay, s))
  {
    hide LocksOk, BudgetOk, ActiveCount, CacheOk, Logical, EncodeHeader, DecodeHeader, LoggedTo, LoggedFrom, InstalledTo, SameView;
    var t := DoIO(lay, s);
    NothingTouched(lay, s);
    SlotView(lay, s, 0);
    HeaderWriteMeans(lay, s);
    QuietPut(lay, s, lay.start, t.disk[lay.start], t.phase, t);
    PutElsewhereCache(s, lay.start, t.disk[lay.start], t);
    HeaderWriteProgress(lay, s, t);
  }

  lemma ClearMeans(lay: Layout, s: State)
    requires Shape(lay, s) && Header(lay, s.disk) == s.lh && InstalledTo(lay, s, |s.lh|)
    ensures
      var e := s.disk[lay.start := EncodeHeader(s.disk[lay.start], [])];
      && WfDisk(lay, e) && Header(lay, e) == []
      && HomeEq(lay, Logical(lay, e), Logical(lay, s.disk))
      && HomeEq(lay, e, Logical(lay, s.disk))
  {
    hide Apply, InstallWrites, EncodeHeader;
    var data := Slots(lay, s.disk, |s.lh|);
    LogicalAt(lay, s.disk, s.lh, data);
    forall b | 0 <= b < |s.disk|
      ensures Logical(lay, s.disk)[b] == s.disk[b]
    {
      if b in s.lh {
        var i :| 0 <= i < |s.lh| && s.lh[i] == b;
      }
    }
    ClearInstalled(lay, s.disk);
  }

  lemma StepClear(lay: Layout, s: State)
    requires Inv(lay, s) && IOEnabled(lay, s) && (s.phase.ClearHeader? || s.phase.ClearReplay?)
    ensures Inv(lay, DoIO(lay, s)) && SameMeaning(lay, s, DoIO(lay, s)) && SameView(lay, s, DoIO(lay, s))
  {
    hide LocksOk, BudgetOk, ActiveCount, CacheOk, Logical, EncodeHeader, DecodeHeader, InstalledTo;
    var t := DoIO(lay, s);
    NothingTouched(lay, s);
    SlotView(lay, s, 0);
    ClearMeans(lay, s);
    QuietPut(lay, s, lay.start, t.disk[lay.start], t.phase, t);
    CleanCache(s, lay.start, t.disk[lay.start], t);
  }

  // The induction step.

  /** A step keeps the invariant; it changes what a recovery restores only at the commit point. */
  lemma StepSafe(lay: Layout, s: State, st: Step)
    requires Inv(lay, s) && Enabled(lay, s, st)
    ensures
      var t := Do(lay, s, st);
      && Inv(lay, t)
      && (if st.DiskIO? && s.phase.WriteHeader? then Commits(lay, s, t) else SameMeaning(lay, s, t))
      && (!st.Modify? && !st.Crash? && !(st.DiskIO? && s.phase.Replay?) ==> SameView(lay, s, t))
  {
    hide Shape, LocksOk, BudgetOk, CacheOk, DiskOk, Logical, IOEnabled, DoIO, SameView, Commits, SameMeaning;
    if !st.DiskIO? {
      SameDisk(lay, s, Do(lay, s, st));
    }
    match st {
      case Begin(p) => StepBegin(lay, s, st);
      case End(p) => StepEnd(lay, s, st);
      case Load(b) => StepCacheTraffic(lay, s, st);
      case Evict(b) => StepCacheTraffic(lay, s, st);
      case Lock(p, b) => StepCacheTraffic(lay, s, st);
      case Unlock(p, b) => StepCacheTraffic(lay, s, st);
      case Modify(p, b, x) => StepModify(lay, s, st);
      case Check(p, b) => StepCheck(lay, s, st);
      case Append(p, b) => StepAppend(lay, s, st);
      case DiskIO => StepIO(lay, s);
      case EndCommit => StepEndCommit(lay, s);
      case Crash => StepCrash(lay, s);
    }
  }

  lemma SameDisk(lay: Layout, s: State, t: State)
    requires Inv(lay, s)
    ensures t.disk == s.disk ==> SameMeaning(lay, s, t)
  {
  }

  lemma StepIO(lay: Layout, s: State)
    requires Inv(lay, s) && IOEnabled(lay, s)
    ensures
      var t := DoIO(lay, s);
      && Inv(lay, t)
      && (if s.phase.WriteHeader? then Commits(lay, s, t) else SameMeaning(lay, s, t))
      && (!s.phase.Replay? ==> SameView(lay, s, t))
  {
    match s.phase {
      case Boot => StepBoot(lay, s);
      case Replay(_) => StepReplay(lay, s);
      case ClearReplay => StepClear(lay, s);
      case WriteSlot(_) => StepWriteSlot(lay, s);
      case WriteHeader => StepWriteHeader(lay, s);
      case InstallHome(_) => StepInstallHome(lay, s);
      case ClearHeader => StepClear(lay, s);
      case _ =>
    }
  }

  // Whole runs.

  /** Power-on with a disk whose log is well formed, as mkfs or an earlier run left it. */
  ghost predicate Start(lay: Layout, s: State) {
    WfDisk(lay, s.disk) && s == Rebooted(s.disk, |s.ops|)
  }

  ghost predicate IsRun(lay: Layout, ss: seq<State>, steps: seq<Step>) {
    && |ss| == |steps| + 1
    && Start(lay, ss[0])
    && forall i :: 0 <= i < |steps| ==> Enabled(lay, ss[i], steps[i]) && ss[i + 1] == Do(lay, ss[i], steps[i])
  }

  predicate IsCommitPoint(s: State, st: Step) {
    st.DiskIO? && s.phase.WriteHeader?
  }

  /** The last header write of a commit before state j. */
  function LastCommit(ss: seq<State>, steps: seq<Step>, j: nat): (c: Option<nat>)
    requires |ss| == |steps| + 1 && j <= |steps|
  {
    if j == 0 then None
    else if IsCommitPoint(ss[j - 1], steps[j - 1]) then Some(j - 1)
    else LastCommit(ss, steps, j - 1)
  }

  /** The contents of block b that the file system owes its users at state j, should the machine crash there. */
  ghost predicate Owed(lay: Layout, ss: seq<State>, steps: seq<Step>, j: nat, b: nat, x: Block)
    requires |ss| == |steps| + 1 && j <= |steps|
  {
    match LastCommit(ss, steps, j)
    case None => WfDisk(lay, ss[0].disk) && b < |ss[0].disk| && x == Logical(lay, ss[0].disk)[b]
    case Some(c) => c < |steps| && b < |ss[c].disk| && x == View(ss[c], b) && ss[c].outstanding == 0
  }

  lemma StartInv(lay: Layout, s: State)
    requires Start(lay, s) && LOGSIZE < lay.size
    ensures Inv(lay, s)
  {
    NoneActive(s.ops);
  }

  /**
   Crash safety.  At every point of every run, with crashes anywhere, also
   during recovery and any number of times, the disk determines exactly the
   file system seen by bread at the last commit point, when no operation was in
   progress; before the first commit point, the one the disk started with.
   */
  lemma {:induction false} CrashSafety(lay: Layout, ss: seq<State>, steps: seq<Step>, j: nat)
    requires LOGSIZE < lay.size && IsRun(lay, ss, steps) && j <= |steps|
    ensures Inv(lay, ss[j]) && WfDisk(lay, ss[j].disk) && |ss[j].disk| == |ss[0].disk|
    ensures forall b :: 0 <= b < |ss[j].disk| && IsHome(lay, b) ==>
              Owed(lay, ss, steps, j, b, Logical(lay, ss[j].disk)[b])
    decreases j
  {
    hide Logical, Shape, CacheOk, LocksOk, DiskOk, BudgetOk, Do, Enabled, View;
    if j == 0 {
      StartInv(lay, ss[0]);
    } else {
      CrashSafety(lay, ss, steps, j - 1);
      var s, t := ss[j - 1], ss[j];
      StepSafe(lay, s, steps[j - 1]);
      if IsCommitPoint(s, steps[j - 1]) {
        QuietAtCommit(lay, s);
      }
    }
  }

  lemma QuietAtCommit(lay: Layout, s: State)
    requires Inv(lay, s) && InCommit(s.phase)
    ensures s.outstanding == 0 && s.committing
  {
  }

  /** When recovery has cleared the log, the home blocks on disk are exactly what was owed, and bread returns them. */
  lemma RecoveryRestores(lay: Layout, ss: seq<State>, steps: seq<Step>, j: nat)
    requires LOGSIZE < lay.size && IsRun(lay, ss, steps) && 1 <= j <= |steps|
    requires steps[j - 1].DiskIO? && ss[j - 1].phase.ClearReplay?
    ensures ss[j].phase.Run? && ss[j].lh == []
    ensures forall b :: 0 <= b < |ss[j].disk| && IsHome(lay, b) ==>
              Owed(lay, ss, steps, j, b, ss[j].disk[b]) && View(ss[j], b) == ss[j].disk[b]
  {
    hide Inv, Owed, WfDisk, Logical, IOEnabled, View, IsHome;
    CrashSafety(lay, ss, steps, j - 1);
    CrashSafety(lay, ss, steps, j);
    assert Do(lay, ss[j - 1], steps[j - 1]) == DoIO(lay, ss[j - 1]);
    NothingTouchedAfter(lay, ss[j - 1], ss[j]);
    RunningUncommitted(lay, ss[j]);
  }

  lemma NothingTouchedAfter(lay: Layout, s: State, t: State)
    requires Inv(lay, s) && Inv(lay, t) && s.phase.ClearReplay? && IOEnabled(lay, s) && t == DoIO(lay, s)
    ensures t.phase.Run? && t.lh == []
    ensures forall b :: 0 <= b < |t.disk| ==> View(t, b) == t.disk[b]
  {
    NothingTouched(lay, s);
  }

  /**
   Until the header write, home blocks on disk keep their values from before
   the transaction, and every logged block is held in the cache, dirty.
   */
  lemma RunningUncommitted(lay: Layout, s: State)
    requires Inv(lay, s) && (s.phase.Run? || s.phase.WriteSlot? || s.phase.WriteHeader?)
    ensures WfDisk(lay, s.disk) && Logical(lay, s.disk) == s.disk
    ensures forall i :: 0 <= i < |s.lh| ==> s.lh[i] in s.cache && s.cache[s.lh[i]].dirty
  {
    EmptyLog(lay, s.disk);
  }

  /**
   bread returns the newest contents: after a modification of block b, and until
   the next one or a crash, every step of every process, of commit included,
   leaves what bread returns for b as it is.
   */
  lemma {:induction false} ReadsNewest(lay: Layout, ss: seq<State>, steps: seq<Step>, i: nat, j: nat, b: nat)
    requires LOGSIZE < lay.size && IsRun(lay, ss, steps) && i < j <= |steps|
    requires steps[i].Modify? && steps[i].b == b
    requires forall k :: i < k < j ==> !steps[k].Crash? && !(steps[k].Modify? && steps[k].b == b)
    ensures b < |ss[j].disk| && IsHome(lay, b) && View(ss[j], b) == steps[i].x
    ensures !Recovering(ss[j].phase)
    decreases j
  {
    hide Inv, Do, Enabled, View, Recovering, IsHome, Owed;
    CrashSafety(lay, ss, steps, j - 1);
    if i == j - 1 {
      ModifyShows(lay, ss[i], steps[i]);
    } else {
      ReadsNewest(lay, ss, steps, i, j - 1, b);
      StepKeepsNewest(lay, ss[j - 1], steps[j - 1], b);
    }
  }

  lemma ModifyShows(lay: Layout, s: State, st: Step)
    requires Inv(lay, s) && Enabled(lay, s, st) && st.Modify?
    ensures
      var t := Do(lay, s, st);
      st.b < |t.disk| && IsHome(lay, st.b) && View(t, st.b) == st.x && !Recovering(t.phase)
  {
    hide CacheOk, LocksOk, DiskOk, BudgetOk, IOEnabled;
    StepModify(lay, s, st);
    SomeActive(s.ops, st.p);
  }

  lemma StepKeepsNewest(lay: Layout, s: State, st: Step, b: nat)
    requires Inv(lay, s) && Enabled(lay, s, st) && !Recovering(s.phase) && b < |s.disk| && IsHome(lay, b)
    requires !st.Crash? && !(st.Modify? && st.b == b)
    ensures
      var t := Do(lay, s, st);
      b < |t.disk| && View(t, b) == View(s, b) && !Recovering(t.phase)
  {
    hide Inv, Do, Enabled, Commits, SameMeaning;
    StepSafe(lay, s, st);
    StaysServing(lay, s, st);
    if st.Modify? {
      StepModify(lay, s, st);
    }
  }

  lemma StaysServing(lay: Layout, s: State, st: Step)
    requires Enabled(lay, s, st) && !st.Crash? && !Recovering(s.phase)
    ensures !Recovering(Do(lay, s, st).phase)
  {
  }

  // What a run leaves in each block.

  /** Block b as bread should return it: the modifications since the last crash over what was committed before it. */
  ghost function Newest(lay: Layout, ss: seq<State>, steps: seq<Step>, j: nat, b: nat): (x: Block)
    requires |ss| == |steps| + 1 && j <= |steps| && WfDisk(lay, ss[0].disk) && b < |ss[0].disk|
    decreases j
  {
    if j == 0 then Logical(lay, ss[0].disk)[b]
    else if steps[j - 1].Crash? then Committed(lay, ss, steps, j - 1, b)
    else if steps[j - 1].Modify? && steps[j - 1].b == b then steps[j - 1].x
    else Newest(lay, ss, steps, j - 1, b)
  }

  /** Block b as a crash should leave it: its newest contents at the last commit point. */
  ghost function Committed(lay: Layout, ss: seq<State>, steps: seq<Step>, j: nat, b: nat): (x: Block)
    requires |ss| == |steps| + 1 && j <= |steps| && WfDisk(lay, ss[0].disk) && b < |ss[0].disk|
    decreases j
  {
    if j == 0 then Logical(lay, ss[0].disk)[b]
    else if IsCommitPoint(ss[j - 1], steps[j - 1]) then Newest(lay, ss, steps, j - 1, b)
    else Committed(lay, ss, steps, j - 1, b)
  }

  /**
   The whole machine, for one home block: after any run with any crashes, a
   recovery restores exactly the committed contents, and bread returns exactly
   the newest ones.  A commit point makes all modifications since the last
   crash or commit durable together; a crash undoes all those since the last
   commit point.
   */
  lemma {:induction false} AtomicGroups(lay: Layout, ss: seq<State>, steps: seq<Step>, j: nat, b: nat)
    requires LOGSIZE < lay.size && IsRun(lay, ss, steps) && j <= |steps| && IsHome(lay, b)
    requires WfDisk(lay, ss[0].disk) && b < |ss[0].disk|
    ensures WfDisk(lay, ss[j].disk) && |ss[j].disk| == |ss[0].disk|
    ensures Logical(lay, ss[j].disk)[b] == Committed(lay, ss, steps, j, b)
    ensures !Recovering(ss[j].phase) ==> View(ss[j], b) == Newest(lay, ss, steps, j, b)
    ensures Recovering(ss[j].phase) ==> Newest(lay, ss, steps, j, b) == Committed(lay, ss, steps, j, b)
    decreases j
  {
    hide Inv, Do, Enabled, View, Recovering, IsHome, Owed, Logical, WfDisk, SameView;
    CrashSafety(lay, ss, steps, j);
    if j == 0 {
      StartsRecovering(lay, ss[0]);
    } else {
      var s, st := ss[j - 1], steps[j - 1];
      CrashSafety(lay, ss, steps, j - 1);
      AtomicGroups(lay, ss, steps, j - 1, b);
      StepSafe(lay, s, st);
      PhaseFacts(lay, s, st);
      if !st.Crash? && !Recovering(s.phase) {
        if st.Modify? && st.b == b {
          ModifyShows(lay, s, st);
        } else {
          StepKeepsNewest(lay, s, st, b);
        }
      } else if !Recovering(ss[j].phase) {
        assert Do(lay, s, st) == DoIO(lay, s) by {
          DoesIO(lay, s);
        }
        NothingTouchedAfter(lay, s, ss[j]);
        RunningUncommitted(lay, ss[j]);
      }
    }
  }

  lemma StartsRecovering(lay: Layout, s: State)
    requires Start(lay, s)
    ensures Recovering(s.phase)
  {
  }

  lemma DoesIO(lay: Layout, s: State)
    requires Enabled(lay, s, DiskIO)
    ensures IOEnabled(lay, s) && Do(lay, s, DiskIO) == DoIO(lay, s)
  {
  }

  /** How a step moves between recovery and service. */
  lemma PhaseFacts(lay: Layout, s: State, st: Step)
    requires Inv(lay, s) && Enabled(lay, s, st)
    ensures st.Crash? ==> Recovering(Do(lay, s, st).phase)
    ensures st.Modify? || IsCommitPoint(s, st) ==> !Recovering(s.phase)
    ensures Recovering(s.phase) && !Recovering(Do(lay, s, st).phase) ==> st.DiskIO? && s.phase.ClearReplay?
  {
    hide CacheOk, LocksOk, DiskOk, BudgetOk, Targets, WfDisk;
    if st.Modify? {
      SomeActive(s.ops, st.p);
    }
  }

  /** Between groups nothing is left in the list: the last end_op has committed it. */
  ghost predicate Drained(s: State) {
    s.phase.Run? && s.outstanding == 0 ==> s.lh == []
  }

  lemma DrainedStep(lay: Layout, s: State, st: Step)
    requires Inv(lay, s) && Drained(s) && Enabled(lay, s, st)
    ensures Drained(Do(lay, s, st))
  {
    hide CacheOk, LocksOk, DiskOk, BudgetOk, Targets, WfDisk, ActiveCount;
    if st.Append? {
      SomeActive(s.ops, st.p);
    }
  }

  lemma {:induction false} AlwaysDrained(lay: Layout, ss: seq<State>, steps: seq<Step>, j: nat)
    requires LOGSIZE < lay.size && IsRun(lay, ss, steps) && j <= |steps|
    ensures Drained(ss[j])
    decreases j
  {
    hide Inv, Do, Enabled, Owed;
    if j > 0 {
      AlwaysDrained(lay, ss, steps, j - 1);
      CrashSafety(lay, ss, steps, j - 1);
      DrainedStep(lay, ss[j - 1], steps[j - 1]);
    }
  }

  /**
   Group commit: in every state of every run in which the system serves and no
   operation is in progress, the list is empty, and every modification since
   the last crash, by whatever operation, has been committed.
   */
  lemma NothingPending(lay: Layout, ss: seq<State>, steps: seq<Step>, j: nat, b: nat)
    requires LOGSIZE < lay.size && IsRun(lay, ss, steps) && j <= |steps| && IsHome(lay, b)
    requires WfDisk(lay, ss[0].disk) && b < |ss[0].disk|
    requires ss[j].phase.Run? && ss[j].outstanding == 0
    ensures ss[j].lh == [] && |ss[j].disk| == |ss[0].disk|
    ensures Newest(lay, ss, steps, j, b) == Committed(lay, ss, steps, j, b) == ss[j].disk[b]
  {
    hide Inv, Do, Enabled, Owed, Logical, WfDisk, View, IsHome, Newest, Committed, Start;
    AlwaysDrained(lay, ss, steps, j);
    AtomicGroups(lay, ss, steps, j, b);
    CrashSafety(lay, ss, steps, j);
    SettledBlock(lay, ss[j], b);
    RunningUncommitted(lay, ss[j]);
  }

  lemma SettledBlock(lay: Layout, s: State, b: nat)
    requires Inv(lay, s) && s.phase.Run? && s.outstanding == 0 && s.lh == [] && b < |s.disk|
    ensures View(s, b) == s.disk[b]
  {
    NothingTouched(lay, s);
    SettledView(lay, s, b);
  }

  // Log space and buffers.

  /** Some slot of the group has been written. */
  predicate Flushing(ph: Phase) {
    (ph.WriteSlot? && ph.k > 0) || ph.WriteHeader? || ph.InstallHome? || ph.ClearHeader?
  }

  ghost predicate CacheFits(s: State) {
    |s.cache| <= NBUF && (Flushing(s.phase) ==> |s.lh| < NBUF)
  }

  /** The step asks for room in the log, or for a buffer, when there is none. */
  predicate Exhausts(s: State, st: Step) {
    || (st.Check? && |s.lh| == LOGSIZE)
    || (st.Load? && |Pinned(s)| == NBUF)
  }

  lemma PinnedCached(s: State)
    ensures |Pinned(s)| <= |s.cache|
    ensures |Pinned(s)| == |s.cache| ==> Pinned(s) == s.cache.Keys
  {
    SubsetSize(Pinned(s), s.cache.Keys);
  }

  lemma {:induction false} SubsetSize(a: set<nat>, b: set<nat>)
    requires a <= b
    ensures |a| <= |b| && (|a| == |b| ==> a == b)
    decreases b
  {
    if x :| x in a {
      SubsetSize(a - {x}, b - {x});
      assert a == a - {x} + {x} && b == b - {x} + {x};
    }
  }

  /** A cached slot is a buffer besides those of the group. */
  lemma SlotTakesOne(lay: Layout, s: State, c: nat)
    requires Shape(lay, s) && CacheOk(s) && DirtyFrom(s) == 0 && c in s.cache && !IsHome(lay, c)
    ensures |s.lh| < |s.cache|
  {
    DistinctInSet(s.cache.Keys - {c}, s.lh);
  }

  lemma FitsIO(lay: Layout, s: State)
    requires Inv(lay, s) && CacheFits(s) && IOEnabled(lay, s)
    ensures CacheFits(DoIO(lay, s))
  {
    hide LocksOk, DiskOk, BudgetOk, WfDisk, Targets, CacheOk, EncodeHeader, DecodeHeader;
    assert DoIO(lay, s).cache.Keys == s.cache.Keys;
    if s.phase.WriteSlot? {
      SlotTakesOne(lay, s, lay.start + 1 + s.phase.k);
    }
  }

  lemma FitsTraffic(lay: Layout, s: State, st: Step)
    requires CacheFits(s) && Enabled(lay, s, st) && (st.Load? || st.Evict?)
    ensures CacheFits(Do(lay, s, st))
  {
    hide IOEnabled, DoIO;
    if st.Load? {
      PutCleanSize(s.cache, st.b, s.disk[st.b]);
    } else {
      DropClean(s.cache, st.b);
    }
  }

  lemma FitsWrites(lay: Layout, s: State, st: Step)
    requires Inv(lay, s) && CacheFits(s) && Enabled(lay, s, st) && (st.Modify? || st.Append?)
    ensures CacheFits(Do(lay, s, st))
  {
    hide IOEnabled, DoIO, Inv;
    AppendsInRun(lay, s, st.p);
    SameKeys(s.cache, st.b, Do(lay, s, st).cache[st.b]);
  }

  lemma FitsStep(lay: Layout, s: State, st: Step)
    requires Inv(lay, s) && CacheFits(s) && Enabled(lay, s, st)
    ensures CacheFits(Do(lay, s, st))
  {
    hide Inv, DoIO, IOEnabled;
    if st.DiskIO? {
      FitsIO(lay, s);
    } else if st.Load? || st.Evict? {
      FitsTraffic(lay, s, st);
    } else if st.Modify? || st.Append? {
      FitsWrites(lay, s, st);
    } else {
      assert Do(lay, s, st).cache == s.cache || st.Crash?;
    }
  }

  lemma SameKeys(cache: map<nat, Buf>, b: nat, x: Buf)
    requires b in cache
    ensures |cache[b := x]| == |cache|
  {
    assert cache[b := x].Keys == cache.Keys;
  }

  lemma AppendsInRun(lay: Layout, s: State, p: nat)
    requires Inv(lay, s) && IsActive(s, p)
    ensures s.phase.Run?
  {
    SomeActive(s.ops, p);
  }

  /** With the log full, every active operation has used its whole budget. */
  lemma FullLogUsesBudgets(lay: Layout, s: State, p: nat)
    requires Inv(lay, s) && |s.lh| == LOGSIZE && IsActive(s, p)
    ensures |s.ops[p].wrote| == MAXOPBLOCKS
  {
    forall q | 0 <= q < |s.ops| && s.ops[q].Active?
      ensures |s.ops[q].wrote| <= MAXOPBLOCKS
    {
      assert OpOk(s.lh, s.ops[q]);
    }
    LeftAtMostUnused(s.ops, p);
  }

  /** The test of log_write, made outside the lock, passes for every operation with budget left. */
  lemma CheckPasses(lay: Layout, s: State, st: Step)
    requires Inv(lay, s) && Enabled(lay, s, st) && st.Check? && |s.ops[st.p].wrote| < MAXOPBLOCKS
    ensures !Do(lay, s, st).panicked
  {
    hide CacheOk, LocksOk, DiskOk, WfDisk, Targets, ActiveCount, OpOk;
    SomeActive(s.ops, st.p);
    SpaceOf(lay, s);
    if |s.lh| == LOGSIZE {
      FullLogUsesBudgets(lay, s, st.p);
    }
  }

  /** Which steps panic: those that exhaust the log or the buffers, and no other. */
  lemma PanicsExactly(lay: Layout, s: State, st: Step)
    requires Inv(lay, s) && CacheFits(s) && Enabled(lay, s, st) && !st.Crash?
    ensures Do(lay, s, st).panicked <==> Exhausts(s, st)
  {
    hide CacheOk, LocksOk, DiskOk, WfDisk, Targets, ActiveCount, DoIO, IOEnabled, OpOk;
    match st {
      case Check(p, b) => SomeActive(s.ops, p); SpaceOf(lay, s);
      case End(p) => StepEnd(lay, s, st);
      case Load(b) => PinnedCached(s);
      case DiskIO => CalmIO(lay, s);
      case _ =>
    }
  }

  lemma CalmIO(lay: Layout, s: State)
    requires IOEnabled(lay, s)
    ensures DoIO(lay, s).panicked == s.panicked
  {
  }

  /** What the invariant says about space and counts. */
  lemma SpaceOf(lay: Layout, s: State)
    requires Inv(lay, s) && LOGSIZE < lay.size
    ensures |s.lh| <= LOGSIZE && |s.lh| < lay.size && |s.lh| + Unused(s.ops) <= LOGSIZE
    ensures s.outstanding == ActiveCount(s.ops) && (s.committing ==> s.outstanding == 0)
  {
    hide CacheOk, LocksOk, DiskOk, ActiveCount, Unused, OpOk;
    forall q | 0 <= q < |s.ops| && s.ops[q].Active?
      ensures |s.ops[q].wrote| <= MAXOPBLOCKS
    {
      OpWithin(s, q);
    }
    UnusedNonNegative(s.ops);
  }

  lemma OpWithin(s: State, q: nat)
    requires BudgetOk(s) && IsActive(s, q)
    ensures |s.ops[q].wrote| <= MAXOPBLOCKS
  {
    assert OpOk(s.lh, s.ops[q]);
  }

  /**
   Over every interleaving and with crashes anywhere, given a log of more than
   LOGSIZE blocks: the list of logged blocks never outgrows its array or the
   log's slots, it fits together with the outstanding reservations, commit runs
   only with no operation in progress, and the system panics exactly when
   log_write meets a full list or bread finds all NBUF buffers pinned.
   */
  lemma {:induction false} LogSpaceSuffices(lay: Layout, ss: seq<State>, steps: seq<Step>, j: nat)
    requires LOGSIZE < lay.size && IsRun(lay, ss, steps) && j <= |steps|
    ensures |ss[j].lh| <= LOGSIZE && |ss[j].lh| < lay.size
    ensures |ss[j].lh| + Unused(ss[j].ops) <= LOGSIZE
    ensures ss[j].outstanding == ActiveCount(ss[j].ops)
    ensures ss[j].committing ==> ss[j].outstanding == 0
    ensures CacheFits(ss[j])
    ensures ss[j].panicked <==> j > 0 && Exhausts(ss[j - 1], steps[j - 1])
    decreases j
  {
    hide Logical, WfDisk, ActiveCount, Unused, Do, Enabled, Inv, Owed, Exhausts, CacheFits;
    CrashSafety(lay, ss, steps, j);
    SpaceOf(lay, ss[j]);
    if j == 0 {
      StartsCalm(lay, ss[0]);
    } else {
      LogSpaceSuffices(lay, ss, steps, j - 1);
      CrashSafety(lay, ss, steps, j - 1);
      FitsStep(lay, ss[j - 1], steps[j - 1]);
      if steps[j - 1].Crash? {
        CrashCalm(lay, ss[j - 1]);
      } else {
        PanicsExactly(lay, ss[j - 1], steps[j - 1]);
      }
    }
  }

  lemma StartsCalm(lay: Layout, s: State)
    requires Start(lay, s)
    ensures !s.panicked && CacheFits(s)
  {
  }

  lemma CrashCalm(lay: Layout, s: State)
    ensures !Do(lay, s, Crash).panicked && !Exhausts(s, Crash)
  {
  }

  /** The pinned buffers are the group's and those in use. */
  lemma PinnedBounds(lay: Layout, s: State)
    requires Inv(lay, s)
    ensures |Pinned(s)| <= |s.lh| + |s.locked|
    ensures DirtyFrom(s) == 0 ==> |s.lh| <= |Pinned(s)|
  {
    hide Shape, LocksOk, DiskOk, BudgetOk, DirtyFrom;
    var lhs := set b | b in s.lh;
    ListedSet(lhs, s.lh);
    SubsetSize(Pinned(s), lhs + s.locked.Keys);
    if DirtyFrom(s) == 0 {
      ListDistinct(lay, s);
      DistinctInSet(Pinned(s), s.lh);
    }
  }

  lemma ListDistinct(lay: Layout, s: State)
    requires Shape(lay, s)
    ensures forall i, j :: 0 <= i < j < |s.lh| ==> s.lh[i] != s.lh[j]
  {
  }

  /** A run that keeps fewer than NBUF buffers logged or in use never panics. */
  lemma SmallGroupsServe(lay: Layout, ss: seq<State>, steps: seq<Step>, j: nat)
    requires LOGSIZE < lay.size && IsRun(lay, ss, steps) && j <= |steps|
    requires forall i :: 0 <= i < |ss| ==> |ss[i].lh| + |ss[i].locked| < NBUF
    ensures !ss[j].panicked
  {
    hide Inv, CacheFits, Owed, Do, Enabled, Start;
    LogSpaceSuffices(lay, ss, steps, j);
    if j > 0 {
      CrashSafety(lay, ss, steps, j - 1);
      PinnedBounds(lay, ss[j - 1]);
    }
  }

  /** A group of NBUF blocks is stuck in front of its first slot: every bread of an uncached block panics. */
  lemma FullGroupStuck(lay: Layout, s: State, st: Step)
    requires Inv(lay, s) && CacheFits(s) && Enabled(lay, s, st) && !st.Crash?
    requires s.phase == WriteSlot(0) && |s.lh| == NBUF
    ensures st.Load? ==> Do(lay, s, st).panicked
    ensures Do(lay, s, st).disk == s.disk && Do(lay, s, st).lh == s.lh && Do(lay, s, st).phase == s.phase
  {
    hide LocksOk, DiskOk, BudgetOk, WfDisk, Targets, CacheOk, ActiveCount;
    PinnedBounds(lay, s);
    PinnedCached(s);
    match st {
      case DiskIO => SlotTakesOne(lay, s, lay.start + 1);
      case Begin(p) =>
      case End(p) => SomeActive(s.ops, p);
      case Append(p, b) => SomeActive(s.ops, p);
      case _ =>
    }
  }

  /** A group that grew to NBUF blocks is never committed: until the next crash nothing more reaches the disk. */
  lemma {:induction false} FullGroupLost(lay: Layout, ss: seq<State>, steps: seq<Step>, i: nat, j: nat)
    requires LOGSIZE < lay.size && IsRun(lay, ss, steps) && i <= j <= |steps|
    requires ss[i].phase == WriteSlot(0) && |ss[i].lh| == NBUF
    requires forall k :: i <= k < j ==> !steps[k].Crash?
    ensures ss[j].disk == ss[i].disk && ss[j].phase == WriteSlot(0) && ss[j].lh == ss[i].lh
    decreases j
  {
    hide Inv, CacheFits, Owed, Do, Enabled;
    if i < j {
      FullGroupLost(lay, ss, steps, i, j - 1);
      CrashSafety(lay, ss, steps, j - 1);
      LogSpaceSuffices(lay, ss, steps, j - 1);
      FullGroupStuck(lay, ss[j - 1], steps[j - 1]);
    }
  }
}
