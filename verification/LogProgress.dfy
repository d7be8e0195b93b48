/**
 The log gets on: from every state in which no operation is in progress and no
 buffer is in use, commit or recovery can run to its end, unless the group is
 one of NBUF blocks.
 */
module LogProgress {
  import opened LogDisk
  import opened LogCode
  import opened LogSystem
  import opened LogSafety

  /** Steps from ss[0] on, none of them a crash. */
  ghost predicate IsPath(lay: Layout, ss: seq<State>, steps: seq<Step>) {
    && |ss| == |steps| + 1
    && forall i :: 0 <= i < |steps| ==>
         !steps[i].Crash? && Enabled(lay, ss[i], steps[i]) && ss[i + 1] == Do(lay, ss[i], steps[i])
  }

  ghost predicate Leads(lay: Layout, s: State, t: State) {
    exists ss: seq<State>, steps: seq<Step> :: IsPath(lay, ss, steps) && ss[0] == s && ss[|steps|] == t
  }

  lemma LeadsNowhere(lay: Layout, s: State)
    ensures Leads(lay, s, s)
  {
    var ss: seq<State>, steps: seq<Step> := [s], [];
    assert IsPath(lay, ss, steps) && ss[0] == s && ss[|steps|] == s;
  }

  lemma LeadsOn(lay: Layout, s: State, t: State, st: Step)
    requires Leads(lay, s, t) && Enabled(lay, t, st) && !st.Crash?
    ensures Leads(lay, s, Do(lay, t, st))
  {
    hide Enabled, Do;
    var ss: seq<State>, steps: seq<Step> :| IsPath(lay, ss, steps) && ss[0] == s && ss[|steps|] == t;
    var ss', steps' := ss + [Do(lay, t, st)], steps + [st];
    assert IsPath(lay, ss', steps') && ss'[0] == s && ss'[|steps'|] == Do(lay, t, st);
  }

  /** No operation in progress, no buffer in use, and a group that leaves commit a buffer. */
  ghost predicate Quiet(lay: Layout, s: State) {
    && Inv(lay, s) && CacheFits(s) && Drained(s) && !s.panicked
    && s.outstanding == 0 && s.locked == map[] && (|s.lh| < NBUF || Recovering(s.phase))
  }

  lemma QuietStep(lay: Layout, s: State, st: Step)
    requires Quiet(lay, s) && Enabled(lay, s, st) && (st.Load? || st.Evict? || st.DiskIO? || st.EndCommit?)
    requires !Do(lay, s, st).panicked && (|Do(lay, s, st).lh| < NBUF || Recovering(Do(lay, s, st).phase))
    ensures Quiet(lay, Do(lay, s, st))
  {
    hide Inv, CacheFits, Drained, IOEnabled;
    StepSafe(lay, s, st);
    FitsStep(lay, s, st);
    DrainedStep(lay, s, st);
    if st.DiskIO? {
      SameOps(lay, s);
    }
  }

  lemma SameOps(lay: Layout, s: State)
    requires IOEnabled(lay, s)
    ensures DoIO(lay, s).outstanding == s.outstanding && DoIO(lay, s).locked == s.locked && DoIO(lay, s).panicked == s.panicked
  {
  }

  /** A buffer that may be recycled, other than keep's. */
  lemma Spare(lay: Layout, s: State, keep: nat) returns (v: nat)
    requires Inv(lay, s) && CacheFits(s) && |s.cache| == NBUF && s.locked == map[]
    requires (keep in s.lh && |s.lh| < NBUF) || DirtyFrom(s) >= |s.lh|
    ensures v in s.cache && !s.cache[v].dirty && v != keep
  {
    hide Shape, LocksOk, DiskOk, BudgetOk, DirtyFrom;
    var busy := set b | b in s.cache && (s.cache[b].dirty || b == keep);
    var lhs := set b | b in s.lh;
    ListedSet(lhs, s.lh);
    if DirtyFrom(s) >= |s.lh| {
      NoneDirty(s);
      SubsetSize(busy, {keep});
    } else {
      SubsetSize(busy, lhs);
    }
    if forall v :: v in s.cache ==> v in busy {
      SubsetSize(s.cache.Keys, busy);
    } else {
      v :| v in s.cache && v !in busy;
    }
  }

  lemma NoneDirty(s: State)
    requires CacheOk(s) && DirtyFrom(s) >= |s.lh|
    ensures forall b :: b in s.cache ==> !s.cache[b].dirty
  {
    hide DirtyFrom;
  }

  /** bread of b, with keep's buffer kept. */
  lemma GetBuffer(lay: Layout, s0: State, s: State, b: nat, keep: nat) returns (t: State)
    requires Leads(lay, s0, s) && Quiet(lay, s) && b < |s.disk|
    requires (keep in s.lh && |s.lh| < NBUF) || DirtyFrom(s) >= |s.lh|
    ensures Leads(lay, s0, t) && Quiet(lay, t) && t == s.(cache := t.cache) && b in t.cache && (keep in s.cache ==> keep in t.cache)
    ensures SameView(lay, s, t)
  {
    hide Leads, Inv, CacheFits, Drained, IOEnabled, DoIO;
    t := s;
    if b in s.cache {
      return;
    }
    Bound(s);
    if |s.cache| == NBUF {
      var v := Spare(lay, s, keep);
      LeadsOn(lay, s0, s, Evict(v));
      QuietStep(lay, s, Evict(v));
      StepSafe(lay, s, Evict(v));
      DropClean(s.cache, v);
      t := Do(lay, s, Evict(v));
    }
    LeadsOn(lay, s0, t, Load(b));
    QuietStep(lay, t, Load(b));
    StepSafe(lay, t, Load(b));
    t := Do(lay, t, Load(b));
  }

  lemma Bound(s: State)
    requires CacheFits(s)
    ensures |s.cache| <= NBUF
  {
  }

  /** How far commit or recovery has to go. */
  function Rank(s: State): (n: int) {
    match s.phase
    case Boot => LOGSIZE + 3
    case Replay(k) => |s.lh| - k + 2
    case ClearReplay => 1
    case Run => 0
    case WriteSlot(k) => 2 * |s.lh| - k + 6
    case WriteHeader => |s.lh| + 5
    case InstallHome(k) => |s.lh| - k + 3
    case ClearHeader => 2
    case Committed => 1
  }

  /** The home block that the next disk action writes, and the block of the log it reads or writes. */
  function HomeOf(s: State): (b: nat) {
    match s.phase
    case Replay(k) => if k < |s.lh| then s.lh[k] else 0
    case WriteSlot(k) => if k < |s.lh| then s.lh[k] else 0
    case InstallHome(k) => if k < |s.lh| then s.lh[k] else 0
    case _ => if s.lh == [] then 0 else s.lh[0]
  }

  function LogBlockOf(lay: Layout, s: State): (b: nat) {
    match s.phase
    case Replay(k) => lay.start + 1 + k
    case WriteSlot(k) => lay.start + 1 + k
    case InstallHome(k) => lay.start + 1 + k
    case _ => lay.start
  }

  predicate Working(ph: Phase) {
    !ph.Run? && !ph.Committed?
  }

  /** The blocks lie on the disk, and outside recovery the home block is one of the group's and cached. */
  lemma Needed(lay: Layout, s: State)
    requires Quiet(lay, s) && Working(s.phase)
    ensures LogBlockOf(lay, s) < |s.disk|
    ensures s.phase.Replay? ==> HomeOf(s) < |s.disk| && DirtyFrom(s) >= |s.lh|
    ensures !s.phase.Replay? ==> (HomeOf(s) in s.lh && |s.lh| < NBUF) || DirtyFrom(s) >= |s.lh|
    ensures s.phase.WriteSlot? || s.phase.InstallHome? ==> HomeOf(s) in s.cache
  {
    hide LocksOk, DiskOk, BudgetOk, ActiveCount;
  }

  /** With the two buffers at hand the disk action is enabled. */
  lemma ReadyIO(lay: Layout, s: State)
    requires Quiet(lay, s) && Working(s.phase) && LogBlockOf(lay, s) in s.cache
    requires s.phase.Replay? || s.phase.WriteSlot? || s.phase.InstallHome? ==> HomeOf(s) in s.cache
    ensures IOEnabled(lay, s)
  {
    hide LocksOk, BudgetOk, ActiveCount, DiskOk;
    NothingTouched(lay, s);
    SlotView(lay, s, 0);
  }

  lemma RankFalls(lay: Layout, s: State)
    requires Quiet(lay, s) && Working(s.phase) && IOEnabled(lay, s)
    ensures var t := DoIO(lay, s); 0 <= Rank(t) < Rank(s) && (|t.lh| < NBUF || Recovering(t.phase))
  {
    hide LocksOk, DiskOk, BudgetOk, ActiveCount, CacheOk, EncodeHeader;
  }

  /** What a home block will hold in the end: what bread returns, or in recovery what was committed. */
  ghost function Due(lay: Layout, s: State, b: nat): (x: Block)
    requires WfDisk(lay, s.disk) && b < |s.disk|
  {
    if Recovering(s.phase) then Logical(lay, s.disk)[b] else View(s, b)
  }

  ghost predicate SameDue(lay: Layout, s: State, t: State) {
    && WfDisk(lay, s.disk) && WfDisk(lay, t.disk) && |t.disk| == |s.disk|
    && forall b :: 0 <= b < |s.disk| && IsHome(lay, b) ==> Due(lay, t, b) == Due(lay, s, b)
  }

  lemma Wf(lay: Layout, s: State)
    requires Inv(lay, s)
    ensures WfDisk(lay, s.disk)
  {
  }

  lemma TrafficDue(lay: Layout, s: State, t: State)
    requires Inv(lay, s) && SameView(lay, s, t) && t == s.(cache := t.cache)
    ensures SameDue(lay, s, t)
  {
    hide Logical, View, WfDisk, IsHome;
    Wf(lay, s);
  }

  lemma IODue(lay: Layout, s: State)
    requires Inv(lay, s) && IOEnabled(lay, s)
    ensures SameDue(lay, s, DoIO(lay, s))
  {
    hide Inv, Logical, View, WfDisk, IsHome, IOEnabled;
    var t := DoIO(lay, s);
    StepIO(lay, s);
    Wf(lay, s);
    Wf(lay, t);
    IOPhase(lay, s);
    if Recovering(s.phase) && !Recovering(t.phase) {
      NothingTouchedAfter(lay, s, t);
      RunningUncommitted(lay, t);
    }
  }

  lemma IOPhase(lay: Layout, s: State)
    requires IOEnabled(lay, s)
    ensures var t := DoIO(lay, s);
            && |t.disk| == |s.disk| && (!Recovering(s.phase) ==> !Recovering(t.phase))
            && (Recovering(s.phase) && !Recovering(t.phase) ==> s.phase.ClearReplay?)
            && (s.phase.WriteHeader? ==> !Recovering(s.phase))
            && (s.phase.Replay? ==> Recovering(t.phase))
  {
  }

  lemma DueTrans(lay: Layout, s: State, t: State, u: State)
    requires SameDue(lay, s, t) && SameDue(lay, t, u)
    ensures SameDue(lay, s, u)
  {
    hide Due, WfDisk, IsHome;
  }

  /** The buffers are read and the disk action is done. */
  lemma Advance(lay: Layout, s0: State, s: State) returns (t: State)
    requires Leads(lay, s0, s) && Quiet(lay, s) && Working(s.phase) && SameDue(lay, s0, s)
    ensures Leads(lay, s0, t) && Quiet(lay, t) && 0 <= Rank(t) < Rank(s) && SameDue(lay, s0, t)
  {
    hide Leads, Inv, CacheFits, Drained, IOEnabled, DoIO, SameDue, SameView, Enabled;
    Needed(lay, s);
    t := GetBuffer(lay, s0, s, LogBlockOf(lay, s), HomeOf(s));
    TrafficDue(lay, s, t);
    DueTrans(lay, s0, s, t);
    if s.phase.Replay? {
      var u := GetBuffer(lay, s0, t, HomeOf(s), LogBlockOf(lay, s));
      TrafficDue(lay, t, u);
      DueTrans(lay, s0, t, u);
      t := u;
    }
    ReadyIO(lay, t);
    RankFalls(lay, t);
    IODue(lay, t);
    DueTrans(lay, s0, t, DoIO(lay, t));
    DoesDiskIO(lay, t);
    SameOps(lay, t);
    LeadsOn(lay, s0, t, DiskIO);
    QuietStep(lay, t, DiskIO);
    t := DoIO(lay, t);
  }

  lemma DoesDiskIO(lay: Layout, s: State)
    requires IOEnabled(lay, s) && !s.panicked
    ensures Enabled(lay, s, DiskIO) && Do(lay, s, DiskIO) == DoIO(lay, s)
  {
  }

  lemma LastStep(lay: Layout, s0: State, s: State) returns (t: State)
    requires Leads(lay, s0, s) && Quiet(lay, s) && s.phase.Committed? && SameDue(lay, s0, s)
    ensures Leads(lay, s0, t) && Quiet(lay, t) && t.phase.Run? && SameDue(lay, s0, t)
  {
    hide Leads, Inv, CacheFits, Drained, IOEnabled, DoIO, WfDisk, Logical, IsHome;
    LeadsOn(lay, s0, s, EndCommit);
    CommittedEmpty(lay, s);
    QuietStep(lay, s, EndCommit);
    t := Do(lay, s, EndCommit);
    assert SameDue(lay, s, t);
    DueTrans(lay, s0, s, t);
  }

  lemma CommittedEmpty(lay: Layout, s: State)
    requires Inv(lay, s) && s.phase.Committed?
    ensures s.lh == []
  {
  }

  lemma {:induction false} Finish(lay: Layout, s0: State, s: State) returns (t: State)
    requires Leads(lay, s0, s) && Quiet(lay, s) && SameDue(lay, s0, s) && 0 <= Rank(s)
    ensures Leads(lay, s0, t) && Quiet(lay, t) && t.phase.Run? && SameDue(lay, s0, t)
    decreases Rank(s)
  {
    hide Leads, Quiet, SameDue;
    if s.phase.Run? {
      t := s;
    } else if s.phase.Committed? {
      t := LastStep(lay, s0, s);
    } else {
      t := Advance(lay, s0, s);
      t := Finish(lay, s0, t);
    }
  }

  lemma RankNonNegative(lay: Layout, s: State)
    requires Inv(lay, s)
    ensures 0 <= Rank(s)
  {
    hide CacheOk, LocksOk, DiskOk, BudgetOk, ActiveCount;
  }

  /**
   From every state of every run in which no operation is in progress and no
   buffer is in use, a commit or recovery under way can run to its end without
   a crash or a panic, and then every home block on disk is what bread returned
   before, or after a crash what had been committed; unless the group has NBUF
   blocks.
   */
  lemma CanFinish(lay: Layout, ss: seq<State>, steps: seq<Step>, j: nat) returns (t: State)
    requires LOGSIZE < lay.size && IsRun(lay, ss, steps) && j <= |steps|
    requires !ss[j].panicked && ss[j].outstanding == 0 && ss[j].locked == map[] && (|ss[j].lh| < NBUF || Recovering(ss[j].phase))
    ensures Leads(lay, ss[j], t) && t.phase.Run? && t.lh == [] && !t.panicked && WfDisk(lay, ss[j].disk)
    ensures forall b :: 0 <= b < |ss[j].disk| && IsHome(lay, b) ==> b < |t.disk| && t.disk[b] == Due(lay, ss[j], b)
  {
    hide Leads, Inv, CacheFits, Do, Enabled, Start, Owed, Logical, WfDisk, IsHome, View;
    var s := ss[j];
    CrashSafety(lay, ss, steps, j);
    LogSpaceSuffices(lay, ss, steps, j);
    AlwaysDrained(lay, ss, steps, j);
    LeadsNowhere(lay, s);
    RankNonNegative(lay, s);
    t := Finish(lay, s, s);
    forall b | 0 <= b < |s.disk| && IsHome(lay, b)
      ensures t.disk[b] == Due(lay, s, b)
    {
      SettledBlock(lay, t, b);
      assert Due(lay, t, b) == Due(lay, s, b);
    }
  }

  // One operation from begin to commit.

  lemma Keep(lay: Layout, s0: State, s: State, st: Step)
    requires Leads(lay, s0, s) && Inv(lay, s) && CacheFits(s) && Drained(s) && Enabled(lay, s, st) && !st.Crash?
    ensures var t := Do(lay, s, st);
            && Leads(lay, s0, t) && Inv(lay, t) && CacheFits(t) && Drained(t)
            && |t.disk| == |s.disk| && (!st.DiskIO? && !st.Modify? ==> SameView(lay, s, t))
  {
    hide Inv, CacheFits, Drained, Enabled, Do, Leads;
    LeadsOn(lay, s0, s, st);
    StepSafe(lay, s, st);
    FitsStep(lay, s, st);
    DrainedStep(lay, s, st);
  }

  /** What the steps of an operation need to know. */
  ghost predicate Going(lay: Layout, s0: State, s: State) {
    Leads(lay, s0, s) && Inv(lay, s) && CacheFits(s) && Drained(s) && !s.panicked && s.phase.Run? && !s.committing
  }

  /** begin_op, bread, and a change of the buffer. */
  lemma Change(lay: Layout, s0: State, s: State, p: nat, b: nat, x: Block) returns (t: State)
    requires Going(lay, s0, s) && Quiet(lay, s) && p < |s.ops| && b in s.cache && IsHome(lay, b) && s.lh == [] && s.ops[p].Idle?
    ensures Going(lay, s0, t)
    ensures t == s.(ops := s.ops[p := Active({}, None)], outstanding := 1, locked := map[b := p],
                    cache := s.cache[b := s.cache[b].(data := x)], touched := s.touched + {b})
  {
    hide Leads, Inv, CacheFits, Drained, IOEnabled, DoIO;
    Keep(lay, s0, s, Begin(p));
    t := Do(lay, s, Begin(p));
    Keep(lay, s0, t, Lock(p, b));
    t := Do(lay, t, Lock(p, b));
    Keep(lay, s0, t, Modify(p, b, x));
    t := Do(lay, t, Modify(p, b, x));
  }

  /** log_write, brelse and end_op, which starts the commit. */
  lemma Save(lay: Layout, s0: State, s: State, p: nat, b: nat) returns (t: State)
    requires Going(lay, s0, s) && IsActive(s, p) && s.ops[p] == Active({}, None) && s.outstanding == 1
    requires s.lh == [] && s.locked == map[b := p] && b in s.cache && s.touched == {b} && IsHome(lay, b) && LOGSIZE < lay.size
    ensures Leads(lay, s0, t) && Quiet(lay, t) && t.phase == WriteSlot(0) && SameView(lay, s, t) && |t.disk| == |s.disk|
  {
    hide Leads, Inv, CacheFits, Drained, IOEnabled, DoIO, SameView;
    Keep(lay, s0, s, Check(p, b));
    t := Do(lay, s, Check(p, b));
    Keep(lay, s0, t, Append(p, b));
    var u := Do(lay, t, Append(p, b));
    ViewTrans(lay, s, t, u);
    Keep(lay, s0, u, Unlock(p, b));
    t := Do(lay, u, Unlock(p, b));
    ViewTrans(lay, s, u, t);
    assert t.locked == map[];
    Keep(lay, s0, t, End(p));
    u := Do(lay, t, End(p));
    ViewTrans(lay, s, t, u);
    t := u;
  }

  lemma ViewTrans(lay: Layout, s: State, t: State, u: State)
    requires SameView(lay, s, t) && SameView(lay, t, u)
    ensures SameView(lay, s, u)
  {
    hide View, IsHome;
  }

  lemma ServingDue(lay: Layout, s: State, t: State)
    requires Inv(lay, s) && Inv(lay, t) && SameView(lay, s, t) && !Recovering(s.phase) && !Recovering(t.phase)
    ensures SameDue(lay, s, t)
  {
    hide Logical, View, IsHome;
    Wf(lay, s);
    Wf(lay, t);
  }

  /**
   An operation gets its work to the disk: from every state of every run in
   which the system serves and is at rest, any process can change any home block
   b to any contents x by one operation, and, when the commit it starts has run
   to its end, the disk has x in b and every other home block as it was.
   */
  lemma OperationServed(lay: Layout, ss: seq<State>, steps: seq<Step>, j: nat, p: nat, b: nat, x: Block) returns (t: State)
    requires LOGSIZE < lay.size && IsRun(lay, ss, steps) && j <= |steps|
    requires !ss[j].panicked && ss[j].phase.Run? && ss[j].outstanding == 0 && ss[j].locked == map[] && p < |ss[j].ops|
    requires b < |ss[j].disk| && IsHome(lay, b)
    ensures Leads(lay, ss[j], t) && t.phase.Run? && t.lh == [] && t.outstanding == 0 && !t.panicked && |t.disk| == |ss[j].disk|
    ensures t.disk[b] == x && forall c :: 0 <= c < |t.disk| && IsHome(lay, c) && c != b ==> t.disk[c] == ss[j].disk[c]
  {
    hide Leads, Inv, CacheFits, Do, Enabled, Start, Owed, Logical, WfDisk, IsHome, SameDue;
    var s := ss[j];
    CrashSafety(lay, ss, steps, j);
    LogSpaceSuffices(lay, ss, steps, j);
    AlwaysDrained(lay, ss, steps, j);
    LeadsNowhere(lay, s);
    AtRest(lay, s);
    var s1 := GetBuffer(lay, s, s, b, b);
    var s2 := Change(lay, s, s1, p, b, x);
    var s3 := Save(lay, s, s2, p, b);
    RankNonNegative(lay, s3);
    ServingDue(lay, s3, s3);
    t := FinishFrom(lay, s, s3);
    forall c | 0 <= c < |s.disk| && IsHome(lay, c)
      ensures t.disk[c] == if c == b then x else s.disk[c]
    {
      SettledBlock(lay, s, c);
      SettledBlock(lay, t, c);
      DueSame(lay, s3, t, c);
    }
  }

  lemma DueSame(lay: Layout, s: State, t: State, c: nat)
    requires SameDue(lay, s, t) && !Recovering(s.phase) && !Recovering(t.phase) && c < |s.disk| && IsHome(lay, c)
    ensures c < |t.disk| && View(t, c) == View(s, c)
  {
    hide Logical, WfDisk, View, IsHome;
    assert Due(lay, t, c) == Due(lay, s, c);
  }

  lemma AtRest(lay: Layout, s: State)
    requires Inv(lay, s) && s.outstanding == 0 && s.phase.Run?
    ensures s.touched == {} && !s.committing && DirtyFrom(s) >= 0 && forall p :: 0 <= p < |s.ops| ==> s.ops[p].Idle?
  {
    NothingTouched(lay, s);
  }

  /** The commit that s has started, run to its end, for a path that began at s0. */
  lemma FinishFrom(lay: Layout, s0: State, s: State) returns (t: State)
    requires Leads(lay, s0, s) && Quiet(lay, s) && SameDue(lay, s, s) && 0 <= Rank(s)
    ensures Leads(lay, s0, t) && Quiet(lay, t) && t.phase.Run? && SameDue(lay, s, t) && |t.disk| == |s.disk|
  {
    hide Leads, Quiet, Due, WfDisk, IsHome;
    LeadsNowhere(lay, s);
    t := Finish(lay, s, s);
    LeadsTrans(lay, s0, s, t);
  }

  lemma LeadsTrans(lay: Layout, s: State, t: State, u: State)
    requires Leads(lay, s, t) && Leads(lay, t, u)
    ensures Leads(lay, s, u)
  {
    hide Enabled, Do;
    var ss: seq<State>, steps: seq<Step> :| IsPath(lay, ss, steps) && ss[0] == s && ss[|steps|] == t;
    var tt: seq<State>, more: seq<Step> :| IsPath(lay, tt, more) && tt[0] == t && tt[|more|] == u;
    var all, both := ss + tt[1..], steps + more;
    forall i | 0 <= i < |both|
      ensures !both[i].Crash? && Enabled(lay, all[i], both[i]) && all[i + 1] == Do(lay, all[i], both[i])
    {
      if i >= |steps| {
        assert both[i] == more[i - |steps|] && all[i] == tt[i - |steps|] && all[i + 1] == tt[i - |steps| + 1];
      }
    }
    assert IsPath(lay, all, both) && all[0] == s && all[|both|] == u;
  }
}
