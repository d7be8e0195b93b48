/**
 Runs that exhaust the log or the buffers, for every size of the log, although
 each operation stays within its budget of MAXOPBLOCKS blocks.

 mkfs gives the log LOGSIZE blocks, header included.  A log of at most LOGSIZE
 blocks is too small: operations with budget left meet log_write's panic, and
 the list can outgrow the log's slots because the limit is tested before the
 lock is taken.  With a larger log three operations still can fill the list,
 and then all NBUF buffers are pinned and commit finds none for a slot.
 */
module SmallLog {
  import opened LogDisk
  import opened LogCode
  import opened LogSystem
  import opened LogSafety

  ghost predicate Reach(lay: Layout, s: State) {
    exists ss: seq<State>, steps: seq<Step> :: IsRun(lay, ss, steps) && ss[|steps|] == s
  }

  lemma Extend(lay: Layout, s: State, st: Step)
    requires Reach(lay, s) && Enabled(lay, s, st)
    ensures Reach(lay, Do(lay, s, st))
  {
    hide Enabled, Do, Start;
    var ss: seq<State>, steps: seq<Step> :| IsRun(lay, ss, steps) && ss[|steps|] == s;
    var ss', steps' := ss + [Do(lay, s, st)], steps + [st];
    assert IsRun(lay, ss', steps');
    assert ss'[|steps'|] == Do(lay, s, st);
  }

  /** Three operations have logged n home blocks between them, taking turns. */
  ghost predicate Filled(lay: Layout, s: State, n: nat) {
    && s.phase.Run? && !s.panicked && !s.committing && s.outstanding == 3
    && lay.start + lay.size + LOGSIZE <= |s.disk|
    && s.locked == map[] && s.touched == {} && |s.ops| == 3
    && (forall j :: 0 <= j < 3 ==> Fair(lay, n, j, s.ops[j]))
    && |s.lh| == n && (forall i :: 0 <= i < n ==> s.lh[i] < lay.start + lay.size + n)
    && |s.cache| == n && (forall b :: b in s.cache ==> b < lay.start + lay.size + n)
  }

  ghost predicate Fair(lay: Layout, n: nat, j: nat, op: Op) {
    && op.Active? && op.checked.None? && |op.wrote| == (n + 2 - j) / 3
    && forall b :: b in op.wrote ==> b < lay.start + lay.size + n
  }

  /** The next process in turn reads and locks the next block. */
  lemma TakeBlock(lay: Layout, s: State, n: nat) returns (t: State)
    requires Reach(lay, s) && Filled(lay, s, n) && n < LOGSIZE
    ensures Reach(lay, t)
    ensures
      var b := lay.start + lay.size + n;
      t == s.(cache := s.cache[b := Buf(s.disk[b], false)], locked := map[b := n % 3])
  {
    hide IsRun, Reach, Fair;
    var b := lay.start + lay.size + n;
    Extend(lay, s, Load(b));
    t := Do(lay, s, Load(b));
    Extend(lay, t, Lock(n % 3, b));
    t := Do(lay, t, Lock(n % 3, b));
  }

  lemma FairTurn(lay: Layout, n: nat, op: Op)
    requires Fair(lay, n, n % 3, op) && n < LOGSIZE
    ensures
      var b := lay.start + lay.size + n;
      |op.wrote| < MAXOPBLOCKS && |op.wrote + {b}| == |op.wrote| + 1 <= MAXOPBLOCKS
    ensures Fair(lay, n + 1, n % 3, Active(op.wrote + {lay.start + lay.size + n}, None))
  {
  }

  lemma FairOther(lay: Layout, n: nat, j: nat, op: Op)
    requires Fair(lay, n, j, op) && j < 3 && j != n % 3
    ensures Fair(lay, n + 1, j, op)
  {
  }

  /** log_write and brelse of the block just taken. */
  lemma LogBlock(lay: Layout, s: State, p: nat, b: nat) returns (t: State)
    requires Reach(lay, s) && !s.panicked && s.outstanding >= 1 && |s.lh| < LOGSIZE && |s.lh| < lay.size - 1
    requires IsActive(s, p) && s.ops[p].checked.None? && IsHome(lay, b) && b !in s.lh && s.touched == {}
    requires b in s.cache && s.locked == map[b := p] && |s.ops[p].wrote + {b}| <= MAXOPBLOCKS
    ensures Reach(lay, t)
    ensures t == s.(lh := s.lh + [b], cache := s.cache[b := s.cache[b].(dirty := true)], locked := map[],
                    ops := s.ops[p := Active(s.ops[p].wrote + {b}, None)])
  {
    hide IsRun, Reach;
    Extend(lay, s, Check(p, b));
    t := Do(lay, s, Check(p, b));
    Extend(lay, t, Append(p, b));
    t := Do(lay, t, Append(p, b));
    Extend(lay, t, Unlock(p, b));
    t := Do(lay, t, Unlock(p, b));
    assert t.locked == map[];
  }

  lemma FillOne(lay: Layout, s: State, n: nat) returns (t: State)
    requires Reach(lay, s) && Filled(lay, s, n) && n < lay.size - 1 && n < LOGSIZE
    ensures Reach(lay, t) && Filled(lay, t, n + 1)
  {
    hide IsRun, Reach, Fair, Do, Enabled;
    var b, p := lay.start + lay.size + n, n % 3;
    t := TakeBlock(lay, s, n);
    FairTurn(lay, n, s.ops[p]);
    FairActive(lay, n, p, s.ops[p]);
    t := LogBlock(lay, t, p, b);
    FilledNext(lay, s, n, t);
  }

  lemma FilledNext(lay: Layout, s: State, n: nat, t: State)
    requires Filled(lay, s, n) && n < LOGSIZE && s.ops[n % 3].Active?
    requires var b, p := lay.start + lay.size + n, n % 3;
             && b < |s.disk|
             && t == s.(lh := s.lh + [b], cache := s.cache[b := Buf(s.disk[b], true)], locked := map[],
                        ops := s.ops[p := Active(s.ops[p].wrote + {b}, None)])
    ensures Filled(lay, t, n + 1)
  {
    hide Fair;
    var b, p := lay.start + lay.size + n, n % 3;
    FairTurn(lay, n, s.ops[p]);
    assert t.cache.Keys == s.cache.Keys + {b};
    forall j | 0 <= j < 3
      ensures Fair(lay, n + 1, j, t.ops[j])
    {
      if j != p {
        FairOther(lay, n, j, s.ops[j]);
      }
    }
  }

  lemma FairActive(lay: Layout, n: nat, j: nat, op: Op)
    requires Fair(lay, n, j, op)
    ensures op.Active? && op.checked.None?
  {
  }

  /** A fresh disk: every block zero, the log empty. */
  function FreshDisk(n: nat): (d: Disk) {
    seq(n, i => Block(seq(WORDS, k => 0)))
  }

  lemma FreshStart(lay: Layout) returns (s: State)
    requires 1 <= lay.size
    ensures Reach(lay, s) && s == Rebooted(FreshDisk(lay.start + lay.size + LOGSIZE), 3)
  {
    s := Rebooted(FreshDisk(lay.start + lay.size + LOGSIZE), 3);
    var ss: seq<State>, steps: seq<Step> := [s], [];
    assert IsRun(lay, ss, steps) && ss[|steps|] == s;
  }

  lemma Booted(lay: Layout) returns (s: State)
    requires 1 <= lay.size
    ensures Reach(lay, s) && s.phase.Run? && !s.panicked && !s.committing && s.lh == [] && s.outstanding == 0
    ensures s.ops == [Idle, Idle, Idle] && s.locked == map[] && s.touched == {}
    ensures |s.disk| == lay.start + lay.size + LOGSIZE && s.cache == map[]
  {
    hide IsRun, Reach;
    s := FreshStart(lay);
    Extend(lay, s, Load(lay.start));
    s := Do(lay, s, Load(lay.start));
    Extend(lay, s, DiskIO);
    s := Do(lay, s, DiskIO);
    Extend(lay, s, DiskIO);
    s := Do(lay, s, DiskIO);
    Extend(lay, s, Evict(lay.start));
    s := Do(lay, s, Evict(lay.start));
  }

  lemma ThreeBegun(lay: Layout) returns (s: State)
    requires 1 <= lay.size
    ensures Reach(lay, s) && Filled(lay, s, 0)
  {
    hide IsRun, Reach;
    s := Booted(lay);
    Extend(lay, s, Begin(0));
    s := Do(lay, s, Begin(0));
    Extend(lay, s, Begin(1));
    s := Do(lay, s, Begin(1));
    Extend(lay, s, Begin(2));
    s := Do(lay, s, Begin(2));
  }

  lemma {:induction false} FillUp(lay: Layout, n: nat) returns (s: State)
    requires n < lay.size && n <= LOGSIZE
    ensures Reach(lay, s) && Filled(lay, s, n)
    decreases n
  {
    if n == 0 {
      s := ThreeBegun(lay);
    } else {
      s := FillUp(lay, n - 1);
      s := FillOne(lay, s, n - 1);
    }
  }

  /** An operation with budget left runs into "too big a transaction", with the list shorter than LOGSIZE. */
  lemma SmallLogPanics(lay: Layout) returns (s: State, st: Step)
    requires 1 <= lay.size <= LOGSIZE
    ensures Reach(lay, s) && Enabled(lay, s, st) && Do(lay, s, st).panicked
    ensures st.Check? && |s.ops[st.p].wrote| < MAXOPBLOCKS && |s.lh| < LOGSIZE
  {
    hide IsRun, Reach, Fair;
    var n := lay.size - 1;
    s := FillUp(lay, n);
    FairTurn(lay, n, s.ops[n % 3]);
    FairActive(lay, n, n % 3, s.ops[n % 3]);
    s := TakeBlock(lay, s, n);
    st := Check(n % 3, lay.start + lay.size + n);
  }

  /** Two operations pass the unlocked test together, and the list outgrows the log's size - 1 slots. */
  lemma SmallLogOverruns(lay: Layout) returns (s: State)
    requires 2 <= lay.size <= LOGSIZE
    ensures Reach(lay, s) && !s.panicked && |s.lh| == lay.size
  {
    hide IsRun, Reach, Fair, Do, Enabled;
    var n := lay.size - 2;
    s := FillUp(lay, n);
    var p, q, b, c := n % 3, (n + 1) % 3, lay.start + lay.size + n, lay.start + lay.size + n + 1;
    FairTurn(lay, n, s.ops[p]);
    FairActive(lay, n, p, s.ops[p]);
    FairOther(lay, n, q, s.ops[q]);
    FairTurn(lay, n + 1, s.ops[q]);
    FairActive(lay, n, q, s.ops[q]);
    s := TakeBlock(lay, s, n);
    s := FirstPasses(lay, s, p, b);
    s := SecondPasses(lay, s, q, c);
    s := BothAppend(lay, s, p, b, q, c);
  }

  lemma BothAppend(lay: Layout, s: State, p: nat, b: nat, q: nat, c: nat) returns (t: State)
    requires Reach(lay, s) && !s.panicked && p != q && b != c && b !in s.lh && c !in s.lh
    requires IsActive(s, p) && s.ops[p].checked == Some(b) && Holds(s, p, b)
    requires IsActive(s, q) && s.ops[q].checked == Some(c) && Holds(s, q, c)
    ensures Reach(lay, t) && !t.panicked && t.lh == s.lh + [b, c]
  {
    hide IsRun, Reach;
    Extend(lay, s, Append(p, b));
    t := Do(lay, s, Append(p, b));
    Extend(lay, t, Append(q, c));
    t := Do(lay, t, Append(q, c));
  }

  lemma FirstPasses(lay: Layout, s: State, p: nat, b: nat) returns (t: State)
    requires Reach(lay, s) && !s.panicked && IsHome(lay, b) && Holds(s, p, b)
    requires IsActive(s, p) && s.ops[p].checked.None? && |s.ops[p].wrote + {b}| <= MAXOPBLOCKS
    requires |s.lh| < LOGSIZE && |s.lh| < lay.size - 1 && s.outstanding >= 1
    ensures Reach(lay, t) && t == s.(ops := s.ops[p := s.ops[p].(checked := Some(b))])
  {
    hide IsRun, Reach;
    Extend(lay, s, Check(p, b));
    t := Do(lay, s, Check(p, b));
  }

  lemma SecondPasses(lay: Layout, s: State, q: nat, c: nat) returns (t: State)
    requires Reach(lay, s) && !s.panicked && c < |s.disk| && c !in s.cache && c !in s.locked && IsHome(lay, c)
    requires IsActive(s, q) && s.ops[q].checked.None?
    requires |s.cache| < NBUF && |s.ops[q].wrote + {c}| <= MAXOPBLOCKS && |s.lh| < LOGSIZE && |s.lh| < lay.size - 1 && s.outstanding >= 1
    ensures Reach(lay, t)
    ensures t == s.(cache := s.cache[c := Buf(s.disk[c], false)], locked := s.locked[c := q],
                    ops := s.ops[q := s.ops[q].(checked := Some(c))])
  {
    hide IsRun, Reach;
    Extend(lay, s, Load(c));
    t := Do(lay, s, Load(c));
    Extend(lay, t, Lock(q, c));
    t := Do(lay, t, Lock(q, c));
    Extend(lay, t, Check(q, c));
    t := Do(lay, t, Check(q, c));
  }

  /** Three operations, each within its budget, fill the list, and one logs a block of its own once more. */
  lemma AbsorptionPanics(lay: Layout) returns (s: State, st: Step)
    requires LOGSIZE < lay.size
    ensures Reach(lay, s) && Enabled(lay, s, st) && Do(lay, s, st).panicked
    ensures st.Check? && st.b in s.lh && st.b in s.ops[st.p].wrote && |s.ops[st.p].wrote| == MAXOPBLOCKS
  {
    hide IsRun, Reach;
    s := FillUp(lay, LOGSIZE);
    var b :| b in s.ops[0].wrote;
    WroteIsHeld(lay, s, 0, b);
    Extend(lay, s, Lock(0, b));
    s := Do(lay, s, Lock(0, b));
    st := Check(0, b);
    assert s.ops[0].wrote + {b} == s.ops[0].wrote;
  }

  lemma WroteIsHeld(lay: Layout, s: State, p: nat, b: nat)
    requires LOGSIZE < lay.size && Reach(lay, s) && IsActive(s, p) && b in s.ops[p].wrote
    ensures b in s.lh && b in s.cache && IsHome(lay, b)
  {
    hide Enabled, Do, Start, Owed;
    var ss: seq<State>, steps: seq<Step> :| IsRun(lay, ss, steps) && ss[|steps|] == s;
    CrashSafety(lay, ss, steps, |steps|);
    LoggedIsHeld(lay, s, p, b);
  }

  lemma LoggedIsHeld(lay: Layout, s: State, p: nat, b: nat)
    requires Inv(lay, s) && IsActive(s, p) && b in s.ops[p].wrote
    ensures b in s.lh && b in s.cache && IsHome(lay, b)
  {
    AppendsInRun(lay, s, p);
    assert OpOk(s.lh, s.ops[p]);
  }

  /** Three operations, each within its budget, end with NBUF logged blocks; commit finds no buffer for a slot. */
  lemma FullGroupPanics(lay: Layout) returns (s: State, st: Step)
    requires LOGSIZE < lay.size
    ensures Reach(lay, s) && s.phase == WriteSlot(0) && |s.lh| == NBUF && s.locked == map[]
    ensures st == Load(lay.start + 1) && Enabled(lay, s, st) && Do(lay, s, st).panicked
  {
    hide IsRun, Reach;
    s := FillUp(lay, LOGSIZE);
    Extend(lay, s, End(0));
    s := Do(lay, s, End(0));
    Extend(lay, s, End(1));
    s := Do(lay, s, End(1));
    Extend(lay, s, End(2));
    s := Do(lay, s, End(2));
    st := Load(lay.start + 1);
    NoBufferForSlot(lay, s);
  }

  lemma NoBufferForSlot(lay: Layout, s: State)
    requires LOGSIZE < lay.size && Reach(lay, s) && s.phase == WriteSlot(0) && |s.lh| == NBUF
    ensures |s.cache| == NBUF && Pinned(s) == s.cache.Keys && lay.start + 1 < |s.disk| && lay.start + 1 !in s.cache
  {
    hide Enabled, Do, Start, Owed, LocksOk, DiskOk, BudgetOk, CacheOk, CacheFits;
    var ss: seq<State>, steps: seq<Step> :| IsRun(lay, ss, steps) && ss[|steps|] == s;
    CrashSafety(lay, ss, steps, |steps|);
    LogSpaceSuffices(lay, ss, steps, |steps|);
    FullCache(s);
    PinnedBounds(lay, s);
    PinnedCached(s);
    if lay.start + 1 in s.cache {
      SlotTakesOne(lay, s, lay.start + 1);
    }
  }

  lemma FullCache(s: State)
    requires CacheFits(s)
    ensures |s.cache| <= NBUF
  {
  }

  /** No log size spares operations within their budget every panic. */
  lemma NoSizeServes(lay: Layout) returns (s: State)
    requires 1 <= lay.size
    ensures Reach(lay, s) && s.panicked
  {
    hide Reach, Enabled, Do;
    var st: Step;
    if LOGSIZE < lay.size {
      s, st := FullGroupPanics(lay);
    } else {
      s, st := SmallLogPanics(lay);
    }
    Extend(lay, s, st);
    s := Do(lay, s, st);
  }

  /** The log's size is to blame for no panic and no overrun in any run if and only if it is more than LOGSIZE blocks. */
  lemma LogSizeNeeded(lay: Layout)
    requires 1 <= lay.size
    ensures LOGSIZE < lay.size <==>
              forall s: State, st: Step :: Reach(lay, s) && Enabled(lay, s, st) ==>
                |s.lh| < lay.size && (Do(lay, s, st).panicked ==> Exhausts(s, st))
  {
    hide Reach, Enabled, Do;
    if LOGSIZE < lay.size {
      forall s: State, st: Step | Reach(lay, s) && Enabled(lay, s, st)
        ensures |s.lh| < lay.size && (Do(lay, s, st).panicked ==> Exhausts(s, st))
      {
        ReachedSuffices(lay, s, st);
      }
    } else {
      var s, st := SmallLogPanics(lay);
      assert Reach(lay, s) && Enabled(lay, s, st);
    }
  }

  lemma ReachedSuffices(lay: Layout, s: State, st: Step)
    requires LOGSIZE < lay.size && Reach(lay, s) && Enabled(lay, s, st)
    ensures |s.lh| < lay.size && (Do(lay, s, st).panicked ==> Exhausts(s, st))
  {
    hide Enabled, Do, Start, Owed, Inv, CacheFits, Exhausts;
    var ss: seq<State>, steps: seq<Step> :| IsRun(lay, ss, steps) && ss[|steps|] == s;
    LogSpaceSuffices(lay, ss, steps, |steps|);
    CrashSafety(lay, ss, steps, |steps|);
    if st.Crash? {
      CrashCalm(lay, s);
    } else {
      PanicsExactly(lay, s, st);
    }
  }
}
