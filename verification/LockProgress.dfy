/** Sleep locks get taken and given back: by steps of the one process alone, when nobody is in its way. */
module LockProgress {
  import opened SleepLock

  ghost predicate Alone(ss: seq<State>, p: nat) {
    ss != [] && forall k :: 0 <= k < |ss| - 1 ==> Enabled(ss[k], p, Go) && ss[k + 1] == Next(ss[k], p, Go)
  }

  /** Process p alone gets from s to t. */
  ghost predicate Gets(s: State, p: nat, t: State) {
    exists ss :: Alone(ss, p) && ss[0] == s && ss[|ss| - 1] == t
  }

  lemma GetsNowhere(s: State, p: nat)
    ensures Gets(s, p, s)
  {
    assert Alone([s], p) && [s][0] == s && [s][|[s]| - 1] == s;
  }

  lemma GetsOn(s: State, p: nat, t: State)
    requires Gets(s, p, t) && Enabled(t, p, Go)
    ensures Gets(s, p, Next(t, p, Go))
  {
    hide Enabled, Next;
    var ss :| Alone(ss, p) && ss[0] == s && ss[|ss| - 1] == t;
    var tt := ss + [Next(t, p, Go)];
    assert Alone(tt, p) && tt[0] == s && tt[|tt| - 1] == Next(t, p, Go);
  }

  /** One step of p, which keeps the invariant and everybody else's place. */
  lemma Step(s0: State, p: nat, s: State) returns (t: State)
    requires Gets(s0, p, s) && Inv(s) && Enabled(s, p, Go)
    ensures t == Next(s, p, Go) && Gets(s0, p, t) && Inv(t) && |t.procs| == |s.procs| && p < |t.procs|
    ensures t.g == MoveShared(s.g, p, s.procs[p].pc, Go)
    ensures !s.procs[p].pc.WakeScan? ==> t.procs[p] == MoveSlot(s.g, p, s.procs[p], Go, |s.procs|)
    ensures forall q :: 0 <= q < |s.procs| && q != p ==> t.procs[q].pc == s.procs[q].pc
  {
    hide Inv, Gets, MoveShared, MoveSlot, CanMove;
    GetsOn(s0, p, s);
    StepInv(s, p, Go);
    t := Next(s, p, Go);
  }

  /** A process in front of a lock that is not taken, with the inner lock free. */
  lemma TakeFree(s0: State, p: nat, s: State) returns (t: State)
    requires Gets(s0, p, s) && Inv(s) && p < |s.procs| && (s.procs[p].pc.AcqInner? || s.procs[p].pc.Retake?)
    requires s.g.inner.Free? && !s.g.locked
    ensures Gets(s0, p, t) && p < |t.procs| && t.procs[p].pc.Holding? && t.g == s.g.(locked := true, pid := p + 1)
    ensures |t.procs| == |s.procs| && forall q :: 0 <= q < |s.procs| && q != p ==> t.procs[q].pc == s.procs[q].pc
  {
    hide Inv, Gets, Next;
    t := Step(s0, p, s);
    t := Step(s0, p, t);
    t := Step(s0, p, t);
    t := Step(s0, p, t);
    t := Step(s0, p, t);
  }

  /** acquiresleep on a lock that is not taken, with the spinlocks free, takes it without anybody's help. */
  lemma AcquireCompletes(s: State, p: nat) returns (t: State)
    requires Inv(s) && Enabled(s, p, Acquire) && s.g.inner.Free? && !s.g.locked
    ensures Gets(Next(s, p, Acquire), p, t) && p < |t.procs| && t.procs[p].pc.Holding? && t.g == s.g.(locked := true, pid := p + 1)
    ensures |t.procs| == |s.procs| && forall q :: 0 <= q < |s.procs| && q != p ==> t.procs[q].pc == s.procs[q].pc
  {
    hide Inv, Gets;
    var s0 := Next(s, p, Acquire);
    StepInv(s, p, Acquire);
    GetsNowhere(s0, p);
    t := TakeFree(s0, p, s0);
  }

  /** So does a process that slept in acquiresleep and has been woken. */
  lemma WokenTakes(s: State, p: nat) returns (t: State)
    requires Inv(s) && p < |s.procs| && s.g.inner.Free? && s.g.table.Free? && !s.g.locked
    requires s.procs[p].pc.Asleep? && !s.procs[p].sleeping
    ensures Gets(s, p, t) && p < |t.procs| && t.procs[p].pc.Holding? && t.g == s.g.(locked := true, pid := p + 1)
    ensures |t.procs| == |s.procs| && forall q :: 0 <= q < |s.procs| && q != p ==> t.procs[q].pc == s.procs[q].pc
  {
    hide Inv, Gets, Next;
    GetsNowhere(s, p);
    t := Step(s, p, s);
    t := Step(s, p, t);
    t := Step(s, p, t);
    t := TakeFree(s, p, t);
  }

  lemma {:induction false} Scan(s0: State, p: nat, s: State, i: nat) returns (t: State)
    requires Gets(s0, p, s) && Inv(s) && p < |s.procs| && s.procs[p].pc == WakeScan(i) && i <= |s.procs|
    ensures Gets(s0, p, t) && Inv(t) && p < |t.procs| && t.procs[p].pc.WakeRelTable? && t.g == s.g
    ensures |t.procs| == |s.procs| && forall q :: 0 <= q < |s.procs| && q != p ==> t.procs[q].pc == s.procs[q].pc
    decreases |s.procs| - i
  {
    hide Inv, Gets;
    t := Step(s0, p, s);
    if i < |s.procs| {
      t := Scan(s0, p, t, i + 1);
    }
  }

  /**
   The holder gives the lock back, alone, when the two spinlocks are free: then
   the lock is not taken and nobody is asleep on it.
   */
  lemma ReleaseCompletes(s: State, p: nat) returns (t: State)
    requires Inv(s) && Enabled(s, p, Release) && s.g.inner.Free? && s.g.table.Free?
    ensures Gets(Next(s, p, Release), p, t) && p < |t.procs| && t.procs[p].pc.Idle?
    ensures t.g == Shared(Free, Free, false, 0) && |t.procs| == |s.procs|
    ensures forall q :: 0 <= q < |s.procs| && q != p ==> t.procs[q].pc == s.procs[q].pc
    ensures forall q :: 0 <= q < |s.procs| ==> !t.procs[q].sleeping
  {
    hide Inv, Gets;
    var s0 := Next(s, p, Release);
    StepInv(s, p, Release);
    GetsNowhere(s0, p);
    t := Clear(s0, p);
    t := Scan(s0, p, t, 0);
    t := Step(s0, p, t);
    t := Step(s0, p, t);
    NobodySleeps(t);
  }

  /** releasesleep up to the scan of wakeup. */
  lemma Clear(s: State, p: nat) returns (t: State)
    requires Inv(s) && p < |s.procs| && s.procs[p].pc.RelAcq? && s.g.inner.Free? && s.g.table.Free?
    ensures Gets(s, p, t) && Inv(t) && p < |t.procs| && t.procs[p].pc == WakeScan(0) && t.g == Shared(By(p), By(p), false, 0)
    ensures |t.procs| == |s.procs| && forall q :: 0 <= q < |s.procs| && q != p ==> t.procs[q].pc == s.procs[q].pc
  {
    hide Inv, Gets, Next;
    GetsNowhere(s, p);
    t := Step(s, p, s);
    t := Step(s, p, t);
    t := Step(s, p, t);
    t := Step(s, p, t);
  }

  lemma NobodySleeps(s: State)
    requires Inv(s) && s.g.inner.Free? && !s.g.locked
    ensures forall q :: 0 <= q < |s.procs| ==> !s.procs[q].sleeping
  {
  }
}
