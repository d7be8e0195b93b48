/** What read and write on a pipe return, from the call to its return, and that they do return. */
module PipeCalls {
  import opened Pipe

  // From the call to the return, in any run.

  /** The process is in the call a; out0 is what its writes had put in before. */
  predicate InCall(x: Slot, a: Act, out0: seq<nat>) {
    match a
    case Read(n) =>
      || x.pc == ReadAcq(n) || x.pc == ReadWait(n) || x.pc == ReadAsleep(n)
      || ((x.pc.ReadCopy? || x.pc.ReadRel?) && x.pc.n == n) || x.pc.ReadFail?
    case Write(src) =>
      if x.pc.WriteRel? then x.pc.src == src && PutIn(x, src, out0)
      else (x.pc.WriteAcq? || x.pc.WriteLoop? || x.pc.WriteSleep? || x.pc.WriteAsleep?) && x.pc.src == src && x.out == out0
    case _ => false
  }

  /** All of src has been put in, or a beginning of it that is not all. */
  predicate PutIn(x: Slot, src: seq<nat>, out0: seq<nat>)
    requires x.pc.WriteRel?
  {
    if x.pc.result == |src| then x.out == out0 + src
    else |out0| <= |x.out| < |out0| + |src| && x.out == out0 + src[..|x.out| - |out0|]
  }

  lemma CallStarts(g: Shared, x: Slot, a: Act)
    requires a.Read? || a.Write?
    ensures InCall(MoveSlot(g, x, a), a, x.out)
  {
  }

  /** About to release the lock and return. */
  predicate Returning(pc: Pc) {
    pc.ReadRel? || pc.ReadFail? || pc.WriteRel?
  }

  lemma CallGoesOn(g: Shared, x: Slot, a: Act, out0: seq<nat>)
    requires InCall(x, a, out0) && Inside(x.pc)
    ensures var x' := MoveSlot(g, x, Go); if x'.pc.Idle? then Returning(x.pc) else InCall(x', a, out0)
  {
    hide Full, Empty, Head;
  }

  /** Another process's step, or being killed, leaves the call where it is. */
  lemma CallStays(x: Slot, y: Slot, a: Act, out0: seq<nat>)
    requires InCall(x, a, out0) && y.pc == x.pc && y.out == x.out
    ensures InCall(y, a, out0)
  {
  }

  ghost predicate Calls(ss: seq<State>, i: nat, j: nat, p: nat, a: Act) {
    && IsRun(ss) && i < j < |ss| && Enabled(ss[i], p, a) && ss[i + 1] == Next(ss[i], p, a)
    && forall k :: i < k <= j ==> p < |ss[k].procs| && !ss[k].procs[p].pc.Idle?
  }

  lemma {:induction false} StillInCall(ss: seq<State>, i: nat, j: nat, p: nat, a: Act)
    requires Calls(ss, i, j, p, a) && (a.Read? || a.Write?)
    ensures InCall(ss[j].procs[p], a, ss[i].procs[p].out)
    decreases j
  {
    hide MoveSlot, MoveShared, InCall, Init, Wakes, Unclosed, Inside;
    if j == i + 1 {
      CallStarts(ss[i].g, ss[i].procs[p], a);
    } else {
      var s, x, out0 := ss[j - 1], ss[j - 1].procs[p], ss[i].procs[p].out;
      StillInCall(ss, i, j - 1, p, a);
      RunSent(ss, j - 1);
      assert StepTo(ss[j - 1], ss[j - 1 + 1]);
      var q: nat, b :| Enabled(s, q, b) && ss[j] == Next(s, q, b);
      if q != p {
        CallStays(x, ss[j].procs[p], a, out0);
      } else if b.Kill? {
        KilledSlot(s.g, x);
        CallStays(x, ss[j].procs[p], a, out0);
      } else {
        CallGoesOn(s.g, x, a, out0);
      }
    }
  }

  /** A call ends only by returning. */
  lemma CallEnds(ss: seq<State>, i: nat, j: nat, p: nat, a: Act)
    requires Calls(ss, i, j, p, a) && (a.Read? || a.Write?) && j + 1 < |ss| && p < |ss[j + 1].procs| && ss[j + 1].procs[p].pc.Idle?
    ensures Returning(ss[j].procs[p].pc)
  {
    hide MoveSlot, MoveShared, InCall, Init, Wakes, Unclosed, Inside;
    StillInCall(ss, i, j, p, a);
    RunSent(ss, j);
    assert StepTo(ss[j], ss[j + 1]);
    var q: nat, b :| Enabled(ss[j], q, b) && ss[j + 1] == Next(ss[j], q, b);
    KilledSlot(ss[j].g, ss[j].procs[p]);
    CallGoesOn(ss[j].g, ss[j].procs[p], a, ss[i].procs[p].out);
  }

  lemma KilledSlot(g: Shared, x: Slot)
    ensures MoveSlot(g, x, Kill).pc == x.pc && MoveSlot(g, x, Kill).out == x.out
  {
  }

  /**
   A read of n bytes that returns gives the next bytes of the stream, n of them
   unless it has emptied the pipe; it gives none, for n > 0, only at the end of
   the stream: all delivered and the write end closed.
   */
  lemma ReadReturns(ss: seq<State>, i: nat, j: nat, p: nat, n: nat)
    requires Calls(ss, i, j, p, Read(n)) && ss[j].procs[p].pc.ReadRel?
    ensures var r, got := ss[j].g.ring, ss[j].procs[p].pc.got;
            && |got| <= n && (|got| == n || |r.written| == |r.delivered|)
            && (got == [] && n > 0 ==> |r.written| == |r.delivered| && !ss[j].g.writeopen)
            && |got| <= |r.delivered| <= |r.written| && got == r.written[|r.delivered| - |got|..|r.delivered|]
  {
    hide RingOk, EndsOk, WaitOk, Suffix;
    StillInCall(ss, i, j, p, Read(n));
    RunInv(ss, j);
    assert SlotOk(ss[j].g, p, ss[j].procs[p]);
    Tests(ss[j].g.ring);
    ReadIsStream(ss, j, p);
  }

  /** A read fails only for a killed process in front of an empty pipe that can still be written. */
  lemma ReadFails(ss: seq<State>, i: nat, j: nat, p: nat, n: nat)
    requires Calls(ss, i, j, p, Read(n)) && ss[j].procs[p].pc.ReadFail?
    ensures ss[j].procs[p].killed && |ss[j].g.ring.written| == |ss[j].g.ring.delivered| && ss[j].g.writeopen
  {
    hide RingOk, EndsOk, WaitOk, Suffix;
    RunInv(ss, j);
    assert SlotOk(ss[j].g, p, ss[j].procs[p]);
    Tests(ss[j].g.ring);
  }

  /**
   A write that returns has put all of its bytes into the stream and returns
   their number, or it has put in a beginning of them and returns -1, in front of
   a full pipe that nobody can read any more or because the process was killed.
   */
  lemma WriteReturns(ss: seq<State>, i: nat, j: nat, p: nat, src: seq<nat>)
    requires Calls(ss, i, j, p, Write(src)) && ss[j].procs[p].pc.WriteRel?
    ensures var x, out0, r := ss[j].procs[p], ss[i].procs[p].out, ss[j].g.ring;
            if x.pc.result == |src| then x.out == out0 + src
            else
              && x.pc.result == -1 && |r.written| == |r.delivered| + PIPESIZE && (!ss[j].g.readopen || x.killed)
              && |out0| <= |x.out| < |out0| + |src| && x.out == out0 + src[..|x.out| - |out0|]
  {
    hide RingOk, EndsOk, WaitOk, Suffix;
    StillInCall(ss, i, j, p, Write(src));
    RunInv(ss, j);
    assert SlotOk(ss[j].g, p, ss[j].procs[p]);
    Tests(ss[j].g.ring);
  }

  // The pipe's page.

  /** Closed at both ends, the pipe is freed, or the process that closed the second end is about to free it. */
  ghost predicate ClosedOk(s: State) {
    !s.g.readopen && !s.g.writeopen ==> s.g.freed || HolderPc(s).CloseWake? || HolderPc(s).CloseRel?
  }

  lemma ClosedStep(s: State, p: nat, a: Act)
    requires Inv(s) && ClosedOk(s) && Enabled(s, p, a)
    ensures ClosedOk(Next(s, p, a))
  {
    hide RingOk, EndsOk, WaitOk, Full, Empty, Put, Take, Head, Suffix, PlaceOk, Unclosed;
    StepCan(s, p, a);
    if s.g.lock.By? {
      assert SlotOk(s.g, s.g.lock.p, s.procs[s.g.lock.p]);
    }
    assert SlotOk(s.g, p, s.procs[p]);
  }

  lemma {:induction false} RunClosed(ss: seq<State>, k: nat)
    requires IsRun(ss) && k < |ss|
    ensures ClosedOk(ss[k])
  {
    hide Inv, Next, Enabled;
    if k > 0 {
      RunClosed(ss, k - 1);
      RunInv(ss, k - 1);
      assert StepTo(ss[k - 1], ss[k - 1 + 1]);
      var p: nat, a :| Enabled(ss[k - 1], p, a) && ss[k] == Next(ss[k - 1], p, a);
      ClosedStep(ss[k - 1], p, a);
    }
  }

  /** With the lock free, the pipe's page is freed exactly when both ends are closed. */
  lemma FreedExactly(ss: seq<State>, k: nat)
    requires IsRun(ss) && k < |ss| && ss[k].g.lock.Free?
    ensures ss[k].g.freed <==> !ss[k].g.readopen && !ss[k].g.writeopen
  {
    hide IsRun, RingOk, EndsOk, WaitOk, SlotOk;
    RunInv(ss, k);
    RunClosed(ss, k);
  }

  // Calls that do not have to wait return, by steps of their own.

  ghost predicate Alone(ss: seq<State>, p: nat) {
    ss != [] && forall k :: 0 <= k < |ss| - 1 ==> Enabled(ss[k], p, Go) && ss[k + 1] == Next(ss[k], p, Go)
  }

  /** Process p alone gets from s to t. */
  ghost predicate Gets(s: State, p: nat, t: State) {
    exists ss :: Alone(ss, p) && ss[0] == s && ss[|ss| - 1] == t
  }

  lemma GetsNowhere(s: State, p: nat)
    ensures Gets(s, p, s)
  {
    assert Alone([s], p) && [s][0] == s && [s][|[s]| - 1] == s;
  }

  lemma GetsOn(s: State, p: nat, t: State)
    requires Gets(s, p, t) && Enabled(t, p, Go)
    ensures Gets(s, p, Next(t, p, Go))
  {
    hide Enabled, Next;
    var ss :| Alone(ss, p) && ss[0] == s && ss[|ss| - 1] == t;
    var tt := ss + [Next(t, p, Go)];
    assert Alone(tt, p) && tt[0] == s && tt[|tt| - 1] == Next(t, p, Go);
  }

  /** Process p is at pc, awake and in order, having got there from s0 alone. */
  ghost predicate Stands(s0: State, p: nat, s: State, pc: Pc) {
    Gets(s0, p, s) && Inv(s) && p < |s.procs| && s.procs[p].pc == pc && !s.procs[p].sleeping
  }

  /** One step of a process that holds the lock. */
  lemma Step(s0: State, p: nat, s: State, pc: Pc) returns (t: State)
    requires Stands(s0, p, s, pc) && !pc.Idle? && (NeedsLock(pc) ==> s.g.lock.Free?)
    ensures Enabled(s, p, Go) && t == Next(s, p, Go) && Gets(s0, p, t) && Inv(t) && p < |t.procs|
    ensures t.g == MoveShared(s.g, p, s.procs[p], Go) && t.procs[p] == MoveSlot(s.g, s.procs[p], Go)
  {
    hide Inv, Gets, MoveShared, MoveSlot, Wakes;
    GetsOn(s0, p, s);
    StepInv(s, p, Go);
    t := Next(s, p, Go);
  }

  lemma Awake(s: State, p: nat)
    requires Inv(s) && p < |s.procs| && !s.procs[p].pc.WriteAsleep? && !s.procs[p].pc.ReadAsleep?
    ensures !s.procs[p].sleeping
  {
    assert SlotOk(s.g, p, s.procs[p]);
  }

  lemma Ringed(s: State)
    requires Inv(s)
    ensures RingOk(s.g.ring)
  {
  }

  function Least(a: int, b: int): (m: int) {
    if a <= b then a else b
  }

  lemma {:induction false} CopyAll(s0: State, p: nat, s: State, n: nat, got: seq<nat>) returns (t: State)
    requires Stands(s0, p, s, ReadCopy(n, got)) && |got| <= n
    ensures t.g.ring.written == s.g.ring.written && |s.g.ring.delivered| <= |s.g.ring.written|
    ensures var m := Least(n - |got|, |s.g.ring.written| - |s.g.ring.delivered|);
            && Gets(s0, p, t) && Inv(t) && p < |t.procs| && t.procs[p].pc.ReadRel? && t.procs[p].pc.n == n
            && |t.procs[p].pc.got| == |got| + m && |t.g.ring.delivered| == |s.g.ring.delivered| + m
    decreases n - |got|
  {
    hide Inv, Gets, RingOk;
    Ringed(s);
    Tests(s.g.ring);
    Lengths(s.g.ring);
    t := Step(s0, p, s, ReadCopy(n, got));
    if |got| < n && !Empty(s.g.ring) {
      Awake(t, p);
      t := CopyAll(s0, p, t, n, got + [Head(s.g.ring)]);
    }
  }

  lemma Lengths(r: Ring)
    requires RingOk(r)
    ensures |r.delivered| <= |r.written|
  {
  }

  /** The bytes that wait in the pipe, but no more than n of them. */
  ghost predicate NextBytes(r: Ring, n: nat, got: seq<nat>) {
    && |r.delivered| <= |r.written| && |got| == Least(n, |r.written| - |r.delivered|)
    && got == r.written[|r.delivered|..|r.delivered| + |got|]
  }

  /**
   A read that finds bytes, or a closed write end, returns without anybody's
   help: with as many of the waiting bytes as it asked for.
   */
  lemma ReadCompletes(s: State, p: nat, n: nat) returns (t: State)
    requires Inv(s) && s.g.lock.Free? && Enabled(s, p, Read(n)) && (!Empty(s.g.ring) || !s.g.writeopen)
    ensures Gets(Next(s, p, Read(n)), p, t) && p < |t.procs| && t.procs[p].pc.ReadRel?
    ensures NextBytes(s.g.ring, n, t.procs[p].pc.got)
  {
    hide Inv, Gets, RingOk, Full, Empty, MoveShared, MoveSlot, Wakes;
    var s0 := Next(s, p, Read(n));
    StepInv(s, p, Read(n));
    GetsNowhere(s0, p);
    assert s0.g == s.g && s0.procs[p].pc == ReadAcq(n) by {
      ReadStarts(s.g, p, s.procs[p], n);
    }
    Awake(s0, p);
    t := Step(s0, p, s0, ReadAcq(n));
    ReadTakes(s0.g, p, s0.procs[p], n);
    Awake(t, p);
    ReadTakes(t.g, p, t.procs[p], n);
    t := Step(s0, p, t, ReadWait(n));
    Awake(t, p);
    t := CopyAll(s0, p, t, n, []);
    LastGot(t, p);
  }

  lemma ReadStarts(g: Shared, p: nat, x: Slot, n: nat)
    ensures MoveShared(g, p, x, Read(n)) == g && MoveSlot(g, x, Read(n)).pc == ReadAcq(n)
  {
  }

  /** The two steps of piperead before its copy loop. */
  lemma ReadTakes(g: Shared, p: nat, x: Slot, n: nat)
    ensures x.pc == ReadAcq(n) ==> MoveSlot(g, x, Go).pc == ReadWait(n) && MoveShared(g, p, x, Go) == g.(lock := By(p))
    ensures x.pc == ReadWait(n) && (!Empty(g.ring) || !g.writeopen) ==>
              MoveSlot(g, x, Go).pc == ReadCopy(n, []) && MoveShared(g, p, x, Go) == g
  {
  }

  lemma LastGot(s: State, p: nat)
    requires Inv(s) && p < |s.procs| && s.procs[p].pc.ReadRel?
    ensures var r, got := s.g.ring, s.procs[p].pc.got;
            |got| <= |r.delivered| <= |r.written| && got == r.written[|r.delivered| - |got|..|r.delivered|]
  {
    assert SlotOk(s.g, p, s.procs[p]);
    var r := s.g.ring;
    assert r.delivered == r.written[..|r.delivered|];
  }

  lemma {:induction false} PutAll(s0: State, p: nat, s: State, src: seq<nat>, i: nat) returns (t: State)
    requires Stands(s0, p, s, WriteLoop(src, i)) && i <= |src|
    requires |s.g.ring.written| + (|src| - i) <= |s.g.ring.delivered| + PIPESIZE
    ensures Gets(s0, p, t) && p < |t.procs| && t.procs[p].pc == WriteRel(src, |src|)
    ensures t.g.ring.written == s.g.ring.written + src[i..] && t.g.ring.delivered == s.g.ring.delivered
    decreases |src| - i
  {
    hide Inv, Gets, RingOk;
    Ringed(s);
    Tests(s.g.ring);
    t := Step(s0, p, s, WriteLoop(src, i));
    if i < |src| {
      Awake(t, p);
      t := PutAll(s0, p, t, src, i + 1);
      assert s.g.ring.written + src[i..] == s.g.ring.written + [src[i]] + src[i + 1..];
    } else {
      assert s.g.ring.written + src[i..] == s.g.ring.written;
    }
  }

  /** A write that finds room for all its bytes puts them in, in order, and returns their number without anybody's help. */
  lemma WriteCompletes(s: State, p: nat, src: seq<nat>) returns (t: State)
    requires Inv(s) && s.g.lock.Free? && Enabled(s, p, Write(src))
    requires |s.g.ring.written| + |src| <= |s.g.ring.delivered| + PIPESIZE
    ensures Gets(Next(s, p, Write(src)), p, t) && p < |t.procs| && t.procs[p].pc == WriteRel(src, |src|)
    ensures t.g.ring.written == s.g.ring.written + src && t.g.ring.delivered == s.g.ring.delivered
  {
    hide Inv, Gets, RingOk, Full, Empty, MoveShared, MoveSlot, Wakes;
    var s0 := Next(s, p, Write(src));
    StepInv(s, p, Write(src));
    GetsNowhere(s0, p);
    WriteTakes(s.g, p, s.procs[p], src);
    Awake(s0, p);
    WriteTakes(s0.g, p, s0.procs[p], src);
    t := Step(s0, p, s0, WriteAcq(src, 0));
    Awake(t, p);
    t := PutAll(s0, p, t, src, 0);
    assert src[0..] == src;
  }

  lemma WriteTakes(g: Shared, p: nat, x: Slot, src: seq<nat>)
    ensures MoveShared(g, p, x, Write(src)) == g && MoveSlot(g, x, Write(src)).pc == WriteAcq(src, 0)
    ensures x.pc == WriteAcq(src, 0) ==> MoveSlot(g, x, Go).pc == WriteLoop(src, 0) && MoveShared(g, p, x, Go) == g.(lock := By(p))
  {
  }

  /**
   An open end that nobody uses or is closing can be closed, by steps of the
   closer alone when the lock is free; with the other end closed the pipe is
   freed, and nobody is left asleep waiting for the closed one.
   */
  lemma CloseCompletes(s: State, p: nat, w: bool) returns (t: State)
    requires Inv(s) && s.g.lock.Free? && p < |s.procs| && s.procs[p].pc.Idle? && Open(s.g, w)
    requires forall q :: 0 <= q < |s.procs| ==> !Uses(s.procs[q].pc, w) && !Closing(s.procs[q].pc, w)
    ensures Enabled(s, p, Close(w)) && Gets(Next(s, p, Close(w)), p, t) && p < |t.procs| && t.procs[p].pc.Idle?
    ensures t.g.ring == s.g.ring && t.g.lock.Free? && !Open(t.g, w) && Open(t.g, !w) == Open(s.g, !w)
    ensures t.g.freed <==> !Open(s.g, !w)
    ensures forall q :: 0 <= q < |t.procs| && t.procs[q].sleeping ==> if w then t.procs[q].pc.WriteAsleep? else t.procs[q].pc.ReadAsleep?
  {
    hide Inv, Gets, RingOk, Full, Empty, Wakes, MoveShared, MoveSlot, Uses, Closing;
    assert Enabled(s, p, Close(w)) && CloseBegun(s, p, w) by {
      CloseTakes(s.g, p, s.procs[p], w);
    }
    var s0 := Next(s, p, Close(w));
    StepInv(s, p, Close(w));
    GetsNowhere(s0, p);
    Awake(s0, p);
    t := CloseSteps(s0, p, w);
    NobodyWaits(t, w);
  }

  /** Nobody sleeps at one end of a pipe whose other end is closed. */
  lemma NobodyWaits(s: State, w: bool)
    requires Inv(s) && s.g.lock.Free? && !Open(s.g, w)
    ensures forall q :: 0 <= q < |s.procs| && s.procs[q].sleeping ==> if w then s.procs[q].pc.WriteAsleep? else s.procs[q].pc.ReadAsleep?
  {
    hide RingOk, EndsOk;
    forall q | 0 <= q < |s.procs| && s.procs[q].sleeping
      ensures if w then s.procs[q].pc.WriteAsleep? else s.procs[q].pc.ReadAsleep?
    {
      assert SlotOk(s.g, q, s.procs[q]) && WaitOk(s.g, HolderPc(s), s.procs[q]);
    }
  }

  ghost predicate CloseBegun(s: State, p: nat, w: bool)
    requires Enabled(s, p, Close(w))
  {
    var s0 := Next(s, p, Close(w));
    s0.g == s.g && s0.procs[p].pc == CloseAcq(w)
  }

  lemma CloseSteps(s: State, p: nat, w: bool) returns (t: State)
    requires Stands(s, p, s, CloseAcq(w)) && s.g.lock.Free?
    ensures Gets(s, p, t) && Inv(t) && p < |t.procs| && t.procs[p].pc.Idle?
    ensures t.g.ring == s.g.ring && t.g.lock.Free? && !Open(t.g, w) && Open(t.g, !w) == Open(s.g, !w)
    ensures t.g.freed <==> !Open(s.g, !w)
  {
    hide Inv, Gets, Next, Enabled, MoveShared, MoveSlot;
    CloseTakes(s.g, p, s.procs[p], w);
    t := Step(s, p, s, CloseAcq(w));
    Awake(t, p);
    CloseTakes(t.g, p, t.procs[p], w);
    t := Step(s, p, t, CloseSet(w));
    Awake(t, p);
    CloseTakes(t.g, p, t.procs[p], w);
    t := Step(s, p, t, CloseWake(w));
    Awake(t, p);
    CloseTakes(t.g, p, t.procs[p], w);
    t := Step(s, p, t, CloseRel);
  }

  /** The steps of pipeclose. */
  lemma CloseTakes(g: Shared, p: nat, x: Slot, w: bool)
    ensures MoveShared(g, p, x, Close(w)) == g && MoveSlot(g, x, Close(w)).pc == CloseAcq(w)
    ensures x.pc == CloseAcq(w) ==> MoveSlot(g, x, Go).pc == CloseSet(w) && MoveShared(g, p, x, Go) == g.(lock := By(p))
    ensures x.pc == CloseSet(w) ==>
              MoveSlot(g, x, Go).pc == CloseWake(w) && MoveShared(g, p, x, Go) == if w then g.(writeopen := false) else g.(readopen := false)
    ensures x.pc == CloseWake(w) ==> MoveSlot(g, x, Go).pc == CloseRel && MoveShared(g, p, x, Go).(missed := g.missed) == g
    ensures x.pc == CloseRel ==>
              MoveSlot(g, x, Go).pc == Idle && MoveShared(g, p, x, Go) == g.(lock := Free, freed := !g.readopen && !g.writeopen)
  {
  }
}
