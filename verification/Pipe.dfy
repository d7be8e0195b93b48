/**
 Pipes: a ring of PIPESIZE bytes between any number of readers and writers,
 with 32-bit counters that wrap.  sleep, which gives up the pipe's lock and
 goes to sleep under ptable.lock, is one step here, and so is wakeup; module
 SleepLock takes these two apart.
 */
module Pipe {
  const PIPESIZE: nat := 512
  const WRAP: nat := 0x1_0000_0000

  datatype Pc =
    | Idle
    // pipewrite, with i bytes of src in the ring
    | WriteAcq(src: seq<nat>, i: nat) | WriteLoop(src: seq<nat>, i: nat)
    | WriteSleep(src: seq<nat>, i: nat) | WriteAsleep(src: seq<nat>, i: nat)
    | WriteRel(src: seq<nat>, result: int)
    // piperead of n bytes, of which got are copied
    | ReadAcq(n: nat) | ReadWait(n: nat) | ReadAsleep(n: nat) | ReadCopy(n: nat, got: seq<nat>)
    | ReadRel(n: nat, got: seq<nat>) | ReadFail
    // pipeclose of the write or the read end
    | CloseAcq(w: bool) | CloseSet(w: bool) | CloseWake(w: bool) | CloseRel

  /** A process: where it is, its flags, and what its finished writes were to put in. */
  datatype Slot = Slot(pc: Pc, sleeping: bool, killed: bool, out: seq<nat>)

  datatype Holder = Free | By(p: nat)

  type Cells = s: seq<nat> | |s| == PIPESIZE witness seq(PIPESIZE, i => 0)

  /** The ring, with the history of all bytes put in and taken out. */
  datatype Ring = Ring(data: Cells, nread: nat, nwrite: nat, written: seq<nat>, delivered: seq<nat>)

  /**
   The pipe.  missed records that a killed writer left a full ring behind, that
   readers have not been woken since and that the ring has not been emptied
   since; writer records who wrote each byte of the history.
   */
  datatype Shared = Shared(lock: Holder, ring: Ring, readopen: bool, writeopen: bool, freed: bool, missed: bool, writer: seq<nat>)

  datatype State = State(g: Shared, procs: seq<Slot>)

  datatype Act = Write(src: seq<nat>) | Read(n: nat) | Close(w: bool) | Go | Kill

  function Full(r: Ring): (full: bool) {
    r.nwrite == (r.nread + PIPESIZE) % WRAP
  }

  function Empty(r: Ring): (empty: bool) {
    r.nread == r.nwrite
  }

  function Put(r: Ring, b: nat): (r': Ring) {
    r.(data := r.data[r.nwrite % PIPESIZE := b], nwrite := (r.nwrite + 1) % WRAP, written := r.written + [b])
  }

  function Head(r: Ring): (b: nat) {
    r.data[r.nread % PIPESIZE]
  }

  function Take(r: Ring): (r': Ring) {
    r.(nread := (r.nread + 1) % WRAP, delivered := r.delivered + [Head(r)])
  }

  // The ring is the part of the history that is written and not delivered.

  ghost predicate RingOk(r: Ring) {
    && |r.delivered| <= |r.written| <= |r.delivered| + PIPESIZE
    && r.nread == |r.delivered| % WRAP && r.nwrite == |r.written| % WRAP
    && (forall k :: 0 <= k < |r.delivered| ==> r.delivered[k] == r.written[k])
    && (forall k :: |r.delivered| <= k < |r.written| ==> r.data[k % PIPESIZE] == r.written[k])
  }

  /** Adding before or after the wrap comes to the same. */
  lemma WrapAdd(x: nat, d: nat)
    requires d <= PIPESIZE
    ensures (x % WRAP + d) % WRAP == (x + d) % WRAP
  {
    var q, r := x / WRAP, x % WRAP;
    assert x == q * WRAP + r;
    if r + d < WRAP {
      assert (x + d) / WRAP == q;
    } else {
      assert x + d == (q + 1) * WRAP + (r + d - WRAP);
      assert (x + d) / WRAP == q + 1;
    }
  }

  /** PIPESIZE divides the wrap, so a wrapped counter finds the same cell. */
  lemma WrapCell(x: nat)
    ensures (x % WRAP) % PIPESIZE == x % PIPESIZE
  {
    var q, r := x / WRAP, x % WRAP;
    assert x == (q * (WRAP / PIPESIZE)) * PIPESIZE + r;
    CellOf(q * (WRAP / PIPESIZE), r);
  }

  lemma CellOf(m: nat, r: nat)
    ensures (m * PIPESIZE + r) % PIPESIZE == r % PIPESIZE
  {
  }

  lemma NearNotEqual(r: nat, w: nat)
    requires r <= w <= r + PIPESIZE
    ensures r % WRAP == w % WRAP <==> w == r
  {
    var d := w - r;
    WrapAdd(r, d);
  }

  lemma Counters(r: nat, w: nat)
    requires r <= w <= r + PIPESIZE
    ensures (w % WRAP == (r % WRAP + PIPESIZE) % WRAP) <==> w == r + PIPESIZE
    ensures r % WRAP == w % WRAP <==> w == r
    ensures (w % WRAP) % PIPESIZE == w % PIPESIZE && (r % WRAP) % PIPESIZE == r % PIPESIZE
    ensures (w % WRAP + 1) % WRAP == (w + 1) % WRAP && (r % WRAP + 1) % WRAP == (r + 1) % WRAP
  {
    WrapAdd(r, PIPESIZE);
    WrapAdd(r, 1);
    WrapAdd(w, 1);
    WrapCell(r);
    WrapCell(w);
    NearNotEqual(r, w);
    NearNotEqual(w, r + PIPESIZE);
  }

  lemma SlotsApart(j: nat, k: nat)
    requires j < k < j + PIPESIZE
    ensures j % PIPESIZE != k % PIPESIZE
  {
  }

  lemma PutOk(r: Ring, b: nat)
    requires RingOk(r) && !Full(r)
    ensures RingOk(Put(r, b)) && !Empty(Put(r, b))
  {
    Counters(|r.delivered|, |r.written|);
    Counters(|r.delivered|, |r.written| + 1);
    forall k | |r.delivered| <= k < |r.written|
      ensures k % PIPESIZE != |r.written| % PIPESIZE
    {
      SlotsApart(k, |r.written|);
    }
  }

  lemma TakeOk(r: Ring)
    requires RingOk(r) && !Empty(r)
    ensures RingOk(Take(r)) && !Full(Take(r))
  {
    Counters(|r.delivered|, |r.written|);
    Counters(|r.delivered| + 1, |r.written|);
  }

  /** What the two tests of the code mean, whatever the counters have wrapped to. */
  lemma Tests(r: Ring)
    requires RingOk(r)
    ensures Full(r) <==> |r.written| == |r.delivered| + PIPESIZE
    ensures Empty(r) <==> |r.written| == |r.delivered|
  {
    Counters(|r.delivered|, |r.written|);
  }

  // The steps.

  datatype Chan = Nobody | Readers | Writers

  predicate HasLock(pc: Pc) {
    match pc
    case WriteLoop(_, _) => true
    case WriteSleep(_, _) => true
    case WriteRel(_, _) => true
    case ReadWait(_) => true
    case ReadCopy(_, _) => true
    case ReadRel(_, _) => true
    case ReadFail => true
    case CloseSet(_) => true
    case CloseWake(_) => true
    case CloseRel => true
    case _ => false
  }

  predicate NeedsLock(pc: Pc) {
    pc.WriteAcq? || pc.ReadAcq? || pc.CloseAcq?
  }

  /** In a call that needs the write end (w) or the read end to be open. */
  predicate Uses(pc: Pc, w: bool) {
    if w then pc.WriteAcq? || pc.WriteLoop? || pc.WriteSleep? || pc.WriteAsleep? || pc.WriteRel?
    else pc.ReadAcq? || pc.ReadWait? || pc.ReadAsleep? || pc.ReadCopy? || pc.ReadRel? || pc.ReadFail?
  }

  /** In the middle of closing that end. */
  predicate Closing(pc: Pc, w: bool) {
    (pc.CloseAcq? || pc.CloseSet?) && pc.w == w
  }

  function Open(g: Shared, w: bool): (r: bool) {
    if w then g.writeopen else g.readopen
  }

  predicate Enabled(s: State, p: nat, a: Act) {
    p < |s.procs| &&
    var x := s.procs[p];
    match a
    case Write(_) => x.pc.Idle? && Unclosed(s, true)
    case Read(_) => x.pc.Idle? && Unclosed(s, false)
    // the last descriptor of an end is closed only when nobody is in a call on it
    case Close(w) => x.pc.Idle? && Unclosed(s, w) && forall q :: 0 <= q < |s.procs| ==> !Uses(s.procs[q].pc, w)
    case Kill => true
    case Go => !x.pc.Idle? && (NeedsLock(x.pc) ==> s.g.lock.Free?) && !x.sleeping
  }

  predicate Unclosed(s: State, w: bool) {
    Open(s.g, w) && forall q :: 0 <= q < |s.procs| ==> !Closing(s.procs[q].pc, w)
  }

  function MoveSlot(g: Shared, x: Slot, a: Act): (r: Slot) {
    match a
    case Write(src) => x.(pc := WriteAcq(src, 0))
    case Read(n) => x.(pc := ReadAcq(n))
    case Close(w) => x.(pc := CloseAcq(w))
    case Kill => x.(sleeping := false, killed := true)
    case Go =>
      match x.pc
      case WriteAcq(src, i) => x.(pc := WriteLoop(src, i))
      case WriteLoop(src, i) =>
        if i >= |src| then x.(pc := WriteRel(src, |src|), out := x.out + src)
        else if !Full(g.ring) then x.(pc := WriteLoop(src, i + 1))
        else if !g.readopen || x.killed then x.(pc := WriteRel(src, -1), out := x.out + src[..i])
        else x.(pc := WriteSleep(src, i))
      case WriteSleep(src, i) => x.(pc := WriteAsleep(src, i), sleeping := true)
      case WriteAsleep(src, i) => x.(pc := WriteAcq(src, i))
      case WriteRel(_, _) => x.(pc := Idle)
      case ReadAcq(n) => x.(pc := ReadWait(n))
      case ReadWait(n) =>
        if !(Empty(g.ring) && g.writeopen) then x.(pc := ReadCopy(n, []))
        else if x.killed then x.(pc := ReadFail)
        else x.(pc := ReadAsleep(n), sleeping := true)
      case ReadAsleep(n) => x.(pc := ReadAcq(n))
      case ReadCopy(n, got) =>
        if |got| >= n || Empty(g.ring) then x.(pc := ReadRel(n, got))
        else x.(pc := ReadCopy(n, got + [Head(g.ring)]))
      case ReadRel(_, _) => x.(pc := Idle)
      case ReadFail => x.(pc := Idle)
      case CloseAcq(w) => x.(pc := CloseSet(w))
      case CloseSet(w) => x.(pc := CloseWake(w))
      case CloseWake(w) => x.(pc := CloseRel)
      case CloseRel => x.(pc := Idle)
      case Idle => x
  }

  function MoveShared(g: Shared, p: nat, x: Slot, a: Act): (r: Shared) {
    if !a.Go? then g else
      match x.pc
      case WriteAcq(_, _) => g.(lock := By(p))
      case WriteLoop(src, i) =>
        if i >= |src| then g.(missed := false)
        else if !Full(g.ring) then g.(ring := Put(g.ring, src[i]), writer := g.writer + [p])
        else g.(missed := if g.readopen then x.killed else g.missed)
      case WriteSleep(_, _) => g.(lock := Free)
      case WriteRel(_, _) => g.(lock := Free)
      case ReadAcq(_) => g.(lock := By(p))
      case ReadWait(_) => if Empty(g.ring) && g.writeopen && !x.killed then g.(lock := Free) else g
      case ReadCopy(n, got) =>
        if |got| >= n || Empty(g.ring) then g
        else g.(ring := Take(g.ring), missed := g.missed && !Empty(Take(g.ring)))
      case ReadRel(_, _) => g.(lock := Free)
      case ReadFail => g.(lock := Free)
      case CloseAcq(_) => g.(lock := By(p))
      case CloseSet(w) => if w then g.(writeopen := false) else g.(readopen := false)
      case CloseWake(w) => if w then g.(missed := false) else g
      case CloseRel => g.(lock := Free, freed := !g.readopen && !g.writeopen)
      case _ => g
  }

  /** Whom the step wakes. */
  function Wakes(g: Shared, x: Slot, a: Act): (c: Chan) {
    if !a.Go? then Nobody else
      match x.pc
      case WriteLoop(src, i) => if i >= |src| || (Full(g.ring) && g.readopen && !x.killed) then Readers else Nobody
      case ReadCopy(n, got) => if |got| >= n || Empty(g.ring) then Writers else Nobody
      case CloseWake(w) => if w then Readers else Writers
      case _ => Nobody
  }

  function Wake(y: Slot, c: Chan): (r: Slot) {
    if (c.Readers? && y.pc.ReadAsleep?) || (c.Writers? && y.pc.WriteAsleep?) then y.(sleeping := false) else y
  }

  function Next(s: State, p: nat, a: Act): (r: State)
    requires Enabled(s, p, a)
  {
    var x, c := s.procs[p], Wakes(s.g, s.procs[p], a);
    State(MoveShared(s.g, p, x, a),
          seq(|s.procs|, q requires 0 <= q < |s.procs| => if q == p then MoveSlot(s.g, x, a) else Wake(s.procs[q], c)))
  }

  ghost predicate Init(s: State) {
    && s.g.lock.Free? && s.g.ring == Ring(s.g.ring.data, 0, 0, [], []) && s.g.writer == []
    && s.g.readopen && s.g.writeopen && !s.g.freed && !s.g.missed
    && forall p :: 0 <= p < |s.procs| ==> s.procs[p].pc.Idle? && !s.procs[p].sleeping && s.procs[p].out == []
  }

  // The invariant.

  /** got is what was delivered last. */
  predicate Suffix(all: seq<nat>, got: seq<nat>) {
    |got| <= |all| && all[|all| - |got|..] == got
  }

  predicate SlotOk(g: Shared, p: nat, x: Slot) {
    (HasLock(x.pc) <==> g.lock == By(p)) && OpenOk(g, x.pc) && PlaceOk(g, x)
  }

  /** An end in use is open, and the pipe of a process in a call is not freed. */
  predicate OpenOk(g: Shared, pc: Pc) {
    && (Uses(pc, true) || Closing(pc, true) ==> g.writeopen)
    && (Uses(pc, false) || Closing(pc, false) ==> g.readopen)
    && (pc.CloseWake? ==> !Open(g, pc.w))
    && (!pc.Idle? ==> !g.freed)
  }

  predicate PlaceOk(g: Shared, x: Slot) {
    && (x.sleeping ==> x.pc.WriteAsleep? || x.pc.ReadAsleep?)
    && (x.pc.WriteSleep? ==> Full(g.ring) && g.readopen)
    && (x.pc.ReadCopy? || x.pc.ReadRel? ==> Suffix(g.ring.delivered, x.pc.got))
    && ReturnOk(g, x)
  }

  /** What a call that is about to return has seen. */
  predicate ReturnOk(g: Shared, x: Slot) {
    match x.pc
    case ReadCopy(n, got) => |got| <= n && (got == [] ==> !Empty(g.ring) || !g.writeopen)
    case ReadRel(n, got) => |got| <= n && (|got| == n || Empty(g.ring)) && (got == [] && n > 0 ==> Empty(g.ring) && !g.writeopen)
    case ReadFail => x.killed && Empty(g.ring) && g.writeopen
    case WriteRel(src, r) => r == |src| || (r == -1 && Full(g.ring) && (!g.readopen || x.killed))
    case _ => true
  }

  /** y may go on sleeping: its condition holds, or the holder of the lock (at pc) is going to wake it. */
  predicate WaitOk(g: Shared, pc: Pc, y: Slot) {
    && (y.sleeping && y.pc.WriteAsleep? ==> (Full(g.ring) && g.readopen) || pc.ReadCopy? || pc == CloseWake(false))
    && (y.sleeping && y.pc.ReadAsleep? ==> (g.writeopen && (Empty(g.ring) || pc.WriteLoop? || g.missed)) || pc == CloseWake(true))
  }

  function HolderPc(s: State): (pc: Pc) {
    if s.g.lock.By? && s.g.lock.p < |s.procs| then s.procs[s.g.lock.p].pc else Idle
  }

  ghost predicate EndsOk(s: State) {
    forall p, q, w :: 0 <= p < |s.procs| && 0 <= q < |s.procs| && p != q && Closing(s.procs[p].pc, w) ==>
      !Uses(s.procs[q].pc, w) && !Closing(s.procs[q].pc, w)
  }

  ghost predicate Inv(s: State) {
    && RingOk(s.g.ring)
    && (s.g.lock.By? ==> s.g.lock.p < |s.procs|) && (s.g.freed ==> !s.g.readopen && !s.g.writeopen)
    && (s.g.missed ==> !Empty(s.g.ring))
    && EndsOk(s)
    && (forall p :: 0 <= p < |s.procs| ==> SlotOk(s.g, p, s.procs[p]))
    && (forall p :: 0 <= p < |s.procs| ==> WaitOk(s.g, HolderPc(s), s.procs[p]))
  }

  lemma InitInv(s: State)
    requires Init(s)
    ensures Inv(s)
  {
  }

  // One step.

  lemma MoveRing(g: Shared, p: nat, x: Slot, a: Act)
    requires RingOk(g.ring)
    ensures RingOk(MoveShared(g, p, x, a).ring)
  {
    hide RingOk, Full, Empty, Put, Take;
    if a.Go? && x.pc.WriteLoop? && x.pc.i < |x.pc.src| && !Full(g.ring) {
      PutOk(g.ring, x.pc.src[x.pc.i]);
    } else if a.Go? && x.pc.ReadCopy? && !Empty(g.ring) {
      TakeOk(g.ring);
    }
  }

  /** Bytes that no wakeup has announced are still in the ring. */
  lemma MoveMissed(g: Shared, p: nat, x: Slot, a: Act)
    requires RingOk(g.ring) && (g.missed ==> !Empty(g.ring))
    ensures var g' := MoveShared(g, p, x, a); g'.missed ==> !Empty(g'.ring)
  {
    hide RingOk, Full, Empty, Put, Take;
    if a.Go? && x.pc.WriteLoop? && x.pc.i < |x.pc.src| {
      Tests(g.ring);
      if !Full(g.ring) {
        PutOk(g.ring, x.pc.src[x.pc.i]);
      }
    }
  }

  /** The step is open to a process at x, as far as the pipe's own fields say. */
  predicate CanMove(g: Shared, x: Slot, a: Act) {
    && (a.Go? ==> !x.pc.Idle? && !x.sleeping && (NeedsLock(x.pc) ==> g.lock.Free?))
    && (!a.Go? && !a.Kill? ==> x.pc.Idle?)
    && (a.Write? ==> g.writeopen) && (a.Read? ==> g.readopen) && (a.Close? ==> Open(g, a.w))
    && (g.freed ==> !g.readopen && !g.writeopen)
  }

  lemma MoveHeld(g: Shared, p: nat, x: Slot, a: Act)
    requires SlotOk(g, p, x) && CanMove(g, x, a)
    ensures HasLock(MoveSlot(g, x, a).pc) <==> MoveShared(g, p, x, a).lock == By(p)
  {
    hide Full, Empty, Put, Take, OpenOk, PlaceOk, Head;
    if a.Go? {
      hide MoveSlot, MoveShared;
      if Uses(x.pc, true) {
        WriteHeld(g, p, x);
      } else if Uses(x.pc, false) {
        ReadHeld(g, p, x);
      } else {
        CloseHeld(g, p, x);
      }
    }
  }

  ghost predicate Held(g: Shared, p: nat, pc: Pc) {
    HasLock(pc) <==> g.lock == By(p)
  }

  lemma WriteHeld(g: Shared, p: nat, x: Slot)
    requires Held(g, p, x.pc) && Uses(x.pc, true) && (NeedsLock(x.pc) ==> g.lock.Free?)
    ensures Held(MoveShared(g, p, x, Go), p, MoveSlot(g, x, Go).pc)
  {
    hide Full, Empty, Put, Take, Head;
  }

  lemma ReadHeld(g: Shared, p: nat, x: Slot)
    requires Held(g, p, x.pc) && Uses(x.pc, false) && (NeedsLock(x.pc) ==> g.lock.Free?)
    ensures Held(MoveShared(g, p, x, Go), p, MoveSlot(g, x, Go).pc)
  {
    hide Full, Empty, Put, Take, Head;
  }

  lemma CloseHeld(g: Shared, p: nat, x: Slot)
    requires Held(g, p, x.pc) && !Uses(x.pc, true) && !Uses(x.pc, false) && !x.pc.Idle? && (NeedsLock(x.pc) ==> g.lock.Free?)
    ensures Held(MoveShared(g, p, x, Go), p, MoveSlot(g, x, Go).pc)
  {
    hide Full, Empty, Put, Take, Head;
  }

  lemma MoveOpen(g: Shared, p: nat, x: Slot, a: Act)
    requires SlotOk(g, p, x) && CanMove(g, x, a)
    ensures OpenOk(MoveShared(g, p, x, a), MoveSlot(g, x, a).pc)
  {
    hide Full, Empty, Put, Take, HasLock, PlaceOk, Head;
  }

  lemma MovePlace(g: Shared, p: nat, x: Slot, a: Act)
    requires SlotOk(g, p, x) && CanMove(g, x, a)
    ensures PlaceOk(MoveShared(g, p, x, a), MoveSlot(g, x, a))
  {
    hide Full, Empty, Put, HasLock, OpenOk, Head, Suffix;
    if a.Go? && x.pc.ReadCopy? {
      SuffixMore(g.ring.delivered, x.pc.got, Head(g.ring));
    } else if a.Go? && x.pc.ReadWait? {
      SuffixNone(g.ring.delivered);
    }
  }

  lemma SuffixNone(all: seq<nat>)
    ensures Suffix(all, [])
  {
  }

  lemma SuffixMore(all: seq<nat>, got: seq<nat>, b: nat)
    requires Suffix(all, got)
    ensures Suffix(all + [b], got + [b])
  {
  }

  lemma MoveSelf(g: Shared, p: nat, x: Slot, a: Act)
    requires SlotOk(g, p, x) && CanMove(g, x, a)
    ensures SlotOk(MoveShared(g, p, x, a), p, MoveSlot(g, x, a))
  {
    hide HasLock, OpenOk, PlaceOk, MoveSlot, MoveShared, CanMove;
    MoveHeld(g, p, x, a);
    MoveOpen(g, p, x, a);
    MovePlace(g, p, x, a);
  }

  lemma MoveOther(g: Shared, p: nat, x: Slot, a: Act, q: nat, y: Slot)
    requires SlotOk(g, p, x) && SlotOk(g, q, y) && p != q && CanMove(g, x, a)
    requires forall w :: Closing(x.pc, w) ==> !Uses(y.pc, w) && !Closing(y.pc, w)
    ensures SlotOk(MoveShared(g, p, x, a), q, y)
  {
    hide Full, Empty, Put, Head, Take;
  }

  lemma WakeKeeps(g: Shared, q: nat, y: Slot, c: Chan)
    requires SlotOk(g, q, y)
    ensures SlotOk(g, q, Wake(y, c)) && Wake(y, c).pc == y.pc
  {
  }

  /** A sleeper that this step does not wake may sleep on, given who holds the lock after the step. */
  lemma MoveWait(g: Shared, p: nat, x: Slot, a: Act, q: nat, y: Slot, pc: Pc)
    requires SlotOk(g, p, x) && SlotOk(g, q, y) && p != q && CanMove(g, x, a) && WaitOk(g, pc, y)
    requires pc == if g.lock == By(p) then x.pc else if g.lock.Free? then Idle else pc
    ensures var g', x' := MoveShared(g, p, x, a), MoveSlot(g, x, a);
            WaitOk(g', if g'.lock == By(p) then x'.pc else if g'.lock.Free? then Idle else pc, Wake(y, Wakes(g, x, a)))
  {
    hide Put, Take, Head, Suffix;
  }

  lemma MoveAsleep(g: Shared, p: nat, x: Slot, a: Act, pc: Pc)
    requires SlotOk(g, p, x) && CanMove(g, x, a) && WaitOk(g, pc, x)
    requires pc == if g.lock == By(p) then x.pc else if g.lock.Free? then Idle else pc
    ensures var g', x' := MoveShared(g, p, x, a), MoveSlot(g, x, a);
            WaitOk(g', if g'.lock == By(p) then x'.pc else if g'.lock.Free? then Idle else pc, x')
  {
    hide Put, Take, Head, Suffix;
  }

  lemma StepCan(s: State, p: nat, a: Act)
    requires Inv(s) && Enabled(s, p, a)
    ensures CanMove(s.g, s.procs[p], a) && SlotOk(s.g, p, s.procs[p])
  {
    hide SlotOk, WaitOk, RingOk;
  }

  lemma StepShared(s: State, p: nat, a: Act)
    requires Inv(s) && Enabled(s, p, a)
    ensures var g := Next(s, p, a).g;
            && RingOk(g.ring) && (g.lock.By? ==> g.lock.p < |s.procs|)
            && (g.freed ==> !g.readopen && !g.writeopen) && (g.missed ==> !Empty(g.ring))
    ensures Next(s, p, a).g.lock in {s.g.lock, Free, By(p)}
  {
    hide RingOk, WaitOk, Full, Empty, Put, Take, EndsOk;
    MoveRing(s.g, p, s.procs[p], a);
    MoveMissed(s.g, p, s.procs[p], a);
    StepCan(s, p, a);
  }

  lemma StepSlot(s: State, p: nat, a: Act, q: nat)
    requires Inv(s) && Enabled(s, p, a) && q < |s.procs|
    ensures SlotOk(Next(s, p, a).g, q, Next(s, p, a).procs[q])
  {
    hide RingOk, WaitOk, SlotOk, MoveSlot, MoveShared, Wake, Wakes, CanMove, Closing, Uses;
    StepCan(s, p, a);
    if p == q {
      MoveSelf(s.g, p, s.procs[p], a);
    } else {
      var y, c := s.procs[q], Wakes(s.g, s.procs[p], a);
      assert SlotOk(s.g, q, y);
      WakeKeeps(s.g, q, y, c);
      assert forall w :: Closing(s.procs[p].pc, w) ==> !Uses(y.pc, w) && !Closing(y.pc, w);
      MoveOther(s.g, p, s.procs[p], a, q, Wake(y, c));
    }
  }

  lemma StepEnds(s: State, p: nat, a: Act)
    requires Inv(s) && Enabled(s, p, a)
    ensures EndsOk(Next(s, p, a))
  {
    hide RingOk, WaitOk, MoveShared, SlotOk, Full, Empty;
    var s' := Next(s, p, a);
    forall q, r, w | 0 <= q < |s'.procs| && 0 <= r < |s'.procs| && q != r && Closing(s'.procs[q].pc, w)
      ensures !Uses(s'.procs[r].pc, w) && !Closing(s'.procs[r].pc, w)
    {
      EndsPair(s, p, a, q, r, w);
    }
  }

  lemma EndsPair(s: State, p: nat, a: Act, q: nat, r: nat, w: bool)
    requires EndsOk(s) && Enabled(s, p, a) && q < |s.procs| && r < |s.procs| && q != r && Closing(Next(s, p, a).procs[q].pc, w)
    ensures !Uses(Next(s, p, a).procs[r].pc, w) && !Closing(Next(s, p, a).procs[r].pc, w)
  {
    hide MoveShared, Full, Empty, Wakes, Head;
    MoveEnds(s.g, s.procs[p], a, w);
  }

  /** A call on an end, or its closing, is only entered by the calls that say so. */
  lemma MoveEnds(g: Shared, x: Slot, a: Act, w: bool)
    ensures var pc := MoveSlot(g, x, a).pc;
            && (Closing(pc, w) ==> Closing(x.pc, w) || a == Close(w))
            && (Uses(pc, w) ==> Uses(x.pc, w) || (if w then a.Write? else a.Read?))
  {
    hide Full, Empty, Head;
  }

  lemma StepWait(s: State, p: nat, a: Act, q: nat)
    requires Inv(s) && Enabled(s, p, a) && q < |s.procs|
    ensures var s' := Next(s, p, a); WaitOk(s'.g, HolderPc(s'), s'.procs[q])
  {
    hide RingOk, WaitOk, SlotOk, MoveSlot, MoveShared, Wake, Wakes, CanMove, Closing, Uses, EndsOk;
    StepCan(s, p, a);
    StepShared(s, p, a);
    var s' := Next(s, p, a);
    assert SlotOk(s.g, q, s.procs[q]) && WaitOk(s.g, HolderPc(s), s.procs[q]);
    if s'.g.lock.By? && s'.g.lock.p != p {
      var h := s'.g.lock.p;
      assert SlotOk(s.g, h, s.procs[h]);
      WakeKeeps(s.g, h, s.procs[h], Wakes(s.g, s.procs[p], a));
    }
    if p == q {
      MoveAsleep(s.g, p, s.procs[p], a, HolderPc(s));
    } else {
      MoveWait(s.g, p, s.procs[p], a, q, s.procs[q], HolderPc(s));
    }
  }

  lemma StepInv(s: State, p: nat, a: Act)
    requires Inv(s) && Enabled(s, p, a)
    ensures Inv(Next(s, p, a))
  {
    hide RingOk, WaitOk, SlotOk, EndsOk, HolderPc, MoveShared, MoveSlot, Enabled;
    var s' := Next(s, p, a);
    StepShared(s, p, a);
    StepEnds(s, p, a);
    forall q | 0 <= q < |s'.procs|
      ensures SlotOk(s'.g, q, s'.procs[q]) && WaitOk(s'.g, HolderPc(s'), s'.procs[q])
    {
      StepSlot(s, p, a, q);
      StepWait(s, p, a, q);
    }
  }

  // Whole runs.

  ghost predicate StepTo(s: State, s': State) {
    exists p: nat, a :: Enabled(s, p, a) && s' == Next(s, p, a)
  }

  ghost predicate IsRun(ss: seq<State>) {
    ss != [] && Init(ss[0]) && forall k :: 0 <= k < |ss| - 1 ==> StepTo(ss[k], ss[k + 1])
  }

  lemma {:induction false} RunInv(ss: seq<State>, k: nat)
    requires IsRun(ss) && k < |ss|
    ensures Inv(ss[k])
  {
    hide Inv, Init, Next, Enabled;
    if k == 0 {
      InitInv(ss[0]);
    } else {
      RunInv(ss, k - 1);
      assert StepTo(ss[k - 1], ss[k - 1 + 1]);
      var p: nat, a :| Enabled(ss[k - 1], p, a) && ss[k] == Next(ss[k - 1], p, a);
      StepInv(ss[k - 1], p, a);
    }
  }

  /** The bytes still in the ring, oldest first. */
  function Buffered(r: Ring): (s: seq<nat>) {
    var n := if |r.delivered| <= |r.written| then |r.written| - |r.delivered| else 0;
    seq(n, k requires 0 <= k => r.data[(|r.delivered| + k) % PIPESIZE])
  }

  /** First in, first out: what was read, then what is in the ring, is what was written. */
  lemma Fifo(ss: seq<State>, k: nat)
    requires IsRun(ss) && k < |ss|
    ensures var r := ss[k].g.ring; r.delivered + Buffered(r) == r.written && |Buffered(r)| <= PIPESIZE
  {
    hide IsRun, SlotOk, WaitOk, EndsOk;
    RunInv(ss, k);
    var r := ss[k].g.ring;
    assert |Buffered(r)| == |r.written| - |r.delivered|;
    forall j | |r.delivered| <= j < |r.written|
      ensures (r.delivered + Buffered(r))[j] == r.written[j]
    {
      assert Buffered(r)[j - |r.delivered|] == r.data[j % PIPESIZE];
    }
  }

  /** A read returns consecutive bytes of the stream, the ones delivered last. */
  lemma ReadIsStream(ss: seq<State>, k: nat, p: nat)
    requires IsRun(ss) && k < |ss| && p < |ss[k].procs| && ss[k].procs[p].pc.ReadRel?
    ensures var r, got := ss[k].g.ring, ss[k].procs[p].pc.got;
            |got| <= |r.delivered| <= |r.written| && got == r.written[|r.delivered| - |got|..|r.delivered|]
  {
    hide IsRun, WaitOk, EndsOk;
    RunInv(ss, k);
    assert SlotOk(ss[k].g, p, ss[k].procs[p]);
    var r := ss[k].g.ring;
    assert r.delivered == r.written[..|r.delivered|];
  }

  /** With the lock free, a writer sleeps only on a full pipe that can still be read. */
  lemma SleepingWriter(ss: seq<State>, k: nat, p: nat)
    requires IsRun(ss) && k < |ss| && p < |ss[k].procs| && ss[k].g.lock.Free?
    requires ss[k].procs[p].sleeping && ss[k].procs[p].pc.WriteAsleep?
    ensures |ss[k].g.ring.written| == |ss[k].g.ring.delivered| + PIPESIZE && ss[k].g.readopen
  {
    hide IsRun, SlotOk, EndsOk, RingOk;
    RunInv(ss, k);
    Tests(ss[k].g.ring);
    assert WaitOk(ss[k].g, HolderPc(ss[k]), ss[k].procs[p]);
  }

  /**
   With the lock free and a reader asleep, the pipe is empty and can still be
   written, if and only if no killed writer has left bytes behind that no wakeup
   has announced since.
   */
  lemma SleepingReader(ss: seq<State>, k: nat, p: nat)
    requires IsRun(ss) && k < |ss| && p < |ss[k].procs| && ss[k].g.lock.Free?
    requires ss[k].procs[p].sleeping && ss[k].procs[p].pc.ReadAsleep?
    ensures (|ss[k].g.ring.written| == |ss[k].g.ring.delivered| && ss[k].g.writeopen) <==> !ss[k].g.missed
  {
    hide IsRun, SlotOk, EndsOk, RingOk;
    RunInv(ss, k);
    Tests(ss[k].g.ring);
    assert WaitOk(ss[k].g, HolderPc(ss[k]), ss[k].procs[p]);
  }

  /** Process p, killed, is at the loop of pipewrite in front of a full pipe that can be read. */
  predicate GivesUp(s: State, p: nat, a: Act) {
    && p < |s.procs| && a.Go? && s.procs[p].killed && s.g.readopen && Full(s.g.ring)
    && s.procs[p].pc.WriteLoop? && s.procs[p].pc.i < |s.procs[p].pc.src|
  }

  /** What the flag missed means: a killed writer gave up, and no step since has woken readers or emptied the ring. */
  lemma MissedExactly(s: State, p: nat, a: Act)
    requires Inv(s) && Enabled(s, p, a)
    ensures var s' := Next(s, p, a);
            s'.g.missed <==> GivesUp(s, p, a) || (s.g.missed && !Wakes(s.g, s.procs[p], a).Readers? && !Empty(s'.g.ring))
  {
    hide RingOk, EndsOk, SlotOk, WaitOk, Full, Put, Take, Empty, Head;
    StepShared(s, p, a);
  }

  /** No process is killed while it writes to the pipe. */
  ghost predicate WritersLive(s: State) {
    forall p :: 0 <= p < |s.procs| && s.procs[p].pc.WriteLoop? ==> !s.procs[p].killed
  }

  /** In a run without killed writers a reader sleeps, with the lock free, only on an empty pipe that can be written. */
  lemma {:induction false} LiveWritersWake(ss: seq<State>, k: nat)
    requires IsRun(ss) && k < |ss| && forall j :: 0 <= j < k ==> WritersLive(ss[j])
    ensures !ss[k].g.missed
    ensures forall p :: 0 <= p < |ss[k].procs| && ss[k].g.lock.Free? && ss[k].procs[p].sleeping && ss[k].procs[p].pc.ReadAsleep? ==>
              |ss[k].g.ring.written| == |ss[k].g.ring.delivered| && ss[k].g.writeopen
    decreases k
  {
    hide Next, Enabled, Inv;
    if k > 0 {
      LiveWritersWake(ss, k - 1);
      assert WritersLive(ss[k - 1]);
      assert StepTo(ss[k - 1], ss[k - 1 + 1]);
      var p: nat, a :| Enabled(ss[k - 1], p, a) && ss[k] == Next(ss[k - 1], p, a);
      RunInv(ss, k - 1);
      MissedExactly(ss[k - 1], p, a);
    }
    forall p | 0 <= p < |ss[k].procs| && ss[k].g.lock.Free? && ss[k].procs[p].sleeping && ss[k].procs[p].pc.ReadAsleep?
      ensures |ss[k].g.ring.written| == |ss[k].g.ring.delivered| && ss[k].g.writeopen
    {
      SleepingReader(ss, k, p);
    }
  }

  /** A freed pipe is in nobody's hands. */
  lemma FreedUnused(ss: seq<State>, k: nat, p: nat)
    requires IsRun(ss) && k < |ss| && p < |ss[k].procs| && ss[k].g.freed
    ensures ss[k].procs[p].pc.Idle? && !ss[k].g.readopen && !ss[k].g.writeopen
  {
    hide IsRun, WaitOk, EndsOk, RingOk;
    RunInv(ss, k);
    assert SlotOk(ss[k].g, p, ss[k].procs[p]);
  }

  // Who wrote what.

  /** The bytes of the history that process p wrote. */
  function Sent(written: seq<nat>, writer: seq<nat>, p: nat): (s: seq<nat>)
    requires |writer| == |written|
  {
    if written == [] then [] else
      var k := |written| - 1;
      Sent(written[..k], writer[..k], p) + if writer[k] == p then [written[k]] else []
  }

  lemma SentMore(written: seq<nat>, writer: seq<nat>, p: nat, b: nat, q: nat)
    requires |writer| == |written|
    ensures Sent(written + [b], writer + [q], p) == Sent(written, writer, p) + if q == p then [b] else []
  {
    assert (written + [b])[..|written|] == written && (writer + [q])[..|written|] == writer;
  }

  /** What the write call in progress has put in so far. */
  function Progress(pc: Pc): (s: seq<nat>) {
    match pc
    case WriteAcq(src, i) => if i <= |src| then src[..i] else src
    case WriteLoop(src, i) => if i <= |src| then src[..i] else src
    case WriteSleep(src, i) => if i <= |src| then src[..i] else src
    case WriteAsleep(src, i) => if i <= |src| then src[..i] else src
    case _ => []
  }

  ghost predicate SentOk(s: State) {
    && |s.g.writer| == |s.g.ring.written|
    && forall p :: 0 <= p < |s.procs| ==>
         Sent(s.g.ring.written, s.g.writer, p) == s.procs[p].out + Progress(s.procs[p].pc) && Inside(s.procs[p].pc)
  }

  predicate Inside(pc: Pc) {
    pc.WriteAcq? || pc.WriteLoop? || pc.WriteSleep? || pc.WriteAsleep? ==> pc.i <= |pc.src|
  }

  ghost predicate SentStep(g: Shared, p: nat, x: Slot, a: Act) {
    var x', g' := MoveSlot(g, x, a), MoveShared(g, p, x, a);
    && Inside(x'.pc)
    && if a.Go? && x.pc.WriteLoop? && x.pc.i < |x.pc.src| && !Full(g.ring)
       then && g'.ring.written == g.ring.written + [x.pc.src[x.pc.i]] && g'.writer == g.writer + [p]
            && x'.out + Progress(x'.pc) == (x.out + Progress(x.pc)) + [x.pc.src[x.pc.i]]
       else g'.ring.written == g.ring.written && g'.writer == g.writer && x'.out + Progress(x'.pc) == x.out + Progress(x.pc)
  }

  lemma LoopSent(g: Shared, p: nat, x: Slot)
    requires Inside(x.pc) && x.pc.WriteLoop?
    ensures SentStep(g, p, x, Go)
  {
    hide Full, Empty, Head;
    var src, i := x.pc.src, x.pc.i;
    if i < |src| {
      assert src[..i + 1] == src[..i] + [src[i]];
      assert x.out + (src[..i] + [src[i]]) == (x.out + src[..i]) + [src[i]];
    } else {
      assert src[..i] == src;
    }
    assert (x.out + src[..i]) + [] == x.out + src[..i];
  }

  lemma OtherSent(g: Shared, p: nat, x: Slot, a: Act)
    requires Inside(x.pc) && (!a.Go? && !a.Kill? ==> x.pc.Idle?) && !(a.Go? && x.pc.WriteLoop?)
    ensures SentStep(g, p, x, a)
  {
    hide Full, Empty, Head, Put;
    if a.Go? {
      OtherPlaces(g, x);
    }
  }

  lemma OtherPlaces(g: Shared, x: Slot)
    requires Inside(x.pc) && !x.pc.WriteLoop?
    ensures var x' := MoveSlot(g, x, Go); Inside(x'.pc) && x'.out == x.out && Progress(x'.pc) == Progress(x.pc)
  {
    hide Full, Empty, Head;
  }

  /** A step that puts no byte in leaves what its process has sent, and a step that does adds that byte. */
  lemma MoveSent(g: Shared, p: nat, x: Slot, a: Act)
    requires Inside(x.pc) && (!a.Go? && !a.Kill? ==> x.pc.Idle?)
    ensures SentStep(g, p, x, a)
  {
    hide SentStep;
    if a.Go? && x.pc.WriteLoop? {
      LoopSent(g, p, x);
    } else {
      OtherSent(g, p, x, a);
    }
  }

  lemma StepSent(s: State, p: nat, a: Act)
    requires SentOk(s) && Enabled(s, p, a)
    ensures SentOk(Next(s, p, a))
  {
    hide MoveSlot, MoveShared, Full, Progress, Sent, Inside;
    var s', x := Next(s, p, a), s.procs[p];
    var g, g' := s.g, s'.g;
    MoveSent(g, p, x, a);
    forall q | 0 <= q < |s.procs|
      ensures Sent(g'.ring.written, g'.writer, q) == s'.procs[q].out + Progress(s'.procs[q].pc) && Inside(s'.procs[q].pc)
    {
      assert s'.procs[q].pc == if q == p then MoveSlot(g, x, a).pc else s.procs[q].pc;
      if g'.writer != g.writer {
        SentMore(g.ring.written, g.writer, q, x.pc.src[x.pc.i], p);
        assert q != p ==> Sent(g.ring.written, g.writer, q) + [] == Sent(g.ring.written, g.writer, q);
      }
    }
  }

  lemma {:induction false} RunSent(ss: seq<State>, k: nat)
    requires IsRun(ss) && k < |ss|
    ensures SentOk(ss[k])
  {
    hide SentOk, Next, Enabled;
    if k == 0 {
      StartSent(ss[0]);
    } else {
      RunSent(ss, k - 1);
      assert StepTo(ss[k - 1], ss[k - 1 + 1]);
      var p: nat, a :| Enabled(ss[k - 1], p, a) && ss[k] == Next(ss[k - 1], p, a);
      StepSent(ss[k - 1], p, a);
    }
  }

  lemma StartSent(s: State)
    requires Init(s)
    ensures SentOk(s)
  {
  }

  /** What each process has put into the stream is what its writes were to put in, in order: all of a finished one. */
  lemma WritesInOrder(ss: seq<State>, k: nat, p: nat)
    requires IsRun(ss) && k < |ss| && p < |ss[k].procs|
    ensures |ss[k].g.writer| == |ss[k].g.ring.written|
    ensures Sent(ss[k].g.ring.written, ss[k].g.writer, p) == ss[k].procs[p].out + Progress(ss[k].procs[p].pc)
  {
    hide IsRun, Sent, Progress;
    RunSent(ss, k);
  }

  // The killed writer.

  ghost predicate Reachable(s: State) {
    exists ss :: IsRun(ss) && ss[|ss| - 1] == s
  }

  lemma ReachNext(s: State, p: nat, a: Act)
    requires Reachable(s) && Enabled(s, p, a)
    ensures Reachable(Next(s, p, a))
  {
    hide Next, Enabled, Init;
    var ss :| IsRun(ss) && ss[|ss| - 1] == s;
    var s' := Next(s, p, a);
    var tt := ss + [s'];
    forall k | 0 <= k < |tt| - 1
      ensures StepTo(tt[k], tt[k + 1])
    {
      if k < |ss| - 1 {
        assert StepTo(ss[k], ss[k + 1]);
      } else {
        assert Enabled(s, p, a) && s' == Next(s, p, a);
      }
    }
    assert IsRun(tt);
  }

  function Bytes(n: nat): (s: seq<nat>) {
    seq(n, i => 0)
  }

  /** A reader asleep on the empty pipe, and a killed writer with k bytes of its 513 in the ring. */
  ghost predicate Filling(s: State, k: nat) {
    && Reachable(s) && Inv(s)
    && s.procs == [Slot(ReadAsleep(1), true, false, []), Slot(WriteLoop(Bytes(513), k), false, true, [])]
    && s.g.lock == By(1) && s.g.readopen && !s.g.freed && |s.g.ring.delivered| == 0 && |s.g.ring.written| == k
  }

  /** Two processes at these places. */
  ghost predicate Pair(s: State, x: Slot, y: Slot) {
    Reachable(s) && Inv(s) && s.procs == [x, y]
  }

  lemma ReaderSleeps() returns (s: State)
    ensures Pair(s, Slot(ReadAsleep(1), true, false, []), Slot(Idle, false, false, []))
    ensures s.g == Shared(Free, Ring(Bytes(PIPESIZE), 0, 0, [], []), true, true, false, false, [])
  {
    hide Inv, Reachable;
    var idle, ring := Slot(Idle, false, false, []), Ring(Bytes(PIPESIZE), 0, 0, [], []);
    s := State(Shared(Free, ring, true, true, false, false, []), [idle, idle]);
    StartReachable(s);
    InitInv(s);
    s := Go1(s, 0, Read(1));
    assert Pair(s, Slot(ReadAcq(1), false, false, []), Slot(Idle, false, false, []));
    s := Go1(s, 0, Go);
    assert Pair(s, Slot(ReadWait(1), false, false, []), Slot(Idle, false, false, []));
    s := Go1(s, 0, Go);
    assert Pair(s, Slot(ReadAsleep(1), true, false, []), Slot(Idle, false, false, []));
  }

  lemma StartReachable(s: State)
    requires Init(s)
    ensures Reachable(s)
  {
    assert IsRun([s]) && [s][|[s]| - 1] == s;
  }

  lemma WriterStarts() returns (s: State)
    ensures Filling(s, 0)
  {
    hide Inv, Reachable;
    s := ReaderSleeps();
    s := Go1(s, 1, Write(Bytes(513)));
    assert Pair(s, Slot(ReadAsleep(1), true, false, []), Slot(WriteAcq(Bytes(513), 0), false, false, []));
    s := Go1(s, 1, Kill);
    assert Pair(s, Slot(ReadAsleep(1), true, false, []), Slot(WriteAcq(Bytes(513), 0), false, true, []));
    s := Go1(s, 1, Go);
    assert Pair(s, Slot(ReadAsleep(1), true, false, []), Slot(WriteLoop(Bytes(513), 0), false, true, []));
  }

  lemma Go1(s: State, p: nat, a: Act) returns (s': State)
    requires Reachable(s) && Inv(s) && Enabled(s, p, a)
    ensures s' == Next(s, p, a) && Reachable(s') && Inv(s')
  {
    hide Next, Inv, Enabled;
    s' := Next(s, p, a);
    ReachNext(s, p, a);
    StepInv(s, p, a);
  }

  lemma {:induction false} Fill(k: nat) returns (s: State)
    requires k <= PIPESIZE
    ensures Filling(s, k)
  {
    hide Filling;
    if k == 0 {
      s := WriterStarts();
    } else {
      s := Fill(k - 1);
      s := FillOne(s, k - 1);
    }
  }

  lemma FillOne(s: State, k: nat) returns (s': State)
    requires Filling(s, k) && k < PIPESIZE
    ensures Filling(s', k + 1)
  {
    hide Reachable, Inv;
    assert RingOk(s.g.ring) by { RingOf(s); }
    Tests(s.g.ring);
    s' := Go1(s, 1, Go);
    assert s'.procs == [Slot(ReadAsleep(1), true, false, []), Slot(WriteLoop(Bytes(513), k + 1), false, true, [])];
  }

  lemma RingOf(s: State)
    requires Inv(s)
    ensures RingOk(s.g.ring)
  {
  }

  /** A run in which nobody holds the lock, the pipe is full, and the reader sleeps. */
  lemma KilledWriter() returns (s: State)
    ensures Reachable(s) && s.g.lock.Free? && s.g.missed && Full(s.g.ring)
    ensures s.procs == [Slot(ReadAsleep(1), true, false, []), Slot(Idle, false, true, Bytes(PIPESIZE))]
  {
    hide Reachable, Inv;
    s := Fill(PIPESIZE);
    assert RingOk(s.g.ring) by { RingOf(s); }
    Tests(s.g.ring);
    s := Go1(s, 1, Go);
    s := Go1(s, 1, Go);
    assert [] + Bytes(513)[..PIPESIZE] == Bytes(PIPESIZE);
    assert s.procs == [Slot(ReadAsleep(1), true, false, []), Slot(Idle, false, true, Bytes(PIPESIZE))];
  }
}
