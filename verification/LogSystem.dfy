/**
 The logging system as a concurrent machine: any number of processes run file
 system operations between begin_op and end_op, share the buffer cache, and the
 last end_op commits.  Every step below is one lock-protected action or one
 block write; a crash may come between any two steps, also during recovery.
 */
module LogSystem {
  import opened LogDisk
  import opened LogCode

  datatype Option<T> = None | Some(value: T)

  /** An operation of a process: the distinct blocks it has logged, and a log_write past its unlocked check. */
  datatype Op = Idle | Active(wrote: set<nat>, checked: Option<nat>)

  datatype Phase =
    | Boot
    | Replay(k: nat)
    | ClearReplay
    | Run
    | WriteSlot(k: nat)
    | WriteHeader
    | InstallHome(k: nat)
    | ClearHeader
    | Committed

  datatype State = State(
    disk: Disk,
    cache: map<nat, Buf>,
    lh: seq<nat>,
    ops: seq<Op>,
    /** block -> process that holds the buffer's sleep lock */
    locked: map<nat, nat>,
    /** blocks whose buffer was changed and not yet passed to log_write */
    touched: set<nat>,
    outstanding: int,
    committing: bool,
    phase: Phase,
    panicked: bool)

  /**
   Load is bread of a block that is not cached, by any process or by commit and
   recovery; bget takes an empty buffer, or one that an Evict has given up, and
   panics when all NBUF buffers are pinned.
   */
  datatype Step =
    | Begin(p: nat)
    | End(p: nat)
    | Load(b: nat)
    | Evict(b: nat)
    | Lock(p: nat, b: nat)
    | Unlock(p: nat, b: nat)
    | Modify(p: nat, b: nat, x: Block)
    | Check(p: nat, b: nat)
    | Append(p: nat, b: nat)
    | DiskIO
    | EndCommit
    | Crash

  predicate Recovering(ph: Phase) {
    ph.Boot? || ph.Replay? || ph.ClearReplay?
  }

  predicate InCommit(ph: Phase) {
    ph.WriteSlot? || ph.WriteHeader? || ph.InstallHome? || ph.ClearHeader? || ph.Committed?
  }

  /** What bread(b) returns. */
  function View(s: State, b: nat): (x: Block)
    requires b < |s.disk|
  {
    if b in s.cache then s.cache[b].data else s.disk[b]
  }

  predicate IsActive(s: State, p: nat) {
    p < |s.ops| && s.ops[p].Active?
  }

  predicate Holds(s: State, p: nat, b: nat) {
    b in s.locked && s.locked[b] == p && b in s.cache
  }

  /** bwrite of block b: one atomic disk write that leaves a clean buffer behind. */
  function Put(s: State, b: nat, x: Block, ph: Phase): (t: State)
    requires b < |s.disk|
  {
    s.(disk := s.disk[b := x], cache := s.cache[b := Buf(x, false)], phase := ph)
  }

  /** The buffers that bget may not recycle: B_DIRTY, or in use. */
  function Pinned(s: State): (bs: set<nat>) {
    set b | b in s.cache && (s.cache[b].dirty || b in s.locked)
  }

  /** The buffers of the blocks that the next disk action reads and writes have been obtained by bread. */
  ghost predicate IOEnabled(lay: Layout, s: State) {
    && lay.start + lay.size <= |s.disk| && lay.size > 0
    && |s.lh| <= LOGSIZE && lay.start + 1 + |s.lh| <= |s.disk|
    && (forall i :: 0 <= i < |s.lh| ==> s.lh[i] < |s.disk|)
    && match s.phase
       case Boot => lay.start in s.cache && IsHeader(s.disk[lay.start])
       case Replay(k) => k < |s.lh| && lay.start + 1 + k in s.cache && s.lh[k] in s.cache
       case ClearReplay => lay.start in s.cache && |View(s, lay.start).words| == WORDS
       case WriteSlot(k) => k < |s.lh| && lay.start + 1 + k in s.cache && s.lh[k] in s.cache
       case WriteHeader => lay.start in s.cache && |View(s, lay.start).words| == WORDS
       case InstallHome(k) => k < |s.lh| && lay.start + 1 + k in s.cache && s.lh[k] in s.cache
       case ClearHeader => lay.start in s.cache && |View(s, lay.start).words| == WORDS
       case _ => false
  }

  /** The next disk action of commit() or recover_from_log(). */
  function DoIO(lay: Layout, s: State): (t: State)
    requires IOEnabled(lay, s)
  {
    match s.phase
    case Boot =>
      var bl := Header(lay, s.disk);
      s.(lh := bl, phase := if bl == [] then ClearReplay else Replay(0))
    case Replay(k) =>
      Put(s, s.lh[k], View(s, lay.start + 1 + k), if k + 1 < |s.lh| then Replay(k + 1) else ClearReplay)
    case ClearReplay =>
      Put(s, lay.start, EncodeHeader(View(s, lay.start), []), Run).(lh := [])
    case WriteSlot(k) =>
      Put(s, lay.start + 1 + k, View(s, s.lh[k]), if k + 1 < |s.lh| then WriteSlot(k + 1) else WriteHeader)
    case WriteHeader =>
      Put(s, lay.start, EncodeHeader(View(s, lay.start), s.lh), InstallHome(0))
    case InstallHome(k) =>
      Put(s, s.lh[k], View(s, lay.start + 1 + k), if k + 1 < |s.lh| then InstallHome(k + 1) else ClearHeader)
    case ClearHeader =>
      Put(s, lay.start, EncodeHeader(View(s, lay.start), []), Committed).(lh := [])
  }

  ghost predicate Enabled(lay: Layout, s: State, st: Step) {
    if st.Crash? then true
    else
      && !s.panicked
      && match st
         case Begin(p) =>
           && p < |s.ops| && s.ops[p].Idle? && !Recovering(s.phase)
           && !s.committing && |s.lh| + (s.outstanding + 1) * MAXOPBLOCKS <= LOGSIZE
         case End(p) =>
           IsActive(s, p) && s.ops[p].checked.None? && (forall b :: b in s.locked ==> s.locked[b] != p)
         case Load(b) => b < |s.disk| && b !in s.cache && (|s.cache| < NBUF || Pinned(s) == s.cache.Keys)
         case Evict(b) => b in s.cache && !s.cache[b].dirty && b !in s.locked
         case Lock(p, b) => p < |s.ops| && b in s.cache && b !in s.locked
         case Unlock(p, b) => Holds(s, p, b) && b !in s.touched && !(IsActive(s, p) && s.ops[p].checked == Some(b))
         case Modify(p, b, x) => IsActive(s, p) && Holds(s, p, b) && IsHome(lay, b)
         case Check(p, b) =>
           && IsActive(s, p) && s.ops[p].checked.None? && Holds(s, p, b) && IsHome(lay, b)
           && |s.ops[p].wrote + {b}| <= MAXOPBLOCKS
         case Append(p, b) => IsActive(s, p) && s.ops[p].checked == Some(b) && Holds(s, p, b)
         case DiskIO => IOEnabled(lay, s)
         case EndCommit => s.phase.Committed?
  }

  function Do(lay: Layout, s: State, st: Step): (t: State)
    requires Enabled(lay, s, st)
  {
    match st
    case Begin(p) =>
      s.(ops := s.ops[p := Active({}, None)], outstanding := s.outstanding + 1)
    case End(p) =>
      var t := s.(ops := s.ops[p := Idle], outstanding := s.outstanding - 1);
      if s.committing then t.(panicked := true)
      else if t.outstanding == 0 then
        t.(committing := true, phase := if s.lh == [] then Committed else WriteSlot(0))
      else t
    case Load(b) =>
      if |s.cache| < NBUF then s.(cache := s.cache[b := Buf(s.disk[b], false)]) else s.(panicked := true)
    case Evict(b) => s.(cache := s.cache - {b})
    case Lock(p, b) => s.(locked := s.locked[b := p])
    case Unlock(p, b) => s.(locked := s.locked - {b})
    case Modify(p, b, x) =>
      s.(cache := s.cache[b := s.cache[b].(data := x)], touched := s.touched + {b})
    case Check(p, b) =>
      if |s.lh| >= LOGSIZE || |s.lh| >= lay.size - 1 || s.outstanding < 1 then s.(panicked := true)
      else s.(ops := s.ops[p := s.ops[p].(checked := Some(b))])
    case Append(p, b) =>
      s.(lh := if b in s.lh then s.lh else s.lh + [b],
         cache := s.cache[b := s.cache[b].(dirty := true)],
         touched := s.touched - {b},
         ops := s.ops[p := Active(s.ops[p].wrote + {b}, None)])
    case DiskIO => DoIO(lay, s)
    case EndCommit => s.(committing := false, phase := Run)
    case Crash => Rebooted(s.disk, |s.ops|)
  }

  function Rebooted(d: Disk, n: nat): (s: State) {
    State(d, map[], [], seq(n, i => Idle), map[], {}, 0, false, Boot, false)
  }
}
