/**
 The code of log.c that moves blocks: write_log, write_head, read_head,
 install_trans, commit, recover_from_log and the table update of log_write, over
 a bounded buffer cache that recycles clean buffers.  Every method is tied to
 the write traces of LogDisk.
 */
module LogCode {
  import opened LogDisk

  const NBUF: nat := 30

  datatype Buf = Buf(data: Block, dirty: bool)

  /** A set of at most n block numbers listed in bl. */
  lemma {:induction false} ListedSet(s: set<nat>, bl: seq<nat>)
    requires forall b :: b in s ==> b in bl
    ensures |s| <= |bl|
    decreases |bl|
  {
    if bl == [] {
      assert s == {};
    } else {
      var t := s - {bl[0]};
      forall b | b in t
        ensures b in bl[1..]
      {
        var i :| 0 <= i < |bl| && bl[i] == b;
        assert bl[1..][i - 1] == b;
      }
      ListedSet(t, bl[1..]);
      assert s <= t + {bl[0]};
      if bl[0] in s {
        assert s == t + {bl[0]};
      } else {
        assert s == t;
      }
    }
  }

  lemma {:induction false} DistinctInSet(s: set<nat>, bl: seq<nat>)
    requires forall i :: 0 <= i < |bl| ==> bl[i] in s
    requires forall i, j :: 0 <= i < j < |bl| ==> bl[i] != bl[j]
    ensures |bl| <= |s|
    ensures |bl| == |s| ==> forall b :: b in s ==> b in bl
    decreases |bl|
  {
    if bl != [] {
      var t := s - {bl[0]};
      DistinctInSet(t, bl[1..]);
      forall b | b in s && |bl| == |s|
        ensures b in bl
      {
        assert b == bl[0] || b in bl[1..];
      }
    }
  }

  ghost function DirtyOf(cache: map<nat, Buf>): (m: map<nat, Block>) {
    map b | b in cache && cache[b].dirty :: cache[b].data
  }

  lemma DropClean(cache: map<nat, Buf>, v: nat)
    requires v in cache && !cache[v].dirty
    ensures DirtyOf(cache - {v}) == DirtyOf(cache)
    ensures |cache - {v}| == |cache| - 1
  {
    assert (cache - {v}).Keys == cache.Keys - {v};
  }

  lemma PutCleanSize(cache: map<nat, Buf>, b: nat, x: Block)
    ensures |cache[b := Buf(x, false)]| == if b in cache then |cache| else |cache| + 1
  {
    var c := cache[b := Buf(x, false)];
    if b in cache {
      assert c.Keys == cache.Keys;
    } else {
      assert c.Keys == cache.Keys + {b};
    }
  }

  lemma PutClean(cache: map<nat, Buf>, b: nat, x: Block)
    ensures DirtyOf(cache[b := Buf(x, false)]) == DirtyOf(cache) - {b}
    ensures b !in cache ==> DirtyOf(cache[b := Buf(x, false)]) == DirtyOf(cache)
    ensures |cache[b := Buf(x, false)]| == if b in cache then |cache| else |cache| + 1
  {
    PutCleanSize(cache, b, x);
  }

  lemma DirtyAt(cache: map<nat, Buf>, b: nat)
    requires b in cache
    ensures b in DirtyOf(cache) <==> cache[b].dirty
    ensures cache[b].dirty ==> DirtyOf(cache)[b] == cache[b].data
  {
  }

  /** A recovery that runs to the end leaves the committed contents at home and an empty log. */
  lemma Recovered(lay: Layout, d: Disk)
    requires WfDisk(lay, d)
    ensures InRange(RecoverWrites(lay, d), |d|)
    ensures
      var e := Apply(d, RecoverWrites(lay, d));
      WfDisk(lay, e) && Header(lay, e) == [] && HomeEq(lay, e, Logical(lay, d))
  {
    hide Apply;
    var ws := RecoverWrites(lay, d);
    RecoveryCrash(lay, d, |ws|);
    assert ws[..|ws|] == ws;
  }

  class Log {
    const lay: Layout
    var disk: Disk
    var cache: map<nat, Buf>
    var lh: seq<nat>
    /** File system calls in progress. */
    var outstanding: nat
    /** Every block write the disk has seen, oldest first. */
    ghost var trace: seq<Write>

    /**
     initlog on a disk that mkfs or an earlier run left: after recovery the home
     blocks are exactly what was committed, the log is empty and nothing is
     dirty, so bread returns the committed contents of every block.
     */
    constructor (lay: Layout, disk: Disk)
      requires WfDisk(lay, disk)
      ensures Coherent() && Dirty() == map[] && lh == [] && outstanding == 0
      ensures this.lay == lay && WfDisk(lay, this.disk) && Header(lay, this.disk) == []
      ensures HomeEq(lay, this.disk, Logical(lay, disk))
      ensures trace == RecoverWrites(lay, disk)
    {
      this.lay := lay;
      this.disk := disk;
      cache, lh, trace, outstanding := map[], [], [], 0;
      new;
      RecoverFromLog();
      Recovered(lay, disk);
    }

    /** The dirty buffers: the block contents the cache must not lose. */
    ghost function Dirty(): (m: map<nat, Block>)
      reads this`cache
    {
      DirtyOf(cache)
    }

    ghost predicate Coherent()
      reads this`cache, this`disk
    {
      && |cache| <= NBUF
      && 1 <= lay.size && lay.start + lay.size <= |disk| && |disk[lay.start].words| == WORDS
      && forall b :: b in cache ==> b < |disk| && (cache[b].dirty || cache[b].data == disk[b])
    }

    /** The newest contents of block b. */
    ghost function View(b: nat): (x: Block)
      requires b < |disk|
      reads this`cache, this`disk
    {
      if b in Dirty() then Dirty()[b] else disk[b]
    }

    predicate Recyclable(held: set<nat>, v: nat)
      reads this`cache
    {
      v in cache && !cache[v].dirty && v !in held
    }

    ghost predicate HasRoom(held: set<nat>)
      reads this`cache
    {
      |cache| < NBUF || exists v :: v in cache && Recyclable(held, v)
    }

    /** bread: a hit, or a load into a free or recycled buffer; fails when every buffer is dirty or held. */
    method Bread(b: nat, held: set<nat>) returns (ok: bool, x: Block)
      requires Coherent() && b < |disk|
      modifies this`cache
      ensures Coherent() && Dirty() == old(Dirty())
      ensures ok <==> b in old(cache) || old(HasRoom(held))
      ensures ok ==> b in cache && x == View(b)
      ensures forall c :: c in held && c in old(cache) ==> c in cache
    {
      hide DirtyOf;
      x := disk[b];
      if b in cache {
        DirtyAt(cache, b);
        return true, cache[b].data;
      }
      ok := MakeRoom(held);
      if ok {
        PutClean(cache, b, disk[b]);
        cache := cache[b := Buf(disk[b], false)];
        DirtyAt(cache, b);
      }
    }

    /** The recycling half of bget. */
    method MakeRoom(held: set<nat>) returns (ok: bool)
      requires Coherent()
      modifies this`cache
      ensures Coherent() && Dirty() == old(Dirty()) && (ok <==> old(HasRoom(held)))
      ensures cache.Keys <= old(cache).Keys && (ok ==> |cache| < NBUF)
      ensures forall c :: c in held && c in old(cache) ==> c in cache
    {
      hide DirtyOf;
      if |cache| == NBUF {
        if v :| v in cache && Recyclable(held, v) {
          DropClean(cache, v);
          cache := cache - {v};
        } else {
          return false;
        }
      }
      return true;
    }

    /** bwrite of a buffer just obtained with bread: the disk and the buffer hold x, the buffer is clean. */
    method Bwrite(b: nat, x: Block)
      requires Coherent() && b in cache && (b == lay.start ==> |x.words| == WORDS)
      modifies this`cache, this`disk, this`trace
      ensures Coherent() && Dirty() == old(Dirty()) - {b}
      ensures b < |old(disk)| && disk == old(disk)[b := x] && trace == old(trace) + [Write(b, x)]
    {
      hide DirtyOf;
      PutClean(cache, b, x);
      disk := disk[b := x];
      cache := cache[b := Buf(x, false)];
      trace := trace + [Write(b, x)];
    }

    ghost predicate DirtyIn(bl: seq<nat>)
      reads this`cache
    {
      forall b :: b in Dirty() ==> b in bl
    }

    /** log_write's pinning: the dirty buffers are those of bl, with the contents listed in data. */
    ghost predicate Pinned(bl: seq<nat>, data: seq<Block>)
      reads this`cache
    {
      && DirtyIn(bl)
      && |bl| == |data|
      && forall i :: 0 <= i < |bl| ==> bl[i] in Dirty() && Dirty()[bl[i]] == data[i]
    }

    lemma InCache(b: nat)
      requires b in Dirty()
      ensures b in cache
    {
    }

    /** While fewer than NBUF blocks are logged, bread of any block finds a buffer. */
    lemma Room(bl: seq<nat>)
      requires Coherent() && DirtyIn(bl) && |bl| < NBUF
      ensures HasRoom({})
    {
      if forall v :: v in cache ==> cache[v].dirty {
        assert forall v :: v in cache ==> v in Dirty();
        ListedSet(cache.Keys, bl);
      } else {
        var v :| v in cache && !cache[v].dirty;
        assert Recyclable({}, v);
      }
    }

    /** With NBUF logged blocks every buffer is pinned, so no other block can be read. */
    lemma NoRoom(bl: seq<nat>, data: seq<Block>, b: nat)
      requires Coherent() && Pinned(bl, data) && Targets(lay, |disk|, bl) && |bl| == NBUF && !IsHome(lay, b)
      ensures b !in cache && !HasRoom({})
    {
      DistinctInSet(cache.Keys, bl);
      assert forall v :: v in cache ==> v in Dirty();
    }

    /** Recovery needs two buffers at once: a slot's and its home block's. */
    lemma RoomBeside(slot: nat)
      requires Coherent() && Dirty() == map[]
      ensures HasRoom({slot})
    {
      if |cache| == NBUF && forall v :: v in cache ==> v == slot {
        ListedSet(cache.Keys, [slot]);
      } else if |cache| == NBUF {
        var v :| v in cache && v != slot;
        assert cache[v].dirty ==> v in Dirty();
        assert Recyclable({slot}, v);
      }
    }

    /** write_head: the list of lh goes into the header block, one word at a time. */
    method WriteHead()
      requires Coherent() && DirtyIn(lh) && |lh| < NBUF
      requires forall i :: 0 <= i < |lh| ==> IsHome(lay, lh[i])
      modifies this`cache, this`disk, this`trace
      ensures Coherent() && Dirty() == old(Dirty())
      ensures disk == old(disk)[lay.start := EncodeHeader(old(disk)[lay.start], lh)]
      ensures trace == old(trace) + [Write(lay.start, disk[lay.start])]
    {
      hide DirtyOf, HasRoom;
      Room(lh);
      var ok, x := Bread(lay.start, {});
      var hb := x.words[0 := |lh|];
      for i := 0 to |lh|
        invariant |hb| == WORDS
        invariant hb == [|lh|] + lh[..i] + x.words[1 + i..]
      {
        hb := hb[1 + i := lh[i]];
      }
      assert lh[..|lh|] == lh;
      Bwrite(lay.start, Block(hb));
    }

    /** read_head: the list found in the header block on disk. */
    method ReadHead()
      requires Coherent() && Dirty() == map[] && IsHeader(disk[lay.start])
      modifies this`cache, this`lh
      ensures Coherent() && Dirty() == map[] && lh == Header(lay, disk)
    {
      hide DirtyOf, HasRoom;
      Room([]);
      var ok, hb := Bread(lay.start, {});
      lh := [];
      for i := 0 to hb.words[0]
        modifies this`lh
        invariant lh == hb.words[1..1 + i]
      {
        lh := lh + [hb.words[1 + i]];
      }
    }

    /** One round of write_log: a logged block's cached contents go to its slot. */
    method CopyToSlot(tail: nat, ghost data: seq<Block>) returns (ok: bool)
      requires Coherent() && Targets(lay, |disk|, lh) && Pinned(lh, data) && tail < |lh|
      modifies this`cache, this`disk, this`trace
      ensures Coherent() && Dirty() == old(Dirty())
      ensures ok <==> |lh| < NBUF
      ensures ok ==> disk == old(disk)[lay.start + 1 + tail := data[tail]]
      ensures ok ==> trace == old(trace) + [Write(lay.start + 1 + tail, data[tail])]
      ensures !ok ==> disk == old(disk) && trace == old(trace)
    {
      hide DirtyOf, HasRoom;
      if |lh| < NBUF {
        Room(lh);
      } else {
        NoRoom(lh, data, lay.start + 1 + tail);
      }
      var x: Block;
      ok, x := Bread(lay.start + 1 + tail, {});
      if !ok {
        return;
      }
      InCache(lh[tail]);
      ok, x := Bread(lh[tail], {lay.start + 1 + tail});
      Bwrite(lay.start + 1 + tail, x);
    }

    /**
     write_log: the cached contents of the logged blocks go to the log slots.  It
     panics exactly when all NBUF buffers are pinned by the transaction itself.
     */
    method WriteLog(ghost data: seq<Block>) returns (ok: bool)
      requires Coherent() && Targets(lay, |disk|, lh) && Pinned(lh, data)
      modifies this`cache, this`disk, this`trace
      ensures Coherent() && Dirty() == old(Dirty())
      ensures ok <==> |lh| < NBUF
      ensures InRange(SlotWrites(lay, data), |old(disk)|)
      ensures ok ==> trace == old(trace) + SlotWrites(lay, data)
      ensures ok ==> disk == Apply(old(disk), SlotWrites(lay, data))
      ensures !ok ==> disk == old(disk) && trace == old(trace)
    {
      hide DirtyOf, Targets, Coherent;
      ghost var ws := SlotWrites(lay, data);
      ghost var d0, t0, m0 := disk, trace, Dirty();
      SlotsFit();
      for tail := 0 to |lh|
        invariant Coherent() && Dirty() == m0 && |disk| == |d0|
        invariant trace == t0 + ws[..tail] && disk == Apply(d0, ws[..tail])
        invariant tail > 0 ==> |lh| < NBUF
      {
        ok := CopyToSlot(tail, data);
        if !ok {
          assert tail == 0;
          return;
        }
        ApplyNext(d0, ws, tail);
      }
      assert ws[..|lh|] == ws;
      ok := true;
    }

    lemma SlotsFit()
      requires Coherent() && Targets(lay, |disk|, lh)
      ensures |lh| <= NBUF && lay.start + 1 + |lh| <= lay.start + lay.size <= |disk|
    {
    }

    /** The blocks still to install are pinned with a buffer to spare (commit), or nothing is dirty (recovery). */
    ghost predicate CanInstall(from: nat)
      reads this`cache, this`lh
    {
      || Dirty() == map[]
      || (|lh| < NBUF && forall i :: from <= i < |lh| ==> lh[i] in Dirty())
    }

    lemma SlotAndHome(tail: nat)
      requires Coherent() && Targets(lay, |disk|, lh) && tail < |lh| && DirtyIn(lh)
      ensures lay.start + 1 + tail < |disk| && lay.start + 1 + tail !in Dirty()
      ensures lh[tail] < |disk| && lh[tail] != lay.start
      ensures forall i :: tail < i < |lh| ==> lh[i] != lh[tail]
    {
    }

    /** install_trans reads a slot and holds its buffer; a buffer for the home block is then at hand. */
    method ReadSlot(tail: nat) returns (x: Block)
      requires Coherent() && Targets(lay, |disk|, lh) && tail < |lh|
      requires DirtyIn(lh) && CanInstall(tail)
      modifies this`cache
      ensures Coherent() && Dirty() == old(Dirty())
      ensures x == disk[lay.start + 1 + tail]
      ensures lh[tail] in cache || HasRoom({lay.start + 1 + tail})
    {
      hide DirtyOf, HasRoom, Coherent, Targets;
      var slot := lay.start + 1 + tail;
      SlotAndHome(tail);
      if Dirty() == map[] {
        Room([]);
      } else {
        Room(lh);
      }
      var ok;
      ok, x := Bread(slot, {});
      if Dirty() == map[] {
        RoomBeside(slot);
      } else {
        InCache(lh[tail]);
      }
    }

    /** One round of install_trans: a slot's contents go to the home block. */
    method InstallOne(tail: nat)
      requires Coherent() && Targets(lay, |disk|, lh) && tail < |lh|
      requires DirtyIn(lh) && CanInstall(tail)
      modifies this`cache, this`disk, this`trace
      ensures Coherent() && DirtyIn(lh) && CanInstall(tail + 1)
      ensures Dirty() == old(Dirty()) - {lh[tail]}
      ensures disk == old(disk)[lh[tail] := old(disk)[lay.start + 1 + tail]]
      ensures trace == old(trace) + [Write(lh[tail], disk[lh[tail]])]
    {
      hide DirtyOf, HasRoom, Coherent, Targets;
      var slot := lay.start + 1 + tail;
      SlotAndHome(tail);
      var x := ReadSlot(tail);
      var ok, y := Bread(lh[tail], {slot});
      Bwrite(lh[tail], x);
    }

    /** install_trans: every slot goes to its home block. */
    method InstallTrans()
      requires Coherent() && Targets(lay, |disk|, lh) && DirtyIn(lh) && CanInstall(0)
      modifies this`cache, this`disk, this`trace
      ensures Coherent() && Dirty() == map[]
      ensures lay.start + 1 + |lh| <= |old(disk)|
      ensures forall i :: 0 <= i < |lh| ==> lh[i] < |old(disk)|
      ensures disk == Overlay(old(disk), lh, Slots(lay, old(disk), |lh|))
      ensures trace == old(trace) + InstallWrites(lh, Slots(lay, old(disk), |lh|))
    {
      hide DirtyOf, Coherent, HasRoom, CanInstall;
      SlotsFit();
      ghost var data := Slots(lay, disk, |lh|);
      ghost var ws := InstallWrites(lh, data);
      ghost var d0, t0 := disk, trace;
      for tail := 0 to |lh|
        invariant Coherent() && DirtyIn(lh) && CanInstall(tail) && |disk| == |d0|
        invariant forall i :: 0 <= i < tail ==> lh[i] !in Dirty()
        invariant lay.start + lay.size <= |d0| && Slots(lay, disk, |lh|) == data
        invariant trace == t0 + ws[..tail] && disk == Apply(d0, ws[..tail])
      {
        assert data[tail] == disk[lay.start + 1 + tail];
        SlotsKept(lay, disk, lh, tail, data[tail]);
        InstallOne(tail);
        ApplyNext(d0, ws, tail);
      }
      assert ws[..|lh|] == ws;
    }

    /** The first half of commit: the blocks go to the log and then the header names them. */
    method LogAndHead(ghost data: seq<Block>) returns (ok: bool)
      requires Coherent() && Targets(lay, |disk|, lh) && Pinned(lh, data) && lh != []
      modifies this`cache, this`disk, this`trace
      ensures Coherent() && Dirty() == old(Dirty()) && lay.start + lay.size <= |old(disk)| && |old(disk)[lay.start].words| == WORDS
      ensures ok <==> |lh| < NBUF
      ensures InRange(SlotWrites(lay, data), |old(disk)|) && |lh| <= LOGSIZE && lay.start + 1 + |data| <= |old(disk)|
      ensures ok ==> disk == HeaderWritten(lay, old(disk), lh, data)
      ensures ok ==> trace == old(trace) + SlotWrites(lay, data) + [Write(lay.start, EncodeHeader(old(disk)[lay.start], lh))]
      ensures !ok ==> disk == old(disk) && trace == old(trace)
    {
      hide DirtyOf, InstallWrites, SlotWrites, Apply, EncodeHeader, CanInstall, IsHome, InRange, CommitWrites;
      CommitStages(lay, disk, lh, data);
      ok := WriteLog(data);
      if ok {
        WriteHead();
      }
    }

    /**
     commit: with the cached contents data of the logged blocks, the disk sees
     exactly CommitWrites and ends with an empty log and nothing dirty.  With
     NBUF logged blocks it panics before the first write.
     */
    method Commit(ghost data: seq<Block>) returns (ok: bool)
      requires Coherent() && Targets(lay, |disk|, lh) && Pinned(lh, data)
      modifies this`cache, this`disk, this`trace, this`lh
      ensures Coherent() && lay.start < |old(disk)| && |old(disk)[lay.start].words| == WORDS
      ensures ok <==> |old(lh)| < NBUF
      ensures ok ==> lh == [] && Dirty() == map[]
      ensures ok ==> trace == old(trace) + CommitWrites(lay, old(disk), old(lh), data)
      ensures InRange(CommitWrites(lay, old(disk), old(lh), data), |old(disk)|)
      ensures ok ==> disk == Apply(old(disk), CommitWrites(lay, old(disk), old(lh), data))
      ensures !ok ==> disk == old(disk) && trace == old(trace) && lh == old(lh) && Dirty() == old(Dirty())
    {
      hide DirtyOf, InstallWrites, SlotWrites, Apply, EncodeHeader, CanInstall, InRange, HeaderWritten;
      if |lh| > 0 {
        CommitStages(lay, disk, lh, data);
        ok := LogAndHead(data);
        if !ok {
          return;
        }
        Installable(data);
        InstallTrans();
        lh := [];
        WriteHead();
      } else {
        EmptyTrace(data);
        ok := true;
      }
    }

    lemma Installable(data: seq<Block>)
      requires Pinned(lh, data) && |lh| < NBUF
      ensures CanInstall(0)
    {
    }

    lemma EmptyTrace(data: seq<Block>)
      requires lh == [] && Pinned(lh, data) && Coherent()
      ensures data == [] && CommitWrites(lay, disk, lh, data) == [] && InRange([], |disk|) && Apply(disk, []) == disk
      ensures Dirty() == map[]
    {
    }

    /** begin_op: a reservation of MAXOPBLOCKS, or the caller must wait for a commit. */
    method BeginOp() returns (ok: bool)
      modifies this`outstanding
      ensures ok <==> |lh| + (old(outstanding) + 1) * MAXOPBLOCKS <= LOGSIZE
      ensures outstanding == if ok then old(outstanding) + 1 else old(outstanding)
    {
      ok := |lh| + (outstanding + 1) * MAXOPBLOCKS <= LOGSIZE;
      if ok {
        outstanding := outstanding + 1;
      }
    }

    /** end_op: the last operation commits the whole group, any other leaves it as it is. */
    method EndOp(ghost data: seq<Block>) returns (ok: bool)
      requires Coherent() && Targets(lay, |disk|, lh) && Pinned(lh, data) && outstanding > 0
      modifies this`cache, this`disk, this`trace, this`lh, this`outstanding
      ensures outstanding == old(outstanding) - 1
      ensures outstanding > 0 ==> ok && disk == old(disk) && trace == old(trace) && lh == old(lh) && cache == old(cache)
      ensures Coherent() && lay.start < |old(disk)| && |old(disk)[lay.start].words| == WORDS
      ensures outstanding == 0 ==> (ok <==> |old(lh)| < NBUF)
      ensures outstanding == 0 && ok ==> lh == [] && Dirty() == map[]
      ensures outstanding == 0 && ok ==> trace == old(trace) + CommitWrites(lay, old(disk), old(lh), data)
      ensures !ok ==> disk == old(disk) && trace == old(trace) && lh == old(lh) && Dirty() == old(Dirty())
    {
      hide DirtyOf, InstallWrites, SlotWrites, Apply, EncodeHeader, InRange;
      outstanding := outstanding - 1;
      ok := true;
      if outstanding == 0 {
        ok := Commit(data);
      }
    }

    /** recover_from_log: the disk sees exactly RecoverWrites. */
    method RecoverFromLog()
      requires Coherent() && WfDisk(lay, disk) && Dirty() == map[]
      modifies this`cache, this`disk, this`trace, this`lh
      ensures Coherent() && lh == [] && Dirty() == map[]
      ensures InRange(RecoverWrites(lay, old(disk)), |old(disk)|)
      ensures trace == old(trace) + RecoverWrites(lay, old(disk))
      ensures disk == Apply(old(disk), RecoverWrites(lay, old(disk)))
    {
      hide DirtyOf, InstallWrites, Apply;
      ghost var d0 := disk;
      ReadHead();
      InstallTrans();
      lh := [];
      RecoverStages(lay, d0);
      WriteHead();
    }

    /**
     log_write: outside a transaction or with a full log it panics; otherwise the
     block is appended unless it is already there (log absorption), and its
     buffer is marked dirty.
     */
    method LogWrite(b: nat) returns (panic: bool)
      requires Coherent() && b in cache
      modifies this`cache, this`lh
      ensures panic <==> |old(lh)| >= LOGSIZE || |old(lh)| >= lay.size - 1 || outstanding < 1
      ensures panic ==> lh == old(lh) && cache == old(cache)
      ensures !panic ==> lh == (if b in old(lh) then old(lh) else old(lh) + [b])
      ensures !panic ==> Coherent() && cache == old(cache)[b := Buf(old(cache)[b].data, true)]
    {
      if |lh| >= LOGSIZE || |lh| >= lay.size - 1 {
        return true;
      }
      if outstanding < 1 {
        return true;
      }
      var i := 0;
      while i < |lh| && lh[i] != b
        invariant i <= |lh|
        invariant b !in lh[..i]
      {
        i := i + 1;
      }
      assert cache[b := Buf(cache[b].data, true)].Keys == cache.Keys;
      if i == |lh| {
        assert lh[..i] == lh;
        lh := lh + [b];
      } else {
        lh := lh[i := b];
      }
      cache := cache[b := Buf(cache[b].data, true)];
      panic := false;
    }
  }
}
