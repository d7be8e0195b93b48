/**
 The on-disk part of the redo log: the header block, the log slots behind it,
 and the write traces of commit and recovery.

 A disk is a sequence of blocks and every write of one block is atomic.  A
 crash during commit or recovery therefore leaves a disk on which some prefix
 of the write trace has been applied.
 */
module LogDisk {

  /** int words per block (BSIZE / sizeof(int)). */
  const WORDS: nat := 128
  const MAXOPBLOCKS: nat := 10
  const LOGSIZE: nat := 30

  datatype Block = Block(words: seq<nat>)
  type Disk = seq<Block>

  /** The log region: header at start, data slots at start + 1 .. start + size - 1. */
  datatype Layout = Layout(start: nat, size: nat)

  datatype Write = Write(bno: nat, data: Block)

  predicate IsHome(lay: Layout, b: nat) {
    b < lay.start || lay.start + lay.size <= b
  }

  /** A block list the log may carry on a disk of n blocks: distinct home blocks that fit the slots. */
  ghost predicate Targets(lay: Layout, n: nat, bl: seq<nat>) {
    && |bl| <= LOGSIZE
    && |bl| < lay.size
    && (forall i :: 0 <= i < |bl| ==> bl[i] < n && IsHome(lay, bl[i]))
    && (forall i, j :: 0 <= i < j < |bl| ==> bl[i] != bl[j])
  }

  /** The header block after write_head: n, the block numbers, and whatever followed them before. */
  function EncodeHeader(was: Block, bl: seq<nat>): (b: Block)
    requires |bl| <= LOGSIZE && |was.words| == WORDS
  {
    Block([|bl|] + bl + was.words[1 + |bl|..])
  }

  predicate IsHeader(b: Block) {
    |b.words| == WORDS && b.words[0] <= LOGSIZE
  }

  /** The block list read_head finds in a header block. */
  function DecodeHeader(b: Block): (bl: seq<nat>)
    requires IsHeader(b)
  {
    b.words[1..1 + b.words[0]]
  }

  ghost predicate WfDisk(lay: Layout, d: Disk) {
    && 1 <= lay.size
    && lay.start + lay.size <= |d|
    && IsHeader(d[lay.start])
    && Targets(lay, |d|, DecodeHeader(d[lay.start]))
  }

  function Header(lay: Layout, d: Disk): (bl: seq<nat>)
    requires lay.start < |d| && IsHeader(d[lay.start])
  {
    DecodeHeader(d[lay.start])
  }

  ghost predicate InRange(ws: seq<Write>, n: nat) {
    forall i :: 0 <= i < |ws| ==> ws[i].bno < n
  }

  function Apply(d: Disk, ws: seq<Write>): (r: Disk)
    requires InRange(ws, |d|)
    ensures |r| == |d|
  {
    if ws == [] then d else Apply(d, ws[..|ws| - 1])[ws[|ws| - 1].bno := ws[|ws| - 1].data]
  }

  /** What install_trans writes, given the contents of the log slots. */
  function InstallWrites(bl: seq<nat>, slots: seq<Block>): (ws: seq<Write>)
    requires |bl| == |slots|
  {
    seq(|bl|, i requires 0 <= i < |bl| => Write(bl[i], slots[i]))
  }

  /** What write_log writes, given the cached contents of the logged blocks. */
  function SlotWrites(lay: Layout, data: seq<Block>): (ws: seq<Write>) {
    seq(|data|, i requires 0 <= i < |data| => Write(lay.start + 1 + i, data[i]))
  }

  function Slots(lay: Layout, d: Disk, n: nat): (s: seq<Block>)
    requires lay.start + 1 + n <= |d|
  {
    d[lay.start + 1..lay.start + 1 + n]
  }

  /** commit()'s whole write trace on disk d for the blocks bl with cached contents data. */
  function CommitWrites(lay: Layout, d: Disk, bl: seq<nat>, data: seq<Block>): (ws: seq<Write>)
    requires |bl| == |data| <= LOGSIZE && lay.start < |d| && |d[lay.start].words| == WORDS
  {
    if bl == [] then []
    else
      var hd := EncodeHeader(d[lay.start], bl);
      SlotWrites(lay, data) + [Write(lay.start, hd)] + InstallWrites(bl, data)
      + [Write(lay.start, EncodeHeader(hd, []))]
  }

  /** recover_from_log()'s whole write trace on disk d. */
  function RecoverWrites(lay: Layout, d: Disk): (ws: seq<Write>)
    requires lay.start < |d| && IsHeader(d[lay.start])
    requires lay.start + 1 + d[lay.start].words[0] <= |d|
  {
    var bl := Header(lay, d);
    InstallWrites(bl, Slots(lay, d, |bl|)) + [Write(lay.start, EncodeHeader(d[lay.start], []))]
  }

  /** Home blocks with bl's contents replaced by data. */
  function Overlay(d: Disk, bl: seq<nat>, data: seq<Block>): (r: Disk)
    requires |bl| == |data| && forall i :: 0 <= i < |bl| ==> bl[i] < |d|
    ensures |r| == |d|
  {
    Apply(d, InstallWrites(bl, data))
  }

  /**
   What the home blocks mean: the disk with its committed log installed.  This
   is what a completed recovery leaves behind.
   */
  function Logical(lay: Layout, d: Disk): (r: Disk)
    requires lay.start < |d| && IsHeader(d[lay.start])
    requires lay.start + 1 + d[lay.start].words[0] <= |d|
    requires forall i :: 0 <= i < d[lay.start].words[0] ==> Header(lay, d)[i] < |d|
    ensures |r| == |d|
  {
    var bl := Header(lay, d);
    Overlay(d, bl, Slots(lay, d, |bl|))
  }

  /** Two disks agree on every block outside the log region. */
  ghost predicate HomeEq(lay: Layout, d: Disk, e: Disk) {
    && |d| == |e|
    && forall b :: 0 <= b < |d| && IsHome(lay, b) ==> d[b] == e[b]
  }

  lemma DecodeEncode(was: Block, bl: seq<nat>)
    requires |bl| <= LOGSIZE && |was.words| == WORDS
    ensures IsHeader(EncodeHeader(was, bl)) && EncodeHeader(was, bl).words[0] == |bl|
    ensures DecodeHeader(EncodeHeader(was, bl)) == bl
    ensures forall i :: 0 <= i < |bl| ==> EncodeHeader(was, bl).words[1 + i] == bl[i]
    ensures forall i :: |bl| < i < WORDS ==> EncodeHeader(was, bl).words[i] == was.words[i]
  {
  }

  lemma ApplyAppend(d: Disk, ws: seq<Write>, w: Write)
    requires InRange(ws, |d|) && w.bno < |d|
    ensures InRange(ws + [w], |d|)
    ensures Apply(d, ws + [w]) == Apply(d, ws)[w.bno := w.data]
  {
    assert (ws + [w])[..|ws|] == ws;
  }

  /** A trace extended by its next write. */
  lemma ApplyNext(d: Disk, ws: seq<Write>, k: nat)
    requires InRange(ws, |d|) && k < |ws|
    ensures InRange(ws[..k], |d|) && InRange(ws[..k + 1], |d|)
    ensures ws[..k + 1] == ws[..k] + [ws[k]]
    ensures Apply(d, ws[..k + 1]) == Apply(d, ws[..k])[ws[k].bno := ws[k].data]
  {
    assert ws[..k + 1] == ws[..k] + [ws[k]];
    ApplyAppend(d, ws[..k], ws[k]);
  }

  lemma {:induction false} ApplyConcat(d: Disk, ws: seq<Write>, vs: seq<Write>)
    requires InRange(ws, |d|) && InRange(vs, |d|)
    ensures InRange(ws + vs, |d|)
    ensures Apply(d, ws + vs) == Apply(Apply(d, ws), vs)
    decreases |vs|
  {
    if vs == [] {
      assert ws + vs == ws;
    } else {
      var k := |vs| - 1;
      assert vs == vs[..k] + [vs[k]];
      ApplyConcat(d, ws, vs[..k]);
      assert ws + vs == (ws + vs[..k]) + [vs[k]];
      ApplyAppend(d, ws + vs[..k], vs[k]);
    }
  }

  /** Writing distinct targets: target i holds data i, every other block is as before. */
  lemma {:induction false} OverlayAt(d: Disk, bl: seq<nat>, data: seq<Block>)
    requires |bl| == |data|
    requires forall i :: 0 <= i < |bl| ==> bl[i] < |d|
    requires forall i, j :: 0 <= i < j < |bl| ==> bl[i] != bl[j]
    ensures forall i :: 0 <= i < |bl| ==> Overlay(d, bl, data)[bl[i]] == data[i]
    ensures forall b :: 0 <= b < |d| && b !in bl ==> Overlay(d, bl, data)[b] == d[b]
    decreases |bl|
  {
    if bl != [] {
      var k := |bl| - 1;
      OverlayAt(d, bl[..k], data[..k]);
      assert InstallWrites(bl, data)[..k] == InstallWrites(bl[..k], data[..k]);
      assert bl[..k] + [bl[k]] == bl;
    }
  }

  /** Slot writes fill the slots in order and touch nothing else. */
  lemma {:induction false} SlotsAt(lay: Layout, d: Disk, data: seq<Block>)
    requires lay.start + 1 + |data| <= |d|
    ensures InRange(SlotWrites(lay, data), |d|)
    ensures Slots(lay, Apply(d, SlotWrites(lay, data)), |data|) == data
    ensures forall b :: 0 <= b < |d| && (b <= lay.start || lay.start + |data| < b) ==>
              Apply(d, SlotWrites(lay, data))[b] == d[b]
    decreases |data|
  {
    if data != [] {
      var k := |data| - 1;
      SlotsAt(lay, d, data[..k]);
      assert SlotWrites(lay, data)[..k] == SlotWrites(lay, data[..k]);
      var e := Apply(d, SlotWrites(lay, data[..k]));
      assert Slots(lay, e[lay.start + 1 + k := data[k]], |data|) == Slots(lay, e, k) + [data[k]];
    }
  }

  /** A disk whose header lists bl and whose slots hold data means: data at bl, the disk elsewhere. */
  lemma LogicalAt(lay: Layout, d: Disk, bl: seq<nat>, data: seq<Block>)
    requires WfDisk(lay, d) && Header(lay, d) == bl && Slots(lay, d, |bl|) == data
    ensures |Logical(lay, d)| == |d|
    ensures forall i :: 0 <= i < |bl| ==> Logical(lay, d)[bl[i]] == data[i]
    ensures forall b :: 0 <= b < |d| && b !in bl ==> Logical(lay, d)[b] == d[b]
  {
    hide Apply, InstallWrites;
    OverlayAt(d, bl, data);
  }

  lemma EmptyLog(lay: Layout, d: Disk)
    requires WfDisk(lay, d) && Header(lay, d) == []
    ensures Logical(lay, d) == d
  {
  }

  /** Installing any part of the committed log keeps the header, the slots and the meaning. */
  lemma PartialInstall(lay: Layout, d: Disk, k: nat)
    requires WfDisk(lay, d) && k <= |Header(lay, d)|
    ensures
      var bl := Header(lay, d);
      var data := Slots(lay, d, |bl|);
      var e := Overlay(d, bl[..k], data[..k]);
      && WfDisk(lay, e)
      && Header(lay, e) == bl
      && Slots(lay, e, |bl|) == data
      && HomeEq(lay, Logical(lay, e), Logical(lay, d))
  {
    hide Apply, InstallWrites;
    var bl := Header(lay, d);
    var data := Slots(lay, d, |bl|);
    var e := Overlay(d, bl[..k], data[..k]);
    OverlayAt(d, bl[..k], data[..k]);
    assert forall b :: lay.start <= b < lay.start + lay.size ==> b !in bl[..k];
    assert e[lay.start] == d[lay.start];
    assert Slots(lay, e, |bl|) == data;
    LogicalAt(lay, d, bl, data);
    LogicalAt(lay, e, bl, data);
    forall b | 0 <= b < |d| && b !in bl
      ensures e[b] == d[b]
    {
      assert b !in bl[..k];
    }
  }

  /** Clearing the header of a fully installed disk keeps the meaning and empties the log. */
  lemma ClearInstalled(lay: Layout, d: Disk)
    requires WfDisk(lay, d)
    requires HomeEq(lay, Logical(lay, d), d)
    ensures
      var e := d[lay.start := EncodeHeader(d[lay.start], [])];
      && WfDisk(lay, e)
      && Header(lay, e) == []
      && Logical(lay, e) == e
      && HomeEq(lay, e, Logical(lay, d))
  {
    DecodeEncode(d[lay.start], []);
  }

  lemma FullInstall(lay: Layout, d: Disk)
    requires WfDisk(lay, d)
    ensures WfDisk(lay, Logical(lay, d)) && Logical(lay, d)[lay.start] == d[lay.start]
    ensures HomeEq(lay, Logical(lay, Logical(lay, d)), Logical(lay, d))
  {
    hide Apply;
    var bl := Header(lay, d);
    var data := Slots(lay, d, |bl|);
    assert bl[..|bl|] == bl && data[..|bl|] == data;
    PartialInstall(lay, d, |bl|);
    LogicalAt(lay, d, bl, data);
    LogicalAt(lay, Logical(lay, d), bl, data);
  }

  /**
   A crash anywhere inside recovery, so any number of crashed recoveries in a
   row, keeps the meaning of the home blocks; a recovery that runs to the end
   leaves an empty log and home blocks equal to that meaning.
   */
  lemma RecoveryCrash(lay: Layout, d: Disk, k: nat)
    requires WfDisk(lay, d)
    requires k <= |RecoverWrites(lay, d)|
    ensures InRange(RecoverWrites(lay, d), |d|)
    ensures
      var e := Apply(d, RecoverWrites(lay, d)[..k]);
      && WfDisk(lay, e)
      && HomeEq(lay, Logical(lay, e), Logical(lay, d))
      && (k == |RecoverWrites(lay, d)| ==> Header(lay, e) == [] && HomeEq(lay, e, Logical(lay, d)))
  {
    hide Apply;
    var bl := Header(lay, d);
    var data := Slots(lay, d, |bl|);
    var ws := RecoverWrites(lay, d);
    var n := |bl|;
    if k <= n {
      assert ws[..k] == InstallWrites(bl[..k], data[..k]);
      PartialInstall(lay, d, k);
    } else {
      assert ws[..k] == InstallWrites(bl, data) + [ws[n]];
      ApplyAppend(d, InstallWrites(bl, data), ws[n]);
      FullInstall(lay, d);
      ClearInstalled(lay, Logical(lay, d));
    }
  }

  lemma CommitPrefixSlots(lay: Layout, d: Disk, bl: seq<nat>, data: seq<Block>, k: nat)
    requires |bl| == |data| <= LOGSIZE && lay.start < |d| && |d[lay.start].words| == WORDS && bl != [] && k <= |bl|
    ensures k <= |CommitWrites(lay, d, bl, data)|
    ensures CommitWrites(lay, d, bl, data)[..k] == SlotWrites(lay, data[..k])
  {
  }

  lemma CommitPrefixInstall(lay: Layout, d: Disk, bl: seq<nat>, data: seq<Block>, j: nat)
    requires |bl| == |data| <= LOGSIZE && lay.start < |d| && |d[lay.start].words| == WORDS && bl != [] && j <= |bl|
    ensures |CommitWrites(lay, d, bl, data)| == 2 * |bl| + 2
    ensures CommitWrites(lay, d, bl, data)[..|bl| + 1 + j]
            == SlotWrites(lay, data) + [Write(lay.start, EncodeHeader(d[lay.start], bl))]
               + InstallWrites(bl[..j], data[..j])
  {
  }

  /** Before the header write: k slots are filled, nothing else has changed. */
  lemma CommitSlotsPhase(lay: Layout, d: Disk, data: seq<Block>)
    requires WfDisk(lay, d) && Header(lay, d) == [] && |data| < lay.size
    ensures InRange(SlotWrites(lay, data), |d|)
    ensures
      var e := Apply(d, SlotWrites(lay, data));
      && WfDisk(lay, e) && Header(lay, e) == []
      && e[lay.start] == d[lay.start]
      && HomeEq(lay, Logical(lay, e), d)
      && Slots(lay, e, |data|) == data
  {
    hide Apply, SlotWrites, InstallWrites;
    SlotsAt(lay, d, data);
    EmptyLog(lay, Apply(d, SlotWrites(lay, data)));
  }

  /** The header write is the commit point: it turns the meaning into the overlay at once. */
  lemma CommitPoint(lay: Layout, d: Disk, bl: seq<nat>, data: seq<Block>)
    requires WfDisk(lay, d) && Header(lay, d) == []
    requires Targets(lay, |d|, bl) && |data| == |bl|
    requires Slots(lay, d, |bl|) == data
    ensures
      var e := d[lay.start := EncodeHeader(d[lay.start], bl)];
      && WfDisk(lay, e) && Header(lay, e) == bl && Slots(lay, e, |bl|) == data
      && HomeEq(lay, Logical(lay, e), Overlay(d, bl, data))
  {
    hide Apply, InstallWrites;
    var e := d[lay.start := EncodeHeader(d[lay.start], bl)];
    DecodeEncode(d[lay.start], bl);
    assert Slots(lay, e, |bl|) == data;
    LogicalAt(lay, e, bl, data);
    OverlayAt(d, bl, data);
  }

  /** The disk right after commit's header write. */
  function HeaderWritten(lay: Layout, d: Disk, bl: seq<nat>, data: seq<Block>): (r: Disk)
    requires |bl| == |data| <= LOGSIZE && lay.start + 1 + |data| <= |d| && |d[lay.start].words| == WORDS
    requires InRange(SlotWrites(lay, data), |d|)
    ensures |r| == |d|
  {
    Apply(d, SlotWrites(lay, data))[lay.start := EncodeHeader(d[lay.start], bl)]
  }

  lemma HeaderWrittenMeans(lay: Layout, d: Disk, bl: seq<nat>, data: seq<Block>)
    requires WfDisk(lay, d) && Header(lay, d) == []
    requires Targets(lay, |d|, bl) && |data| == |bl|
    ensures InRange(SlotWrites(lay, data), |d|)
    ensures
      var e := HeaderWritten(lay, d, bl, data);
      && WfDisk(lay, e) && Header(lay, e) == bl && Slots(lay, e, |bl|) == data
      && HomeEq(lay, Logical(lay, e), Overlay(d, bl, data))
  {
    hide Apply, InstallWrites, SlotWrites;
    CommitSlotsPhase(lay, d, data);
    var d1 := Apply(d, SlotWrites(lay, data));
    EmptyLog(lay, d1);
    CommitPoint(lay, d1, bl, data);
    OverlayAt(d1, bl, data);
    OverlayAt(d, bl, data);
  }

  lemma CommitTraceInstall(lay: Layout, d: Disk, bl: seq<nat>, data: seq<Block>, j: nat)
    requires |bl| == |data| <= LOGSIZE && lay.start + 1 + |data| <= |d| && |d[lay.start].words| == WORDS && j <= |bl| && bl != []
    requires forall i :: 0 <= i < |bl| ==> bl[i] < |d|
    ensures |CommitWrites(lay, d, bl, data)| == 2 * |bl| + 2
    ensures InRange(CommitWrites(lay, d, bl, data)[..|bl| + 1 + j], |d|)
    ensures InRange(SlotWrites(lay, data), |d|)
    ensures Apply(d, CommitWrites(lay, d, bl, data)[..|bl| + 1 + j])
            == Overlay(HeaderWritten(lay, d, bl, data), bl[..j], data[..j])
  {
    CommitPrefixInstall(lay, d, bl, data, j);
    SlotsAt(lay, d, data);
    var hw := Write(lay.start, EncodeHeader(d[lay.start], bl));
    ApplyAppend(d, SlotWrites(lay, data), hw);
    ApplyConcat(d, SlotWrites(lay, data) + [hw], InstallWrites(bl[..j], data[..j]));
  }

  /** A crash after the header write and j home writes. */
  lemma CommitCrashInstalling(lay: Layout, d: Disk, bl: seq<nat>, data: seq<Block>, j: nat)
    requires WfDisk(lay, d) && Header(lay, d) == []
    requires Targets(lay, |d|, bl) && |data| == |bl| && bl != [] && j <= |bl|
    ensures |CommitWrites(lay, d, bl, data)| == 2 * |bl| + 2
    ensures InRange(CommitWrites(lay, d, bl, data)[..|bl| + 1 + j], |d|)
    ensures
      var e := Apply(d, CommitWrites(lay, d, bl, data)[..|bl| + 1 + j]);
      && WfDisk(lay, e)
      && e[lay.start] == EncodeHeader(d[lay.start], bl)
      && HomeEq(lay, Logical(lay, e), Overlay(d, bl, data))
      && (j == |bl| ==> HomeEq(lay, Logical(lay, e), e))
  {
    hide Apply, InstallWrites, SlotWrites, CommitWrites;
    CommitTraceInstall(lay, d, bl, data, j);
    HeaderWrittenMeans(lay, d, bl, data);
    var d2 := HeaderWritten(lay, d, bl, data);
    PartialInstall(lay, d2, j);
    OverlayAt(d2, bl[..j], data[..j]);
    if j == |bl| {
      assert bl[..j] == bl && data[..j] == data;
      FullInstall(lay, d2);
    }
  }

  /** A crash before the header write. */
  lemma CommitCrashLogging(lay: Layout, d: Disk, bl: seq<nat>, data: seq<Block>, k: nat)
    requires WfDisk(lay, d) && Header(lay, d) == []
    requires Targets(lay, |d|, bl) && |data| == |bl| && bl != [] && k <= |bl|
    ensures |CommitWrites(lay, d, bl, data)| == 2 * |bl| + 2
    ensures InRange(CommitWrites(lay, d, bl, data)[..k], |d|)
    ensures
      var e := Apply(d, CommitWrites(lay, d, bl, data)[..k]);
      WfDisk(lay, e) && HomeEq(lay, Logical(lay, e), d)
  {
    CommitPrefixSlots(lay, d, bl, data, k);
    CommitPrefixInstall(lay, d, bl, data, 0);
    CommitSlotsPhase(lay, d, data[..k]);
  }

  /** A commit that is not interrupted. */
  lemma CommitCompletes(lay: Layout, d: Disk, bl: seq<nat>, data: seq<Block>)
    requires WfDisk(lay, d) && Header(lay, d) == []
    requires Targets(lay, |d|, bl) && |data| == |bl| && bl != []
    ensures |CommitWrites(lay, d, bl, data)| == 2 * |bl| + 2
    ensures InRange(CommitWrites(lay, d, bl, data), |d|)
    ensures
      var e := Apply(d, CommitWrites(lay, d, bl, data));
      && WfDisk(lay, e) && Header(lay, e) == []
      && HomeEq(lay, Logical(lay, e), Overlay(d, bl, data))
      && HomeEq(lay, e, Overlay(d, bl, data))
  {
    hide Apply, InstallWrites, SlotWrites;
    var m := 2 * |bl| + 1;
    var ws := CommitWrites(lay, d, bl, data);
    CommitCrashInstalling(lay, d, bl, data, |bl|);
    var d3 := Apply(d, ws[..m]);
    assert ws == ws[..m] + [Write(lay.start, EncodeHeader(d3[lay.start], []))];
    ApplyAppend(d, ws[..m], ws[m]);
    ClearInstalled(lay, d3);
  }

  lemma RecoverStages(lay: Layout, d: Disk)
    requires WfDisk(lay, d)
    ensures InRange(RecoverWrites(lay, d), |d|)
    ensures Logical(lay, d)[lay.start] == d[lay.start]
    ensures Logical(lay, d)[lay.start := EncodeHeader(d[lay.start], [])] == Apply(d, RecoverWrites(lay, d))
  {
    hide Apply;
    RecoveryCrash(lay, d, 0);
    var bl := Header(lay, d);
    var data := Slots(lay, d, |bl|);
    LogicalAt(lay, d, bl, data);
    ApplyAppend(d, InstallWrites(bl, data), Write(lay.start, EncodeHeader(d[lay.start], [])));
  }

  lemma SlotsKept(lay: Layout, d: Disk, bl: seq<nat>, k: nat, x: Block)
    requires Targets(lay, |d|, bl) && k < |bl| && lay.start + lay.size <= |d|
    ensures Slots(lay, d[bl[k] := x], |bl|) == Slots(lay, d, |bl|)
  {
  }

  /** The four stages of commit, one after the other, are its write trace. */
  lemma CommitStages(lay: Layout, d: Disk, bl: seq<nat>, data: seq<Block>)
    requires Targets(lay, |d|, bl) && |data| == |bl| && bl != []
    requires lay.start + lay.size <= |d| && |d[lay.start].words| == WORDS
    ensures InRange(SlotWrites(lay, data), |d|) && InRange(CommitWrites(lay, d, bl, data), |d|)
    ensures Apply(d, SlotWrites(lay, data))[lay.start] == d[lay.start]
    ensures
      var d2 := HeaderWritten(lay, d, bl, data);
      var d3 := Overlay(d2, bl, data);
      && Slots(lay, d2, |bl|) == data
      && d3[lay.start] == d2[lay.start] == EncodeHeader(d[lay.start], bl)
      && |d3[lay.start].words| == WORDS
      && d3[lay.start := EncodeHeader(d3[lay.start], [])] == Apply(d, CommitWrites(lay, d, bl, data))
  {
    hide Apply, InstallWrites, SlotWrites;
    SlotsAt(lay, d, data);
    var d2 := HeaderWritten(lay, d, bl, data);
    assert Slots(lay, d2, |bl|) == Slots(lay, Apply(d, SlotWrites(lay, data)), |bl|);
    CommitTraceInstall(lay, d, bl, data, |bl|);
    assert bl[..|bl|] == bl && data[..|bl|] == data;
    OverlayAt(d2, bl, data);
    var ws := CommitWrites(lay, d, bl, data);
    var m := 2 * |bl| + 1;
    DecodeEncode(d[lay.start], bl);
    assert ws == ws[..m] + [ws[m]];
    ApplyAppend(d, ws[..m], ws[m]);
  }

  lemma CommitNothing(lay: Layout, d: Disk)
    requires WfDisk(lay, d) && Header(lay, d) == []
    ensures CommitWrites(lay, d, [], []) == [] && Apply(d, []) == d == Logical(lay, d) == Overlay(d, [], [])
  {
  }

  /**
   Commit is atomic under a crash after any of its writes: the meaning of the
   home blocks is the old one up to the header write and the whole group's from
   then on, never a mix.  A commit that runs to the end has installed the group
   and emptied the log.
   */
  lemma CommitCrash(lay: Layout, d: Disk, bl: seq<nat>, data: seq<Block>, k: nat)
    requires WfDisk(lay, d) && Header(lay, d) == []
    requires Targets(lay, |d|, bl) && |data| == |bl|
    requires k <= |CommitWrites(lay, d, bl, data)|
    ensures InRange(CommitWrites(lay, d, bl, data)[..k], |d|)
    ensures
      var ws := CommitWrites(lay, d, bl, data);
      var e := Apply(d, ws[..k]);
      && WfDisk(lay, e)
      && HomeEq(lay, Logical(lay, e), if k <= |bl| then d else Overlay(d, bl, data))
      && (k == |ws| ==> Header(lay, e) == [] && HomeEq(lay, e, Overlay(d, bl, data)))
  {
    hide Apply, InstallWrites, SlotWrites, CommitWrites;
    var n := |bl|;
    var ws := CommitWrites(lay, d, bl, data);
    if bl == [] {
      CommitNothing(lay, d);
    } else if k <= n {
      CommitCrashLogging(lay, d, bl, data, k);
    } else if k <= 2 * n + 1 {
      CommitCrashInstalling(lay, d, bl, data, k - n - 1);
    } else {
      CommitCompletes(lay, d, bl, data);
      assert k == |ws| && ws[..k] == ws;
    }
  }
}
