/** The copying loops of split_files and merge_files. */
module StreamsCode {
  import opened Streams

  // split_files

  /** What split_files writes to file i: its share, but for what is left in the buffer when the last read was full. */
  function Kept(len: nat, n: nat, t: nat, i: nat): (c: nat)
    requires i < n && t > 0
    ensures c <= Count(len, n, i)
  {
    if len % t != 0 then Count(len, n, i) else Count(len, n, i) - Count(len, n, i) % t
  }

  function SplitOut(s: seq<nat>, n: nat, t: nat): (outs: seq<seq<nat>>)
    requires t > 0
  {
    seq(n, i requires 0 <= i < n => Share(s, n, i)[..Kept(|s|, n, t, i)])
  }

  /** All bytes up to p are in the files or in the buffers, in order; what is in a file went there in full buffers. */
  ghost predicate Dealt(s: seq<nat>, n: nat, t: nat, p: nat, outs: seq<seq<nat>>, bufs: seq<seq<nat>>)
    requires t > 0
  {
    && |outs| == n && |bufs| == n && p <= |s|
    && forall i :: 0 <= i < n ==> outs[i] + bufs[i] == Share(s[..p], n, i) && |outs[i]| % t == 0
  }

  ghost predicate Below(bufs: seq<seq<nat>>, t: nat) {
    forall i :: 0 <= i < |bufs| ==> |bufs[i]| < t
  }

  lemma CountGrows(p: nat, q: nat, n: nat, i: nat)
    requires i < n && p <= q
    ensures Count(p, n, i) <= Count(q, n, i)
  {
    hide Count;
    var k := Count(q, n, i);
    CountAt(q, n, i, k);
    CountAt(p, n, i, k);
  }

  lemma MulMod(a: nat, t: nat)
    requires t > 0
    ensures (a * t) % t == 0 && (a * t) / t == a
  {
    DivUnique(a * t, t, a, 0);
  }

  lemma CountFull(full: nat, n: nat, i: nat)
    requires i < n
    ensures Count(full * n, n, i) == full
  {
    MulMod(full, n);
  }

  lemma AtLeast(p: nat, n: nat, i: nat, full: nat)
    requires i < n && p % n == i && Count(p, n, i) >= full
    ensures full * n <= p
  {
    MulMonotone(full, p / n, n);
    assert p == (p / n) * n + i;
  }

  lemma MulMonotone(a: int, b: int, t: nat)
    ensures a <= b ==> a * t <= b * t
  {
  }

  lemma AddMod(w: nat, t: nat)
    requires t > 0 && w % t == 0
    ensures (w + t) % t == 0
  {
    var a := w / t;
    assert w == a * t;
    DivUnique(w + t, t, a + 1, 0);
  }

  /** A file whose count was below a multiple of the buffer size when the chunk started is below it at each byte of the chunk. */
  lemma Room(pos: nat, p: nat, n: nat, t: nat, i: nat, full: nat)
    requires i < n && t > 0 && pos % t == 0 && pos <= p < pos + t && p % n == i
    requires full % t == 0 && Count(pos, n, i) < full
    ensures Count(p, n, i) < full
  {
    hide Count;
    if Count(p, n, i) >= full {
      AtLeast(p, n, i, full);
      var q := full * n;
      FullStart(pos, p, t, q, full, n);
      CountFull(full, n, i);
      CountGrows(q, pos, n, i);
    }
  }

  /** The start of a chunk is the last multiple of t. */
  lemma FullStart(pos: nat, p: nat, t: nat, q: nat, full: nat, n: nat)
    requires t > 0 && pos % t == 0 && p < pos + t && q <= p && q == full * n && full % t == 0
    ensures q <= pos
  {
    var a, b := full / t, pos / t;
    assert full == a * t && pos == b * t;
    assert q == (a * n) * t;
    MulMonotone(b + 1, a * n, t);
    MulMonotone(a * n, b, t);
  }

  /** The round-robin loop over one chunk: byte p goes to the buffer of file p % n, and no buffer overflows. */
  method DealChunk(ghost s: seq<nat>, n: nat, t: nat, ghost pos: nat, chunk: seq<nat>, ghost outs: seq<seq<nat>>,
                   bufs0: seq<seq<nat>>, current0: nat)
    returns (bufs: seq<seq<nat>>, current: nat)
    requires n > 0 && t > 0 && pos % t == 0 && 0 < |chunk| <= t && pos + |chunk| <= |s| && chunk == s[pos..pos + |chunk|]
    requires Dealt(s, n, t, pos, outs, bufs0) && Below(bufs0, t) && current0 == pos % n
    ensures Dealt(s, n, t, pos + |chunk|, outs, bufs) && current == (pos + |chunk|) % n
    ensures forall i :: 0 <= i < n ==> |bufs[i]| <= t
  {
    hide Share, Count;
    bufs, current := bufs0, current0;
    var k := 0;
    while k < |chunk|
      invariant k <= |chunk| && current == (pos + k) % n < n
      invariant Dealt(s, n, t, pos + k, outs, bufs) && forall i :: 0 <= i < n ==> |bufs[i]| <= t
      decreases |chunk| - k
    {
      ghost var k0, c0 := k, current;
      var i := 0;
      while i < n && k < |chunk|
        invariant 0 <= i <= n && k0 <= k <= |chunk| && current == (pos + k) % n
        invariant k == k0 ==> current == c0 && i <= c0
        invariant k > k0 && k < |chunk| && i < n ==> current == i
        invariant Dealt(s, n, t, pos + k, outs, bufs) && forall j :: 0 <= j < n ==> |bufs[j]| <= t
      {
        if current == i {
          HasRoom(s, n, t, pos, pos + k, outs, bufs0, bufs, i);
          DealOne(s, n, t, pos + k, outs, bufs, i);
          DivNext(pos + k, n);
          assert chunk[k] == s[pos + k];
          bufs := bufs[i := bufs[i] + [chunk[k]]];
          k, current := k + 1, current + 1;
        }
        if current == n {
          current := 0;
        }
        i := i + 1;
      }
    }
  }

  lemma HasRoom(s: seq<nat>, n: nat, t: nat, pos: nat, p: nat, outs: seq<seq<nat>>, bufs0: seq<seq<nat>>, bufs: seq<seq<nat>>, i: nat)
    requires t > 0 && i < n && pos % t == 0 && pos <= p < pos + t && p < |s| && p % n == i
    requires Dealt(s, n, t, pos, outs, bufs0) && Below(bufs0, t) && Dealt(s, n, t, p, outs, bufs)
    ensures |bufs[i]| < t
  {
    hide Count;
    assert |outs[i] + bufs0[i]| == |outs[i]| + |bufs0[i]|;
    assert |outs[i] + bufs[i]| == |outs[i]| + |bufs[i]|;
    AddMod(|outs[i]|, t);
    Room(pos, p, n, t, i, |outs[i]| + t);
  }

  lemma DealOne(s: seq<nat>, n: nat, t: nat, p: nat, outs: seq<seq<nat>>, bufs: seq<seq<nat>>, i: nat)
    requires t > 0 && i < n && p < |s| && p % n == i && Dealt(s, n, t, p, outs, bufs)
    ensures Dealt(s, n, t, p + 1, outs, bufs[i := bufs[i] + [s[p]]])
  {
    hide Share, Count;
    forall j | 0 <= j < n
      ensures outs[j] + bufs[i := bufs[i] + [s[p]]][j] == Share(s[..p + 1], n, j)
    {
      ShareNext(s, n, j, p);
      if j == i {
        assert outs[i] + (bufs[i] + [s[p]]) == (outs[i] + bufs[i]) + [s[p]];
      } else {
        assert Share(s[..p], n, j) + [] == Share(s[..p], n, j);
      }
    }
  }

  /** The flush loop after a chunk: full buffers are written out, and all of them after a short read. */
  method Flush(ghost s: seq<nat>, n: nat, t: nat, ghost p: nat, last: bool, outs0: seq<seq<nat>>, bufs0: seq<seq<nat>>)
    returns (outs: seq<seq<nat>>, bufs: seq<seq<nat>>)
    requires t > 0 && Dealt(s, n, t, p, outs0, bufs0) && forall i :: 0 <= i < n ==> |bufs0[i]| <= t
    ensures |outs| == n && |bufs| == n && p <= |s| && forall i :: 0 <= i < n ==> outs[i] + bufs[i] == Share(s[..p], n, i)
    ensures if last then forall i :: 0 <= i < n ==> bufs[i] == [] else Dealt(s, n, t, p, outs, bufs) && Below(bufs, t)
  {
    hide Share, Count;
    outs, bufs := outs0, bufs0;
    for i := 0 to n
      invariant |outs| == n && |bufs| == n
      invariant forall j :: 0 <= j < n ==> outs[j] + bufs[j] == Share(s[..p], n, j)
      invariant forall j :: i <= j < n ==> outs[j] == outs0[j] && bufs[j] == bufs0[j]
      invariant forall j :: 0 <= j < i ==> if last then bufs[j] == [] else |outs[j]| % t == 0 && |bufs[j]| < t
    {
      if |bufs[i]| == t || last {
        assert outs[i] + bufs[i] == outs[i] + bufs[i] + [];
        AddMod(|outs[i]|, t);
        outs := outs[i := outs[i] + bufs[i]];
        bufs := bufs[i := []];
      }
    }
  }

  /** split_files: every file gets its share of the stream, less what stays in its buffer when the last read was full. */
  method SplitFiles(s: seq<nat>, n: nat, t: nat) returns (outs: seq<seq<nat>>)
    requires n > 0 && t > 0
    ensures outs == SplitOut(s, n, t)
  {
    hide Share, Count, Kept, SplitOut;
    outs := seq(n, i => []);
    var bufs: seq<seq<nat>> := seq(n, i => []);
    var pos, current, short := 0, 0, false;
    NothingDealt(s, n, t, outs, bufs);
    while pos < |s|
      invariant pos <= |s| && |outs| == n && |bufs| == n && current < n
      invariant forall i :: 0 <= i < n ==> outs[i] + bufs[i] == Share(s[..pos], n, i)
      invariant if short then pos == |s| && |s| % t != 0 && forall i :: 0 <= i < n ==> bufs[i] == []
                else pos % t == 0 && Dealt(s, n, t, pos, outs, bufs) && Below(bufs, t) && current == pos % n
      decreases |s| - pos
    {
      var num := if |s| - pos < t then |s| - pos else t;
      bufs, current := DealChunk(s, n, t, pos, s[pos..pos + num], outs, bufs, current);
      outs, bufs := Flush(s, n, t, pos + num, num < t, outs, bufs);
      if num == t {
        AddMod(pos, t);
      } else {
        ShortMod(pos, num, t);
        short := true;
      }
      pos := pos + num;
    }
    SplitEnd(s, n, t, pos, outs, bufs);
  }

  lemma SplitEnd(s: seq<nat>, n: nat, t: nat, pos: nat, outs: seq<seq<nat>>, bufs: seq<seq<nat>>)
    requires t > 0 && pos == |s| && |outs| == n && |bufs| == n
    requires forall i :: 0 <= i < n ==> outs[i] + bufs[i] == Share(s[..pos], n, i)
    requires if |s| % t != 0 then forall i :: 0 <= i < n ==> bufs[i] == [] else Dealt(s, n, t, pos, outs, bufs) && Below(bufs, t)
    ensures outs == SplitOut(s, n, t)
  {
    hide Share, Count, Kept;
    assert s[..pos] == s;
    forall i | 0 <= i < n
      ensures outs[i] == Share(s, n, i)[..Kept(|s|, n, t, i)]
    {
      assert |outs[i] + bufs[i]| == |outs[i]| + |bufs[i]|;
      KeptIs(|s|, n, t, i, |outs[i]|);
    }
  }

  lemma NothingDealt(s: seq<nat>, n: nat, t: nat, outs: seq<seq<nat>>, bufs: seq<seq<nat>>)
    requires t > 0 && |outs| == n && |bufs| == n && forall i :: 0 <= i < n ==> outs[i] == [] && bufs[i] == []
    ensures Dealt(s, n, t, 0, outs, bufs) && Below(bufs, t)
  {
    forall i | 0 <= i < n
      ensures Share(s[..0], n, i) == []
    {
      CountFull(0, n, i);
    }
  }

  lemma ShortMod(pos: nat, num: nat, t: nat)
    requires t > 0 && pos % t == 0 && 0 < num < t
    ensures (pos + num) % t != 0
  {
    DivUnique(pos + num, t, pos / t, num);
  }

  lemma KeptIs(len: nat, n: nat, t: nat, i: nat, out: nat)
    requires i < n && t > 0 && out <= Count(len, n, i)
    requires if len % t != 0 then out == Count(len, n, i) else out % t == 0 && Count(len, n, i) < out + t
    ensures out == Kept(len, n, t, i)
  {
    hide Count;
    if len % t == 0 {
      DivUnique(Count(len, n, i), t, out / t, Count(len, n, i) - out);
    }
  }

  // merge_files

  /** What a read of t bytes at base gives. */
  function Chunk(f: seq<nat>, base: nat, t: nat): (r: seq<nat>) {
    if |f| <= base then [] else if |f| <= base + t then f[base..] else f[base..base + t]
  }

  ghost predicate AreChunks(files: seq<seq<nat>>, base: nat, t: nat, bufs: seq<seq<nat>>) {
    |bufs| == |files| && forall i :: 0 <= i < |files| ==> bufs[i] == Chunk(files[i], base, t)
  }

  /** Every buffer with bytes in it has been read up to column col, or to its end. */
  ghost predicate AtColumn(bufs: seq<seq<nat>>, offset: seq<nat>, col: nat) {
    |offset| == |bufs| && forall i :: 0 <= i < |bufs| && bufs[i] != [] ==> offset[i] == if col < |bufs[i]| then col else |bufs[i]|
  }

  ghost predicate Exhausted(bufs: seq<seq<nat>>, col: nat) {
    forall i :: 0 <= i < |bufs| ==> |bufs[i]| <= col
  }

  lemma {:induction false} NoBytes(files: seq<seq<nat>>, k: nat, m: nat)
    requires m <= |files| && Exhausted(files, k)
    ensures Column(files, k, m) == []
    decreases m
  {
    if m > 0 {
      NoBytes(files, k, m - 1);
    }
  }

  lemma {:induction false} ColumnsStop(files: seq<seq<nat>>, k: nat, k': nat)
    requires k <= k' && Exhausted(files, k)
    ensures Columns(files, k') == Columns(files, k)
    decreases k'
  {
    hide Columns, Column;
    if k < k' {
      ColumnsStop(files, k, k' - 1);
      NoBytes(files, k' - 1, |files|);
      ColumnsNext(files, k' - 1);
    }
  }

  lemma {:induction false} ChunkColumn(files: seq<seq<nat>>, base: nat, t: nat, bufs: seq<seq<nat>>, col: nat, m: nat)
    requires AreChunks(files, base, t, bufs) && col < t && m <= |files|
    ensures Column(bufs, col, m) == Column(files, base + col, m)
    decreases m
  {
    if m > 0 {
      ChunkColumn(files, base, t, bufs, col, m - 1);
    }
  }

  lemma {:induction false} ChunkColumns(files: seq<seq<nat>>, base: nat, t: nat, bufs: seq<seq<nat>>, col: nat)
    requires AreChunks(files, base, t, bufs) && col <= t
    ensures Columns(files, base) + Columns(bufs, col) == Columns(files, base + col)
    decreases col
  {
    hide Columns, Column, AreChunks;
    if col == 0 {
      NoColumns(bufs);
      assert Columns(files, base) + [] == Columns(files, base);
    } else {
      ChunkColumns(files, base, t, bufs, col - 1);
      ChunkColumn(files, base, t, bufs, col - 1, |files|);
      ColumnsNext(files, base + (col - 1));
      ColumnsNext(bufs, col - 1);
      var a, b, c := Columns(files, base), Columns(bufs, col - 1), Column(bufs, col - 1, |bufs|);
      assert |bufs| == |files| by { ChunkSizes(files, base, t, bufs); }
      assert a + (b + c) == (a + b) + c;
    }
  }

  lemma NoColumns(files: seq<seq<nat>>)
    ensures Columns(files, 0) == []
  {
  }

  lemma ColumnsNext(files: seq<seq<nat>>, k: nat)
    ensures Columns(files, k + 1) == Columns(files, k) + Column(files, k, |files|)
  {
  }

  lemma ChunkSizes(files: seq<seq<nat>>, base: nat, t: nat, bufs: seq<seq<nat>>)
    requires t > 0 && AreChunks(files, base, t, bufs)
    ensures |bufs| == |files| && Exhausted(bufs, t)
    ensures Exhausted(bufs, 0) <==> Exhausted(files, base)
  {
    forall i | 0 <= i < |files|
      ensures |bufs[i]| <= 0 <==> |files[i]| <= base
    {
    }
  }

  /** One round of the merge: a byte from every buffer that has one left. */
  method Round(bufs: seq<seq<nat>>, offset0: seq<nat>, ghost col: nat) returns (row: seq<nat>, offset: seq<nat>, idle: nat)
    requires AtColumn(bufs, offset0, col)
    ensures row == Column(bufs, col, |bufs|) && AtColumn(bufs, offset, col + 1)
    ensures |row| + idle == |bufs| && (idle == |bufs| <==> Exhausted(bufs, col))
  {
    row, offset, idle := [], offset0, 0;
    for i := 0 to |bufs|
      invariant |offset| == |bufs| && row == Column(bufs, col, i) && |row| + idle == i
      invariant forall j :: i <= j < |bufs| ==> offset[j] == offset0[j]
      invariant forall j :: 0 <= j < i && bufs[j] != [] ==> offset[j] == if col + 1 < |bufs[j]| then col + 1 else |bufs[j]|
      invariant idle == i <==> forall j :: 0 <= j < i ==> |bufs[j]| <= col
    {
      if offset[i] != |bufs[i]| && |bufs[i]| != 0 {
        row := row + [bufs[i][offset[i]]];
        offset := offset[i := offset[i] + 1];
      } else {
        idle := idle + 1;
      }
    }
  }

  /** How many bytes the output buffer ends up with when it holds have of them at column col. */
  function FillSize(bufs: seq<seq<nat>>, t: nat, col: nat, have: nat): (c: nat)
    ensures c >= have
    decreases if col <= Longest(bufs) then Longest(bufs) - col + 1 else 0
  {
    if have >= t || Longest(bufs) <= col then have else FillSize(bufs, t, col + 1, have + |Column(bufs, col, |bufs|)|)
  }

  /** Rounds until the output buffer holds at least t bytes or there is nothing left: it may hold up to n - 1 more. */
  method FillBuffer(bufs: seq<seq<nat>>, offset0: seq<nat>, t: nat, ghost col0: nat)
    returns (buffer: seq<nat>, offset: seq<nat>, ghost col: nat)
    requires AtColumn(bufs, offset0, col0) && t > 0 && !Exhausted(bufs, col0)
    ensures AtColumn(bufs, offset, col) && col0 < col && Columns(bufs, col0) + buffer == Columns(bufs, col)
    ensures |buffer| == FillSize(bufs, t, col0, 0) <= t + |bufs| - 1
    ensures |buffer| >= t || Exhausted(bufs, col)
  {
    hide Column, AtColumn;
    buffer, offset, col := [], offset0, col0;
    while |buffer| < t
      invariant AtColumn(bufs, offset, col) && col0 <= col && Columns(bufs, col0) + buffer == Columns(bufs, col)
      invariant |buffer| <= t + |bufs| - 1 && (col == col0 ==> buffer == [])
      invariant FillSize(bufs, t, col, |buffer|) == FillSize(bufs, t, col0, 0)
      decreases Longest(bufs) - col, t - |buffer|
    {
      var row, idle;
      row, offset, idle := Round(bufs, offset, col);
      assert Columns(bufs, col0) + (buffer + row) == (Columns(bufs, col0) + buffer) + row;
      AllOver(bufs, col);
      buffer := buffer + row;
      col := col + 1;
      if idle == |bufs| {
        break;
      }
    }
  }

  lemma AllOver(bufs: seq<seq<nat>>, col: nat)
    ensures bufs != [] ==> (Exhausted(bufs, col) <==> Longest(bufs) <= col)
  {
  }

  lemma NotYet(bufs: seq<seq<nat>>, col: nat)
    requires !Exhausted(bufs, col)
    ensures col < Longest(bufs)
  {
  }

  /** read_buffers on every input file. */
  method ReadAll(files: seq<seq<nat>>, base: nat, t: nat) returns (bufs: seq<seq<nat>>, ended: nat)
    requires t > 0
    ensures AreChunks(files, base, t, bufs) && (ended == |files| <==> Exhausted(bufs, 0))
  {
    bufs, ended := [], 0;
    for i := 0 to |files|
      invariant |bufs| == i && (forall j :: 0 <= j < i ==> bufs[j] == Chunk(files[j], base, t))
      invariant ended <= i && (ended == i <==> forall j :: 0 <= j < i ==> |bufs[j]| <= 0)
    {
      var b := Chunk(files[i], base, t);
      if b == [] {
        ended := ended + 1;
      }
      bufs := bufs + [b];
    }
  }

  method Rewind(bufs: seq<seq<nat>>, offset0: seq<nat>) returns (offset: seq<nat>)
    requires |offset0| == |bufs|
    ensures AtColumn(bufs, offset, 0)
  {
    offset := offset0;
    for i := 0 to |bufs|
      invariant |offset| == |bufs| && forall j :: 0 <= j < i && bufs[j] != [] ==> offset[j] == 0
    {
      if bufs[i] != [] {
        offset := offset[i := 0];
      }
    }
  }

  method Emptied(bufs: seq<seq<nat>>, offset: seq<nat>, ghost col: nat) returns (done: bool)
    requires AtColumn(bufs, offset, col)
    ensures done <==> Exhausted(bufs, col)
  {
    var emptied := 0;
    for i := 0 to |bufs|
      invariant emptied <= i && (emptied == i <==> forall j :: 0 <= j < i ==> |bufs[j]| <= col)
    {
      if offset[i] == |bufs[i]| || |bufs[i]| == 0 {
        emptied := emptied + 1;
      }
    }
    return emptied == |bufs|;
  }

  /** merge_files: all bytes, ordered by position and then by file, whatever the buffer size. */
  method MergeFiles(files: seq<seq<nat>>, t: nat) returns (out: seq<nat>, ghost widest: nat)
    requires t > 0
    ensures out == Merged(files)
    ensures files != [] ==> widest <= t + |files| - 1
  {
    hide AreChunks, Columns, Merged;
    out, widest := [], 0;
    var base := 0;
    var offset := seq(|files|, i => 0);
    NoColumns(files);
    while true
      invariant out == Columns(files, base) && |offset| == |files|
      invariant files != [] ==> widest <= t + |files| - 1
      decreases if base <= Longest(files) then Longest(files) + t - base else 0
    {
      var bufs, ended := ReadAll(files, base, t);
      ChunkSizes(files, base, t, bufs);
      if ended == |files| {
        MergedEnd(files, base);
        return;
      }
      NotYet(files, base);
      offset := Rewind(bufs, offset);
      ghost var w;
      out, offset, w := MergeChunk(files, base, t, bufs, offset, out);
      widest := if w > widest then w else widest;
      base := base + t;
    }
  }

  lemma MergedEnd(files: seq<seq<nat>>, base: nat)
    requires Exhausted(files, base)
    ensures Columns(files, base) == Merged(files)
  {
    hide Columns;
    if files == [] {
      ColumnsStop(files, 0, base);
    } else {
      ColumnsStop(files, Longest(files), base);
    }
  }

  /** One chunk of every file, through as many output buffers as it takes. */
  method MergeChunk(ghost files: seq<seq<nat>>, ghost base: nat, t: nat, bufs: seq<seq<nat>>, offset0: seq<nat>, out0: seq<nat>)
    returns (out: seq<nat>, offset: seq<nat>, ghost widest: nat)
    requires t > 0 && AreChunks(files, base, t, bufs) && out0 == Columns(files, base) && AtColumn(bufs, offset0, 0) && !Exhausted(bufs, 0)
    ensures out == Columns(files, base + t) && |offset| == |files| && widest <= t + |files| - 1
  {
    hide AreChunks, Columns, Exhausted;
    ChunkSizes(files, base, t, bufs);
    NoColumns(bufs);
    out, offset, widest := out0, offset0, 0;
    ghost var col := 0;
    assert out0 + [] == out0;
    var done := Emptied(bufs, offset, col);
    SomeBytes(bufs);
    while !done
      invariant |offset| == |files| && AtColumn(bufs, offset, col) && out == out0 + Columns(bufs, col)
      invariant done <==> Exhausted(bufs, col)
      invariant widest <= t + |files| - 1
      decreases if done then 0 else 1, Longest(bufs) - col
    {
      NotYet(bufs, col);
      var buffer;
      ghost var col';
      buffer, offset, col' := FillBuffer(bufs, offset, t, col);
      assert out0 + (Columns(bufs, col) + buffer) == (out0 + Columns(bufs, col)) + buffer;
      out := out + buffer;
      widest := if |buffer| > widest then |buffer| else widest;
      col := col';
      done := Emptied(bufs, offset, col);
    }
    ColumnsSame(bufs, col, t);
    ChunkColumns(files, base, t, bufs, t);
  }

  lemma SomeBytes(bufs: seq<seq<nat>>)
    requires !Exhausted(bufs, 0)
    ensures |bufs| > 0
  {
  }

  lemma ColumnsSame(bufs: seq<seq<nat>>, a: nat, b: nat)
    requires Exhausted(bufs, a) && Exhausted(bufs, b)
    ensures Columns(bufs, a) == Columns(bufs, b)
  {
    if a <= b {
      ColumnsStop(bufs, a, b);
    } else {
      ColumnsStop(bufs, b, a);
    }
  }
}
