/** When merging the split of a stream gives the stream back, and when the merge's output buffer is large enough. */
module StreamsRoundTrip {
  import opened Streams
  import opened StreamsCode

  /** split_files loses nothing. */
  predicate Lossless(len: nat, n: nat, t: nat)
    requires n > 0 && t > 0
  {
    t == 1 || len % t != 0 || len % (n * t) == 0
  }

  /**
   Byte k of file i is byte k * n + i of the stream.  It is there when the
   stream is that long, unless the stream is a multiple of t long and the
   t bytes of the file that k belongs to were not all there.
   */
  lemma SplitBytes(s: seq<nat>, n: nat, t: nat, i: nat, k: nat)
    requires i < n && t > 0
    ensures |SplitOut(s, n, t)| == n
    ensures k < |SplitOut(s, n, t)[i]| <==> k * n + i < |s| && (|s| % t != 0 || (k / t * t + t - 1) * n + i < |s|)
    ensures k < |SplitOut(s, n, t)[i]| ==> k * n + i < |s| && SplitOut(s, n, t)[i][k] == s[k * n + i]
  {
    hide Count;
    var c := Count(|s|, n, i);
    CountAt(|s|, n, i, k);
    CountAt(|s|, n, i, k / t * t + t - 1);
    WholeBuffers(c, t, k);
    if k < c {
      ShareAt(s, n, i, k);
    }
  }

  lemma WholeBuffers(c: nat, t: nat, k: nat)
    requires t > 0
    ensures k < c - c % t <==> k / t * t + t - 1 < c
    ensures k / t * t + t - 1 >= k
  {
    var q, b := k / t, c / t;
    assert k == q * t + k % t && c == b * t + c % t;
    MulMonotone(q + 1, b, t);
    MulMonotone(b, q, t);
    assert (q + 1) * t == q * t + t;
    if q < b {
      assert (q + 1) * t <= b * t;
    } else {
      assert b * t <= q * t;
    }
  }

  function Total(files: seq<seq<nat>>): (c: nat) {
    if files == [] then 0 else Total(files[..|files| - 1]) + |files[|files| - 1]|
  }

  function UpTo(x: nat, k: nat): (m: nat) {
    if x < k then x else k
  }

  /** The bytes of the first k columns, counted file by file. */
  function BytesBelow(files: seq<seq<nat>>, k: nat): (c: nat) {
    if files == [] then 0 else BytesBelow(files[..|files| - 1], k) + UpTo(|files[|files| - 1]|, k)
  }

  lemma {:induction false} ColumnPrefix(files: seq<seq<nat>>, k: nat, m: nat)
    requires m < |files|
    ensures Column(files[..|files| - 1], k, m) == Column(files, k, m)
    decreases m
  {
    if m > 0 {
      ColumnPrefix(files, k, m - 1);
    }
  }

  lemma {:induction false} ColumnSize(files: seq<seq<nat>>, k: nat)
    ensures |Column(files, k, |files|)| == BytesBelow(files, k + 1) - BytesBelow(files, k)
    decreases |files|
  {
    if files != [] {
      ColumnSize(files[..|files| - 1], k);
      ColumnPrefix(files, k, |files| - 1);
    }
  }

  lemma {:induction false} ColumnsSize(files: seq<seq<nat>>, k: nat)
    ensures |Columns(files, k)| == BytesBelow(files, k)
    decreases k
  {
    hide Columns, Column, BytesBelow;
    if k == 0 {
      BelowNone(files);
      NoColumns(files);
    } else {
      ColumnsSize(files, k - 1);
      ColumnSize(files, k - 1);
      ColumnsNext(files, k - 1);
    }
  }

  lemma {:induction false} BelowNone(files: seq<seq<nat>>)
    ensures BytesBelow(files, 0) == 0
    decreases |files|
  {
    if files != [] {
      BelowNone(files[..|files| - 1]);
    }
  }

  lemma {:induction false} BelowAll(files: seq<seq<nat>>, k: nat)
    requires Exhausted(files, k)
    ensures BytesBelow(files, k) == Total(files)
    decreases |files|
  {
    if files != [] {
      BelowAll(files[..|files| - 1], k);
    }
  }

  /** How many of the first m files have a byte k. */
  function Having(files: seq<seq<nat>>, k: nat, m: nat): (c: nat)
    requires m <= |files|
  {
    if m == 0 then 0 else Having(files, k, m - 1) + if k < |files[m - 1]| then 1 else 0
  }

  lemma {:induction false} ColumnAt(files: seq<seq<nat>>, k: nat, m: nat, i: nat)
    requires i < m <= |files| && k < |files[i]|
    ensures Having(files, k, i) < |Column(files, k, m)| == Having(files, k, m)
    ensures Column(files, k, m)[Having(files, k, i)] == files[i][k]
    decreases m
  {
    ColumnHas(files, k, m);
    ColumnHas(files, k, m - 1);
    if i < m - 1 {
      ColumnAt(files, k, m - 1, i);
    }
  }

  lemma {:induction false} ColumnHas(files: seq<seq<nat>>, k: nat, m: nat)
    requires m <= |files|
    ensures |Column(files, k, m)| == Having(files, k, m)
    decreases m
  {
    if m > 0 {
      ColumnHas(files, k, m - 1);
    }
  }

  lemma {:induction false} ColumnsPrefix(files: seq<seq<nat>>, k: nat, m: nat)
    requires k <= m
    ensures Columns(files, k) <= Columns(files, m)
    decreases m
  {
    if k < m {
      ColumnsPrefix(files, k, m - 1);
    }
  }

  /** Byte k of file i comes behind all bytes before position k, and behind byte k of the files before it. */
  lemma MergedAt(files: seq<seq<nat>>, i: nat, k: nat)
    requires i < |files| && k < |files[i]|
    ensures var at := BytesBelow(files, k) + Having(files, k, i);
            at < |Merged(files)| && Merged(files)[at] == files[i][k]
  {
    ColumnAt(files, k, |files|, i);
    ColumnsSize(files, k);
    ColumnsPrefix(files, k + 1, Longest(files));
    assert Columns(files, k + 1) == Columns(files, k) + Column(files, k, |files|);
  }

  /** Merging keeps every byte. */
  lemma MergedSize(files: seq<seq<nat>>)
    ensures |Merged(files)| == Total(files)
  {
    ColumnsSize(files, Longest(files));
    BelowAll(files, Longest(files));
  }

  /** Shorter files, one of them truly shorter, have fewer bytes. */
  lemma {:induction false} TotalLess(a: seq<seq<nat>>, b: seq<seq<nat>>)
    requires |a| == |b| && forall i :: 0 <= i < |a| ==> |a[i]| <= |b[i]|
    ensures Total(a) <= Total(b)
    ensures (exists i :: 0 <= i < |a| && |a[i]| < |b[i]|) ==> Total(a) < Total(b)
    decreases |a|
  {
    if a != [] {
      TotalLess(a[..|a| - 1], b[..|b| - 1]);
      if exists i :: 0 <= i < |a| && |a[i]| < |b[i]| {
        var i :| 0 <= i < |a| && |a[i]| < |b[i]|;
        assert i < |a| - 1 ==> a[..|a| - 1][i] == a[i] && b[..|b| - 1][i] == b[i];
      }
    }
  }

  /** All files keep all they were given exactly when the split is lossless. */
  lemma KeptAll(len: nat, n: nat, t: nat)
    requires n > 0 && t > 0
    ensures Lossless(len, n, t) <==> forall i :: 0 <= i < n ==> Kept(len, n, t, i) == Count(len, n, i)
  {
    hide Count;
    if len % t == 0 && t > 1 {
      if len % (n * t) == 0 {
        forall i | 0 <= i < n
          ensures Count(len, n, i) % t == 0
        {
          EvenShare(len, n, t, i);
        }
      } else if forall i :: 0 <= i < n ==> Kept(len, n, t, i) == Count(len, n, i) {
        assert Kept(len, n, t, 0) == Count(len, n, 0) && Kept(len, n, t, n - 1) == Count(len, n, n - 1);
        OddShare(len, n, t);
      }
    }
  }

  lemma EvenShare(len: nat, n: nat, t: nat, i: nat)
    requires i < n && t > 0 && len % (n * t) == 0
    ensures Count(len, n, i) % t == 0
  {
    var a := len / (n * t);
    assert len == a * (n * t);
    assert a * (n * t) == (a * t) * n by { MulSwap(a, n, t); }
    CountFull(a * t, n, i);
    MulMod(a, t);
  }

  lemma MulSwap(a: nat, n: nat, t: nat)
    ensures a * (n * t) == (a * t) * n
  {
  }

  /** If the first and the last count are multiples of t > 1, they are equal, and the stream is full rounds of full buffers. */
  lemma OddShare(len: nat, n: nat, t: nat)
    requires n > 0 && t > 1 && Count(len, n, 0) % t == 0 && Count(len, n, n - 1) % t == 0
    ensures len % (n * t) == 0
  {
    var q, r := len / n, len % n;
    assert Count(len, n, n - 1) == q;
    if r > 0 {
      assert Count(len, n, 0) == q + 1;
      NextMod(q, t);
    }
    var a := q / t;
    assert q == a * t;
    assert len == q * n;
    MulSwap(a, n, t);
    MulMod(a, n * t);
  }

  lemma NextMod(q: nat, t: nat)
    requires t > 1 && q % t == 0
    ensures (q + 1) % t != 0
  {
    DivUnique(q + 1, t, q / t, 1);
  }

  /** Merging what split_files wrote gives the stream back exactly when the split is lossless, whatever the buffer sizes. */
  lemma SplitThenMerge(s: seq<nat>, n: nat, t: nat)
    requires n > 0 && t > 0
    ensures Merged(SplitOut(s, n, t)) == s <==> Lossless(|s|, n, t)
  {
    hide Merged, Share, Count, Kept, Lossless, Total;
    KeptAll(|s|, n, t);
    MergeShares(s, n);
    var outs, shares := SplitOut(s, n, t), Shares(s, n);
    if Lossless(|s|, n, t) {
      forall i | 0 <= i < n
        ensures outs[i] == shares[i]
      {
        assert Share(s, n, i)[..Count(|s|, n, i)] == Share(s, n, i);
      }
      assert outs == shares;
    } else {
      var i :| 0 <= i < n && Kept(|s|, n, t, i) != Count(|s|, n, i);
      assert |outs[i]| < |shares[i]|;
      TotalLess(outs, shares);
      MergedSize(outs);
      MergedSize(shares);
    }
  }

  // The output buffer of t bytes.

  /** No output buffer filled from column col of a chunk on holds more than t bytes. */
  ghost predicate Fits(bufs: seq<seq<nat>>, t: nat, col: nat) {
    FillSize(bufs, t, col, 0) <= t
  }

  /** Every chunk of t bytes of any n files fits, from whatever column a buffer starts. */
  ghost predicate AlwaysFits(n: nat, t: nat) {
    forall bufs: seq<seq<nat>>, col: nat :: |bufs| == n && Exhausted(bufs, t) ==> Fits(bufs, t, col)
  }

  lemma {:induction false} OneFile(bufs: seq<seq<nat>>, t: nat, col: nat, have: nat)
    requires |bufs| == 1 && have <= t
    ensures FillSize(bufs, t, col, have) <= t
    decreases if col <= Longest(bufs) then Longest(bufs) - col + 1 else 0
  {
    if have < t && col < Longest(bufs) {
      assert Column(bufs, col, 1) == Column(bufs, col, 0) + if col < |bufs[0]| then [bufs[0][col]] else [];
      OneFile(bufs, t, col + 1, have + |Column(bufs, col, 1)|);
    }
  }

  lemma TwoColumn(bufs: seq<seq<nat>>, col: nat)
    requires |bufs| == 2
    ensures |Column(bufs, col, 2)| == (if col < |bufs[0]| then 1 else 0) + if col < |bufs[1]| then 1 else 0
  {
    assert |Column(bufs, col, 1)| == if col < |bufs[0]| then 1 else 0;
  }

  /** Two files give two bytes a round, and from some round on at most one. */
  lemma {:induction false} TwoFiles(bufs: seq<seq<nat>>, t: nat, col: nat, have: nat)
    requires |bufs| == 2 && t % 2 == 0 && have <= t
    requires col < |bufs[0]| && col < |bufs[1]| ==> have % 2 == 0
    ensures FillSize(bufs, t, col, have) <= t
    decreases if col <= Longest(bufs) then Longest(bufs) - col + 1 else 0
  {
    if have < t && col < Longest(bufs) {
      TwoColumn(bufs, col);
      TwoFiles(bufs, t, col + 1, have + |Column(bufs, col, 2)|);
    }
  }

  /** a files of length x, then zero or one file of length 1, then empty ones: n in all. */
  function Uneven(n: nat, x: nat, one: bool): (bufs: seq<seq<nat>>)
    requires n >= 2 && (one ==> n >= 3)
  {
    seq(n, i => if i < 2 then seq(x, j => 0) else if one && i == 2 then [0] else [])
  }

  lemma {:induction false} UnevenColumn(n: nat, x: nat, one: bool, col: nat, m: nat)
    requires n >= 2 && (one ==> n >= 3) && m <= n && col < x
    ensures |Column(Uneven(n, x, one), col, m)| == (if m < 2 then m else 2) + if one && m > 2 && col == 0 then 1 else 0
    decreases m
  {
    if m > 0 {
      UnevenColumn(n, x, one, col, m - 1);
    }
  }

  lemma UnevenSize(n: nat, x: nat, one: bool)
    requires n >= 2 && (one ==> n >= 3)
    ensures |Uneven(n, x, one)| == n
  {
  }

  lemma UnevenLongest(n: nat, x: nat, one: bool)
    requires n >= 2 && (one ==> n >= 3) && x >= 1
    ensures Longest(Uneven(n, x, one)) == x && Exhausted(Uneven(n, x, one), x)
  {
    var bufs := Uneven(n, x, one);
    assert |bufs[0]| == x;
  }

  /** Two bytes a round step over t when they are out of step with it. */
  lemma {:induction false} StepsOver(n: nat, t: nat, one: bool, col: nat, have: nat)
    requires n >= 2 && (one ==> n >= 3) && t >= 1 && have <= t + 1 && (t + 1 - have) % 2 == 0
    requires (col > 0 || !one) && col + (t + 1 - have) / 2 <= t
    ensures FillSize(Uneven(n, t, one), t, col, have) == t + 1
    decreases t + 1 - have
  {
    hide Column, Uneven, Longest, Exhausted;
    UnevenLongest(n, t, one);
    if have < t {
      UnevenSize(n, t, one);
      UnevenColumn(n, t, one, col, n);
      StepsOver(n, t, one, col + 1, have + 2);
    }
  }

  /** A buffer of t bytes is enough for every input exactly for one file, or two files and an even t. */
  lemma BufferSuffices(n: nat, t: nat)
    requires n > 0 && t > 0
    ensures AlwaysFits(n, t) <==> n == 1 || (n == 2 && t % 2 == 0)
  {
    if n == 1 || (n == 2 && t % 2 == 0) {
      forall bufs: seq<seq<nat>>, col: nat | |bufs| == n && Exhausted(bufs, t)
        ensures Fits(bufs, t, col)
      {
        if n == 1 {
          OneFile(bufs, t, col, 0);
        } else {
          TwoFiles(bufs, t, col, 0);
        }
      }
    } else if t % 2 == 1 {
      UnevenLongest(n, t, false);
      StepsOver(n, t, false, 0, 0);
      assert !Fits(Uneven(n, t, false), t, 0);
    } else {
      var bufs := Uneven(n, t, true);
      UnevenLongest(n, t, true);
      UnevenColumn(n, t, true, 0, n);
      assert FillSize(bufs, t, 0, 0) == FillSize(bufs, t, 1, 3);
      if t > 2 {
        StepsOver(n, t, true, 1, 3);
      }
      assert !Fits(bufs, t, 0);
    }
  }
}
