/** Dealing a stream out to n files byte by byte, and what merging the files gives. */
module Streams {

  /** How many of the first p bytes go to file i of n. */
  function Count(p: nat, n: nat, i: nat): (c: nat)
    requires i < n
  {
    p / n + if p % n > i then 1 else 0
  }

  lemma DivUnique(p: nat, n: nat, q: nat, r: nat)
    requires n > 0 && p == q * n + r && r < n
    ensures p / n == q && p % n == r
  {
    var d := p / n - q;
    assert p == (p / n) * n + p % n;
    assert d * n == r - p % n by {
      assert (p / n) * n - q * n == d * n;
    }
    MulBound(d, n);
  }

  lemma MulBound(d: int, n: nat)
    ensures d >= 1 ==> d * n >= n
    ensures d <= -1 ==> d * n <= 0 - n
  {
  }

  lemma DivNext(p: nat, n: nat)
    requires n > 0
    ensures if p % n + 1 == n then (p + 1) / n == p / n + 1 && (p + 1) % n == 0
            else (p + 1) / n == p / n && (p + 1) % n == p % n + 1
  {
    var q, r := p / n, p % n;
    assert p == q * n + r;
    if r + 1 == n {
      assert p + 1 == (q + 1) * n + 0;
      DivUnique(p + 1, n, q + 1, 0);
    } else {
      DivUnique(p + 1, n, q, r + 1);
    }
  }

  lemma CountNext(p: nat, n: nat, i: nat)
    requires i < n
    ensures Count(p + 1, n, i) == Count(p, n, i) + if p % n == i then 1 else 0
  {
    DivNext(p, n);
  }

  /** The k-th byte of file i is byte k * n + i of the stream, and it is there just when k is below the count. */
  lemma CountAt(p: nat, n: nat, i: nat, k: nat)
    requires i < n
    ensures k < Count(p, n, i) <==> k * n + i < p
  {
    var q, r := p / n, p % n;
    assert p == q * n + r;
    if k < q {
      assert (k + 1) * n <= q * n;
      assert (k + 1) * n == k * n + n;
    } else if k > q {
      assert (q + 1) * n <= k * n;
      assert (q + 1) * n == q * n + n;
    }
  }

  /** File i's share of the stream. */
  function Share(s: seq<nat>, n: nat, i: nat): (r: seq<nat>)
    requires i < n
    ensures |r| == Count(|s|, n, i)
  {
    seq(Count(|s|, n, i), k requires 0 <= k < Count(|s|, n, i) => (CountAt(|s|, n, i, k); s[k * n + i]))
  }

  lemma ShareAt(s: seq<nat>, n: nat, i: nat, k: nat)
    requires i < n && k < Count(|s|, n, i)
    ensures k * n + i < |s| && Share(s, n, i)[k] == s[k * n + i]
  {
    CountAt(|s|, n, i, k);
  }

  /** One more byte goes to file p % n and to no other. */
  lemma ShareNext(s: seq<nat>, n: nat, i: nat, p: nat)
    requires i < n && p < |s|
    ensures Share(s[..p + 1], n, i) == Share(s[..p], n, i) + if p % n == i then [s[p]] else []
  {
    hide Count;
    CountNext(p, n, i);
    var a, b := Share(s[..p + 1], n, i), Share(s[..p], n, i);
    forall k | 0 <= k < Count(p, n, i)
      ensures a[k] == b[k]
    {
      CountAt(p, n, i, k);
      ShareAt(s[..p + 1], n, i, k);
      ShareAt(s[..p], n, i, k);
    }
    if p % n == i {
      var k := Count(p, n, i);
      ShareAt(s[..p + 1], n, i, k);
      CountAt(p, n, i, k);
    }
    assert a == b + if p % n == i then [s[p]] else [];
  }

  function Shares(s: seq<nat>, n: nat): (r: seq<seq<nat>>) {
    seq(n, i requires 0 <= i < n => Share(s, n, i))
  }

  // Merging: byte k of every file that has one, for k = 0, 1, 2, ...

  /** Byte k of the first m files, in order. */
  function Column(files: seq<seq<nat>>, k: nat, m: nat): (r: seq<nat>)
    requires m <= |files|
  {
    if m == 0 then [] else Column(files, k, m - 1) + if k < |files[m - 1]| then [files[m - 1][k]] else []
  }

  /** The first k columns. */
  function Columns(files: seq<seq<nat>>, k: nat): (r: seq<nat>) {
    if k == 0 then [] else Columns(files, k - 1) + Column(files, k - 1, |files|)
  }

  function Longest(files: seq<seq<nat>>): (m: nat)
    ensures forall i :: 0 <= i < |files| ==> |files[i]| <= m
    ensures files != [] ==> exists i :: 0 <= i < |files| && |files[i]| == m
  {
    if files == [] then 0 else
      var last, m := |files[|files| - 1]|, Longest(files[..|files| - 1]);
      assert forall i :: 0 <= i < |files| - 1 ==> files[i] == files[..|files| - 1][i];
      if last > m then last else m
  }

  /** All bytes, ordered by position and then by file. */
  function Merged(files: seq<seq<nat>>): (r: seq<nat>) {
    Columns(files, Longest(files))
  }

  lemma {:induction false} ShareColumn(s: seq<nat>, n: nat, k: nat, m: nat)
    requires m <= n && k * n <= |s|
    ensures var e := if k * n + m <= |s| then k * n + m else |s|; Column(Shares(s, n), k, m) == s[k * n..e]
    decreases m
  {
    hide Count, Share;
    if m > 0 {
      ShareColumn(s, n, k, m - 1);
      CountAt(|s|, n, m - 1, k);
      if k * n + (m - 1) < |s| {
        ShareAt(s, n, m - 1, k);
      }
    }
  }

  lemma {:induction false} ShareColumns(s: seq<nat>, n: nat, k: nat)
    requires n > 0
    ensures Columns(Shares(s, n), k) == s[..if k * n <= |s| then k * n else |s|]
    decreases k
  {
    if k > 0 {
      ShareColumns(s, n, k - 1);
      assert k * n == (k - 1) * n + n;
      if (k - 1) * n <= |s| {
        ShareColumn(s, n, k - 1, n);
      } else {
        NoColumn(s, n, k - 1, n);
      }
    }
  }

  lemma {:induction false} NoColumn(s: seq<nat>, n: nat, k: nat, m: nat)
    requires m <= n && k * n > |s|
    ensures Column(Shares(s, n), k, m) == []
    decreases m
  {
    if m > 0 {
      NoColumn(s, n, k, m - 1);
      CountAt(|s|, n, m - 1, k);
    }
  }

  /** Merging the shares of a stream gives the stream back. */
  lemma MergeShares(s: seq<nat>, n: nat)
    requires n > 0
    ensures Merged(Shares(s, n)) == s
  {
    var k := Longest(Shares(s, n));
    ShareColumns(s, n, k);
    assert |Shares(s, n)[0]| <= k;
    assert Shares(s, n)[0] == Share(s, n, 0);
    CountAt(|s|, n, 0, k);
    assert s[..|s|] == s;
  }
}
