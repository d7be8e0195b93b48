/** The buffer cache of bio.c: a doubly linked ring of buffers in order of release, and what bget picks from it. */
module BufferCache {

  /** What a buffer holds; device 0 is no device. */
  datatype Buf = Buf(dev: nat, blockno: nat, refcnt: nat, dirty: bool, valid: bool)

  // The ring: a sequence that starts with the head.

  ghost predicate NoDup(s: seq<nat>) {
    forall i, j :: 0 <= i < j < |s| ==> s[i] != s[j]
  }

  function After(ring: seq<nat>, k: nat): (b: nat)
    requires k < |ring|
  {
    if k + 1 < |ring| then ring[k + 1] else ring[0]
  }

  /** next and prev are inverse at place k of the ring. */
  ghost predicate LinkAt(next: seq<nat>, prev: seq<nat>, ring: seq<nat>, k: nat)
    requires k < |ring|
  {
    ring[k] < |next| == |prev| && After(ring, k) < |prev| && next[ring[k]] == After(ring, k) && prev[After(ring, k)] == ring[k]
  }

  ghost predicate RingOk(next: seq<nat>, prev: seq<nat>, ring: seq<nat>) {
    ring != [] && NoDup(ring) && |next| == |prev| && forall k :: 0 <= k < |ring| ==> LinkAt(next, prev, ring, k)
  }

  function Without(s: seq<nat>, p: nat): (r: seq<nat>)
    requires p < |s|
  {
    s[..p] + s[p + 1..]
  }

  function Before(ring: seq<nat>, k: nat): (b: nat)
    requires k < |ring|
  {
    if k > 0 then ring[k - 1] else ring[|ring| - 1]
  }

  lemma Neighbours(next: seq<nat>, prev: seq<nat>, ring: seq<nat>, k: nat)
    requires RingOk(next, prev, ring) && k < |ring|
    ensures ring[k] < |next| && next[ring[k]] == After(ring, k) && prev[ring[k]] == Before(ring, k)
    ensures After(ring, k) < |next| && Before(ring, k) < |next| && (|ring| > 1 ==> After(ring, k) != ring[k])
  {
    assert LinkAt(next, prev, ring, k);
    if k > 0 {
      assert LinkAt(next, prev, ring, k - 1);
    } else {
      assert LinkAt(next, prev, ring, |ring| - 1);
    }
  }

  /** Taking a buffer out of the ring. */
  lemma Unlink(next: seq<nat>, prev: seq<nat>, ring: seq<nat>, p: nat)
    requires RingOk(next, prev, ring) && 0 < p < |ring|
    ensures After(ring, p) < |prev| && Before(ring, p) < |next|
    ensures RingOk(next[Before(ring, p) := After(ring, p)], prev[After(ring, p) := Before(ring, p)], Without(ring, p))
  {
    Neighbours(next, prev, ring, p);
    var next', prev', ring' := next[Before(ring, p) := After(ring, p)], prev[After(ring, p) := Before(ring, p)], Without(ring, p);
    WithoutNoDup(ring, p);
    forall k | 0 <= k < |ring'|
      ensures LinkAt(next', prev', ring', k)
    {
      UnlinkAt(next, prev, ring, p, k);
    }
  }

  lemma WithoutNoDup(ring: seq<nat>, p: nat)
    requires NoDup(ring) && p < |ring|
    ensures NoDup(Without(ring, p)) && ring[p] !in Without(ring, p)
    ensures forall x :: x in Without(ring, p) <==> x in ring && x != ring[p]
  {
    var r := Without(ring, p);
    forall i, j | 0 <= i < j < |r|
      ensures r[i] != r[j]
    {
      assert r[i] == ring[if i < p then i else i + 1] && r[j] == ring[if j < p then j else j + 1];
    }
    forall x | x in ring && x != ring[p]
      ensures x in r
    {
      var i :| 0 <= i < |ring| && ring[i] == x;
      assert r[if i < p then i else i - 1] == x;
    }
    forall i | 0 <= i < |r|
      ensures r[i] in ring && r[i] != ring[p]
    {
      assert r[i] == ring[if i < p then i else i + 1];
    }
  }

  lemma UnlinkAt(next: seq<nat>, prev: seq<nat>, ring: seq<nat>, p: nat, k: nat)
    requires RingOk(next, prev, ring) && 0 < p < |ring| && k < |ring| - 1 && After(ring, p) < |prev| && Before(ring, p) < |next|
    ensures LinkAt(next[Before(ring, p) := After(ring, p)], prev[After(ring, p) := Before(ring, p)], Without(ring, p), k)
  {
    var i := if k < p then k else k + 1;
    assert LinkAt(next, prev, ring, i);
    assert Without(ring, p)[k] == ring[i];
    assert LinkAt(next, prev, ring, p);
    if i == p - 1 {
      assert After(Without(ring, p), k) == After(ring, p);
    } else {
      assert After(Without(ring, p), k) == After(ring, i);
      assert After(ring, i) != After(ring, p);
    }
  }

  /** Putting a buffer behind the head. */
  lemma LinkFront(next: seq<nat>, prev: seq<nat>, ring: seq<nat>, b: nat)
    requires RingOk(next, prev, ring) && b < |next| && b !in ring
    ensures ring[0] < |next| && After(ring, 0) < |next|
    ensures RingOk(next[b := After(ring, 0)][ring[0] := b], prev[b := ring[0]][After(ring, 0) := b], [ring[0], b] + ring[1..])
  {
    Neighbours(next, prev, ring, 0);
    var h, a := ring[0], After(ring, 0);
    var next', prev', ring' := next[b := a][h := b], prev[b := h][a := b], [h, b] + ring[1..];
    assert forall k :: 2 <= k < |ring'| ==> ring'[k] == ring[k - 1];
    assert NoDup(ring');
    forall k | 0 <= k < |ring'|
      ensures LinkAt(next', prev', ring', k)
    {
      if k >= 2 {
        assert LinkAt(next, prev, ring, k - 1);
        assert After(ring', k) == After(ring, k - 1);
      }
    }
  }

  // Release order.

  /** Place k of the ring was released later than every place behind it. */
  ghost predicate Newest(ring: seq<nat>, stamp: seq<nat>) {
    && (forall k :: 0 < k < |ring| ==> ring[k] < |stamp|)
    && (forall i, j :: 0 < i < j < |ring| ==> stamp[ring[i]] > stamp[ring[j]])
  }

  lemma NewestWithout(ring: seq<nat>, stamp: seq<nat>, p: nat)
    requires Newest(ring, stamp) && 0 < p < |ring|
    ensures Newest(Without(ring, p), stamp)
  {
    var r := Without(ring, p);
    forall k | 0 < k < |r|
      ensures r[k] == ring[if k < p then k else k + 1]
    {
    }
  }

  lemma NewestFront(ring: seq<nat>, stamp: seq<nat>, b: nat, now: nat)
    requires Newest(ring, stamp) && b < |stamp| && ring != [] && b !in ring && forall k :: 0 <= k < |stamp| ==> stamp[k] < now
    ensures Newest([ring[0], b] + ring[1..], stamp[b := now])
  {
    var r := [ring[0], b] + ring[1..];
    assert forall k :: 2 <= k < |r| ==> r[k] == ring[k - 1];
  }

  ghost predicate OneEach(bufs: seq<Buf>) {
    forall b, c :: 0 <= b < c < |bufs| && bufs[b].dev != 0 && bufs[b].dev == bufs[c].dev ==> bufs[b].blockno != bufs[c].blockno
  }

  predicate Holds(x: Buf, dev: nat, blockno: nat) {
    x.dev == dev && x.blockno == blockno
  }

  predicate Idle(x: Buf) {
    x.refcnt == 0 && !x.dirty
  }

  class Bcache {
    /** NBUF; the head of the ring has this index */
    const n: nat
    var bufs: seq<Buf>
    var next: seq<nat>
    var prev: seq<nat>
    ghost var ring: seq<nat>
    /** when each buffer was last released, and the time now */
    ghost var stamp: seq<nat>
    ghost var now: nat

    /** The ring holds the head and every buffer once, newest release first, and no block of a device is held twice. */
    ghost predicate Valid()
      reads this
    {
      Linked() && |bufs| == n && (forall b :: 0 <= b <= n ==> b in ring) && OneEach(bufs)
    }

    /** binit. */
    constructor (n: nat)
      ensures Valid() && this.n == n && forall b :: 0 <= b < n ==> bufs[b] == Buf(0, 0, 0, false, false)
    {
      this.n := n;
      bufs := seq(n, i => Buf(0, 0, 0, false, false));
      next := seq(n + 1, i => n);
      prev := seq(n + 1, i => n);
      ring, stamp, now := [n], seq(n, i => 0), 1;
      new;
      for b := 0 to n
        invariant Linked() && forall x :: x in ring <==> x == n || 0 <= x < b
        invariant |bufs| == n && forall x :: 0 <= x < n ==> bufs[x] == Buf(0, 0, 0, false, false)
      {
        PushFront(b);
      }
    }

    /** The links of the ring and the release times fit together. */
    ghost predicate Linked()
      reads this
    {
      && |next| == |prev| == n + 1 && ring != [] && RingOk(next, prev, ring) && ring[0] == n
      && |stamp| == n && Newest(ring, stamp) && (forall b :: 0 <= b < n ==> stamp[b] < now)
    }

    /** A buffer outside the ring goes behind the head. */
    method PushFront(b: nat)
      requires Linked() && b < n && b !in ring
      modifies this`next, this`prev, this`ring, this`stamp, this`now
      ensures Linked() && old(ring) != [] && ring == [n, b] + old(ring)[1..] && stamp == old(stamp)[b := old(now)]
      ensures forall x :: x in ring <==> x in old(ring) || x == b
    {
      hide RingOk, Newest;
      Neighbours(next, prev, ring, 0);
      LinkFront(next, prev, ring, b);
      NewestFront(ring, stamp, b, now);
      FrontAll(ring, b);
      var first := next[n];
      next := next[b := first];
      prev := prev[b := n];
      prev := prev[first := b];
      next := next[n := b];
      ring, stamp, now := [n, b] + ring[1..], stamp[b := now], now + 1;
    }

    /** The forward scan of bget: the first buffer from the front that holds the block, or n. */
    method Find(dev: nat, blockno: nat) returns (b: nat)
      requires Valid()
      ensures b <= n
      ensures b < n ==> Holds(bufs[b], dev, blockno)
      ensures b == n ==> forall c :: 0 <= c < n ==> !Holds(bufs[c], dev, blockno)
    {
      hide Newest, OneEach;
      Neighbours(next, prev, ring, 0);
      b := next[n];
      ghost var k := 1;
      while b != n && !Holds(bufs[b], dev, blockno)
        invariant 1 <= k <= |ring| && b == if k < |ring| then ring[k] else n
        invariant b <= n
        invariant forall j :: 0 < j < k ==> ring[j] < n && !Holds(bufs[ring[j]], dev, blockno)
        decreases |ring| - k
      {
        Neighbours(next, prev, ring, k);
        b := next[b];
        k := k + 1;
      }
      if b == n {
        forall c | 0 <= c < n
          ensures !Holds(bufs[c], dev, blockno)
        {
          assert c in ring;
          var j :| 0 <= j < |ring| && ring[j] == c;
        }
      }
    }

    /** The backward scan of bget: the idle buffer released longest ago, or n. */
    method FindIdle() returns (b: nat)
      requires Valid()
      ensures b <= n
      ensures b < n ==> Idle(bufs[b]) && forall c :: 0 <= c < n && c != b && Idle(bufs[c]) ==> stamp[b] < stamp[c]
      ensures b == n ==> forall c :: 0 <= c < n ==> !Idle(bufs[c])
    {
      hide OneEach;
      Neighbours(next, prev, ring, 0);
      b := prev[n];
      ghost var k := |ring| - 1;
      while b != n && !Idle(bufs[b])
        invariant 0 <= k < |ring| && b == ring[k] && b <= n
        invariant forall j :: k < j < |ring| ==> ring[j] < n && !Idle(bufs[ring[j]])
        decreases k
      {
        Neighbours(next, prev, ring, k);
        b := prev[b];
        k := k - 1;
      }
      forall c | 0 <= c < n && c != b && Idle(bufs[c])
        ensures b < n && stamp[b] < stamp[c]
      {
        assert c in ring;
        var j :| 0 <= j < |ring| && ring[j] == c;
        assert j < k;
      }
    }

    /** bget: the buffer that holds the block, or else the least recently released idle one, recycled; n is the panic. */
    method Bget(dev: nat, blockno: nat) returns (b: nat)
      requires Valid()
      modifies this`bufs
      ensures Valid() && b <= n
      ensures b == n <==> forall c :: 0 <= c < n ==> !Holds(old(bufs)[c], dev, blockno) && !Idle(old(bufs)[c])
      ensures b == n ==>
                bufs == old(bufs) && forall c :: 0 <= c < n ==>
                  !(bufs[c].dev == dev && bufs[c].blockno == blockno) && (bufs[c].refcnt != 0 || bufs[c].dirty)
      ensures b < n ==> bufs[b].dev == dev && bufs[b].blockno == blockno
      ensures b < n && !(old(bufs)[b].dev == dev && old(bufs)[b].blockno == blockno) ==> old(bufs)[b].refcnt == 0 && !old(bufs)[b].dirty
      ensures b < n && Holds(old(bufs)[b], dev, blockno) ==> bufs == old(bufs)[b := old(bufs)[b].(refcnt := old(bufs)[b].refcnt + 1)]
      ensures b < n && !Holds(old(bufs)[b], dev, blockno) ==>
                && (forall c :: 0 <= c < n ==> !Holds(old(bufs)[c], dev, blockno))
                && Idle(old(bufs)[b]) && (forall c :: 0 <= c < n && c != b && Idle(old(bufs)[c]) ==> stamp[b] < stamp[c])
                && bufs == old(bufs)[b := Buf(dev, blockno, 1, false, false)]
    {
      hide RingOk, Newest;
      b := Find(dev, blockno);
      if b < n {
        bufs := bufs[b := bufs[b].(refcnt := bufs[b].refcnt + 1)];
        return;
      }
      b := FindIdle();
      if b < n {
        bufs := bufs[b := Buf(dev, blockno, 1, false, false)];
      }
    }

    /** brelse: with the last reference gone the buffer moves to the front of the ring. */
    method Brelse(b: nat)
      requires Valid() && b < n && bufs[b].refcnt >= 1
      modifies this
      ensures Valid() && bufs == old(bufs)[b := old(bufs)[b].(refcnt := old(bufs)[b].refcnt - 1)]
      ensures bufs[b].refcnt > 0 ==> ring == old(ring) && stamp == old(stamp)
      ensures bufs[b].refcnt == 0 ==> stamp == old(stamp)[b := old(now)] && n > 0 && |ring| > 1 && ring[1] == b
    {
      hide OneEach;
      OneEachRef(bufs, b, bufs[b].refcnt - 1);
      bufs := bufs[b := bufs[b].(refcnt := bufs[b].refcnt - 1)];
      if bufs[b].refcnt == 0 {
        MoveFront(b);
      }
    }

    /** The pointer writes of brelse. */
    method MoveFront(b: nat)
      requires Valid() && b < n
      modifies this`next, this`prev, this`ring, this`stamp, this`now
      ensures Valid() && stamp == old(stamp)[b := old(now)] && |ring| > 1 && ring[1] == b
    {
      hide OneEach, RingOk, Newest;
      assert b in ring;
      ghost var p :| 0 <= p < |ring| && ring[p] == b;
      Neighbours(next, prev, ring, p);
      Unlink(next, prev, ring, p);
      WithoutAll(next, prev, ring, p);
      NewestWithout(ring, stamp, p);
      prev := prev[next[b] := prev[b]];
      next := next[prev[b] := next[b]];
      ring := Without(ring, p);
      PushFront(b);
    }
  }

  lemma WithoutAll(next: seq<nat>, prev: seq<nat>, ring: seq<nat>, p: nat)
    requires RingOk(next, prev, ring) && 0 < p < |ring|
    ensures ring[p] !in Without(ring, p) && Without(ring, p) != [] && Without(ring, p)[0] == ring[0]
    ensures forall x :: x in Without(ring, p) <==> x in ring && x != ring[p]
  {
    WithoutNoDup(ring, p);
  }

  lemma FrontAll(ring: seq<nat>, b: nat)
    requires ring != []
    ensures forall x :: x in [ring[0], b] + ring[1..] <==> x in ring || x == b
  {
    assert ring == [ring[0]] + ring[1..];
  }

  lemma OneEachRef(bufs: seq<Buf>, b: nat, r: nat)
    requires OneEach(bufs) && b < |bufs|
    ensures OneEach(bufs[b := bufs[b].(refcnt := r)])
  {
  }
}
