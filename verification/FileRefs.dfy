/**
 Open files and the descriptors that point to them: file.c, the descriptor
 paths of sysfile.c, and the descriptor loops of fork and exit.
 */
module FileRefs {
  const NOFILE: nat := 16

  /** What an open file stands for and gives up when it is closed: one end of a pipe, or one reference to an inode. */
  datatype Thing = NoThing | PipeEnd(pipe: nat, write: bool) | InodeRef(tag: nat)

  datatype File = File(ref: int, thing: Thing)

  /** Descriptor n of process pid. */
  datatype Fd = Fd(pid: nat, n: nat)

  ghost function SlotsOf(ofile: map<Fd, nat>, f: nat): (s: set<Fd>) {
    set k | k in ofile && ofile[k] == f
  }

  ghost predicate RefsOk(files: seq<File>, ofile: map<Fd, nat>) {
    && (forall k :: k in ofile ==> ofile[k] < |files| && k.n < NOFILE)
    && (forall f :: 0 <= f < |files| ==> files[f].ref == |SlotsOf(ofile, f)|)
  }

  ghost predicate Live(files: seq<File>, f: nat) {
    f < |files| && files[f].thing != NoThing
  }

  ghost predicate Holds(files: seq<File>, x: Thing) {
    exists f: nat :: Live(files, f) && files[f].thing == x
  }

  /** Everything taken is held by one open file, or was released, once. */
  ghost predicate ThingsOk(files: seq<File>, taken: set<Thing>, released: seq<Thing>) {
    && (forall f :: 0 <= f < |files| ==> (files[f].ref > 0 <==> files[f].thing != NoThing))
    && (forall f, g :: 0 <= f < g < |files| && Live(files, f) && Live(files, g) ==> files[f].thing != files[g].thing)
    && (forall i, j :: 0 <= i < j < |released| ==> released[i] != released[j])
    && (forall x :: x in taken <==> Holds(files, x) || x in released)
    && (forall x :: x in released ==> !Holds(files, x))
  }

  // Slots.

  lemma AddSlot(ofile: map<Fd, nat>, k: Fd, f: nat, g: nat)
    requires k !in ofile
    ensures |SlotsOf(ofile[k := f], g)| == |SlotsOf(ofile, g)| + if g == f then 1 else 0
  {
    if g == f {
      assert SlotsOf(ofile[k := f], g) == SlotsOf(ofile, g) + {k};
    } else {
      assert SlotsOf(ofile[k := f], g) == SlotsOf(ofile, g);
    }
  }

  lemma DropSlot(ofile: map<Fd, nat>, k: Fd, g: nat)
    requires k in ofile
    ensures |SlotsOf(ofile - {k}, g)| == |SlotsOf(ofile, g)| - if g == ofile[k] then 1 else 0
  {
    if g == ofile[k] {
      assert SlotsOf(ofile, g) == SlotsOf(ofile - {k}, g) + {k};
    } else {
      assert SlotsOf(ofile - {k}, g) == SlotsOf(ofile, g);
    }
  }

  lemma SlotCounts(files: seq<File>, ofile: map<Fd, nat>, k: Fd)
    requires RefsOk(files, ofile) && k in ofile
    ensures ofile[k] < |files| && files[ofile[k]].ref >= 1
  {
    assert k in SlotsOf(ofile, ofile[k]);
  }

  // The effect of the calls on the table, as values.

  function Ref(files: seq<File>, f: nat, d: int): (r: seq<File>)
    requires f < |files|
  {
    files[f := files[f].(ref := files[f].ref + d)]
  }

  /** fileclose: one reference less, and with the last one the file is free again. */
  function Closed(files: seq<File>, f: nat): (r: seq<File>)
    requires f < |files|
  {
    if files[f].ref > 1 then Ref(files, f, -1) else files[f := File(0, NoThing)]
  }

  function Gone(files: seq<File>, f: nat, released: seq<Thing>): (r: seq<Thing>)
    requires f < |files|
  {
    if files[f].ref > 1 || files[f].thing == NoThing then released else released + [files[f].thing]
  }

  lemma DupRefs(files: seq<File>, ofile: map<Fd, nat>, k: Fd, f: nat)
    requires RefsOk(files, ofile) && k !in ofile && k.n < NOFILE && f < |files|
    ensures RefsOk(Ref(files, f, 1), ofile[k := f])
  {
    forall g | 0 <= g < |files|
      ensures Ref(files, f, 1)[g].ref == |SlotsOf(ofile[k := f], g)|
    {
      AddSlot(ofile, k, f, g);
    }
  }

  lemma DupThings(files: seq<File>, taken: set<Thing>, released: seq<Thing>, f: nat)
    requires ThingsOk(files, taken, released) && f < |files| && files[f].ref >= 1
    ensures ThingsOk(Ref(files, f, 1), taken, released)
  {
    SameThings(files, Ref(files, f, 1));
  }

  lemma SameThings(files: seq<File>, files': seq<File>)
    requires |files'| == |files| && forall f :: 0 <= f < |files| ==> files'[f].thing == files[f].thing
    ensures forall x :: Holds(files', x) <==> Holds(files, x)
  {
    forall x
      ensures Holds(files', x) <==> Holds(files, x)
    {
      if Holds(files, x) {
        var f: nat :| Live(files, f) && files[f].thing == x;
        assert Live(files', f);
      }
      if Holds(files', x) {
        var f: nat :| Live(files', f) && files'[f].thing == x;
        assert Live(files, f);
      }
    }
  }

  lemma CloseRefs(files: seq<File>, ofile: map<Fd, nat>, k: Fd)
    requires RefsOk(files, ofile) && k in ofile
    ensures ofile[k] < |files| && RefsOk(Closed(files, ofile[k]), ofile - {k})
  {
    SlotCounts(files, ofile, k);
    forall g | 0 <= g < |files|
      ensures Closed(files, ofile[k])[g].ref == |SlotsOf(ofile - {k}, g)|
    {
      DropSlot(ofile, k, g);
    }
  }

  /** The file at f starts to stand for x, or stops. */
  lemma HoldsSet(files: seq<File>, f: nat, x: File, y: Thing)
    requires f < |files| && ((files[f].thing == NoThing) != (x.thing == NoThing))
    requires forall g :: 0 <= g < |files| && g != f && Live(files, g) ==> files[g].thing != files[f].thing
    ensures Holds(files[f := x], y) <==>
              if x.thing == NoThing then Holds(files, y) && y != files[f].thing else Holds(files, y) || y == x.thing
  {
    var files' := files[f := x];
    if Holds(files, y) {
      var g: nat :| Live(files, g) && files[g].thing == y;
      if g != f {
        assert Live(files', g);
      }
    }
    if Holds(files', y) {
      var g: nat :| Live(files', g) && files'[g].thing == y;
      if g != f {
        assert Live(files, g);
      }
    }
    if x.thing == y && y != NoThing {
      assert Live(files', f);
    }
  }

  lemma CloseThings(files: seq<File>, taken: set<Thing>, released: seq<Thing>, f: nat)
    requires ThingsOk(files, taken, released) && f < |files| && files[f].ref >= 1
    ensures ThingsOk(Closed(files, f), taken, Gone(files, f, released))
  {
    hide Holds;
    if files[f].ref > 1 {
      SameThings(files, Closed(files, f));
    } else {
      var x := files[f].thing;
      assert Holds(files, x) by { HoldsAt(files, f); }
      forall y
        ensures Holds(Closed(files, f), y) <==> Holds(files, y) && y != x
      {
        HoldsSet(files, f, File(0, NoThing), y);
      }
    }
  }

  lemma HoldsAt(files: seq<File>, f: nat)
    requires Live(files, f)
    ensures Holds(files, files[f].thing)
  {
  }

  /** A free file opened for x, which nothing has stood for before, with its one descriptor. */
  lemma OpenOk(files: seq<File>, ofile: map<Fd, nat>, taken: set<Thing>, released: seq<Thing>, f: nat, k: Fd, x: Thing)
    requires RefsOk(files, ofile) && ThingsOk(files, taken, released) && f < |files| && files[f].ref == 0
    requires k !in ofile && k.n < NOFILE && x != NoThing && x !in taken
    ensures RefsOk(files[f := File(1, x)], ofile[k := f]) && ThingsOk(files[f := File(1, x)], taken + {x}, released)
  {
    hide Holds;
    var files', ofile' := files[f := File(1, x)], ofile[k := f];
    forall g | 0 <= g < |files|
      ensures files'[g].ref == |SlotsOf(ofile', g)|
    {
      AddSlot(ofile, k, f, g);
    }
    forall y
      ensures Holds(files[f := File(1, x)], y) <==> Holds(files, y) || y == x
    {
      HoldsSet(files, f, File(1, x), y);
    }
    forall g | 0 <= g < |files| && g != f && Live(files, g)
      ensures files[g].thing != x
    {
      HoldsAt(files, g);
    }
  }

  /** Something taken and released without ever belonging to an open file. */
  lemma PassOn(files: seq<File>, taken: set<Thing>, released: seq<Thing>, x: Thing)
    requires ThingsOk(files, taken, released) && x !in taken
    ensures ThingsOk(files, taken + {x}, released + [x])
  {
    hide Holds;
  }

  lemma FreeIsEmpty(files: seq<File>, ofile: map<Fd, nat>, taken: set<Thing>, released: seq<Thing>, f: nat)
    requires RefsOk(files, ofile) && ThingsOk(files, taken, released) && f < |files| && files[f].ref == 0
    ensures files[f] == File(0, NoThing)
  {
  }

  ghost predicate TwoFree(files: seq<File>) {
    exists f, g :: 0 <= f < g < |files| && files[f].ref == 0 && files[g].ref == 0
  }

  ghost predicate TwoFds(ofile: map<Fd, nat>, pid: nat) {
    exists m, n :: 0 <= m < n < NOFILE && Fd(pid, m) !in ofile && Fd(pid, n) !in ofile
  }

  class FileTable {
    var files: seq<File>
    var ofile: map<Fd, nat>
    ghost var taken: set<Thing>
    ghost var released: seq<Thing>

    ghost predicate Valid()
      reads this
    {
      RefsOk(files, ofile) && ThingsOk(files, taken, released)
    }

    /** filealloc: the first free file, with one reference. */
    method Filealloc() returns (f: int)
      modifies this`files
      ensures f == -1 || 0 <= f < |old(files)|
      ensures f == -1 ==> files == old(files) && forall g :: 0 <= g < |files| ==> files[g].ref != 0
      ensures f >= 0 ==> forall g :: 0 <= g < f ==> old(files)[g].ref != 0
      ensures f >= 0 ==> old(files)[f].ref == 0 && files == Ref(old(files), f, 1)
    {
      for i := 0 to |files|
        invariant files == old(files) && forall g :: 0 <= g < i ==> files[g].ref != 0
      {
        if files[i].ref == 0 {
          files := files[i := files[i].(ref := 1)];
          return i;
        }
      }
      return -1;
    }

    /** filedup; false is its panic. */
    method Filedup(f: nat) returns (ok: bool)
      requires f < |files|
      modifies this`files
      ensures ok <==> old(files)[f].ref >= 1
      ensures files == if ok then Ref(old(files), f, 1) else old(files)
    {
      if files[f].ref < 1 {
        return false;
      }
      files := Ref(files, f, 1);
      return true;
    }

    /** fileclose; false is its panic.  With the last reference the pipe end or the inode is released. */
    method Fileclose(f: nat) returns (ok: bool)
      requires f < |files|
      modifies this`files, this`released
      ensures ok <==> old(files)[f].ref >= 1
      ensures files == if ok then Closed(old(files), f) else old(files)
      ensures released == if ok then Gone(old(files), f, old(released)) else old(released)
    {
      if files[f].ref < 1 {
        return false;
      }
      if files[f].ref - 1 > 0 {
        files := Ref(files, f, -1);
        return true;
      }
      var ff := files[f];
      files := files[f := File(0, NoThing)];
      if ff.thing != NoThing {
        released := released + [ff.thing];
      }
      return true;
    }

    /** fdalloc: the lowest free descriptor. */
    method Fdalloc(pid: nat, f: nat) returns (fd: int)
      modifies this`ofile
      ensures -1 <= fd < NOFILE
      ensures fd == -1 ==> ofile == old(ofile) && forall n :: 0 <= n < NOFILE ==> Fd(pid, n) in ofile
      ensures fd >= 0 ==> Fd(pid, fd) !in old(ofile) && ofile == old(ofile)[Fd(pid, fd) := f]
      ensures fd >= 0 ==> forall n :: 0 <= n < fd ==> Fd(pid, n) in ofile
    {
      for n := 0 to NOFILE
        invariant ofile == old(ofile) && forall m :: 0 <= m < n ==> Fd(pid, m) in ofile
      {
        if Fd(pid, n) !in ofile {
          ofile := ofile[Fd(pid, n) := f];
          return n;
        }
      }
      return -1;
    }

    /** sys_dup: the lowest free descriptor of the process becomes another name for the file. */
    method Dup(pid: nat, fd: int) returns (r: int)
      requires Valid()
      modifies this`files, this`ofile
      ensures Valid() && -1 <= r < NOFILE
      ensures r == -1 <==> fd < 0 || fd >= NOFILE || Fd(pid, fd) !in old(ofile) || forall n :: 0 <= n < NOFILE ==> Fd(pid, n) in old(ofile)
      ensures r == -1 ==> files == old(files) && ofile == old(ofile)
      ensures r >= 0 ==> Fd(pid, r) !in old(ofile) && ofile == old(ofile)[Fd(pid, r) := old(ofile)[Fd(pid, fd)]]
      ensures r >= 0 ==> forall n :: 0 <= n < r ==> Fd(pid, n) in old(ofile)
    {
      hide RefsOk, ThingsOk;
      if fd < 0 || fd >= NOFILE || Fd(pid, fd) !in ofile {
        return -1;
      }
      SlotCounts(files, ofile, Fd(pid, fd));
      var f := ofile[Fd(pid, fd)];
      r := Fdalloc(pid, f);
      if r < 0 {
        return -1;
      }
      DupRefs(files, old(ofile), Fd(pid, r), f);
      DupThings(files, taken, released, f);
      var ok := Filedup(f);
    }

    /** sys_close. */
    method Close(pid: nat, fd: int) returns (r: int)
      requires Valid()
      modifies this`files, this`ofile, this`released
      ensures Valid()
      ensures r == if 0 <= fd < NOFILE && Fd(pid, fd) in old(ofile) then 0 else -1
      ensures r == -1 ==> files == old(files) && ofile == old(ofile) && released == old(released)
      ensures r == 0 ==> ofile == old(ofile) - {Fd(pid, fd)}
      ensures r == 0 ==> old(ofile)[Fd(pid, fd)] < |old(files)| && released == Gone(old(files), old(ofile)[Fd(pid, fd)], old(released))
    {
      hide RefsOk, ThingsOk;
      if fd < 0 || fd >= NOFILE || Fd(pid, fd) !in ofile {
        return -1;
      }
      var k := Fd(pid, fd);
      var f := ofile[k];
      SlotCounts(files, ofile, k);
      CloseRefs(files, ofile, k);
      CloseThings(files, taken, released, f);
      ofile := ofile - {k};
      var ok := Fileclose(f);
      return 0;
    }

    /**
     sys_dup2: newfd becomes another name for oldfd's file, after its own file,
     if any, is closed.  A bad descriptor changes nothing, and neither does
     oldfd equal to newfd.
     */
    method Dup2(pid: nat, oldfd: int, newfd: int) returns (r: int)
      requires Valid()
      modifies this`files, this`ofile, this`released
      ensures Valid()
      ensures r == if 0 <= oldfd < NOFILE && Fd(pid, oldfd) in old(ofile) && 0 <= newfd < NOFILE then newfd else -1
      ensures r == -1 || oldfd == newfd ==> files == old(files) && ofile == old(ofile) && released == old(released)
      ensures r != -1 && oldfd != newfd ==> ofile == old(ofile)[Fd(pid, newfd) := old(ofile)[Fd(pid, oldfd)]]
      ensures r != -1 && oldfd != newfd && Fd(pid, newfd) in old(ofile) ==>
                old(ofile)[Fd(pid, newfd)] < |old(files)| && released == Gone(old(files), old(ofile)[Fd(pid, newfd)], old(released))
      ensures r != -1 && oldfd != newfd && Fd(pid, newfd) !in old(ofile) ==> released == old(released)
    {
      hide RefsOk, ThingsOk;
      if oldfd < 0 || oldfd >= NOFILE || Fd(pid, oldfd) !in ofile || newfd < 0 || newfd >= NOFILE {
        return -1;
      }
      if oldfd == newfd {
        return oldfd;
      }
      var k, f := Fd(pid, newfd), ofile[Fd(pid, oldfd)];
      SlotCounts(files, ofile, Fd(pid, oldfd));
      ghost var rest := ofile;
      if k in ofile {
        SlotCounts(files, ofile, k);
        CloseRefs(files, ofile, k);
        CloseThings(files, taken, released, ofile[k]);
        rest := ofile - {k};
        var ok := Fileclose(ofile[k]);
      }
      SlotCounts(files, rest, Fd(pid, oldfd));
      DupRefs(files, rest, k, f);
      DupThings(files, taken, released, f);
      var ok := Filedup(f);
      ofile := ofile[k := f];
      assert ofile == rest[k := f];
      return newfd;
    }

    /**
     The descriptor path of sys_open for inode reference x: the lowest free
     descriptor stands for it, or it is released at once.
     */
    method Open(pid: nat, x: Thing) returns (fd: int)
      requires Valid() && x.InodeRef? && x !in taken
      modifies this
      ensures Valid() && -1 <= fd < NOFILE && taken == old(taken) + {x}
      ensures fd == -1 ==> files == old(files) && ofile == old(ofile) && released == old(released) + [x]
      ensures fd == -1 <==>
                || (forall f :: 0 <= f < |old(files)| ==> old(files)[f].ref != 0)
                || (forall n :: 0 <= n < NOFILE ==> Fd(pid, n) in old(ofile))
      ensures fd >= 0 ==> released == old(released)
      ensures fd >= 0 ==> Fd(pid, fd) !in old(ofile) && forall n :: 0 <= n < fd ==> Fd(pid, n) in old(ofile)
      ensures fd >= 0 ==> Fd(pid, fd) in ofile && ofile - {Fd(pid, fd)} == old(ofile)
      ensures fd >= 0 ==> ofile[Fd(pid, fd)] < |files| && files[ofile[Fd(pid, fd)]] == File(1, x)
    {
      hide RefsOk, ThingsOk;
      ghost var files0, ofile0 := files, ofile;
      taken := taken + {x};
      PassOn(files, old(taken), released, x);
      var f := Filealloc();
      if f < 0 {
        released := released + [x];
        return -1;
      }
      FreeIsEmpty(files0, ofile0, old(taken), released, f);
      fd := Fdalloc(pid, f);
      if fd < 0 {
        var ok := Fileclose(f);
        assert files == files0;
        released := released + [x];
        return -1;
      }
      OpenOk(files0, ofile0, old(taken), released, f, Fd(pid, fd), x);
      files := files[f := files[f].(thing := x)];
      assert files == files0[f := File(1, x)];
    }

    /** pipealloc, with page saying whether the pipe's page could be had: two files for the ends of pipe p, or none. */
    method Pipealloc(p: nat, page: bool) returns (rf: int, wf: int)
      requires Valid() && PipeEnd(p, false) !in taken && PipeEnd(p, true) !in taken
      modifies this`files
      ensures rf == -1 <==> !page || !TwoFree(old(files))
      ensures rf == -1 ==> files == old(files)
      ensures rf != -1 ==>
                && 0 <= rf < |old(files)| && 0 <= wf < |old(files)| && rf != wf && old(files)[rf] == old(files)[wf] == File(0, NoThing)
                && files == old(files)[rf := File(1, PipeEnd(p, false))][wf := File(1, PipeEnd(p, true))]
    {
      hide RefsOk, ThingsOk;
      ghost var files0 := files;
      rf := Filealloc();
      if rf < 0 {
        return -1, -1;
      }
      FreeIsEmpty(files0, ofile, taken, released, rf);
      wf := Filealloc();
      if wf < 0 || !page {
        files := files[rf := File(0, NoThing)];
        if wf >= 0 {
          FreeIsEmpty(files0, ofile, taken, released, wf);
          files := files[wf := File(0, NoThing)];
        }
        assert files == files0;
        return -1, -1;
      }
      FreeIsEmpty(files0, ofile, taken, released, wf);
      files := files[rf := File(1, PipeEnd(p, false))][wf := File(1, PipeEnd(p, true))];
    }

    /**
     sys_pipe: the two lowest free descriptors, one for each end.  Without two
     files or a page nothing happens; with them, but without two descriptors,
     both ends are released.
     */
    method Pipe(pid: nat, p: nat, page: bool) returns (fd0: int, fd1: int)
      requires Valid() && PipeEnd(p, false) !in taken && PipeEnd(p, true) !in taken
      modifies this
      ensures Valid() && (fd0 == -1 <==> fd1 == -1) && -1 <= fd0 < NOFILE && -1 <= fd1 < NOFILE
      ensures fd0 == -1 <==> !page || !TwoFree(old(files)) || !TwoFds(old(ofile), pid)
      ensures fd0 == -1 ==> files == old(files) && ofile == old(ofile)
      ensures fd0 == -1 ==>
                released == old(released) + if page && TwoFree(old(files)) then [PipeEnd(p, false), PipeEnd(p, true)] else []
      ensures fd0 != -1 ==> fd0 < fd1 && released == old(released) && Fd(pid, fd0) !in old(ofile) && Fd(pid, fd1) !in old(ofile)
      ensures fd0 != -1 ==> forall n :: 0 <= n < fd1 && n != fd0 ==> Fd(pid, n) in old(ofile)
      ensures fd0 != -1 ==> Fd(pid, fd0) in ofile && Fd(pid, fd1) in ofile && ofile - {Fd(pid, fd0), Fd(pid, fd1)} == old(ofile)
      ensures fd0 != -1 ==> ofile[Fd(pid, fd0)] < |files| && files[ofile[Fd(pid, fd0)]] == File(1, PipeEnd(p, false))
      ensures fd0 != -1 ==> ofile[Fd(pid, fd1)] < |files| && files[ofile[Fd(pid, fd1)]] == File(1, PipeEnd(p, true))
    {
      hide RefsOk, ThingsOk;
      ghost var files0, ofile0, taken0, released0 := files, ofile, taken, released;
      var r, w := PipeEnd(p, false), PipeEnd(p, true);
      var rf, wf := Pipealloc(p, page);
      if rf < 0 {
        return -1, -1;
      }
      taken := taken + {r} + {w};
      fd0 := Fdalloc(pid, rf);
      if fd0 >= 0 {
        fd1 := Fdalloc(pid, wf);
        if fd1 >= 0 {
          ghost var files1 := files0[rf := File(1, r)];
          OpenOk(files0, ofile0, taken0, released0, rf, Fd(pid, fd0), r);
          OpenOk(files1, ofile0[Fd(pid, fd0) := rf], taken0 + {r}, released0, wf, Fd(pid, fd1), w);
          return;
        }
        ofile := ofile - {Fd(pid, fd0)};
      }
      assert ofile == ofile0;
      assert !TwoFds(ofile0, pid);
      PassOn(files0, taken0, released0, r);
      PassOn(files0, taken0 + {r}, released0 + [r], w);
      var ok := Fileclose(rf);
      ok := Fileclose(wf);
      assert files == files0;
      assert released0 + [r] + [w] == released0 + [r, w];
      return -1, -1;
    }

    /** fork's loop over the descriptors: the child has the parent's, each counted. */
    method ForkFds(pid: nat, child: nat)
      requires Valid() && pid != child && forall n :: Fd(child, n) !in ofile
      modifies this`files, this`ofile
      ensures Valid()
      ensures forall k: Fd :: k.pid != child ==> (k in ofile <==> k in old(ofile)) && (k in ofile ==> ofile[k] == old(ofile)[k])
      ensures forall n :: Fd(child, n) in ofile <==> Fd(pid, n) in old(ofile)
      ensures forall n :: Fd(child, n) in ofile ==> ofile[Fd(child, n)] == old(ofile)[Fd(pid, n)]
    {
      hide ThingsOk;
      for n := 0 to NOFILE
        invariant Valid()
        invariant forall k: Fd :: k.pid != child ==> (k in ofile <==> k in old(ofile)) && (k in ofile ==> ofile[k] == old(ofile)[k])
        invariant forall m: nat :: Fd(child, m) in ofile <==> m < n && Fd(pid, m) in old(ofile)
        invariant forall m: nat :: Fd(child, m) in ofile ==> ofile[Fd(child, m)] == old(ofile)[Fd(pid, m)]
      {
        if Fd(pid, n) in ofile {
          var f := ofile[Fd(pid, n)];
          SlotCounts(files, ofile, Fd(pid, n));
          DupRefs(files, ofile, Fd(child, n), f);
          DupThings(files, taken, released, f);
          var ok := Filedup(f);
          ofile := ofile[Fd(child, n) := f];
        }
      }
    }

    /** exit's loop over the descriptors: the process has none left, and what only it had open is released. */
    method ExitFds(pid: nat)
      requires Valid()
      modifies this`files, this`ofile, this`released
      ensures Valid()
      ensures forall k :: k in ofile <==> k in old(ofile) && k.pid != pid
      ensures forall k :: k in ofile ==> ofile[k] == old(ofile)[k]
    {
      hide ThingsOk;
      for n := 0 to NOFILE
        invariant Valid()
        invariant forall k :: k in ofile <==> k in old(ofile) && !(k.pid == pid && k.n < n)
        invariant forall k :: k in ofile ==> ofile[k] == old(ofile)[k]
      {
        var r := Close(pid, n);
      }
    }
  }

  /** A thing is released exactly when the last descriptor that stood for it is gone. */
  lemma ReleasedWhenUnused(files: seq<File>, ofile: map<Fd, nat>, taken: set<Thing>, released: seq<Thing>, x: Thing)
    requires RefsOk(files, ofile) && ThingsOk(files, taken, released) && x in taken
    ensures x in released <==> !exists k :: k in ofile && ofile[k] < |files| && files[ofile[k]].thing == x
    ensures x !in released ==> exists f: nat :: Live(files, f) && files[f].thing == x && files[f].ref == |SlotsOf(ofile, f)|
  {
    if Holds(files, x) {
      var f: nat :| Live(files, f) && files[f].thing == x;
      assert |SlotsOf(ofile, f)| > 0;
      var k :| k in SlotsOf(ofile, f);
      assert k in ofile && ofile[k] < |files| && files[ofile[k]].thing == x;
    }
    if k :| k in ofile && ofile[k] < |files| && files[ofile[k]].thing == x {
      SlotCounts(files, ofile, k);
      assert Live(files, ofile[k]);
    }
  }
}
