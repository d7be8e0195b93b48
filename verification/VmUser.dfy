/**
 User memory as a process sees it.  An unmapped page below the process size
 reads as a page of zeros: with that reading, lazy growth and eager growth are
 the same operation on the image.
 */
module VmUser {
  import opened VmTree
  import opened VmMoves

  const KERNBASE: nat := USERPAGES * PGSIZE

  datatype UserPage = UserPage(bytes: seq<nat>, write: bool, user: bool)

  /** A process's memory: its size in bytes and the pages that cover it. */
  datatype Image = Image(size: nat, pages: seq<UserPage>)

  datatype SbrkReply = SbrkReply(image: Image, addr: int)

  /** The fields of struct proc that concern memory. */
  datatype Proc = Proc(pgdir: nat, sz: nat, guard: nat)

  function ZeroUserPage(): (p: UserPage) {
    UserPage(ZeroPage().bytes, true, true)
  }

  function PageView(mem: Mem, d: nat, x: nat): (p: UserPage) {
    var e := Entry(mem, d, x);
    if e.Pte? && e.frame in mem && WholePage(mem[e.frame]) then UserPage(mem[e.frame].bytes, e.write, e.user) else ZeroUserPage()
  }

  function Memory(mem: Mem, p: Proc): (m: Image) {
    Image(p.sz, seq(UserPages(p.sz), x requires 0 <= x => PageView(mem, p.pgdir, x)))
  }

  /**
   A process in order: a size of any 32-bit value, no page mapped from its size
   up to KERNBASE, and the kernel's mappings above.
   */
  ghost predicate ProcOk(mem: Mem, own: map<nat, Owner>, p: Proc) {
    IsDir(own, p.pgdir) && p.sz < WRAP && Hole(mem, p.pgdir, UserPages(p.sz), USERPAGES) && KernelMapped(mem, p.pgdir)
  }

  // The reference: memory that grows and shrinks at once.

  function Resized(m: Image, size: nat): (r: Image)
    requires |m.pages| == UserPages(m.size)
  {
    var n := UserPages(size);
    Image(size, if n <= |m.pages| then m.pages[..n] else m.pages + seq(n - |m.pages|, x => ZeroUserPage()))
  }

  function Zeroed(m: Image): (r: Image) {
    Image(m.size, seq(|m.pages|, x => ZeroUserPage()))
  }

  /**
   sbrk on an image, with its result.  Giving back the whole process is
   reported as an error after the pages are gone, and giving back more than
   that wraps around and does nothing.
   */
  function Sbrk(m: Image, n: int): (r: SbrkReply)
    requires |m.pages| == UserPages(m.size)
  {
    if m.size + n > 0 || n >= 0 then SbrkReply(Resized(m, m.size + n), m.size)
    else if m.size + n == 0 then SbrkReply(Zeroed(m), -1)
    else SbrkReply(m, if m.size == 0 then -1 else m.size)
  }

  /** May the program read, or write, page x? */
  predicate Legal(m: Image, x: nat, write: bool) {
    x < |m.pages| && m.pages[x].user && (write ==> m.pages[x].write)
  }

  // Frames of one directory change; every other process sees what it saw.

  ghost predicate Elsewhere(mem0: Mem, own0: map<nat, Owner>, d: nat, mem: Mem, own: map<nat, Owner>) {
    && (forall c :: IsDir(own0, c) ==> IsDir(own, c))
    && (forall c, x :: IsDir(own0, c) && c != d && 0 <= x < ALLPAGES ==> Entry(mem, c, x) == Entry(mem0, c, x))
    && (forall c, x :: IsDir(own0, c) && c != d && 0 <= x < USERPAGES ==> PageView(mem, c, x) == PageView(mem0, c, x))
  }

  /** A spread changes no page outside its range. */
  lemma SpreadView(mem0: Mem, own0: map<nat, Owner>, d: nat, lo: nat, hi: nat, mem: Mem, own: map<nat, Owner>, c: nat, x: nat)
    requires Owned(mem0, own0) && IsDir(own0, c) && x < USERPAGES && !(c == d && lo <= x < hi)
    requires Spread(mem0, own0, d, lo, hi, mem, own)
    ensures Entry(mem, c, x) == Entry(mem0, c, x) && PageView(mem, c, x) == PageView(mem0, c, x)
  {
    hide Entry;
    if Entry(mem0, c, x).Pte? {
      OwnedEntry(mem0, own0, c, x);
      OwnedAt(mem0, own0, Entry(mem0, c, x).frame);
    }
  }

  lemma SpreadElsewhere(mem0: Mem, own0: map<nat, Owner>, d: nat, lo: nat, hi: nat, mem: Mem, own: map<nat, Owner>)
    requires Owned(mem0, own0) && Spread(mem0, own0, d, lo, hi, mem, own)
    ensures Elsewhere(mem0, own0, d, mem, own)
  {
    hide Entry, PageView, Owned;
    forall c: nat, x: nat | IsDir(own0, c) && c != d && x < USERPAGES
      ensures PageView(mem, c, x) == PageView(mem0, c, x)
    {
      SpreadView(mem0, own0, d, lo, hi, mem, own, c, x);
    }
  }

  lemma ShrunkView(mem0: Mem, own0: map<nat, Owner>, d: nat, lo: nat, hi: nat, mem: Mem, own: map<nat, Owner>, c: nat, x: nat)
    requires Owned(mem0, own0) && IsDir(own0, d) && IsDir(own0, c) && x < USERPAGES && Shrunk(mem0, own0, d, lo, hi, mem, own)
    ensures c == d && lo <= x < hi ==> Entry(mem, c, x) == NoPte && PageView(mem, c, x) == ZeroUserPage()
    ensures !(c == d && lo <= x < hi) ==> Entry(mem, c, x) == Entry(mem0, c, x) && PageView(mem, c, x) == PageView(mem0, c, x)
  {
    hide Entry;
    if Entry(mem0, c, x).Pte? {
      OwnedEntry(mem0, own0, c, x);
      OwnedAt(mem0, own0, Entry(mem0, c, x).frame);
    }
  }

  lemma ShrunkElsewhere(mem0: Mem, own0: map<nat, Owner>, d: nat, lo: nat, hi: nat, mem: Mem, own: map<nat, Owner>)
    requires Owned(mem0, own0) && IsDir(own0, d) && Shrunk(mem0, own0, d, lo, hi, mem, own)
    ensures Elsewhere(mem0, own0, d, mem, own)
  {
    hide Entry, PageView, Owned;
    forall c: nat, x: nat | IsDir(own0, c) && c != d && x < USERPAGES
      ensures PageView(mem, c, x) == PageView(mem0, c, x)
    {
      ShrunkView(mem0, own0, d, lo, hi, mem, own, c, x);
    }
  }

  // What each operation does to the image.

  /** Growing the size alone: the new pages read as zeros. */
  lemma LazyGrowth(mem: Mem, own: map<nat, Owner>, p: Proc, sz: nat)
    requires ProcOk(mem, own, p) && p.sz <= sz < WRAP
    ensures ProcOk(mem, own, p.(sz := sz)) && Memory(mem, p.(sz := sz)) == Resized(Memory(mem, p), sz)
  {
    hide Entry;
    var a, b := Memory(mem, p.(sz := sz)).pages, Resized(Memory(mem, p), sz).pages;
    forall x | 0 <= x < UserPages(sz)
      ensures a[x] == b[x]
    {
      if x >= UserPages(p.sz) {
        assert Entry(mem, p.pgdir, x) == NoPte;
      }
    }
  }

  /** Growing by mapping zeroed pages: the same image. */
  lemma EagerGrowth(mem0: Mem, own0: map<nat, Owner>, p: Proc, mem: Mem, own: map<nat, Owner>, sz: nat)
    requires Owned(mem0, own0) && ProcOk(mem0, own0, p) && p.sz <= sz <= KERNBASE
    requires Spread(mem0, own0, p.pgdir, UserPages(p.sz), UserPages(sz), mem, own) && ZeroRange(mem, p.pgdir, UserPages(p.sz), UserPages(sz))
    ensures ProcOk(mem, own, p.(sz := sz)) && Memory(mem, p.(sz := sz)) == Resized(Memory(mem0, p), sz)
  {
    hide Entry, Owned, PageView;
    var d, lo, hi := p.pgdir, UserPages(p.sz), UserPages(sz);
    var a, b := Memory(mem, p.(sz := sz)).pages, Resized(Memory(mem0, p), sz).pages;
    forall x | 0 <= x < hi
      ensures a[x] == b[x]
    {
      if x >= lo {
        ZeroView(mem, d, x);
      } else {
        SpreadView(mem0, own0, d, lo, hi, mem, own, d, x);
      }
    }
    forall x | hi <= x < USERPAGES
      ensures Entry(mem, d, x) == NoPte
    {
      SpreadView(mem0, own0, d, lo, hi, mem, own, d, x);
    }
  }

  lemma ZeroView(mem: Mem, d: nat, x: nat)
    requires ZeroAt(mem, d, x)
    ensures PageView(mem, d, x) == ZeroUserPage()
  {
  }

  /** Unmapping the pages from size sz on, with the size kept. */
  lemma Unmapped(mem0: Mem, own0: map<nat, Owner>, p: Proc, mem: Mem, own: map<nat, Owner>, sz: nat)
    requires Owned(mem0, own0) && ProcOk(mem0, own0, p) && sz < p.sz
    requires Shrunk(mem0, own0, p.pgdir, UserPages(sz), UserPages(p.sz), mem, own)
    ensures ProcOk(mem, own, p) && ProcOk(mem, own, p.(sz := sz))
    ensures Memory(mem, p.(sz := sz)) == Resized(Memory(mem0, p), sz)
    ensures sz == 0 ==> Memory(mem, p) == Zeroed(Memory(mem0, p))
  {
    hide Entry, Owned, PageView;
    var d, lo, hi := p.pgdir, UserPages(sz), UserPages(p.sz);
    forall x | 0 <= x < USERPAGES
      ensures lo <= x < hi ==> Entry(mem, d, x) == NoPte && PageView(mem, d, x) == ZeroUserPage()
      ensures !(lo <= x < hi) ==> Entry(mem, d, x) == Entry(mem0, d, x) && PageView(mem, d, x) == PageView(mem0, d, x)
    {
      ShrunkView(mem0, own0, d, lo, hi, mem, own, d, x);
    }
    assert Memory(mem, p.(sz := sz)).pages == Memory(mem0, p).pages[..lo];
  }

  /** Mapping a zeroed page into a hole below the size changes nothing that is seen. */
  lemma Touched(mem0: Mem, own0: map<nat, Owner>, p: Proc, x: nat, mem: Mem, own: map<nat, Owner>)
    requires Owned(mem0, own0) && ProcOk(mem0, own0, p) && x < UserPages(p.sz) && Entry(mem0, p.pgdir, x) == NoPte
    requires Spread(mem0, own0, p.pgdir, x, x + 1, mem, own) && ZeroAt(mem, p.pgdir, x)
    ensures ProcOk(mem, own, p) && Memory(mem, p) == Memory(mem0, p)
  {
    hide Entry, Owned, PageView;
    var d := p.pgdir;
    HoleView(mem0, d, x);
    ZeroView(mem, d, x);
    forall y | 0 <= y < USERPAGES && y != x
      ensures Entry(mem, d, y) == Entry(mem0, d, y) && PageView(mem, d, y) == PageView(mem0, d, y)
    {
      SpreadView(mem0, own0, d, x, x + 1, mem, own, d, y);
    }
    assert Memory(mem, p).pages == Memory(mem0, p).pages;
  }

  lemma HoleView(mem: Mem, d: nat, x: nat)
    requires Entry(mem, d, x) == NoPte
    ensures PageView(mem, d, x) == ZeroUserPage()
  {
  }

  /** New page tables alone, or nothing: nobody sees a difference. */
  lemma Unseen(mem0: Mem, own0: map<nat, Owner>, p: Proc, lo: nat, mem: Mem, own: map<nat, Owner>)
    requires Owned(mem0, own0) && ProcOk(mem0, own0, p) && Spread(mem0, own0, p.pgdir, lo, lo, mem, own)
    ensures ProcOk(mem, own, p) && Memory(mem, p) == Memory(mem0, p) && Elsewhere(mem0, own0, p.pgdir, mem, own)
  {
    hide Entry, Owned, PageView;
    var d := p.pgdir;
    SpreadElsewhere(mem0, own0, d, lo, lo, mem, own);
    forall y | 0 <= y < USERPAGES
      ensures Entry(mem, d, y) == Entry(mem0, d, y) && PageView(mem, d, y) == PageView(mem0, d, y)
    {
      SpreadView(mem0, own0, d, lo, lo, mem, own, d, y);
    }
    assert Memory(mem, p).pages == Memory(mem0, p).pages;
  }

  /** A byte stored in a page of p shows up in p's image and nowhere else. */
  lemma Poked(mem0: Mem, own: map<nat, Owner>, p: Proc, x: nat, k: nat, b: nat, f: nat, mem: Mem)
    requires Owned(mem0, own) && ProcOk(mem0, own, p) && x < UserPages(p.sz) && k < PGSIZE
    requires Entry(mem0, p.pgdir, x).Pte? && f == Entry(mem0, p.pgdir, x).frame
    requires f in mem0 && WholePage(mem0[f]) && mem == mem0[f := Page(mem0[f].bytes[k := b])]
    requires forall c, v :: IsDir(own, c) && 0 <= v < ALLPAGES ==> Entry(mem, c, v) == Entry(mem0, c, v)
    ensures ProcOk(mem, own, p) && Elsewhere(mem0, own, p.pgdir, mem, own)
    ensures |PageView(mem0, p.pgdir, x).bytes| == PGSIZE && Memory(mem, p) == Written(Memory(mem0, p), x, k, b)
  {
    hide Entry, Owned;
    OwnedEntry(mem0, own, p.pgdir, x);
    forall c: nat, y: nat | IsDir(own, c) && y < USERPAGES && !(c == p.pgdir && y == x)
      ensures PageView(mem, c, y) == PageView(mem0, c, y)
    {
      if Entry(mem0, c, y).Pte? {
        OwnedEntry(mem0, own, c, y);
      }
    }
    assert Memory(mem, p).pages == Written(Memory(mem0, p), x, k, b).pages;
  }

  /** The image with byte k of page x set to b. */
  function Written(m: Image, x: nat, k: nat, b: nat): (r: Image) {
    if x < |m.pages| && k < |m.pages[x].bytes| then m.(pages := m.pages[x := m.pages[x].(bytes := m.pages[x].bytes[k := b])]) else m
  }

  // Access by the program.

  /** What an access to page x leads to: the page itself, a page fault that maps it, the end of the process, or panic "remap". */
  datatype Reach = Direct | Reserve | Kill | Remap

  /** The tests of the page-fault handler. */
  predicate Reserves(p: Proc, x: nat) {
    x * PGSIZE < p.sz && x * PGSIZE < KERNBASE && x * PGSIZE != p.guard
  }

  function ReachOf(mem: Mem, p: Proc, x: nat, write: bool): (r: Reach) {
    var e := Entry(mem, p.pgdir, x);
    if e.Pte? && e.user && (write ==> e.write) then Direct
    else if !Reserves(p, x) then Kill
    else if e.Pte? then Remap
    else Reserve
  }

  /** The guard field is right: its page is no hole, and every page the program may not fully use is that page. */
  ghost predicate GuardRight(mem: Mem, p: Proc) {
    forall x :: 0 <= x < UserPages(p.sz) ==> RightAt(mem, p, x)
  }

  predicate RightAt(mem: Mem, p: Proc, x: nat) {
    var e := Entry(mem, p.pgdir, x);
    if e.Pte? then (e.user && e.write) || x * PGSIZE == p.guard else x * PGSIZE != p.guard
  }

  ghost predicate Agrees(mem: Mem, p: Proc, x: nat, write: bool) {
    var r := ReachOf(mem, p, x, write);
    !r.Remap? && (r.Kill? <==> !Legal(Memory(mem, p), x, write))
  }

  lemma ViewRights(mem: Mem, own: map<nat, Owner>, p: Proc, x: nat)
    requires Owned(mem, own) && ProcOk(mem, own, p) && x < UserPages(p.sz)
    ensures var e, v := Entry(mem, p.pgdir, x), Memory(mem, p).pages[x];
            if e.Pte? then v.user == e.user && v.write == e.write else v.user && v.write
  {
    hide Entry, Owned;
    var e := Entry(mem, p.pgdir, x);
    if e.Pte? {
      OwnedEntry(mem, own, p.pgdir, x);
      OwnedAt(mem, own, e.frame);
    }
  }

  lemma PageStart(x: nat, sz: nat)
    ensures x * PGSIZE < sz && x * PGSIZE < KERNBASE <==> x < UserPages(sz)
  {
  }

  /** The handler and the image agree on every access to every page exactly when the guard field is right. */
  lemma GuardExact(mem: Mem, own: map<nat, Owner>, p: Proc)
    requires Owned(mem, own) && ProcOk(mem, own, p)
    ensures GuardRight(mem, p) <==> forall x, write :: 0 <= x < ALLPAGES ==> Agrees(mem, p, x, write)
  {
    hide Entry, Owned, Memory, PagesFor;
    if GuardRight(mem, p) {
      forall x: nat, write | x < ALLPAGES
        ensures Agrees(mem, p, x, write)
      {
        RightAgrees(mem, own, p, x, write);
      }
    } else {
      var x :| 0 <= x < UserPages(p.sz) && !RightAt(mem, p, x);
      ViewRights(mem, own, p, x);
      PageStart(x, p.sz);
      assert |Memory(mem, p).pages| == UserPages(p.sz) by {
        MemorySize(mem, p);
      }
      PagesBelow(p.sz);
      assert !Agrees(mem, p, x, true);
    }
  }

  lemma MemorySize(mem: Mem, p: Proc)
    ensures |Memory(mem, p).pages| == UserPages(p.sz)
  {
  }

  lemma PagesBelow(sz: nat)
    ensures UserPages(sz) <= USERPAGES < ALLPAGES
  {
  }

  lemma RightAgrees(mem: Mem, own: map<nat, Owner>, p: Proc, x: nat, write: bool)
    requires Owned(mem, own) && ProcOk(mem, own, p) && GuardRight(mem, p) && x < ALLPAGES
    ensures Agrees(mem, p, x, write)
  {
    hide Entry, Owned, Memory, PagesFor;
    PageStart(x, p.sz);
    MemorySize(mem, p);
    PagesBelow(p.sz);
    if x < UserPages(p.sz) {
      assert RightAt(mem, p, x);
      ViewRights(mem, own, p, x);
    }
  }
}
