/**
 Two-level page tables in physical frames, and who owns each frame: a page
 directory, a page table of a directory, or a user page of a directory.
 */
module VmTree {

  /** Entries per page directory and per page table. */
  const NPT: nat := 1024
  /** Virtual pages below KERNBASE, and of the whole address space. */
  const USERPAGES: nat := 0x8_0000
  const ALLPAGES: nat := 0x10_0000
  const PGSIZE: nat := 4096

  datatype Pte = NoPte | Pte(frame: nat, write: bool, user: bool)

  /** A frame holds table entries, the bytes of a user page, or kfree's junk. */
  datatype Frame = Table(entries: seq<Pte>) | Page(bytes: seq<nat>) | Junk

  type Mem = map<nat, Frame>

  datatype Owner = DirOf | TableOf(d: nat, i: nat) | PageOf(d: nat, v: nat)

  function ZeroTable(): (f: Frame)
    ensures f.Table? && |f.entries| == NPT && forall k :: 0 <= k < NPT ==> f.entries[k] == NoPte
  {
    Table(seq(NPT, i => NoPte))
  }

  function ZeroPage(): (f: Frame)
    ensures f.Page? && |f.bytes| == PGSIZE && forall k :: 0 <= k < PGSIZE ==> f.bytes[k] == 0
  {
    Page(seq(PGSIZE, i => 0))
  }

  /** A frame full of user bytes. */
  predicate WholePage(x: Frame) {
    x.Page? && |x.bytes| == PGSIZE
  }

  predicate IsTable(mem: Mem, t: nat) {
    t in mem && mem[t].Table? && |mem[t].entries| == NPT
  }

  /** Entry k of the table in frame t. */
  function Slot(mem: Mem, t: nat, k: nat): (e: Pte) {
    if IsTable(mem, t) && k < NPT then mem[t].entries[k] else NoPte
  }

  function SetSlot(mem: Mem, t: nat, k: nat, e: Pte): (r: Mem)
    requires IsTable(mem, t) && k < NPT
  {
    mem[t := Table(mem[t].entries[k := e])]
  }

  /** What walkpgdir finds for virtual page v of directory d, without allocating. */
  function Entry(mem: Mem, d: nat, v: nat): (e: Pte) {
    var t := Slot(mem, d, v / NPT);
    if t.Pte? then Slot(mem, t.frame, v % NPT) else NoPte
  }

  /** The two lookups of the hardware for address va: bits 22 to 31 in the directory, bits 12 to 21 in the table. */
  lemma WalkBits(mem: Mem, d: nat, va: nat)
    requires va < 0x1_0000_0000 && IsTable(mem, d)
    ensures var e := mem[d].entries[va / 0x40_0000];
            Entry(mem, d, va / 0x1000) ==
            if e.Pte? && IsTable(mem, e.frame) then mem[e.frame].entries[va / 0x1000 % 0x400] else NoPte
  {
    assert va / 0x1000 / 0x400 == va / 0x40_0000;
  }

  ghost predicate IsDir(own: map<nat, Owner>, d: nat) {
    d in own && own[d].DirOf?
  }

  /** What owner w of frame f says about memory. */
  ghost predicate OwnerOk(mem: Mem, own: map<nat, Owner>, f: nat, w: Owner) {
    match w
    case DirOf => IsTable(mem, f)
    case TableOf(d, i) => IsTable(mem, f) && i < NPT && IsDir(own, d) && Slot(mem, d, i).Pte? && Slot(mem, d, i).frame == f
    case PageOf(d, v) =>
      f in mem && WholePage(mem[f]) && v < USERPAGES && IsDir(own, d) && Entry(mem, d, v).Pte? && Entry(mem, d, v).frame == f
  }

  /** own gives every frame used by page tables and user memory its one owner. */
  ghost predicate Owned(mem: Mem, own: map<nat, Owner>) {
    && (forall f :: f in own ==> OwnerOk(mem, own, f, own[f]))
    && (forall d, i :: IsDir(own, d) && 0 <= i < NPT && Slot(mem, d, i).Pte? ==>
          Slot(mem, d, i).frame in own && own[Slot(mem, d, i).frame] == TableOf(d, i))
    && (forall d, v :: IsDir(own, d) && 0 <= v < USERPAGES && Entry(mem, d, v).Pte? ==>
          Entry(mem, d, v).frame in own && own[Entry(mem, d, v).frame] == PageOf(d, v))
  }

  lemma SlotSet(mem: Mem, t: nat, k: nat, e: Pte, t': nat, k': nat)
    requires IsTable(mem, t) && k < NPT
    ensures Slot(SetSlot(mem, t, k, e), t', k') == if t' == t && k' == k then e else Slot(mem, t', k')
    ensures IsTable(SetSlot(mem, t, k, e), t') == IsTable(mem, t')
  {
  }

  lemma OwnedAt(mem: Mem, own: map<nat, Owner>, f: nat)
    requires Owned(mem, own) && f in own
    ensures OwnerOk(mem, own, f, own[f])
  {
  }

  lemma OwnedSlot(mem: Mem, own: map<nat, Owner>, d: nat, i: nat)
    requires Owned(mem, own) && IsDir(own, d) && i < NPT && Slot(mem, d, i).Pte?
    ensures Slot(mem, d, i).frame in own && own[Slot(mem, d, i).frame] == TableOf(d, i)
  {
  }

  lemma OwnedEntry(mem: Mem, own: map<nat, Owner>, d: nat, v: nat)
    requires Owned(mem, own) && IsDir(own, d) && v < USERPAGES && Entry(mem, d, v).Pte?
    ensures Entry(mem, d, v).frame in own && own[Entry(mem, d, v).frame] == PageOf(d, v)
  {
  }

  // A frame that is no table changes nothing that the tables say.

  lemma OffTables(mem: Mem, own: map<nat, Owner>, f: nat, x: Frame, d: nat, v: nat)
    requires Owned(mem, own) && IsDir(own, d) && v < ALLPAGES && !(f in own && !own[f].PageOf?)
    ensures Entry(mem[f := x], d, v) == Entry(mem, d, v)
    ensures forall i :: 0 <= i < NPT ==> Slot(mem[f := x], d, i) == Slot(mem, d, i)
  {
    hide Owned;
    OwnedAt(mem, own, d);
    if Slot(mem, d, v / NPT).Pte? {
      OwnedSlot(mem, own, d, v / NPT);
    }
  }

  // A new page table.

  ghost predicate CanAddTable(mem: Mem, own: map<nat, Owner>, d: nat, i: nat, t: nat) {
    Owned(mem, own) && IsDir(own, d) && i < NPT && Slot(mem, d, i) == NoPte && t !in own && t != d
  }

  function AddTable(mem: Mem, d: nat, i: nat, t: nat): (r: Mem)
    requires IsTable(mem, d) && i < NPT && t != d
  {
    SetSlot(mem[t := ZeroTable()], d, i, Pte(t, true, true))
  }

  lemma AddTableSlot(mem: Mem, own: map<nat, Owner>, d: nat, i: nat, t: nat, c: nat, k: nat)
    requires CanAddTable(mem, own, d, i, t) && c != t
    ensures IsTable(mem, d)
    ensures Slot(AddTable(mem, d, i, t), c, k) == if c == d && k == i then Pte(t, true, true) else Slot(mem, c, k)
    ensures IsTable(AddTable(mem, d, i, t), c) == IsTable(mem, c) && (c != d ==> (c in mem <==> c in AddTable(mem, d, i, t)))
  {
    OwnedAt(mem, own, d);
    SlotSet(mem[t := ZeroTable()], d, i, Pte(t, true, true), c, k);
  }

  /** An empty page table maps nothing: every virtual page of every directory keeps its entry. */
  lemma AddTableEntry(mem: Mem, own: map<nat, Owner>, d: nat, i: nat, t: nat, c: nat, v: nat)
    requires CanAddTable(mem, own, d, i, t) && IsDir(own, c) && v < ALLPAGES
    ensures IsTable(mem, d)
    ensures Entry(AddTable(mem, d, i, t), c, v) == Entry(mem, c, v)
  {
    hide Owned, AddTable;
    assert Owned(mem, own);
    AddTableSlot(mem, own, d, i, t, c, v / NPT);
    var e := Slot(mem, c, v / NPT);
    if e.Pte? {
      OwnedSlot(mem, own, c, v / NPT);
      AddTableSlot(mem, own, d, i, t, e.frame, v % NPT);
    } else if c == d && v / NPT == i {
      AddedIsEmpty(mem, own, d, i, t, v % NPT);
    }
  }

  lemma AddedIsEmpty(mem: Mem, own: map<nat, Owner>, d: nat, i: nat, t: nat, k: nat)
    requires CanAddTable(mem, own, d, i, t) && IsTable(mem, d)
    ensures Slot(AddTable(mem, d, i, t), t, k) == NoPte && IsTable(AddTable(mem, d, i, t), t)
  {
  }

  lemma AddTableOwned(mem: Mem, own: map<nat, Owner>, d: nat, i: nat, t: nat)
    requires CanAddTable(mem, own, d, i, t)
    ensures IsTable(mem, d)
    ensures Owned(AddTable(mem, d, i, t), own[t := TableOf(d, i)])
  {
    hide AddTable, Entry, Slot;
    OwnedAt(mem, own, d);
    var mem', own' := AddTable(mem, d, i, t), own[t := TableOf(d, i)];
    forall c: nat, k: nat | IsDir(own, c)
      ensures Slot(mem', c, k) == if c == d && k == i then Pte(t, true, true) else Slot(mem, c, k)
    {
      AddTableSlot(mem, own, d, i, t, c, k);
    }
    forall c: nat, v: nat | IsDir(own, c) && v < ALLPAGES
      ensures Entry(mem', c, v) == Entry(mem, c, v)
    {
      AddTableEntry(mem, own, d, i, t, c, v);
    }
    forall f | f in own
      ensures OwnerOk(mem', own', f, own[f])
    {
      OwnedAt(mem, own, f);
      AddTableSlot(mem, own, d, i, t, f, 0);
      if f != d && own[f].PageOf? {
        AddTableKeeps(mem, d, i, t, f);
      }
    }
    AddedIsEmpty(mem, own, d, i, t, 0);
  }

  lemma AddTableKeeps(mem: Mem, d: nat, i: nat, t: nat, f: nat)
    requires IsTable(mem, d) && i < NPT && t != d && f != t && f != d && f in mem
    ensures f in AddTable(mem, d, i, t) && AddTable(mem, d, i, t)[f] == mem[f]
  {
  }

  // Writing an entry of an existing page table.

  ghost predicate HasTable(mem: Mem, own: map<nat, Owner>, d: nat, v: nat) {
    Owned(mem, own) && IsDir(own, d) && v < ALLPAGES && Slot(mem, d, v / NPT).Pte?
  }

  function SetEntry(mem: Mem, d: nat, v: nat, e: Pte): (r: Mem) {
    var t := Slot(mem, d, v / NPT);
    if t.Pte? && IsTable(mem, t.frame) then SetSlot(mem, t.frame, v % NPT, e) else mem
  }

  lemma SetEntrySlot(mem: Mem, own: map<nat, Owner>, d: nat, v: nat, e: Pte, c: nat, k: nat)
    requires HasTable(mem, own, d, v)
    ensures var t := Slot(mem, d, v / NPT).frame;
            Slot(SetEntry(mem, d, v, e), c, k) == if c == t && k == v % NPT then e else Slot(mem, c, k)
    ensures IsTable(SetEntry(mem, d, v, e), c) == IsTable(mem, c)
    ensures c != Slot(mem, d, v / NPT).frame && c in mem ==> c in SetEntry(mem, d, v, e) && SetEntry(mem, d, v, e)[c] == mem[c]
    ensures IsTable(mem, Slot(mem, d, v / NPT).frame)
  {
    hide Owned, SetSlot;
    var t := Slot(mem, d, v / NPT).frame;
    OwnedSlot(mem, own, d, v / NPT);
    OwnedAt(mem, own, t);
    SlotSet(mem, t, v % NPT, e, c, k);
    SetSlotOther(mem, t, v % NPT, e, c);
  }

  lemma SetSlotOther(mem: Mem, t: nat, k: nat, e: Pte, c: nat)
    requires IsTable(mem, t) && k < NPT
    ensures c != t && c in mem ==> c in SetSlot(mem, t, k, e) && SetSlot(mem, t, k, e)[c] == mem[c]
  {
  }

  /** Directories keep their slots. */
  lemma SetEntryDirs(mem: Mem, own: map<nat, Owner>, d: nat, v: nat, e: Pte, c: nat, i: nat)
    requires HasTable(mem, own, d, v) && IsDir(own, c)
    ensures Slot(SetEntry(mem, d, v, e), c, i) == Slot(mem, c, i)
  {
    hide Owned, SetEntry;
    OwnedSlot(mem, own, d, v / NPT);
    SetEntrySlot(mem, own, d, v, e, c, i);
  }

  lemma SamePage(v: nat, x: nat)
    requires v / NPT == x / NPT && v % NPT == x % NPT
    ensures v == x
  {
  }

  /** Only the written virtual page of the written directory changes its entry. */
  lemma SetEntryAt(mem: Mem, own: map<nat, Owner>, d: nat, v: nat, e: Pte, c: nat, x: nat)
    requires HasTable(mem, own, d, v) && IsDir(own, c) && x < ALLPAGES
    ensures Entry(SetEntry(mem, d, v, e), c, x) == if c == d && x == v then e else Entry(mem, c, x)
  {
    hide Owned, SetEntry;
    SetEntryDirs(mem, own, d, v, e, c, x / NPT);
    OwnedSlot(mem, own, d, v / NPT);
    var t := Slot(mem, c, x / NPT);
    if t.Pte? {
      OwnedSlot(mem, own, c, x / NPT);
      SetEntrySlot(mem, own, d, v, e, t.frame, x % NPT);
      if t.frame == Slot(mem, d, v / NPT).frame && x % NPT == v % NPT {
        SamePage(v, x);
      }
    }
  }

  /** The owner clauses that a write of entry (d, v) cannot disturb. */
  lemma SetEntryOwner(mem: Mem, own: map<nat, Owner>, d: nat, v: nat, e: Pte, f: nat)
    requires HasTable(mem, own, d, v) && f in own && own[f] != PageOf(d, v)
    ensures OwnerOk(SetEntry(mem, d, v, e), own, f, own[f])
  {
    hide Owned, SetEntry, Entry, Slot;
    OwnedAt(mem, own, f);
    SetEntrySlot(mem, own, d, v, e, f, 0);
    match own[f] {
      case DirOf =>
      case TableOf(c, i) => SetEntryDirs(mem, own, d, v, e, c, i);
      case PageOf(c, x) =>
        SetEntryAt(mem, own, d, v, e, c, x);
        OwnedSlot(mem, own, d, v / NPT);
    }
  }

  lemma MoreOwners(mem: Mem, own: map<nat, Owner>, f: nat, w: Owner, own': map<nat, Owner>)
    requires OwnerOk(mem, own, f, w) && forall c :: IsDir(own, c) ==> IsDir(own', c)
    ensures OwnerOk(mem, own', f, w)
  {
  }

  /** A page frame becomes user page v of directory d. */
  lemma AttachPage(mem: Mem, own: map<nat, Owner>, d: nat, v: nat, e: Pte)
    requires HasTable(mem, own, d, v) && v < USERPAGES && Entry(mem, d, v) == NoPte
    requires e.Pte? && e.frame !in own && e.frame in mem && WholePage(mem[e.frame])
    ensures Owned(SetEntry(mem, d, v, e), own[e.frame := PageOf(d, v)])
  {
    hide SetEntry, Entry, Slot;
    var mem', own' := SetEntry(mem, d, v, e), own[e.frame := PageOf(d, v)];
    EntriesAfterSet(mem, own, d, v, e);
    forall f | f in own'
      ensures OwnerOk(mem', own', f, own'[f])
    {
      if f in own {
        OwnedAt(mem, own, f);
        SetEntryOwner(mem, own, d, v, e, f);
        MoreOwners(mem', own, f, own[f], own');
      } else {
        OwnedSlot(mem, own, d, v / NPT);
        SetEntrySlot(mem, own, d, v, e, e.frame, 0);
      }
    }
  }

  lemma EntriesAfterSet(mem: Mem, own: map<nat, Owner>, d: nat, v: nat, e: Pte)
    requires HasTable(mem, own, d, v)
    ensures var mem' := SetEntry(mem, d, v, e);
            && (forall c, i :: IsDir(own, c) && 0 <= i < NPT ==> Slot(mem', c, i) == Slot(mem, c, i))
            && (forall c, x :: IsDir(own, c) && 0 <= x < ALLPAGES ==>
                 Entry(mem', c, x) == if c == d && x == v then e else Entry(mem, c, x))
  {
    hide SetEntry, Entry, Slot, Owned;
    var mem' := SetEntry(mem, d, v, e);
    forall c: nat, i: nat | IsDir(own, c) && i < NPT
      ensures Slot(mem', c, i) == Slot(mem, c, i)
    {
      SetEntryDirs(mem, own, d, v, e, c, i);
    }
    forall c: nat, x: nat | IsDir(own, c) && x < ALLPAGES
      ensures Entry(mem', c, x) == if c == d && x == v then e else Entry(mem, c, x)
    {
      SetEntryAt(mem, own, d, v, e, c, x);
    }
  }

  /** A kernel mapping owns no frame. */
  lemma MapKernel(mem: Mem, own: map<nat, Owner>, d: nat, v: nat, e: Pte)
    requires HasTable(mem, own, d, v) && USERPAGES <= v
    ensures Owned(SetEntry(mem, d, v, e), own)
  {
    hide SetEntry, Entry, Slot;
    EntriesAfterSet(mem, own, d, v, e);
    forall f | f in own
      ensures OwnerOk(SetEntry(mem, d, v, e), own, f, own[f])
    {
      OwnedAt(mem, own, f);
      SetEntryOwner(mem, own, d, v, e, f);
    }
  }

  lemma FewerOwners(mem: Mem, own: map<nat, Owner>, f: nat, w: Owner, p: nat)
    requires OwnerOk(mem, own, f, w) && p in own && own[p].PageOf?
    ensures OwnerOk(mem, own - {p}, f, w)
  {
  }

  /** User page v of directory d is unmapped and its frame let go. */
  lemma DetachPage(mem: Mem, own: map<nat, Owner>, d: nat, v: nat)
    requires Owned(mem, own) && IsDir(own, d) && v < USERPAGES && Entry(mem, d, v).Pte?
    ensures HasTable(mem, own, d, v)
    ensures Owned(SetEntry(mem, d, v, NoPte), own - {Entry(mem, d, v).frame})
  {
    hide SetEntry, Slot;
    var p := Entry(mem, d, v).frame;
    OwnedEntry(mem, own, d, v);
    var mem', own' := SetEntry(mem, d, v, NoPte), own - {p};
    EntriesAfterSet(mem, own, d, v, NoPte);
    forall f | f in own'
      ensures OwnerOk(mem', own', f, own'[f])
    {
      DetachOther(mem, own, d, v, f);
    }
  }

  lemma DetachOther(mem: Mem, own: map<nat, Owner>, d: nat, v: nat, f: nat)
    requires Owned(mem, own) && IsDir(own, d) && v < USERPAGES && Entry(mem, d, v).Pte?
    requires f in own && f != Entry(mem, d, v).frame
    ensures OwnerOk(SetEntry(mem, d, v, NoPte), own - {Entry(mem, d, v).frame}, f, own[f])
  {
    hide SetEntry, Slot, Owned;
    var p := Entry(mem, d, v).frame;
    OwnedEntry(mem, own, d, v);
    OwnedAt(mem, own, f);
    SetEntryOwner(mem, own, d, v, NoPte, f);
    FewerOwners(SetEntry(mem, d, v, NoPte), own, f, own[f], p);
  }

  // Frames outside the tables.

  /** Writing a free or in-hand frame, or the bytes of a user page, keeps every owner. */
  lemma OffTablesOwned(mem: Mem, own: map<nat, Owner>, f: nat, x: Frame)
    requires Owned(mem, own) && (f in own ==> own[f].PageOf? && WholePage(x))
    ensures Owned(mem[f := x], own)
    ensures forall c, v :: IsDir(own, c) && 0 <= v < ALLPAGES ==> Entry(mem[f := x], c, v) == Entry(mem, c, v)
  {
    hide Entry, Slot;
    var mem' := mem[f := x];
    forall c: nat, v: nat | IsDir(own, c) && v < ALLPAGES
      ensures Entry(mem', c, v) == Entry(mem, c, v)
    {
      OffTables(mem, own, f, x, c, v);
    }
    forall c: nat, i: nat | IsDir(own, c) && i < NPT
      ensures Slot(mem', c, i) == Slot(mem, c, i)
    {
      OffTables(mem, own, f, x, c, 0);
    }
    forall g | g in own
      ensures OwnerOk(mem', own, g, own[g])
    {
      OwnedAt(mem, own, g);
    }
  }

  /** A zeroed frame becomes a directory that maps nothing. */
  lemma NewDir(mem: Mem, own: map<nat, Owner>, d: nat)
    requires Owned(mem, own) && d !in own
    ensures Owned(mem[d := ZeroTable()], own[d := DirOf])
    ensures var mem' := mem[d := ZeroTable()]; forall v :: 0 <= v < ALLPAGES ==> Entry(mem', d, v) == NoPte
    ensures forall c, v :: IsDir(own, c) && 0 <= v < ALLPAGES ==> Entry(mem[d := ZeroTable()], c, v) == Entry(mem, c, v)
  {
    hide Entry, Slot;
    var mem', own' := mem[d := ZeroTable()], own[d := DirOf];
    OffTablesOwned(mem, own, d, ZeroTable());
    EmptyDir(mem, d);
    forall f | f in own'
      ensures OwnerOk(mem', own', f, own'[f])
    {
      if f != d {
        OwnedAt(mem', own, f);
        MoreOwners(mem', own, f, own[f], own');
      }
    }
  }

  lemma EmptyDir(mem: Mem, d: nat)
    ensures var mem' := mem[d := ZeroTable()];
            && IsTable(mem', d)
            && (forall i :: 0 <= i < NPT ==> Slot(mem', d, i) == NoPte)
            && (forall v :: 0 <= v < ALLPAGES ==> Entry(mem', d, v) == NoPte)
  {
  }

  /** The frames of directory d: itself, its page tables and its user pages. */
  ghost function FramesOf(own: map<nat, Owner>, d: nat): (s: set<nat>) {
    set f | f in own && Belongs(own, d, f)
  }

  ghost predicate Belongs(own: map<nat, Owner>, d: nat, f: nat)
    requires f in own
  {
    match own[f]
    case DirOf => f == d
    case TableOf(c, _) => c == d
    case PageOf(c, _) => c == d
  }

  /** Letting go of all frames of one directory leaves every other directory as it was. */
  lemma DropDir(mem: Mem, own: map<nat, Owner>, d: nat, mem': Mem)
    requires Owned(mem, own) && IsDir(own, d)
    requires forall f :: f in own && !Belongs(own, d, f) ==> f in mem' && mem'[f] == mem[f]
    ensures Owned(mem', own - FramesOf(own, d))
    ensures forall c, v :: IsDir(own, c) && c != d && 0 <= v < ALLPAGES ==> Entry(mem', c, v) == Entry(mem, c, v)
  {
    hide Entry, Slot;
    var own' := own - FramesOf(own, d);
    forall c: nat, i: nat | IsDir(own, c) && c != d && i < NPT
      ensures Slot(mem', c, i) == Slot(mem, c, i)
    {
      DropSlot(mem, own, d, mem', c, i);
    }
    forall c: nat, v: nat | IsDir(own, c) && c != d && v < ALLPAGES
      ensures Entry(mem', c, v) == Entry(mem, c, v)
    {
      DropEntry(mem, own, d, mem', c, v);
    }
    forall f | f in own'
      ensures OwnerOk(mem', own', f, own'[f])
    {
      OwnedAt(mem, own, f);
    }
  }

  lemma DropSlot(mem: Mem, own: map<nat, Owner>, d: nat, mem': Mem, c: nat, i: nat)
    requires Owned(mem, own) && IsDir(own, c) && c != d
    requires forall f :: f in own && !Belongs(own, d, f) ==> f in mem' && mem'[f] == mem[f]
    ensures Slot(mem', c, i) == Slot(mem, c, i)
  {
  }

  lemma DropEntry(mem: Mem, own: map<nat, Owner>, d: nat, mem': Mem, c: nat, v: nat)
    requires Owned(mem, own) && IsDir(own, c) && c != d && v < ALLPAGES
    requires forall f :: f in own && !Belongs(own, d, f) ==> f in mem' && mem'[f] == mem[f]
    ensures Entry(mem', c, v) == Entry(mem, c, v)
  {
    hide Owned, Slot;
    DropSlot(mem, own, d, mem', c, v / NPT);
    if Slot(mem, c, v / NPT).Pte? {
      OwnedSlot(mem, own, c, v / NPT);
      OwnedAt(mem, own, Slot(mem, c, v / NPT).frame);
      SameFrameSlot(mem, mem', Slot(mem, c, v / NPT).frame, v % NPT);
    }
  }

  lemma SameFrameSlot(mem: Mem, mem': Mem, f: nat, k: nat)
    requires f in mem' && f in mem && mem'[f] == mem[f]
    ensures Slot(mem', f, k) == Slot(mem, f, k)
  {
  }
}
