/** Steps that leave every address translation alone, and the pages that hold data rather than
    directories and tables. */
module Spaces {
  import opened Memory
  import opened Bitmaps
  import opened Frames
  import opened Paging

  /** The page at b is a page table of one of the directories. */
  ghost predicate IsTable(m: Mem, dirs: set<int>, b: int) {
    exists e, i :: e in dirs && 0 <= i < 1024 && Present(Pde(m, e, i)) && Table(m, e, i) == b
  }

  /** A held page that no directory is built from. */
  ghost predicate DataPage(m: Mem, pmm: PMM, dirs: set<int>, b: int) {
    Held(m, pmm, b) && b !in dirs && !IsTable(m, dirs, b)
  }

  /** Nothing that translates addresses was written or released. */
  ghost predicate StructuresKept(m: Mem, m': Mem, pmm: PMM, dirs: set<int>) {
    && |m'| == |m| && pmm.Valid(m') && pmm.Used(m) <= pmm.Used(m')
    && forall b :: b in dirs || IsTable(m, dirs, b) ==> Same(m, m', b, b + PAGE)
  }

  /** Directory e has the same entries and translates as before. */
  ghost predicate DirKept(m: Mem, m': Mem, e: int) {
    SameWalk(m, e, m', e) && forall i :: 0 <= i < 1024 ==> Pde(m', e, i) == Pde(m, e, i)
  }

  ghost predicate WalksKept(m: Mem, m': Mem, dirs: set<int>) {
    forall e :: e in dirs ==> DirKept(m, m', e)
  }

  lemma WalksKeptRefl(m: Mem, dirs: set<int>)
    ensures WalksKept(m, m, dirs)
  {
  }

  lemma WalksKeptTrans(m: Mem, m1: Mem, m': Mem, dirs: set<int>)
    requires WalksKept(m, m1, dirs) && WalksKept(m1, m', dirs)
    ensures WalksKept(m, m', dirs)
  {
  }

  ghost predicate SameEntries(m: Mem, m': Mem, dirs: set<int>) {
    forall e, i :: e in dirs && 0 <= i < 1024 ==> Pde(m', e, i) == Pde(m, e, i)
  }

  lemma PageWords(m: Mem, m': Mem, b: int)
    requires Same(m, m', b, b + PAGE)
    ensures forall i :: 0 <= i < 1024 ==> Word(m', b + 4 * i) == Word(m, b + 4 * i)
  {
  }

  lemma StructuresAt(m: Mem, m': Mem, pmm: PMM, dirs: set<int>, e: int, i: int)
    requires PagingOk(m, pmm, dirs) && StructuresKept(m, m', pmm, dirs) && e in dirs && 0 <= i < 1024
    ensures Held(m', pmm, e) && Pde(m', e, i) == Pde(m, e, i) && TableOk(m', pmm, dirs, e, i)
    ensures forall j :: 0 <= j < 1024 ==> WalkAt(m', e, i, j) == WalkAt(m, e, i, j)
  {
    hide Word, P2V, OneIndex, PMM.Valid;
    assert Held(m, pmm, e) && TableOk(m, pmm, dirs, e, i);
    PageWords(m, m', e);
    if Present(Pde(m, e, i)) {
      assert IsTable(m, dirs, Table(m, e, i));
      PageWords(m, m', Table(m, e, i));
    }
  }

  lemma TranslationsKept(m: Mem, m': Mem, pmm: PMM, dirs: set<int>)
    requires PagingOk(m, pmm, dirs) && StructuresKept(m, m', pmm, dirs)
    ensures PagingOk(m', pmm, dirs) && SameEntries(m, m', dirs)
    ensures WalksKept(m, m', dirs)
    ensures forall b :: IsTable(m', dirs, b) <==> IsTable(m, dirs, b)
  {
    hide WalkAt, TableOk, Word, Held, OneIndex, PMM.Valid;
    forall e | e in dirs ensures Held(m', pmm, e) {
      StructuresAt(m, m', pmm, dirs, e, 0);
    }
    forall e, i | e in dirs && 0 <= i < 1024 ensures Pde(m', e, i) == Pde(m, e, i) && TableOk(m', pmm, dirs, e, i) {
      StructuresAt(m, m', pmm, dirs, e, i);
    }
    forall e, i, j | e in dirs && 0 <= i < 1024 && 0 <= j < 1024 ensures WalkAt(m', e, i, j) == WalkAt(m, e, i, j) {
      StructuresAt(m, m', pmm, dirs, e, i);
    }
    if d :| d in dirs {
      OneIndexKept(m, m', dirs, d, 0);
    } else {
      NoDirectories(m', dirs);
    }
  }

  lemma NoDirectories(m: Mem, dirs: set<int>)
    requires forall e :: e !in dirs
    ensures OneIndex(m, dirs)
  {
  }

  // -------- the steps --------

  /** A frame taken from the PMM is a data page, and nothing else changes. */
  lemma FrameTaken(m: Mem, m': Mem, pmm: PMM, dirs: set<int>, b: int)
    requires PagingOk(m, pmm, dirs) && pmm.Valid(m') && pmm.OnlyMap(m, m')
    requires b == FrameBase(FrameOf(b)) && FrameOf(b) in pmm.Free(m) && pmm.Used(m') == pmm.Used(m) + {FrameOf(b)}
    ensures StructuresKept(m, m', pmm, dirs) && DataPage(m', pmm, dirs, b)
    ensures forall c :: DataPage(m, pmm, dirs, c) ==> c != b && DataPage(m', pmm, dirs, c) && Same(m, m', c, c + PAGE)
  {
    forall c | Held(m, pmm, c) ensures c != b && Held(m', pmm, c) && Same(m, m', c, c + PAGE) {
    }
    forall c | c in dirs || IsTable(m, dirs, c) ensures Held(m, pmm, c) && c != b {
      StructureHeld(m, pmm, dirs, c);
    }
    TranslationsKept(m, m', pmm, dirs);
  }

  lemma StructureHeld(m: Mem, pmm: PMM, dirs: set<int>, c: int)
    requires PagingOk(m, pmm, dirs) && (c in dirs || IsTable(m, dirs, c))
    ensures Held(m, pmm, c)
  {
    hide Held;
    if c !in dirs {
      var e, i :| e in dirs && 0 <= i < 1024 && Present(Pde(m, e, i)) && Table(m, e, i) == c;
      assert TableOk(m, pmm, dirs, e, i);
    }
  }

  /** A store into a data page. */
  lemma DataWritten(m: Mem, m': Mem, pmm: PMM, dirs: set<int>, b: int)
    requires PagingOk(m, pmm, dirs) && DataPage(m, pmm, dirs, b) && SameOutside(m, m', b, b + PAGE)
    ensures StructuresKept(m, m', pmm, dirs) && pmm.Used(m') == pmm.Used(m) && DataPage(m', pmm, dirs, b)
    ensures forall c :: DataPage(m, pmm, dirs, c) && c != b ==> DataPage(m', pmm, dirs, c) && Same(m, m', c, c + PAGE)
  {
    pmm.Frame(m, m');
    forall c | Held(m, pmm, c) ensures Held(m', pmm, c) && (c != b ==> Same(m, m', c, c + PAGE)) {
      if c != b {
        PagesApart(b, c);
      }
    }
    forall c | c in dirs || IsTable(m, dirs, c) ensures Held(m, pmm, c) && c != b {
      StructureHeld(m, pmm, dirs, c);
    }
    TranslationsKept(m, m', pmm, dirs);
  }

  /** No other directory reaches a table through entry i that d reaches through it, and user code may use it. */
  ghost predicate Private(m: Mem, dirs: set<int>, d: int, i: int) {
    && (forall e :: e in dirs && e != d ==> !Meet(m, d, i, e, i))
    && (Present(Pde(m, d, i)) ==> Pde(m, d, i) % 0x1000 == 7)
  }

  /** The directory entry for v lets user code read and write (bits U/S and R/W), as far as the table does. */
  ghost predicate Open(m: Mem, d: int, v: nat) {
    Pde(m, d, PdIdx(v)) % 0x1000 == 7
  }

  lemma PrivateIsOpen(m: Mem, dirs: set<int>, d: int, v: nat)
    requires Private(m, dirs, d, PdIdx(v)) && Walk(m, d, v).Mapped?
    ensures Open(m, d, v)
  {
  }

  /** Giving entry i of d a table, or keeping the one it has, makes no data page a table. */
  lemma TableThereData(m: Mem, m': Mem, pmm: PMM, dirs: set<int>, d: int, i: int, c: int)
    requires TableThere(m, m', pmm, dirs, d, i) && d in dirs && 0 <= i < 1024 && DataPage(m, pmm, dirs, c)
    ensures !IsTable(m', dirs, c) && c != Table(m', d, i)
  {
  }

  /** map_page writes no data page. */
  lemma MappedData(m: Mem, m': Mem, pmm: PMM, dirs: set<int>, d: int, i: int, c: int)
    requires TableThere(m, m', pmm, dirs, d, i) && d in dirs && 0 <= i < 1024 && DataPage(m, pmm, dirs, c)
    requires OtherPagesKept(m, m', pmm, d, Table(m', d, i))
    ensures DataPage(m', pmm, dirs, c) && Same(m, m', c, c + PAGE)
  {
    TableThereData(m, m', pmm, dirs, d, i, c);
    hide Word, P2V, Table, IsTable;
    assert FrameOf(c) in pmm.Used(m) && pmm.ClearOfMap(FrameOf(c));
  }

  /** copy writes no data page. */
  lemma CopiedData(m: Mem, m': Mem, pmm: PMM, dirs: set<int>, d: int, n: int, c: int)
    requires PagingOk(m, pmm, dirs) && d in dirs && DataPage(m, pmm, dirs, c)
    requires FrameOf(n) in pmm.Free(m) && pmm.Used(m') == pmm.Used(m) + {FrameOf(n)}
    requires OtherPagesKept(m, m', pmm, n, n)
    requires forall i :: 0 <= i < 1024 ==> Pde(m', n, i) == Pde(m, d, i)
    requires SameEntries(m, m', dirs)
    ensures DataPage(m', pmm, dirs + {n}, c) && Same(m, m', c, c + PAGE)
  {
  }

  lemma PrivateKept(m: Mem, m': Mem, dirs: set<int>, d: int, i: int, k: int)
    requires EntryThere(m, m', dirs, d, i) && d in dirs && 0 <= i < 1024 && 0 <= k < 1024
    requires Private(m, dirs, d, k)
    ensures Private(m', dirs, d, k)
  {
    hide Word, P2V;
  }

  // -------- user memory --------

  /** The kernel pointer to the byte at user address v, if v is mapped. */
  function Translate(m: Mem, d: int, v: nat): int
    requires Walk(m, d, v).Mapped?
  {
    KERNEL + Walk(m, d, v).frame + v % PAGE
  }

  /** The byte a process with directory d reads at address v. */
  function UserByte(m: Mem, d: int, v: nat): byte {
    if Walk(m, d, v).Mapped? then Byte(m, Translate(m, d, v)) else 0
  }

  // -------- steps that add to the system --------

  /** Nothing used was released, and no data page was written or became part of a directory. */
  ghost predicate DataKept(m: Mem, m': Mem, pmm: PMM, dirs: set<int>, dirs': set<int>) {
    && |m'| == |m| && pmm.Used(m) <= pmm.Used(m')
    && forall c :: DataPage(m, pmm, dirs, c) ==> DataPage(m', pmm, dirs', c) && Same(m, m', c, c + PAGE)
  }

  /** Every directory but d is as before. */
  ghost predicate OthersKept(m: Mem, m': Mem, dirs: set<int>, d: int) {
    forall e :: e in dirs && e != d ==> DirKept(m, m', e)
  }

  ghost predicate PrivacyKept(m: Mem, m': Mem, dirs: set<int>, d: int) {
    forall k :: 0 <= k < 1024 && Private(m, dirs, d, k) ==> Private(m', dirs, d, k)
  }

  lemma DataKeptTrans(m: Mem, m1: Mem, m': Mem, pmm: PMM, dirs: set<int>, dirs1: set<int>, dirs': set<int>)
    requires DataKept(m, m1, pmm, dirs, dirs1) && DataKept(m1, m', pmm, dirs1, dirs')
    ensures DataKept(m, m', pmm, dirs, dirs')
  {
  }

  lemma OthersKeptTrans(m: Mem, m1: Mem, m': Mem, dirs: set<int>, d: int)
    requires OthersKept(m, m1, dirs, d) && OthersKept(m1, m', dirs, d)
    ensures OthersKept(m, m', dirs, d)
  {
  }

  /** The directories whose translations are unchanged share what they shared. */
  lemma EntriesKeepPrivacy(m: Mem, m': Mem, dirs: set<int>, d: int)
    requires SameEntries(m, m', dirs) && d in dirs
    ensures PrivacyKept(m, m', dirs, d)
  {
  }

  /** A step on behalf of directory d: it may take frames and change what d translates, and nothing else. */
  ghost predicate Extended(m: Mem, m': Mem, pmm: PMM, dirs: set<int>, d: int) {
    && PagingOk(m', pmm, dirs)
    && DataKept(m, m', pmm, dirs, dirs)
    && OthersKept(m, m', dirs, d)
    && PrivacyKept(m, m', dirs, d)
  }

  lemma ExtendedTrans(m: Mem, m1: Mem, m': Mem, pmm: PMM, dirs: set<int>, d: int)
    requires Extended(m, m1, pmm, dirs, d) && Extended(m1, m', pmm, dirs, d)
    ensures Extended(m, m', pmm, dirs, d)
  {
  }

  /** allocate_frame as such a step. */
  lemma TakeExtends(m: Mem, m': Mem, pmm: PMM, dirs: set<int>, d: int, b: int)
    requires PagingOk(m, pmm, dirs) && d in dirs && pmm.Valid(m') && pmm.OnlyMap(m, m')
    requires b == FrameBase(FrameOf(b)) && FrameOf(b) in pmm.Free(m) && pmm.Used(m') == pmm.Used(m) + {FrameOf(b)}
    ensures Extended(m, m', pmm, dirs, d) && SameWalk(m, d, m', d) && DataPage(m', pmm, dirs, b)
    ensures WalksKept(m, m', dirs)
    ensures !DataPage(m, pmm, dirs, b) && SameEntries(m, m', dirs)
    ensures |pmm.Free(m')| >= |pmm.Free(m)| - 1
  {
    hide PagingOk, SameWalk, DataPage, Private, SameEntries;
    FrameTaken(m, m', pmm, dirs, b);
    TranslationsKept(m, m', pmm, dirs);
    EntriesKeepPrivacy(m, m', dirs, d);
    FreeLosesOne(pmm, m, m', FrameOf(b));
  }

  /** map_page through an entry no other directory shares, as such a step. */
  lemma MapExtends(m: Mem, m': Mem, pmm: PMM, dirs: set<int>, d: int, i: int, j: int, mapping: Mapping)
    requires d in dirs && 0 <= i < 1024 && Private(m, dirs, d, i)
    requires PagingOk(m', pmm, dirs) && TableThere(m, m', pmm, dirs, d, i)
    requires forall e :: e in dirs && e != d ==>
               if Meet(m, d, i, e, i) then WalkUpdated(m, e, m', e, i, j, mapping) else SameWalk(m, e, m', e)
    requires OtherPagesKept(m, m', pmm, d, Table(m', d, i))
    ensures Extended(m, m', pmm, dirs, d)
    ensures |pmm.Free(m')| >= |pmm.Free(m)| - if Present(Pde(m, d, i)) then 0 else 1
  {
    hide PagingOk, SameWalk, WalkUpdated, DataPage, EntryThere, Meet, Table;
    forall e | e in dirs && e != d ensures DirKept(m, m', e) {
      OtherEntries(m, m', dirs, d, i, e);
    }
    forall c | DataPage(m, pmm, dirs, c) ensures DataPage(m', pmm, dirs, c) && Same(m, m', c, c + PAGE) {
      MappedData(m, m', pmm, dirs, d, i, c);
    }
    forall k | 0 <= k < 1024 && Private(m, dirs, d, k) ensures Private(m', dirs, d, k) {
      PrivateKept(m, m', dirs, d, i, k);
    }
    if Present(Pde(m, d, i)) {
      FreeKept(pmm, m, m');
    } else {
      FreeLosesOne(pmm, m, m', FrameOf(Table(m', d, i)));
    }
  }

  lemma OtherEntries(m: Mem, m': Mem, dirs: set<int>, d: int, i: int, e: int)
    requires EntryThere(m, m', dirs, d, i) && e in dirs && e != d
    ensures forall a :: 0 <= a < 1024 ==> Pde(m', e, a) == Pde(m, e, a)
  {
  }

  /** Stores into the data page b, seen from a memory m in which b was no data page yet. */
  lemma FillExtends(m: Mem, m1: Mem, m': Mem, pmm: PMM, dirs: set<int>, d: int, b: int)
    requires d in dirs && Extended(m, m1, pmm, dirs, d) && DataPage(m1, pmm, dirs, b) && !DataPage(m, pmm, dirs, b)
    requires SameOutside(m1, m', b, b + PAGE)
    ensures Extended(m, m', pmm, dirs, d) && SameWalk(m1, d, m', d) && DataPage(m', pmm, dirs, b)
    ensures pmm.Used(m') == pmm.Used(m1) && SameEntries(m1, m', dirs)
  {
    hide PagingOk, SameWalk, DataPage, Private, SameEntries;
    DataWritten(m1, m', pmm, dirs, b);
    TranslationsKept(m1, m', pmm, dirs);
    EntriesKeepPrivacy(m1, m', dirs, d);
    forall c | DataPage(m, pmm, dirs, c) ensures DataPage(m', pmm, dirs, c) && Same(m, m', c, c + PAGE) {
      assert DataPage(m1, pmm, dirs, c) && c != b;
    }
    OthersKeptTrans(m, m1, m', dirs, d);
  }

  /** allocate_frame, seen from the address spaces: the page b behind the frame is a new data page. */
  method TakeFrame(ram: array<byte>, pmm: PMM, ghost dirs: set<int>, ghost d: int) returns (physAddr: nat, ghost b: int)
    requires PagingOk(ram[..], pmm, dirs) && d in dirs && |pmm.Free(ram[..])| >= 1
    modifies ram
    ensures Extended(old(ram[..]), ram[..], pmm, dirs, d) && SameWalk(old(ram[..]), d, ram[..], d)
    ensures b == KERNEL + physAddr && physAddr % PAGE == 0 && physAddr + PAGE <= WINDOW
    ensures FrameOf(b) in pmm.Free(old(ram[..])) && b == FrameBase(FrameOf(b))
    ensures forall k :: k in pmm.Free(old(ram[..])) ==> FrameOf(b) <= k
    ensures pmm.Free(ram[..]) == pmm.Free(old(ram[..])) - {FrameOf(b)}
    ensures !DataPage(old(ram[..]), pmm, dirs, b) && DataPage(ram[..], pmm, dirs, b)
    ensures SameEntries(old(ram[..]), ram[..], dirs)
    ensures |pmm.Free(ram[..])| >= |pmm.Free(old(ram[..]))| - 1
  {
    hide PagingOk, DataPage, Extended, SameWalk, SameEntries, P2V, Held;
    ghost var m := ram[..];
    DirectoryPage(m, pmm, dirs, d);
    physAddr := pmm.AllocateFrame(ram);
    FramePage(pmm, m, physAddr);
    b := P2V(physAddr);
    FrameBounds(pmm, m, physAddr, b);
    TakeExtends(m, ram[..], pmm, dirs, d, b);
  }

  lemma FrameBounds(pmm: PMM, m: Mem, frame: nat, b: int)
    requires pmm.Valid(m) && frame % PAGE == 0 && frame / PAGE in pmm.Free(m) && b == P2V(frame)
    ensures b == KERNEL + frame && frame + PAGE <= WINDOW
  {
  }

  /** map_page through an entry that no other directory shares: only d's own translation of one page changes. */
  method MapPrivate(ram: array<byte>, pmm: PMM, d: nat, ghost dirs: set<int>, physAddr: nat, v: nat)
    requires PagingOk(ram[..], pmm, dirs) && d in dirs && Private(ram[..], dirs, d, PdIdx(v))
    requires physAddr < TWO32 && physAddr % PAGE == 0 && v < TWO32
    requires Present(Pde(ram[..], d, PdIdx(v))) || |pmm.Free(ram[..])| >= 1
    modifies ram
    ensures Extended(old(ram[..]), ram[..], pmm, dirs, d)
    ensures WalkUpdated(old(ram[..]), d, ram[..], d, PdIdx(v), PtIdx(v), Mapped(physAddr, 7))
    ensures Present(Pde(ram[..], d, PdIdx(v)))
    ensures |pmm.Free(ram[..])| >= |pmm.Free(old(ram[..]))| - if Present(Pde(old(ram[..]), d, PdIdx(v))) then 0 else 1
  {
    hide PagingOk, Private, Extended, WalkUpdated, SameWalk, TableThere, OtherPagesKept, Table, Meet,
         Word;
    ghost var m := ram[..];
    MapPage(ram, pmm, d, dirs, physAddr, v, 7);
    TableNow(m, ram[..], pmm, dirs, d, PdIdx(v));
    MapExtends(m, ram[..], pmm, dirs, d, PdIdx(v), PtIdx(v), Mapped(physAddr, 7));
  }

  lemma TableNow(m: Mem, m': Mem, pmm: PMM, dirs: set<int>, d: int, i: int)
    requires TableThere(m, m', pmm, dirs, d, i)
    ensures Present(Pde(m', d, i))
  {
  }

  /** What the entry i of d is private to, after a step on behalf of d. */
  lemma PrivateNow(m: Mem, m': Mem, pmm: PMM, dirs: set<int>, d: int, i: int)
    requires Extended(m, m', pmm, dirs, d) && 0 <= i < 1024 && Private(m, dirs, d, i)
    ensures Private(m', dirs, d, i) && PagingOk(m', pmm, dirs)
  {
  }
}
