/** vmm::PageEntry and vmm::Page (src/vmm/paging.cpp): two-level 32-bit paging (Intel SDM volume 3A, section 4.3).
    Directories and tables are pages of the shared memory, reached through the direct map. */
module Paging {
  import opened Memory
  import opened Bitmaps
  import opened Frames

  // -------- entries and the walk --------

  /** (value & ~0xFFF) | (flags & 0xFFF) */
  function PageEntry(value: nat, flags: nat): nat {
    value - value % PAGE + flags % PAGE
  }

  predicate Present(entry: int) {
    entry % 2 == 1
  }

  function PdIdx(v: nat): nat { v / 0x40_0000 % 1024 }

  function PtIdx(v: nat): nat { v / PAGE % 1024 }

  function Pde(m: Mem, d: int, i: int): nat {
    Word(m, d + 4 * i)
  }

  /** The page table behind entry i of directory d. */
  function Table(m: Mem, d: int, i: int): nat {
    P2V(Pde(m, d, i) - Pde(m, d, i) % PAGE)
  }

  datatype Mapping = Absent | Mapped(frame: int, flags: int)

  function Decode(pte: nat): Mapping {
    if Present(pte) then Mapped(pte - pte % PAGE, pte % PAGE) else Absent
  }

  function WalkAt(m: Mem, d: int, i: int, j: int): Mapping {
    if Present(Pde(m, d, i)) then Decode(Word(m, Table(m, d, i) + 4 * j)) else Absent
  }

  /** What the processor finds for virtual address v through directory d. */
  function Walk(m: Mem, d: int, v: nat): Mapping {
    WalkAt(m, d, PdIdx(v), PtIdx(v))
  }

  lemma SamePage(v: nat, w: nat)
    requires v < TWO32 && w < TWO32
    ensures PdIdx(v) == PdIdx(w) && PtIdx(v) == PtIdx(w) <==> v / PAGE == w / PAGE
  {
    assert v / 0x40_0000 == v / PAGE / 1024 && w / 0x40_0000 == w / PAGE / 1024;
  }

  /** The directories agree on every virtual address. */
  ghost predicate SameWalk(m: Mem, d: int, m': Mem, d': int) {
    forall i, j :: 0 <= i < 1024 && 0 <= j < 1024 ==> WalkAt(m', d', i, j) == WalkAt(m, d, i, j)
  }

  /** They agree everywhere but at the page with indices i, j, where the second one finds `mapping`. */
  ghost predicate WalkUpdated(m: Mem, d: int, m': Mem, d': int, i: int, j: int, mapping: Mapping) {
    && WalkAt(m', d', i, j) == mapping
    && forall a, b :: 0 <= a < 1024 && 0 <= b < 1024 && !(a == i && b == j) ==>
         WalkAt(m', d', a, b) == WalkAt(m, d, a, b)
  }

  // -------- the sharing invariant --------

  /** The page at b is a used frame of the memory, away from the frame bitmap. */
  ghost predicate Held(m: Mem, pmm: PMM, b: int) {
    && b == FrameBase(FrameOf(b)) && InRam(|m|, b, PAGE)
    && FrameOf(b) in pmm.Used(m) && pmm.ClearOfMap(FrameOf(b))
  }

  ghost predicate TableOk(m: Mem, pmm: PMM, dirs: set<int>, d: int, i: int) {
    Present(Pde(m, d, i)) ==> Held(m, pmm, Table(m, d, i)) && Table(m, d, i) !in dirs
  }

  /** Both directories reach the same table, from entry i of the one and entry j of the other. */
  ghost predicate Meet(m: Mem, d: int, i: int, e: int, j: int) {
    Present(Pde(m, d, i)) && Present(Pde(m, e, j)) && Table(m, d, i) == Table(m, e, j)
  }

  /** Directories and tables are held pages; no table is a directory; a table is only ever
      reached from one index, in one directory or in several. */
  ghost predicate PagingOk(m: Mem, pmm: PMM, dirs: set<int>) {
    && pmm.Valid(m)
    && (forall d :: d in dirs ==> Held(m, pmm, d))
    && (forall d, i :: d in dirs && 0 <= i < 1024 ==> TableOk(m, pmm, dirs, d, i))
    && OneIndex(m, dirs)
  }

  ghost predicate OneIndex(m: Mem, dirs: set<int>) {
    forall d, i, e, j :: d in dirs && e in dirs && 0 <= i < 1024 && 0 <= j < 1024 && Meet(m, d, i, e, j) ==> i == j
  }

  /** Entries that did not change, and at most one new table that nothing else leads to, keep tables on one index. */
  lemma OneIndexKept(m: Mem, m': Mem, dirs: set<int>, d: int, i: int)
    requires OneIndex(m, dirs)
    requires forall e, a :: e in dirs && 0 <= a < 1024 ==>
               Pde(m', e, a) == Pde(m, e, a) || (e == d && a == i)
    requires Pde(m', d, i) == Pde(m, d, i) ||
             forall e, a :: e in dirs && 0 <= a < 1024 && !(e == d && a == i) ==> !Meet(m', d, i, e, a)
    ensures OneIndex(m', dirs)
  {
    hide Word, P2V;
    forall e, a, f, b | e in dirs && f in dirs && 0 <= a < 1024 && 0 <= b < 1024 && Meet(m', e, a, f, b)
      ensures a == b
    {
      if Pde(m', e, a) == Pde(m, e, a) && Pde(m', f, b) == Pde(m, f, b) {
        assert Meet(m, e, a, f, b);
      } else if !(e == f && a == b) {
        assert Meet(m', d, i, if e == d && a == i then f else e, if e == d && a == i then b else a);
      }
    }
  }

  /** `m'` differs from `m` at most in the frame bitmap, the page at b and the word at w. */
  ghost predicate OnlyPageAndWord(m: Mem, m': Mem, pmm: PMM, b: int, w: int) {
    && |m'| == |m|
    && forall a :: !(b <= a < b + PAGE) && !(w <= a < w + 4) && !(pmm.bm.ptr <= a < pmm.bm.ptr + pmm.bm.size) ==>
         Byte(m', a) == Byte(m, a)
  }

  /** A held page other than those written to keeps all its words. */
  lemma HeldKept(m: Mem, m': Mem, pmm: PMM, b: int, w: int, c: int)
    requires Held(m, pmm, c) && OnlyPageAndWord(m, m', pmm, b, w) && FrameOf(c) in pmm.Used(m')
    requires b == FrameBase(FrameOf(b)) && c != b
    ensures Held(m', pmm, c)
    ensures forall k :: 0 <= k < 1024 && c + 4 * k != w && (w - c) % 4 == 0 ==>
              Word(m', c + 4 * k) == Word(m, c + 4 * k)
  {
    hide Byte, PMM.Used;
    PagesApart(b, c);
    forall k | 0 <= k < 1024 && c + 4 * k != w && (w - c) % 4 == 0 ensures Word(m', c + 4 * k) == Word(m, c + 4 * k) {
      WordSame(m, m', c + 4 * k);
    }
  }

  /** Entry i of directory d, and the table behind it, are the same in both memories. */
  ghost predicate EntryKept(m: Mem, m': Mem, d: int, i: int) {
    && Pde(m', d, i) == Pde(m, d, i)
    && (Present(Pde(m, d, i)) ==>
          forall j :: 0 <= j < 1024 ==> Word(m', Table(m, d, i) + 4 * j) == Word(m, Table(m, d, i) + 4 * j))
  }

  // -------- a fresh table in an empty entry --------

  /** From m to m', entry i of d got the zeroed page t, which was free. */
  ghost predicate TableAdded(m: Mem, m': Mem, pmm: PMM, d: int, i: int, t: int) {
    && 0 <= i < 1024 && !Present(Pde(m, d, i))
    && t == FrameBase(FrameOf(t)) && InRam(|m|, t, PAGE) && FrameOf(t) in pmm.Free(m)
    && pmm.Used(m') == pmm.Used(m) + {FrameOf(t)}
    && OnlyPageAndWord(m, m', pmm, t, d + 4 * i)
    && (forall a :: t <= a < t + PAGE ==> Byte(m', a) == 0)
    && Pde(m', d, i) == PageEntry(V2P(t), 7)
  }

  lemma AddedEntryKept(m: Mem, m': Mem, pmm: PMM, dirs: set<int>, d: int, i: int, t: int, e: int, a: int)
    requires PagingOk(m, pmm, dirs) && d in dirs && e in dirs && 0 <= a < 1024
    requires TableAdded(m, m', pmm, d, i, t) && !(e == d && a == i)
    ensures Held(m', pmm, e) && EntryKept(m, m', e, a)
    ensures Present(Pde(m, e, a)) ==> Held(m', pmm, Table(m, e, a)) && Table(m, e, a) != t
  {
    hide Word, P2V, Byte, OneIndex;
    var w := d + 4 * i;
    assert Held(m, pmm, d) && Held(m, pmm, e) && TableOk(m, pmm, dirs, e, a);
    HeldKept(m, m', pmm, t, w, e);
    DirectoryWords(d, i, e, a);
    if Present(Pde(m, e, a)) {
      var u := Table(m, e, a);
      HeldKept(m, m', pmm, t, w, u);
      forall j | 0 <= j < 1024 ensures Word(m', u + 4 * j) == Word(m, u + 4 * j) {
        DirectoryWords(d, i, u, j);
      }
    }
  }

  /** Entries of different pages, and different entries of one page, are different words. */
  lemma DirectoryWords(d: int, i: int, e: int, j: int)
    requires d == FrameBase(FrameOf(d)) && e == FrameBase(FrameOf(e)) && 0 <= i < 1024 && 0 <= j < 1024
    ensures d + 4 * i == e + 4 * j ==> d == e && i == j
    ensures (d + 4 * i - e) % 4 == 0
  {
    if d != e {
      PagesApart(d, e);
    }
  }

  lemma AddedEntry(m: Mem, m': Mem, pmm: PMM, d: int, i: int, t: int)
    requires pmm.Valid(m) && pmm.Valid(m') && TableAdded(m, m', pmm, d, i, t)
    ensures Present(Pde(m', d, i)) && Table(m', d, i) == t && Held(m', pmm, t) && Pde(m', d, i) % 0x1000 == 7
    ensures forall j :: 0 <= j < 1024 ==> Word(m', t + 4 * j) == 0
  {
    TablePointer(t, 7);
    hide FrameOf, FrameBase, PageEntry, V2P, P2V;
    forall j | 0 <= j < 1024 ensures Word(m', t + 4 * j) == 0 {
      assert forall a :: t + 4 * j <= a < t + 4 * j + 4 ==> Byte(m', a) == 0;
    }
  }

  /** An entry made from a kernel page pointer leads back to that page. */
  lemma TablePointer(t: int, flags: nat)
    requires t == FrameBase(FrameOf(t)) && KERNEL <= t < TWO32 && flags < PAGE && flags % 2 == 1
    ensures var e := PageEntry(V2P(t), flags); Present(e) && P2V(e - e % PAGE) == t && e % PAGE == flags
  {
    assert V2P(t) == t - KERNEL;
    assert V2P(t) % PAGE == 0;
  }

  lemma AddedDirectories(m: Mem, m': Mem, pmm: PMM, dirs: set<int>, d: int, i: int, t: int)
    requires PagingOk(m, pmm, dirs) && d in dirs && TableAdded(m, m', pmm, d, i, t)
    ensures t !in dirs && forall e :: e in dirs ==> Held(m', pmm, e)
  {
  }

  lemma TableAddedAt(m: Mem, m': Mem, pmm: PMM, dirs: set<int>, d: int, i: int, t: int, e: int, a: int)
    requires PagingOk(m, pmm, dirs) && d in dirs && e in dirs && 0 <= a < 1024 && pmm.Valid(m')
    requires TableAdded(m, m', pmm, d, i, t) && t !in dirs
    ensures TableOk(m', pmm, dirs, e, a)
    ensures !(e == d && a == i) ==> Pde(m', e, a) == Pde(m, e, a) && !Meet(m', d, i, e, a)
    ensures forall j :: 0 <= j < 1024 ==> WalkAt(m', e, a, j) == WalkAt(m, e, a, j)
  {
    hide Word, Held, P2V, OneIndex;
    AddedEntry(m, m', pmm, d, i, t);
    assert TableOk(m, pmm, dirs, e, a);
    if !(e == d && a == i) {
      AddedEntryKept(m, m', pmm, dirs, d, i, t, e, a);
    }
  }

  lemma TableAddedOk(m: Mem, m': Mem, pmm: PMM, dirs: set<int>, d: int, i: int, t: int)
    requires PagingOk(m, pmm, dirs) && d in dirs && pmm.Valid(m')
    requires TableAdded(m, m', pmm, d, i, t)
    ensures PagingOk(m', pmm, dirs)
    ensures forall e :: e in dirs ==> SameWalk(m, e, m', e)
    ensures forall e, a :: e in dirs && 0 <= a < 1024 && !(e == d && a == i) ==> !Meet(m', d, i, e, a)
    ensures forall e, a :: e in dirs && 0 <= a < 1024 && !(e == d && a == i) ==> Pde(m', e, a) == Pde(m, e, a)
  {
    AddedDirectories(m, m', pmm, dirs, d, i, t);
    hide WalkAt, TableOk, Pde, Held, Meet, OneIndex;
    forall e, a | e in dirs && 0 <= a < 1024
      ensures TableOk(m', pmm, dirs, e, a)
      ensures !(e == d && a == i) ==> Pde(m', e, a) == Pde(m, e, a) && !Meet(m', d, i, e, a)
      ensures forall j :: 0 <= j < 1024 ==> WalkAt(m', e, a, j) == WalkAt(m, e, a, j)
    {
      TableAddedAt(m, m', pmm, dirs, d, i, t, e, a);
    }
    OneIndexKept(m, m', dirs, d, i);
  }

  // -------- a new page table entry --------

  lemma EntrySetOk(m: Mem, m': Mem, pmm: PMM, dirs: set<int>, d: int, i: int, j: int, pte: nat)
    requires PagingOk(m, pmm, dirs) && d in dirs && 0 <= i < 1024 && 0 <= j < 1024 && Present(Pde(m, d, i))
    requires var w := Table(m, d, i) + 4 * j; SameOutside(m, m', w, w + 4) && Word(m', w) == pte
    ensures PagingOk(m', pmm, dirs) && pmm.Used(m') == pmm.Used(m)
    ensures forall e, a :: e in dirs && 0 <= a < 1024 ==> Pde(m', e, a) == Pde(m, e, a)
    ensures forall e :: e in dirs ==>
              if Meet(m, d, i, e, i) then WalkUpdated(m, e, m', e, i, j, Decode(pte)) else SameWalk(m, e, m', e)
  {
    var t := Table(m, d, i);
    assert TableOk(m, pmm, dirs, d, i);
    EntrySetHeld(m, m', pmm, dirs, t, j);
    forall e, a | e in dirs && 0 <= a < 1024
      ensures TableOk(m', pmm, dirs, e, a) && Pde(m', e, a) == Pde(m, e, a)
      ensures forall b :: 0 <= b < 1024 ==>
                WalkAt(m', e, a, b) ==
                if a == i && b == j && Meet(m, d, i, e, i) then Decode(pte) else WalkAt(m, e, a, b)
    {
      EntrySetWalk(m, m', pmm, dirs, d, i, j, pte, e, a);
    }
    hide WalkAt, TableOk, Pde, Held, Meet, OneIndex, Word, Table;
    OneIndexKept(m, m', dirs, d, i);
  }

  lemma EntrySetWalk(m: Mem, m': Mem, pmm: PMM, dirs: set<int>, d: int, i: int, j: int, pte: nat, e: int, a: int)
    requires PagingOk(m, pmm, dirs) && d in dirs && 0 <= i < 1024 && 0 <= j < 1024 && Present(Pde(m, d, i))
    requires var w := Table(m, d, i) + 4 * j; SameOutside(m, m', w, w + 4) && Word(m', w) == pte
    requires pmm.Used(m') == pmm.Used(m) && e in dirs && 0 <= a < 1024
    ensures TableOk(m', pmm, dirs, e, a) && Pde(m', e, a) == Pde(m, e, a)
    ensures forall b :: 0 <= b < 1024 ==>
              WalkAt(m', e, a, b) == if a == i && b == j && Meet(m, d, i, e, i) then Decode(pte) else WalkAt(m, e, a, b)
  {
    hide Word, Held, P2V, Byte;
    assert TableOk(m, pmm, dirs, d, i);
    assert Meet(m, d, i, e, a) ==> a == i;
    hide OneIndex;
    EntrySetAt(m, m', pmm, dirs, Table(m, d, i), j, Table(m, d, i) + 4 * j, e, a);
  }

  lemma EntrySetHeld(m: Mem, m': Mem, pmm: PMM, dirs: set<int>, t: int, j: int)
    requires PagingOk(m, pmm, dirs) && Held(m, pmm, t) && 0 <= j < 1024
    requires SameOutside(m, m', t + 4 * j, t + 4 * j + 4)
    ensures pmm.Valid(m') && pmm.Used(m') == pmm.Used(m)
    ensures forall e :: e in dirs ==> Held(m', pmm, e)
  {
  }

  lemma EntrySetAt(m: Mem, m': Mem, pmm: PMM, dirs: set<int>, t: int, j: int, w: int, e: int, a: int)
    requires PagingOk(m, pmm, dirs) && e in dirs && 0 <= a < 1024 && 0 <= j < 1024
    requires Held(m, pmm, t) && t !in dirs && w == t + 4 * j && SameOutside(m, m', w, w + 4)
    requires pmm.Used(m') == pmm.Used(m)
    ensures TableOk(m', pmm, dirs, e, a) && Pde(m', e, a) == Pde(m, e, a)
    ensures forall b :: 0 <= b < 1024 && Present(Pde(m, e, a)) && !(Table(m, e, a) == t && b == j) ==>
              Word(m', Table(m, e, a) + 4 * b) == Word(m, Table(m, e, a) + 4 * b)
  {
    hide Byte, P2V, OneIndex, PMM.Valid;
    assert Held(m, pmm, e) && TableOk(m, pmm, dirs, e, a);
    PagesApart(t, e);
    WordSame(m, m', e + 4 * a);
    if Present(Pde(m, e, a)) {
      var u := Table(m, e, a);
      forall b | 0 <= b < 1024 && !(u == t && b == j) ensures Word(m', u + 4 * b) == Word(m, u + 4 * b) {
        if u != t {
          PagesApart(t, u);
        }
        WordSame(m, m', u + 4 * b);
      }
    }
  }

  // -------- map_page --------

  /** Every used page but b and c keeps its bytes. */
  ghost predicate OtherPagesKept(m: Mem, m': Mem, pmm: PMM, b: int, c: int) {
    && |m'| == |m|
    && forall k :: k in pmm.Used(m) && pmm.ClearOfMap(k) && FrameBase(k) != b && FrameBase(k) != c ==>
         Same(m, m', FrameBase(k), FrameBase(k) + PAGE)
  }

  /** Entry i of d has a table: the one it had, or one that nothing else leads to, open to user code.  No other entry
      changed. */
  ghost predicate EntryThere(m: Mem, m': Mem, dirs: set<int>, d: int, i: int) {
    && Present(Pde(m', d, i))
    && (forall e, a :: e in dirs && 0 <= a < 1024 && !(e == d && a == i) ==> Pde(m', e, a) == Pde(m, e, a))
    && (Present(Pde(m, d, i)) ==> Pde(m', d, i) == Pde(m, d, i))
    && (!Present(Pde(m, d, i)) ==>
          && Pde(m', d, i) % 0x1000 == 7
          && forall e, a :: e in dirs && 0 <= a < 1024 && !(e == d && a == i) ==> !Meet(m', d, i, e, a))
  }

  /** A new table took one free frame. */
  ghost predicate TableThere(m: Mem, m': Mem, pmm: PMM, dirs: set<int>, d: int, i: int) {
    && EntryThere(m, m', dirs, d, i)
    && if Present(Pde(m, d, i)) then
         pmm.Used(m') == pmm.Used(m)
       else
         && FrameOf(Table(m', d, i)) in pmm.Free(m)
         && pmm.Used(m') == pmm.Used(m) + {FrameOf(Table(m', d, i))}
  }

  /** map_page: the page of virt_addr now leads to phys_addr with the flags, in this directory and in those
      that already shared the table, and nowhere else does any translation change. */
  method MapPage(ram: array<byte>, pmm: PMM, d: nat, ghost dirs: set<int>, physAddr: nat, virtAddr: nat, flags: nat)
    requires PagingOk(ram[..], pmm, dirs) && d in dirs
    requires physAddr < TWO32 && virtAddr < TWO32 && flags < TWO32
    requires Present(Pde(ram[..], d, PdIdx(virtAddr))) || pmm.Free(ram[..]) != {}
    modifies ram
    ensures PagingOk(ram[..], pmm, dirs)
    ensures var pde := Word(ram[..], d + 4 * (virtAddr / 0x40_0000));
            && pde % 2 == 1
            && Word(ram[..], P2V(pde - pde % 0x1000) + 4 * (virtAddr / 0x1000 % 1024)) ==
               physAddr - physAddr % 0x1000 + flags % 0x1000
    ensures var i, j := PdIdx(virtAddr), PtIdx(virtAddr);
            var mapping := if flags % 2 == 1 then Mapped(physAddr - physAddr % 0x1000, flags % 0x1000) else Absent;
            && TableThere(old(ram[..]), ram[..], pmm, dirs, d, i)
            && WalkUpdated(old(ram[..]), d, ram[..], d, i, j, mapping)
            && (forall e :: e in dirs && e != d ==>
                  if Meet(old(ram[..]), d, i, e, i) then WalkUpdated(old(ram[..]), e, ram[..], e, i, j, mapping)
                  else SameWalk(old(ram[..]), e, ram[..], e))
            && OtherPagesKept(old(ram[..]), ram[..], pmm, d, Table(ram[..], d, i))
  {
    hide PagingOk, TableThere, WalkUpdated, SameWalk, Meet, OtherPagesKept, Word, Held, P2V, Table;
    ghost var m := ram[..];
    DirectoryPage(m, pmm, dirs, d);
    var pd := P2V(d);
    var pdIdx, ptIdx := PdIdx(virtAddr), PtIdx(virtAddr);
    EnsureTable(ram, pmm, pd, dirs, pdIdx);
    ghost var m1 := ram[..];
    TablePage(m, m1, pmm, dirs, pd, pdIdx);
    var pt := Table(ram[..], pd, pdIdx);
    Store32(ram, pt + 4 * ptIdx, PageEntry(physAddr, flags));
    EntrySetOk(m1, ram[..], pmm, dirs, d, pdIdx, ptIdx, PageEntry(physAddr, flags));
    MapComposes(m, m1, ram[..], pmm, dirs, d, pdIdx, ptIdx, Decode(PageEntry(physAddr, flags)));
    EntryDecodes(physAddr, flags);
    TablePage(m, m1, pmm, dirs, d, pdIdx);
    EntryPlace(ram[..], d, virtAddr);
  }

  /** Where the entry for a virtual address is. */
  lemma EntryPlace(m: Mem, d: int, v: nat)
    requires v < TWO32
    ensures Pde(m, d, PdIdx(v)) == Word(m, d + 4 * (v / 0x40_0000)) && PtIdx(v) == v / 0x1000 % 1024
    ensures var pde := Word(m, d + 4 * (v / 0x40_0000)); Table(m, d, PdIdx(v)) == P2V(pde - pde % 0x1000)
  {
  }

  /** The walk is that of the processor: bits 31 to 22 of the address select the directory entry, bits 21 to 12 the
      table entry; both must have bit 0 set, and the low twelve bits of the table entry are the flags. */
  lemma WalkIsTwoLevels(m: Mem, d: int, v: nat)
    requires v < TWO32
    ensures var pde := Word(m, d + 4 * (v / 0x40_0000));
            var pte := Word(m, P2V(pde - pde % 0x1000) + 4 * (v / 0x1000 % 1024));
            Walk(m, d, v) == if pde % 2 == 1 && pte % 2 == 1 then Mapped(pte - pte % 0x1000, pte % 0x1000) else Absent
  {
    hide Word, P2V;
  }

  /** What the processor reads from an entry made of an address and flags. */
  lemma EntryDecodes(value: nat, flags: nat)
    ensures PageEntry(value, flags) == value - value % 0x1000 + flags % 0x1000
    ensures Decode(PageEntry(value, flags)) ==
            if flags % 2 == 1 then Mapped(value - value % 0x1000, flags % 0x1000) else Absent
  {
    var k, f := value / PAGE, flags % PAGE;
    ModUnique(PageEntry(value, flags), PAGE, k, f);
    ModUnique(PageEntry(value, flags), 2, 2048 * k + f / 2, f % 2);
    ModUnique(flags, 2, 2048 * (flags / PAGE) + f / 2, f % 2);
  }

  lemma DirectoryPage(m: Mem, pmm: PMM, dirs: set<int>, d: int)
    requires PagingOk(m, pmm, dirs) && d in dirs
    ensures P2V(d) == d && d == FrameBase(FrameOf(d)) && InRam(|m|, d, PAGE) && pmm.Valid(m) && Held(m, pmm, d)
  {
  }

  lemma TablePage(m: Mem, m1: Mem, pmm: PMM, dirs: set<int>, d: int, i: int)
    requires PagingOk(m1, pmm, dirs) && d in dirs && 0 <= i < 1024 && TableThere(m, m1, pmm, dirs, d, i)
    ensures Present(Pde(m1, d, i))
    ensures var t := Table(m1, d, i); t == FrameBase(FrameOf(t)) && InRam(|m1|, t, PAGE) && pmm.ClearOfMap(FrameOf(t))
  {
    assert TableOk(m1, pmm, dirs, d, i);
  }

  /** Adding a table changes no translation, and setting its entry changes exactly one. */
  lemma MapComposes(m: Mem, m1: Mem, m': Mem, pmm: PMM, dirs: set<int>, d: int, i: int, j: int, mapping: Mapping)
    requires d in dirs && 0 <= i < 1024 && 0 <= j < 1024 && TableThere(m, m1, pmm, dirs, d, i)
    requires forall e :: e in dirs ==> SameWalk(m, e, m1, e)
    requires OtherPagesKept(m, m1, pmm, d, Table(m1, d, i)) && pmm.Valid(m)
    requires forall e, a :: e in dirs && 0 <= a < 1024 ==> Pde(m', e, a) == Pde(m1, e, a)
    requires pmm.Used(m') == pmm.Used(m1)
    requires forall e :: e in dirs ==>
               if Meet(m1, d, i, e, i) then WalkUpdated(m1, e, m', e, i, j, mapping) else SameWalk(m1, e, m', e)
    requires var t := Table(m1, d, i); t == FrameBase(FrameOf(t)) && SameOutside(m1, m', t + 4 * j, t + 4 * j + 4)
    ensures TableThere(m, m', pmm, dirs, d, i) && Table(m', d, i) == Table(m1, d, i) && Pde(m', d, i) == Pde(m1, d, i)
    ensures WalkUpdated(m, d, m', d, i, j, mapping)
    ensures forall e :: e in dirs && e != d ==>
              if Meet(m, d, i, e, i) then WalkUpdated(m, e, m', e, i, j, mapping) else SameWalk(m, e, m', e)
    ensures OtherPagesKept(m, m', pmm, d, Table(m', d, i))
  {
    hide Word, P2V, WalkAt, FrameOf, Byte;
    var t := Table(m1, d, i);
    assert Table(m', d, i) == t && Meet(m1, d, i, d, i);
    forall e | e in dirs && e != d
      ensures Meet(m1, d, i, e, i) <==> Meet(m, d, i, e, i)
    {
      assert Pde(m1, e, i) == Pde(m, e, i);
    }
    forall e, a | e in dirs && 0 <= a < 1024 && !(e == d && a == i)
      ensures Meet(m', d, i, e, a) <==> Meet(m1, d, i, e, a)
      ensures Pde(m', e, a) == Pde(m, e, a)
    {
      assert Pde(m', e, a) == Pde(m1, e, a) && Pde(m1, e, a) == Pde(m, e, a);
    }
    forall k | k in pmm.Used(m) && pmm.ClearOfMap(k) && FrameBase(k) != d && FrameBase(k) != t
      ensures Same(m, m', FrameBase(k), FrameBase(k) + PAGE)
    {
      FrameApart(k, t);
    }
  }

  /** The part of map_page that gives an empty directory entry a zeroed table. */
  method EnsureTable(ram: array<byte>, pmm: PMM, pd: nat, ghost dirs: set<int>, pdIdx: nat)
    requires PagingOk(ram[..], pmm, dirs) && pd in dirs && pdIdx < 1024
    requires Present(Pde(ram[..], pd, pdIdx)) || pmm.Free(ram[..]) != {}
    modifies ram
    ensures PagingOk(ram[..], pmm, dirs)
    ensures TableThere(old(ram[..]), ram[..], pmm, dirs, pd, pdIdx)
    ensures forall e :: e in dirs ==> SameWalk(old(ram[..]), e, ram[..], e)
    ensures OtherPagesKept(old(ram[..]), ram[..], pmm, pd, Table(ram[..], pd, pdIdx))
  {
    hide PagingOk, Held, Word, P2V;
    ghost var m := ram[..];
    DirectoryPage(m, pmm, dirs, pd);
    var entry := Load32(ram, pd + 4 * pdIdx);
    if !Present(entry) {
      AddTable(ram, pmm, pd, dirs, pdIdx);
    }
  }

  method AddTable(ram: array<byte>, pmm: PMM, pd: nat, ghost dirs: set<int>, pdIdx: nat)
    requires PagingOk(ram[..], pmm, dirs) && pd in dirs && pdIdx < 1024
    requires !Present(Pde(ram[..], pd, pdIdx)) && pmm.Free(ram[..]) != {}
    modifies ram
    ensures PagingOk(ram[..], pmm, dirs)
    ensures TableThere(old(ram[..]), ram[..], pmm, dirs, pd, pdIdx)
    ensures forall e :: e in dirs ==> SameWalk(old(ram[..]), e, ram[..], e)
    ensures OtherPagesKept(old(ram[..]), ram[..], pmm, pd, Table(ram[..], pd, pdIdx))
  {
    hide PagingOk, TableThere, SameWalk, OtherPagesKept, TableAdded, Word, Held, PMM.Used, PMM.Free, PMM.Taken,
         PMM.Valid;
    ghost var m := ram[..];
    DirectoryPage(m, pmm, dirs, pd);
    var frame := pmm.AllocateFrame(ram);
    FramePage(pmm, m, frame);
    var newPage := P2V(frame);
    ghost var m1 := ram[..];
    Memset(ram, newPage, 0, 0x1000);
    ghost var m2 := ram[..];
    assert V2P(newPage) == frame && PageEntry(frame, 7) < TWO32;
    Store32(ram, pd + 4 * pdIdx, PageEntry(V2P(newPage), 7));
    TableWasAdded(m, m1, m2, ram[..], pmm, pd, pdIdx, newPage);
    TableAddedOk(m, ram[..], pmm, dirs, pd, pdIdx, newPage);
    TableAddedThere(m, ram[..], pmm, dirs, pd, pdIdx, newPage);
  }

  lemma FramePage(pmm: PMM, m: Mem, frame: nat)
    requires pmm.Valid(m) && frame % PAGE == 0 && frame / PAGE in pmm.Free(m)
    ensures var b := P2V(frame);
            b == FrameBase(FrameOf(b)) && FrameOf(b) == frame / PAGE && InRam(|m|, b, PAGE) && V2P(b) == frame
    ensures PageEntry(frame, 7) < TWO32
  {
  }

  lemma TableWasAdded(m: Mem, m1: Mem, m2: Mem, m': Mem, pmm: PMM, d: int, i: int, t: int)
    requires pmm.Valid(m) && pmm.OnlyMap(m, m1) && pmm.Used(m1) == pmm.Used(m) + {FrameOf(t)} && pmm.Valid(m1)
    requires Held(m, pmm, d) && 0 <= i < 1024 && !Present(Pde(m, d, i))
    requires t == FrameBase(FrameOf(t)) && InRam(|m|, t, PAGE) && FrameOf(t) in pmm.Free(m)
    requires SameOutside(m1, m2, t, t + PAGE) && forall a :: t <= a < t + PAGE ==> Byte(m2, a) == 0
    requires SameOutside(m2, m', d + 4 * i, d + 4 * i + 4) && Word(m', d + 4 * i) == PageEntry(V2P(t), 7)
    ensures TableAdded(m, m', pmm, d, i, t) && pmm.Valid(m')
  {
    hide Word;
    PagesApart(d, t);
    pmm.Frame(m1, m2);
    pmm.Frame(m2, m');
  }

  lemma TableAddedThere(m: Mem, m': Mem, pmm: PMM, dirs: set<int>, d: int, i: int, t: int)
    requires TableAdded(m, m', pmm, d, i, t) && pmm.Valid(m) && pmm.Valid(m')
    requires forall e, a :: e in dirs && 0 <= a < 1024 && !(e == d && a == i) ==> !Meet(m', d, i, e, a)
    requires forall e, a :: e in dirs && 0 <= a < 1024 && !(e == d && a == i) ==> Pde(m', e, a) == Pde(m, e, a)
    requires d == FrameBase(FrameOf(d))
    ensures TableThere(m, m', pmm, dirs, d, i) && OtherPagesKept(m, m', pmm, d, Table(m', d, i))
  {
    hide Word, Meet, P2V, FrameOf, Byte;
    AddedEntry(m, m', pmm, d, i, t);
    forall k | k in pmm.Used(m) && pmm.ClearOfMap(k) && FrameBase(k) != d && FrameBase(k) != t
      ensures Same(m, m', FrameBase(k), FrameBase(k) + PAGE)
    {
      FrameApart(k, d);
      FrameApart(k, t);
    }
  }

  // -------- copy --------

  /** From m to m' the free page n became a byte copy of the page at d. */
  ghost predicate PageCopied(m: Mem, m': Mem, pmm: PMM, d: int, n: int) {
    && n == FrameBase(FrameOf(n)) && InRam(|m|, n, PAGE) && FrameOf(n) in pmm.Free(m)
    && pmm.Used(m') == pmm.Used(m) + {FrameOf(n)}
    && |m'| == |m|
    && (forall a :: !(n <= a < n + PAGE) && !(pmm.bm.ptr <= a < pmm.bm.ptr + pmm.bm.size) ==> Byte(m', a) == Byte(m, a))
    && forall a :: n <= a < n + PAGE ==> Byte(m', a) == Byte(m, d + (a - n))
  }

  lemma CopiedKeeps(m: Mem, m': Mem, pmm: PMM, d: int, n: int, c: int)
    requires Held(m, pmm, c) && PageCopied(m, m', pmm, d, n)
    ensures c != n && Held(m', pmm, c)
    ensures forall k :: 0 <= k < 1024 ==> Word(m', c + 4 * k) == Word(m, c + 4 * k)
  {
    hide Byte;
    PagesApart(n, c);
    forall k | 0 <= k < 1024 ensures Word(m', c + 4 * k) == Word(m, c + 4 * k) {
      WordSame(m, m', c + 4 * k);
    }
  }

  lemma CopiedEntries(m: Mem, m': Mem, pmm: PMM, d: int, n: int)
    requires PageCopied(m, m', pmm, d, n) && pmm.Valid(m)
    ensures Held(m', pmm, n) && forall i :: 0 <= i < 1024 ==> Pde(m', n, i) == Pde(m, d, i)
  {
  }

  lemma CopiedAt(m: Mem, m': Mem, pmm: PMM, dirs: set<int>, d: int, n: int, e: int, a: int)
    requires PagingOk(m, pmm, dirs) && d in dirs && e in dirs && 0 <= a < 1024 && PageCopied(m, m', pmm, d, n)
    ensures Held(m', pmm, e) && TableOk(m', pmm, dirs + {n}, e, a) && Pde(m', e, a) == Pde(m, e, a) && e != n
    ensures forall j :: 0 <= j < 1024 ==> WalkAt(m', e, a, j) == WalkAt(m, e, a, j)
    ensures e == d ==> TableOk(m', pmm, dirs + {n}, n, a) && Pde(m', n, a) == Pde(m, d, a)
    ensures e == d ==> forall j :: 0 <= j < 1024 ==> WalkAt(m', n, a, j) == WalkAt(m, d, a, j)
  {
    hide Word, P2V, Held, PageCopied, OneIndex;
    assert Held(m, pmm, e) && TableOk(m, pmm, dirs, e, a);
    CopiedKeeps(m, m', pmm, d, n, e);
    CopiedEntries(m, m', pmm, d, n);
    if Present(Pde(m, e, a)) {
      CopiedKeeps(m, m', pmm, d, n, Table(m, e, a));
    }
  }

  lemma CopyOk(m: Mem, m': Mem, pmm: PMM, dirs: set<int>, d: int, n: int)
    requires PagingOk(m, pmm, dirs) && d in dirs && PageCopied(m, m', pmm, d, n) && pmm.Valid(m')
    ensures n !in dirs && PagingOk(m', pmm, dirs + {n})
    ensures SameWalk(m, d, m', n) && forall e :: e in dirs ==> SameWalk(m, e, m', e)
    ensures forall i :: 0 <= i < 1024 ==> Pde(m', n, i) == Pde(m, d, i)
    ensures forall e, i :: e in dirs && 0 <= i < 1024 ==> Pde(m', e, i) == Pde(m, e, i)
    ensures OtherPagesKept(m, m', pmm, n, n)
  {
    hide WalkAt, TableOk, Pde, Held, PageCopied;
    CopiedEntries(m, m', pmm, d, n);
    CopiedPages(m, m', pmm, d, n);
    forall e | e in dirs ensures e != n && Held(m', pmm, e) {
      CopiedAt(m, m', pmm, dirs, d, n, e, 0);
    }
    forall e, a | e in dirs && 0 <= a < 1024
      ensures TableOk(m', pmm, dirs + {n}, e, a) && Pde(m', e, a) == Pde(m, e, a)
      ensures e == d ==> TableOk(m', pmm, dirs + {n}, n, a)
    {
      CopiedAt(m, m', pmm, dirs, d, n, e, a);
    }
    forall e, a, j | e in dirs && 0 <= a < 1024 && 0 <= j < 1024
      ensures WalkAt(m', e, a, j) == WalkAt(m, e, a, j)
      ensures e == d ==> WalkAt(m', n, a, j) == WalkAt(m, d, a, j)
    {
      CopiedAt(m, m', pmm, dirs, d, n, e, a);
    }
    OneIndexCopied(m, m', dirs, d, n);
  }

  lemma CopiedPages(m: Mem, m': Mem, pmm: PMM, d: int, n: int)
    requires PageCopied(m, m', pmm, d, n)
    ensures OtherPagesKept(m, m', pmm, n, n)
  {
    hide Byte, FrameOf;
    forall k | k in pmm.Used(m) && pmm.ClearOfMap(k) && FrameBase(k) != n
      ensures Same(m, m', FrameBase(k), FrameBase(k) + PAGE)
    {
      FrameApart(k, n);
    }
  }

  lemma OneIndexCopied(m: Mem, m': Mem, dirs: set<int>, d: int, n: int)
    requires OneIndex(m, dirs) && d in dirs
    requires forall i :: 0 <= i < 1024 ==> Pde(m', n, i) == Pde(m, d, i)
    requires forall e, i :: e in dirs && 0 <= i < 1024 ==> Pde(m', e, i) == Pde(m, e, i)
    ensures OneIndex(m', dirs + {n})
  {
    hide Word, P2V;
    forall e, a, f, b | e in dirs + {n} && f in dirs + {n} && 0 <= a < 1024 && 0 <= b < 1024 && Meet(m', e, a, f, b)
      ensures a == b
    {
      assert Meet(m, if e in dirs then e else d, a, if f in dirs then f else d, b);
    }
  }

  /** copy: a new directory that translates every address as this one does, through the same tables. */
  method Copy(ram: array<byte>, pmm: PMM, d: nat, ghost dirs: set<int>) returns (newPage: nat)
    requires PagingOk(ram[..], pmm, dirs) && d in dirs && pmm.Free(ram[..]) != {}
    modifies ram
    ensures newPage !in dirs && PagingOk(ram[..], pmm, dirs + {newPage})
    ensures FrameOf(newPage) in pmm.Free(old(ram[..]))
    ensures forall k :: k in pmm.Free(old(ram[..])) ==> FrameOf(newPage) <= k
    ensures pmm.Used(ram[..]) == pmm.Used(old(ram[..])) + {FrameOf(newPage)}
    ensures SameWalk(old(ram[..]), d, ram[..], newPage)
    ensures forall e :: e in dirs ==> SameWalk(old(ram[..]), e, ram[..], e)
    ensures forall i :: 0 <= i < 1024 ==> Pde(ram[..], newPage, i) == Pde(old(ram[..]), d, i)
    ensures forall e, i :: e in dirs && 0 <= i < 1024 ==> Pde(ram[..], e, i) == Pde(old(ram[..]), e, i)
    ensures OtherPagesKept(old(ram[..]), ram[..], pmm, newPage, newPage)
  {
    hide PagingOk, SameWalk, Word, OtherPagesKept, Held;
    ghost var m := ram[..];
    DirectoryPage(m, pmm, dirs, d);
    var frame := pmm.AllocateFrame(ram);
    FramePage(pmm, m, frame);
    newPage := P2V(frame);
    ghost var m1 := ram[..];
    Memcpy(ram, newPage, d, PAGE);
    PageWasCopied(m, m1, ram[..], pmm, d, newPage);
    CopyOk(m, ram[..], pmm, dirs, d, newPage);
  }

  /** What sharing tables means: a page mapped in a copy shows up in the original exactly when the original
      had the directory entry at copy time; every other translation of both stays. */
  method CopyThenMap(ram: array<byte>, pmm: PMM, d: nat, ghost dirs: set<int>, physAddr: nat, virtAddr: nat, flags: nat)
    returns (newPage: nat)
    requires PagingOk(ram[..], pmm, dirs) && d in dirs && |pmm.Free(ram[..])| >= 2
    requires physAddr < TWO32 && virtAddr < TWO32 && flags < TWO32
    modifies ram
    ensures newPage !in dirs && PagingOk(ram[..], pmm, dirs + {newPage})
    ensures var i, j := PdIdx(virtAddr), PtIdx(virtAddr);
            var mapping := if flags % 2 == 1 then Mapped(physAddr - physAddr % 0x1000, flags % 0x1000) else Absent;
            && WalkUpdated(old(ram[..]), d, ram[..], newPage, i, j, mapping)
            && if Present(Pde(old(ram[..]), d, i)) then WalkUpdated(old(ram[..]), d, ram[..], d, i, j, mapping)
               else SameWalk(old(ram[..]), d, ram[..], d)
  {
    hide PagingOk, SameWalk, WalkUpdated, TableThere, OtherPagesKept, Word, Meet;
    ghost var m := ram[..];
    ghost var mapping := if flags % 2 == 1 then Mapped(physAddr - physAddr % 0x1000, flags % 0x1000) else Absent;
    newPage := Copy(ram, pmm, d, dirs);
    ghost var m1 := ram[..];
    CopyMeets(m, m1, d, newPage, PdIdx(virtAddr));
    FreeLosesOne(pmm, m, m1, FrameOf(newPage));
    assert d in dirs + {newPage} && d != newPage;
    MapPage(ram, pmm, newPage, dirs + {newPage}, physAddr, virtAddr, flags);
    ThenUpdated(m, d, m1, newPage, ram[..], PdIdx(virtAddr), PtIdx(virtAddr), mapping);
    ThenUpdated(m, d, m1, d, ram[..], PdIdx(virtAddr), PtIdx(virtAddr), mapping);
  }

  lemma ThenUpdated(m: Mem, d: int, m1: Mem, e: int, m': Mem, i: int, j: int, mapping: Mapping)
    requires SameWalk(m, d, m1, e)
    ensures WalkUpdated(m1, e, m', e, i, j, mapping) ==> WalkUpdated(m, d, m', e, i, j, mapping)
    ensures SameWalk(m1, e, m', e) ==> SameWalk(m, d, m', e)
  {
  }

  /** A copy and its original share exactly the tables there were. */
  lemma CopyMeets(m: Mem, m': Mem, d: int, n: int, i: int)
    requires Pde(m', n, i) == Pde(m, d, i) && Pde(m', d, i) == Pde(m, d, i)
    ensures Meet(m', n, i, d, i) <==> Present(Pde(m, d, i))
  {
  }

  lemma PageWasCopied(m: Mem, m1: Mem, m': Mem, pmm: PMM, d: int, n: int)
    requires pmm.Valid(m) && pmm.OnlyMap(m, m1) && pmm.Used(m1) == pmm.Used(m) + {FrameOf(n)} && pmm.Valid(m1)
    requires Held(m, pmm, d) && n == FrameBase(FrameOf(n)) && InRam(|m|, n, PAGE) && FrameOf(n) in pmm.Free(m)
    requires SameOutside(m1, m', n, n + PAGE)
    requires d + PAGE <= n || n + PAGE <= d ==> forall a :: n <= a < n + PAGE ==> Byte(m', a) == Byte(m1, d + (a - n))
    ensures PageCopied(m, m', pmm, d, n) && pmm.Valid(m')
  {
    PagesApart(d, n);
    pmm.Frame(m1, m');
    forall a | n <= a < n + PAGE ensures Byte(m', a) == Byte(m, d + (a - n)) {
      assert Byte(m1, d + (a - n)) == Byte(m, d + (a - n));
    }
  }
}
