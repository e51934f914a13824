/** What the invariant of module Processes means for the memory the processes see. */
module Isolation {
  import opened Memory
  import opened Frames
  import opened Heaps
  import opened Paging
  import opened Spaces
  import opened Loader
  import opened Machines
  import opened Records
  import opened Creation
  import opened Joining

  /** v lies in one of the pages of the space. */
  ghost predicate InSpace(space: Space, v: nat) {
    exists x :: x in space && x.0 == v / PAGE
  }

  lemma SpaceByte(m: Mem, pmm: PMM, dirs: set<int>, list: seq<int>, pd: int, space: Space, x: (nat, int), v: nat)
    requires SpaceOk(m, pmm, dirs, list, pd, space) && x in space && x.0 == v / PAGE && v < TWO32
    ensures Walk(m, pd, v) == Mapped(x.1 - KERNEL, 7) && UserByte(m, pd, v) == Byte(m, x.1 + v % PAGE)
    ensures PlainPage(m, pmm, dirs, list, x.1)
  {
    hide WalkAt, PlainPage, Byte;
    PageNumber(v);
  }

  /** Steps that leave plain pages and translations alone, such as the creation of another process, leave the
      memory of a process as it was. */
  lemma StepKeepsMemory(m: Mem, m': Mem, pmm: PMM, dirs: set<int>, list: seq<int>, dirs': set<int>, list': seq<int>,
                        pd: int, space: Space, v: nat)
    requires SpaceOk(m, pmm, dirs, list, pd, space) && pd in dirs && InSpace(space, v) && v < TWO32
    requires PlainUntouched(m, m', pmm, dirs, list, dirs', list') && WalksKept(m, m', dirs)
    ensures UserByte(m', pd, v) == UserByte(m, pd, v)
  {
    hide WalkAt, SpaceOk, PlainPage, Byte;
    var x :| x in space && x.0 == v / PAGE;
    SpaceByte(m, pmm, dirs, list, pd, space, x, v);
    assert DirKept(m, m', pd);
    assert x.1 <= x.1 + v % PAGE < x.1 + PAGE;
  }

  /** A store into the plain page b changes no record and no translation, and no byte that a process reads in a page of
      its own other than b. */
  lemma StoreInPage(m: Mem, m': Mem, pmm: PMM, head: int, list: seq<int>, live: set<int>, dirs: set<int>, kernel: int,
                    first: int, procs: seq<int>, spaces: seq<Space>, b: int)
    requires SystemOk(m, pmm, head, list, live, dirs, kernel, first, procs, spaces)
    requires PlainPage(m, pmm, dirs, list, b) && SameOutside(m, m', b, b + PAGE)
    ensures SystemOk(m', pmm, head, list, live, dirs, kernel, first, procs, spaces)
    ensures Pcbs(m', procs) == Pcbs(m, procs) && WalksKept(m, m', dirs)
    ensures forall j, v :: 0 <= j < |procs| && 0 <= v < TWO32 && InSpace(spaces[j], v) && !PageIs(spaces[j], v, b) ==>
              UserByte(m', Pd(m, procs[j]), v) == UserByte(m, Pd(m, procs[j]), v)
  {
    hide MachineOk, PlainKept, BlockKept, SizeOf, WalkAt, PlainPage, Byte, StateAt, Word, Apart, UserByte, InSpace,
         PageIs;
    PlainPageArea(m, pmm, dirs, list, b);
    PlainStored(m, m', pmm, head, list, live, dirs, b, PAGE);
    assert forall j :: 0 <= j < |procs| ==> RecordOk(m, live, dirs, kernel, procs[j]);
    SystemKept(m, m', pmm, head, list, live, dirs, kernel, first, procs, spaces, head, list, live, dirs);
    forall j, v | 0 <= j < |procs| && 0 <= v < TWO32 && InSpace(spaces[j], v) && !PageIs(spaces[j], v, b)
      ensures UserByte(m', Pd(m, procs[j]), v) == UserByte(m, Pd(m, procs[j]), v)
    {
      OtherByte(m, m', pmm, dirs, list, procs, spaces, b, j, v);
    }
  }

  /** The page of the space that v lies in is b. */
  ghost predicate PageIs(space: Space, v: nat, b: int) {
    exists x :: x in space && x.0 == v / PAGE && x.1 == b
  }

  lemma PlainPageArea(m: Mem, pmm: PMM, dirs: set<int>, list: seq<int>, b: int)
    requires PlainPage(m, pmm, dirs, list, b)
    ensures PlainArea(m, pmm, dirs, list, b, PAGE)
  {
    hide WalkAt, IsTable;
    forall a | b <= a < b + PAGE ensures FrameBase(FrameOf(a)) == b {
      PageOfByte(b, a);
    }
  }

  lemma OtherByte(m: Mem, m': Mem, pmm: PMM, dirs: set<int>, list: seq<int>, procs: seq<int>, spaces: seq<Space>,
                  b: int, j: nat, v: nat)
    requires SpacesOk(m, pmm, dirs, list, procs, spaces) && j < |procs| && PlainPage(m, pmm, dirs, list, b)
    requires SpacesOk(m', pmm, dirs, list, procs, spaces) && Pd(m', procs[j]) == Pd(m, procs[j])
    requires SameOutside(m, m', b, b + PAGE) && v < TWO32 && InSpace(spaces[j], v) && !PageIs(spaces[j], v, b)
    ensures UserByte(m', Pd(m, procs[j]), v) == UserByte(m, Pd(m, procs[j]), v)
  {
    hide UserByte, Byte, Word, WalkAt, IsTable, Apart;
    var y :| y in spaces[j] && y.0 == v / PAGE;
    SpaceByte(m, pmm, dirs, list, Pd(m, procs[j]), spaces[j], y, v);
    SpaceByte(m', pmm, dirs, list, Pd(m, procs[j]), spaces[j], y, v);
    PagesApart(b, y.1);
  }

  /** A process that stores into one of its pages changes no byte of any other process, no record and no translation. */
  lemma StoresIsolated(m: Mem, m': Mem, pmm: PMM, head: int, list: seq<int>, live: set<int>, dirs: set<int>,
                       kernel: int, first: int, procs: seq<int>, spaces: seq<Space>, i: nat, x: (nat, int))
    requires SystemOk(m, pmm, head, list, live, dirs, kernel, first, procs, spaces)
    requires i < |procs| && x in spaces[i] && SameOutside(m, m', x.1, x.1 + PAGE)
    ensures SystemOk(m', pmm, head, list, live, dirs, kernel, first, procs, spaces)
    ensures Pcbs(m', procs) == Pcbs(m, procs) && WalksKept(m, m', dirs)
    ensures forall j, v :: 0 <= j < |procs| && j != i && 0 <= v < TWO32 && InSpace(spaces[j], v) ==>
              UserByte(m', Pd(m, procs[j]), v) == UserByte(m, Pd(m, procs[j]), v)
  {
    hide MachineOk, ProcsOk, WalkAt, PlainPage, Byte, Word, UserByte, InSpace;
    assert SpaceOk(m, pmm, dirs, list, Pd(m, procs[i]), spaces[i]);
    StoreInPage(m, m', pmm, head, list, live, dirs, kernel, first, procs, spaces, x.1);
    forall j, v: nat | 0 <= j < |procs| && j != i ensures !PageIs(spaces[j], v, x.1) {
      assert Apart(spaces[if i < j then i else j], spaces[if i < j then j else i]);
    }
  }

  /** After create_process the new process reads its segments' bytes where the image says. */
  lemma CreatedReads(m: Mem, m': Mem, pmm: PMM, dirs: set<int>, list: seq<int>, pd: int, elf: int, len: nat,
                     pages: Pages, k: nat, t: nat)
    requires SpaceThere(m, m', pmm, dirs, list, pd, elf, pages) && ImageOk(m, elf, len)
    requires Magic(m, elf) && k < PhNum(m, elf) && Loads(m, Phdr(m, elf, k)) && t < FileSize(m, Phdr(m, elf, k))
    ensures UserByte(m', pd, VAddr(m, Phdr(m, elf, k)) + t) == Byte(m, elf + Offset(m, Phdr(m, elf, k)) + t)
  {
    hide ImageOk, SegmentThere, UserByte, Phdr, Loads, Magic, PhNum, PlainPage, SecondPage, NoSegmentAt, PMM.Free;
    assert k in SegmentsOf(m, elf);
    SegmentReads(m, m', pmm, dirs, pd, elf, len, k, pages.segs[k], t);
  }

  /** What a process reaches through 0xbfff1000: the frame behind that of its stack, whoever has it.  It is the
      process's own kernel stack exactly when that frame was free at its creation. */
  lemma SecondPageIsNextFrame(m: Mem, m': Mem, pmm: PMM, dirs: set<int>, list: seq<int>, pd: int, elf: int,
                              pages: Pages, k: nat)
    requires SpaceThere(m, m', pmm, dirs, list, pd, elf, pages) && NoSegmentAt(m, elf, STACK + 0x1000) && k < PAGE
    ensures UserByte(m', pd, STACK + 0x1000 + k) == Byte(m', pages.stack + PAGE + k)
    ensures pages.kstack == pages.stack + PAGE <==> FrameOf(pages.stack) + 1 in pmm.Free(m)
  {
    hide SegmentThere, PlainPage, WalkAt, Byte, NoSegmentAt, UserPages, SegmentsOf, PMM.Free;
    SamePage(STACK + 0x1000, STACK + 0x1000 + k);
  }
}
