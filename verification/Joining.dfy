/** The second half of create_process (src/userland/process.cpp): the record in the heap, and its place
    at the end of the list. */
module Joining {
  import opened Memory
  import opened Bitmaps
  import opened Frames
  import opened Layout
  import opened Buckets
  import opened Heaps
  import opened Kmallocs
  import opened Paging
  import opened Spaces
  import opened Loader
  import opened Machines
  import opened Scheduler
  import opened Records
  import opened Creation

  /** The pages of a new process, with the frames taken for them: its stack and its segments, and the second page of
      the stack if that happens to be the process's own kernel stack. */
  ghost function UserPages(m: Mem, elf: int, pages: Pages): Space {
    {(STACK / PAGE, pages.stack)} + SecondOwn(m, elf, pages)
    + set k | k in pages.segs :: (VAddr(m, Phdr(m, elf, k)) / PAGE, pages.segs[k])
  }

  ghost function SecondOwn(m: Mem, elf: int, pages: Pages): Space {
    if pages.kstack == pages.stack + PAGE && NoSegmentAt(m, elf, STACK + 0x1000) then {(STACK / PAGE + 1, pages.kstack)}
    else {}
  }

  /** The word below the stack pointer of these registers is the last one of the page `stack`, where user code may
      write. */
  ghost predicate StackReady(m: Mem, pd: int, regs: Regs, stack: int) {
    |regs| == STATE && RegWord(regs, 12) >= 4
    && var push := RegWord(regs, 12) - 4;
    && Walk(m, pd, push).Mapped? && Walk(m, pd, push).flags == 7 && Open(m, pd, push)
    && Translate(m, pd, push) == stack + 0xffc
  }

  lemma StackIsReady(m: Mem, m': Mem, pmm: PMM, dirs: set<int>, list: seq<int>, pd: int, elf: int, pages: Pages,
                     regs: Regs, entry: int)
    requires SpaceOk(m', pmm, dirs, list, pd, UserPages(m, elf, pages)) && Built(regs, entry)
    ensures StackReady(m', pd, regs, pages.stack)
  {
    hide PlainPage, WalkAt, Built, RegWord, Pde;
    InitialRegisters(regs, entry);
    assert (STACK / PAGE, pages.stack) in UserPages(m, elf, pages);
    PageNumber(RegWord(regs, 12) - 4);
    SamePage(RegWord(regs, 12) - 4, STACK);
  }

  /** The system with one more address space, not yet owned by a process. */
  ghost predicate SpaceReady(m: Mem, pmm: PMM, dirs: set<int>, list: seq<int>, procs: seq<int>, spaces: seq<Space>,
                             pd: int, kernel: int, space: Space) {
    && pd in dirs && pd != kernel && SpaceOk(m, pmm, dirs, list, pd, space)
    && |spaces| == |procs|
    && forall i :: 0 <= i < |procs| ==> Pd(m, procs[i]) != pd && Apart(spaces[i], space)
  }

  lemma PageNumber(v: nat)
    requires v < TWO32
    ensures v / PAGE * PAGE < TWO32 && PdIdx(v / PAGE * PAGE) == PdIdx(v) && PtIdx(v / PAGE * PAGE) == PtIdx(v)
  {
    assert v / PAGE * PAGE / PAGE == v / PAGE;
    SamePage(v, v / PAGE * PAGE);
  }

  lemma SpaceJoined(m: Mem, m': Mem, pmm: PMM, head: int, list: seq<int>, live: set<int>, dirs: set<int>, kernel: int,
                    first: int, procs: seq<int>, spaces: seq<Space>, pd: int, elf: int, pages: Pages)
    requires SystemOk(m, pmm, head, list, live, dirs, kernel, first, procs, spaces)
    requires SpaceMade(m, m', pmm, dirs, pd, elf, pages)
    ensures SystemOk(m', pmm, head, list, live, dirs + {pd}, kernel, first, procs, spaces)
    ensures Pcbs(m', procs) == Pcbs(m, procs) && ClientsKept(m, m', live, procs)
    ensures SpaceReady(m', pmm, dirs + {pd}, list, procs, spaces, pd, kernel, UserPages(m, elf, pages))
  {
    hide MachineOk, WalksKept, PlainKept, PlainUntouched, BlockKept, SizeOf, SpaceOk, Apart, PagingOk, DataKept,
         DataPage, SegmentThere, Walk, Pde, Word, Phdr, Loads;
    HeapUntouched(m, m', pmm, head, list, live, dirs, dirs + {pd});
    UntouchedIsKept(m, m', pmm, dirs, list, dirs + {pd}, list);
    forall i | 0 <= i < |procs| ensures BlockKept(m, m', procs[i]) {
      assert RecordOk(m, live, dirs, kernel, procs[i]);
    }
    SystemKept(m, m', pmm, head, list, live, dirs, kernel, first, procs, spaces, head, list, live, dirs + {pd});
    NewPages(m, m', pmm, head, list, live, dirs, pd, elf, pages);
    forall i | 0 <= i < |procs| ensures Pd(m', procs[i]) != pd && Apart(spaces[i], UserPages(m, elf, pages)) {
      assert RecordOk(m, live, dirs, kernel, procs[i]);
      assert PcbAt(m', procs[i]) == Pcbs(m', procs)[i] == Pcbs(m, procs)[i] == PcbAt(m, procs[i]);
      NewPagesApart(m, pmm, dirs, list, Pd(m, procs[i]), spaces[i], UserPages(m, elf, pages));
    }
  }

  /** The new pages are plain, found through pd, and were free before. */
  lemma NewPages(m: Mem, m': Mem, pmm: PMM, head: int, list: seq<int>, live: set<int>, dirs: set<int>,
                 pd: int, elf: int, pages: Pages)
    requires MachineOk(m, pmm, head, list, live, dirs) && SpaceMade(m, m', pmm, dirs, pd, elf, pages)
    ensures SpaceOk(m', pmm, dirs + {pd}, list, pd, UserPages(m, elf, pages))
    ensures forall x :: x in UserPages(m, elf, pages) ==> FrameOf(x.1) in pmm.Free(m)
  {
    hide HeapOk, WalksKept, PagingOk, DataKept, Pde, Word, Phdr, Loads, IsTable, WalkAt, BytesAt, Open;
    var space := UserPages(m, elf, pages);
    PagesOpen(m, m', pmm, dirs, pd, elf, pages);
    forall x | x in space
      ensures Walk(m', pd, x.0 * PAGE) == Mapped(x.1 - KERNEL, 7) && PlainPage(m', pmm, dirs + {pd}, list, x.1)
      ensures FrameOf(x.1) in pmm.Free(m)
    {
      if x == (STACK / PAGE, pages.stack) {
        PageNumber(STACK);
      } else if x in SecondOwn(m, elf, pages) {
        assert SecondPage(m', pd, pages.stack);
        PageNumber(STACK + 0x1000);
      } else {
        var k :| k in pages.segs && x == (VAddr(m, Phdr(m, elf, k)) / PAGE, pages.segs[k]);
        assert SegmentThere(m, m', pmm, dirs + {pd}, pd, elf, k, pages.segs[k]);
        PageNumber(VAddr(m, Phdr(m, elf, k)));
      }
      FreeIsNoBucket(m, pmm, dirs, list, x.1);
    }
    OwnPages(m, elf, pages);
  }

  lemma PagesOpen(m: Mem, m': Mem, pmm: PMM, dirs: set<int>, pd: int, elf: int, pages: Pages)
    requires SpaceMade(m, m', pmm, dirs, pd, elf, pages)
    ensures forall x :: x in UserPages(m, elf, pages) ==> Open(m', pd, x.0 * PAGE)
  {
    hide WalksKept, PagingOk, DataKept, Pde, Word, Phdr, Loads, SegmentThere, StacksMade, SecondPage;
    forall x | x in UserPages(m, elf, pages) ensures Open(m', pd, x.0 * PAGE) {
      if x == (STACK / PAGE, pages.stack) || x in SecondOwn(m, elf, pages) {
        PageNumber(STACK);
        PageNumber(STACK + 0x1000);
        StackIndices();
      } else {
        var k :| k in pages.segs && x == (VAddr(m, Phdr(m, elf, k)) / PAGE, pages.segs[k]);
        PageNumber(VAddr(m, Phdr(m, elf, k)));
      }
    }
  }

  /** A process gets a frame of its own for each of its pages. */
  lemma OwnPages(m: Mem, elf: int, pages: Pages)
    requires forall k: nat :: k in pages.segs ==> pages.segs[k] != pages.stack && pages.segs[k] != pages.kstack
    requires forall k: nat, l: nat :: k in pages.segs && l in pages.segs && pages.segs[k] == pages.segs[l] ==> k == l
    requires pages.stack != pages.kstack
    ensures var space := UserPages(m, elf, pages);
            && (forall x, y :: x in space && y in space && x.1 == y.1 ==> x == y)
            && forall x :: x in space && x.1 == pages.kstack ==> x in SecondOwn(m, elf, pages)
  {
  }

  lemma FreeIsNoBucket(m: Mem, pmm: PMM, dirs: set<int>, list: seq<int>, b: int)
    requires HeapPagesOk(m, pmm, dirs, list) && FrameOf(b) in pmm.Free(m)
    ensures b !in list
  {
  }

  lemma NewPagesApart(m: Mem, pmm: PMM, dirs: set<int>, list: seq<int>, pd: int, space: Space, added: Space)
    requires SpaceOk(m, pmm, dirs, list, pd, space)
    requires forall x :: x in added ==> FrameOf(x.1) in pmm.Free(m)
    ensures Apart(space, added)
  {
  }

  /** A step that keeps translations and plain pages keeps the new address space ready. */
  lemma ReadyKept(m: Mem, m': Mem, pmm: PMM, dirs: set<int>, list: seq<int>, list': seq<int>,
                  procs: seq<int>, spaces: seq<Space>, pd: int, kernel: int, space: Space)
    requires SpaceReady(m, pmm, dirs, list, procs, spaces, pd, kernel, space)
    requires PlainKept(m, m', pmm, dirs, list, dirs, list') && WalksKept(m, m', dirs)
    requires Pcbs(m', procs) == Pcbs(m, procs)
    ensures SpaceReady(m', pmm, dirs, list', procs, spaces, pd, kernel, space)
  {
  }

  // -------- the record --------

  lemma RecordAllocated(m: Mem, m': Mem, pmm: PMM, head: int, list: seq<int>, live: set<int>, dirs: set<int>,
                        kernel: int, first: int, procs: seq<int>, spaces: seq<Space>, head': int, list': seq<int>,
                        live': set<int>, p: int)
    requires SystemOk(m, pmm, head, list, live, dirs, kernel, first, procs, spaces)
    requires HeapOk(m', pmm, head', list', live') && Taking(m, m', live, live', p, 128)
    requires ForeignKept(m, m', pmm, list, list') && pmm.Used(m) <= pmm.Used(m')
    ensures SystemOk(m', pmm, head', list', live', dirs, kernel, first, procs, spaces)
    ensures Pcbs(m', procs) == Pcbs(m, procs) && PlainUntouched(m, m', pmm, dirs, list, dirs, list')
    ensures WalksKept(m, m', dirs)
    ensures p !in procs && live' == live + {p} && p !in live && SizeOf(m', p) == 128 && ClientsKept(m, m', live, procs)
  {
    hide HeapOk, PagingOk, HeapPagesOk, Taking, ForeignKept, WalksKept, PlainKept, PlainUntouched, BlockKept, SizeOf,
         SpacesOk, Word, SameEntries;
    HeapStepSpaces(m, m', pmm, head, list, live, dirs, head', list', live');
    UntouchedIsKept(m, m', pmm, dirs, list, dirs, list');
    forall q | q in live ensures BlockKept(m, m', q) && q != p {
      TakenKeeps(m, m', live, live', p, 128, q);
      SameBlockKept(m, m', q);
    }
    assert forall i :: 0 <= i < |procs| ==> RecordOk(m, live, dirs, kernel, procs[i]);
    TakenIs(m, m', live, live', p, 128);
    SystemKept(m, m', pmm, head, list, live, dirs, kernel, first, procs, spaces, head', list', live', dirs);
  }

  lemma TakenIs(m: Mem, m': Mem, live: set<int>, live': set<int>, r: int, p: int)
    requires Taking(m, m', live, live', r, p)
    ensures live' == live + {r} && r in live' && SizeOf(m', r) == p
  {
  }

  lemma SameBlockKept(m: Mem, m': Mem, q: int)
    requires Block(m', q) == Block(m, q) && SizeOf(m', q) == SizeOf(m, q)
    ensures BlockKept(m, m', q)
  {
    hide SizeOf;
    forall a | q <= a < q + SizeOf(m, q) ensures Byte(m', a) == Byte(m, a) {
      assert Block(m', q)[a - q] == Block(m, q)[a - q];
    }
  }

  lemma RecordFilled(m: Mem, m': Mem, pmm: PMM, head: int, list: seq<int>, live: set<int>, dirs: set<int>, kernel: int,
                     first: int, procs: seq<int>, spaces: seq<Space>, p: int)
    requires SystemOk(m, pmm, head, list, live, dirs, kernel, first, procs, spaces)
    requires p in live && SizeOf(m, p) == 128 && p !in procs && SameOutside(m, m', p, p + RECORD)
    ensures SystemOk(m', pmm, head, list, live, dirs, kernel, first, procs, spaces)
    ensures Pcbs(m', procs) == Pcbs(m, procs) && PlainUntouched(m, m', pmm, dirs, list, dirs, list)
    ensures WalksKept(m, m', dirs)
    ensures SizeOf(m', p) == 128 && ClientsKept(m, m', live - {p}, procs) && pmm.Used(m') == pmm.Used(m)
  {
    hide MachineOk, WalksKept, PlainKept, PlainUntouched, BlockKept, SizeOf, SpacesOk, Word, Byte, SameEntries;
    BlockStored(m, m', pmm, head, list, live, dirs, p);
    UntouchedIsKept(m, m', pmm, dirs, list, dirs, list);
    forall i | 0 <= i < |procs| ensures BlockKept(m, m', procs[i]) {
      assert RecordOk(m, live, dirs, kernel, procs[i]) && procs[i] in procs;
    }
    SystemKept(m, m', pmm, head, list, live, dirs, kernel, first, procs, spaces, head, list, live, dirs);
  }

  // -------- the end of the list --------

  /** The record p now ends the list: either it is the list, or the last record's `next` leads to it. */
  ghost predicate Appended(m: Mem, m': Mem, first: int, first': int, procs: seq<int>, p: int) {
    if procs == [] then m' == m && first' == p
    else
      var last := procs[|procs| - 1];
      first' == first && SameOutside(m, m', last + 64, last + 68) && NextProc(m', last) == p
  }

  lemma AppendKeeps(m: Mem, m': Mem, pmm: PMM, head: int, list: seq<int>, live: set<int>, dirs: set<int>, kernel: int,
                    first: int, procs: seq<int>, spaces: seq<Space>, first': int, p: int)
    requires SystemOk(m, pmm, head, list, live, dirs, kernel, first, procs, spaces)
    requires p in live && p !in procs && SizeOf(m, p) == 128 && Appended(m, m', first, first', procs, p)
    ensures MachineOk(m', pmm, head, list, live, dirs) && WalksKept(m, m', dirs) && ClientsKept(m, m', live, procs)
    ensures PlainUntouched(m, m', pmm, dirs, list, dirs, list) && PlainKept(m, m', pmm, dirs, list, dirs, list)
    ensures PcbAt(m', p) == PcbAt(m, p) && NextProc(m', p) == NextProc(m, p) && SizeOf(m', p) == 128
    ensures KernelStackTop(m', p) == KernelStackTop(m, p) && pmm.Used(m') == pmm.Used(m)
    ensures forall i :: 0 <= i < |procs| ==> PcbAt(m', procs[i]) == PcbAt(m, procs[i]) && SizeOf(m', procs[i]) == 128
    ensures forall i :: 0 <= i < |procs| ==>
              NextProc(m', procs[i]) == if i == |procs| - 1 then p else NextProc(m, procs[i])
  {
    hide MachineOk, WalksKept, PlainKept, PlainUntouched, BlockKept, SizeOf, SpacesOk, Word, Byte, SameEntries, StateAt;
    if procs == [] {
      WalksKeptRefl(m, dirs);
      ClientsKeptRefl(m, live, procs);
      PlainKeptRefl(m, pmm, dirs, list);
    } else {
      var last := procs[|procs| - 1];
      assert RecordOk(m, live, dirs, kernel, last) && last in procs;
      BlockStored(m, m', pmm, head, list, live, dirs, last);
      UntouchedIsKept(m, m', pmm, dirs, list, dirs, list);
      RecordKept(m, m', p);
      LinkOnly(m, m', last);
      forall i | 0 <= i < |procs|
        ensures PcbAt(m', procs[i]) == PcbAt(m, procs[i]) && SizeOf(m', procs[i]) == 128
        ensures NextProc(m', procs[i]) == if i == |procs| - 1 then p else NextProc(m, procs[i])
      {
        if i != |procs| - 1 {
          assert RecordOk(m, live, dirs, kernel, procs[i]);
          RecordKept(m, m', procs[i]);
        }
      }
    }
  }

  lemma PlainKeptRefl(m: Mem, pmm: PMM, dirs: set<int>, list: seq<int>)
    ensures PlainUntouched(m, m, pmm, dirs, list, dirs, list) && PlainKept(m, m, pmm, dirs, list, dirs, list)
  {
  }

  lemma LinkOnly(m: Mem, m': Mem, p: int)
    requires SameOutside(m, m', p + 64, p + 68)
    ensures PcbAt(m', p) == PcbAt(m, p)
  {
  }

  lemma RecordAppended(m: Mem, m': Mem, pmm: PMM, head: int, list: seq<int>, live: set<int>, dirs: set<int>,
                       kernel: int, first: int, procs: seq<int>, spaces: seq<Space>, first': int, p: int, space: Space)
    requires SystemOk(m, pmm, head, list, live, dirs, kernel, first, procs, spaces)
    requires p in live && p !in procs && SizeOf(m, p) == 128 && NextProc(m, p) == 0
    requires SpaceReady(m, pmm, dirs, list, procs, spaces, Pd(m, p), kernel, space)
    requires Appended(m, m', first, first', procs, p)
    ensures SystemOk(m', pmm, head, list, live, dirs, kernel, first', procs + [p], spaces + [space])
    ensures Pcbs(m', procs + [p]) == Pcbs(m, procs) + [PcbAt(m, p)]
    ensures KernelStackTop(m', p) == KernelStackTop(m, p) && pmm.Used(m') == pmm.Used(m)
    ensures PlainUntouched(m, m', pmm, dirs, list, dirs, list) && WalksKept(m, m', dirs)
    ensures ClientsKept(m, m', live, procs)
  {
    hide ClientsKept, MachineOk, WalksKept, PlainKept, PlainUntouched, SizeOf, Word, Byte, StateAt, SpaceOk, Apart;
    AppendKeeps(m, m', pmm, head, list, live, dirs, kernel, first, procs, spaces, first', p);
    ListAppended(m, m', live, dirs, kernel, first, procs, first', p);
    SpacesAppended(m, m', pmm, live, dirs, list, kernel, first, procs, spaces, p, space);
  }

  lemma ListAppended(m: Mem, m': Mem, live: set<int>, dirs: set<int>, kernel: int, first: int, procs: seq<int>,
                     first': int, p: int)
    requires ProcsOk(m, live, dirs, kernel, first, procs) && p in live && p !in procs
    requires Pd(m, p) in dirs && Pd(m, p) != kernel && NextProc(m, p) == 0
    requires forall i :: 0 <= i < |procs| ==> Pd(m, procs[i]) != Pd(m, p)
    requires first' == if procs == [] then p else first
    requires PcbAt(m', p) == PcbAt(m, p) && NextProc(m', p) == NextProc(m, p) && SizeOf(m', p) == 128
    requires forall i :: 0 <= i < |procs| ==> PcbAt(m', procs[i]) == PcbAt(m, procs[i]) && SizeOf(m', procs[i]) == 128
    requires forall i :: 0 <= i < |procs| ==>
               NextProc(m', procs[i]) == if i == |procs| - 1 then p else NextProc(m, procs[i])
    ensures ProcsOk(m', live, dirs, kernel, first', procs + [p])
    ensures Pcbs(m', procs + [p]) == Pcbs(m, procs) + [PcbAt(m, p)]
  {
    hide SizeOf, Word, StateAt;
    var procs' := procs + [p];
    forall i | 0 <= i < |procs'|
      ensures RecordOk(m', live, dirs, kernel, procs'[i]) && NextProc(m', procs'[i]) == At(procs', i + 1)
    {
      if i < |procs| {
        assert RecordOk(m, live, dirs, kernel, procs[i]);
        assert PcbAt(m', procs[i]) == PcbAt(m, procs[i]);
      }
    }
    AppendedApart(m, m', procs, p);
  }

  lemma AppendedApart(m: Mem, m': Mem, procs: seq<int>, p: int)
    requires Distinct(procs) && p !in procs && Pd(m', p) == Pd(m, p)
    requires forall i, j :: 0 <= i < j < |procs| ==> Pd(m, procs[i]) != Pd(m, procs[j])
    requires forall i :: 0 <= i < |procs| ==> Pd(m, procs[i]) != Pd(m, p)
    requires forall i :: 0 <= i < |procs| ==> PcbAt(m', procs[i]) == PcbAt(m, procs[i])
    ensures var procs' := procs + [p];
            Distinct(procs') && forall i, j :: 0 <= i < j < |procs'| ==> Pd(m', procs'[i]) != Pd(m', procs'[j])
  {
  }

  lemma SpacesAppended(m: Mem, m': Mem, pmm: PMM, live: set<int>, dirs: set<int>, list: seq<int>, kernel: int,
                       first: int, procs: seq<int>, spaces: seq<Space>, p: int, space: Space)
    requires SpacesOk(m, pmm, dirs, list, procs, spaces) && ProcsOk(m, live, dirs, kernel, first, procs)
    requires SpaceReady(m, pmm, dirs, list, procs, spaces, Pd(m, p), kernel, space)
    requires PlainKept(m, m', pmm, dirs, list, dirs, list) && WalksKept(m, m', dirs)
    requires PcbAt(m', p) == PcbAt(m, p)
    requires forall i :: 0 <= i < |procs| ==> PcbAt(m', procs[i]) == PcbAt(m, procs[i])
    ensures SpacesOk(m', pmm, dirs, list, procs + [p], spaces + [space])
  {
    hide Word, StateAt, Apart, PlainPage, WalkAt, SizeOf, SpaceOk;
    var procs', spaces' := procs + [p], spaces + [space];
    forall i | 0 <= i < |procs'| ensures SpaceOk(m', pmm, dirs, list, Pd(m', procs'[i]), spaces'[i]) {
      if i < |procs| {
        assert PcbAt(m', procs[i]) == PcbAt(m, procs[i]) && RecordOk(m, live, dirs, kernel, procs[i]);
        SpaceStays(m, m', pmm, dirs, list, Pd(m, procs[i]), spaces[i]);
      } else {
        SpaceStays(m, m', pmm, dirs, list, Pd(m, p), space);
      }
    }
  }

  lemma SpaceStays(m: Mem, m': Mem, pmm: PMM, dirs: set<int>, list: seq<int>, pd: int, space: Space)
    requires SpaceOk(m, pmm, dirs, list, pd, space) && pd in dirs
    requires PlainKept(m, m', pmm, dirs, list, dirs, list) && WalksKept(m, m', dirs)
    ensures SpaceOk(m', pmm, dirs, list, pd, space)
  {
  }

  /** A record outside the list, filled in and linked to nothing. */
  ghost predicate RecordReady(m: Mem, live: set<int>, procs: seq<int>, p: int) {
    p in live && p !in procs && SizeOf(m, p) == 128 && NextProc(m, p) == 0
  }

  lemma RecordIsReady(m: Mem, live: set<int>, procs: seq<int>, p: int)
    requires RecordReady(m, live, procs, p)
    ensures p in live && p !in procs && SizeOf(m, p) == 128 && NextProc(m, p) == 0
  {
  }

  lemma RecordAddress(m: Mem, pmm: PMM, head: int, list: seq<int>, live: set<int>, dirs: set<int>, kernel: int,
                      first: int, procs: seq<int>, spaces: seq<Space>, p: int)
    requires SystemOk(m, pmm, head, list, live, dirs, kernel, first, procs, spaces) && RecordReady(m, live, procs, p)
    ensures KERNEL <= p < TWO32
  {
    hide HeapOk, PagingOk, HeapPagesOk, ProcsOk, SpacesOk;
    BlockBounds(m, pmm, head, list, live, p);
  }

  lemma PcbParts(m: Mem, p: int)
    ensures PcbAt(m, p).pd == Pd(m, p) && PcbAt(m, p).regs == StateAt(m, p + 4)
  {
  }

  lemma SystemHolds(m: Mem, pmm: PMM, head: int, list: seq<int>, live: set<int>, dirs: set<int>, kernel: int,
                    first: int, procs: seq<int>, spaces: seq<Space>)
    requires SystemOk(m, pmm, head, list, live, dirs, kernel, first, procs, spaces)
    ensures HeapOk(m, pmm, head, list, live) && PagingOk(m, pmm, dirs) && kernel in dirs
    ensures P2V(V2P(kernel)) == kernel && |spaces| == |procs|
  {
    hide HeapOk, PagingOk, P2V, V2P, Held, PMM.Valid;
    DirectoryPage(m, pmm, dirs, kernel);
    P2VInvertsV2P(kernel);
  }

  /** The last process finds its pages through its own directory. */
  lemma LastSpace(m: Mem, pmm: PMM, head: int, list: seq<int>, live: set<int>, dirs: set<int>, kernel: int,
                  first: int, procs: seq<int>, spaces: seq<Space>)
    requires SystemOk(m, pmm, head, list, live, dirs, kernel, first, procs, spaces)
    ensures procs != [] ==>
              && |spaces| == |procs|
              && SpaceOk(m, pmm, dirs, list, Pd(m, procs[|procs| - 1]), spaces[|procs| - 1])
  {
    hide MachineOk, ProcsOk, SpaceOk, Word;
  }

  lemma NoRecord(m: Mem, pmm: PMM, head: int, list: seq<int>, live: set<int>, dirs: set<int>, kernel: int,
                 first: int, procs: seq<int>, spaces: seq<Space>)
    requires SystemOk(m, pmm, head, list, live, dirs, kernel, first, procs, spaces)
    ensures first == 0 <==> procs == []
    ensures procs != [] ==> first == procs[0]
  {
    hide MachineOk, SpacesOk, SizeOf, Word;
    if procs != [] {
      RecordPlace(m, pmm, head, list, live, dirs, kernel, first, procs, spaces, 0);
    }
  }

  lemma MadeKeeps(m: Mem, m': Mem, pmm: PMM, dirs: set<int>, pd: int, elf: int, pages: Pages, list: seq<int>)
    requires SpaceMade(m, m', pmm, dirs, pd, elf, pages)
    ensures pd !in dirs && WalksKept(m, m', dirs) && PlainUntouched(m, m', pmm, dirs, list, dirs + {pd}, list)
  {
  }

  /** What a process has got, from the memory m before its creation to m': the bytes of its segments, fresh frames
      for its pages and its kernel stack, and the frame that its second stack page happens to name. */
  ghost predicate SpaceThere(m: Mem, m': Mem, pmm: PMM, dirs: set<int>, list: seq<int>, pd: int, elf: int,
                             pages: Pages) {
    && pages.segs.Keys == SegmentsOf(m, elf)
    && (forall k: nat :: k in pages.segs ==> SegmentThere(m, m', pmm, dirs, pd, elf, k, pages.segs[k]))
    && (forall x :: x in UserPages(m, elf, pages) ==>
          FrameOf(x.1) in pmm.Free(m) && (x.1 == pages.kstack ==> x in SecondOwn(m, elf, pages)))
    && FrameOf(pages.kstack) in pmm.Free(m) && PlainPage(m', pmm, dirs, list, pages.kstack)
    && (pages.kstack == pages.stack + PAGE <==> FrameOf(pages.stack) + 1 in pmm.Free(m))
    && (NoSegmentAt(m, elf, STACK + 0x1000) ==> SecondPage(m', pd, pages.stack))
  }

  /** The pages are still in place when the process has joined the list. */
  lemma SpaceStaysThere(m: Mem, m1: Mem, m': Mem, pmm: PMM, head: int, list: seq<int>, live: set<int>, dirs: set<int>,
                        pd: int, elf: int, pages: Pages, list': seq<int>)
    requires SpaceMade(m, m1, pmm, dirs, pd, elf, pages) && MachineOk(m, pmm, head, list, live, dirs)
    requires PlainUntouched(m1, m', pmm, dirs + {pd}, list, dirs + {pd}, list') && WalksKept(m1, m', dirs + {pd})
    requires forall k: nat :: k in pages.segs ==>
               VAddr(m, Phdr(m, elf, k)) % PAGE + FileSize(m, Phdr(m, elf, k)) <= PAGE
    ensures SpaceThere(m, m', pmm, dirs + {pd}, list', pd, elf, pages)
  {
    hide HeapOk, PagingOk, DataKept, IsTable, SegmentThere, Walk, NoSegmentAt, Phdr, Loads, Word, PMM.Free, SegmentsOf,
         Pde, UserPages;
    NewPages(m, m1, pmm, head, list, live, dirs, pd, elf, pages);
    OwnPages(m, elf, pages);
    FreeIsNoBucket(m, pmm, dirs, list, pages.kstack);
    assert DirKept(m1, m', pd);
    SecondStays(m1, m', pd, pages.stack);
    forall k: nat | k in pages.segs ensures SegmentThere(m, m', pmm, dirs + {pd}, pd, elf, k, pages.segs[k]) {
      SegmentStaysThere(m, m1, m', pmm, dirs, list, pd, elf, k, pages.segs[k], list');
    }
  }

  lemma SecondStays(m: Mem, m': Mem, pd: int, stack: int)
    requires DirKept(m, m', pd)
    ensures SecondPage(m, pd, stack) ==> SecondPage(m', pd, stack)
  {
  }

  lemma SegmentStaysThere(m: Mem, m1: Mem, m': Mem, pmm: PMM, dirs: set<int>, list: seq<int>, pd: int, elf: int,
                          k: nat, b: int, list': seq<int>)
    requires SegmentThere(m, m1, pmm, dirs + {pd}, pd, elf, k, b) && HeapPagesOk(m, pmm, dirs, list)
    requires PlainUntouched(m1, m', pmm, dirs + {pd}, list, dirs + {pd}, list') && WalksKept(m1, m', dirs + {pd})
    requires VAddr(m, Phdr(m, elf, k)) % PAGE + FileSize(m, Phdr(m, elf, k)) <= PAGE
    ensures SegmentThere(m, m', pmm, dirs + {pd}, pd, elf, k, b)
  {
    hide WalkAt, DataPage, Phdr, Word, Loads, Byte, PMM.Free;
    FreeIsNoBucket(m, pmm, dirs, list, b);
    assert PlainPage(m1, pmm, dirs + {pd}, list, b);
    assert DirKept(m1, m', pd);
  }

  lemma WalksKeptWithin(m: Mem, m1: Mem, m': Mem, dirs: set<int>, dirs': set<int>)
    requires WalksKept(m, m1, dirs) && WalksKept(m1, m', dirs') && dirs <= dirs'
    ensures WalksKept(m, m', dirs)
  {
  }

  lemma PdBound(m: Mem, pmm: PMM, head: int, list: seq<int>, live: set<int>, dirs: set<int>, kernel: int,
                first: int, procs: seq<int>, spaces: seq<Space>, pd: int, space: Space)
    requires SystemOk(m, pmm, head, list, live, dirs, kernel, first, procs, spaces)
    requires SpaceReady(m, pmm, dirs, list, procs, spaces, pd, kernel, space)
    ensures 0 <= pd < TWO32
  {
    hide HeapOk, HeapPagesOk, ProcsOk, SpacesOk, SpaceOk, PagingOk, P2V;
    DirectoryPage(m, pmm, dirs, pd);
  }

  /** From m to m' a process was added: its record is the new block p, its directory the new pd, its pages are there.
      No earlier directory changed, no page but the new ones, no block of the heap but the process records. */
  ghost predicate ProcessAdded(m: Mem, m': Mem, pmm: PMM, dirs: set<int>, list: seq<int>, live: set<int>,
                               procs: seq<int>, list': seq<int>, live': set<int>, p: int, pd: int, elf: int,
                               pages: Pages) {
    && pd !in dirs && p !in live && live' == live + {p}
    && WalksKept(m, m', dirs) && ClientsKept(m, m', live, procs)
    && PlainUntouched(m, m', pmm, dirs, list, dirs + {pd}, list')
    && |pmm.Free(m')| >= |pmm.Free(m)| - 5 - 2 * PhNum(m, elf)
    && KernelStackTop(m', p) == KERNEL + (pages.kstack - KERNEL + 0x1000) % WINDOW
    && SpaceThere(m, m', pmm, dirs + {pd}, list', pd, elf, pages)
  }

  /** What the steps of create_process add up to: a new address space (m to m1), a record in the heap (m1 to m2),
      a place on the list (m2 to m'). */
  lemma CreationDone(m: Mem, m1: Mem, m2: Mem, m': Mem, pmm: PMM, head: int, list: seq<int>, live: set<int>,
                     dirs: set<int>, kernel: int, first: int, procs: seq<int>, spaces: seq<Space>, list': seq<int>,
                     live': set<int>, p: int, pd: int, elf: int, len: nat, pages: Pages)
    requires SystemOk(m, pmm, head, list, live, dirs, kernel, first, procs, spaces) && ImageOk(m, elf, len)
    requires SpaceMade(m, m1, pmm, dirs, pd, elf, pages) && ClientsKept(m, m1, live, procs)
    requires PlainUntouched(m1, m2, pmm, dirs + {pd}, list, dirs + {pd}, list') && WalksKept(m1, m2, dirs + {pd})
    requires ClientsKept(m1, m2, live, procs) && live' == live + {p} && p !in live
    requires PlainUntouched(m2, m', pmm, dirs + {pd}, list', dirs + {pd}, list') && WalksKept(m2, m', dirs + {pd})
    requires ClientsKept(m2, m', live', procs) && pmm.Used(m') == pmm.Used(m2)
    requires |pmm.Free(m1)| >= |pmm.Free(m)| - 4 - 2 * PhNum(m, elf) && |pmm.Free(m2)| >= |pmm.Free(m1)| - 1
    requires KernelStackTop(m', p) == KernelStackTop(m2, p) == KERNEL + (pages.kstack - KERNEL + 0x1000) % WINDOW
    ensures ProcessAdded(m, m', pmm, dirs, list, live, procs, list', live', p, pd, elf, pages)
  {
    hide SystemOk, PlainUntouched, WalksKept, SpaceMade, SpaceThere, ClientsKept, PhNum, PMM.Free, KernelStackTop;
    CreationSteps(m, m1, m2, m', pmm, head, list, live, dirs, kernel, first, procs, spaces, pd, elf, len, pages, list');
    ClientsKeptTrans(m, m1, m2, live, live, procs);
    ClientsKeptTrans(m, m2, m', live, live', procs);
    FreeKept(pmm, m2, m');
  }

  lemma CreationSteps(m: Mem, m1: Mem, m2: Mem, m': Mem, pmm: PMM, head: int, list: seq<int>, live: set<int>,
                      dirs: set<int>, kernel: int, first: int, procs: seq<int>, spaces: seq<Space>, pd: int, elf: int,
                      len: nat, pages: Pages, list': seq<int>)
    requires SystemOk(m, pmm, head, list, live, dirs, kernel, first, procs, spaces) && ImageOk(m, elf, len)
    requires SpaceMade(m, m1, pmm, dirs, pd, elf, pages)
    requires PlainUntouched(m1, m2, pmm, dirs + {pd}, list, dirs + {pd}, list') && WalksKept(m1, m2, dirs + {pd})
    requires PlainUntouched(m2, m', pmm, dirs + {pd}, list', dirs + {pd}, list') && WalksKept(m2, m', dirs + {pd})
    ensures WalksKept(m, m', dirs) && PlainUntouched(m, m', pmm, dirs, list, dirs + {pd}, list')
    ensures SpaceThere(m, m', pmm, dirs + {pd}, list', pd, elf, pages) && pd !in dirs
  {
    hide ProcsOk, SpacesOk, PlainUntouched, WalksKept, MachineOk, PagingOk, DataKept, Phdr, Word, DataPage, Walk,
         SpaceMade, SegmentsOf, Loads, SpaceThere;
    MadeKeeps(m, m1, pmm, dirs, pd, elf, pages, list);
    WalksKeptTrans(m1, m2, m', dirs + {pd});
    WalksKeptWithin(m, m1, m', dirs, dirs + {pd});
    UntouchedTrans(m1, m2, m', pmm, dirs + {pd}, list, dirs + {pd}, list', dirs + {pd}, list');
    UntouchedTrans(m, m1, m', pmm, dirs, list, dirs + {pd}, list, dirs + {pd}, list');
    SegmentsLoaded(m, m1, pmm, dirs, pd, elf, pages);
    SegmentsFit(m, elf, len, pages.segs);
    SpaceStaysThere(m, m1, m', pmm, head, list, live, dirs, pd, elf, pages, list');
  }

  lemma SegmentsLoaded(m: Mem, m': Mem, pmm: PMM, dirs: set<int>, pd: int, elf: int, pages: Pages)
    requires SpaceMade(m, m', pmm, dirs, pd, elf, pages)
    ensures pages.segs.Keys == SegmentsOf(m, elf)
  {
  }

  lemma SegmentsFit(m: Mem, elf: int, len: nat, segs: map<nat, int>)
    requires ImageOk(m, elf, len) && segs.Keys == SegmentsOf(m, elf)
    ensures forall k: nat :: k in segs ==> VAddr(m, Phdr(m, elf, k)) % PAGE + FileSize(m, Phdr(m, elf, k)) <= PAGE
  {
    hide Phdr, Word, PhNum;
    forall k: nat | k in segs ensures VAddr(m, Phdr(m, elf, k)) % PAGE + FileSize(m, Phdr(m, elf, k)) <= PAGE {
      assert SegmentFits(m, elf, len, k);
    }
  }
}
