/** The address space of a new process: the first half of create_process in src/userland/process.cpp. */
module Creation {
  import opened Memory
  import opened Bitmaps
  import opened Frames
  import opened Paging
  import opened Spaces
  import opened Loader

  const STACK: nat := 0xbfff_0000

  /** The kernel's directory has no entry for the stack or for a segment to load, and no segment is on the stack's
      page. */
  ghost predicate UserAreaFree(m: Mem, kernel: int, elf: int) {
    && !Present(Pde(m, kernel, PdIdx(STACK))) && NoSegmentAt(m, elf, STACK)
    && forall k: nat :: k < PhNum(m, elf) && Loads(m, Phdr(m, elf, k)) ==>
         !Present(Pde(m, kernel, PdIdx(VAddr(m, Phdr(m, elf, k)))))
  }

  /** The segments load will put in place: none when the image is refused. */
  ghost function SegmentsOf(m: Mem, elf: int): set<nat> {
    set k: nat | 0 <= k < PhNum(m, elf) && Magic(m, elf) && Loads(m, Phdr(m, elf, k))
  }

  /** The entry point create_process finds in the Elf32 object after load. */
  function EntryAfter(m: Mem, elf: int, before: nat): (e: nat)
    ensures before < TWO32 ==> e < TWO32
  {
    if Magic(m, elf) then EntryPoint(m, elf) else before
  }

  lemma EntryIs(m: Mem, elf: int, before: nat)
    ensures Magic(m, elf) ==> EntryAfter(m, elf, before) == EntryPoint(m, elf)
  {
  }

  /** The pages taken for a process: its user stack, its kernel stack, and one for each segment. */
  datatype Pages = Pages(stack: int, kstack: int, segs: map<nat, int>)

  /** Everything the new address space promises: fresh pages for the stacks and each segment, the user's ones found
      through pd; no earlier directory, and no earlier data page, was touched. */
  ghost predicate SpaceMade(m: Mem, m': Mem, pmm: PMM, dirs: set<int>, pd: int, elf: int, pages: Pages) {
    var dirs' := dirs + {pd};
    var segs := pages.segs;
    && pd !in dirs && PagingOk(m', pmm, dirs') && DataKept(m, m', pmm, dirs, dirs') && WalksKept(m, m', dirs)
    && StacksMade(m, m', pmm, dirs', pd, pages.stack, pages.kstack)
    && (NoSegmentAt(m, elf, STACK + 0x1000) ==> SecondPage(m', pd, pages.stack))
    && segs.Keys == SegmentsOf(m, elf)
    && (forall k: nat :: k in segs ==>
          SegmentThere(m, m', pmm, dirs', pd, elf, k, segs[k]) && segs[k] != pages.stack && segs[k] != pages.kstack)
    && Open(m', pd, STACK) && (forall k: nat :: k in segs ==> Open(m', pd, VAddr(m, Phdr(m, elf, k))))
    && (forall k: nat, l: nat :: k in segs && l in segs && segs[k] == segs[l] ==> k == l)
  }

  /** Two fresh pages, the first one at the top of the user stack.  The kernel's stack is the page right behind the
      user's exactly when that frame was free. */
  ghost predicate StacksMade(m: Mem, m': Mem, pmm: PMM, dirs': set<int>, pd: int, stack: int, kstack: int) {
    && FrameOf(stack) in pmm.Free(m) && DataPage(m', pmm, dirs', stack)
    && FrameOf(kstack) in pmm.Free(m) && DataPage(m', pmm, dirs', kstack) && kstack != stack
    && (kstack == stack + PAGE <==> FrameOf(stack) + 1 in pmm.Free(m))
    && Walk(m', pd, STACK) == Mapped(stack - KERNEL, 7)
  }

  /** The second page of the user stack, at 0xbfff1000, is the frame after the first, whoever has it. */
  ghost predicate SecondPage(m: Mem, pd: int, stack: int) {
    Walk(m, pd, STACK + 0x1000) == Mapped(stack - KERNEL + 0x1000, 7)
  }

  predicate NoSegmentAt(m: Mem, elf: int, v: nat) {
    forall k: nat :: k < PhNum(m, elf) && Loads(m, Phdr(m, elf, k)) ==> VAddr(m, Phdr(m, elf, k)) / PAGE != v / PAGE
  }

  /** create_process up to the loaded image: copy the kernel's directory, take frames, map the stack, make the copy
      the active directory, load. */
  method NewSpace(ram: array<byte>, pmm: PMM, kernelPd: nat, ghost dirs: set<int>, elf: Elf32, ghost len: nat)
    returns (pd: nat, kernelPtr: nat, cr3: nat, ghost pages: Pages)
    requires PagingOk(ram[..], pmm, dirs) && kernelPd in dirs
    requires ImageOk(ram[..], elf.elfHeader, len) && InData(ram[..], pmm, dirs, elf.elfHeader, len)
    requires UserAreaFree(ram[..], kernelPd, elf.elfHeader)
    requires |pmm.Free(ram[..])| >= 4 + 2 * PhNum(ram[..], elf.elfHeader)
    modifies ram, elf
    ensures SpaceMade(old(ram[..]), ram[..], pmm, dirs, pd, elf.elfHeader, pages)
    ensures elf.entryPoint == EntryAfter(old(ram[..]), elf.elfHeader, old(elf.entryPoint))
    ensures |pmm.Free(ram[..])| >= |pmm.Free(old(ram[..]))| - 4 - 2 * PhNum(old(ram[..]), elf.elfHeader)
    ensures kernelPtr + PAGE <= WINDOW && pages.kstack == KERNEL + kernelPtr && P2V(cr3) == pd
  {
    hide PagingOk, ImageOk, InData, UserAreaFree, SpaceMade, StackMade, LoadedUpTo, Magic, EntryPoint, PhNum, Word, P2V,
         V2P;
    ghost var m := ram[..];
    ghost var stack, kstack;
    NoStackEntry(m, kernelPd, elf.elfHeader);
    pd, kernelPtr, stack, kstack := StackSpace(ram, pmm, kernelPd, dirs);
    ghost var m5 := ram[..];
    ReadyToLoad(m, m5, pmm, dirs, kernelPd, pd, stack, kstack, elf.elfHeader, len);
    cr3 := V2P(pd);
    ghost var segs := elf.Load(ram, pmm, pd, cr3, dirs + {pd}, len);
    pages := Pages(stack, kstack, segs);
    SpaceLoaded(m, m5, ram[..], pmm, dirs, kernelPd, pd, elf.elfHeader, len, pages);
  }

  /** The address space before the image is loaded. */
  ghost predicate StackMade(m: Mem, m': Mem, pmm: PMM, dirs: set<int>, kernel: int, pd: int, stack: int, kstack: int) {
    var dirs' := dirs + {pd};
    && pd !in dirs && PagingOk(m', pmm, dirs') && DataKept(m, m', pmm, dirs, dirs') && WalksKept(m, m', dirs)
    && StacksMade(m, m', pmm, dirs', pd, stack, kstack) && SecondPage(m', pd, stack)
    && forall i :: 0 <= i < 1024 && !Present(Pde(m, kernel, i)) ==> Private(m', dirs', pd, i)
  }

  method StackSpace(ram: array<byte>, pmm: PMM, kernelPd: nat, ghost dirs: set<int>)
    returns (pd: nat, kernelPtr: nat, ghost stack: int, ghost kstack: int)
    requires PagingOk(ram[..], pmm, dirs) && kernelPd in dirs
    requires !Present(Pde(ram[..], kernelPd, PdIdx(STACK))) && |pmm.Free(ram[..])| >= 4
    modifies ram
    ensures StackMade(old(ram[..]), ram[..], pmm, dirs, kernelPd, pd, stack, kstack)
    ensures |pmm.Free(ram[..])| >= |pmm.Free(old(ram[..]))| - 4
    ensures kernelPtr + PAGE <= WINDOW && kstack == KERNEL + kernelPtr
  {
    hide PagingOk, Extended, Private, SameWalk, WalkUpdated, DataPage, DataKept, StackMade, OtherPagesKept, SameEntries,
         Pde, Decode, FrameOf, PMM.Free, WalksKept;
    ghost var m, dirs' := ram[..], dirs;
    pd := Copy(ram, pmm, kernelPd, dirs);
    dirs' := dirs + {pd};
    ghost var m1 := ram[..];
    CopyMade(m, m1, pmm, dirs, kernelPd, pd);
    var stackPtr;
    stackPtr, stack := TakeFrame(ram, pmm, dirs', pd);
    ghost var m2 := ram[..];
    ExtendedPaging(m1, m2, pmm, dirs', pd);
    kernelPtr, kstack := TakeFrame(ram, pmm, dirs', pd);
    ghost var m3 := ram[..];
    FramesInOrder(m, m1, m2, pmm, FrameOf(pd), stack, kstack);
    ExtendedTrans(m1, m2, m3, pmm, dirs', pd);
    PrivateNow(m1, m3, pmm, dirs', pd, PdIdx(STACK));
    MapPrivate(ram, pmm, pd, dirs', stackPtr, STACK);
    ghost var m4 := ram[..];
    ExtendedTrans(m1, m3, m4, pmm, dirs', pd);
    PrivateNow(m1, m4, pmm, dirs', pd, PdIdx(STACK));
    StackIndices();
    MapPrivate(ram, pmm, pd, dirs', stackPtr + 0x1000, STACK + 0x1000);
    ExtendedTrans(m1, m4, ram[..], pmm, dirs', pd);
    StackIsMade(m, m1, m2, m3, m4, ram[..], pmm, dirs, kernelPd, pd, stack, kstack);
  }

  /** The directory's frame comes before those of the stacks, and the stacks' frames follow each other when they can. */
  lemma FramesInOrder(m: Mem, m1: Mem, m2: Mem, pmm: PMM, k: int, stack: int, kstack: int)
    requires k in pmm.Free(m) && (forall j :: j in pmm.Free(m) ==> k <= j) && pmm.Free(m1) == pmm.Free(m) - {k}
    requires FrameOf(stack) in pmm.Free(m1) && (forall j :: j in pmm.Free(m1) ==> FrameOf(stack) <= j)
    requires pmm.Free(m2) == pmm.Free(m1) - {FrameOf(stack)}
    requires FrameOf(kstack) in pmm.Free(m2) && (forall j :: j in pmm.Free(m2) ==> FrameOf(kstack) <= j)
    requires stack == FrameBase(FrameOf(stack)) && kstack == FrameBase(FrameOf(kstack))
    ensures FrameOf(stack) in pmm.Free(m) && FrameOf(kstack) in pmm.Free(m) && kstack != stack
    ensures kstack == stack + PAGE <==> FrameOf(stack) + 1 in pmm.Free(m)
  {
    hide PMM.Free;
    if FrameOf(stack) + 1 in pmm.Free(m) {
      assert FrameOf(stack) + 1 in pmm.Free(m2);
    }
  }

  lemma StackIndices()
    ensures PdIdx(STACK) == PdIdx(STACK + 0x1000) && PtIdx(STACK) != PtIdx(STACK + 0x1000)
  {
  }

  lemma ExtendedPaging(m: Mem, m': Mem, pmm: PMM, dirs: set<int>, d: int)
    requires Extended(m, m', pmm, dirs, d)
    ensures PagingOk(m', pmm, dirs)
  {
  }

  lemma StackIsMade(m: Mem, m1: Mem, m2: Mem, m3: Mem, m4: Mem, m5: Mem, pmm: PMM, dirs: set<int>, kernel: int, pd: int,
                    stack: int, kstack: int)
    requires pd !in dirs && DataKept(m, m1, pmm, dirs, dirs + {pd}) && WalksKept(m, m1, dirs)
    requires forall i :: 0 <= i < 1024 && !Present(Pde(m, kernel, i)) ==> Private(m1, dirs + {pd}, pd, i)
    requires Extended(m1, m5, pmm, dirs + {pd}, pd) && Extended(m2, m3, pmm, dirs + {pd}, pd)
    requires Extended(m3, m4, pmm, dirs + {pd}, pd) && Extended(m4, m5, pmm, dirs + {pd}, pd)
    requires FrameOf(stack) in pmm.Free(m) && DataPage(m2, pmm, dirs + {pd}, stack)
    requires FrameOf(kstack) in pmm.Free(m) && DataPage(m3, pmm, dirs + {pd}, kstack) && kstack != stack
    requires kstack == stack + PAGE <==> FrameOf(stack) + 1 in pmm.Free(m)
    requires WalkUpdated(m3, pd, m4, pd, PdIdx(STACK), PtIdx(STACK), Mapped(stack - KERNEL, 7))
    requires WalkUpdated(m4, pd, m5, pd, PdIdx(STACK + 0x1000), PtIdx(STACK + 0x1000),
                         Mapped(stack - KERNEL + 0x1000, 7))
    ensures StackMade(m, m5, pmm, dirs, kernel, pd, stack, kstack)
  {
    hide PagingOk, DataPage, Private, Pde, WalkAt, PMM.Free, DirKept;
    StackIndices();
    DataKeptTrans(m, m1, m5, pmm, dirs, dirs + {pd}, dirs + {pd});
    MadeFromCopy(m, m1, m5, dirs, pd);
  }

  lemma MadeFromCopy(m: Mem, m1: Mem, m': Mem, dirs: set<int>, pd: int)
    requires WalksKept(m, m1, dirs) && OthersKept(m1, m', dirs + {pd}, pd) && pd !in dirs
    ensures WalksKept(m, m', dirs)
  {
  }

  lemma CopyMade(m: Mem, m': Mem, pmm: PMM, dirs: set<int>, d: int, n: int)
    requires PagingOk(m, pmm, dirs) && d in dirs && !Present(Pde(m, d, PdIdx(STACK)))
    requires FrameOf(n) in pmm.Free(m) && pmm.Used(m') == pmm.Used(m) + {FrameOf(n)}
    requires OtherPagesKept(m, m', pmm, n, n)
    requires forall e, i :: e in dirs && 0 <= i < 1024 ==> Pde(m', e, i) == Pde(m, e, i)
    requires forall e :: e in dirs ==> SameWalk(m, e, m', e)
    requires forall i :: 0 <= i < 1024 ==> Pde(m', n, i) == Pde(m, d, i)
    ensures DataKept(m, m', pmm, dirs, dirs + {n}) && WalksKept(m, m', dirs)
    ensures |pmm.Free(m')| >= |pmm.Free(m)| - 1 && pmm.Free(m') == pmm.Free(m) - {FrameOf(n)}
    ensures forall i :: 0 <= i < 1024 && !Present(Pde(m, d, i)) ==> Private(m', dirs + {n}, n, i)
    ensures Private(m', dirs + {n}, n, PdIdx(STACK))
  {
    hide PagingOk, DataKept, SameWalk, OtherPagesKept, Private, Pde;
    assert SameEntries(m, m', dirs);
    CopyKeepsData(m, m', pmm, dirs, d, n);
    forall i | 0 <= i < 1024 && !Present(Pde(m, d, i)) ensures Private(m', dirs + {n}, n, i) {
      AbsentIsPrivate(m, m', dirs + {n}, d, n, i);
    }
  }

  // -------- before and after loading --------

  lemma NoStackEntry(m: Mem, kernel: int, elf: int)
    requires UserAreaFree(m, kernel, elf)
    ensures !Present(Pde(m, kernel, PdIdx(STACK)))
  {
  }

  lemma ReadyToLoad(m: Mem, m5: Mem, pmm: PMM, dirs: set<int>, kernel: int, pd: int, stack: int, kstack: int, elf: int,
                    len: nat)
    requires StackMade(m, m5, pmm, dirs, kernel, pd, stack, kstack) && UserAreaFree(m, kernel, elf)
    requires ImageOk(m, elf, len) && InData(m, pmm, dirs, elf, len)
    ensures PagingOk(m5, pmm, dirs + {pd}) && ImageOk(m5, elf, len) && InData(m5, pmm, dirs + {pd}, elf, len)
    ensures PrivateSegments(m5, dirs + {pd}, pd, elf) && PhNum(m5, elf) == PhNum(m, elf)
    ensures Magic(m5, elf) == Magic(m, elf) && EntryPoint(m5, elf) == EntryPoint(m, elf) && P2V(V2P(pd)) == pd
  {
    hide PagingOk, DataKept, WalksKept, DataPage, Private, Pde, InData, ImageOk, Phdr, Word, Loads, P2V, V2P, Held;
    ImageStays(m, m5, pmm, dirs, dirs + {pd}, elf, len);
    ImageOkStays(m, m5, elf, len);
    DirectoryPage(m5, pmm, dirs + {pd}, pd);
    P2VInvertsV2P(pd);
  }

  lemma SpaceLoaded(m: Mem, m5: Mem, m': Mem, pmm: PMM, dirs: set<int>, kernel: int, pd: int, elf: int, len: nat,
                    pages: Pages)
    requires StackMade(m, m5, pmm, dirs, kernel, pd, pages.stack, pages.kstack) && UserAreaFree(m, kernel, elf)
    requires ImageOk(m, elf, len) && InData(m, pmm, dirs, elf, len) && Magic(m5, elf) == Magic(m, elf)
    requires !Magic(m5, elf) ==> m' == m5 && pages.segs == map[]
    requires Magic(m5, elf) ==> LoadedUpTo(m5, m', pmm, dirs + {pd}, pd, elf, PhNum(m5, elf), pages.segs)
    ensures SpaceMade(m, m', pmm, dirs, pd, elf, pages)
  {
    if Magic(m5, elf) {
      SpaceWithImage(m, m5, m', pmm, dirs, kernel, pd, elf, len, pages);
    } else {
      PrivateIsOpen(m5, dirs + {pd}, pd, STACK);
    }
  }

  lemma SpaceWithImage(m: Mem, m5: Mem, m': Mem, pmm: PMM, dirs: set<int>, kernel: int, pd: int, elf: int, len: nat,
                       pages: Pages)
    requires StackMade(m, m5, pmm, dirs, kernel, pd, pages.stack, pages.kstack) && UserAreaFree(m, kernel, elf)
    requires ImageOk(m, elf, len) && InData(m, pmm, dirs, elf, len) && Magic(m, elf)
    requires LoadedUpTo(m5, m', pmm, dirs + {pd}, pd, elf, PhNum(m5, elf), pages.segs)
    ensures SpaceMade(m, m', pmm, dirs, pd, elf, pages)
  {
    hide PagingOk, DataPage, Private, Pde, InData, ImageOk, Phdr, Word, Loads, WalkAt, Byte, Magic, SegmentPage,
         PrivacyKept, PhNum, DirKept, PMM.Free;
    ImageStays(m, m5, pmm, dirs, dirs + {pd}, elf, len);
    ImageOkStays(m, m5, elf, len);
    DataKeptTrans(m, m5, m', pmm, dirs, dirs + {pd}, dirs + {pd});
    MadeFromCopy(m, m5, m', dirs, pd);
    NotOnPage(m, m5, elf, len, STACK);
    NotOnPage(m, m5, elf, len, STACK + 0x1000);
    forall k: nat | k in pages.segs
      ensures SegmentThere(m, m', pmm, dirs + {pd}, pd, elf, k, pages.segs[k])
      ensures pages.segs[k] != pages.stack && pages.segs[k] != pages.kstack
    {
      SegmentFromStart(m, m5, m', pmm, dirs, pd, elf, len, k, pages.segs[k], pages.stack);
      SegmentFromStart(m, m5, m', pmm, dirs, pd, elf, len, k, pages.segs[k], pages.kstack);
    }
    SpaceIsOpen(m, m5, m', pmm, dirs, kernel, pd, elf, len, pages);
  }

  /** User code may use the new pages: their directory entries were absent from the kernel's directory. */
  lemma SpaceIsOpen(m: Mem, m5: Mem, m': Mem, pmm: PMM, dirs: set<int>, kernel: int, pd: int, elf: int, len: nat,
                    pages: Pages)
    requires StackMade(m, m5, pmm, dirs, kernel, pd, pages.stack, pages.kstack) && UserAreaFree(m, kernel, elf)
    requires Extended(m5, m', pmm, dirs + {pd}, pd) && Walk(m', pd, STACK).Mapped?
    requires pages.segs.Keys == SegmentsOf(m, elf)
    requires forall k: nat :: k in pages.segs ==> SegmentThere(m, m', pmm, dirs + {pd}, pd, elf, k, pages.segs[k])
    ensures Open(m', pd, STACK) && forall k: nat :: k in pages.segs ==> Open(m', pd, VAddr(m, Phdr(m, elf, k)))
  {
    hide PagingOk, DataKept, OthersKept, DataPage, Private, Pde, Phdr, Loads, WalkAt, PMM.Free, WalksKept, Open;
    PrivateIsOpen(m', dirs + {pd}, pd, STACK);
    forall k: nat | k in pages.segs ensures Open(m', pd, VAddr(m, Phdr(m, elf, k))) {
      PrivateIsOpen(m', dirs + {pd}, pd, VAddr(m, Phdr(m, elf, k)));
    }
  }

  lemma NotOnPage(m: Mem, m5: Mem, elf: int, len: nat, v: nat)
    requires Same(m, m5, elf, elf + len) && ImageOk(m, elf, len) && v < TWO32
    requires PhNum(m5, elf) == PhNum(m, elf) && PhOff(m5, elf) == PhOff(m, elf)
    requires PhEntSize(m5, elf) == PhEntSize(m, elf)
    ensures NoSegmentAt(m, elf, v) ==> !SegmentPage(m5, elf, PhNum(m5, elf), PdIdx(v), PtIdx(v))
  {
    hide Phdr, Word, Loads, Byte, PhNum, PhOff, PhEntSize, ImageOk;
    if NoSegmentAt(m, elf, v) {
      ImageOkStays(m, m5, elf, len);
      forall k: nat | k < PhNum(m5, elf) && Loads(m5, Phdr(m5, elf, k))
        ensures !(PdIdx(VAddr(m5, Phdr(m5, elf, k))) == PdIdx(v) && PtIdx(VAddr(m5, Phdr(m5, elf, k))) == PtIdx(v))
      {
        SamePage(VAddr(m5, Phdr(m5, elf, k)), v);
      }
    }
  }

  lemma SegmentFromStart(m: Mem, m5: Mem, m': Mem, pmm: PMM, dirs: set<int>, pd: int, elf: int, len: nat, k: nat,
                         b: int, stack: int)
    requires Same(m, m5, elf, elf + len) && ImageOk(m, elf, len) && k < PhNum(m, elf) && Loads(m, Phdr(m, elf, k))
    requires PhNum(m5, elf) == PhNum(m, elf) && PhOff(m5, elf) == PhOff(m, elf)
    requires PhEntSize(m5, elf) == PhEntSize(m, elf)
    requires SegmentThere(m5, m', pmm, dirs + {pd}, pd, elf, k, b)
    requires pmm.Used(m) <= pmm.Used(m5) && DataPage(m5, pmm, dirs + {pd}, stack)
    ensures SegmentThere(m, m', pmm, dirs + {pd}, pd, elf, k, b) && b != stack
  {
    hide Phdr, Word, Byte, PhNum, PhOff, PhEntSize, WalkAt, IsTable;
    HeaderStays(m, m5, elf, len, k);
    var ph := Phdr(m, elf, k);
    var lo, src := b + VAddr(m, ph) % PAGE, elf + Offset(m, ph);
    forall a | lo <= a < lo + FileSize(m, ph) ensures Byte(m', a) == Byte(m, src + (a - lo)) {
      assert Byte(m', a) == Byte(m5, src + (a - lo));
      assert elf <= src + (a - lo) < elf + len;
    }
  }

  // -------- after the copy --------

  lemma CopyKeepsData(m: Mem, m': Mem, pmm: PMM, dirs: set<int>, d: int, n: int)
    requires PagingOk(m, pmm, dirs) && d in dirs
    requires FrameOf(n) in pmm.Free(m) && pmm.Used(m') == pmm.Used(m) + {FrameOf(n)}
    requires OtherPagesKept(m, m', pmm, n, n) && SameEntries(m, m', dirs)
    requires forall i :: 0 <= i < 1024 ==> Pde(m', n, i) == Pde(m, d, i)
    ensures DataKept(m, m', pmm, dirs, dirs + {n})
    ensures |pmm.Free(m')| >= |pmm.Free(m)| - 1 && pmm.Free(m') == pmm.Free(m) - {FrameOf(n)}
  {
    hide PagingOk, DataPage, SameEntries, Pde;
    forall c | DataPage(m, pmm, dirs, c) ensures DataPage(m', pmm, dirs + {n}, c) && Same(m, m', c, c + PAGE) {
      CopiedData(m, m', pmm, dirs, d, n, c);
    }
    FreeLosesOne(pmm, m, m', FrameOf(n));
  }

  /** An entry absent from the kernel's directory is absent from the copy, hence shared with nobody. */
  lemma AbsentIsPrivate(m: Mem, m': Mem, dirs: set<int>, d: int, n: int, i: int)
    requires 0 <= i < 1024 && !Present(Pde(m, d, i)) && Pde(m', n, i) == Pde(m, d, i)
    ensures Private(m', dirs, n, i)
  {
  }

  // -------- the image does not move --------

  lemma FieldsStay(m: Mem, m': Mem, elf: int, len: nat)
    requires Same(m, m', elf, elf + len) && 52 <= len
    ensures PhNum(m', elf) == PhNum(m, elf) && PhOff(m', elf) == PhOff(m, elf)
    ensures PhEntSize(m', elf) == PhEntSize(m, elf)
    ensures EntryPoint(m', elf) == EntryPoint(m, elf) && Magic(m', elf) == Magic(m, elf)
  {
  }

  /** The image reads the same after anything that keeps data pages. */
  lemma ImageStays(m: Mem, m': Mem, pmm: PMM, dirs: set<int>, dirs': set<int>, elf: int, len: nat)
    requires InData(m, pmm, dirs, elf, len) && DataKept(m, m', pmm, dirs, dirs') && ImageOk(m, elf, len)
    ensures InData(m', pmm, dirs', elf, len) && Same(m, m', elf, elf + len)
    ensures PhNum(m', elf) == PhNum(m, elf) && PhOff(m', elf) == PhOff(m, elf)
    ensures PhEntSize(m', elf) == PhEntSize(m, elf)
    ensures EntryPoint(m', elf) == EntryPoint(m, elf) && Magic(m', elf) == Magic(m, elf)
  {
    hide DataPage, Phdr;
    forall a | elf <= a < elf + len
      ensures Byte(m', a) == Byte(m, a) && DataPage(m', pmm, dirs', FrameBase(FrameOf(a)))
    {
      var c := FrameBase(FrameOf(a));
      assert DataPage(m, pmm, dirs, c) && c <= a < c + PAGE;
    }
    FieldsStay(m, m', elf, len);
  }

  lemma HeaderStays(m: Mem, m': Mem, elf: int, len: nat, i: nat)
    requires Same(m, m', elf, elf + len) && SegmentFits(m, elf, len, i)
    requires PhNum(m', elf) == PhNum(m, elf) && PhOff(m', elf) == PhOff(m, elf)
    requires PhEntSize(m', elf) == PhEntSize(m, elf)
    ensures var ph := Phdr(m, elf, i);
            && Phdr(m', elf, i) == ph && Loads(m', ph) == Loads(m, ph) && SegmentFits(m', elf, len, i)
            && Offset(m', ph) == Offset(m, ph) && VAddr(m', ph) == VAddr(m, ph) && FileSize(m', ph) == FileSize(m, ph)
  {
  }

  lemma ImageOkStays(m: Mem, m': Mem, elf: int, len: nat)
    requires Same(m, m', elf, elf + len) && ImageOk(m, elf, len)
    requires PhNum(m', elf) == PhNum(m, elf) && PhOff(m', elf) == PhOff(m, elf)
    requires PhEntSize(m', elf) == PhEntSize(m, elf)
    ensures ImageOk(m', elf, len)
    ensures forall i: nat :: i < PhNum(m, elf) ==>
              var ph := Phdr(m, elf, i);
              && Phdr(m', elf, i) == ph && Loads(m', ph) == Loads(m, ph)
              && Offset(m', ph) == Offset(m, ph) && VAddr(m', ph) == VAddr(m, ph) && FileSize(m', ph) == FileSize(m, ph)
  {
    hide SegmentFits, Phdr, Loads, PhNum, PhOff, PhEntSize, Offset, VAddr, FileSize, Byte;
    forall i: nat | i < PhNum(m, elf)
      ensures SegmentFits(m', elf, len, i)
      ensures var ph := Phdr(m, elf, i);
              && Phdr(m', elf, i) == ph && Loads(m', ph) == Loads(m, ph)
              && Offset(m', ph) == Offset(m, ph) && VAddr(m', ph) == VAddr(m, ph) && FileSize(m', ph) == FileSize(m, ph)
    {
      HeaderStays(m, m', elf, len, i);
    }
  }
}
