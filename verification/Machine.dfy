/** The heap and the address spaces together in one memory: buckets sit in data pages, so no step of the
    one disturbs the other. */
module Machines {
  import opened Memory
  import opened Bitmaps
  import opened Frames
  import opened Layout
  import opened Buckets
  import opened Heaps
  import opened Paging
  import opened Spaces

  ghost predicate HeapPagesOk(m: Mem, pmm: PMM, dirs: set<int>, list: seq<int>) {
    forall b :: b in list ==> DataPage(m, pmm, dirs, b)
  }

  ghost predicate MachineOk(m: Mem, pmm: PMM, head: int, list: seq<int>, live: set<int>, dirs: set<int>) {
    HeapOk(m, pmm, head, list, live) && PagingOk(m, pmm, dirs) && HeapPagesOk(m, pmm, dirs, list)
  }

  /** A data page that the heap does not use. */
  ghost predicate PlainPage(m: Mem, pmm: PMM, dirs: set<int>, list: seq<int>, c: int) {
    DataPage(m, pmm, dirs, c) && c !in list
  }

  /** Pages that hold neither directories, tables nor buckets stay such pages. */
  ghost predicate PlainKept(m: Mem, m': Mem, pmm: PMM, dirs: set<int>, list: seq<int>, dirs': set<int>,
                            list': seq<int>) {
    forall c :: PlainPage(m, pmm, dirs, list, c) ==> PlainPage(m', pmm, dirs', list', c)
  }

  /** They also keep their bytes. */
  ghost predicate PlainUntouched(m: Mem, m': Mem, pmm: PMM, dirs: set<int>, list: seq<int>, dirs': set<int>,
                                 list': seq<int>) {
    forall c :: PlainPage(m, pmm, dirs, list, c) ==> PlainPage(m', pmm, dirs', list', c) && Same(m, m', c, c + PAGE)
  }

  lemma UntouchedTrans(m: Mem, m1: Mem, m': Mem, pmm: PMM, dirs: set<int>, list: seq<int>, dirs1: set<int>,
                       list1: seq<int>, dirs': set<int>, list': seq<int>)
    requires PlainUntouched(m, m1, pmm, dirs, list, dirs1, list1)
    requires PlainUntouched(m1, m', pmm, dirs1, list1, dirs', list')
    ensures PlainUntouched(m, m', pmm, dirs, list, dirs', list')
  {
  }

  lemma UntouchedIsKept(m: Mem, m': Mem, pmm: PMM, dirs: set<int>, list: seq<int>, dirs': set<int>, list': seq<int>)
    requires PlainUntouched(m, m', pmm, dirs, list, dirs', list')
    ensures PlainKept(m, m', pmm, dirs, list, dirs', list')
  {
  }

  /** They keep their bytes except in the given range. */
  ghost predicate PlainOutside(m: Mem, m': Mem, pmm: PMM, dirs: set<int>, list: seq<int>, lo: int, size: nat) {
    && PlainKept(m, m', pmm, dirs, list, dirs, list)
    && forall a :: !(lo <= a < lo + size) && PlainPage(m, pmm, dirs, list, FrameBase(FrameOf(a))) ==>
         Byte(m', a) == Byte(m, a)
  }

  lemma OutsideRefl(m: Mem, pmm: PMM, dirs: set<int>, list: seq<int>, lo: int, size: nat)
    ensures PlainOutside(m, m, pmm, dirs, list, lo, size)
  {
  }

  lemma OutsideTrans(m: Mem, m1: Mem, m': Mem, pmm: PMM, dirs: set<int>, list: seq<int>, lo: int, size: nat)
    requires PlainUntouched(m, m1, pmm, dirs, list, dirs, list) && PlainOutside(m1, m', pmm, dirs, list, lo, size)
    ensures PlainOutside(m, m', pmm, dirs, list, lo, size)
  {
  }

  /** Every byte of the range lies in a plain page. */
  ghost predicate PlainArea(m: Mem, pmm: PMM, dirs: set<int>, list: seq<int>, lo: int, size: nat) {
    forall a :: lo <= a < lo + size ==> PlainPage(m, pmm, dirs, list, FrameBase(FrameOf(a)))
  }

  lemma PlainAreaKept(m: Mem, m': Mem, pmm: PMM, dirs: set<int>, list: seq<int>, dirs': set<int>, list': seq<int>,
                      lo: int, size: nat)
    requires PlainArea(m, pmm, dirs, list, lo, size) && PlainKept(m, m', pmm, dirs, list, dirs', list')
    ensures PlainArea(m', pmm, dirs', list', lo, size)
  {
  }

  lemma BucketUntouched(m: Mem, m': Mem, pmm: PMM, b: int)
    requires Placed(m, pmm, b) && |m'| == |m| && Same(m, m', b, b + PAGE) && FrameOf(b) in pmm.Used(m')
    ensures Placed(m', pmm, b) && Power(m', b) == Power(m, b) && Next(m', b) == Next(m, b)
    ensures forall i :: Taken(m', b, i) <==> Taken(m, b, i)
  {
    hide Word, Byte, Bitmap.Bits, SpareClear, FrameOf;
    assert Reserved(Power(m, b)) <= 4;
    BucketKept(m, m', b);
  }

  /** Whatever leaves the pages of the buckets alone leaves the heap as it was. */
  lemma BucketsUntouched(m: Mem, m': Mem, pmm: PMM, head: int, list: seq<int>, live: set<int>)
    requires HeapOk(m, pmm, head, list, live) && pmm.Valid(m') && |m'| == |m|
    requires forall b :: b in list ==> Same(m, m', b, b + PAGE) && FrameOf(b) in pmm.Used(m')
    ensures HeapOk(m', pmm, head, list, live)
    ensures forall q :: q in live ==> BlockKept(m, m', q)
  {
    hide Placed, Taken, BlockKept, IsSlot, Slot, Same;
    forall b | b in list
      ensures Placed(m', pmm, b) && Power(m', b) == Power(m, b) && Next(m', b) == Next(m, b)
      ensures forall i :: Taken(m', b, i) <==> Taken(m, b, i)
    {
      BucketUntouched(m, m', pmm, b);
    }
    ChainKept(m, m', head, list);
    forall q | q in live ensures BlockKept(m, m', q) {
      BlockUntouched(m, m', pmm, head, list, live, q);
    }
  }

  /** Paging work leaves the heap exactly as it was. */
  lemma HeapUntouched(m: Mem, m': Mem, pmm: PMM, head: int, list: seq<int>, live: set<int>, dirs: set<int>,
                      dirs': set<int>)
    requires MachineOk(m, pmm, head, list, live, dirs) && PagingOk(m', pmm, dirs') && DataKept(m, m', pmm, dirs, dirs')
    ensures MachineOk(m', pmm, head, list, live, dirs')
    ensures forall q :: q in live ==> BlockKept(m, m', q)
    ensures Blocks(m', live) == Blocks(m, live)
    ensures PlainUntouched(m, m', pmm, dirs, list, dirs', list)
  {
    hide HeapOk, BlockKept, Same, IsTable;
    BucketsUntouched(m, m', pmm, head, list, live);
    BlocksSame(m, m', live);
  }

  lemma BlockUntouched(m: Mem, m': Mem, pmm: PMM, head: int, list: seq<int>, live: set<int>, q: int)
    requires HeapOk(m, pmm, head, list, live) && q in live
    requires Power(m', PageBegin(q)) == Power(m, PageBegin(q)) && Same(m, m', PageBegin(q), PageBegin(q) + PAGE)
    ensures BlockKept(m, m', q)
  {
    hide HeapOk, Slot;
    BlockWithinPage(m, pmm, head, list, live, q);
  }

  lemma BlockWithinPage(m: Mem, pmm: PMM, head: int, list: seq<int>, live: set<int>, q: int)
    requires HeapOk(m, pmm, head, list, live) && q in live
    ensures PageBegin(q) in list && PageBegin(q) <= q && q + SizeOf(m, q) <= PageBegin(q) + PAGE
    ensures Placed(m, pmm, PageBegin(q))
  {
    var _ := BlockInFrame(m, pmm, head, list, live, q);
  }

  /** A step of the heap that releases no frame leaves every address space, and every plain page, as it was. */
  lemma HeapStepSpaces(m: Mem, m': Mem, pmm: PMM, head: int, list: seq<int>, live: set<int>, dirs: set<int>,
                       head': int, list': seq<int>, live': set<int>)
    requires MachineOk(m, pmm, head, list, live, dirs)
    requires HeapOk(m', pmm, head', list', live') && ForeignKept(m, m', pmm, list, list') && pmm.Used(m) <= pmm.Used(m')
    ensures MachineOk(m', pmm, head', list', live', dirs) && SameEntries(m, m', dirs)
    ensures WalksKept(m, m', dirs)
    ensures PlainUntouched(m, m', pmm, dirs, list, dirs, list')
  {
    hide IsTable, Placed, LiveOk, OneIndex, TableOk, WalkAt;
    forall c | Held(m, pmm, c) && c !in list
      ensures Held(m', pmm, c) && c !in list' && Same(m, m', c, c + PAGE)
    {
      assert Foreign(m, pmm, list, FrameOf(c));
    }
    forall b | b in dirs || IsTable(m, dirs, b) ensures Held(m, pmm, b) && b !in list {
      StructureHeld(m, pmm, dirs, b);
    }
    TranslationsKept(m, m', pmm, dirs);
    forall b | b in list' ensures DataPage(m', pmm, dirs, b) {
      PlacedHeld(m', pmm, b);
    }
  }

  lemma PlacedHeld(m: Mem, pmm: PMM, b: int)
    requires Placed(m, pmm, b)
    ensures Held(m, pmm, b)
  {
  }

  /** Stores into a live block. */
  lemma BlockStored(m: Mem, m': Mem, pmm: PMM, head: int, list: seq<int>, live: set<int>, dirs: set<int>, q: int)
    requires MachineOk(m, pmm, head, list, live, dirs) && q in live && SameOutside(m, m', q, q + SizeOf(m, q))
    ensures MachineOk(m', pmm, head, list, live, dirs) && SizeOf(m', q) == SizeOf(m, q)
    ensures forall r :: r in live && r != q ==> BlockKept(m, m', r)
    ensures WalksKept(m, m', dirs)
    ensures PlainUntouched(m, m', pmm, dirs, list, dirs, list) && pmm.Used(m') == pmm.Used(m)
    ensures SameEntries(m, m', dirs)
  {
    hide HeapOk, PagingOk, DataPage, SameWalk, SameEntries, BlockKept;
    WriteStep(m, m', pmm, head, list, live, q);
    BlockWithinPage(m, pmm, head, list, live, q);
    DataWritten(m, m', pmm, dirs, PageBegin(q));
    TranslationsKept(m, m', pmm, dirs);
  }

  /** Stores into plain pages, such as the interrupt frame on the kernel stack. */
  lemma PlainStored(m: Mem, m': Mem, pmm: PMM, head: int, list: seq<int>, live: set<int>, dirs: set<int>, lo: int,
                    size: nat)
    requires MachineOk(m, pmm, head, list, live, dirs) && SameOutside(m, m', lo, lo + size)
    requires PlainArea(m, pmm, dirs, list, lo, size)
    ensures MachineOk(m', pmm, head, list, live, dirs)
    ensures forall r :: r in live ==> BlockKept(m, m', r)
    ensures WalksKept(m, m', dirs)
    ensures PlainKept(m, m', pmm, dirs, list, dirs, list) && pmm.Used(m') == pmm.Used(m) && SameEntries(m, m', dirs)
  {
    hide HeapOk, BlockKept, SameWalk, OneIndex, TableOk, IsTable, SameEntries;
    PlainOffMap(m, m', pmm, dirs, list, lo, size);
    pmm.Frame(m, m');
    forall c | Held(m, pmm, c)
      ensures Held(m', pmm, c) && (!PlainPage(m, pmm, dirs, list, c) ==> Same(m, m', c, c + PAGE))
    {
      OffPage(m, m', pmm, dirs, list, lo, size, c);
    }
    forall b | b in dirs || IsTable(m, dirs, b) ensures Held(m, pmm, b) {
      StructureHeld(m, pmm, dirs, b);
    }
    TranslationsKept(m, m', pmm, dirs);
    BucketsUntouched(m, m', pmm, head, list, live);
  }

  lemma PlainOffMap(m: Mem, m': Mem, pmm: PMM, dirs: set<int>, list: seq<int>, lo: int, size: nat)
    requires SameOutside(m, m', lo, lo + size)
    requires PlainArea(m, pmm, dirs, list, lo, size)
    ensures Same(m, m', pmm.bm.ptr, pmm.bm.ptr + pmm.bm.size)
  {
    hide IsTable, Byte;
    forall a | pmm.bm.ptr <= a < pmm.bm.ptr + pmm.bm.size ensures Byte(m', a) == Byte(m, a) {
      var c := FrameBase(FrameOf(a));
      assert c <= a < c + PAGE && FrameOf(c) == FrameOf(a);
      assert lo <= a < lo + size ==> PlainPage(m, pmm, dirs, list, c);
    }
  }

  lemma OffPage(m: Mem, m': Mem, pmm: PMM, dirs: set<int>, list: seq<int>, lo: int, size: nat, c: int)
    requires SameOutside(m, m', lo, lo + size) && Held(m, pmm, c) && pmm.Used(m') == pmm.Used(m)
    requires PlainArea(m, pmm, dirs, list, lo, size)
    ensures Held(m', pmm, c)
    ensures !PlainPage(m, pmm, dirs, list, c) ==> Same(m, m', c, c + PAGE)
  {
    hide Byte, IsTable, PMM.Used, FrameOf, FrameBase;
    if !PlainPage(m, pmm, dirs, list, c) {
      forall a | c <= a < c + PAGE ensures Byte(m', a) == Byte(m, a) {
        PageOfByte(c, a);
      }
    }
  }

  // -------- where runs can start --------

  /** n frames of memory, all zero but for the marks of the first two: frame 0 holds the frame bitmap, frame 1
      the kernel's directory. */
  function FreshMemory(n: nat): Mem {
    seq<byte>(PAGE * n, i => if i == 0 then 3 else 0)
  }

  function FreshPmm(n: nat): PMM {
    PMM(n, Bitmap(KERNEL, (n + 7) / 8))
  }

  lemma FreshFrames(n: nat)
    requires 2 <= n <= 8 * PAGE
    ensures FreshPmm(n).Used(FreshMemory(n)) == {0, 1} && FreshPmm(n).Valid(FreshMemory(n))
    ensures FreshPmm(n).Free(FreshMemory(n)) == Interval(2, n) && |FreshMemory(n)| == PAGE * n
  {
    var m, bm := FreshMemory(n), FreshPmm(n).bm;
    forall i | 0 <= i < 8 * bm.size ensures bm.Has(m, i) <==> i == 0 || i == 1 {
      FreshBit(i % 8);
    }
  }

  lemma FreshBit(k: nat)
    requires k < 8
    ensures BitOf(3, k) <==> k < 2
    ensures !BitOf(0, k)
  {
    ZeroHasNoDigit(k);
    if k >= 2 {
      ZeroHasNoDigit(k - 2);
    }
  }

  /** The assumptions of the model can be met: an empty heap, and one directory that maps nothing. */
  lemma FreshMachine(n: nat)
    requires 2 <= n <= 8 * PAGE
    ensures MachineOk(FreshMemory(n), FreshPmm(n), 0, [], {}, {KERNEL + PAGE})
    ensures |FreshPmm(n).Free(FreshMemory(n))| == n - 2
  {
    hide FreshMemory, HeapOk, PagingOk, Pde, PMM.Valid, PMM.Used, PMM.Free;
    FreshFrames(n);
    var m, d := FreshMemory(n), KERNEL + PAGE;
    forall i | 0 <= i < 1024 ensures !Present(Pde(m, d, i)) {
      FreshEntry(n, i);
    }
    EmptyHeap(m, FreshPmm(n));
    EmptyDirectory(m, FreshPmm(n), d);
  }

  lemma EmptyHeap(m: Mem, pmm: PMM)
    requires pmm.Valid(m)
    ensures HeapOk(m, pmm, 0, [], {})
  {
  }

  lemma EmptyDirectory(m: Mem, pmm: PMM, d: int)
    requires pmm.Valid(m) && Held(m, pmm, d) && forall i :: 0 <= i < 1024 ==> !Present(Pde(m, d, i))
    ensures PagingOk(m, pmm, {d})
  {
  }

  lemma FreshEntry(n: nat, i: nat)
    requires n >= 2 && i < 1024
    ensures !Present(Pde(FreshMemory(n), KERNEL + PAGE, i)) && |FreshMemory(n)| == PAGE * n
  {
  }
}
