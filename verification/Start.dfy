/** A machine the runs of module SystemRuns can start on, built step by step, and one such run: the assumptions of
    the theorems can be met. */
module Starts {
  import opened Memory
  import opened Bitmaps
  import opened Frames
  import opened Layout
  import opened Buckets
  import opened Heaps
  import opened Kmallocs
  import opened Paging
  import opened Spaces
  import opened Loader
  import opened Elves
  import opened Machines
  import opened Scheduler
  import opened Records
  import opened Creation
  import opened Joining
  import opened Processes
  import opened Isolation
  import opened SystemRuns
  import opened Traces
  import HeapRuns

  // -------- an image in memory, byte by byte --------

  /** A program that can be loaded: its image fits a block of the heap, its segments fit one page each, below the
      kernel and off the stack's page. */
  ghost predicate Runnable(p: Program) {
    && ProgramOk(p) && |Image(p)| <= FRAME_ROOM && OnePageEach(p.segments)
    && forall s :: s in p.segments && Loadable(s) ==> s.vaddr < 0xc000_0000 && s.vaddr / 0x1000 != 0xbfff0
  }

  /** A program of two segments to load, with a note between them. */
  function Sample(): Program {
    var zeros: seq<byte> := [0, 0, 0, 0, 0, 0, 0, 0, 0, 0, 0, 0, 0, 0, 0, 0, 0, 0, 0, 0];
    var code := Segment(1, 0x804_8000, 0x804_8000, [0xeb, 0xfe], zeros[..12], [0, 0]);
    var note := Segment(4, 0, 0, [1, 2, 3, 4], zeros[..12], []);
    var data := Segment(1, 0x804_9010, 0x804_9010, [5, 6, 7], zeros[..12], []);
    Program(0x804_8000, [code, note, data], zeros, zeros[..8], zeros[..6])
  }

  lemma SampleIsRunnable()
    ensures Runnable(Sample())
  {
    hide Image, Data;
    var p := Sample();
    SampleData(p.segments);
    ImageLength(p);
  }

  lemma SampleData(segments: seq<Segment>)
    requires segments == Sample().segments
    ensures |Data(segments)| == 11
  {
    var code, note, data := segments[0], segments[1], segments[2];
    assert segments[1..] == [note, data] && segments[1..][1..] == [data] && segments[1..][1..][1..] == [];
    assert Data(segments[1..][1..]) == data.data + data.pad + [];
    assert Data(segments[1..]) == note.data + note.pad + Data(segments[1..][1..]);
    assert Data(segments) == code.data + code.pad + Data(segments[1..]);
  }

  lemma ImageLength(p: Program)
    requires |p.ident| == 20 && |p.middle| == 8 && |p.tail| == 6 && forall s :: s in p.segments ==> SegmentOk(s)
    ensures |Image(p)| == 52 + 32 * |p.segments| + |Data(p.segments)|
  {
    hide Four, Two, Headers, Data;
    HeadersLength(p.segments, 52 + 32 * |p.segments|);
  }

  /** The first n bytes of the image are at q. */
  ghost predicate ImageAt(m: Mem, q: int, image: seq<byte>, n: nat) {
    n <= |image| && forall k: nat :: k < n ==> Byte(m, q + k) == image[k]
  }

  lemma ImageGood(s: Shot, q: int, p: Program)
    requires ImageAt(s.m, q, Image(p), |Image(p)|) && Runnable(p) && q in s.live && |Image(p)| <= SizeOf(s.m, q)
    ensures Written(s.m, q, p) && ImageReady(s, q, |Image(p)|) && PhNum(s.m, q) == |p.segments|
  {
    hide Image, SizeOf, ImageReady, OnePageEach, Loadable, PhNum;
    WrittenIsReady(s, q, p, q);
  }

  // -------- the machine --------

  /** The machine so far: heap, paging, and a kernel directory without an entry below the kernel. */
  ghost predicate Ready(m: Mem, pmm: PMM, head: int, list: seq<int>, live: set<int>, d: int, free: nat) {
    MachineOk(m, pmm, head, list, live, {d}) && KernelClear(m, d) && |pmm.Free(m)| >= free
  }

  lemma FreshReady(n: nat)
    requires 2 <= n <= 8 * PAGE
    ensures Ready(FreshMemory(n), FreshPmm(n), 0, [], {}, KERNEL + PAGE, n - 2)
    ensures |FreshMemory(n)| == PAGE * n
  {
    hide FreshMemory, MachineOk, Pde;
    FreshMachine(n);
    FreshByte(n);
    var m, d := FreshMemory(n), KERNEL + PAGE;
    forall i | 0 <= i < 768 ensures !Present(Pde(m, d, i)) {
      FreshEntry(n, i);
    }
  }

  /** A step of the heap that takes at most k frames. */
  lemma HeapReady(m: Mem, m': Mem, pmm: PMM, head: int, list: seq<int>, live: set<int>, d: int, free: nat,
                  head': int, list': seq<int>, live': set<int>, f: int)
    requires Ready(m, pmm, head, list, live, d, free) && HeapOk(m', pmm, head', list', live')
    requires ForeignKept(m, m', pmm, list, list')
    requires pmm.Used(m') == pmm.Used(m) || (pmm.Used(m') == pmm.Used(m) + {f} && free > 0)
    ensures Ready(m', pmm, head', list', live', d, if free > 0 then free - 1 else 0)
    ensures pmm.Used(m') == pmm.Used(m) ==> Ready(m', pmm, head', list', live', d, free)
  {
    hide HeapOk, MachineOk, ForeignKept, Pde, WalksKept, PlainUntouched, PMM.Used, PMM.Free;
    HeapStepSpaces(m, m', pmm, head, list, live, {d}, head', list', live');
    if pmm.Used(m') == pmm.Used(m) {
      FreeKept(pmm, m, m');
    } else {
      FreeLosesOne(pmm, m, m', f);
    }
  }

  /** The image in a block of a new heap. */
  method LoadImage(heap: Kmalloc, image: seq<byte>, ghost d: int, ghost free: nat) returns (elf: nat)
    requires heap.Valid() && free > 0 && heap.list == [] && |image| <= FRAME_ROOM
    requires Ready(heap.ram[..], heap.pmm, heap.buckets, heap.list, heap.live, d, free)
    modifies heap, heap.ram
    ensures heap.Valid() && Ready(heap.ram[..], heap.pmm, heap.buckets, heap.list, heap.live, d, free - 1)
    ensures elf in heap.live && |image| <= SizeOf(heap.ram[..], elf) && ImageAt(heap.ram[..], elf, image, |image|)
  {
    hide HeapOk, Ready, Taking, ForeignKept, RoomOk, Room, FirstFit, SomeRoom, SizeOf, ImageAt, FrameOf,
         PMM.Used, PMM.Free;
    ghost var m := heap.ram[..];
    ReadyFree(m, heap.pmm, heap.buckets, heap.list, heap.live, d, free);
    elf := heap.Malloc(|image|);
    ghost var m1 := heap.ram[..];
    TakenBlock(m, m1, heap.pmm, old(heap.live), heap.live, heap.buckets, heap.list, elf, Room(elf, ClassOf(|image|)));
    RoomFor(elf, |image|);
    HeapReady(m, m1, heap.pmm, old(heap.buckets), old(heap.list), old(heap.live), d, free, heap.buckets, heap.list,
              heap.live, FrameOf(PageBegin(elf)));
    ImageStarts(m1, elf, image);
    for i := 0 to |image|
      invariant heap.Valid() && Ready(heap.ram[..], heap.pmm, heap.buckets, heap.list, heap.live, d, free - 1)
      invariant elf in heap.live && |image| <= SizeOf(heap.ram[..], elf) && ImageAt(heap.ram[..], elf, image, i)
    {
      ghost var m2 := heap.ram[..];
      heap.Store(elf, i, image[i]);
      HeapReady(m2, heap.ram[..], heap.pmm, heap.buckets, heap.list, heap.live, d, free - 1, heap.buckets, heap.list,
                heap.live, 0);
      ImageGrows(m2, heap.ram[..], heap.live, elf, image, i);
    }
  }

  lemma ReadyFree(m: Mem, pmm: PMM, head: int, list: seq<int>, live: set<int>, d: int, free: nat)
    requires Ready(m, pmm, head, list, live, d, free) && free > 0
    ensures pmm.Free(m) != {}
  {
  }

  lemma ImageStarts(m: Mem, q: int, image: seq<byte>)
    ensures ImageAt(m, q, image, 0)
  {
  }

  lemma ImageGrows(m: Mem, m': Mem, live: set<int>, q: int, image: seq<byte>, i: nat)
    requires ImageAt(m, q, image, i) && q in live && i < |image| <= SizeOf(m, q)
    requires Blocks(m', live) == Blocks(m, live)[q := Put(Block(m, q), i, image[i])]
    ensures ImageAt(m', q, image, i + 1) && |image| <= SizeOf(m', q)
  {
    hide SizeOf;
    assert Blocks(m', live)[q] == Put(Block(m, q), i, image[i]);
    assert |Block(m', q)| == |Block(m, q)|;
    forall k: nat | k < i + 1 ensures Byte(m', q + k) == image[k] {
      assert Block(m', q)[k] == if k == i then image[i] else Block(m, q)[k];
    }
  }

  lemma FreshByte(n: nat)
    ensures |FreshMemory(n)| == PAGE * n
    ensures forall i :: 0 <= i < PAGE * n ==> FreshMemory(n)[i] == if i == 0 then 3 else 0
  {
  }

  lemma ReadyHeap(m: Mem, pmm: PMM, head: int, list: seq<int>, live: set<int>, d: int, free: nat)
    requires Ready(m, pmm, head, list, live, d, free)
    ensures MachineOk(m, pmm, head, list, live, {d}) && pmm.Valid(m) && KernelClear(m, d) && |pmm.Free(m)| >= free
  {
  }

  lemma EmptyNow(m: Mem, pmm: PMM, head: int, live: set<int>)
    requires HeapOk(m, pmm, head, [], live)
    ensures head == 0 && live == {}
  {
    NothingLive(m, pmm, head, [], live);
  }

  lemma ClearStays(m: Mem, m': Mem, d: int)
    requires SameEntries(m, m', {d}) && KernelClear(m, d)
    ensures KernelClear(m', d)
  {
    hide Pde;
  }

  lemma ImageStays(m: Mem, m': Mem, q: int, image: seq<byte>, n: nat)
    requires BlockKept(m, m', q) && n <= SizeOf(m, q) && ImageAt(m, q, image, n)
    ensures n <= SizeOf(m', q) && ImageAt(m', q, image, n)
  {
    hide SizeOf;
  }

  lemma AreaPart(m: Mem, pmm: PMM, dirs: set<int>, list: seq<int>, b: int)
    requires PlainArea(m, pmm, dirs, list, b, PAGE)
    ensures PlainArea(m, pmm, dirs, list, b, STATE)
  {
    hide PlainPage;
  }

  /** A frame of its own for the interrupt frame. */
  method InterruptFrame(heap: Kmalloc, ghost d: int, ghost free: nat, ghost elf: int, ghost image: seq<byte>)
    returns (frame: nat)
    requires heap.Valid() && free > 0 && elf in heap.live
    requires Ready(heap.ram[..], heap.pmm, heap.buckets, heap.list, heap.live, d, free)
    requires |image| <= SizeOf(heap.ram[..], elf) && ImageAt(heap.ram[..], elf, image, |image|)
    modifies heap.ram
    ensures heap.Valid() && Ready(heap.ram[..], heap.pmm, heap.buckets, heap.list, heap.live, d, free - 1)
    ensures InRam(heap.ram.Length, frame, STATE) && PlainArea(heap.ram[..], heap.pmm, {d}, heap.list, frame, STATE)
    ensures |image| <= SizeOf(heap.ram[..], elf) && ImageAt(heap.ram[..], elf, image, |image|)
  {
    hide HeapOk, SizeOf, ImageAt, DataPage, PagingOk, KernelClear, SameEntries, HeapPagesOk, PlainArea, PMM.Free,
         OthersKept, PrivacyKept, DataKept, BlockKept;
    ghost var m := heap.ram[..];
    ReadyHeap(m, heap.pmm, heap.buckets, heap.list, heap.live, d, free);
    var physAddr; ghost var b;
    physAddr, b := TakeFrame(heap.ram, heap.pmm, {d}, d);
    frame := KERNEL + physAddr;
    HeapUntouched(m, heap.ram[..], heap.pmm, heap.buckets, heap.list, heap.live, {d}, {d});
    FreeIsNoBucket(m, heap.pmm, {d}, heap.list, b);
    PlainPageArea(heap.ram[..], heap.pmm, {d}, heap.list, b);
    AreaPart(heap.ram[..], heap.pmm, {d}, heap.list, b);
    ClearStays(m, heap.ram[..], d);
    ImageStays(m, heap.ram[..], elf, image, |image|);
    DataIsRam(heap.ram[..], heap.pmm, {d}, b);
  }

  /** n frames of fresh memory with a heap that holds the image, a frame for the interrupt frame, and no process:
      a run can start here. */
  method Boot(n: nat, p: Program) returns (sys: System, frame: nat, elf: nat)
    requires 4 <= n <= 8 * PAGE && Runnable(p)
    ensures sys.Valid() && sys.Abs() == Scheduler.Boot(sys.kernelPd)
    ensures fresh(sys) && fresh(sys.heap) && fresh(sys.ram)
    ensures Written(sys.ram[..], elf, p)
    ensures ImageReady(sys.Now(), elf, |Image(p)|) && PhNum(sys.ram[..], elf) == |p.segments|
    ensures forall actions :: StartsHere(sys.Now(), sys.pmm, actions) ==>
              CanRun(sys.Now(), sys.pmm, sys.kernelPd, actions, frame)
    ensures |sys.pmm.Free(sys.ram[..])| >= n - 4
  {
    hide HeapOk, Ready, SizeOf, ImageAt, KernelClear, MachineOk, FreshMemory, PlainArea, ImageReady, Need, ActionOk,
         PMM.Free, Image, OnePageEach, Written, PhNum;
    var ram := new byte[PAGE * n](i => if i == 0 then 3 else 0);
    FreshReady(n);
    assert ram[..] == FreshMemory(n) by {
      FreshByte(n);
    }
    var d := KERNEL + PAGE;
    ReadyHeap(ram[..], FreshPmm(n), 0, [], {}, d, n - 2);
    var heap := new Kmalloc(ram, FreshPmm(n));
    EmptyNow(ram[..], FreshPmm(n), heap.buckets, heap.live);
    elf := LoadImage(heap, Image(p), d, n - 2);
    frame := InterruptFrame(heap, d, n - 3, elf, Image(p));
    ReadyHeap(ram[..], heap.pmm, heap.buckets, heap.list, heap.live, d, n - 4);
    sys := new System(heap, d, {d});
    ImageGood(sys.Now(), elf, p);
  }

  ghost predicate StartsHere(s: Shot, pmm: PMM, actions: seq<Action>) {
    (forall a :: a in actions ==> ActionOk(s, a)) && |pmm.Free(s.m)| >= Need(s.m, actions)
  }

  // -------- a run --------

  /** Two processes from the same image of `len` bytes; after one tick the second one runs and stores x at v. */
  function TwoProcesses(elf: nat, len: nat, captured: Regs, v: nat, x: byte): seq<Action> {
    [NewProcess(elf, len), NewProcess(elf, len), StartTicks, Timer(captured), UserStore(v, x)]
  }

  lemma TwoStart(s: Shot, pmm: PMM, elf: nat, len: nat, captured: Regs, v: nat, x: byte)
    requires ImageReady(s, elf, len) && |captured| == STATE && |pmm.Free(s.m)| >= 10 + 4 * PhNum(s.m, elf)
    ensures StartsHere(s, pmm, TwoProcesses(elf, len, captured, v, x))
  {
    hide ImageReady, PhNum, PMM.Free;
    var actions := TwoProcesses(elf, len, captured, v, x);
    var rest := [StartTicks, Timer(captured), UserStore(v, x)];
    assert actions[1..] == [NewProcess(elf, len)] + rest && actions[1..][1..] == rest;
    assert rest[1..] == [Timer(captured), UserStore(v, x)] && rest[1..][1..] == [UserStore(v, x)];
    assert Need(s.m, rest[1..][1..]) == 0 && Need(s.m, rest) == 0;
    assert Need(s.m, actions[1..]) == 5 + 2 * PhNum(s.m, elf);
  }

  /** The first three actions: two processes are there, and switching is on. */
  lemma TwoThere(start: Mem, kernel: int, elf: nat, len: nat, captured: Regs, v: nat, x: byte,
                 trace: seq<Happened>)
    requires AllExplained(start, Scheduler.Boot(kernel), kernel, TwoProcesses(elf, len, captured, v, x), trace)
    ensures |trace| == 5
    ensures var s := Run(Scheduler.Boot(kernel), Events(trace[..3], kernel)); |s.procs| == 2 && s.cur == 0 && s.on
    ensures |Images(trace[..3])| == 2 && Images(trace[..3])[1].elf == elf
    ensures Memories(start, Scheduler.Boot(kernel), kernel, trace[..3]) ==
            [ImageBytes(start, elf), ImageBytes(start, elf)]
  {
    hide ImageBytes, Built, Events, Memories, Images, PageOf;
    var s, actions := Scheduler.Boot(kernel), TwoProcesses(elf, len, captured, v, x);
    NothingSoFar(start, s, kernel, trace);
    assert ExplainedAt(start, s, kernel, actions, trace, 0);
    OneMore(start, s, kernel, trace, 0);
    assert ExplainedAt(start, s, kernel, actions, trace, 1);
    OneMore(start, s, kernel, trace, 1);
    assert ExplainedAt(start, s, kernel, actions, trace, 2);
    OneMore(start, s, kernel, trace, 2);
  }

  /** The whole run: the second process is running when the store comes, and the address is in one of its pages. */
  lemma TwoHappen(start: Mem, kernel: int, elf: nat, len: nat, captured: Regs, v: nat, x: byte,
                 trace: seq<Happened>)
    requires SegmentOn(start, elf, v / PAGE) && v < TWO32
    requires AllExplained(start, Scheduler.Boot(kernel), kernel, TwoProcesses(elf, len, captured, v, x), trace)
    ensures |trace| == 5 && |Images(trace)| == 2
    ensures Memories(start, Scheduler.Boot(kernel), kernel, trace) ==
            [ImageBytes(start, elf), HeapRuns.WithByte(ImageBytes(start, elf), v, x)]
  {
    hide ImageBytes, SegmentOn, Built, Events, Memories, Images;
    var s, actions := Scheduler.Boot(kernel), TwoProcesses(elf, len, captured, v, x);
    TwoThere(start, kernel, elf, len, captured, v, x, trace);
    assert ExplainedAt(start, s, kernel, actions, trace, 3);
    OneMore(start, s, kernel, trace, 3);
    assert ExplainedAt(start, s, kernel, actions, trace, 4);
    OneMore(start, s, kernel, trace, 4);
    assert trace[..5] == trace;
  }

  lemma NothingSoFar(start: Mem, s: Sched, kernel: int, trace: seq<Happened>)
    requires s.Valid()
    ensures Run(s, Events(trace[..0], kernel)) == s && Images(trace[..0]) == []
    ensures Memories(start, s, kernel, trace[..0]) == []
  {
  }

  /** From fresh memory to two processes made from one image: when the second one has stored over a byte of a segment,
      the first one still reads what the image says. */
  method RunTwo(n: nat, captured: Regs, p: Program, k: nat, t: nat, x: byte) returns (sys: System)
    requires Runnable(p) && 14 + 4 * |p.segments| <= n <= 8 * PAGE && |captured| == STATE
    requires k < |p.segments| && Loadable(p.segments[k]) && t < |p.segments[k].data|
    ensures sys.Valid() && |sys.procs| == 2
    ensures var v := p.segments[k].vaddr + t;
            && UserByte(sys.ram[..], Pd(sys.ram[..], sys.procs[0]), v) == p.segments[k].data[t]
            && UserByte(sys.ram[..], Pd(sys.ram[..], sys.procs[1]), v) == x
  {
    hide ImageReady, CanRun, StartsHere, AllExplained, ImageBytes, Memories, Images, SystemOk, Word, UserByte, Written,
         PMM.Free, Followed, Image, OnePageEach, PhNum, SegmentOn, Loadable;
    var frame, elf;
    sys, frame, elf := Boot(n, p);
    ghost var start := sys.Now();
    var v, len := p.segments[k].vaddr + t, |Image(p)|;
    TwoStart(start, sys.pmm, elf, len, captured, v, x);
    ghost var trace, shots := Drive(sys, TwoProcesses(elf, len, captured, v, x), frame);
    ByteToStore(start.m, elf, p, k, t);
    TwoHappen(start.m, sys.kernelPd, elf, len, captured, v, x, trace);
    FollowedLast(shots, Scheduler.Boot(sys.kernelPd), sys.pmm, sys.kernelPd, frame, trace);
  }

  lemma ByteToStore(m: Mem, a: int, p: Program, k: nat, t: nat)
    requires Written(m, a, p) && OnePageEach(p.segments) && k < |p.segments| && Loadable(p.segments[k])
    requires t < |p.segments[k].data|
    ensures var v := p.segments[k].vaddr + t;
            && v < TWO32 && SegmentOn(m, a, v / PAGE)
            && v in ImageBytes(m, a) && ImageBytes(m, a)[v] == p.segments[k].data[t]
  {
    hide Written, Image, Loadable, ImageBytes, SegmentOn;
    var s, v := p.segments[k], p.segments[k].vaddr + t;
    assert s in p.segments;
    WrittenByte(m, a, p, k, t);
    SmallAddress(m, a, p, k, v);
    WrittenPages(m, a, p, v / 0x1000);
    assert s.vaddr / 0x1000 == v / 0x1000 == v / 0x1000 * 0x1000 / 0x1000;
  }

  /** What the last moment of a run says. */
  lemma FollowedLast(shots: seq<Shot>, s: Sched, pmm: PMM, kernel: int, frame: int, trace: seq<Happened>)
    requires s.Valid() && Followed(shots, s, pmm, kernel, frame, trace)
    ensures |shots| == |trace| + 1
    ensures var t, known := shots[|trace|], Memories(shots[0].m, s, kernel, trace);
            && |t.procs| == |known| == |t.spaces| == |Images(trace)|
            && forall j :: 0 <= j < |t.procs| ==> Remembers(t.m, Pd(t.m, t.procs[j]), t.spaces[j], known[j])
  {
    hide ShotOk, Memories, Images, Events, Pcbs, WalksKept, ClientsKept, PlainArea, Owns, OffFrame, Remembers, IsImage,
         Word;
    var n := |trace|;
    assert trace[..n] == trace && MomentAt(shots, s, pmm, kernel, frame, trace, n);
    var known := Memories(shots[0].m, s, kernel, trace);
    forall j | 0 <= j < |shots[n].procs|
      ensures Remembers(shots[n].m, Pd(shots[n].m, shots[n].procs[j]), shots[n].spaces[j], known[j])
    {
      assert ProcessOk(shots[0].m, shots[n].m, Pd(shots[n].m, shots[n].procs[j]), shots[n].spaces[j], Images(trace)[j],
                       known[j], frame);
    }
  }
}
