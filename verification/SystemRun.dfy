/** Whole runs of the system: processes are created from images in the heap, interrupts switch between them, and in
    between the running process stores where it likes in its own pages. */
module SystemRuns {
  import opened Memory
  import opened Bitmaps
  import opened Frames
  import opened Layout
  import opened Buckets
  import opened Heaps
  import opened Kmallocs
  import opened Paging
  import opened Spaces
  import opened Loader
  import opened Machines
  import opened Scheduler
  import opened Records
  import opened Creation
  import opened Joining
  import opened Processes
  import opened Isolation
  import HeapRuns

  // -------- the pages and bytes an image asks for --------

  /** The image a process was made from, and whether the second page of its stack is one of its own. */
  datatype Made = Made(elf: nat, second: bool)

  /** The pages of a process made like this: one or two for the stack, and those of the segments. */
  predicate PageOf(m: Mem, made: Made, n: nat) {
    n == STACK / PAGE || (made.second && n == STACK / PAGE + 1) || SegmentOn(m, made.elf, n)
  }

  predicate SegmentOn(m: Mem, elf: int, n: nat) {
    && Magic(m, elf)
    && exists k: nat :: k < PhNum(m, elf) && Loads(m, Phdr(m, elf, k)) && VAddr(m, Phdr(m, elf, k)) / PAGE == n
  }

  /** v is an address segment k puts a byte at. */
  ghost predicate InSegment(m: Mem, elf: int, k: nat, v: int) {
    var ph := Phdr(m, elf, k);
    k < PhNum(m, elf) && Loads(m, ph) && VAddr(m, ph) <= v < VAddr(m, ph) + FileSize(m, ph)
  }

  ghost predicate Loaded(m: Mem, elf: int, v: int) {
    Magic(m, elf) && exists k: nat :: InSegment(m, elf, k, v)
  }

  /** The byte segment k puts at v. */
  function SegmentAt(m: Mem, elf: int, k: nat, v: int): byte {
    var ph := Phdr(m, elf, k);
    Byte(m, elf + Offset(m, ph) + (v - VAddr(m, ph)))
  }

  ghost function LoadedByte(m: Mem, elf: int, v: int): byte
    requires Loaded(m, elf, v)
  {
    var k: nat :| InSegment(m, elf, k, v);
    SegmentAt(m, elf, k, v)
  }

  /** What a process finds in its memory at first. */
  ghost function ImageBytes(m: Mem, elf: int): map<nat, byte> {
    map v: nat | 0 <= v < TWO32 && Loaded(m, elf, v) :: LoadedByte(m, elf, v)
  }

  // -------- what is so at every moment of a run --------

  ghost predicate HasPage(space: Space, n: nat) {
    exists x :: x in space && x.0 == n
  }

  ghost predicate Owns(m: Mem, space: Space, made: Made) {
    forall n: nat :: HasPage(space, n) <==> PageOf(m, made, n)
  }

  /** No page of the space meets the interrupt frame. */
  ghost predicate OffFrame(space: Space, frame: int) {
    forall x :: x in space ==> frame + STATE <= x.1 || x.1 + PAGE <= frame
  }

  /** The process with directory pd reads these bytes in its pages. */
  ghost predicate Remembers(m: Mem, pd: int, space: Space, bytes: map<nat, byte>) {
    forall v :: v in bytes ==> v < TWO32 && InSpace(space, v) && UserByte(m, pd, v) == bytes[v]
  }

  /** What a process reads at every address in its pages. */
  ghost function UserMemory(m: Mem, pd: int, space: Space): map<nat, byte> {
    map v: nat | 0 <= v < TWO32 && InSpace(space, v) :: UserByte(m, pd, v)
  }

  /** The memories of all processes. */
  ghost function AllMemories(s: Shot): (ms: seq<map<nat, byte>>)
    ensures |ms| == |s.spaces|
  {
    seq(|s.spaces|, j requires 0 <= j < |s.spaces| => UserMemory(s.m, Pd(s.m, At(s.procs, j)), s.spaces[j]))
  }

  ghost predicate ProcessOk(start: Mem, m: Mem, pd: int, space: Space, made: Made, bytes: map<nat, byte>, frame: int) {
    OffFrame(space, frame) && Owns(start, space, made) && Remembers(m, pd, space, bytes)
  }

  /** The moment s of a run from `start`, where process j was made from images[j] and its memory holds known[j]. */
  ghost predicate InRun(start: Shot, s: Shot, pmm: PMM, kernel: int, frame: int, images: seq<Made>,
                        known: seq<map<nat, byte>>) {
    && ShotOk(s, pmm, kernel)
    && kernel in start.dirs && start.dirs <= s.dirs && WalksKept(start.m, s.m, start.dirs)
    && start.live <= s.live && ClientsKept(start.m, s.m, start.live, [])
    && (forall q :: q in start.live ==> q !in s.procs)
    && PlainArea(s.m, pmm, s.dirs, s.list, frame, STATE)
    && |images| == |known| == |s.procs| == |s.spaces| && (forall made :: made in images ==> IsImage(start, made.elf))
    && forall j :: 0 <= j < |s.procs| ==>
         ProcessOk(start.m, s.m, Pd(s.m, s.procs[j]), s.spaces[j], images[j], known[j], frame)
  }

  // -------- where a run can start --------

  /** The kernel's directory has no entry below the kernel. */
  ghost predicate KernelClear(m: Mem, kernel: int) {
    forall i :: 0 <= i < 768 ==> !Present(Pde(m, kernel, i))
  }

  /** The image lies in a heap block, and its segments are below the kernel and not on the stack's page. */
  ghost predicate ImageReady(start: Shot, elf: int, len: nat) {
    && ImageOk(start.m, elf, len) && NoSegmentAt(start.m, elf, STACK)
    && (forall k: nat :: k < PhNum(start.m, elf) && Loads(start.m, Phdr(start.m, elf, k)) ==>
          VAddr(start.m, Phdr(start.m, elf, k)) < KERNEL)
    && exists q :: q in start.live && q <= elf && elf + len <= q + SizeOf(start.m, q)
  }

  ghost predicate IsImage(start: Shot, elf: int) {
    exists len: nat :: ImageReady(start, elf, len)
  }

  /** At any moment of the run the image is still good for create_process. */
  lemma ImageNow(start: Shot, s: Shot, pmm: PMM, kernel: int, frame: int, images: seq<Made>,
                 known: seq<map<nat, byte>>, elf: int, len: nat)
    requires InRun(start, s, pmm, kernel, frame, images, known) && ImageReady(start, elf, len)
    requires KernelClear(start.m, kernel)
    ensures Same(start.m, s.m, elf, elf + len) && ImageOk(s.m, elf, len) && InData(s.m, pmm, s.dirs, elf, len)
    ensures UserAreaFree(s.m, kernel, elf) && PhNum(s.m, elf) == PhNum(start.m, elf)
    ensures Magic(s.m, elf) == Magic(start.m, elf) && EntryPoint(s.m, elf) == EntryPoint(start.m, elf)
  {
    hide ShotOk, ProcessOk, ImageOk, PlainArea, SizeOf, Phdr, Loads, Byte, PhNum, PhOff, PhEntSize, Magic, EntryPoint,
         Pde, UserAreaFree, InData, KernelClear;
    var q :| q in start.live && q <= elf && elf + len <= q + SizeOf(start.m, q);
    assert BlockKept(start.m, s.m, q);
    ImageLength(start.m, elf, len);
    FieldsStay(start.m, s.m, elf, len);
    ImageOkStays(start.m, s.m, elf, len);
    BlockInData(s, pmm, kernel, q, elf, len);
    assert DirKept(start.m, s.m, kernel);
    AreaStaysFree(start.m, s.m, kernel, elf, len);
  }

  lemma ImageLength(m: Mem, elf: int, len: nat)
    requires ImageOk(m, elf, len)
    ensures 52 <= len
  {
  }

  lemma BlockInData(s: Shot, pmm: PMM, kernel: int, q: int, lo: int, n: nat)
    requires ShotOk(s, pmm, kernel) && q in s.live && q <= lo && lo + n <= q + SizeOf(s.m, q)
    ensures InData(s.m, pmm, s.dirs, lo, n)
  {
    hide HeapOk, PagingOk, ProcsOk, SpacesOk, DataPage, SizeOf, FrameOf;
    BlockBounds(s.m, pmm, s.head, s.list, s.live, q);
    forall a | lo <= a < lo + n ensures FrameBase(FrameOf(a)) == PageBegin(q) {
      PageOfByte(PageBegin(q), a);
    }
  }

  lemma AreaStaysFree(m: Mem, m': Mem, kernel: int, elf: int, len: nat)
    requires KernelClear(m, kernel) && NoSegmentAt(m, elf, STACK) && DirKept(m, m', kernel)
    requires PhNum(m', elf) == PhNum(m, elf)
    requires forall k: nat :: k < PhNum(m, elf) && Loads(m, Phdr(m, elf, k)) ==> VAddr(m, Phdr(m, elf, k)) < KERNEL
    requires forall k: nat :: k < PhNum(m, elf) ==>
               var ph := Phdr(m, elf, k);
               Phdr(m', elf, k) == ph && Loads(m', ph) == Loads(m, ph) && VAddr(m', ph) == VAddr(m, ph)
    ensures UserAreaFree(m', kernel, elf)
  {
    hide Phdr, Loads, PhNum, Pde, SameWalk, VAddr;
    assert forall v: nat | v < KERNEL :: 0 <= PdIdx(v) < 768;
    assert forall k: nat | k < PhNum(m, elf) :: Phdr(m', elf, k) == Phdr(m, elf, k);
  }

  // -------- a process is created --------

  /** Program headers and what they ask for read the same at both moments. */
  ghost predicate SameHeaders(m: Mem, m': Mem, elf: int, len: nat) {
    && Same(m, m', elf, elf + len) && PhNum(m', elf) == PhNum(m, elf) && Magic(m', elf) == Magic(m, elf)
    && forall k: nat :: k < PhNum(m, elf) ==>
         var ph := Phdr(m, elf, k);
         && Phdr(m', elf, k) == ph && Loads(m', ph) == Loads(m, ph)
         && Offset(m', ph) == Offset(m, ph) && VAddr(m', ph) == VAddr(m, ph) && FileSize(m', ph) == FileSize(m, ph)
  }

  lemma HeadersNow(m: Mem, m': Mem, elf: int, len: nat)
    requires Same(m, m', elf, elf + len) && ImageOk(m, elf, len)
    ensures SameHeaders(m, m', elf, len)
  {
    hide ImageOk, Phdr, Loads, PhNum, PhOff, PhEntSize, Magic, EntryPoint, Byte, Offset, VAddr, FileSize;
    ImageLength(m, elf, len);
    FieldsStay(m, m', elf, len);
    ImageOkStays(m, m', elf, len);
  }

  ghost function MadeFrom(m: Mem, elf: nat, pages: Pages): Made {
    Made(elf, SecondOwn(m, elf, pages) != {})
  }

  lemma NewOwns(m: Mem, m': Mem, elf: nat, len: nat, pages: Pages)
    requires SameHeaders(m, m', elf, len) && pages.segs.Keys == SegmentsOf(m', elf)
    ensures Owns(m, UserPages(m', elf, pages), MadeFrom(m', elf, pages))
  {
    hide Phdr, Loads, PhNum, Magic, Byte, VAddr, Offset, FileSize, NoSegmentAt;
    var space, made := UserPages(m', elf, pages), MadeFrom(m', elf, pages);
    assert (STACK / PAGE, pages.stack) in space;
    forall n: nat | PageOf(m, made, n) && n != STACK / PAGE ensures HasPage(space, n) {
      if SegmentOn(m, elf, n) {
        var k: nat :| k < PhNum(m, elf) && Loads(m, Phdr(m, elf, k)) && VAddr(m, Phdr(m, elf, k)) / PAGE == n;
        assert k in pages.segs && (VAddr(m', Phdr(m', elf, k)) / PAGE, pages.segs[k]) in space;
      } else {
        assert (STACK / PAGE + 1, pages.kstack) in space;
      }
    }
    forall x | x in space ensures PageOf(m, made, x.0) {
      if x != (STACK / PAGE, pages.stack) && x !in SecondOwn(m', elf, pages) {
        var k :| k in pages.segs && x == (VAddr(m', Phdr(m', elf, k)) / PAGE, pages.segs[k]);
        assert k in SegmentsOf(m', elf) && Phdr(m', elf, k) == Phdr(m, elf, k);
      }
    }
  }

  lemma NewOffFrame(m: Mem, pmm: PMM, dirs: set<int>, list: seq<int>, space: Space, frame: int)
    requires PlainArea(m, pmm, dirs, list, frame, STATE)
    requires forall x :: x in space ==> FrameOf(x.1) in pmm.Free(m) && x.1 == FrameBase(FrameOf(x.1))
    ensures OffFrame(space, frame)
  {
    hide IsTable, Bitmap.Bits;
    forall x | x in space ensures frame + STATE <= x.1 || x.1 + PAGE <= frame {
      var a := if frame <= x.1 then x.1 else frame;
      assert x.1 <= a < x.1 + PAGE ==> FrameOf(a) == FrameOf(x.1);
      assert frame <= a < frame + STATE ==> PlainPage(m, pmm, dirs, list, FrameBase(FrameOf(a)));
    }
  }

  lemma NewRemembers(start: Mem, m: Mem, m': Mem, pmm: PMM, dirs: set<int>, list: seq<int>, pd: int, elf: nat,
                     len: nat, pages: Pages)
    requires SpaceThere(m, m', pmm, dirs, list, pd, elf, pages) && ImageOk(m, elf, len)
    requires SameHeaders(start, m, elf, len) && Owns(start, UserPages(m, elf, pages), MadeFrom(m, elf, pages))
    ensures Remembers(m', pd, UserPages(m, elf, pages), ImageBytes(start, elf))
  {
    hide SpaceThere, ImageOk, Phdr, Loads, PhNum, Magic, UserByte, Byte, UserPages, Owns, VAddr, Offset, FileSize;
    forall v | v in ImageBytes(start, elf)
      ensures InSpace(UserPages(m, elf, pages), v) && UserByte(m', pd, v) == LoadedByte(start, elf, v)
    {
      var k: nat :| InSegment(start, elf, k, v) && LoadedByte(start, elf, v) == SegmentAt(start, elf, k, v);
      SegmentByte(start, m, elf, len, k, v);
      CreatedReads(m, m', pmm, dirs, list, pd, elf, len, pages, k, v - VAddr(m, Phdr(m, elf, k)));
      OwnsPage(start, UserPages(m, elf, pages), MadeFrom(m, elf, pages), v / PAGE, v);
    }
  }

  lemma SegmentByte(start: Mem, m: Mem, elf: int, len: nat, k: nat, v: int)
    requires SameHeaders(start, m, elf, len) && ImageOk(m, elf, len) && InSegment(start, elf, k, v) && Magic(start, elf)
    ensures InSegment(m, elf, k, v) && Magic(m, elf) && Phdr(m, elf, k) == Phdr(start, elf, k)
    ensures VAddr(m, Phdr(m, elf, k)) == VAddr(start, Phdr(start, elf, k))
    ensures SegmentOn(start, elf, v / PAGE)
    ensures SegmentAt(m, elf, k, v) == SegmentAt(start, elf, k, v)
  {
    hide Phdr, Loads, PhNum, Magic, Byte;
    assert SegmentFits(m, elf, len, k);
    var ph := Phdr(m, elf, k);
    var a := elf + Offset(m, ph) + (v - VAddr(m, ph));
    assert elf <= a < elf + len;
    assert v / PAGE == VAddr(m, ph) / PAGE;
  }

  lemma OwnsPage(m: Mem, space: Space, made: Made, n: nat, v: nat)
    requires Owns(m, space, made) && n == v / PAGE
    ensures InSpace(space, v) <==> PageOf(m, made, n)
  {
  }

  /** Nothing of what another process remembers is lost. */
  lemma StillRemembers(m: Mem, m': Mem, pmm: PMM, dirs: set<int>, list: seq<int>, dirs': set<int>, list': seq<int>,
                       pd: int, space: Space, bytes: map<nat, byte>)
    requires SpaceOk(m, pmm, dirs, list, pd, space) && pd in dirs && Remembers(m, pd, space, bytes)
    requires PlainUntouched(m, m', pmm, dirs, list, dirs', list') && WalksKept(m, m', dirs)
    ensures Remembers(m', pd, space, bytes)
  {
    hide SpaceOk, InSpace, UserByte, PlainUntouched, WalksKept;
    forall v | v in bytes ensures UserByte(m', pd, v) == bytes[v] {
      StepKeepsMemory(m, m', pmm, dirs, list, dirs', list', pd, space, v);
    }
  }

  /** create_process keeps the run going, with one more process. */
  lemma RunSpawned(start: Shot, s: Shot, s': Shot, pmm: PMM, kernel: int, frame: int, images: seq<Made>,
                   known: seq<map<nat, byte>>, elf: nat, len: nat, p: int, pd: int, pages: Pages)
    requires InRun(start, s, pmm, kernel, frame, images, known) && ImageReady(start, elf, len)
    requires KernelClear(start.m, kernel)
    requires ShotOk(s', pmm, kernel) && s'.dirs == s.dirs + {pd} && s'.procs == s.procs + [p]
    requires ProcessAdded(s.m, s'.m, pmm, s.dirs, s.list, s.live, s.procs, s'.list, s'.live, p, pd, elf, pages)
    requires s'.spaces == s.spaces + [UserPages(s.m, elf, pages)]
    requires Pcbs(s'.m, s'.procs) == Pcbs(s.m, s.procs) + [PcbAt(s'.m, p)] && Pd(s'.m, p) == pd
    ensures InRun(start, s', pmm, kernel, frame, images + [MadeFrom(s.m, elf, pages)],
                  known + [ImageBytes(start.m, elf)])
  {
    hide ShotOk, SpaceThere, WalksKept, ClientsKept, PlainUntouched, PlainArea, ProcessOk, UserPages, ImageBytes, Word,
         StateAt, PMM.Free;
    WalksKeptWithin(start.m, s.m, s'.m, start.dirs, s.dirs);
    ClientsOfRun(start, s, s'.m);
    UntouchedIsKept(s.m, s'.m, pmm, s.dirs, s.list, s'.dirs, s'.list);
    PlainAreaKept(s.m, s'.m, pmm, s.dirs, s.list, s'.dirs, s'.list, frame, STATE);
    ShotSpace(s', pmm, kernel, |s.procs|);
    NewProcessOk(start, s, s', pmm, kernel, frame, images, known, elf, len, pd, pages);
    forall j | 0 <= j < |s.procs|
      ensures ProcessOk(start.m, s'.m, Pd(s'.m, s'.procs[j]), s'.spaces[j], images[j], known[j], frame)
    {
      assert PcbAt(s'.m, s'.procs[j]) == Pcbs(s'.m, s'.procs)[j] == Pcbs(s.m, s.procs)[j] == PcbAt(s.m, s.procs[j]);
      OldProcessOk(start, s, s'.m, pmm, kernel, frame, images, known, s'.dirs, s'.list, j);
    }
  }

  lemma ShotSpace(s: Shot, pmm: PMM, kernel: int, j: nat)
    requires ShotOk(s, pmm, kernel) && j < |s.procs|
    ensures |s.spaces| == |s.procs| && SpaceOk(s.m, pmm, s.dirs, s.list, Pd(s.m, s.procs[j]), s.spaces[j])
    ensures Pd(s.m, s.procs[j]) in s.dirs
  {
    hide MachineOk, SpaceOk, Word, SizeOf, Apart;
    assert RecordOk(s.m, s.live, s.dirs, kernel, s.procs[j]);
  }

  lemma ClientsOfRun(start: Shot, s: Shot, m': Mem)
    requires ClientsKept(start.m, s.m, start.live, []) && start.live <= s.live
    requires forall q :: q in start.live ==> q !in s.procs
    requires ClientsKept(s.m, m', s.live, s.procs)
    ensures ClientsKept(start.m, m', start.live, [])
  {
  }

  lemma OldProcessOk(start: Shot, s: Shot, m': Mem, pmm: PMM, kernel: int, frame: int, images: seq<Made>,
                     known: seq<map<nat, byte>>, dirs': set<int>, list': seq<int>, j: nat)
    requires InRun(start, s, pmm, kernel, frame, images, known) && j < |s.procs|
    requires PlainUntouched(s.m, m', pmm, s.dirs, s.list, dirs', list') && WalksKept(s.m, m', s.dirs)
    ensures ProcessOk(start.m, m', Pd(s.m, s.procs[j]), s.spaces[j], images[j], known[j], frame)
  {
    hide MachineOk, WalksKept, ClientsKept, PlainUntouched, PlainArea, OffFrame, Owns, Remembers, SpaceOk, Word, SizeOf;
    assert RecordOk(s.m, s.live, s.dirs, kernel, s.procs[j]);
    StillRemembers(s.m, m', pmm, s.dirs, s.list, dirs', list', Pd(s.m, s.procs[j]), s.spaces[j], known[j]);
  }

  lemma NewProcessOk(start: Shot, s: Shot, s': Shot, pmm: PMM, kernel: int, frame: int, images: seq<Made>,
                     known: seq<map<nat, byte>>, elf: nat, len: nat, pd: int, pages: Pages)
    requires InRun(start, s, pmm, kernel, frame, images, known) && ImageReady(start, elf, len)
    requires KernelClear(start.m, kernel)
    requires SpaceThere(s.m, s'.m, pmm, s'.dirs, s'.list, pd, elf, pages)
    requires SpaceOk(s'.m, pmm, s'.dirs, s'.list, pd, UserPages(s.m, elf, pages))
    ensures ProcessOk(start.m, s'.m, pd, UserPages(s.m, elf, pages), MadeFrom(s.m, elf, pages),
                      ImageBytes(start.m, elf), frame)
  {
    hide ShotOk, WalksKept, ClientsKept, PlainArea, OffFrame, Owns, Remembers, UserPages, ImageBytes, ImageOk, InData,
         UserAreaFree, PMM.Free, SameHeaders;
    ImageNow(start, s, pmm, kernel, frame, images, known, elf, len);
    HeadersNow(start.m, s.m, elf, len);
    NewOwns(start.m, s.m, elf, len, pages);
    NewRemembers(start.m, s.m, s'.m, pmm, s'.dirs, s'.list, pd, elf, len, pages);
    NewOffFrame(s.m, pmm, s.dirs, s.list, UserPages(s.m, elf, pages), frame);
  }

  // -------- what a process does not know --------

  /** What holds for the bytes the processes are known to have holds for all bytes in their pages. */
  lemma AllKnown(start: Shot, s: Shot, pmm: PMM, kernel: int, frame: int, images: seq<Made>, known: seq<map<nat, byte>>)
    requires InRun(start, s, pmm, kernel, frame, images, known)
    ensures InRun(start, s, pmm, kernel, frame, images, AllMemories(s))
  {
    hide ShotOk, WalksKept, ClientsKept, PlainArea, OffFrame, Owns, Word, IsImage, InSpace, UserByte;
    var all := AllMemories(s);
    forall j | 0 <= j < |s.procs|
      ensures ProcessOk(start.m, s.m, Pd(s.m, s.procs[j]), s.spaces[j], images[j], all[j], frame)
    {
      assert ProcessOk(start.m, s.m, Pd(s.m, s.procs[j]), s.spaces[j], images[j], known[j], frame);
    }
  }

  /** If that is all a later moment has for the same pages, it is what is in them then. */
  lemma AllStill(start: Shot, s: Shot, s': Shot, pmm: PMM, kernel: int, frame: int, images: seq<Made>,
                 known: seq<map<nat, byte>>)
    requires InRun(start, s', pmm, kernel, frame, images, known) && s.spaces <= s'.spaces
    requires forall j :: 0 <= j < |s.spaces| ==> known[j].Keys == AllMemories(s)[j].Keys
    ensures forall j :: 0 <= j < |s.spaces| ==> AllMemories(s')[j] == known[j]
  {
    hide ShotOk, WalksKept, ClientsKept, PlainArea, OffFrame, Owns, Word, IsImage, InSpace, UserByte;
    forall j | 0 <= j < |s.spaces| ensures AllMemories(s')[j] == known[j] {
      assert ProcessOk(start.m, s'.m, Pd(s'.m, s'.procs[j]), s'.spaces[j], images[j], known[j], frame);
      assert s'.spaces[j] == s.spaces[j];
    }
  }

  // -------- an interrupt, and a store --------

  /** A step that writes no plain page but the interrupt frame, and no directory. */
  lemma RunTicked(start: Shot, s: Shot, s': Shot, pmm: PMM, kernel: int, frame: int, images: seq<Made>,
                  known: seq<map<nat, byte>>)
    requires InRun(start, s, pmm, kernel, frame, images, known) && ShotOk(s', pmm, kernel)
    requires s' == s.(m := s'.m) && WalksKept(s.m, s'.m, s.dirs) && ClientsKept(s.m, s'.m, s.live, s.procs)
    requires PlainOutside(s.m, s'.m, pmm, s.dirs, s.list, frame, STATE)
    requires forall j :: 0 <= j < |s.procs| ==> Pd(s'.m, s.procs[j]) == Pd(s.m, s.procs[j])
    ensures InRun(start, s', pmm, kernel, frame, images, known)
  {
    hide ShotOk, WalksKept, ClientsKept, PlainArea, PlainKept, Word, IsImage, Owns, OffFrame, Remembers, SpaceOk;
    WalksKeptWithin(start.m, s.m, s'.m, start.dirs, s.dirs);
    ClientsOfRun(start, s, s'.m);
    PlainAreaKept(s.m, s'.m, pmm, s.dirs, s.list, s.dirs, s.list, frame, STATE);
    forall j | 0 <= j < |s.procs|
      ensures ProcessOk(start.m, s'.m, Pd(s'.m, s.procs[j]), s.spaces[j], images[j], known[j], frame)
    {
      ShotSpace(s, pmm, kernel, j);
      RemembersOutside(s.m, s'.m, pmm, s.dirs, s.list, Pd(s.m, s.procs[j]), s.spaces[j], known[j], frame);
    }
  }

  lemma RemembersOutside(m: Mem, m': Mem, pmm: PMM, dirs: set<int>, list: seq<int>, pd: int, space: Space,
                         bytes: map<nat, byte>, frame: int)
    requires SpaceOk(m, pmm, dirs, list, pd, space) && pd in dirs && Remembers(m, pd, space, bytes)
    requires OffFrame(space, frame)
    requires PlainOutside(m, m', pmm, dirs, list, frame, STATE) && WalksKept(m, m', dirs)
    ensures Remembers(m', pd, space, bytes)
  {
    hide PlainPage, PlainKept, SpaceOk, Walk, Byte, Pde, SameWalk;
    forall v | v in bytes ensures UserByte(m', pd, v) == bytes[v] {
      var x :| x in space && x.0 == v / PAGE;
      SpaceByte(m, pmm, dirs, list, pd, space, x, v);
      WalkStays(m, m', pd, v);
      PlainByte(m, pmm, dirs, list, x.1, v);
    }
  }

  lemma WalkStays(m: Mem, m': Mem, pd: int, v: nat)
    requires DirKept(m, m', pd)
    ensures Walk(m', pd, v) == Walk(m, pd, v)
  {
  }

  lemma PlainByte(m: Mem, pmm: PMM, dirs: set<int>, list: seq<int>, b: int, v: nat)
    requires PlainPage(m, pmm, dirs, list, b)
    ensures b <= b + v % PAGE < b + PAGE && FrameBase(FrameOf(b + v % PAGE)) == b
  {
  }

  /** The process at place i stored x at its address v. */
  lemma RunStored(start: Shot, s: Shot, m': Mem, pmm: PMM, kernel: int, frame: int, images: seq<Made>,
                  known: seq<map<nat, byte>>, i: nat, v: nat, x: byte)
    requires InRun(start, s, pmm, kernel, frame, images, known) && i < |s.procs| && v < TWO32 && InSpace(s.spaces[i], v)
    requires UserStored(s.m, m', Pd(s.m, s.procs[i]), v, x)
    ensures InRun(start, s.(m := m'), pmm, kernel, frame, images, known[i := HeapRuns.WithByte(known[i], v, x)])
    ensures Pcbs(m', s.procs) == Pcbs(s.m, s.procs) && pmm.Used(m') == pmm.Used(s.m) && WalksKept(s.m, m', s.dirs)
  {
    hide ShotOk, WalksKept, ClientsKept, PlainArea, PlainKept, Word, IsImage, Owns, OffFrame, Remembers, SpaceOk, Walk,
         PMM.Used, Byte, PlainPage;
    var pd := Pd(s.m, s.procs[i]);
    var y :| y in s.spaces[i] && y.0 == v / PAGE;
    ShotSpace(s, pmm, kernel, i);
    SpaceByte(s.m, pmm, s.dirs, s.list, pd, s.spaces[i], y, v);
    StoreKeeps(s, m', pmm, kernel, y.1, v);
    WalksKeptWithin(start.m, s.m, m', start.dirs, s.dirs);
    ClientsOfRun(start, s, m');
    PlainAreaKept(s.m, m', pmm, s.dirs, s.list, s.dirs, s.list, frame, STATE);
    var known' := known[i := HeapRuns.WithByte(known[i], v, x)];
    forall j | 0 <= j < |s.procs|
      ensures ProcessOk(start.m, m', Pd(m', s.procs[j]), s.spaces[j], images[j], known'[j], frame)
    {
      assert PcbAt(m', s.procs[j]) == Pcbs(m', s.procs)[j] == Pcbs(s.m, s.procs)[j] == PcbAt(s.m, s.procs[j]);
      StoreRemembered(s, m', pmm, kernel, i, y, v, x, j, known[j]);
    }
  }

  /** A store into a plain page keeps the system. */
  lemma StoreKeeps(s: Shot, m': Mem, pmm: PMM, kernel: int, b: int, v: nat)
    requires ShotOk(s, pmm, kernel) && PlainPage(s.m, pmm, s.dirs, s.list, b)
    requires SameOutside(s.m, m', b + v % PAGE, b + v % PAGE + 1)
    ensures ShotOk(s.(m := m'), pmm, kernel) && Pcbs(m', s.procs) == Pcbs(s.m, s.procs)
    ensures WalksKept(s.m, m', s.dirs) && ClientsKept(s.m, m', s.live, s.procs) && pmm.Used(m') == pmm.Used(s.m)
    ensures PlainKept(s.m, m', pmm, s.dirs, s.list, s.dirs, s.list)
  {
    hide MachineOk, PlainPage, PlainKept, BlockKept, SizeOf, WalksKept, StateAt, Word, SpacesOk, PMM.Used, Byte;
    PlainByte(s.m, pmm, s.dirs, s.list, b, v);
    assert PlainArea(s.m, pmm, s.dirs, s.list, b + v % PAGE, 1);
    PlainStored(s.m, m', pmm, s.head, s.list, s.live, s.dirs, b + v % PAGE, 1);
    assert forall i :: 0 <= i < |s.procs| ==> RecordOk(s.m, s.live, s.dirs, kernel, s.procs[i]);
    SystemKept(s.m, m', pmm, s.head, s.list, s.live, s.dirs, kernel, s.first, s.procs, s.spaces, s.head, s.list,
               s.live, s.dirs);
  }

  /** Process i stored x at v: it remembers that, and every process what else it remembers. */
  lemma StoreRemembered(s: Shot, m': Mem, pmm: PMM, kernel: int, i: nat, y: (nat, int), v: nat, x: byte, j: nat,
                        bytes: map<nat, byte>)
    requires ShotOk(s, pmm, kernel) && ShotOk(s.(m := m'), pmm, kernel) && i < |s.procs| == |s.spaces| && j < |s.procs|
    requires y in s.spaces[i] && y.0 == v / PAGE && v < TWO32 && Pd(m', s.procs[j]) == Pd(s.m, s.procs[j])
    requires SameOutside(s.m, m', y.1 + v % PAGE, y.1 + v % PAGE + 1) && Byte(m', y.1 + v % PAGE) == x
    requires Remembers(s.m, Pd(s.m, s.procs[j]), s.spaces[j], bytes)
    ensures Remembers(m', Pd(s.m, s.procs[j]), s.spaces[j], if j == i then HeapRuns.WithByte(bytes, v, x) else bytes)
  {
    hide ShotOk, Word, Byte, UserByte, PlainPage;
    var pd, bytes' := Pd(s.m, s.procs[j]), if j == i then HeapRuns.WithByte(bytes, v, x) else bytes;
    ShotSpace(s, pmm, kernel, i);
    ShotSpace(s, pmm, kernel, j);
    ShotSpace(s.(m := m'), pmm, kernel, j);
    forall w | w in bytes' ensures w < TWO32 && InSpace(s.spaces[j], w) && UserByte(m', pd, w) == bytes'[w] {
      StoreRead(s, m', pmm, kernel, i, y, v, j, w);
    }
  }

  /** What process j reads at w after the store. */
  lemma StoreRead(s: Shot, m': Mem, pmm: PMM, kernel: int, i: nat, y: (nat, int), v: nat, j: nat, w: nat)
    requires ShotOk(s, pmm, kernel) && ShotOk(s.(m := m'), pmm, kernel) && i < |s.procs| == |s.spaces| && j < |s.procs|
    requires y in s.spaces[i] && y.0 == v / PAGE && v < TWO32 && w < TWO32 && Pd(m', s.procs[j]) == Pd(s.m, s.procs[j])
    requires SameOutside(s.m, m', y.1 + v % PAGE, y.1 + v % PAGE + 1)
    requires InSpace(s.spaces[j], w) || (j == i && w == v)
    ensures var pd := Pd(s.m, s.procs[j]);
            && InSpace(s.spaces[j], w)
            && UserByte(m', pd, w) == if j == i && w == v then Byte(m', y.1 + v % PAGE) else UserByte(s.m, pd, w)
  {
    hide ShotOk, Word, Byte, UserByte, WalkAt, PlainPage;
    var pd := Pd(s.m, s.procs[j]);
    var z :| z in s.spaces[j] && z.0 == w / PAGE;
    ShotSpace(s, pmm, kernel, j);
    ShotSpace(s.(m := m'), pmm, kernel, j);
    SpaceByte(s.m, pmm, s.dirs, s.list, pd, s.spaces[j], z, w);
    SpaceByte(m', pmm, s.dirs, s.list, pd, s.spaces[j], z, w);
    if j == i && w == v {
      SpaceByte(s.m, pmm, s.dirs, s.list, pd, s.spaces[j], y, w);
    } else {
      PagesOfShot(s, pmm, kernel, i, y, j, z);
    }
  }

  /** Two pages of processes are the same, or do not overlap. */
  lemma PagesOfShot(s: Shot, pmm: PMM, kernel: int, i: nat, y: (nat, int), j: nat, z: (nat, int))
    requires ShotOk(s, pmm, kernel) && i < |s.procs| == |s.spaces| && j < |s.procs| && y in s.spaces[i]
    requires z in s.spaces[j]
    ensures (i == j && y == z) || y.1 + PAGE <= z.1 || z.1 + PAGE <= y.1
  {
    hide MachineOk, ProcsOk, Walk, Word, IsTable;
    assert SpaceOk(s.m, pmm, s.dirs, s.list, Pd(s.m, s.procs[i]), s.spaces[i]);
    assert SpaceOk(s.m, pmm, s.dirs, s.list, Pd(s.m, s.procs[j]), s.spaces[j]);
    assert i < j ==> Apart(s.spaces[i], s.spaces[j]);
    assert j < i ==> Apart(s.spaces[j], s.spaces[i]);
    if y.1 != z.1 {
      PagesApart(y.1, z.1);
    }
  }

  // -------- the steps --------

  /** Frame k is free. */
  predicate IsFree(pmm: PMM, m: Mem, k: int)
    ensures IsFree(pmm, m, k) <==> k in pmm.Free(m)
  {
    1 <= k < pmm.nbFrames && !pmm.bm.Has(m, k)
  }

  /** The second page of the stack belongs to the process of directory pd, created from m to m': the frame behind that
      of its stack was free, and no segment is on that page. */
  ghost predicate SecondFree(m: Mem, m': Mem, pmm: PMM, elf: int, pd: int) {
    && NoSegmentAt(m, elf, STACK + 0x1000)
    && Walk(m', pd, STACK).Mapped? && Walk(m', pd, STACK).frame / PAGE + 1 in pmm.Free(m)
  }

  /** What the process made last pushes first goes to the end of a page of its own. */
  ghost predicate PushesToOwnPage(s: Shot, pcb: Pcb) {
    s.spaces != [] && exists x :: x in s.spaces[|s.spaces| - 1] && StackReady(s.m, pcb.pd, pcb.regs, x.1)
  }

  /** load_initrd creates a process from an image in the heap. */
  method Spawn(sys: System, elf: nat, ghost len: nat, ghost start: Shot, ghost frame: int, ghost images: seq<Made>,
               ghost known: seq<map<nat, byte>>) returns (made: Made, ghost pcb: Pcb)
    requires sys.Valid() && InRun(start, sys.Now(), sys.pmm, sys.kernelPd, frame, images, known)
    requires ImageReady(start, elf, len) && KernelClear(start.m, sys.kernelPd)
    requires |sys.pmm.Free(sys.ram[..])| >= 5 + 2 * PhNum(start.m, elf)
    modifies sys, sys.heap, sys.ram
    ensures sys.Valid() && made.elf == elf
    ensures InRun(start, sys.Now(), sys.pmm, sys.kernelPd, frame, images + [made], known + [ImageBytes(start.m, elf)])
    ensures sys.Abs() == Step(old(sys.Abs()), Create(pcb, sys.kernelPd)) && Built(pcb.regs, EntryAfter(start.m, elf, 0))
    ensures P2V(sys.cr3) == sys.kernelPd && PushesToOwnPage(sys.Now(), pcb)
    ensures made.second <==> SecondFree(old(sys.ram[..]), sys.ram[..], sys.pmm, elf, pcb.pd)
    ensures |sys.pmm.Free(sys.ram[..])| >= |sys.pmm.Free(old(sys.ram[..]))| - 5 - 2 * PhNum(start.m, elf)
    ensures old(sys.dirs) <= sys.dirs && WalksKept(old(sys.ram[..]), sys.ram[..], old(sys.dirs))
    ensures old(sys.procs) <= sys.procs && AllMemories(old(sys.Now())) <= AllMemories(sys.Now())
  {
    hide SystemOk, InRun, ImageOk, InData, UserAreaFree, KernelClear, ImageReady, PhNum, PMM.Free, Built, StateAt,
         WalksKept, ImageBytes, UserPages, PlainUntouched, ClientsKept, SpaceThere, Magic, EntryPoint, UserMemory,
         NoSegmentAt, Walk, SecondOwn, P2V, StackReady;
    ghost var s := sys.Now();
    ImageNow(start, s, sys.pmm, sys.kernelPd, frame, images, known, elf, len);
    var before := sys.ram[..];
    var image := new Elf32(elf);
    var p; ghost var pages;
    p, pages := sys.CreateProcess(image, len);
    pcb := PcbAt(sys.ram[..], p);
    PcbParts(sys.ram[..], p);
    NewStack(s, sys.Now(), sys.pmm, sys.kernelPd, p, pcb.pd, elf, pages);
    var stack := Walk(sys.ram[..], Load32(sys.ram, p), STACK);
    made := Made(elf, NoSegmentAt(before, elf, STACK + 0x1000) && IsFree(sys.pmm, before, stack.frame / PAGE + 1));
    RunSpawned(start, s, sys.Now(), sys.pmm, sys.kernelPd, frame, images, known, elf, len, p, pcb.pd, pages);
    AllKnown(start, s, sys.pmm, sys.kernelPd, frame, images, known);
    ghost var all := AllMemories(s);
    RunSpawned(start, s, sys.Now(), sys.pmm, sys.kernelPd, frame, images, all, elf, len, p, pcb.pd, pages);
    AllStill(start, s, sys.Now(), sys.pmm, sys.kernelPd, frame, images + [made], all + [ImageBytes(start.m, elf)]);
  }

  /** The stack of the process just made. */
  lemma NewStack(s: Shot, s': Shot, pmm: PMM, kernel: int, p: int, pd: int, elf: int, pages: Pages)
    requires ShotOk(s', pmm, kernel) && s'.procs == s.procs + [p]
    requires s'.spaces == s.spaces + [UserPages(s.m, elf, pages)]
    requires Pd(s'.m, p) == pd && SpaceThere(s.m, s'.m, pmm, s'.dirs, s'.list, pd, elf, pages)
    ensures InRam(|s'.m|, p, 4) && Walk(s'.m, pd, STACK) == Mapped(pages.stack - KERNEL, 7)
    ensures (STACK / PAGE, pages.stack) in s'.spaces[|s'.spaces| - 1]
    ensures SecondOwn(s.m, elf, pages) != {} <==> SecondFree(s.m, s'.m, pmm, elf, pd)
  {
    hide ShotOk, Word, Walk, NoSegmentAt, PMM.Free, PlainPage, SegmentThere, SegmentsOf, SecondPage;
    ShotSpace(s', pmm, kernel, |s.procs|);
    CurrentThere(s', pmm, kernel, |s.procs|);
    assert (STACK / PAGE, pages.stack) in s'.spaces[|s.procs|];
  }

  /** The processor puts the interrupted registers on the kernel stack, the handler switches, and the interrupt
      returns with what is there then. */
  method Interrupt(sys: System, captured: Regs, frame: nat, ghost start: Shot, ghost images: seq<Made>,
                   ghost known: seq<map<nat, byte>>)
    returns (answer: Regs)
    requires sys.Valid() && InRun(start, sys.Now(), sys.pmm, sys.kernelPd, frame, images, known)
    requires |captured| == STATE && InRam(sys.ram.Length, frame, STATE)
    modifies sys`current, sys`cr3, sys`cur, sys.ram
    ensures sys.Valid() && InRun(start, sys.Now(), sys.pmm, sys.kernelPd, frame, images, known)
    ensures (sys.Abs(), answer) == Switch(old(sys.Abs()), captured) && answer == StateAt(sys.ram[..], frame)
    ensures AllMemories(sys.Now()) == AllMemories(old(sys.Now()))
    ensures !sys.init || old(sys.current) == 0 ==>
              && answer == captured && SameOutside(old(sys.ram[..]), sys.ram[..], frame, frame + STATE)
              && sys.current == old(sys.current) && sys.cr3 == old(sys.cr3)
    ensures PlainOutside(old(sys.ram[..]), sys.ram[..], sys.pmm, sys.dirs, sys.heap.list, frame, STATE)
    ensures ClientsKept(old(sys.ram[..]), sys.ram[..], sys.heap.live, sys.procs)
    ensures sys.pmm.Used(sys.ram[..]) == sys.pmm.Used(old(sys.ram[..]))
    ensures WalksKept(old(sys.ram[..]), sys.ram[..], sys.dirs)
  {
    hide SystemOk, InRun, StateAt, PlainArea, PlainOutside, ClientsKept, WalksKept, PMM.Used, UserMemory;
    ghost var s := sys.Now();
    AreaOfRun(start, s, sys.pmm, sys.kernelPd, frame, images, known);
    PushState(sys.ram, frame, captured);
    ghost var m1 := sys.ram[..];
    Pushed(s, m1, sys.pmm, sys.kernelPd, frame);
    sys.SwitchProcess(frame);
    answer := StateAt(sys.ram[..], frame);
    SwitchedShot(s, m1, sys.Now(), sys.pmm, sys.kernelPd, frame);
    RunTicked(start, s, sys.Now(), sys.pmm, sys.kernelPd, frame, images, known);
    AllKnown(start, s, sys.pmm, sys.kernelPd, frame, images, known);
    RunTicked(start, s, sys.Now(), sys.pmm, sys.kernelPd, frame, images, AllMemories(s));
    AllStill(start, s, sys.Now(), sys.pmm, sys.kernelPd, frame, images, AllMemories(s));
  }

  method PushState(ram: array<byte>, frame: nat, captured: Regs)
    requires |captured| == STATE && InRam(ram.Length, frame, STATE)
    modifies ram
    ensures SameOutside(old(ram[..]), ram[..], frame, frame + STATE) && StateAt(ram[..], frame) == captured
  {
    for i := 0 to STATE
      invariant SameOutside(old(ram[..]), ram[..], frame, frame + i)
      invariant forall k :: 0 <= k < i ==> Byte(ram[..], frame + k) == captured[k]
    {
      Store8(ram, frame + i, captured[i]);
    }
  }

  lemma AreaOfRun(start: Shot, s: Shot, pmm: PMM, kernel: int, frame: int, images: seq<Made>,
                  known: seq<map<nat, byte>>)
    requires InRun(start, s, pmm, kernel, frame, images, known)
    ensures PlainArea(s.m, pmm, s.dirs, s.list, frame, STATE) && ShotOk(s, pmm, kernel)
  {
  }

  /** The pushed registers change nothing but the interrupt frame. */
  lemma Pushed(s: Shot, m': Mem, pmm: PMM, kernel: int, frame: int)
    requires ShotOk(s, pmm, kernel) && PlainArea(s.m, pmm, s.dirs, s.list, frame, STATE)
    requires SameOutside(s.m, m', frame, frame + STATE)
    ensures ShotOk(s.(m := m'), pmm, kernel) && Pcbs(m', s.procs) == Pcbs(s.m, s.procs)
    ensures WalksKept(s.m, m', s.dirs) && ClientsKept(s.m, m', s.live, s.procs) && pmm.Used(m') == pmm.Used(s.m)
    ensures PlainOutside(s.m, m', pmm, s.dirs, s.list, frame, STATE) && PlainArea(m', pmm, s.dirs, s.list, frame, STATE)
  {
    hide MachineOk, PlainPage, PlainKept, BlockKept, SizeOf, WalksKept, StateAt, Word, SpacesOk, PMM.Used, Byte,
         PlainArea;
    PlainStored(s.m, m', pmm, s.head, s.list, s.live, s.dirs, frame, STATE);
    PlainAreaKept(s.m, m', pmm, s.dirs, s.list, s.dirs, s.list, frame, STATE);
    assert forall i :: 0 <= i < |s.procs| ==> RecordOk(s.m, s.live, s.dirs, kernel, s.procs[i]);
    SystemKept(s.m, m', pmm, s.head, s.list, s.live, s.dirs, kernel, s.first, s.procs, s.spaces, s.head, s.list,
               s.live, s.dirs);
  }

  /** Pushing and switching together. */
  lemma SwitchedShot(s: Shot, m1: Mem, s': Shot, pmm: PMM, kernel: int, frame: int)
    requires s' == s.(m := s'.m) && WalksKept(s.m, m1, s.dirs) && WalksKept(m1, s'.m, s.dirs)
    requires ClientsKept(s.m, m1, s.live, s.procs) && ClientsKept(m1, s'.m, s.live, s.procs)
    requires PlainOutside(s.m, m1, pmm, s.dirs, s.list, frame, STATE)
    requires PlainOutside(m1, s'.m, pmm, s.dirs, s.list, frame, STATE)
    requires Pcbs(m1, s.procs) == Pcbs(s.m, s.procs) && |Pcbs(s'.m, s.procs)| == |s.procs|
    requires forall j :: 0 <= j < |s.procs| ==> Pcbs(s'.m, s.procs)[j].pd == Pcbs(m1, s.procs)[j].pd
    ensures WalksKept(s.m, s'.m, s.dirs) && ClientsKept(s.m, s'.m, s.live, s.procs)
    ensures PlainOutside(s.m, s'.m, pmm, s.dirs, s.list, frame, STATE)
    ensures forall j :: 0 <= j < |s.procs| ==> Pd(s'.m, s.procs[j]) == Pd(s.m, s.procs[j])
  {
  }

  /** A process runs: the active directory is that of the current process. */
  predicate Running(s: Sched)
    requires s.Valid()
  {
    s.procs != [] && s.active == s.procs[s.cur].pd
  }

  /** How many records come before the current one. */
  method Place(sys: System) returns (at: nat)
    requires sys.Valid() && sys.procs != []
    ensures at == sys.cur
  {
    hide SystemOk, Word;
    at := 0;
    var p := sys.processes;
    ghost var s := sys.Now();
    RecordPlace(s.m, sys.pmm, s.head, s.list, s.live, s.dirs, sys.kernelPd, s.first, s.procs, s.spaces, 0);
    RecordsDiffer(s, sys.pmm, sys.kernelPd);
    while p != sys.current
      invariant at <= sys.cur && p == sys.procs[at]
      decreases sys.cur - at
    {
      RecordPlace(s.m, sys.pmm, s.head, s.list, s.live, s.dirs, sys.kernelPd, s.first, s.procs, s.spaces, at);
      p := Load32(sys.ram, p + 64);
      at := at + 1;
    }
  }

  lemma RecordsDiffer(s: Shot, pmm: PMM, kernel: int)
    requires ShotOk(s, pmm, kernel)
    ensures Distinct(s.procs)
  {
  }

  /** From m to m' only the byte that directory pd translates v to changed, to x. */
  ghost predicate UserStored(m: Mem, m': Mem, pd: int, v: nat, x: byte) {
    Walk(m, pd, v).Mapped?
    && var a := Translate(m, pd, v);
    SameOutside(m, m', a, a + 1) && Byte(m', a) == x
  }

  /** Of all memories only byte v of process i changed, to x. */
  ghost predicate OneByte(before: seq<map<nat, byte>>, after: seq<map<nat, byte>>, i: nat, v: nat, x: byte) {
    i < |before| && after == before[i := HeapRuns.WithByte(before[i], v, x)]
  }

  /** The running process stores x at v.  It happens exactly when v is in one of its pages; where it goes is found
      through the active directory. */
  method StoreUser(sys: System, v: nat, x: byte, images: seq<Made>, ghost start: Shot, ghost frame: int,
                   ghost known: seq<map<nat, byte>>)
    returns (done: bool)
    requires sys.Valid() && InRun(start, sys.Now(), sys.pmm, sys.kernelPd, frame, images, known)
    modifies sys.ram
    ensures sys.Valid() && sys.Abs() == old(sys.Abs()) && |images| == |known| == |sys.procs|
    ensures done <==> Running(old(sys.Abs())) && v < TWO32 && PageOf(start.m, images[sys.cur], v / PAGE)
    ensures InRun(start, sys.Now(), sys.pmm, sys.kernelPd, frame, images,
                  if done then known[sys.cur := HeapRuns.WithByte(known[sys.cur], v, x)] else known)
    ensures if done then
              && UserStored(old(sys.ram[..]), sys.ram[..], sys.Abs().active, v, x)
              && OneByte(AllMemories(old(sys.Now())), AllMemories(sys.Now()), sys.cur, v, x)
            else sys.ram[..] == old(sys.ram[..])
    ensures sys.pmm.Used(sys.ram[..]) == sys.pmm.Used(old(sys.ram[..]))
    ensures WalksKept(old(sys.ram[..]), sys.ram[..], sys.dirs)
  {
    hide SystemOk, InRun, StateAt, Word, WalksKept, PMM.Used, PageOf, P2V, Walk, Translate;
    ghost var s := sys.Now();
    done := false;
    WalksKeptRefl(s.m, sys.dirs);
    RunLengths(start, s, sys.pmm, sys.kernelPd, frame, images, known);
    CurrentThere(s, sys.pmm, sys.kernelPd, sys.cur);
    if sys.current != 0 {
      assert Pcbs(s.m, s.procs)[sys.cur] == PcbAt(s.m, s.procs[sys.cur]);
      if P2V(sys.cr3) == Load32(sys.ram, sys.current) && v < TWO32 {
        var at := Place(sys);
        PagesNow(start, s, sys.pmm, sys.kernelPd, frame, images, known, at, v);
        if PageOf(sys.ram[..], images[at], v / PAGE) {
          UserAddress(start, s, sys.pmm, sys.kernelPd, frame, images, known, at, v);
          var a := Translate(sys.ram[..], P2V(sys.cr3), v);
          Store8(sys.ram, a, x);
          done := true;
          RunStored(start, s, sys.ram[..], sys.pmm, sys.kernelPd, frame, images, known, at, v, x);
          StoredAlone(start, s, sys.ram[..], sys.pmm, sys.kernelPd, frame, images, known, at, v, x);
          AreaOfRun(start, sys.Now(), sys.pmm, sys.kernelPd, frame, images,
                    known[at := HeapRuns.WithByte(known[at], v, x)]);
        }
      }
    }
  }

  lemma StoredAlone(start: Shot, s: Shot, m': Mem, pmm: PMM, kernel: int, frame: int, images: seq<Made>,
                    known: seq<map<nat, byte>>, i: nat, v: nat, x: byte)
    requires InRun(start, s, pmm, kernel, frame, images, known) && i < |s.procs| && v < TWO32
    requires i < |s.spaces| && InSpace(s.spaces[i], v) && UserStored(s.m, m', Pd(s.m, s.procs[i]), v, x)
    ensures OneByte(AllMemories(s), AllMemories(s.(m := m')), i, v, x)
  {
    hide InRun, UserStored, UserByte, InSpace, Word;
    var all := AllMemories(s);
    var all' := all[i := HeapRuns.WithByte(all[i], v, x)];
    AllKnown(start, s, pmm, kernel, frame, images, known);
    RunStored(start, s, m', pmm, kernel, frame, images, all, i, v, x);
    assert v in all[i];
    AllStill(start, s, s.(m := m'), pmm, kernel, frame, images, all');
  }

  lemma RunLengths(start: Shot, s: Shot, pmm: PMM, kernel: int, frame: int, images: seq<Made>,
                   known: seq<map<nat, byte>>)
    requires InRun(start, s, pmm, kernel, frame, images, known)
    ensures |images| == |known| == |s.procs|
  {
  }

  lemma CurrentThere(s: Shot, pmm: PMM, kernel: int, c: nat)
    requires ShotOk(s, pmm, kernel)
    ensures c < |s.procs| ==> InRam(|s.m|, s.procs[c], 4) && s.procs[c] != 0
  {
    hide SystemOk;
    if c < |s.procs| {
      RecordPlace(s.m, pmm, s.head, s.list, s.live, s.dirs, kernel, s.first, s.procs, s.spaces, c);
    }
  }

  /** The pages of an image are the same ones at every moment of the run. */
  lemma PagesNow(start: Shot, s: Shot, pmm: PMM, kernel: int, frame: int, images: seq<Made>,
                 known: seq<map<nat, byte>>, i: nat, v: nat)
    requires InRun(start, s, pmm, kernel, frame, images, known) && i < |s.procs|
    ensures i < |images| && i < |s.spaces|
    ensures PageOf(s.m, images[i], v / PAGE) <==> PageOf(start.m, images[i], v / PAGE)
    ensures PageOf(start.m, images[i], v / PAGE) <==> InSpace(s.spaces[i], v)
  {
    hide ShotOk, WalksKept, PlainArea, ImageOk, Phdr, Loads, PhNum, Magic, OffFrame, Remembers, Byte, SizeOf, VAddr,
         Offset, FileSize;
    var elf := images[i].elf;
    assert IsImage(start, elf);
    var len: nat :| ImageReady(start, elf, len);
    ImageSame(start, s.m, elf, len);
    HeadersNow(start.m, s.m, elf, len);
    OwnsPage(start.m, s.spaces[i], images[i], v / PAGE, v);
  }

  lemma ImageSame(start: Shot, m: Mem, elf: int, len: nat)
    requires ImageReady(start, elf, len) && ClientsKept(start.m, m, start.live, [])
    ensures Same(start.m, m, elf, elf + len) && ImageOk(start.m, elf, len)
  {
  }

  lemma UserAddress(start: Shot, s: Shot, pmm: PMM, kernel: int, frame: int, images: seq<Made>,
                    known: seq<map<nat, byte>>, i: nat, v: nat)
    requires InRun(start, s, pmm, kernel, frame, images, known) && i < |s.procs| && i < |s.spaces|
    requires InSpace(s.spaces[i], v) && v < TWO32
    ensures var pd := Pd(s.m, s.procs[i]); Walk(s.m, pd, v).Mapped? && InRam(|s.m|, Translate(s.m, pd, v), 1)
  {
    hide ShotOk, WalksKept, ClientsKept, PlainArea, ProcessOk, IsImage, WalkAt, SpaceOk, Word;
    var y :| y in s.spaces[i] && y.0 == v / PAGE;
    ShotSpace(s, pmm, kernel, i);
    SpaceByte(s.m, pmm, s.dirs, s.list, Pd(s.m, s.procs[i]), s.spaces[i], y, v);
  }

  // -------- runs --------

  datatype Action =
    | NewProcess(elf: nat, len: nat)  // create_process on the image at elf
    | StartTicks                      // enable_scheduling
    | Timer(captured: Regs)           // an interrupt with these registers
    | UserStore(v: nat, x: byte)      // the running process stores x at v

  datatype Happened =
    | ProcessMade(made: Made, pcb: Pcb)
    | TicksStarted
    | Switched(captured: Regs, answer: Regs)  // the interrupt returned with `answer`
    | Stored(v: nat, x: byte)
    | Refused

  function EventsOf(h: Happened, kernel: int): seq<Event> {
    match h
    case ProcessMade(_, pcb) => [Create(pcb, kernel)]
    case TicksStarted => [Enable]
    case Switched(captured, _) => [Tick(captured)]
    case _ => []
  }

  /** The run as the scheduler sees it. */
  function Events(trace: seq<Happened>, kernel: int): seq<Event> {
    if trace == [] then [] else Events(trace[..|trace| - 1], kernel) + EventsOf(trace[|trace| - 1], kernel)
  }

  /** The images the processes were made from, in list order. */
  function Images(trace: seq<Happened>): seq<Made> {
    if trace == [] then []
    else
      var h := trace[|trace| - 1];
      Images(trace[..|trace| - 1]) + if h.ProcessMade? then [h.made] else []
  }

  /** What each process must find in its memory: its image's bytes, and what it stored itself. */
  ghost function Memories(start: Mem, s: Sched, kernel: int, trace: seq<Happened>): seq<map<nat, byte>>
    requires s.Valid()
  {
    if trace == [] then []
    else Remember(start, Run(s, Events(trace[..|trace| - 1], kernel)), trace[|trace| - 1],
                  Memories(start, s, kernel, trace[..|trace| - 1]))
  }

  ghost function Remember(start: Mem, s: Sched, h: Happened, known: seq<map<nat, byte>>): seq<map<nat, byte>> {
    match h
    case ProcessMade(made, _) => known + [ImageBytes(start, made.elf)]
    case Stored(v, x) => if s.cur < |known| then known[s.cur := HeapRuns.WithByte(known[s.cur], v, x)] else known
    case _ => known
  }

  /** What must happen for an action, in the scheduler state s. */
  ghost predicate Explains(start: Mem, s: Sched, images: seq<Made>, action: Action, h: Happened)
    requires s.Valid()
  {
    match action
    case NewProcess(elf, _) => h.ProcessMade? && h.made.elf == elf && Built(h.pcb.regs, EntryAfter(start, elf, 0))
    case StartTicks => h == TicksStarted
    case Timer(captured) => h == Switched(captured, Switch(s, captured).1)
    case UserStore(v, x) =>
      if Running(s) && v < TWO32 && s.cur < |images| && PageOf(start, images[s.cur], v / PAGE) then h == Stored(v, x)
      else h == Refused
  }

  /** What happened changed the memory like this, `now` being the state of the scheduler before. */
  ghost predicate Effect(s: Shot, s': Shot, pmm: PMM, now: Sched, frame: int, h: Happened) {
    match h
    case ProcessMade(made, pcb) =>
      && s.procs <= s'.procs && AllMemories(s) <= AllMemories(s')
      && (made.second <==> SecondFree(s.m, s'.m, pmm, made.elf, pcb.pd)) && PushesToOwnPage(s', pcb)
    case Switched(captured, answer) =>
      && (!now.on || now.procs == [] ==> answer == captured && SameOutside(s.m, s'.m, frame, frame + STATE))
      && s' == s.(m := s'.m) && StateAt(s'.m, frame) == answer && AllMemories(s') == AllMemories(s)
      && PlainOutside(s.m, s'.m, pmm, s.dirs, s.list, frame, STATE) && ClientsKept(s.m, s'.m, s.live, s.procs)
    case Stored(v, x) =>
      && s' == s.(m := s'.m) && UserStored(s.m, s'.m, now.active, v, x)
      && OneByte(AllMemories(s), AllMemories(s'), now.cur, v, x)
    case _ => s' == s
  }

  /** The frames the actions may take. */
  function Need(m: Mem, actions: seq<Action>): nat {
    if actions == [] then 0
    else (if actions[0].NewProcess? then 5 + 2 * PhNum(m, actions[0].elf) else 0) + Need(m, actions[1..])
  }

  ghost predicate ActionOk(start: Shot, action: Action) {
    && (action.NewProcess? ==> ImageReady(start, action.elf, action.len))
    && (action.Timer? ==> |action.captured| == STATE)
  }

  /** One action, whatever it is. */
  method Act(sys: System, action: Action, frame: nat, images: seq<Made>, ghost start: Shot,
             ghost known: seq<map<nat, byte>>)
    returns (ghost h: Happened, images': seq<Made>)
    requires sys.Valid() && InRun(start, sys.Now(), sys.pmm, sys.kernelPd, frame, images, known)
    requires ActionOk(start, action) && KernelClear(start.m, sys.kernelPd) && InRam(sys.ram.Length, frame, STATE)
    requires action.NewProcess? ==> |sys.pmm.Free(sys.ram[..])| >= 5 + 2 * PhNum(start.m, action.elf)
    modifies sys, sys.heap, sys.ram
    ensures sys.Valid() && Explains(start.m, old(sys.Abs()), images, action, h)
    ensures Effect(old(sys.Now()), sys.Now(), sys.pmm, old(sys.Abs()), frame, h)
    ensures images' == images + if h.ProcessMade? then [h.made] else []
    ensures InRun(start, sys.Now(), sys.pmm, sys.kernelPd, frame, images', Remember(start.m, old(sys.Abs()), h, known))
    ensures sys.Abs() == Run(old(sys.Abs()), EventsOf(h, sys.kernelPd))
    ensures |sys.pmm.Free(sys.ram[..])| >= |sys.pmm.Free(old(sys.ram[..]))| - Need(start.m, [action])
    ensures old(sys.dirs) <= sys.dirs && WalksKept(old(sys.ram[..]), sys.ram[..], old(sys.dirs))
  {
    hide SystemOk, InRun, PcbAt, WalksKept, PMM.Used, PMM.Free, PhNum, PageOf, KernelClear, ImageReady, Built,
         EntryAfter, ImageBytes, UserMemory, UserStored, OneByte, PlainOutside, ClientsKept, StateAt, PushesToOwnPage,
         Step, SameOutside, AllMemories, P2V;
    ghost var s := sys.Abs();
    ghost var m := sys.ram[..];
    RunLengths(start, sys.Now(), sys.pmm, sys.kernelPd, frame, images, known);
    images' := images;
    match action {
      case NewProcess(elf, len) =>
        var made; ghost var pcb;
        made, pcb := Spawn(sys, elf, len, start, frame, images, known);
        h, images' := ProcessMade(made, pcb), images + [made];
      case StartTicks =>
        sys.EnableScheduling();
        WalksKeptRefl(m, sys.dirs);
        h := TicksStarted;
      case Timer(captured) =>
        ghost var answer := Interrupt(sys, captured, frame, start, images, known);
        h := Switched(captured, answer);
        SameFree(sys.pmm, m, sys.ram[..]);
      case UserStore(v, x) =>
        var done := StoreUser(sys, v, x, images, start, frame, known);
        h := if done then Stored(v, x) else Refused;
        SameFree(sys.pmm, m, sys.ram[..]);
    }
    OneEvent(s, h, sys.kernelPd);
  }

  lemma SameFree(pmm: PMM, m: Mem, m': Mem)
    requires pmm.Used(m') == pmm.Used(m)
    ensures |pmm.Free(m')| == |pmm.Free(m)|
  {
  }

  lemma OneEvent(s: Sched, h: Happened, kernel: int)
    requires s.Valid()
    ensures Run(s, EventsOf(h, kernel)) ==
            if h.ProcessMade? then Step(s, Create(h.pcb, kernel))
            else if h.TicksStarted? then Step(s, Enable)
            else if h.Switched? then Switch(s, h.captured).0
            else s
  {
  }

  /** At every moment of the run the system is in order, and what a directory translated at one moment it
      translates at every later one. */
  ghost predicate ShotsOk(shots: seq<Shot>, pmm: PMM, kernel: int) {
    && (forall k :: 0 <= k < |shots| ==> ShotOk(shots[k], pmm, kernel))
    && forall j, k :: 0 <= j <= k < |shots| ==>
         shots[j].dirs <= shots[k].dirs && WalksKept(shots[j].m, shots[k].m, shots[j].dirs)
  }

  ghost predicate AllExplained(start: Mem, s: Sched, kernel: int, actions: seq<Action>, trace: seq<Happened>)
    requires s.Valid()
  {
    |trace| == |actions| && forall i :: 0 <= i < |actions| ==> ExplainedAt(start, s, kernel, actions, trace, i)
  }

  ghost predicate ExplainedAt(start: Mem, s: Sched, kernel: int, actions: seq<Action>, trace: seq<Happened>, i: nat)
    requires s.Valid() && i < |actions| == |trace|
  {
    Explains(start, Run(s, Events(trace[..i], kernel)), Images(trace[..i]), actions[i], trace[i])
  }

  /** Where a run can start: no process yet, nothing below the kernel in its directory, the images in heap blocks,
      frames enough for all that is asked, and an interrupt frame outside heap, directories and tables. */
  ghost predicate CanRun(s: Shot, pmm: PMM, kernel: int, actions: seq<Action>, frame: int) {
    && s.procs == [] && KernelClear(s.m, kernel)
    && InRam(|s.m|, frame, STATE) && PlainArea(s.m, pmm, s.dirs, s.list, frame, STATE)
    && (forall a :: a in actions ==> ActionOk(s, a)) && |pmm.Free(s.m)| >= Need(s.m, actions)
  }

  /** Moment i of a run: everything is in order, process j has the pages its image asks for and in them the bytes the
      trace so far says, and the records hold what the scheduler has after the events so far. */
  ghost predicate MomentAt(shots: seq<Shot>, s: Sched, pmm: PMM, kernel: int, frame: int, trace: seq<Happened>, i: nat)
    requires s.Valid() && i < |shots| && i <= |trace|
  {
    && InRun(shots[0], shots[i], pmm, kernel, frame, Images(trace[..i]), Memories(shots[0].m, s, kernel, trace[..i]))
    && Pcbs(shots[i].m, shots[i].procs) == Run(s, Events(trace[..i], kernel)).procs
  }

  /** What happened as action i changed the memory as it should. */
  ghost predicate EffectAt(shots: seq<Shot>, s: Sched, pmm: PMM, kernel: int, frame: int, trace: seq<Happened>, i: nat)
    requires s.Valid() && i + 1 < |shots| && i < |trace|
  {
    Effect(shots[i], shots[i + 1], pmm, Run(s, Events(trace[..i], kernel)), frame, trace[i])
  }

  ghost predicate Followed(shots: seq<Shot>, s: Sched, pmm: PMM, kernel: int, frame: int, trace: seq<Happened>)
    requires s.Valid()
  {
    && |shots| == |trace| + 1
    && (forall i :: 0 <= i <= |trace| ==> MomentAt(shots, s, pmm, kernel, frame, trace, i))
    && forall i :: 0 <= i < |trace| ==> EffectAt(shots, s, pmm, kernel, frame, trace, i)
  }

  /** Every run from such a start: at every moment the memory is what the scheduler says, each action has its effect and
      no other, every process keeps its memory to itself, and no translation ever changes. */
  method Drive(sys: System, actions: seq<Action>, frame: nat)
    returns (ghost trace: seq<Happened>, ghost shots: seq<Shot>)
    requires sys.Valid() && CanRun(sys.Now(), sys.pmm, sys.kernelPd, actions, frame)
    modifies sys, sys.heap, sys.ram
    ensures sys.Valid() && old(sys.Abs()).Valid()
    ensures sys.Abs() == Run(old(sys.Abs()), Events(trace, sys.kernelPd))
    ensures AllExplained(old(sys.ram[..]), old(sys.Abs()), sys.kernelPd, actions, trace)
    ensures |shots| == |actions| + 1 && shots[0] == old(sys.Now()) && shots[|actions|] == sys.Now()
    ensures Followed(shots, old(sys.Abs()), sys.pmm, sys.kernelPd, frame, trace)
    ensures ShotsOk(shots, sys.pmm, sys.kernelPd)
  {
    hide SystemOk, InRun, PcbAt, WalksKept, PMM.Free, PhNum, KernelClear, ActionOk, Explains, Remember, EventsOf,
         ShotsOk, AllExplained, PlainArea, Need, Followed, Effect;
    ghost var start, s, kernel := sys.Now(), sys.Abs(), sys.kernelPd;
    trace, shots := [], [start];
    var images: seq<Made> := [];
    RunStarts(start, sys.pmm, kernel, frame, s, actions);
    for i := 0 to |actions|
      invariant sys.Valid() && |trace| == i && images == Images(trace)
      invariant InRun(start, sys.Now(), sys.pmm, kernel, frame, images, Memories(start.m, s, kernel, trace))
      invariant sys.Abs() == Run(s, Events(trace, kernel)) && AllExplained(start.m, s, kernel, actions[..i], trace)
      invariant |sys.pmm.Free(sys.ram[..])| >= Need(start.m, actions[i..])
      invariant |shots| == i + 1 && shots[0] == start && shots[i] == sys.Now() && ShotsOk(shots, sys.pmm, kernel)
      invariant Followed(shots, s, sys.pmm, kernel, frame, trace)
    {
      ghost var known := Memories(start.m, s, kernel, trace);
      ActionNext(start, actions, i, |sys.pmm.Free(sys.ram[..])|);
      ghost var h;
      h, images := Act(sys, actions[i], frame, images, start, known);
      TraceGrows(start, s, kernel, actions, trace, h);
      ShotsGrow(shots, sys.Now(), sys.pmm, kernel);
      FollowedGrows(shots, sys.Now(), s, sys.pmm, kernel, frame, trace, h);
      trace, shots := trace + [h], shots + [sys.Now()];
    }
    assert actions[..|actions|] == actions;
  }

  lemma RunStarts(start: Shot, pmm: PMM, kernel: int, frame: int, s: Sched, actions: seq<Action>)
    requires ShotOk(start, pmm, kernel) && CanRun(start, pmm, kernel, actions, frame) && s.Valid()
    requires s.procs == []
    ensures InRun(start, start, pmm, kernel, frame, [], []) && ShotsOk([start], pmm, kernel)
    ensures Run(s, []) == s && AllExplained(start.m, s, kernel, actions[..0], [])
    ensures actions[0..] == actions && Followed([start], s, pmm, kernel, frame, [])
  {
  }

  lemma ActionNext(start: Shot, actions: seq<Action>, i: nat, free: nat)
    requires i < |actions| && (forall a :: a in actions ==> ActionOk(start, a)) && free >= Need(start.m, actions[i..])
    ensures ActionOk(start, actions[i])
    ensures Need(start.m, actions[i..]) == Need(start.m, [actions[i]]) + Need(start.m, actions[i + 1..])
    ensures actions[i].NewProcess? ==> free >= 5 + 2 * PhNum(start.m, actions[i].elf)
  {
  }

  lemma TraceGrows(start: Shot, s: Sched, kernel: int, actions: seq<Action>, trace: seq<Happened>, h: Happened)
    requires s.Valid() && |trace| < |actions| && AllExplained(start.m, s, kernel, actions[..|trace|], trace)
    requires Explains(start.m, Run(s, Events(trace, kernel)), Images(trace), actions[|trace|], h)
    ensures Images(trace + [h]) == Images(trace) + if h.ProcessMade? then [h.made] else []
    ensures Memories(start.m, s, kernel, trace + [h]) ==
            Remember(start.m, Run(s, Events(trace, kernel)), h, Memories(start.m, s, kernel, trace))
    ensures Run(s, Events(trace + [h], kernel)) == Run(Run(s, Events(trace, kernel)), EventsOf(h, kernel))
    ensures AllExplained(start.m, s, kernel, actions[..|trace| + 1], trace + [h])
  {
    hide Explains, Remember;
    var n := |trace|;
    assert (trace + [h])[..n] == trace;
    RunTwice(s, Events(trace, kernel), EventsOf(h, kernel));
    var actions', trace' := actions[..n + 1], trace + [h];
    forall i | 0 <= i < n + 1 ensures ExplainedAt(start.m, s, kernel, actions', trace', i) {
      if i < n {
        assert ExplainedAt(start.m, s, kernel, actions[..n], trace, i);
        assert trace'[..i] == trace[..i];
      }
    }
  }

  lemma {:induction false} RunTwice(s: Sched, es: seq<Event>, fs: seq<Event>)
    requires s.Valid()
    ensures Run(s, es + fs) == Run(Run(s, es), fs)
  {
    hide Step;
    if fs == [] {
      assert es + fs == es;
    } else {
      var n := |fs| - 1;
      assert (es + fs)[..|es + fs| - 1] == es + fs[..n];
      RunTwice(s, es, fs[..n]);
    }
  }

  lemma ShotsGrow(shots: seq<Shot>, s': Shot, pmm: PMM, kernel: int)
    requires shots != [] && ShotsOk(shots, pmm, kernel) && ShotOk(s', pmm, kernel)
    requires var s := shots[|shots| - 1]; s.dirs <= s'.dirs && WalksKept(s.m, s'.m, s.dirs)
    ensures ShotsOk(shots + [s'], pmm, kernel)
  {
    hide ShotOk, WalksKept;
    var n, shots' := |shots|, shots + [s'];
    WalksKeptRefl(s'.m, s'.dirs);
    forall j, k | 0 <= j <= k < n + 1
      ensures shots'[j].dirs <= shots'[k].dirs && WalksKept(shots'[j].m, shots'[k].m, shots'[j].dirs)
    {
      if j < n == k {
        WalksKeptWithin(shots[j].m, shots[n - 1].m, s'.m, shots[j].dirs, shots[n - 1].dirs);
      }
    }
  }

  lemma FollowedGrows(shots: seq<Shot>, s': Shot, s: Sched, pmm: PMM, kernel: int, frame: int, trace: seq<Happened>,
                      h: Happened)
    requires s.Valid() && Followed(shots, s, pmm, kernel, frame, trace)
    requires Effect(shots[|trace|], s', pmm, Run(s, Events(trace, kernel)), frame, h)
    requires var trace' := trace + [h];
             && InRun(shots[0], s', pmm, kernel, frame, Images(trace'), Memories(shots[0].m, s, kernel, trace'))
             && Pcbs(s'.m, s'.procs) == Run(s, Events(trace', kernel)).procs
    ensures Followed(shots + [s'], s, pmm, kernel, frame, trace + [h])
  {
    hide InRun, Effect, Pcbs, Images, Memories, Events;
    var n, shots', trace' := |trace|, shots + [s'], trace + [h];
    assert trace'[..n] == trace && trace'[..n + 1] == trace' && trace[..n] == trace;
    forall i | 0 <= i <= n + 1 ensures MomentAt(shots', s, pmm, kernel, frame, trace', i) {
      if i <= n {
        assert MomentAt(shots, s, pmm, kernel, frame, trace, i) && trace'[..i] == trace[..i];
      }
    }
    forall i | 0 <= i < n + 1 ensures EffectAt(shots', s, pmm, kernel, frame, trace', i) {
      if i < n {
        assert EffectAt(shots, s, pmm, kernel, frame, trace, i) && trace'[..i] == trace[..i];
      }
    }
  }

  // -------- what that means for the frames --------

  /** Process i was made from an image that asks for page n. */
  ghost predicate PageAt(start: Mem, images: seq<Made>, i: nat, n: nat) {
    i < |images| && PageOf(start, images[i], n)
  }

  ghost predicate DifferentFrames(m: Mem, d: int, v: nat, e: int, w: nat) {
    Walk(m, d, v).Mapped? && Walk(m, e, w).Mapped? && Walk(m, d, v).frame != Walk(m, e, w).frame
  }

  /** At every moment any two pages of processes, be it of one or of different ones, are backed by different frames. */
  lemma FramesDiffer(shots: seq<Shot>, s: Sched, pmm: PMM, kernel: int, frame: int, trace: seq<Happened>, k: nat,
                     i: nat, v: nat, j: nat, w: nat)
    requires s.Valid() && Followed(shots, s, pmm, kernel, frame, trace) && k < |shots|
    requires PageAt(shots[0].m, Images(trace[..k]), i, v / PAGE) && PageAt(shots[0].m, Images(trace[..k]), j, w / PAGE)
    requires v < TWO32 && w < TWO32 && (i != j || v / PAGE != w / PAGE)
    ensures |shots[k].procs| == |Images(trace[..k])|
    ensures DifferentFrames(shots[k].m, Pd(shots[k].m, shots[k].procs[i]), v, Pd(shots[k].m, shots[k].procs[j]), w)
  {
    hide InRun, Pcbs, Images, Memories, Events, PageOf;
    assert MomentAt(shots, s, pmm, kernel, frame, trace, k);
    FramesInRun(shots[0], shots[k], pmm, kernel, frame, Images(trace[..k]),
                Memories(shots[0].m, s, kernel, trace[..k]), i, v, j, w);
  }

  lemma FramesInRun(start: Shot, s: Shot, pmm: PMM, kernel: int, frame: int, images: seq<Made>,
                    known: seq<map<nat, byte>>, i: nat, v: nat, j: nat, w: nat)
    requires InRun(start, s, pmm, kernel, frame, images, known) && v < TWO32 && w < TWO32
    requires PageAt(start.m, images, i, v / PAGE) && PageAt(start.m, images, j, w / PAGE)
    requires i != j || v / PAGE != w / PAGE
    ensures |s.procs| == |images|
    ensures DifferentFrames(s.m, Pd(s.m, s.procs[i]), v, Pd(s.m, s.procs[j]), w)
  {
    hide ShotOk, ClientsKept, WalksKept, PlainArea, IsImage, PageOf, Walk, Word, PlainPage;
    assert ProcessOk(start.m, s.m, Pd(s.m, s.procs[i]), s.spaces[i], images[i], known[i], frame);
    assert ProcessOk(start.m, s.m, Pd(s.m, s.procs[j]), s.spaces[j], images[j], known[j], frame);
    var y :| y in s.spaces[i] && y.0 == v / PAGE;
    var z :| z in s.spaces[j] && z.0 == w / PAGE;
    ShotSpace(s, pmm, kernel, i);
    ShotSpace(s, pmm, kernel, j);
    SpaceByte(s.m, pmm, s.dirs, s.list, Pd(s.m, s.procs[i]), s.spaces[i], y, v);
    SpaceByte(s.m, pmm, s.dirs, s.list, Pd(s.m, s.procs[j]), s.spaces[j], z, w);
    PagesOfShot(s, pmm, kernel, i, y, j, z);
  }

  /** In particular the stack at 0xbfff0000 of every process is its own, however many were created. */
  lemma StacksDiffer(shots: seq<Shot>, s: Sched, pmm: PMM, kernel: int, frame: int, trace: seq<Happened>, k: nat,
                     i: nat, j: nat)
    requires s.Valid() && Followed(shots, s, pmm, kernel, frame, trace) && k < |shots|
    requires i < |shots[k].procs| && j < |shots[k].procs| && i != j
    ensures DifferentFrames(shots[k].m, Pd(shots[k].m, shots[k].procs[i]), 0xbfff_0000,
                            Pd(shots[k].m, shots[k].procs[j]), 0xbfff_0000)
  {
    hide ShotOk, Pcbs, Images, Memories, Events, DifferentFrames;
    assert MomentAt(shots, s, pmm, kernel, frame, trace, k);
    FramesDiffer(shots, s, pmm, kernel, frame, trace, k, i, STACK, j, STACK);
  }
}
