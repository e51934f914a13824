/** user::Process (src/userland/process.cpp): creating and switching processes in the one memory.
    It refines the machine of module Scheduler. */
module Processes {
  import opened Memory
  import opened Bitmaps
  import opened Frames
  import opened Layout
  import opened Buckets
  import opened Heaps
  import opened Kmallocs
  import opened Paging
  import opened Spaces
  import opened Loader
  import opened Machines
  import opened Records
  import opened Creation
  import opened Joining
  import opened Scheduler

  /** A moment of the system: its memory, and the ghost fields that say what lies where in it. */
  datatype Shot = Shot(m: Mem, head: int, list: seq<int>, live: set<int>, dirs: set<int>, first: int, procs: seq<int>,
                       spaces: seq<Space>)

  ghost predicate ShotOk(s: Shot, pmm: PMM, kernel: int) {
    SystemOk(s.m, pmm, s.head, s.list, s.live, s.dirs, kernel, s.first, s.procs, s.spaces)
  }

  /** The registers of the process at p fit its address space: it pushes first to the end of its stack's page, and
      starts at the image's entry point if the image is good. */
  ghost predicate RegistersReady(m: Mem, m': Mem, p: int, elf: int, pages: Pages) {
    && StackReady(m', Pd(m', p), StateAt(m', p + 4), pages.stack)
    && (Magic(m, elf) ==> RegWord(StateAt(m', p + 4), 9) == EntryPoint(m, elf))
  }

  lemma StackTop(kernelPtr: nat)
    ensures P2V(kernelPtr + 0x1000) == KERNEL + (kernelPtr + 0x1000) % WINDOW
  {
  }

  lemma RegistersFit(m: Mem, s: Shot, pmm: PMM, kernel: int, p: int, elf: int, pages: Pages, before: nat)
    requires ShotOk(s, pmm, kernel) && s.procs != [] && s.procs[|s.procs| - 1] == p
    requires s.spaces != [] && s.spaces[|s.spaces| - 1] == UserPages(m, elf, pages)
    requires Built(StateAt(s.m, p + 4), EntryAfter(m, elf, before))
    ensures RegistersReady(m, s.m, p, elf, pages)
  {
    hide SystemOk, Built, StateAt, StackReady, RegWord, UserPages, Word, SpaceOk;
    LastSpace(s.m, pmm, s.head, s.list, s.live, s.dirs, kernel, s.first, s.procs, s.spaces);
    StackIsReady(m, s.m, pmm, s.dirs, s.list, Pd(s.m, p), elf, pages, StateAt(s.m, p + 4),
                 EntryAfter(m, elf, before));
    InitialRegisters(StateAt(s.m, p + 4), EntryAfter(m, elf, before));
    EntryIs(m, elf, before);
  }

  class System {
    const ram: array<byte>
    const pmm: PMM
    const heap: Kmalloc
    const kernelPd: nat
    var processes: nat
    var current: nat
    var init: bool                 // Process::_init
    var cr3: nat                   // physical address of the active directory
    ghost var procs: seq<int>      // the records in list order
    ghost var cur: nat             // place of `current`
    ghost var dirs: set<int>       // every page directory
    ghost var spaces: seq<Space>   // the frames each process was given for its pages

    ghost predicate Valid()
      reads this, heap, ram
    {
      && heap.ram == ram && heap.pmm == pmm
      && SystemOk(ram[..], pmm, heap.buckets, heap.list, heap.live, dirs, kernelPd, processes, procs, spaces)
      && if procs == [] then current == 0 && cur == 0 else cur < |procs| && current == procs[cur]
    }

    ghost function Now(): Shot
      reads this, heap, ram
    {
      Shot(ram[..], heap.buckets, heap.list, heap.live, dirs, processes, procs, spaces)
    }

    /** The scheduler this memory stands for. */
    ghost function Abs(): Sched
      reads this, ram
    {
      Sched(Pcbs(ram[..], procs), cur, init, P2V(cr3))
    }

    constructor (heap: Kmalloc, kernelPd: nat, ghost dirs: set<int>)
      requires MachineOk(heap.ram[..], heap.pmm, heap.buckets, heap.list, heap.live, dirs) && kernelPd in dirs
      ensures Valid() && Abs() == Boot(kernelPd)
      ensures this.heap == heap && this.kernelPd == kernelPd && this.dirs == dirs
    {
      hide PagingOk, HeapOk, HeapPagesOk, Held, P2V, V2P, PMM.Valid;
      DirectoryPage(heap.ram[..], heap.pmm, dirs, kernelPd);
      P2VInvertsV2P(kernelPd);
      this.ram, this.pmm, this.heap, this.kernelPd := heap.ram, heap.pmm, heap, kernelPd;
      processes, current, init, cr3 := 0, 0, false, V2P(kernelPd);
      procs, cur, spaces := [], 0, [];
      this.dirs := dirs;
    }

    method EnableScheduling()
      requires Valid()
      modifies `init
      ensures Valid() && Abs() == Step(old(Abs()), Enable) && init
    {
      hide SystemOk, PcbAt, P2V;
      init := true;
    }

    /** Adds a process at the end of the list.  No earlier directory changes, nor any page but the new ones, nor any
        block of the heap but the process records. */
    method CreateProcess(elf: Elf32, ghost len: nat) returns (p: nat, ghost pages: Pages)
      requires Valid() && elf.entryPoint < TWO32
      requires ImageOk(ram[..], elf.elfHeader, len) && InData(ram[..], pmm, dirs, elf.elfHeader, len)
      requires UserAreaFree(ram[..], kernelPd, elf.elfHeader)
      requires |pmm.Free(ram[..])| >= 5 + 2 * PhNum(ram[..], elf.elfHeader)
      modifies this, elf, heap, ram
      ensures Valid() && Abs().Valid() && procs == old(procs) + [p]
      ensures var pcb := PcbAt(ram[..], p);
              && Abs() == Step(old(Abs()), Create(pcb, kernelPd)) && dirs == old(dirs) + {pcb.pd}
              && Built(pcb.regs, EntryAfter(old(ram[..]), elf.elfHeader, old(elf.entryPoint)))
              && ProcessAdded(old(ram[..]), ram[..], pmm, old(dirs), old(heap.list), old(heap.live), old(procs),
                              heap.list, heap.live, p, pcb.pd, elf.elfHeader, pages)
      ensures elf.entryPoint == EntryAfter(old(ram[..]), elf.elfHeader, old(elf.entryPoint))
      ensures spaces == old(spaces) + [UserPages(old(ram[..]), elf.elfHeader, pages)]
      ensures P2V(cr3) == kernelPd && RegistersReady(old(ram[..]), ram[..], p, elf.elfHeader, pages)
    {
      hide RegistersReady, P2V, V2P, SystemOk, SpaceMade, SpaceReady, WalksKept, PlainUntouched, ImageOk, InData,
           UserAreaFree, ClientsKept, UserPages, Built, PcbAt, EntryAfter, PhNum, PMM.Free, KernelStackTop,
           ProcessAdded, PMM.Used;
      ghost var m := ram[..];
      var pd, kernelPtr;
      pd, kernelPtr, pages := PrepareSpace(elf, len);
      ghost var m1 := ram[..];
      ghost var space := UserPages(m, elf.elfHeader, pages);
      StackTop(kernelPtr);
      p := NewRecord(elf.entryPoint, pd, P2V(kernelPtr + 0x1000), space);
      ghost var m2 := ram[..];
      PcbParts(m2, p);
      Append(p, space);
      CreationDone(m, m1, m2, ram[..], pmm, old(heap.buckets), old(heap.list), old(heap.live), old(dirs), kernelPd,
                   old(processes), old(procs), old(spaces), heap.list, heap.live, p, pd, elf.elfHeader, len, pages);
      PcbParts(ram[..], p);
      RegistersFit(m, Now(), pmm, kernelPd, p, elf.elfHeader, pages, old(elf.entryPoint));
    }

    /** The address space of the new process, up to the return to the kernel's directory. */
    method PrepareSpace(elf: Elf32, ghost len: nat) returns (pd: nat, kernelPtr: nat, ghost pages: Pages)
      requires Valid() && elf.entryPoint < TWO32
      requires ImageOk(ram[..], elf.elfHeader, len) && InData(ram[..], pmm, dirs, elf.elfHeader, len)
      requires UserAreaFree(ram[..], kernelPd, elf.elfHeader)
      requires |pmm.Free(ram[..])| >= 5 + 2 * PhNum(ram[..], elf.elfHeader)
      modifies `cr3, `dirs, elf, ram
      ensures Valid() && P2V(cr3) == kernelPd && dirs == old(dirs) + {pd}
      ensures SpaceMade(old(ram[..]), ram[..], pmm, old(dirs), pd, elf.elfHeader, pages)
      ensures Pcbs(ram[..], procs) == Pcbs(old(ram[..]), procs) && ClientsKept(old(ram[..]), ram[..], heap.live, procs)
      ensures SpaceReady(ram[..], pmm, dirs, heap.list, procs, spaces, pd, kernelPd,
                         UserPages(old(ram[..]), elf.elfHeader, pages))
      ensures |pmm.Free(ram[..])| >= |pmm.Free(old(ram[..]))| - 4 - 2 * PhNum(old(ram[..]), elf.elfHeader)
      ensures elf.entryPoint == EntryAfter(old(ram[..]), elf.elfHeader, old(elf.entryPoint))
      ensures kernelPtr + PAGE <= WINDOW && pages.kstack == KERNEL + kernelPtr
    {
      hide P2V, V2P, SystemOk, SpaceMade, SpaceReady, ImageOk, InData, UserAreaFree, ClientsKept, UserPages, EntryAfter,
           PhNum, PMM.Free, PMM.Used;
      ghost var m := ram[..];
      SystemHolds(m, pmm, heap.buckets, heap.list, heap.live, dirs, kernelPd, processes, procs, spaces);
      pd, kernelPtr, cr3, pages := NewSpace(ram, pmm, kernelPd, dirs, elf, len);
      SpaceJoined(m, ram[..], pmm, heap.buckets, heap.list, heap.live, dirs, kernelPd, processes, procs, spaces, pd,
                  elf.elfHeader, pages);
      dirs := dirs + {pd};
      cr3 := V2P(kernelPd);
    }

    /** calloc and the assignments to the fields of the new record. */
    method NewRecord(entry: nat, pd: nat, kernelStackTop: nat, ghost space: Space) returns (p: nat)
      requires Valid() && entry < TWO32 && kernelStackTop < TWO32 && |pmm.Free(ram[..])| >= 1
      requires SpaceReady(ram[..], pmm, dirs, heap.list, procs, spaces, pd, kernelPd, space)
      modifies heap`buckets, heap`list, heap`live, ram
      ensures Valid() && Pcbs(ram[..], procs) == Pcbs(old(ram[..]), procs) && WalksKept(old(ram[..]), ram[..], dirs)
      ensures heap.live == old(heap.live) + {p} && p !in old(heap.live)
      ensures ClientsKept(old(ram[..]), ram[..], old(heap.live), procs) && KernelStackTop(ram[..], p) == kernelStackTop
      ensures |pmm.Free(ram[..])| >= |pmm.Free(old(ram[..]))| - 1
      ensures RecordReady(ram[..], heap.live, procs, p) && Pd(ram[..], p) == pd && Built(StateAt(ram[..], p + 4), entry)
      ensures SpaceReady(ram[..], pmm, dirs, heap.list, procs, spaces, pd, kernelPd, space)
      ensures PlainUntouched(old(ram[..]), ram[..], pmm, dirs, old(heap.list), dirs, heap.list)
    {
      hide SystemOk, SpaceReady, WalksKept, PlainKept, PlainUntouched, Built, StateAt, Taking, ForeignKept, HeapOk,
           SomeRoom, Words, Word, SizeOf, Zeroed, Block, ClientsKept, KernelStackTop, PMM.Free;
      ghost var m := ram[..];
      SystemHolds(m, pmm, heap.buckets, heap.list, heap.live, dirs, kernelPd, processes, procs, spaces);
      ClassOfRecord();
      p := heap.Calloc(1, RECORD);
      ghost var m1 := ram[..];
      RecordAllocated(m, m1, pmm, old(heap.buckets), old(heap.list), old(heap.live), dirs, kernelPd, processes, procs,
                      spaces, heap.buckets, heap.list, heap.live, p);
      UntouchedIsKept(m, m1, pmm, dirs, old(heap.list), dirs, heap.list);
      ReadyKept(m, m1, pmm, dirs, old(heap.list), heap.list, procs, spaces, pd, kernelPd, space);
      ZeroWords(m1, p);
      TakenBlock(m, m1, pmm, old(heap.live), heap.live, heap.buckets, heap.list, p, 128);
      PdBound(m1, pmm, heap.buckets, heap.list, heap.live, dirs, kernelPd, processes, procs, spaces, pd, space);
      FillRecord(ram, p, entry, pd, kernelStackTop);
      RecordFilled(m1, ram[..], pmm, heap.buckets, heap.list, heap.live, dirs, kernelPd, processes, procs, spaces, p);
      UntouchedIsKept(m1, ram[..], pmm, dirs, heap.list, dirs, heap.list);
      UntouchedTrans(m, m1, ram[..], pmm, dirs, old(heap.list), dirs, heap.list, dirs, heap.list);
      ReadyKept(m1, ram[..], pmm, dirs, heap.list, heap.list, procs, spaces, pd, kernelPd, space);
      WalksKeptTrans(m, m1, ram[..], dirs);
      ClientsKeptTrans(m, m1, ram[..], old(heap.live), old(heap.live), procs);
      FreeLosesOne(pmm, m, m1, FrameOf(PageBegin(p)));
      FreeKept(pmm, m1, ram[..]);
    }

    /** The walk to the end of the list, and the new link. */
    method Append(p: nat, ghost space: Space)
      requires Valid() && RecordReady(ram[..], heap.live, procs, p)
      requires SpaceReady(ram[..], pmm, dirs, heap.list, procs, spaces, Pd(ram[..], p), kernelPd, space)
      modifies `processes, `current, `procs, `spaces, ram
      ensures Valid() && WalksKept(old(ram[..]), ram[..], dirs)
      ensures PlainUntouched(old(ram[..]), ram[..], pmm, dirs, heap.list, dirs, heap.list)
      ensures procs == old(procs) + [p] && spaces == old(spaces) + [space]
      ensures Pcbs(ram[..], procs) == Pcbs(old(ram[..]), old(procs)) + [PcbAt(old(ram[..]), p)]
      ensures PcbAt(ram[..], p) == PcbAt(old(ram[..]), p)
      ensures KernelStackTop(ram[..], p) == KernelStackTop(old(ram[..]), p)
      ensures ClientsKept(old(ram[..]), ram[..], heap.live, old(procs)) && pmm.Used(ram[..]) == pmm.Used(old(ram[..]))
    {
      hide SystemOk, SpaceReady, WalksKept, PlainUntouched, PcbAt, SizeOf, Word, RecordReady, ClientsKept,
           KernelStackTop;
      ghost var m := ram[..];
      RecordAddress(m, pmm, heap.buckets, heap.list, heap.live, dirs, kernelPd, processes, procs, spaces, p);
      var last := processes;
      ghost var first := processes;
      if last == 0 {
        NoRecord(m, pmm, heap.buckets, heap.list, heap.live, dirs, kernelPd, processes, procs, spaces);
        processes := p;
        current := p;
      } else {
        last := Tail();
        Store32(ram, last + 64, p);
      }
      RecordIsReady(m, heap.live, procs, p);
      RecordAppended(m, ram[..], pmm, heap.buckets, heap.list, heap.live, dirs, kernelPd, first, procs, spaces,
                     processes, p, space);
      assert (procs + [p])[|procs|] == p;
      procs := procs + [p];
      spaces := spaces + [space];
    }

    method Tail() returns (last: nat)
      requires Valid() && processes != 0
      ensures procs != [] && last == procs[|procs| - 1] && InRam(ram.Length, last, RECORD)
    {
      hide SystemOk, Word;
      last := processes;
      ghost var n := 0;
      NoRecord(ram[..], pmm, heap.buckets, heap.list, heap.live, dirs, kernelPd, processes, procs, spaces);
      RecordPlace(ram[..], pmm, heap.buckets, heap.list, heap.live, dirs, kernelPd, processes, procs, spaces, 0);
      while Load32(ram, last + 64) != 0
        invariant 0 <= n < |procs| && last == procs[n] && InRam(ram.Length, last, RECORD)
        decreases |procs| - n
      {
        RecordPlace(ram[..], pmm, heap.buckets, heap.list, heap.live, dirs, kernelPd, processes, procs, spaces, n);
        last := Load32(ram, last + 64);
        n := n + 1;
        RecordPlace(ram[..], pmm, heap.buckets, heap.list, heap.live, dirs, kernelPd, processes, procs, spaces, n);
      }
      RecordPlace(ram[..], pmm, heap.buckets, heap.list, heap.live, dirs, kernelPd, processes, procs, spaces, n);
      if n + 1 < |procs| {
        RecordPlace(ram[..], pmm, heap.buckets, heap.list, heap.live, dirs, kernelPd, processes, procs, spaces, n + 1);
      }
    }

    /** The timer interrupt: does what the abstract scheduler does, and changes nothing else but the interrupt frame. */
    method SwitchProcess(state: nat)
      requires Valid() && InRam(ram.Length, state, STATE)
      requires PlainArea(ram[..], pmm, dirs, heap.list, state, STATE)
      modifies `current, `cr3, `cur, ram
      ensures Valid() && Abs().Valid()
      ensures var (s, regs) := Switch(old(Abs()), StateAt(old(ram[..]), state));
              Abs() == s && StateAt(ram[..], state) == regs
      ensures WalksKept(old(ram[..]), ram[..], dirs) && ClientsKept(old(ram[..]), ram[..], heap.live, procs)
      ensures PlainOutside(old(ram[..]), ram[..], pmm, dirs, heap.list, state, STATE)
      ensures pmm.Used(ram[..]) == pmm.Used(old(ram[..]))
      ensures !old(init) || old(current) == 0 ==> ram[..] == old(ram[..]) && current == old(current) && cr3 == old(cr3)
    {
      hide SystemOk, PlainArea, StateAt, SameWalk, PcbAt, ClientsKept, PlainOutside;
      ghost var m := ram[..];
      if cur < |procs| {
        RecordPlace(m, pmm, heap.buckets, heap.list, heap.live, dirs, kernelPd, processes, procs, spaces, cur);
      }
      if !init || current == 0 {
        assert Abs() == old(Abs()) && (!init || Pcbs(m, procs) == []);
        WalksKeptRefl(m, dirs);
        ClientsKeptRefl(m, heap.live, procs);
        OutsideRefl(m, pmm, dirs, heap.list, state, STATE);
        return;
      }
      SwitchToNext(state);
    }

    /** The part of switch_process that saves one process and resumes the next. */
    method SwitchToNext(state: nat)
      requires Valid() && InRam(ram.Length, state, STATE) && init && procs != []
      requires PlainArea(ram[..], pmm, dirs, heap.list, state, STATE)
      modifies `current, `cr3, `cur, ram
      ensures Valid()
      ensures Switch(old(Abs()), StateAt(old(ram[..]), state)) == (Abs(), StateAt(ram[..], state))
      ensures WalksKept(old(ram[..]), ram[..], dirs) && ClientsKept(old(ram[..]), ram[..], heap.live, procs)
      ensures PlainOutside(old(ram[..]), ram[..], pmm, dirs, heap.list, state, STATE)
      ensures pmm.Used(ram[..]) == pmm.Used(old(ram[..]))
    {
      hide SystemOk, PlainArea, StateAt, Word, PlainKept, PlainUntouched, PlainOutside, WalksKept, RecordOk,
           StateCopied, PcbAt, ClientsKept, PMM.Used;
      ghost var m := ram[..];
      SaveCurrent(state);
      ghost var m1 := ram[..];
      ghost var n := if cur + 1 < |procs| then cur + 1 else 0;
      RecordPlace(m1, pmm, heap.buckets, heap.list, heap.live, dirs, kernelPd, processes, procs, spaces, cur);
      RecordPlace(m1, pmm, heap.buckets, heap.list, heap.live, dirs, kernelPd, processes, procs, spaces, n);
      var next := Load32(ram, current + 64);
      current := if next != 0 then next else processes;
      cur := n;
      cr3 := V2P(Load32(ram, current));
      StateApart(m1, pmm, heap.buckets, heap.list, heap.live, dirs, kernelPd, processes, procs, spaces, cur, state);
      Memcpy(ram, state, current + 4, STATE);
      StateIsCopied(m1, ram[..], state, procs[n] + 4);
      StateRestored(m1, ram[..], pmm, heap.buckets, heap.list, heap.live, dirs, kernelPd, processes, procs, spaces,
                    procs[n], state);
      WalksKeptTrans(m, m1, ram[..], dirs);
      ClientsKeptTrans(m, m1, ram[..], heap.live, heap.live, procs);
      OutsideTrans(m, m1, ram[..], pmm, dirs, heap.list, state, STATE);
      SwitchMatches(m, m1, ram[..], procs, old(cur), n, state, P2V(old(cr3)), cr3);
    }

    /** The first memcpy of switch_process: the interrupted registers go to the current record. */
    method SaveCurrent(state: nat)
      requires Valid() && InRam(ram.Length, state, STATE) && procs != []
      requires PlainArea(ram[..], pmm, dirs, heap.list, state, STATE)
      modifies ram
      ensures Valid() && PlainArea(ram[..], pmm, dirs, heap.list, state, STATE)
      ensures Pcbs(ram[..], procs) ==
              Pcbs(old(ram[..]), procs)[cur := PcbAt(old(ram[..]), procs[cur]).(regs := StateAt(old(ram[..]), state))]
      ensures WalksKept(old(ram[..]), ram[..], dirs) && ClientsKept(old(ram[..]), ram[..], heap.live, procs)
      ensures PlainUntouched(old(ram[..]), ram[..], pmm, dirs, heap.list, dirs, heap.list)
      ensures pmm.Used(ram[..]) == pmm.Used(old(ram[..]))
    {
      hide SystemOk, PlainArea, StateAt, Word, PlainKept, PlainUntouched, WalksKept, RecordOk, StateCopied, PcbAt,
           ClientsKept, PMM.Used;
      ghost var m := ram[..];
      RecordPlace(m, pmm, heap.buckets, heap.list, heap.live, dirs, kernelPd, processes, procs, spaces, cur);
      StateApart(m, pmm, heap.buckets, heap.list, heap.live, dirs, kernelPd, processes, procs, spaces, cur, state);
      Memcpy(ram, current + 4, state, STATE);
      StateIsCopied(m, ram[..], procs[cur] + 4, state);
      StateSaved(m, ram[..], pmm, heap.buckets, heap.list, heap.live, dirs, kernelPd, processes, procs, spaces, cur,
                 state);
      PlainAreaKept(m, ram[..], pmm, dirs, heap.list, dirs, heap.list, state, STATE);
    }
  }
}
