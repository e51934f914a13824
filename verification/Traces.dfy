/** What the runs of module SystemRuns promise about their traces: what happens to interrupts and stores, and what a
    process made from a written image finds. */
module Traces {
  import opened Memory
  import opened Frames
  import opened Heaps
  import opened Paging
  import opened Spaces
  import opened Loader
  import opened Elves
  import opened Machines
  import opened Scheduler
  import opened Records
  import opened Creation
  import opened Joining
  import opened Processes
  import opened Isolation
  import opened SystemRuns

  /** What one more event does to the scheduler, the images and the memories. */
  lemma OneMore(start: Mem, s: Sched, kernel: int, trace: seq<Happened>, i: nat)
    requires s.Valid() && i < |trace|
    ensures var now, h := Run(s, Events(trace[..i], kernel)), trace[i];
            && Run(s, Events(trace[..i + 1], kernel)) ==
               (if h.ProcessMade? then Step(now, Create(h.pcb, kernel))
                else if h.TicksStarted? then Step(now, Enable)
                else if h.Switched? then Switch(now, h.captured).0
                else now)
            && Images(trace[..i + 1]) == Images(trace[..i]) + (if h.ProcessMade? then [h.made] else [])
            && Memories(start, s, kernel, trace[..i + 1]) ==
               Remember(start, now, h, Memories(start, s, kernel, trace[..i]))
  {
    hide Remember;
    var now, h := Run(s, Events(trace[..i], kernel)), trace[i];
    assert trace[..i + 1][..i] == trace[..i];
    RunTwice(s, Events(trace[..i], kernel), EventsOf(h, kernel));
    OneEvent(now, h, kernel);
  }

  lemma OneMoreEvent(s: Sched, kernel: int, trace: seq<Happened>, i: nat)
    requires s.Valid() && i < |trace|
    ensures var now, h := Run(s, Events(trace[..i], kernel)), trace[i];
            Run(s, Events(trace[..i + 1], kernel)) ==
            if h.ProcessMade? then Step(now, Create(h.pcb, kernel))
            else if h.TicksStarted? then Step(now, Enable)
            else if h.Switched? then Switch(now, h.captured).0
            else now
  {
    var now, h := Run(s, Events(trace[..i], kernel)), trace[i];
    assert trace[..i + 1][..i] == trace[..i];
    RunTwice(s, Events(trace[..i], kernel), EventsOf(h, kernel));
    OneEvent(now, h, kernel);
  }

  // -------- interrupts --------

  /** Action k found scheduling disabled or no process to run. */
  ghost predicate IdleAt(s: Sched, kernel: int, trace: seq<Happened>, k: nat)
    requires s.Valid() && k <= |trace|
  {
    var now := Run(s, Events(trace[..k], kernel));
    !now.on || now.procs == []
  }

  /** It does as long as nobody enabled scheduling, and as long as no process was made. */
  lemma {:induction false} IdleAtFirst(s: Sched, kernel: int, trace: seq<Happened>, k: nat)
    requires s.Valid() && k <= |trace|
    ensures var now := Run(s, Events(trace[..k], kernel));
            && (!s.on && (forall j :: 0 <= j < k ==> !trace[j].TicksStarted?) ==> !now.on)
            && (s.procs == [] && (forall j :: 0 <= j < k ==> !trace[j].ProcessMade?) ==> now.procs == [])
  {
    hide Events, Images, Memories;
    if k == 0 {
      NoEvents(s, kernel, trace);
    } else {
      IdleAtFirst(s, kernel, trace, k - 1);
      OneMoreEvent(s, kernel, trace, k - 1);
    }
  }

  lemma NoEvents(s: Sched, kernel: int, trace: seq<Happened>)
    requires s.Valid()
    ensures Run(s, Events(trace[..0], kernel)) == s
  {
  }

  /** An interrupt before scheduling is enabled, or before there is a process, returns to what it interrupted: the
      registers are those captured, and no record and no byte outside the interrupt frame changes. */
  lemma EarlyInterrupt(shots: seq<Shot>, s: Sched, pmm: PMM, kernel: int, frame: int, trace: seq<Happened>, k: nat)
    requires s.Valid() && Followed(shots, s, pmm, kernel, frame, trace) && k < |trace| && trace[k].Switched?
    requires (!s.on && forall j :: 0 <= j < k ==> !trace[j].TicksStarted?)
             || (s.procs == [] && forall j :: 0 <= j < k ==> !trace[j].ProcessMade?)
    ensures trace[k].answer == trace[k].captured == StateAt(shots[k + 1].m, frame)
    ensures shots[k + 1] == shots[k].(m := shots[k + 1].m) && SameOutside(shots[k].m, shots[k + 1].m, frame, frame + 56)
    ensures Pcbs(shots[k + 1].m, shots[k].procs) == Pcbs(shots[k].m, shots[k].procs)
  {
    hide InRun, Events, Images, Memories, Pcbs, StateAt, UserMemory, PlainOutside, ClientsKept;
    IdleAtFirst(s, kernel, trace, k);
    assert EffectAt(shots, s, pmm, kernel, frame, trace, k);
    assert MomentAt(shots, s, pmm, kernel, frame, trace, k) && MomentAt(shots, s, pmm, kernel, frame, trace, k + 1);
    OneMoreEvent(s, kernel, trace, k);
  }

  // -------- under which directory --------

  /** From the start, and again from every creation on, the kernel's directory is the active one until an interrupt
      switches. */
  lemma {:induction false} KernelActive(s: Sched, kernel: int, trace: seq<Happened>, i: nat, k: nat)
    requires s.Valid() && i <= k <= |trace| && (if i == 0 then s.active == kernel else trace[i - 1].ProcessMade?)
    requires forall j :: i <= j < k && trace[j].Switched? ==> IdleAt(s, kernel, trace, j)
    ensures Run(s, Events(trace[..k], kernel)).active == kernel
    decreases k - i
  {
    hide Events;
    if k == 0 {
      NoEvents(s, kernel, trace);
    } else {
      if i < k {
        KernelActive(s, kernel, trace, i, k - 1);
      }
      OneMoreEvent(s, kernel, trace, k - 1);
    }
  }

  /** No process has the kernel's directory. */
  lemma KernelIsNoProcess(shots: seq<Shot>, s: Sched, pmm: PMM, kernel: int, frame: int, trace: seq<Happened>, k: nat)
    requires s.Valid() && Followed(shots, s, pmm, kernel, frame, trace) && k <= |trace|
    ensures forall p :: p in Run(s, Events(trace[..k], kernel)).procs ==> p.pd != kernel
  {
    hide Events, Images, Memories, MachineOk, SpacesOk, WalksKept, ClientsKept, PlainArea, ProcessOk, Word, StateAt,
         SizeOf;
    assert MomentAt(shots, s, pmm, kernel, frame, trace, k);
    var t := shots[k];
    forall j | 0 <= j < |t.procs| ensures Pcbs(t.m, t.procs)[j].pd != kernel {
      assert RecordOk(t.m, t.live, t.dirs, kernel, t.procs[j]);
    }
  }

  /** So no store of a process happens from the start, or from a creation on, until an interrupt switches. */
  lemma KernelStoresRefused(shots: seq<Shot>, s: Sched, pmm: PMM, kernel: int, frame: int, actions: seq<Action>,
                            trace: seq<Happened>, i: nat, k: nat)
    requires s.Valid() && Followed(shots, s, pmm, kernel, frame, trace)
    requires shots != [] && AllExplained(shots[0].m, s, kernel, actions, trace)
    requires k < |trace| == |actions| && actions[k].UserStore?
    requires i <= k && (if i == 0 then s.active == kernel else trace[i - 1].ProcessMade?)
    requires forall j :: i <= j < k && trace[j].Switched? ==> IdleAt(s, kernel, trace, j)
    ensures trace[k] == Refused
  {
    hide Events, Images, Followed, PageOf, Built;
    KernelActive(s, kernel, trace, i, k);
    KernelIsNoProcess(shots, s, pmm, kernel, frame, trace, k);
    assert ExplainedAt(shots[0].m, s, kernel, actions, trace, k);
  }

  // -------- the stack --------

  /** The images of a run so far are those of its first part, and what came after. */
  lemma {:induction false} ImagesGrow(trace: seq<Happened>, i: nat, k: nat)
    requires i < k <= |trace| && trace[i].ProcessMade?
    ensures var j := |Images(trace[..i])|; j < |Images(trace[..k])| && Images(trace[..k])[j] == trace[i].made
    decreases k - i
  {
    assert trace[..k][..k - 1] == trace[..k - 1];
    if i + 1 < k {
      ImagesGrow(trace, i, k - 1);
    }
  }

  /** What a process pushes first is always stored: with the stack pointer it was created with, and whenever it runs. */
  lemma FirstPushStored(shots: seq<Shot>, s: Sched, kernel: int, actions: seq<Action>, trace: seq<Happened>,
                        i: nat, k: nat, v: nat, x: byte)
    requires s.Valid() && shots != [] && AllExplained(shots[0].m, s, kernel, actions, trace)
    requires i < k < |trace| == |actions| && trace[i].ProcessMade? && actions[k] == UserStore(v, x)
    requires var now := Run(s, Events(trace[..k], kernel)); Running(now) && now.cur == |Images(trace[..i])|
    requires |trace[i].pcb.regs| == 56 && RegWord(trace[i].pcb.regs, 12) - 4 <= v < RegWord(trace[i].pcb.regs, 12)
    ensures trace[k] == Stored(v, x)
  {
    hide Events, Images, Built, RegWord, SegmentOn;
    assert ExplainedAt(shots[0].m, s, kernel, actions, trace, i);
    assert ExplainedAt(shots[0].m, s, kernel, actions, trace, k);
    assert exists entry :: Built(trace[i].pcb.regs, entry);
    var entry :| Built(trace[i].pcb.regs, entry);
    InitialRegisters(trace[i].pcb.regs, entry);
    ImagesGrow(trace, i, k);
  }

  // -------- processes made from written images --------

  /** The pages such an image asks for are those of its PT_LOAD segments. */
  lemma WrittenPages(m: Mem, a: int, p: Program, n: nat)
    requires Written(m, a, p)
    ensures SegmentOn(m, a, n) <==> AsksFor(p.segments, n * 0x1000)
  {
    hide Written, Phdr, Loads, PhNum, Image, Bytes, Magic, Loadable;
    HeaderRead(m, a, p);
    if SegmentOn(m, a, n) {
      var k: nat :| k < PhNum(m, a) && Loads(m, Phdr(m, a, k)) && VAddr(m, Phdr(m, a, k)) / PAGE == n;
      SegmentRead(m, a, p, k);
      LoadsExactlyWhen(m, a, p, k);
      assert p.segments[k] in p.segments;
    }
    if AsksFor(p.segments, n * 0x1000) {
      var s :| s in p.segments && Loadable(s) && s.vaddr / 0x1000 == n * 0x1000 / 0x1000;
      var k: nat :| k < |p.segments| && p.segments[k] == s;
      SegmentRead(m, a, p, k);
      LoadsExactlyWhen(m, a, p, k);
    }
  }

  /** What a process finds at first is the data of those segments, where the image wants it. */
  lemma WrittenByte(m: Mem, a: int, p: Program, k: nat, t: nat)
    requires Written(m, a, p) && OnePageEach(p.segments) && k < |p.segments| && Loadable(p.segments[k])
    requires t < |p.segments[k].data|
    ensures var v := p.segments[k].vaddr + t; v in ImageBytes(m, a) && ImageBytes(m, a)[v] == p.segments[k].data[t]
  {
    hide InSegment, SegmentAt, Magic, Written, Phdr, PhNum, Image, OnePageEach, Loadable, Word;
    var v := p.segments[k].vaddr + t;
    HeaderRead(m, a, p);
    ByteInSegment(m, a, p, k, v);
    var l: nat :| InSegment(m, a, l, v) && LoadedByte(m, a, v) == SegmentAt(m, a, l, v);
    ByteInSegment(m, a, p, l, v);
    OneSegment(p, k, l, v);
    SmallAddress(m, a, p, k, v);
  }

  lemma OneSegment(p: Program, k: nat, l: nat, v: int)
    requires OnePageEach(p.segments) && k < |p.segments| && l < |p.segments|
    requires Loadable(p.segments[k]) && Loadable(p.segments[l])
    requires p.segments[k].vaddr / 0x1000 == v / 0x1000 == p.segments[l].vaddr / 0x1000
    ensures k == l
  {
    hide Loadable;
  }

  lemma SmallAddress(m: Mem, a: int, p: Program, k: nat, v: int)
    requires OnePageEach(p.segments) && Written(m, a, p) && k < |p.segments| && Loadable(p.segments[k])
    requires p.segments[k].vaddr <= v < p.segments[k].vaddr + |p.segments[k].data|
    ensures v < TWO32
  {
    hide Loadable, Image;
    assert p.segments[k] in p.segments;
  }

  /** At address v there is a byte of segment k exactly if that is loaded and v is in it; of no other segment. */
  lemma ByteInSegment(m: Mem, a: int, p: Program, k: nat, v: int)
    requires Written(m, a, p) && OnePageEach(p.segments)
    ensures InSegment(m, a, k, v) <==>
            && k < |p.segments| && Loadable(p.segments[k])
            && p.segments[k].vaddr <= v < p.segments[k].vaddr + |p.segments[k].data|
    ensures InSegment(m, a, k, v) ==> SegmentAt(m, a, k, v) == p.segments[k].data[v - p.segments[k].vaddr]
    ensures InSegment(m, a, k, v) ==> p.segments[k].vaddr / 0x1000 == v / 0x1000
  {
    hide Written, Phdr, Loads, PhNum, Image, Magic, Word;
    HeaderRead(m, a, p);
    if k < |p.segments| {
      var s := p.segments[k];
      SegmentRead(m, a, p, k);
      LoadsExactlyWhen(m, a, p, k);
      assert s in p.segments;
      if InSegment(m, a, k, v) {
        assert Bytes(m, a + Offset(m, Phdr(m, a, k)), |s.data|)[v - s.vaddr] == s.data[v - s.vaddr];
      }
    }
  }

  /** A program whose segments lie below the kernel and off the stack's page, in a block of the heap, can be run. */
  lemma WrittenIsReady(s: Shot, a: int, p: Program, q: int)
    requires Written(s.m, a, p) && OnePageEach(p.segments)
    requires forall g :: g in p.segments && Loadable(g) ==> g.vaddr < 0xc000_0000 && g.vaddr / 0x1000 != 0xbfff0
    requires q in s.live && q <= a && a + |Image(p)| <= q + SizeOf(s.m, q)
    ensures ImageReady(s, a, |Image(p)|) && PhNum(s.m, a) == |p.segments|
  {
    hide Written, Phdr, Loads, PhNum, Image, Bytes, Magic, Loadable, SizeOf, OnePageEach, ImageOk;
    HeaderRead(s.m, a, p);
    WrittenIsOk(s.m, a, p);
    forall k: nat | k < |p.segments| && Loads(s.m, Phdr(s.m, a, k))
      ensures VAddr(s.m, Phdr(s.m, a, k)) < KERNEL && VAddr(s.m, Phdr(s.m, a, k)) / PAGE != STACK / PAGE
    {
      SegmentRead(s.m, a, p, k);
      LoadsExactlyWhen(s.m, a, p, k);
      assert p.segments[k] in p.segments;
    }
  }

  /** In every run a process made from a written program starts at the entry point written, reads every byte of every
      PT_LOAD segment at its own address, and has no page but those and its stack. */
  lemma ProgramStarts(shots: seq<Shot>, s: Sched, pmm: PMM, kernel: int, frame: int, actions: seq<Action>,
                      trace: seq<Happened>, i: nat, p: Program)
    requires s.Valid() && Followed(shots, s, pmm, kernel, frame, trace)
    requires AllExplained(shots[0].m, s, kernel, actions, trace) && i < |trace| && trace[i].ProcessMade?
    requires Written(shots[0].m, trace[i].made.elf, p) && OnePageEach(p.segments)
    ensures |trace[i].pcb.regs| == 56 && RegWord(trace[i].pcb.regs, 9) == p.entry
    ensures forall g, t :: g in p.segments && Loadable(g) && 0 <= t < |g.data| ==>
              UserByte(shots[i + 1].m, trace[i].pcb.pd, g.vaddr + t) == g.data[t]
    ensures |shots[i + 1].spaces| > 0
    ensures forall n: nat :: HasPage(shots[i + 1].spaces[|shots[i + 1].spaces| - 1], n) <==>
              (n == 0xbfff0 || (trace[i].made.second && n == 0xbfff1) || AsksFor(p.segments, n * 0x1000))
  {
    hide Written, Loadable, OnePageEach, Built, RegWord, UserByte, HasPage, ImageBytes, SegmentOn, AsksFor;
    var m, made := shots[0].m, trace[i].made;
    EntryWritten(m, s, kernel, actions, trace, i, p);
    NewestProcess(shots, s, pmm, kernel, frame, trace, i);
    forall g, t | g in p.segments && Loadable(g) && 0 <= t < |g.data|
      ensures UserByte(shots[i + 1].m, trace[i].pcb.pd, g.vaddr + t) == g.data[t]
    {
      var k: nat :| k < |p.segments| && p.segments[k] == g;
      WrittenByte(m, made.elf, p, k, t);
    }
    forall n: nat ensures SegmentOn(m, made.elf, n) <==> AsksFor(p.segments, n * 0x1000) {
      WrittenPages(m, made.elf, p, n);
    }
  }

  lemma EntryWritten(m: Mem, s: Sched, kernel: int, actions: seq<Action>, trace: seq<Happened>, i: nat, p: Program)
    requires s.Valid() && AllExplained(m, s, kernel, actions, trace) && i < |trace| && trace[i].ProcessMade?
    requires Written(m, trace[i].made.elf, p)
    ensures |trace[i].pcb.regs| == 56 && RegWord(trace[i].pcb.regs, 9) == p.entry
  {
    hide Written, Events, Images, Built, RegWord;
    assert ExplainedAt(m, s, kernel, actions, trace, i);
    HeaderRead(m, trace[i].made.elf, p);
    InitialRegisters(trace[i].pcb.regs, EntryAfter(m, trace[i].made.elf, 0));
  }

  /** What a run says about the process just made. */
  lemma NewestProcess(shots: seq<Shot>, s: Sched, pmm: PMM, kernel: int, frame: int, trace: seq<Happened>, i: nat)
    requires s.Valid() && Followed(shots, s, pmm, kernel, frame, trace) && i < |trace| && trace[i].ProcessMade?
    ensures |shots[i + 1].spaces| > 0
    ensures var t, made := shots[i + 1], trace[i].made;
            var space := t.spaces[|t.spaces| - 1];
            && Owns(shots[0].m, space, made)
            && Remembers(t.m, trace[i].pcb.pd, space, ImageBytes(shots[0].m, made.elf))
  {
    hide Events, Images, Memories, ShotOk, WalksKept, ClientsKept, PlainArea, OffFrame, Owns, Remembers, IsImage, Word,
         StateAt, ImageBytes;
    var t, n := shots[i + 1], |shots[i + 1].procs| - 1;
    assert MomentAt(shots, s, pmm, kernel, frame, trace, i) && MomentAt(shots, s, pmm, kernel, frame, trace, i + 1);
    OneMore(shots[0].m, s, kernel, trace, i);
    assert Pcbs(t.m, t.procs)[n] == trace[i].pcb;
    assert ProcessOk(shots[0].m, t.m, Pd(t.m, t.procs[n]), t.spaces[n], Images(trace[..i + 1])[n],
                     Memories(shots[0].m, s, kernel, trace[..i + 1])[n], frame);
  }
}
