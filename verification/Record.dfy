/** Process records (src/userland/includes/process.hpp) in heap blocks, linked through `next`, each with a page
    directory of its own and frames taken for its pages; and what a switch does to them. */
module Records {
  import opened Memory
  import opened Bitmaps
  import opened Frames
  import opened Layout
  import opened Buckets
  import opened Heaps
  import opened Kmallocs
  import opened Paging
  import opened Spaces
  import opened Machines
  import opened Scheduler

  // -------- a process record: page_directory, regs, entrypoint, next, kernel_stack_top --------

  const RECORD: int := 72  // sizeof(Process)
  const STATE: int := 56   // sizeof(interrupt_state)

  function Pd(m: Mem, p: int): nat { Word(m, p) }

  function NextProc(m: Mem, p: int): nat { Word(m, p + 64) }

  function KernelStackTop(m: Mem, p: int): nat { Word(m, p + 68) }

  /** The interrupt_state at kernel pointer a. */
  function StateAt(m: Mem, a: int): (s: Regs)
    ensures |s| == STATE
  {
    seq<byte>(STATE, k => Byte(m, a + k))
  }

  function PcbAt(m: Mem, p: int): Pcb {
    Pcb(Pd(m, p), StateAt(m, p + 4))
  }

  function Pcbs(m: Mem, procs: seq<int>): (s: seq<Pcb>)
    ensures |s| == |procs| && forall i :: 0 <= i < |procs| ==> s[i] == PcbAt(m, procs[i])
  {
    seq(|procs|, i requires 0 <= i < |procs| => PcbAt(m, procs[i]))
  }

  /** The records form a list of distinct live blocks, each with a directory of its own. */
  ghost predicate ProcsOk(m: Mem, live: set<int>, dirs: set<int>, kernel: int, first: int, procs: seq<int>) {
    && first == At(procs, 0) && Distinct(procs)
    && (forall i :: 0 <= i < |procs| ==>
          RecordOk(m, live, dirs, kernel, procs[i]) && NextProc(m, procs[i]) == At(procs, i + 1))
    && forall i, j :: 0 <= i < j < |procs| ==> Pd(m, procs[i]) != Pd(m, procs[j])
  }

  ghost predicate RecordOk(m: Mem, live: set<int>, dirs: set<int>, kernel: int, p: int) {
    p in live && SizeOf(m, p) == 128 && Pd(m, p) in dirs && Pd(m, p) != kernel
  }

  // -------- user pages --------

  /** Pairs of a user page number and the page of the memory that was taken for it. */
  type Space = set<(nat, int)>

  ghost predicate SpaceOk(m: Mem, pmm: PMM, dirs: set<int>, list: seq<int>, pd: int, space: Space) {
    && (forall x :: x in space ==>
          Walk(m, pd, x.0 * PAGE) == Mapped(x.1 - KERNEL, 7) && PlainPage(m, pmm, dirs, list, x.1))
    && (forall x :: x in space ==> Open(m, pd, x.0 * PAGE))
    && forall x, y :: x in space && y in space && x.1 == y.1 ==> x == y
  }

  ghost predicate Apart(s: Space, t: Space) {
    forall x, y :: x in s && y in t ==> x.1 != y.1
  }

  /** Each process translates its pages to the frames taken for it, each to one of its own, and no two processes were
      given the same frame. */
  ghost predicate SpacesOk(m: Mem, pmm: PMM, dirs: set<int>, list: seq<int>, procs: seq<int>, spaces: seq<Space>) {
    && |spaces| == |procs|
    && (forall i :: 0 <= i < |procs| ==> SpaceOk(m, pmm, dirs, list, Pd(m, procs[i]), spaces[i]))
    && forall i, j :: 0 <= i < j < |procs| ==> Apart(spaces[i], spaces[j])
  }

  ghost predicate SystemOk(m: Mem, pmm: PMM, head: int, list: seq<int>, live: set<int>, dirs: set<int>, kernel: int,
                           first: int, procs: seq<int>, spaces: seq<Space>) {
    && MachineOk(m, pmm, head, list, live, dirs) && kernel in dirs
    && ProcsOk(m, live, dirs, kernel, first, procs)
    && SpacesOk(m, pmm, dirs, list, procs, spaces)
  }

  /** Every live block that is no process record keeps its bytes. */
  ghost predicate ClientsKept(m: Mem, m': Mem, live: set<int>, procs: seq<int>) {
    forall q :: q in live && q !in procs ==> BlockKept(m, m', q)
  }

  lemma ClientsKeptRefl(m: Mem, live: set<int>, procs: seq<int>)
    ensures ClientsKept(m, m, live, procs)
  {
  }

  lemma ClientsKeptTrans(m: Mem, m1: Mem, m': Mem, live: set<int>, live1: set<int>, procs: seq<int>)
    requires ClientsKept(m, m1, live, procs) && ClientsKept(m1, m', live1, procs) && live <= live1
    ensures ClientsKept(m, m', live, procs)
  {
  }

  // -------- what keeps them --------

  /** The record at p has the same links and directory. */
  ghost predicate LinksKept(m: Mem, m': Mem, p: int) {
    SizeOf(m', p) == SizeOf(m, p) && Pd(m', p) == Pd(m, p) && NextProc(m', p) == NextProc(m, p)
  }

  lemma RecordKept(m: Mem, m': Mem, p: int)
    requires BlockKept(m, m', p) && SizeOf(m, p) == 128
    ensures LinksKept(m, m', p) && PcbAt(m', p) == PcbAt(m, p) && KernelStackTop(m', p) == KernelStackTop(m, p)
  {
  }

  /** From m to m' the interrupt_state at src was copied to dst. */
  ghost predicate StateCopied(m: Mem, m': Mem, dst: int, src: int) {
    && SameOutside(m, m', dst, dst + STATE)
    && forall a :: dst <= a < dst + STATE ==> Byte(m', a) == Byte(m, src + (a - dst))
  }

  lemma StateIsCopied(m: Mem, m': Mem, dst: int, src: int)
    requires SameOutside(m, m', dst, dst + STATE)
    requires forall a :: dst <= a < dst + STATE ==> Byte(m', a) == Byte(m, src + (a - dst))
    ensures StateCopied(m, m', dst, src)
  {
  }

  lemma RecordAround(m: Mem, m': Mem, p: int, src: int)
    requires StateCopied(m, m', p + 4, src)
    ensures Pd(m', p) == Pd(m, p) && NextProc(m', p) == NextProc(m, p)
    ensures SameOutside(m, m', p, p + 128)
    ensures PcbAt(m', p) == PcbAt(m, p).(regs := StateAt(m, src))
  {
  }

  lemma StateMoved(m: Mem, m': Mem, dst: int, src: int)
    requires StateCopied(m, m', dst, src)
    ensures StateAt(m', dst) == StateAt(m, src)
  {
  }

  lemma ProcsKept(m: Mem, m': Mem, live: set<int>, dirs: set<int>, kernel: int, first: int, procs: seq<int>,
                  live': set<int>, dirs': set<int>)
    requires ProcsOk(m, live, dirs, kernel, first, procs) && live <= live' && dirs <= dirs'
    requires forall i :: 0 <= i < |procs| ==> LinksKept(m, m', procs[i])
    ensures ProcsOk(m', live', dirs', kernel, first, procs)
  {
    hide Word, SizeOf;
  }

  lemma SpacesKept(m: Mem, m': Mem, pmm: PMM, live: set<int>, dirs: set<int>, kernel: int, first: int, list: seq<int>,
                   procs: seq<int>, spaces: seq<Space>, dirs': set<int>, list': seq<int>)
    requires SpacesOk(m, pmm, dirs, list, procs, spaces) && ProcsOk(m, live, dirs, kernel, first, procs)
    requires PlainKept(m, m', pmm, dirs, list, dirs', list')
    requires WalksKept(m, m', dirs)
    requires forall i :: 0 <= i < |procs| ==> Pd(m', procs[i]) == Pd(m, procs[i])
    ensures SpacesOk(m', pmm, dirs', list', procs, spaces)
  {
    hide Word, SizeOf, DirKept, PlainKept, SpaceOk;
    forall i | 0 <= i < |procs| ensures SpaceOk(m', pmm, dirs', list', Pd(m', procs[i]), spaces[i]) {
      assert RecordOk(m, live, dirs, kernel, procs[i]);
      SpaceKept(m, m', pmm, dirs, list, dirs', list', Pd(m, procs[i]), spaces[i]);
    }
  }

  lemma SpaceKept(m: Mem, m': Mem, pmm: PMM, dirs: set<int>, list: seq<int>, dirs': set<int>, list': seq<int>, pd: int,
                  space: Space)
    requires SpaceOk(m, pmm, dirs, list, pd, space) && DirKept(m, m', pd)
    requires PlainKept(m, m', pmm, dirs, list, dirs', list')
    ensures SpaceOk(m', pmm, dirs', list', pd, space)
  {
    hide Word, PlainPage, WalkAt;
  }

  /** Steps that keep the blocks of the records, the plain pages and the translations keep the whole system. */
  lemma SystemKept(m: Mem, m': Mem, pmm: PMM, head: int, list: seq<int>, live: set<int>, dirs: set<int>, kernel: int,
                   first: int, procs: seq<int>, spaces: seq<Space>,
                   head': int, list': seq<int>, live': set<int>, dirs': set<int>)
    requires SystemOk(m, pmm, head, list, live, dirs, kernel, first, procs, spaces)
    requires MachineOk(m', pmm, head', list', live', dirs') && live <= live' && dirs <= dirs'
    requires forall i :: 0 <= i < |procs| ==> BlockKept(m, m', procs[i])
    requires PlainKept(m, m', pmm, dirs, list, dirs', list') && WalksKept(m, m', dirs)
    ensures SystemOk(m', pmm, head', list', live', dirs', kernel, first, procs, spaces)
    ensures Pcbs(m', procs) == Pcbs(m, procs)
  {
    hide MachineOk, SameWalk, WalksKept, PlainKept, BlockKept, SizeOf, SpacesOk, PlainPage, Byte, StateAt, Word;
    forall i | 0 <= i < |procs| ensures LinksKept(m, m', procs[i]) && PcbAt(m', procs[i]) == PcbAt(m, procs[i]) {
      assert RecordOk(m, live, dirs, kernel, procs[i]);
      RecordKept(m, m', procs[i]);
    }
    ProcsKept(m, m', live, dirs, kernel, first, procs, live', dirs');
    SpacesKept(m, m', pmm, live, dirs, kernel, first, list, procs, spaces, dirs', list');
  }

  // -------- switch_process --------

  /** Storing an interrupt_state into the record of one process. */
  lemma StateSaved(m: Mem, m': Mem, pmm: PMM, head: int, list: seq<int>, live: set<int>, dirs: set<int>, kernel: int,
                   first: int, procs: seq<int>, spaces: seq<Space>, c: nat, state: int)
    requires SystemOk(m, pmm, head, list, live, dirs, kernel, first, procs, spaces) && c < |procs|
    requires StateCopied(m, m', procs[c] + 4, state)
    ensures SystemOk(m', pmm, head, list, live, dirs, kernel, first, procs, spaces)
    ensures Pcbs(m', procs) == Pcbs(m, procs)[c := PcbAt(m, procs[c]).(regs := StateAt(m, state))]
    ensures WalksKept(m, m', dirs) && ClientsKept(m, m', live, procs) && pmm.Used(m') == pmm.Used(m)
    ensures PlainUntouched(m, m', pmm, dirs, list, dirs, list) && PlainKept(m, m', pmm, dirs, list, dirs, list)
  {
    hide MachineOk, SameWalk, PlainKept, PlainUntouched, BlockKept, SizeOf, SpacesOk, Byte, StateAt, StateCopied, Word;
    var p := procs[c];
    assert RecordOk(m, live, dirs, kernel, p);
    RecordAround(m, m', p, state);
    BlockStored(m, m', pmm, head, list, live, dirs, p);
    UntouchedIsKept(m, m', pmm, dirs, list, dirs, list);
    forall i | 0 <= i < |procs|
      ensures LinksKept(m, m', procs[i]) && (i != c ==> PcbAt(m', procs[i]) == PcbAt(m, procs[i]))
    {
      if i != c {
        assert RecordOk(m, live, dirs, kernel, procs[i]);
        RecordKept(m, m', procs[i]);
      }
    }
    ProcsKept(m, m', live, dirs, kernel, first, procs, live, dirs);
    SpacesKept(m, m', pmm, live, dirs, kernel, first, list, procs, spaces, dirs, list);
  }

  /** Storing an interrupt_state to the kernel stack. */
  lemma StateRestored(m: Mem, m': Mem, pmm: PMM, head: int, list: seq<int>, live: set<int>, dirs: set<int>, kernel: int,
                      first: int, procs: seq<int>, spaces: seq<Space>, p: int, state: int)
    requires SystemOk(m, pmm, head, list, live, dirs, kernel, first, procs, spaces)
    requires PlainArea(m, pmm, dirs, list, state, STATE)
    requires StateCopied(m, m', state, p + 4)
    ensures SystemOk(m', pmm, head, list, live, dirs, kernel, first, procs, spaces)
    ensures Pcbs(m', procs) == Pcbs(m, procs) && StateAt(m', state) == StateAt(m, p + 4)
    ensures WalksKept(m, m', dirs) && ClientsKept(m, m', live, procs) && pmm.Used(m') == pmm.Used(m)
    ensures PlainOutside(m, m', pmm, dirs, list, state, STATE)
  {
    hide MachineOk, SameWalk, PlainKept, BlockKept, SizeOf, SpacesOk, PlainPage, Byte, StateAt, Word;
    PlainStored(m, m', pmm, head, list, live, dirs, state, STATE);
    StateMoved(m, m', state, p + 4);
    assert forall i :: 0 <= i < |procs| ==> RecordOk(m, live, dirs, kernel, procs[i]);
    SystemKept(m, m', pmm, head, list, live, dirs, kernel, first, procs, spaces, head, list, live, dirs);
  }

  /** Where things are: the record of process c and its successor. */
  lemma RecordPlace(m: Mem, pmm: PMM, head: int, list: seq<int>, live: set<int>, dirs: set<int>, kernel: int,
                    first: int, procs: seq<int>, spaces: seq<Space>, c: nat)
    requires SystemOk(m, pmm, head, list, live, dirs, kernel, first, procs, spaces) && c < |procs|
    ensures InRam(|m|, procs[c], 128) && |m| <= WINDOW && procs[c] != 0
    ensures NextProc(m, procs[c]) == At(procs, c + 1) && first == procs[0]
    ensures KERNEL <= Pd(m, procs[c]) && P2V(V2P(Pd(m, procs[c]))) == Pd(m, procs[c])
    ensures RecordOk(m, live, dirs, kernel, procs[c])
  {
    hide Word, SpacesOk, HeapOk, PagingOk, HeapPagesOk, V2P, P2V;
    assert RecordOk(m, live, dirs, kernel, procs[c]);
    BlockBounds(m, pmm, head, list, live, procs[c]);
    DirectoryPage(m, pmm, dirs, Pd(m, procs[c]));
    P2VInvertsV2P(Pd(m, procs[c]));
  }

  /** The two copies and the step to the next record do what the abstract scheduler does. */
  lemma SwitchMatches(m: Mem, m1: Mem, m': Mem, procs: seq<int>, c: nat, n: nat, state: int, active: int, cr3: nat)
    requires c < |procs| && n == if c + 1 < |procs| then c + 1 else 0
    requires Pcbs(m1, procs) == Pcbs(m, procs)[c := PcbAt(m, procs[c]).(regs := StateAt(m, state))]
    requires Pcbs(m', procs) == Pcbs(m1, procs) && StateAt(m', state) == StateAt(m1, procs[n] + 4)
    requires P2V(cr3) == Pd(m1, procs[n])
    ensures Switch(Sched(Pcbs(m, procs), c, true, active), StateAt(m, state)) ==
            (Sched(Pcbs(m', procs), n, true, P2V(cr3)), StateAt(m', state))
  {
  }

  /** The interrupt frame does not overlap a process record. */
  lemma StateApart(m: Mem, pmm: PMM, head: int, list: seq<int>, live: set<int>, dirs: set<int>, kernel: int,
                   first: int, procs: seq<int>, spaces: seq<Space>, c: nat, state: int)
    requires SystemOk(m, pmm, head, list, live, dirs, kernel, first, procs, spaces) && c < |procs|
    requires PlainArea(m, pmm, dirs, list, state, STATE)
    ensures procs[c] + 4 + STATE <= state || state + STATE <= procs[c] + 4
  {
    hide Word, SpacesOk, DataPage, HeapOk, PagingOk, HeapPagesOk, FrameOf, FrameBase, PageBegin;
    var p := procs[c];
    assert RecordOk(m, live, dirs, kernel, p);
    BlockBounds(m, pmm, head, list, live, p);
    var a := if state < p + 4 then p + 4 else state;
    if p + 4 <= a < p + 4 + STATE {
      PageOfByte(PageBegin(p), a);
    }
    assert state <= a < state + STATE ==> PlainPage(m, pmm, dirs, list, FrameBase(FrameOf(a)));
  }

  // -------- create_process: the record --------

  /** The words of a record: page_directory, the 14 registers, entrypoint, next, kernel_stack_top. */
  function Words(m: Mem, p: int): (w: seq<int>)
    ensures |w| == RECORD / 4
  {
    seq(RECORD / 4, k => Word(m, p + 4 * k))
  }

  lemma WordStored(m: Mem, m': Mem, p: int, k: nat, x: int)
    requires k < RECORD / 4 && SameOutside(m, m', p + 4 * k, p + 4 * k + 4) && Word(m', p + 4 * k) == x
    ensures Words(m', p) == Words(m, p)[k := x]
  {
  }

  lemma ZeroWords(m: Mem, p: int)
    requires Zeroed(Block(m, p), RECORD)
    ensures forall k :: 0 <= k < RECORD / 4 ==> Words(m, p)[k] == 0
  {
    hide SizeOf;
    forall k | 0 <= k < RECORD / 4 ensures Words(m, p)[k] == 0 {
      assert Block(m, p)[4 * k] == 0 && Block(m, p)[4 * k + 1] == 0;
      assert Block(m, p)[4 * k + 2] == 0 && Block(m, p)[4 * k + 3] == 0;
    }
  }

  /** Word k of an interrupt_state: edi, esi, ebp, edx, ecx, ebx, eax, interrupt_number, error_code,
      eip, cs, eflags, user_esp, user_ss. */
  function RegWord(regs: Regs, k: nat): int
    requires 4 * k + 4 <= |regs|
  {
    regs[4 * k] as int + 0x100 * regs[4 * k + 1] as int
    + 0x1_0000 * regs[4 * k + 2] as int + 0x100_0000 * regs[4 * k + 3] as int
  }

  /** What a process starts with: its entry point, user code and stack segments, interrupts enabled, a stack. */
  function InitialWord(k: nat, entry: int): int {
    match k
    case 2 => 0xbfff_0000
    case 9 => entry
    case 10 => 0x1b
    case 11 => 0x202
    case 12 => 0xbfff_1000
    case 13 => 0x23
    case _ => 0
  }

  ghost predicate Built(regs: Regs, entry: int) {
    |regs| == STATE && forall k: nat :: k < STATE / 4 ==> RegWord(regs, k) == InitialWord(k, entry)
  }

  /** The registers a process starts with, by name: nothing in the general ones; the entry point; the user's code and
      stack selectors, both of privilege level 3; the interrupt flag; the stack pointer. */
  lemma InitialRegisters(regs: Regs, entry: int)
    requires Built(regs, entry)
    ensures |regs| == 56 && RegWord(regs, 9) == entry && RegWord(regs, 12) == 0xbfff_1000
    ensures RegWord(regs, 2) == 0xbfff_0000
    ensures RegWord(regs, 10) == 0x1b && RegWord(regs, 13) == 0x23 && RegWord(regs, 11) == 0x202
    ensures forall k: nat :: k < 9 && k != 2 ==> RegWord(regs, k) == 0
  {
    hide RegWord;
  }

  lemma StateWords(m: Mem, p: int, k: nat)
    requires k < STATE / 4
    ensures RegWord(StateAt(m, p + 4), k) == Words(m, p)[k + 1]
  {
  }

  method FillRecord(ram: array<byte>, p: nat, entry: nat, pd: nat, kernelStackTop: nat)
    requires InRam(ram.Length, p, RECORD) && entry < TWO32 && pd < TWO32 && kernelStackTop < TWO32
    requires forall k :: 0 <= k < RECORD / 4 ==> Words(ram[..], p)[k] == 0
    modifies ram
    ensures SameOutside(old(ram[..]), ram[..], p, p + RECORD)
    ensures Pd(ram[..], p) == pd && NextProc(ram[..], p) == 0 && Built(StateAt(ram[..], p + 4), entry)
    ensures KernelStackTop(ram[..], p) == kernelStackTop
    ensures Word(ram[..], p) == pd && Word(ram[..], p + 64) == 0 && Word(ram[..], p + 68) == kernelStackTop
    ensures Word(ram[..], p + 40) == entry && Word(ram[..], p + 52) == 0xbfff_1000
  {
    hide Word, Words, Byte, Built, StateAt;
    ghost var w := Words(ram[..], p);
    StoreWord(ram, p, 10, entry);
    StoreWord(ram, p, 11, 0x1b);
    StoreWord(ram, p, 13, 0xbfff_1000);
    StoreWord(ram, p, 14, 0x23);
    StoreWord(ram, p, 3, 0xbfff_0000);
    StoreWord(ram, p, 12, 0x202);
    StoreWord(ram, p, 0, pd);
    StoreWord(ram, p, 17, kernelStackTop);
    assert Words(ram[..], p) == Filled(w, entry, pd, kernelStackTop);
    RecordBuilt(ram[..], p, w, entry, pd, kernelStackTop);
  }

  /** The words of the record after the assignments, in their order. */
  ghost function Filled(w: seq<int>, entry: int, pd: int, top: int): seq<int>
    requires |w| == RECORD / 4
  {
    w[10 := entry][11 := 0x1b][13 := 0xbfff_1000][14 := 0x23]
    [3 := 0xbfff_0000][12 := 0x202][0 := pd][17 := top]
  }

  method StoreWord(ram: array<byte>, p: nat, k: nat, x: nat)
    requires InRam(ram.Length, p, RECORD) && k < RECORD / 4 && x < TWO32
    modifies ram
    ensures SameOutside(old(ram[..]), ram[..], p, p + RECORD)
    ensures Words(ram[..], p) == Words(old(ram[..]), p)[k := x]
  {
    hide Words;
    Store32(ram, p + 4 * k, x);
    WordStored(old(ram[..]), ram[..], p, k, x);
  }

  lemma RecordBuilt(m: Mem, p: int, w: seq<int>, entry: int, pd: int, top: int)
    requires |w| == RECORD / 4 && forall k :: 0 <= k < RECORD / 4 ==> w[k] == 0
    requires Words(m, p) == Filled(w, entry, pd, top)
    ensures Pd(m, p) == pd && NextProc(m, p) == 0 && KernelStackTop(m, p) == top && Built(StateAt(m, p + 4), entry)
    ensures Word(m, p + 40) == entry && Word(m, p + 52) == 0xbfff_1000
  {
    hide Word, Byte, StateAt, RegWord;
    assert Words(m, p)[10] == Word(m, p + 40) && Words(m, p)[13] == Word(m, p + 52);
    assert Words(m, p)[0] == Pd(m, p) && Words(m, p)[16] == NextProc(m, p) && Words(m, p)[17] == KernelStackTop(m, p);
    forall k: nat | k < STATE / 4 ensures RegWord(StateAt(m, p + 4), k) == InitialWord(k, entry) {
      StateWords(m, p, k);
    }
  }
}
