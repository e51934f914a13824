/** The round-robin scheduler of src/userland/process.cpp as a machine on the process list,
    and what holds over all its runs. */
module Scheduler {
  import opened Memory

  /** struct interrupt_state, as its bytes. */
  type Regs = seq<byte>

  datatype Pcb = Pcb(pd: int, regs: Regs)

  /** The process list in order, the place of `current` in it, `_init`, and the directory in CR3. */
  datatype Sched = Sched(procs: seq<Pcb>, cur: nat, on: bool, active: int) {
    predicate Valid() {
      if procs == [] then cur == 0 else cur < |procs|
    }

    /** current->next ? current->next : processes */
    function Next(): nat {
      if cur + 1 < |procs| then cur + 1 else 0
    }

    function Save(state: Regs): Sched
      requires cur < |procs|
    {
      this.(procs := procs[cur := procs[cur].(regs := state)])
    }
  }

  datatype Event =
    | Create(pcb: Pcb, kernel: int)  // create_process, run under the kernel directory
    | Enable                         // enable_scheduling
    | Tick(state: Regs)              // timer interrupt: switch_process on the captured state

  /** switch_process: the next scheduler state, and the registers the interrupt returns with. */
  function Switch(s: Sched, state: Regs): (Sched, Regs)
    requires s.Valid()
  {
    if !s.on || s.procs == [] then (s, state)
    else
      var saved := s.Save(state);
      var n := s.Next();
      (saved.(cur := n, active := saved.procs[n].pd), saved.procs[n].regs)
  }

  function Step(s: Sched, e: Event): (s': Sched)
    requires s.Valid()
    ensures s'.Valid()
  {
    match e
    case Create(pcb, kernel) => s.(procs := s.procs + [pcb], active := kernel)
    case Enable => s.(on := true)
    case Tick(state) => Switch(s, state).0
  }

  function Run(s: Sched, es: seq<Event>): (s': Sched)
    requires s.Valid()
    ensures s'.Valid()
  {
    if es == [] then s else Step(Run(s, es[..|es| - 1]), es[|es| - 1])
  }

  lemma RunOneMore(s: Sched, es: seq<Event>, k: nat)
    requires s.Valid() && k < |es|
    ensures Run(s, es[..k + 1]) == Step(Run(s, es[..k]), es[k])
  {
    assert es[..k + 1][..k] == es[..k];
  }

  /** Process j is not the current one at any point of the run. */
  ghost predicate Waits(s: Sched, es: seq<Event>, j: nat)
    requires s.Valid()
  {
    forall k :: 0 <= k <= |es| ==> Run(s, es[..k]).cur != j
  }

  // -------- contexts --------

  /** A process that waits keeps its directory and its saved registers, whatever happens. */
  lemma {:induction false} WaitingKeepsSlot(s: Sched, es: seq<Event>, j: nat)
    requires s.Valid() && j < |s.procs| && Waits(s, es, j)
    ensures j < |Run(s, es).procs| && Run(s, es).procs[j] == s.procs[j]
  {
    if es != [] {
      var n := |es| - 1;
      var before := es[..n];
      assert es[..n] == before && es[..|es|] == es;
      forall k | 0 <= k <= |before| ensures Run(s, before[..k]).cur != j {
        assert before[..k] == es[..k];
      }
      WaitingKeepsSlot(s, before, j);
    }
  }

  /** The registers captured when process j is preempted are exactly those restored on its next turn,
      under its own directory, after any run of ticks and creations in between. */
  lemma ContextPreserved(s: Sched, captured: Regs, es: seq<Event>, other: Regs)
    requires s.Valid() && s.on && s.procs != []
    requires var j, s1 := s.cur, Switch(s, captured).0;
             s1.cur == j || (Waits(s1, es, j) && Run(s1, es).Next() == j && Run(s1, es).on)
    ensures var j, s1 := s.cur, Switch(s, captured).0;
            if s1.cur == j then
              Switch(s, captured).1 == captured && s1.active == s.procs[j].pd
            else
              var turn := Switch(Run(s1, es), other);
              turn.1 == captured && turn.0.cur == j && turn.0.active == s.procs[j].pd
  {
    var j, s1 := s.cur, Switch(s, captured).0;
    if s1.cur != j {
      WaitingKeepsSlot(s1, es, j);
      assert Run(s1, es[..|es|]).cur != j && es[..|es|] == es;
    }
  }

  // -------- fairness --------

  /** Ticks until process j is current again. */
  function Distance(s: Sched, j: nat): int {
    if s.cur < j then j - s.cur else |s.procs| - s.cur + j
  }

  function Ticks(es: seq<Event>): nat {
    if es == [] then 0 else Ticks(es[..|es| - 1]) + if es[|es| - 1].Tick? then 1 else 0
  }

  function Creates(es: seq<Event>): nat {
    if es == [] then 0 else Creates(es[..|es| - 1]) + if es[|es| - 1].Create? then 1 else 0
  }

  /** While process j waits every tick brings its turn nearer by one, and only a creation can put it off, by one. */
  lemma {:induction false} WaitingShrinks(s: Sched, es: seq<Event>, j: nat)
    requires s.Valid() && s.on && j < |s.procs| && Waits(s, es, j)
    ensures var t := Run(s, es);
            && t.on && j < |t.procs| && t.cur != j
            && Distance(s, j) - Ticks(es) <= Distance(t, j) <= Distance(s, j) - Ticks(es) + Creates(es)
  {
    assert es[..|es|] == es;
    if es != [] {
      var n := |es| - 1;
      var before := es[..n];
      assert es[..n] == before;
      forall k | 0 <= k <= |before| ensures Run(s, before[..k]).cur != j {
        assert before[..k] == es[..k];
      }
      WaitingShrinks(s, before, j);
    }
  }

  /** No process starves: it is current again within its distance plus one tick for every process created meanwhile. */
  lemma NoStarvation(s: Sched, es: seq<Event>, j: nat)
    requires s.Valid() && s.on && j < |s.procs|
    requires Ticks(es) >= Distance(s, j) + Creates(es)
    ensures !Waits(s, es, j)
  {
    if Waits(s, es, j) {
      WaitingShrinks(s, es, j);
    }
  }

  function TicksOnly(states: seq<Regs>): seq<Event> {
    seq(|states|, k requires 0 <= k < |states| => Tick(states[k]))
  }

  /** Without creations the processes take turns: after k ticks the current one is k places on, around the list. */
  lemma {:induction false} RoundRobin(s: Sched, states: seq<Regs>, k: nat)
    requires s.Valid() && s.on && s.procs != [] && k <= |states|
    ensures var t := Run(s, TicksOnly(states)[..k]);
            t.on && |t.procs| == |s.procs| && t.cur == (s.cur + k) % |s.procs|
  {
    if k > 0 {
      RoundRobin(s, states, k - 1);
      RunOneMore(s, TicksOnly(states), k - 1);
      var n := |s.procs|;
      Around(s.cur + k - 1, n);
    }
  }

  lemma Around(a: nat, n: nat)
    requires n > 0
    ensures (a + 1) % n == if a % n + 1 < n then a % n + 1 else 0
  {
    if a % n + 1 < n {
      ModUnique(a + 1, n, a / n, a % n + 1);
    } else {
      ModUnique(a + 1, n, a / n + 1, 0);
    }
  }

  /** With n processes and no creation a process runs again after exactly n ticks, and each other one
      is current at exactly one of the ticks in between. */
  lemma OneTurnEach(s: Sched, states: seq<Regs>, i: nat)
    requires s.Valid() && s.on && s.procs != [] && |states| == |s.procs| && i < |s.procs|
    ensures Run(s, TicksOnly(states)).cur == s.cur
    ensures forall k :: 0 <= k < |states| ==>
              (Run(s, TicksOnly(states)[..k]).cur == i <==> k == TurnOf(s, i))
  {
    var n := |s.procs|;
    assert TicksOnly(states)[..n] == TicksOnly(states);
    RoundRobin(s, states, n);
    ModUnique(s.cur + n, n, 1, s.cur);
    forall k | 0 <= k < n ensures Run(s, TicksOnly(states)[..k]).cur == i <==> k == TurnOf(s, i) {
      RoundRobin(s, states, k);
      TurnAt(s, i, k);
    }
  }

  /** The tick, counted from 0 for the current process, at which process i is current. */
  function TurnOf(s: Sched, i: nat): int {
    if s.cur <= i then i - s.cur else |s.procs| - s.cur + i
  }

  lemma TurnAt(s: Sched, i: nat, k: nat)
    requires s.Valid() && s.procs != [] && i < |s.procs| && k < |s.procs|
    ensures (s.cur + k) % |s.procs| == i <==> k == TurnOf(s, i)
  {
    var n := |s.procs|;
    if s.cur + k < n {
      ModUnique(s.cur + k, n, 0, s.cur + k);
    } else {
      ModUnique(s.cur + k, n, 1, s.cur + k - n);
    }
  }

  // -------- first turns --------

  /** The process control blocks created by a run, in order. */
  function Created(es: seq<Event>): seq<Pcb> {
    if es == [] then []
    else
      var e := es[|es| - 1];
      Created(es[..|es| - 1]) + if e.Create? then [e.pcb] else []
  }

  /** No process yet, under the kernel's directory. */
  function Boot(kernel: int): Sched {
    Sched([], 0, false, kernel)
  }

  /** From boot, a process other than the head that has not had a turn yet still has exactly the
      registers it was created with, so it starts with them. */
  lemma {:induction false} StartsAsBuilt(kernel: int, es: seq<Event>, i: nat, other: Regs)
    requires 1 <= i < |Created(es)|
    requires Waits(Boot(kernel), es, i)
    ensures var s := Run(Boot(kernel), es);
            && |s.procs| == |Created(es)| && s.procs[i] == Created(es)[i]
            && (s.on && s.Next() == i ==>
                  Switch(s, other).1 == Created(es)[i].regs && Switch(s, other).0.active == Created(es)[i].pd)
  {
    assert es[..|es|] == es;
    CreatedCount(kernel, es);
    var n := |es| - 1;
    var before := es[..n];
    assert es[..n] == before;
    CreatedCount(kernel, before);
    forall k | 0 <= k <= |before| ensures Run(Boot(kernel), before[..k]).cur != i {
      assert before[..k] == es[..k];
    }
    if i < |Created(before)| {
      StartsAsBuilt(kernel, before, i, other);
    }
  }

  lemma {:induction false} CreatedCount(kernel: int, es: seq<Event>)
    ensures |Run(Boot(kernel), es).procs| == |Created(es)|
  {
    if es != [] {
      CreatedCount(kernel, es[..|es| - 1]);
    }
  }

  /** Tick k of the run found scheduling disabled or no process to run. */
  ghost predicate IdleTick(kernel: int, es: seq<Event>, k: nat)
    requires k < |es|
  {
    !Run(Boot(kernel), es[..k]).on || Run(Boot(kernel), es[..k]).procs == []
  }

  /** So did every tick. */
  ghost predicate NoSwitchYet(kernel: int, es: seq<Event>) {
    forall k :: 0 <= k < |es| && es[k].Tick? ==> IdleTick(kernel, es, k)
  }

  lemma {:induction false} HeadIsCurrent(kernel: int, es: seq<Event>)
    requires NoSwitchYet(kernel, es)
    ensures Run(Boot(kernel), es).cur == 0
    ensures Run(Boot(kernel), es).procs == Created(es)
  {
    if es != [] {
      var n := |es| - 1;
      var before := es[..n];
      forall k | 0 <= k < |before| && before[k].Tick? ensures IdleTick(kernel, before, k) {
        assert before[..k] == es[..k] && es[k].Tick? && IdleTick(kernel, es, k);
      }
      HeadIsCurrent(kernel, before);
      assert es[n].Tick? ==> IdleTick(kernel, es, n);
    }
  }

  /** The head never starts as built: in every run from boot the first tick that switches puts the registers
      of the interrupted kernel into its slot, and the head's next turn resumes those. */
  lemma HeadStartsAsInterrupted(kernel: int, es: seq<Event>, captured: Regs, later: seq<Event>, other: Regs)
    requires NoSwitchYet(kernel, es) && Run(Boot(kernel), es).on && Created(es) != []
    requires var s1 := Switch(Run(Boot(kernel), es), captured).0;
             s1.cur == 0 || (Waits(s1, later, 0) && Run(s1, later).Next() == 0 && Run(s1, later).on)
    ensures var (s1, regs) := Switch(Run(Boot(kernel), es), captured);
            && s1.procs != [] && s1.procs[0].regs == captured
            && captured == if s1.cur == 0 then regs else Switch(Run(s1, later), other).1
  {
    HeadIsCurrent(kernel, es);
    ContextPreserved(Run(Boot(kernel), es), captured, later, other);
  }

  // -------- the active directory --------

  /** From boot, and again from every creation on, the kernel's directory is the active one until a tick switches. */
  lemma {:induction false} KernelIsActive(kernel: int, es: seq<Event>, i: nat)
    requires forall e :: e in es && e.Create? ==> e.kernel == kernel
    requires i <= |es| && (i == 0 || es[i - 1].Create?)
    requires forall k :: i <= k < |es| && es[k].Tick? ==> IdleTick(kernel, es, k)
    ensures Run(Boot(kernel), es).active == kernel
  {
    if es != [] {
      var n := |es| - 1;
      var before := es[..n];
      assert es[n] in es && es[..n] == before;
      if i <= n {
        forall k | i <= k < |before| && before[k].Tick? ensures IdleTick(kernel, before, k) {
          assert before[..k] == es[..k] && es[k].Tick? && IdleTick(kernel, es, k);
        }
        KernelIsActive(kernel, before, i);
        assert es[n].Tick? ==> IdleTick(kernel, es, n);
      }
    }
  }

  /** From a tick that switches on it is that of the current process, until the next creation. */
  lemma {:induction false} OwnIsActive(kernel: int, es: seq<Event>, i: nat)
    requires i < |es| && es[i].Tick? && !IdleTick(kernel, es, i)
    requires forall k :: i < k < |es| ==> !es[k].Create?
    ensures var s := Run(Boot(kernel), es); s.procs != [] && s.on && s.active == s.procs[s.cur].pd
  {
    var n := |es| - 1;
    var before := es[..n];
    if i < n {
      assert before[..i] == es[..i];
      OwnIsActive(kernel, before, i);
    }
  }

  /** A tick before scheduling is enabled, or before there is a process, returns what it interrupted and changes
      nothing. */
  lemma EarlyTick(kernel: int, es: seq<Event>, captured: Regs)
    requires (forall e :: e in es ==> !e.Enable?) || (forall e :: e in es ==> !e.Create?)
    ensures Switch(Run(Boot(kernel), es), captured) == (Run(Boot(kernel), es), captured)
  {
    StaysOff(kernel, es);
  }

  lemma {:induction false} StaysOff(kernel: int, es: seq<Event>)
    ensures (forall e :: e in es ==> !e.Enable?) ==> !Run(Boot(kernel), es).on
    ensures (forall e :: e in es ==> !e.Create?) ==> Run(Boot(kernel), es).procs == []
  {
    if es != [] {
      var before := es[..|es| - 1];
      assert es == before + [es[|es| - 1]];
      StaysOff(kernel, before);
    }
  }
}
