/**
 The life of one process, told from the events of a run: what last happened to it decides its state,
 the channel it sleeps on, whether it has been killed, its parent and its pid.
 */
module ProcLife {
  import opened Common
  import opened ProcTable

  /** What can happen to a process. */
  datatype Act =
    | Born
    | Dropped
    | Readied
    | Picked
    | Yielded
    | Slept(chan: Chan)
    | Woken
    | Exited
    | Reaped

  /** Event e takes place on a CPU that runs process p. */
  predicate By(s: Sys, e: Event, p: int) {
    && (e.Yield? || e.SleepOn? || e.WaitSleep? || e.Exit? || e.ForkFail? || e.ForkParent? || e.ForkReady? || e.AllocProc?)
    && Enabled(s, e) && CpuOf(s, e.c).pc.p == p
  }

  /** fork() in event e works on the new process p. */
  predicate ForksTo(s: Sys, e: Event, p: int) {
    && (e.ForkFail? || e.ForkParent? || e.ForkReady?)
    && Enabled(s, e) && s.procs[CpuOf(s, e.c).pc.p].forking == Some(p)
  }

  /** Event e wakes those who sleep on channel ch, or process p alone. */
  predicate Wakes(s: Sys, e: Event, p: int, ch: Chan) {
    && Enabled(s, e)
    && match e
       case Wakeup(c) => c == ch
       case Kill(q) => q == p
       case Exit(c) =>
         CpuOf(s, c).pc.p != p && Summons(s, CpuOf(s, c).pc.p, ch)
       case _ => false
  }

  /** What event e does to process p, to which last happened last. */
  function ActOf(s: Sys, e: Event, p: int, last: Option<Act>): Option<Act> {
    if !Enabled(s, e) then None
    else if last.Some? && last.value.Slept? && Wakes(s, e, p, last.value.chan) then Some(Woken)
    else
      match e
      case AllocProc(_, np) => if np == p then Some(Born) else None
      case ForkFail(_) => if ForksTo(s, e, p) then Some(Dropped) else None
      case ForkReady(_) => if ForksTo(s, e, p) then Some(Readied) else None
      case Pick(_, q) => if q == p then Some(Picked) else None
      case Yield(_) => if By(s, e, p) then Some(Yielded) else None
      case SleepOn(_, id) => if By(s, e, p) then Some(Slept(Other(id))) else None
      case WaitSleep(_) => if By(s, e, p) then Some(Slept(WaitChan(p))) else None
      case Exit(_) => if By(s, e, p) then Some(Exited) else None
      case Reap(_, z) => if z == p then Some(Reaped) else None
      case _ => None
  }

  /** What happened to p last in the run es; init starts out ready to run. */
  function LastAct(s0: Sys, es: seq<Event>, p: int): Option<Act>
    decreases |es|
  {
    if es == [] then if p == s0.init then Some(Readied) else None
    else
      var n := |es| - 1;
      var last := LastAct(s0, es[..n], p);
      var act := ActOf(Run(s0, es[..n]), es[n], p, last);
      if act.Some? then act else last
  }

  function Status(last: Option<Act>): PState {
    match last
    case None => Unused
    case Some(a) =>
      match a
      case Born => Embryo
      case Dropped => Unused
      case Readied => Runnable
      case Picked => Running
      case Yielded => Runnable
      case Slept(_) => Sleeping
      case Woken => Runnable
      case Exited => Zombie
      case Reaped => Unused
  }

  /** The life cycle: which act can come after which. */
  predicate CanFollow(last: Option<Act>, a: Act) {
    match a
    case Born => last == None || last == Some(Dropped) || last == Some(Reaped)
    case Dropped => last == Some(Born)
    case Readied => last == Some(Born)
    case Picked => last == Some(Readied) || last == Some(Yielded) || last == Some(Woken)
    case Yielded => last == Some(Picked)
    case Slept(_) => last == Some(Picked)
    case Woken => last.Some? && last.value.Slept?
    case Exited => last == Some(Picked)
    case Reaped => last == Some(Exited)
  }

  /** The table entry of p says what last happened to it. */
  predicate Tells(s: Sys, p: int, last: Option<Act>) {
    && p in s.procs && s.procs[p].state == Status(last)
    && (last.Some? && last.value.Slept? ==> s.procs[p].chan == last.value.chan)
  }

  // ---- one step ----

  /** The law of one step: p's entry tells what e does to p, and e does it only when the life cycle allows. */
  ghost predicate Lawful(s: Sys, e: Event, p: int, last: Option<Act>) {
    var a := ActOf(s, e, p, last);
    Tells(Do(s, e), p, if a.Some? then a else last) && (a.Some? ==> CanFollow(last, a.value))
  }

  lemma ExitLawful(s: Sys, c: int, p: int, last: Option<Act>)
    requires CpuInv(s) && Tells(s, p, last) && Enabled(s, Exit(c))
    ensures Lawful(s, Exit(c), p, last)
  {
    hide CpuInv, ExitProcs, HasZombieChild;
    ActorRuns(s, c);
    ExitAt(s, CpuOf(s, c).pc.p, p);
  }

  lemma WakingLawful(s: Sys, e: Event, p: int, last: Option<Act>)
    requires Tells(s, p, last) && Enabled(s, e) && (e.Wakeup? || e.Kill?)
    ensures Lawful(s, e, p, last)
  {
    hide WakeAll, ExitProcs;
    if e.Wakeup? {
      WakeAt(s.procs, e.chan, p);
    }
  }

  lemma ActorLawful(s: Sys, e: Event, p: int, last: Option<Act>)
    requires CpuInv(s) && Tells(s, p, last) && Enabled(s, e) && (e.Yield? || e.SleepOn? || e.WaitSleep? || e.AllocProc?)
    ensures Lawful(s, e, p, last)
  {
    hide CpuInv, WakeAll, ExitProcs, HasZombieChild, HasChild;
    ActorRuns(s, e.c);
  }

  lemma ForkLawful(s: Sys, e: Event, p: int, last: Option<Act>)
    requires CpuInv(s) && ForkInv(s) && Tells(s, p, last) && Enabled(s, e) && (e.ForkFail? || e.ForkParent? || e.ForkReady?)
    ensures Lawful(s, e, p, last)
  {
    hide CpuInv, ForkInv, WakeAll, ExitProcs, HasZombieChild, HasChild;
    ForkActs(s, e.c);
  }

  lemma StepLawful(s: Sys, e: Event, p: int, last: Option<Act>)
    requires Inv(s) && Tells(s, p, last)
    ensures Lawful(s, e, p, last)
  {
    hide LockInv, CpuInv, ForkInv, ParentInv, WaitInv, PidInv, ExitProcs, WakeAll, HasZombieChild, HasChild;
    if Enabled(s, e) {
      match e
      case Exit(c) => ExitLawful(s, c, p, last);
      case Wakeup(_) => WakingLawful(s, e, p, last);
      case Kill(_) => WakingLawful(s, e, p, last);
      case Yield(_) => ActorLawful(s, e, p, last);
      case SleepOn(_, _) => ActorLawful(s, e, p, last);
      case WaitSleep(_) => ActorLawful(s, e, p, last);
      case AllocProc(_, _) => ActorLawful(s, e, p, last);
      case ForkFail(_) => ForkLawful(s, e, p, last);
      case ForkParent(_) => ForkLawful(s, e, p, last);
      case ForkReady(_) => ForkLawful(s, e, p, last);
      case _ =>
    }
  }

  /** fork() acts for a running process on an embryo. */
  lemma ForkActs(s: Sys, c: int)
    requires CpuInv(s) && ForkInv(s) && (CpuOf(s, c).pc.InLock? || CpuOf(s, c).pc.InProc?)
    ensures CpuOf(s, c).pc.p in s.procs && s.procs[CpuOf(s, c).pc.p].state == Running
    ensures var f := s.procs[CpuOf(s, c).pc.p].forking; f.Some? ==> EmbryoAt(s, f.value)
  {
    ActorRuns(s, c);
    var p := CpuOf(s, c).pc.p;
    if s.procs[p].forking.Some? {
      EmbryoOf(s, p, s.procs[p].forking.value);
    }
  }

  // ---- every run ----

  lemma {:induction false} RunLast(s: Sys, es: seq<Event>)
    requires es != []
    ensures Run(s, es) == Do(Run(s, es[..|es| - 1]), es[|es| - 1])
    decreases |es|
  {
    hide Do;
    var n := |es| - 1;
    if n == 0 {
      assert es[1..] == [] && es[..0] == [];
    } else {
      assert es[1..][..n - 1] == es[..n][1..];
      RunLast(Do(s, es[0]), es[1..]);
    }
  }

  /** In every run each process is in the state that what last happened to it says, asleep on the channel it named. */
  lemma {:induction false} StateIsLastAct(slots: set<int>, init: int, es: seq<Event>, p: int)
    requires init in slots && p in slots
    ensures Tells(Run(Boot(slots, init), es), p, LastAct(Boot(slots, init), es, p))
    decreases |es|
  {
    hide Do, Inv, ActOf;
    var s0 := Boot(slots, init);
    if es != [] {
      hide Run, Tells, Boot;
      var n := |es| - 1;
      StateIsLastAct(slots, init, es[..n], p);
      BootInv(slots, init);
      RunKeeps(s0, es[..n]);
      StepLawful(Run(s0, es[..n]), es[n], p, LastAct(s0, es[..n], p));
      RunLast(s0, es);
    }
  }

  /** Acts follow one another only along the life cycle. */
  lemma LifeCycle(slots: set<int>, init: int, es: seq<Event>, e: Event, p: int)
    requires init in slots && p in slots
    ensures var s0 := Boot(slots, init);
            var last := LastAct(s0, es, p);
            var a := ActOf(Run(s0, es), e, p, last);
            a.Some? ==> CanFollow(last, a.value)
  {
    hide Do, Inv, ActOf, Run, Tells, Boot, LastAct;
    var s0 := Boot(slots, init);
    StateIsLastAct(slots, init, es, p);
    BootInv(slots, init);
    RunKeeps(s0, es);
    StepLawful(Run(s0, es), e, p, LastAct(s0, es, p));
  }

  /**
   A sleeper sleeps because it asked to, on the channel it named, and it is woken exactly by a wakeup
   of that channel, by being killed, or by an exit that calls for it.
   */
  lemma SleepersWakeExactly(slots: set<int>, init: int, es: seq<Event>, e: Event, p: int)
    requires init in slots && p in slots
    ensures var s0 := Boot(slots, init);
            var s, last := Run(s0, es), LastAct(s0, es, p);
            && p in s.procs && p in Do(s, e).procs
            && (s.procs[p].state == Sleeping <==> last.Some? && last.value.Slept?)
            && (s.procs[p].state == Sleeping ==>
                  && s.procs[p].chan == last.value.chan
                  && Do(s, e).procs[p].state == (if Wakes(s, e, p, s.procs[p].chan) then Runnable else Sleeping))
  {
    hide Do, Inv, Run, Boot, LastAct, Enabled;
    var s0 := Boot(slots, init);
    var s, last := Run(s0, es), LastAct(s0, es, p);
    StateIsLastAct(slots, init, es, p);
    BootInv(slots, init);
    RunKeeps(s0, es);
    StepLawful(s, e, p, last);
  }

  /** No CPU picks p in this run. */
  ghost predicate Unpicked(s: Sys, es: seq<Event>, p: int)
    decreases |es|
  {
    es == [] || (!(es[0].Pick? && es[0].p == p && Enabled(s, es[0])) && Unpicked(Do(s, es[0]), es[1..], p))
  }

  lemma {:induction false} RunnableUntilPicked(s: Sys, es: seq<Event>, p: int)
    requires Inv(s) && p in s.procs && s.procs[p].state == Runnable && Unpicked(s, es, p)
    ensures var s' := Run(s, es); p in s'.procs && s'.procs[p].state == Runnable
    decreases |es|
  {
    hide Do, Inv, Enabled;
    if es != [] {
      StepKeeps(s, es[0]);
      StepLawful(s, es[0], p, Some(Readied));
      RunnableUntilPicked(Do(s, es[0]), es[1..], p);
    }
  }

  /** A process that yields is runnable until the scheduler picks it, and then it runs. */
  lemma YieldedUntilPicked(slots: set<int>, init: int, es: seq<Event>, c: int, later: seq<Event>)
    requires init in slots
    requires var s := Run(Boot(slots, init), es);
             Enabled(s, Yield(c)) && Unpicked(Do(s, Yield(c)), later, CpuOf(s, c).pc.p)
    ensures var s := Run(Boot(slots, init), es);
            var s' := Run(Do(s, Yield(c)), later);
            var p := CpuOf(s, c).pc.p;
            && p in s'.procs && s'.procs[p].state == Runnable
            && (forall d | CpuOf(s', d).pc == Looping :: Enabled(s', Pick(d, p)) && p in Do(s', Pick(d, p)).procs
                                                        && Do(s', Pick(d, p)).procs[p].state == Running)
  {
    hide Inv, Run, Boot, Unpicked;
    BootInv(slots, init);
    RunKeeps(Boot(slots, init), es);
    var s := Run(Boot(slots, init), es);
    StepKeeps(s, Yield(c));
    RunnableUntilPicked(Do(s, Yield(c)), later, CpuOf(s, c).pc.p);
  }

  // ---- killed, parent and pid ----

  /** p has been killed since it was last reaped. */
  predicate KilledSince(s0: Sys, es: seq<Event>, p: int)
    decreases |es|
  {
    es != [] &&
    var n := |es| - 1;
    if !Enabled(Run(s0, es[..n]), es[n]) then KilledSince(s0, es[..n], p)
    else if es[n] == Kill(p) then true
    else if es[n].Reap? && es[n].z == p then false
    else KilledSince(s0, es[..n], p)
  }

  /** Whoever forked p, or init once that one has exited; nobody after p is reaped. */
  function ParentOf(s0: Sys, es: seq<Event>, p: int): Option<int>
    decreases |es|
  {
    if es == [] then None
    else
      var n := |es| - 1;
      var s, before := Run(s0, es[..n]), ParentOf(s0, es[..n], p);
      if !Enabled(s, es[n]) then before
      else if es[n].ForkParent? && ForksTo(s, es[n], p) then Some(CpuOf(s, es[n].c).pc.p)
      else if es[n].Reap? && es[n].z == p then None
      else if es[n].Exit? && before == Some(CpuOf(s, es[n].c).pc.p) then Some(s0.init)
      else before
  }

  /** The number of processes allocated. */
  function Births(s0: Sys, es: seq<Event>): nat
    decreases |es|
  {
    if es == [] then 0
    else
      var n := |es| - 1;
      Births(s0, es[..n]) + if es[n].AllocProc? && Enabled(Run(s0, es[..n]), es[n]) then 1 else 0
  }

  /** init has pid 1, and the others are numbered from 2 on as they are allocated. */
  function PidOf(s0: Sys, es: seq<Event>, p: int): nat
    decreases |es|
  {
    if es == [] then if p == s0.init then 1 else 0
    else
      var n := |es| - 1;
      if !Enabled(Run(s0, es[..n]), es[n]) then PidOf(s0, es[..n], p)
      else if es[n].AllocProc? && es[n].np == p then Births(s0, es[..n]) + 2
      else if es[n].Reap? && es[n].z == p then 0
      else PidOf(s0, es[..n], p)
  }

  /** The child that p's fork() is building. */
  function Building(s0: Sys, es: seq<Event>, p: int): Option<int>
    decreases |es|
  {
    if es == [] then None
    else
      var n := |es| - 1;
      var s := Run(s0, es[..n]);
      if es[n].AllocProc? && By(s, es[n], p) then Some(es[n].np)
      else if (es[n].ForkFail? || es[n].ForkReady?) && By(s, es[n], p) then None
      else Building(s0, es[..n], p)
  }

  /** What one step does to these fields. */
  ghost predicate FieldsStep(s: Sys, e: Event, p: int) {
    var s' := Do(s, e);
    p in s.procs && p in s'.procs &&
    var o, n := s.procs[p], s'.procs[p];
    && s'.init == s.init
    && s'.nextpid == s.nextpid + (if e.AllocProc? && Enabled(s, e) then 1 else 0)
    && n.killed == (if !Enabled(s, e) then o.killed else if e == Kill(p) then true
                    else if e.Reap? && e.z == p then false else o.killed)
    && n.parent == (if !Enabled(s, e) then o.parent
                    else if e.ForkParent? && ForksTo(s, e, p) then Some(CpuOf(s, e.c).pc.p)
                    else if e.Reap? && e.z == p then None
                    else if e.Exit? && o.parent == Some(CpuOf(s, e.c).pc.p) then Some(s.init) else o.parent)
    && n.pid == (if !Enabled(s, e) then o.pid else if e.AllocProc? && e.np == p then s.nextpid
                 else if e.Reap? && e.z == p then 0 else o.pid)
    && n.forking == (if e.AllocProc? && By(s, e, p) then Some(e.np)
                     else if (e.ForkFail? || e.ForkReady?) && By(s, e, p) then None else o.forking)
  }

  lemma ExitFields(s: Sys, c: int, p: int)
    requires p in s.procs && Enabled(s, Exit(c))
    ensures FieldsStep(s, Exit(c), p)
  {
    hide ExitProcs, Summons;
    ExitAt(s, CpuOf(s, c).pc.p, p);
  }

  lemma AllocFields(s: Sys, c: int, np: int, p: int)
    requires CpuInv(s) && ForkInv(s) && p in s.procs && Enabled(s, AllocProc(c, np))
    ensures FieldsStep(s, AllocProc(c, np), p)
  {
    hide CpuInv, ExitProcs;
    ActorRuns(s, c);
    assert s.procs[np].forking == None;
  }

  lemma ForkFields(s: Sys, e: Event, p: int)
    requires CpuInv(s) && ForkInv(s) && p in s.procs && Enabled(s, e) && (e.ForkFail? || e.ForkParent? || e.ForkReady?)
    ensures FieldsStep(s, e, p)
  {
    hide CpuInv, ForkInv, ExitProcs, WakeAll;
    ForkActs(s, e.c);
  }

  lemma OtherFields(s: Sys, e: Event, p: int)
    requires ForkInv(s) && p in s.procs && !e.Exit? && !e.AllocProc? && !e.ForkFail? && !e.ForkParent? && !e.ForkReady?
    ensures FieldsStep(s, e, p)
  {
    hide ExitProcs, WakeAll, HasZombieChild, HasChild;
    if Enabled(s, e) && e.Wakeup? {
      WakeAt(s.procs, e.chan, p);
    }
    if Enabled(s, e) && e.Reap? {
      assert s.procs[e.z].forking == None;
    }
  }

  lemma StepFields(s: Sys, e: Event, p: int)
    requires Inv(s) && p in s.procs
    ensures FieldsStep(s, e, p)
  {
    hide LockInv, CpuInv, ForkInv, ParentInv, WaitInv, PidInv, Do, ForksTo;
    if !Enabled(s, e) {
      assert Do(s, e) == s by { NoStep(s, e); }
    } else {
      match e
      case Exit(c) => ExitFields(s, c, p);
      case AllocProc(c, np) => AllocFields(s, c, np, p);
      case ForkFail(_) => ForkFields(s, e, p);
      case ForkParent(_) => ForkFields(s, e, p);
      case ForkReady(_) => ForkFields(s, e, p);
      case _ => OtherFields(s, e, p);
    }
  }

  lemma NoStep(s: Sys, e: Event)
    requires !Enabled(s, e)
    ensures Do(s, e) == s
  {
  }

  /** In every run a process is killed, and has its parent and pid, exactly as the events say. */
  lemma {:induction false} FieldsFromEvents(slots: set<int>, init: int, es: seq<Event>, p: int)
    requires init in slots && p in slots
    ensures var s0 := Boot(slots, init);
            var s := Run(s0, es);
            && p in s.procs && s.init == init && s.nextpid == Births(s0, es) + 2
            && s.procs[p].killed == KilledSince(s0, es, p)
            && s.procs[p].parent == ParentOf(s0, es, p)
            && s.procs[p].pid == PidOf(s0, es, p)
            && s.procs[p].forking == Building(s0, es, p)
    decreases |es|
  {
    hide Do, Inv, Enabled, ForksTo, By;
    var s0 := Boot(slots, init);
    if es != [] {
      hide Run;
      var n := |es| - 1;
      FieldsFromEvents(slots, init, es[..n], p);
      BootInv(slots, init);
      RunKeeps(s0, es[..n]);
      StepFields(Run(s0, es[..n]), es[n], p);
      RunLast(s0, es);
    }
  }

  // ---- who runs on a CPU ----

  /** The process that CPU c picked last. */
  function LastPick(s0: Sys, es: seq<Event>, c: int): Option<int>
    decreases |es|
  {
    if es == [] then None
    else
      var n := |es| - 1;
      if es[n].Pick? && es[n].c == c && Enabled(Run(s0, es[..n]), es[n]) then Some(es[n].p) else LastPick(s0, es[..n], c)
  }

  lemma StepOnCpu(s: Sys, e: Event, c: int)
    ensures var pc, pc' := CpuOf(s, c).pc, CpuOf(Do(s, e), c).pc;
            !pc'.Idle? && !pc'.Looping? ==>
              if e.Pick? && e.c == c && Enabled(s, e) then pc'.p == e.p else !pc.Idle? && !pc.Looping? && pc'.p == pc.p
  {
    hide WakeAll, ExitProcs, HasZombieChild, HasChild;
  }

  /** A CPU works for the process it picked last. */
  lemma {:induction false} WorksForLastPick(s0: Sys, es: seq<Event>, c: int)
    requires s0.cpus == map[]
    ensures var pc := CpuOf(Run(s0, es), c).pc; !pc.Idle? && !pc.Looping? ==> LastPick(s0, es, c) == Some(pc.p)
    decreases |es|
  {
    hide Do, Enabled;
    if es != [] {
      var n := |es| - 1;
      WorksForLastPick(s0, es[..n], c);
      StepOnCpu(Run(s0, es[..n]), es[n], c);
      RunLast(s0, es);
    }
  }

  // ---- what can always be done next ----

  lemma {:induction false} RunConcat(s: Sys, a: seq<Event>, b: seq<Event>)
    ensures Run(s, a + b) == Run(Run(s, a), b)
    decreases |a|
  {
    hide Do;
    if a == [] {
      assert a + b == b;
    } else {
      assert (a + b)[1..] == a[1..] + b;
      RunConcat(Do(s, a[0]), a[1..], b);
    }
  }

  lemma RunOne(s: Sys, e: Event)
    ensures Run(s, [e]) == Do(s, e)
  {
    hide Do;
    assert [e][1..] == [] && Run(Do(s, e), []) == Do(s, e);
  }

  lemma RunThree(s: Sys, a: Event, b: Event, c: Event)
    ensures Run(s, [a, b, c]) == Do(Do(Do(s, a), b), c)
  {
    hide Do;
    assert [a, b, c] == [a] + ([b] + [c]);
    RunConcat(s, [a], [b] + [c]);
    RunConcat(Do(s, a), [b], [c]);
    RunOne(s, a);
    RunOne(Do(s, a), b);
    RunOne(Do(Do(s, a), b), c);
  }

  /** CPU 0 is in the scheduler's loop, and no other CPU has started. */
  predicate AtScheduler(s: Sys) {
    s.cpus == map[0 := Cpu(Looping, None, None)] && s.lock == Some(0)
  }

  /** CPU 0 runs p, which has taken the lock. */
  predicate Inside(s: Sys, p: int) {
    s.cpus == map[0 := Cpu(InLock(p), Some(p), Some(p))] && s.lock == Some(0) && p in s.procs
  }

  /** A runnable process can be run. */
  lemma Dispatch(s: Sys, p: int)
    requires AtScheduler(s) && p in s.procs && s.procs[p].state == Runnable
    ensures var s' := Run(s, [Pick(0, p), ProcRelease(0), Acquire(0)]);
            Inside(s', p) && s' == s.(procs := s.procs[p := s.procs[p].(state := Running)], cpus := s'.cpus)
  {
    RunThree(s, Pick(0, p), ProcRelease(0), Acquire(0));
    hide Run, WakeAll, ExitProcs, HasChild, HasZombieChild;
    var s1 := Do(s, Pick(0, p));
    assert s1.cpus == map[0 := Cpu(Resumed(p), Some(p), Some(p))];
    var s2 := Do(s1, ProcRelease(0));
    assert s2.cpus == map[0 := Cpu(InProc(p), Some(p), Some(p))] && s2.lock == None;
  }

  lemma LeavesCpu(s: Sys, e: Event, p: int)
    requires Inside(s, p) && (e.Yield? || e.SleepOn? || e.WaitSleep? || e.Exit?) && e.c == 0 && Enabled(s, e)
    ensures var s1 := Do(s, e);
            s1 == s.(procs := s1.procs, cpus := map[0 := Cpu(Leaving(p), Some(p), Some(p))])
  {
    hide WakeAll, ExitProcs, HasChild, HasZombieChild;
    assert s.cpus[0 := Cpu(Leaving(p), Some(p), Some(p))] == map[0 := Cpu(Leaving(p), Some(p), Some(p))];
  }

  lemma SwitchesBack(s: Sys, p: int)
    requires s.cpus == map[0 := Cpu(Leaving(p), Some(p), Some(p))] && s.lock == Some(0)
    ensures var s' := Do(Do(s, Swtch(0)), ClearProc(0)); AtScheduler(s') && s' == s.(cpus := s'.cpus)
  {
    hide WakeAll, ExitProcs, HasChild, HasZombieChild;
    var s1 := Do(s, Swtch(0));
    assert s1.cpus == map[0 := Cpu(Back(p), Some(p), None)];
  }

  /** A process can leave the CPU by yielding, sleeping, waiting or exiting, and the scheduler is back in its loop. */
  lemma Departs(s: Sys, e: Event, p: int)
    requires Inside(s, p) && (e.Yield? || e.SleepOn? || e.WaitSleep? || e.Exit?) && e.c == 0 && Enabled(s, e)
    ensures var s' := Run(s, [e, Swtch(0), ClearProc(0)]);
            AtScheduler(s') && s' == s.(procs := Do(s, e).procs, cpus := s'.cpus)
  {
    hide Do, Run, Enabled;
    RunThree(s, e, Swtch(0), ClearProc(0));
    LeavesCpu(s, e, p);
    SwitchesBack(Do(s, e), p);
  }

  lemma ForkBegins(s: Sys, p: int, np: int)
    requires Inside(s, p) && s.procs[p].forking == None && np in s.procs && np != p && s.procs[np].state == Unused
    ensures var s' := Do(Do(Do(s, AllocProc(0, np)), Release(0)), ForkParent(0));
            && s'.cpus == map[0 := Cpu(InProc(p), Some(p), Some(p))] && s'.lock == None
            && s'.procs == s.procs[np := s.procs[np].(state := Embryo, pid := s.nextpid, forking := None, parent := Some(p))]
                                  [p := s.procs[p].(forking := Some(np))]
  {
    hide WakeAll, ExitProcs, HasChild, HasZombieChild;
    var s1 := Do(s, AllocProc(0, np));
    var s2 := Do(s1, Release(0));
    assert s2.cpus == map[0 := Cpu(InProc(p), Some(p), Some(p))] && s2.lock == None && s2.procs == s1.procs;
  }

  lemma ForkEnds(s: Sys, p: int, np: int)
    requires s.cpus == map[0 := Cpu(InProc(p), Some(p), Some(p))] && s.lock == None && p in s.procs && np in s.procs && p != np
    requires s.procs[p].forking == Some(np) && s.procs[np].parent == Some(p)
    ensures var s' := Do(Do(s, Acquire(0)), ForkReady(0));
            Inside(s', p) && s'.procs == s.procs[np := s.procs[np].(state := Runnable)][p := s.procs[p].(forking := None)]
  {
    hide WakeAll, ExitProcs, HasChild, HasZombieChild;
    var s1 := Do(s, Acquire(0));
    assert s1.cpus == map[0 := Cpu(InLock(p), Some(p), Some(p))] && s1.procs == s.procs;
  }

  /** A running process with no fork under way can fork into a free slot: the child is runnable, with a new pid. */
  lemma CanFork(s: Sys, p: int, np: int)
    requires Inside(s, p) && s.procs[p].forking == None && np in s.procs && np != p && s.procs[np].state == Unused
    ensures var s' := Run(s, [AllocProc(0, np), Release(0), ForkParent(0)] + [Acquire(0)] + [ForkReady(0)]);
            && Inside(s', p) && np in s'.procs && s'.procs == s.procs[np := s'.procs[np]]
            && s'.procs[np].state == Runnable && s'.procs[np].parent == Some(p) && s'.procs[np].pid == s.nextpid
  {
    hide Do, Run, Enabled;
    var es := [AllocProc(0, np), Release(0), ForkParent(0)];
    RunConcat(s, es + [Acquire(0)], [ForkReady(0)]);
    RunConcat(s, es, [Acquire(0)]);
    RunThree(s, AllocProc(0, np), Release(0), ForkParent(0));
    ForkBegins(s, p, np);
    var s3 := Run(s, es);
    RunOne(s3, Acquire(0));
    RunOne(Do(s3, Acquire(0)), ForkReady(0));
    ForkEnds(s3, p, np);
  }
}
