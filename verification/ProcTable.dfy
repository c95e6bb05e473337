/**
 The process table of proc.c on any number of CPUs. A step is what a CPU does between two points
 where another CPU could interfere: taking and dropping ptable.lock are steps of their own, and so
 is every part of the hand-over between a process's kernel stack and the scheduler's. Writes that
 proc.c makes without the lock (fork filling in the child) are separate steps too.
 */
module ProcTable {
  import opened Common

  datatype PState = Unused | Embryo | Sleeping | Runnable | Running | Zombie

  /** What a process can sleep on: a process's own table entry, in wait(), or anything else. */
  datatype Chan = WaitChan(p: int) | Other(id: int)

  /** chan is the channel last slept on; forking is the child that this process's fork() is building. */
  datatype Proc = Proc(state: PState, pid: nat, parent: Option<int>, chan: Chan, killed: bool, forking: Option<int>)

  /**
   What a CPU is doing. InLock, Leaving and Resumed run on the process's kernel stack with
   ptable.lock held; Back and Looping run on the scheduler's stack with it held.
   */
  datatype CpuPc =
    | Idle
    | Looping
    | Resumed(p: int)
    | InProc(p: int)
    | InLock(p: int)
    | Leaving(p: int)
    | Back(p: int)

  /** cur is c->proc; stack is the process whose kernel stack the CPU is on, if any. */
  datatype Cpu = Cpu(pc: CpuPc, cur: Option<int>, stack: Option<int>)

  datatype Sys = Sys(procs: map<int, Proc>, cpus: map<int, Cpu>, lock: Option<int>, init: int, nextpid: nat)

  datatype Event =
    | SchedAcquire(c: int)
    | SchedRelease(c: int)
    | Pick(c: int, p: int)
    | ProcRelease(c: int)
    | Acquire(c: int)
    | Release(c: int)
    | Yield(c: int)
    | SleepOn(c: int, id: int)
    | Exit(c: int)
    | Swtch(c: int)
    | ClearProc(c: int)
    | Reap(c: int, z: int)
    | WaitSleep(c: int)
    | AllocProc(c: int, np: int)
    | ForkFail(c: int)
    | ForkParent(c: int)
    | ForkReady(c: int)
    | Wakeup(chan: Chan)
    | Kill(p: int)

  function CpuOf(s: Sys, c: int): Cpu {
    if c in s.cpus then s.cpus[c] else Cpu(Idle, None, None)
  }

  predicate Live(s: Sys, p: int) {
    p in s.procs && s.procs[p].state != Unused && s.procs[p].state != Embryo
  }

  predicate HasZombieChild(s: Sys, p: int) {
    exists z | z in s.procs :: s.procs[z].state == Zombie && s.procs[z].parent == Some(p)
  }

  predicate HasChild(s: Sys, p: int) {
    exists z | z in s.procs :: s.procs[z].parent == Some(p)
  }

  /** wakeup1 */
  function WakeAll(procs: map<int, Proc>, chan: Chan): map<int, Proc> {
    map p | p in procs :: if procs[p].state == Sleeping && procs[p].chan == chan then procs[p].(state := Runnable) else procs[p]
  }

  /** exit() under the lock: wake the parent, hand children to init and wake it for those already dead, become a zombie. */
  function ExitProcs(s: Sys, p: int): map<int, Proc>
    requires p in s.procs
  {
    var woken := if s.procs[p].parent.Some? then WakeAll(s.procs, WaitChan(s.procs[p].parent.value)) else s.procs;
    var orphanDead := HasZombieChild(s, p);
    var handed := map q | q in woken :: if woken[q].parent == Some(p) then woken[q].(parent := Some(s.init)) else woken[q];
    var told := if orphanDead then WakeAll(handed, WaitChan(s.init)) else handed;
    told[p := told[p].(state := Zombie)]
  }

  /** The process a CPU runs while it holds the lock on that process's stack. */
  predicate InLockOf(s: Sys, c: int) {
    CpuOf(s, c).pc.InLock? && CpuOf(s, c).pc.p in s.procs
  }

  predicate Enabled(s: Sys, e: Event) {
    match e
    case SchedAcquire(c) => CpuOf(s, c).pc == Idle && s.lock == None
    case SchedRelease(c) => CpuOf(s, c).pc == Looping
    case Pick(c, p) => CpuOf(s, c).pc == Looping && p in s.procs && s.procs[p].state == Runnable
    case ProcRelease(c) => CpuOf(s, c).pc.Resumed?
    case Acquire(c) => CpuOf(s, c).pc.InProc? && s.lock == None
    case Release(c) => CpuOf(s, c).pc.InLock?
    case Yield(c) => InLockOf(s, c)
    case SleepOn(c, _) => InLockOf(s, c)
    case Exit(c) => InLockOf(s, c) && CpuOf(s, c).pc.p != s.init && s.procs[CpuOf(s, c).pc.p].forking == None
    case Swtch(c) => CpuOf(s, c).pc.Leaving?
    case ClearProc(c) => CpuOf(s, c).pc.Back?
    case Reap(c, z) => InLockOf(s, c) && z in s.procs && s.procs[z].state == Zombie && s.procs[z].parent == Some(CpuOf(s, c).pc.p)
    case WaitSleep(c) =>
      InLockOf(s, c) && var p := CpuOf(s, c).pc.p;
      !HasZombieChild(s, p) && HasChild(s, p) && !s.procs[p].killed && s.procs[p].forking == None
    case AllocProc(c, np) => InLockOf(s, c) && s.procs[CpuOf(s, c).pc.p].forking == None && np in s.procs && s.procs[np].state == Unused
    case ForkFail(c) =>
      CpuOf(s, c).pc.InProc? && CpuOf(s, c).pc.p in s.procs && var f := s.procs[CpuOf(s, c).pc.p].forking;
      f.Some? && f.value in s.procs && s.procs[f.value].parent == None
    case ForkParent(c) =>
      CpuOf(s, c).pc.InProc? && CpuOf(s, c).pc.p in s.procs && var f := s.procs[CpuOf(s, c).pc.p].forking;
      f.Some? && f.value in s.procs
    case ForkReady(c) =>
      InLockOf(s, c) && var f := s.procs[CpuOf(s, c).pc.p].forking;
      f.Some? && f.value in s.procs && s.procs[f.value].parent == Some(CpuOf(s, c).pc.p)
    case Wakeup(_) => s.lock == None
    case Kill(p) => s.lock == None && p in s.procs
  }

  function SetCpu(s: Sys, c: int, cpu: Cpu): Sys {
    s.(cpus := s.cpus[c := cpu])
  }

  function SetProc(s: Sys, p: int, proc: Proc): Sys {
    s.(procs := s.procs[p := proc])
  }

  /** The running process gives up the CPU in the given state; the switch itself comes later. */
  function Leave(s: Sys, c: int, p: int, proc: Proc): Sys {
    SetCpu(SetProc(s, p, proc), c, CpuOf(s, c).(pc := Leaving(p)))
  }

  function Do(s: Sys, e: Event): Sys {
    if !Enabled(s, e) then s
    else
      match e
      case SchedAcquire(c) => SetCpu(s, c, Cpu(Looping, None, None)).(lock := Some(c))
      case SchedRelease(c) => SetCpu(s, c, Cpu(Idle, None, None)).(lock := None)
      case Pick(c, p) =>
        SetCpu(SetProc(s, p, s.procs[p].(state := Running)), c, Cpu(Resumed(p), Some(p), Some(p)))
      case ProcRelease(c) => SetCpu(s, c, CpuOf(s, c).(pc := InProc(CpuOf(s, c).pc.p))).(lock := None)
      case Acquire(c) => SetCpu(s, c, CpuOf(s, c).(pc := InLock(CpuOf(s, c).pc.p))).(lock := Some(c))
      case Release(c) => SetCpu(s, c, CpuOf(s, c).(pc := InProc(CpuOf(s, c).pc.p))).(lock := None)
      case Yield(c) => var p := CpuOf(s, c).pc.p; Leave(s, c, p, s.procs[p].(state := Runnable))
      case SleepOn(c, id) => var p := CpuOf(s, c).pc.p; Leave(s, c, p, s.procs[p].(state := Sleeping, chan := Other(id)))
      case Exit(c) =>
        var p := CpuOf(s, c).pc.p;
        SetCpu(s.(procs := ExitProcs(s, p)), c, CpuOf(s, c).(pc := Leaving(p)))
      case Swtch(c) => SetCpu(s, c, Cpu(Back(CpuOf(s, c).pc.p), CpuOf(s, c).cur, None))
      case ClearProc(c) => SetCpu(s, c, Cpu(Looping, None, None))
      case Reap(c, z) => SetProc(s, z, Proc(Unused, 0, None, s.procs[z].chan, false, None))
      case WaitSleep(c) =>
        var p := CpuOf(s, c).pc.p; Leave(s, c, p, s.procs[p].(state := Sleeping, chan := WaitChan(p)))
      case AllocProc(c, np) =>
        var p := CpuOf(s, c).pc.p;
        SetProc(SetProc(s, np, s.procs[np].(state := Embryo, pid := s.nextpid, forking := None)), p,
                s.procs[p].(forking := Some(np))).(nextpid := s.nextpid + 1)
      case ForkFail(c) =>
        var p := CpuOf(s, c).pc.p;
        var np := s.procs[p].forking.value;
        SetProc(SetProc(s, np, s.procs[np].(state := Unused)), p, s.procs[p].(forking := None))
      case ForkParent(c) =>
        var p := CpuOf(s, c).pc.p;
        var np := s.procs[p].forking.value;
        SetProc(s, np, s.procs[np].(parent := Some(p)))
      case ForkReady(c) =>
        var p := CpuOf(s, c).pc.p;
        var np := s.procs[p].forking.value;
        SetProc(SetProc(s, np, s.procs[np].(state := Runnable)), p, s.procs[p].(forking := None))
      case Wakeup(chan) => s.(procs := WakeAll(s.procs, chan))
      case Kill(p) =>
        SetProc(s, p, if s.procs[p].state == Sleeping then s.procs[p].(killed := true, state := Runnable)
                      else s.procs[p].(killed := true))
  }

  function Run(s: Sys, es: seq<Event>): Sys
    decreases |es|
  {
    if es == [] then s else Run(Do(s, es[0]), es[1..])
  }

  // ---- the invariant ----

  predicate HoldsLock(pc: CpuPc) { !pc.Idle? && !pc.InProc? }
  predicate OnCpu(pc: CpuPc, p: int) { pc == Resumed(p) || pc == InProc(p) || pc == InLock(p) }

  ghost predicate LockInv(s: Sys) {
    && (forall c | c in s.cpus :: HoldsLock(s.cpus[c].pc) <==> s.lock == Some(c))
    && (s.lock.Some? ==> s.lock.value in s.cpus)
  }

  /** c->proc, the stack in use and the process's state agree with what the CPU is doing. */
  ghost predicate CpuOk(s: Sys, cpu: Cpu) {
    match cpu.pc
    case Idle => cpu.cur == None && cpu.stack == None
    case Looping => cpu.cur == None && cpu.stack == None
    case Resumed(p) => p in s.procs && s.procs[p].state == Running && cpu.cur == Some(p) && cpu.stack == Some(p)
    case InProc(p) => p in s.procs && s.procs[p].state == Running && cpu.cur == Some(p) && cpu.stack == Some(p)
    case InLock(p) => p in s.procs && s.procs[p].state == Running && cpu.cur == Some(p) && cpu.stack == Some(p)
    case Leaving(p) => p in s.procs && Given(s.procs[p].state) && cpu.cur == Some(p) && cpu.stack == Some(p)
    case Back(p) => p in s.procs && Given(s.procs[p].state) && cpu.cur == Some(p) && cpu.stack == None
  }

  /** The states in which a process hands the CPU back: sched never sees it RUNNING. */
  predicate Given(st: PState) { st == Runnable || st == Sleeping || st == Zombie }

  ghost predicate CpuInv(s: Sys) {
    && (forall c | c in s.cpus :: CpuOk(s, s.cpus[c]))
    && (forall c, d | c in s.cpus && d in s.cpus && c != d && s.cpus[c].cur.Some? :: s.cpus[c].cur != s.cpus[d].cur)
    && (forall p | p in s.procs && s.procs[p].state == Running :: exists c | c in s.cpus :: OnCpu(s.cpus[c].pc, p))
  }

  predicate EmbryoAt(s: Sys, np: int) { np in s.procs && s.procs[np].state == Embryo }
  predicate Forks(s: Sys, p: int, np: int) { p in s.procs && s.procs[p].forking == Some(np) }

  /** fork() builds one embryo at a time, which belongs to it alone. */
  ghost predicate ForkInv(s: Sys) {
    && (forall p, np | Forks(s, p, np) :: Live(s, p) && s.procs[p].state != Zombie && EmbryoAt(s, np))
    && (forall p | p in s.procs && s.procs[p].forking.Some? :: Live(s, p) && s.procs[p].state != Zombie)
    && (forall p, q, np | Forks(s, p, np) && Forks(s, q, np) :: p == q)
    && (forall np | EmbryoAt(s, np) && s.procs[np].parent.Some? :: Forks(s, s.procs[np].parent.value, np))
  }

  /** Every live process but init has a live parent that is not a zombie; free slots have none. */
  ghost predicate ParentInv(s: Sys) {
    && Live(s, s.init) && s.procs[s.init].state != Zombie
    && (forall p | Live(s, p) && p != s.init ::
          && s.procs[p].parent.Some? && s.procs[p].parent.value != p
          && Live(s, s.procs[p].parent.value) && s.procs[s.procs[p].parent.value].state != Zombie)
    && (forall p | p in s.procs && s.procs[p].state == Unused :: s.procs[p].parent == None)
  }

  /** No parent sleeps in wait() while a child of its is a zombie. */
  ghost predicate WaitInv(s: Sys) {
    forall p | p in s.procs && s.procs[p].state == Sleeping && s.procs[p].chan == WaitChan(p) :: !HasZombieChild(s, p)
  }

  /** Processes in use have distinct, nonzero pids. */
  ghost predicate PidInv(s: Sys) {
    && s.nextpid > 0
    && (forall p | p in s.procs && s.procs[p].state != Unused :: 0 < s.procs[p].pid < s.nextpid)
    && (forall p, q | p in s.procs && q in s.procs && p != q && s.procs[p].state != Unused && s.procs[q].state != Unused ::
          s.procs[p].pid != s.procs[q].pid)
  }

  ghost predicate Inv(s: Sys) {
    LockInv(s) && CpuInv(s) && ForkInv(s) && ParentInv(s) && WaitInv(s) && PidInv(s)
  }

  lemma StepKeepsLock(s: Sys, e: Event)
    requires LockInv(s)
    ensures LockInv(Do(s, e))
  {
    hide ExitProcs, WakeAll;
  }

  // ---- steps that only move a process between sleeping, runnable and running ----

  predicate Awake(st: PState) { st == Runnable || st == Running || st == Sleeping }

  /** Same slots, pids, parents and forks; states differ at most among the three active ones. */
  ghost predicate Benign(s: Sys, s': Sys) {
    && s'.procs.Keys == s.procs.Keys && s'.init == s.init && s'.nextpid == s.nextpid
    && forall p | p in s.procs ::
         && s'.procs[p].pid == s.procs[p].pid
         && s'.procs[p].parent == s.procs[p].parent
         && s'.procs[p].forking == s.procs[p].forking
         && (s'.procs[p].state == s.procs[p].state || (Awake(s.procs[p].state) && Awake(s'.procs[p].state)))
  }

  /** The part of the invariant that speaks of the table alone. */
  ghost predicate TableInv(s: Sys) {
    ForkInv(s) && ParentInv(s) && PidInv(s)
  }

  lemma BenignKeepsForks(s: Sys, s': Sys)
    requires ForkInv(s) && Benign(s, s')
    ensures ForkInv(s')
  {
    assert forall p, np :: Forks(s', p, np) <==> Forks(s, p, np);
    assert forall np :: EmbryoAt(s', np) <==> EmbryoAt(s, np);
  }

  lemma BenignKeepsTable(s: Sys, s': Sys)
    requires TableInv(s) && Benign(s, s')
    ensures TableInv(s')
  {
    hide ForkInv, ParentInv, PidInv;
    BenignKeepsForks(s, s');
    BenignKeepsParents(s, s');
    BenignKeepsPids(s, s');
  }

  lemma BenignKeepsPids(s: Sys, s': Sys)
    requires PidInv(s) && Benign(s, s')
    ensures PidInv(s')
  {
  }

  lemma BenignKeepsParents(s: Sys, s': Sys)
    requires ParentInv(s) && Benign(s, s')
    ensures ParentInv(s')
  {
    forall p | p in s.procs ensures Live(s', p) == Live(s, p) {
    }
  }

  /** Unless somebody newly sleeps in wait, nobody sleeps there for nothing. */
  lemma BenignKeepsWaits(s: Sys, s': Sys)
    requires WaitInv(s) && Benign(s, s')
    requires forall p | p in s.procs && s'.procs[p].state == Sleeping && s'.procs[p].chan == WaitChan(p) ::
               (s.procs[p].state == Sleeping && s.procs[p].chan == WaitChan(p)) || !HasZombieChild(s, p)
    ensures WaitInv(s')
  {
    forall p | p in s.procs ensures HasZombieChild(s', p) ==> HasZombieChild(s, p) {
      if HasZombieChild(s', p) {
        var z :| z in s'.procs && s'.procs[z].state == Zombie && s'.procs[z].parent == Some(p);
        assert s.procs[z].state == Zombie && s.procs[z].parent == Some(p);
      }
    }
  }

  predicate IsBenign(e: Event) {
    !e.Exit? && !e.Reap? && !e.AllocProc? && !e.ForkFail? && !e.ForkParent? && !e.ForkReady?
  }

  lemma LockedRuns(s: Sys, c: int)
    requires CpuInv(s) && InLockOf(s, c)
    ensures s.procs[CpuOf(s, c).pc.p].state == Running
  {
    assert CpuOk(s, s.cpus[c]);
  }

  lemma BenignEvents(s: Sys, e: Event)
    requires CpuInv(s) && IsBenign(e)
    ensures Benign(s, Do(s, e))
  {
    hide CpuInv, ExitProcs, HasZombieChild, HasChild;
    if Enabled(s, e) && (e.Yield? || e.SleepOn? || e.WaitSleep?) {
      LockedRuns(s, e.c);
    }
  }

  lemma BenignWaits(s: Sys, e: Event)
    requires CpuInv(s) && WaitInv(s) && IsBenign(e)
    ensures WaitInv(Do(s, e))
  {
    BenignEvents(s, e);
    BenignKeepsWaits(s, Do(s, e));
  }

  // ---- exit ----

  lemma WakeAt(procs: map<int, Proc>, chan: Chan, q: int)
    requires q in procs
    ensures WakeAll(procs, chan).Keys == procs.Keys
    ensures var o, n := procs[q], WakeAll(procs, chan)[q];
            n == if o.state == Sleeping && o.chan == chan then o.(state := Runnable) else o
  {
  }

  /** exit() by p wakes those who sleep on channel ch: its parent in wait, and init if p leaves it a zombie. */
  predicate Summons(s: Sys, p: int, ch: Chan)
    requires p in s.procs
  {
    || (s.procs[p].parent.Some? && ch == WaitChan(s.procs[p].parent.value))
    || (HasZombieChild(s, p) && ch == WaitChan(s.init))
  }

  /** What exit() does to each slot of the table. */
  lemma ExitAt(s: Sys, p: int, q: int)
    requires p in s.procs && q in s.procs
    ensures ExitProcs(s, p).Keys == s.procs.Keys
    ensures var o, n := s.procs[q], ExitProcs(s, p)[q];
            && n.pid == o.pid && n.forking == o.forking && n.chan == o.chan && n.killed == o.killed
            && n.parent == (if o.parent == Some(p) then Some(s.init) else o.parent)
            && n.state == if q == p then Zombie else if o.state == Sleeping && Summons(s, p, o.chan) then Runnable else o.state
  {
    hide WakeAll, HasZombieChild;
    var woken := if s.procs[p].parent.Some? then WakeAll(s.procs, WaitChan(s.procs[p].parent.value)) else s.procs;
    if s.procs[p].parent.Some? {
      WakeAt(s.procs, WaitChan(s.procs[p].parent.value), q);
    }
    var handed := map z | z in woken :: if woken[z].parent == Some(p) then woken[z].(parent := Some(s.init)) else woken[z];
    if HasZombieChild(s, p) {
      WakeAt(handed, WaitChan(s.init), q);
    }
  }

  lemma ExitKeepsTable(s: Sys, c: int)
    requires TableInv(s) && Enabled(s, Exit(c)) && s.procs[CpuOf(s, c).pc.p].state == Running
    ensures TableInv(Do(s, Exit(c)))
  {
    hide ForkInv, ParentInv, PidInv;
    var p := CpuOf(s, c).pc.p;
    var s' := Do(s, Exit(c));
    ExitHasEffect(s, c);
    ExitKeepsForks(s, s', p);
    ExitKeepsParents(s, s', p);
    ExitKeepsPids(s, s', p);
  }

  lemma ExitKeepsPids(s: Sys, s': Sys, p: int)
    requires PidInv(s) && ExitEffect(s, s', p) && s.procs[p].state == Running
    ensures PidInv(s')
  {
  }

  lemma ExitHasEffect(s: Sys, c: int)
    requires Enabled(s, Exit(c))
    ensures ExitEffect(s, Do(s, Exit(c)), CpuOf(s, c).pc.p)
  {
    hide ExitProcs, WakeAll;
    var p := CpuOf(s, c).pc.p;
    var s' := Do(s, Exit(c));
    ExitAt(s, p, p);
    forall q | q in s.procs
      ensures s'.procs[q].pid == s.procs[q].pid && s'.procs[q].forking == s.procs[q].forking
      ensures s'.procs[q].parent == (if s.procs[q].parent == Some(p) then Some(s.init) else s.procs[q].parent)
      ensures if q == p then s'.procs[q].state == Zombie
              else s'.procs[q].state == s.procs[q].state || (Awake(s.procs[q].state) && Awake(s'.procs[q].state))
    {
      ExitAt(s, p, q);
    }
  }

  ghost predicate ExitEffect(s: Sys, s': Sys, p: int) {
    && s'.procs.Keys == s.procs.Keys && s'.init == s.init && s'.nextpid == s.nextpid && p in s.procs
    && forall q | q in s.procs ::
         && s'.procs[q].pid == s.procs[q].pid && s'.procs[q].forking == s.procs[q].forking
         && s'.procs[q].parent == (if s.procs[q].parent == Some(p) then Some(s.init) else s.procs[q].parent)
         && if q == p then s'.procs[q].state == Zombie
            else s'.procs[q].state == s.procs[q].state || (Awake(s.procs[q].state) && Awake(s'.procs[q].state))
  }

  lemma ExitKeepsForks(s: Sys, s': Sys, p: int)
    requires ForkInv(s) && ExitEffect(s, s', p) && s.procs[p].forking == None && s.procs[p].state == Running
    ensures ForkInv(s')
  {
    assert forall q, np :: Forks(s', q, np) <==> Forks(s, q, np);
    assert forall np :: EmbryoAt(s', np) <==> EmbryoAt(s, np);
    assert forall np | EmbryoAt(s, np) :: s.procs[np].parent != Some(p);
  }

  lemma ExitKeepsParents(s: Sys, s': Sys, p: int)
    requires ParentInv(s) && ExitEffect(s, s', p) && p != s.init && s.procs[p].state == Running
    ensures ParentInv(s')
  {
    assert forall q | q in s.procs :: Live(s', q) == Live(s, q);
    forall q | Live(s', q) && q != s'.init
      ensures s'.procs[q].parent.Some? && s'.procs[q].parent.value != q
      ensures Live(s', s'.procs[q].parent.value) && s'.procs[s'.procs[q].parent.value].state != Zombie
    {
      assert Live(s, q);
      var pa := s.procs[q].parent.value;
      assert pa != p ==> s'.procs[pa].state != Zombie;
    }
  }

  /** Every zombie that exit() creates or hands over has a parent that is awake. */
  lemma ExitKeepsWaits(s: Sys, c: int)
    requires WaitInv(s) && ParentInv(s) && Enabled(s, Exit(c)) && s.procs[CpuOf(s, c).pc.p].state == Running
    ensures WaitInv(Do(s, Exit(c)))
  {
    hide ExitProcs, WakeAll;
    var p := CpuOf(s, c).pc.p;
    var s' := Do(s, Exit(c));
    ExitAt(s, p, p);
    forall q | q in s'.procs && s'.procs[q].state == Sleeping && s'.procs[q].chan == WaitChan(q)
      ensures !HasZombieChild(s', q)
    {
      ExitAt(s, p, q);
      assert !HasZombieChild(s, q);
      forall z | z in s'.procs && s'.procs[z].state == Zombie ensures s'.procs[z].parent != Some(q) {
        ExitAt(s, p, z);
        assert z == p ==> s.procs[p].parent != Some(p) by { assert Live(s, p); }
        assert z != p ==> s.procs[z].state == Zombie;
      }
    }
  }

  // ---- reaping and forking ----

  /** s' differs from s in the slots of p and np only. */
  ghost predicate Changes(s: Sys, s': Sys, p: int, np: int, proc: Proc, child: Proc) {
    && p in s.procs && np in s.procs && p != np && s'.init == s.init
    && s'.procs.Keys == s.procs.Keys
    && s'.procs[p] == proc && s'.procs[np] == child
    && forall q | q in s.procs && q != p && q != np :: s'.procs[q] == s.procs[q]
  }

  lemma ReapForks(s: Sys, s': Sys, p: int, z: int)
    requires ForkInv(s) && p in s.procs && z in s.procs && s.procs[z].state == Zombie && s.procs[z].parent == Some(p)
    requires Changes(s, s', p, z, s.procs[p], Proc(Unused, 0, None, s.procs[z].chan, false, None))
    ensures ForkInv(s')
  {
    assert s.procs[z].forking == None;
    assert forall q, np :: Forks(s', q, np) <==> Forks(s, q, np);
    assert forall np :: EmbryoAt(s', np) <==> EmbryoAt(s, np);
  }

  lemma ReapParents(s: Sys, s': Sys, p: int, z: int)
    requires ParentInv(s) && p in s.procs && z in s.procs && s.procs[z].state == Zombie && s.procs[z].parent == Some(p)
    requires Changes(s, s', p, z, s.procs[p], Proc(Unused, 0, None, s.procs[z].chan, false, None))
    ensures ParentInv(s')
  {
    forall q | Live(s', q) && q != s'.init
      ensures s'.procs[q].parent.Some? && s'.procs[q].parent.value != q
      ensures Live(s', s'.procs[q].parent.value) && s'.procs[s'.procs[q].parent.value].state != Zombie
    {
      assert Live(s, q);
      assert s'.procs[q] == s.procs[q] && s.procs[q].parent.value != z;
    }
  }

  lemma ReapKeepsTable(s: Sys, c: int, z: int)
    requires TableInv(s) && Enabled(s, Reap(c, z))
    ensures TableInv(Do(s, Reap(c, z)))
  {
    hide ForkInv, ParentInv;
    var s', p := Do(s, Reap(c, z)), CpuOf(s, c).pc.p;
    assert z != p by { ParentIsOther(s, z); }
    ReapForks(s, s', p, z);
    ReapParents(s, s', p, z);
  }

  lemma ParentIsOther(s: Sys, z: int)
    requires ParentInv(s) && z in s.procs && s.procs[z].state == Zombie && s.procs[z].parent.Some?
    ensures s.procs[z].parent != Some(z)
  {
    assert Live(s, z);
  }

  lemma ReapKeepsWaits(s: Sys, c: int, z: int)
    requires WaitInv(s) && Enabled(s, Reap(c, z))
    ensures WaitInv(Do(s, Reap(c, z)))
  {
    var s' := Do(s, Reap(c, z));
    forall p | p in s.procs ensures HasZombieChild(s', p) ==> HasZombieChild(s, p) {
    }
  }

  lemma AllocForks(s: Sys, s': Sys, p: int, np: int, child: Proc)
    requires ForkInv(s) && ParentInv(s) && p in s.procs && np in s.procs
    requires s.procs[p].state == Running && s.procs[p].forking == None && s.procs[np].state == Unused
    requires child == s.procs[np].(state := Embryo, pid := s.nextpid, forking := None)
    requires Changes(s, s', p, np, s.procs[p].(forking := Some(np)), child)
    ensures ForkInv(s')
  {
    assert !EmbryoAt(s, np) && child.parent == None;
    assert forall q, n :: Forks(s', q, n) <==> Forks(s, q, n) || (q == p && n == np);
    assert forall n :: EmbryoAt(s', n) <==> EmbryoAt(s, n) || n == np;
  }

  lemma AllocParents(s: Sys, s': Sys, p: int, np: int, child: Proc)
    requires ParentInv(s) && p in s.procs && np in s.procs
    requires s.procs[p].state == Running && s.procs[np].state == Unused
    requires child == s.procs[np].(state := Embryo, pid := s.nextpid, forking := None)
    requires Changes(s, s', p, np, s.procs[p].(forking := Some(np)), child)
    ensures ParentInv(s')
  {
    SameLiveness(s, s', p, np, s.procs[p].(forking := Some(np)), child);
  }

  /** Filling in or dropping an embryo changes nobody's liveness. */
  lemma SameLiveness(s: Sys, s': Sys, p: int, np: int, proc: Proc, child: Proc)
    requires Changes(s, s', p, np, proc, child) && proc.state == s.procs[p].state
    requires (child.state == Unused || child.state == Embryo) && !Live(s, np)
    ensures forall q | q in s.procs :: Live(s', q) == Live(s, q)
  {
  }

  lemma AllocKeepsTable(s: Sys, c: int, np: int)
    requires TableInv(s) && Enabled(s, AllocProc(c, np)) && s.procs[CpuOf(s, c).pc.p].state == Running
    ensures TableInv(Do(s, AllocProc(c, np)))
  {
    hide ForkInv, ParentInv, PidInv;
    var s', p := Do(s, AllocProc(c, np)), CpuOf(s, c).pc.p;
    var child := s.procs[np].(state := Embryo, pid := s.nextpid, forking := None);
    assert p != np && Changes(s, s', p, np, s.procs[p].(forking := Some(np)), child);
    AllocForks(s, s', p, np, child);
    AllocParents(s, s', p, np, child);
    AllocPids(s, c, np);
  }

  lemma AllocPids(s: Sys, c: int, np: int)
    requires PidInv(s) && Enabled(s, AllocProc(c, np)) && CpuOf(s, c).pc.p != np
    ensures PidInv(Do(s, AllocProc(c, np)))
  {
    hide ExitProcs, WakeAll;
  }

  lemma EmbryoOf(s: Sys, p: int, np: int)
    requires ForkInv(s) && p in s.procs && s.procs[p].forking == Some(np)
    ensures p != np && EmbryoAt(s, np) && Live(s, p) && s.procs[p].state != Zombie
    ensures forall q | q != p :: !Forks(s, q, np)
    ensures s.procs[np].forking == None
  {
    assert Forks(s, p, np);
  }

  lemma FailForks(s: Sys, s': Sys, p: int, np: int)
    requires ForkInv(s) && p in s.procs && np in s.procs && s.procs[p].forking == Some(np)
    requires Changes(s, s', p, np, s.procs[p].(forking := None), s.procs[np].(state := Unused))
    ensures ForkInv(s')
  {
    EmbryoOf(s, p, np);
    assert forall q, n :: Forks(s', q, n) <==> Forks(s, q, n) && q != p;
    assert forall n :: EmbryoAt(s', n) <==> EmbryoAt(s, n) && n != np;
  }

  lemma FailParents(s: Sys, s': Sys, p: int, np: int)
    requires ForkInv(s) && ParentInv(s) && p in s.procs && np in s.procs && s.procs[p].forking == Some(np)
    requires s.procs[np].parent == None
    requires Changes(s, s', p, np, s.procs[p].(forking := None), s.procs[np].(state := Unused))
    ensures ParentInv(s')
  {
    EmbryoOf(s, p, np);
    SameLiveness(s, s', p, np, s.procs[p].(forking := None), s.procs[np].(state := Unused));
  }

  lemma ForkFailKeepsTable(s: Sys, c: int)
    requires TableInv(s) && Enabled(s, ForkFail(c))
    ensures TableInv(Do(s, ForkFail(c)))
  {
    hide ForkInv, ParentInv;
    var s', p := Do(s, ForkFail(c)), CpuOf(s, c).pc.p;
    var np := s.procs[p].forking.value;
    EmbryoOf(s, p, np);
    FailForks(s, s', p, np);
    FailParents(s, s', p, np);
  }

  lemma AdoptForks(s: Sys, s': Sys, p: int, np: int)
    requires ForkInv(s) && p in s.procs && np in s.procs && s.procs[p].forking == Some(np)
    requires Changes(s, s', p, np, s.procs[p], s.procs[np].(parent := Some(p)))
    ensures ForkInv(s')
  {
    EmbryoOf(s, p, np);
    assert forall q, n :: Forks(s', q, n) <==> Forks(s, q, n);
    assert forall n :: EmbryoAt(s', n) <==> EmbryoAt(s, n);
  }

  lemma AdoptParents(s: Sys, s': Sys, p: int, np: int)
    requires ForkInv(s) && ParentInv(s) && p in s.procs && np in s.procs && s.procs[p].forking == Some(np)
    requires Changes(s, s', p, np, s.procs[p], s.procs[np].(parent := Some(p)))
    ensures ParentInv(s')
  {
    EmbryoOf(s, p, np);
    SameLiveness(s, s', p, np, s.procs[p], s.procs[np].(parent := Some(p)));
  }

  lemma ForkParentKeepsTable(s: Sys, c: int)
    requires TableInv(s) && Enabled(s, ForkParent(c))
    ensures TableInv(Do(s, ForkParent(c)))
  {
    hide ForkInv, ParentInv;
    var s', p := Do(s, ForkParent(c)), CpuOf(s, c).pc.p;
    var np := s.procs[p].forking.value;
    EmbryoOf(s, p, np);
    AdoptForks(s, s', p, np);
    AdoptParents(s, s', p, np);
  }

  lemma ReadyForks(s: Sys, s': Sys, p: int, np: int)
    requires ForkInv(s) && p in s.procs && np in s.procs && s.procs[p].forking == Some(np)
    requires Changes(s, s', p, np, s.procs[p].(forking := None), s.procs[np].(state := Runnable))
    ensures ForkInv(s')
  {
    EmbryoOf(s, p, np);
    assert forall q, n :: Forks(s', q, n) <==> Forks(s, q, n) && q != p;
    assert forall n :: EmbryoAt(s', n) <==> EmbryoAt(s, n) && n != np;
  }

  lemma ReadyParents(s: Sys, s': Sys, p: int, np: int)
    requires ForkInv(s) && ParentInv(s) && p in s.procs && np in s.procs && s.procs[p].forking == Some(np)
    requires s.procs[np].parent == Some(p)
    requires Changes(s, s', p, np, s.procs[p].(forking := None), s.procs[np].(state := Runnable))
    ensures ParentInv(s')
  {
    EmbryoOf(s, p, np);
    assert forall q | q in s.procs && q != np :: Live(s', q) == Live(s, q);
  }

  lemma ForkReadyKeepsTable(s: Sys, c: int)
    requires TableInv(s) && Enabled(s, ForkReady(c))
    ensures TableInv(Do(s, ForkReady(c)))
  {
    hide ForkInv, ParentInv;
    var s', p := Do(s, ForkReady(c)), CpuOf(s, c).pc.p;
    var np := s.procs[p].forking.value;
    EmbryoOf(s, p, np);
    ReadyForks(s, s', p, np);
    ReadyParents(s, s', p, np);
  }

  /** fork() makes no zombies and puts nobody to sleep. */
  lemma ChangesKeepWaits(s: Sys, s': Sys, p: int, np: int, proc: Proc, child: Proc)
    requires WaitInv(s) && Changes(s, s', p, np, proc, child)
    requires proc == s.procs[p].(forking := proc.forking)
    requires child.state != Zombie && child.state != Sleeping
    ensures WaitInv(s')
  {
    forall q | q in s.procs ensures HasZombieChild(s', q) ==> HasZombieChild(s, q) {
      if HasZombieChild(s', q) {
        var z :| z in s'.procs && s'.procs[z].state == Zombie && s'.procs[z].parent == Some(q);
        assert s.procs[z].state == Zombie && s.procs[z].parent == Some(q);
      }
    }
  }

  lemma ForkKeepsWaits(s: Sys, e: Event)
    requires WaitInv(s) && ForkInv(s) && Enabled(s, e)
    requires e.AllocProc? || e.ForkFail? || e.ForkParent? || e.ForkReady?
    requires s.procs[CpuOf(s, e.c).pc.p].state == Running
    ensures WaitInv(Do(s, e))
  {
    hide WaitInv;
    var s', p := Do(s, e), CpuOf(s, e.c).pc.p;
    if e.AllocProc? {
      ChangesKeepWaits(s, s', p, e.np, s'.procs[p], s'.procs[e.np]);
    } else {
      var np := s.procs[p].forking.value;
      EmbryoOf(s, p, np);
      ChangesKeepWaits(s, s', p, np, s'.procs[p], s'.procs[np]);
    }
  }

  // ---- CPUs ----

  /** Only CPU c changes, and other CPUs' processes keep the state their CPU relies on. */
  ghost predicate LocalTo(s: Sys, s': Sys, c: int) {
    && c in s'.cpus && s'.cpus.Keys == s.cpus.Keys + {c}
    && (forall d | d in s.cpus && d != c :: s'.cpus[d] == s.cpus[d])
    && s'.procs.Keys == s.procs.Keys
    && forall d, q | d in s.cpus && d != c && q in s.procs && s.cpus[d].cur == Some(q) ::
         s'.procs[q].state == s.procs[q].state
  }

  lemma LocalKeepsCpus(s: Sys, s': Sys, c: int)
    requires CpuInv(s) && LocalTo(s, s', c) && CpuOk(s', s'.cpus[c])
    requires forall d | d in s.cpus && d != c && s.cpus[d].cur.Some? :: s.cpus[d].cur != s'.cpus[c].cur
    requires forall p | p in s'.procs && s'.procs[p].state == Running ::
               OnCpu(s'.cpus[c].pc, p) || (s.procs[p].state == Running && (c in s.cpus ==> !OnCpu(s.cpus[c].pc, p)))
    ensures CpuInv(s')
  {
    forall d | d in s'.cpus && d != c ensures CpuOk(s', s'.cpus[d]) {
      assert CpuOk(s, s.cpus[d]);
    }
    forall p | p in s'.procs && s'.procs[p].state == Running ensures exists d | d in s'.cpus :: OnCpu(s'.cpus[d].pc, p) {
      if !OnCpu(s'.cpus[c].pc, p) {
        var d :| d in s.cpus && OnCpu(s.cpus[d].pc, p);
        assert d != c && OnCpu(s'.cpus[d].pc, p);
      }
    }
  }

  /** While c holds the lock every other CPU is idle or running its process outside the table. */
  lemma OthersInProc(s: Sys, c: int)
    requires LockInv(s) && CpuInv(s) && (s.lock == None || s.lock == Some(c))
    ensures forall d | d in s.cpus && d != c :: s.cpus[d].pc.Idle? || s.cpus[d].pc.InProc?
    ensures forall d, q | d in s.cpus && d != c && s.cpus[d].cur == Some(q) ::
              q in s.procs && s.procs[q].state == Running && s.cpus[d].pc == InProc(q)
  {
    forall d | d in s.cpus && d != c ensures s.cpus[d].pc.Idle? || s.cpus[d].pc.InProc? {
      assert CpuOk(s, s.cpus[d]);
    }
    forall d, q | d in s.cpus && d != c && s.cpus[d].cur == Some(q)
      ensures q in s.procs && s.procs[q].state == Running && s.cpus[d].pc == InProc(q)
    {
      assert CpuOk(s, s.cpus[d]);
    }
  }

  lemma AllInProc(s: Sys)
    requires LockInv(s) && CpuInv(s) && s.lock == None
    ensures forall d, q | d in s.cpus && s.cpus[d].cur == Some(q) ::
              q in s.procs && s.procs[q].state == Running && s.cpus[d].pc == InProc(q)
  {
    forall d, q | d in s.cpus && s.cpus[d].cur == Some(q)
      ensures q in s.procs && s.procs[q].state == Running && s.cpus[d].pc == InProc(q)
    {
      assert CpuOk(s, s.cpus[d]);
    }
  }

  /** A CPU that changes no state in the table. */
  lemma QuietKeepsCpus(s: Sys, e: Event)
    requires LockInv(s) && CpuInv(s) && Enabled(s, e)
    requires e.SchedAcquire? || e.SchedRelease? || e.ProcRelease? || e.Acquire? || e.Release? || e.Swtch? || e.ClearProc?
    ensures CpuInv(Do(s, e))
  {
    var s' := Do(s, e);
    var c := e.c;
    assert c in s.cpus ==> CpuOk(s, s.cpus[c]);
    LocalKeepsCpus(s, s', c);
  }

  lemma PickKeepsCpus(s: Sys, c: int, p: int)
    requires LockInv(s) && CpuInv(s) && Enabled(s, Pick(c, p))
    ensures CpuInv(Do(s, Pick(c, p)))
  {
    OthersInProc(s, c);
    LocalKeepsCpus(s, Do(s, Pick(c, p)), c);
  }

  lemma LeaveKeepsCpus(s: Sys, e: Event)
    requires LockInv(s) && CpuInv(s) && Enabled(s, e) && (e.Yield? || e.SleepOn? || e.WaitSleep?)
    ensures CpuInv(Do(s, e))
  {
    assert CpuOk(s, s.cpus[e.c]);
    OthersInProc(s, e.c);
    LocalKeepsCpus(s, Do(s, e), e.c);
  }

  lemma ExitKeepsCpus(s: Sys, c: int)
    requires LockInv(s) && CpuInv(s) && Enabled(s, Exit(c))
    ensures CpuInv(Do(s, Exit(c)))
  {
    hide ExitProcs, WakeAll;
    var s', p := Do(s, Exit(c)), CpuOf(s, c).pc.p;
    assert CpuOk(s, s.cpus[c]);
    OthersInProc(s, c);
    forall q | q in s.procs
      ensures q in s'.procs && (q == p ==> s'.procs[q].state == Zombie)
      ensures q != p ==> s'.procs[q].state == s.procs[q].state || (s.procs[q].state == Sleeping && s'.procs[q].state == Runnable)
    {
      ExitAt(s, p, q);
    }
    assert s'.procs.Keys == s.procs.Keys by { ExitAt(s, p, p); }
    LocalKeepsCpus(s, s', c);
  }

  /** Steps that leave every CPU where it is and no process on a CPU in another state. */
  lemma TableStepKeepsCpus(s: Sys, s': Sys)
    requires CpuInv(s) && s'.cpus == s.cpus && s'.procs.Keys == s.procs.Keys
    requires forall p | p in s.procs :: s'.procs[p].state == Running <==> s.procs[p].state == Running
    requires forall c, q | c in s.cpus && q in s.procs && s.cpus[c].cur == Some(q) && s.procs[q].state != Running ::
               s'.procs[q].state == s.procs[q].state
    ensures CpuInv(s')
  {
    forall c | c in s.cpus ensures CpuOk(s', s'.cpus[c]) {
      assert CpuOk(s, s.cpus[c]);
    }
  }

  lemma WakingKeepsCpus(s: Sys, e: Event)
    requires LockInv(s) && CpuInv(s) && Enabled(s, e) && (e.Wakeup? || e.Kill?)
    ensures CpuInv(Do(s, e))
  {
    AllInProc(s);
    TableStepKeepsCpus(s, Do(s, e));
  }

  lemma OtherStepsKeepCpus(s: Sys, e: Event)
    requires LockInv(s) && CpuInv(s) && ForkInv(s) && Enabled(s, e)
    requires e.Reap? || e.AllocProc? || e.ForkReady?
    ensures CpuInv(Do(s, e))
  {
    assert CpuOk(s, s.cpus[e.c]);
    OthersInProc(s, e.c);
    if e.ForkReady? {
      EmbryoOf(s, CpuOf(s, e.c).pc.p, s.procs[CpuOf(s, e.c).pc.p].forking.value);
    }
    hide ForkInv;
    TableStepKeepsCpus(s, Do(s, e));
  }

  lemma UnlockedForkKeepsCpus(s: Sys, e: Event)
    requires CpuInv(s) && ForkInv(s) && Enabled(s, e) && (e.ForkFail? || e.ForkParent?)
    ensures CpuInv(Do(s, e))
  {
    var np := s.procs[CpuOf(s, e.c).pc.p].forking.value;
    EmbryoOf(s, CpuOf(s, e.c).pc.p, np);
    forall c | c in s.cpus ensures s.cpus[c].cur != Some(np) {
      assert CpuOk(s, s.cpus[c]);
    }
    TableStepKeepsCpus(s, Do(s, e));
  }

  // ---- every step, every run ----

  /** The process a CPU acts for is running. */
  lemma ActorRuns(s: Sys, c: int)
    requires CpuInv(s) && (CpuOf(s, c).pc.InLock? || CpuOf(s, c).pc.InProc?)
    ensures CpuOf(s, c).pc.p in s.procs && s.procs[CpuOf(s, c).pc.p].state == Running
  {
    assert CpuOk(s, s.cpus[c]);
  }

  lemma StepKeepsCpus(s: Sys, e: Event)
    requires LockInv(s) && CpuInv(s) && ForkInv(s)
    ensures CpuInv(Do(s, e))
  {
    hide LockInv, CpuInv, ForkInv;
    if Enabled(s, e) {
      match e
      case Pick(c, p) => PickKeepsCpus(s, c, p);
      case Exit(c) => ExitKeepsCpus(s, c);
      case Yield(_) => LeaveKeepsCpus(s, e);
      case SleepOn(_, _) => LeaveKeepsCpus(s, e);
      case WaitSleep(_) => LeaveKeepsCpus(s, e);
      case Reap(_, _) => OtherStepsKeepCpus(s, e);
      case AllocProc(_, _) => OtherStepsKeepCpus(s, e);
      case ForkReady(_) => OtherStepsKeepCpus(s, e);
      case Wakeup(_) => WakingKeepsCpus(s, e);
      case Kill(_) => WakingKeepsCpus(s, e);
      case ForkFail(_) => UnlockedForkKeepsCpus(s, e);
      case ForkParent(_) => UnlockedForkKeepsCpus(s, e);
      case _ => QuietKeepsCpus(s, e);
    }
  }

  lemma StepKeepsTable(s: Sys, e: Event)
    requires CpuInv(s) && TableInv(s) && WaitInv(s)
    ensures TableInv(Do(s, e)) && WaitInv(Do(s, e))
  {
    hide CpuInv, TableInv, WaitInv;
    if IsBenign(e) {
      BenignEvents(s, e);
      BenignKeepsTable(s, Do(s, e));
      BenignWaits(s, e);
    } else if Enabled(s, e) {
      ActorRuns(s, e.c);
      TableHas(s);
      match e
      case Exit(c) => ExitKeepsTable(s, c); ExitKeepsWaits(s, c);
      case Reap(c, z) => ReapKeepsTable(s, c, z); ReapKeepsWaits(s, c, z);
      case AllocProc(c, np) => AllocKeepsTable(s, c, np); ForkKeepsWaits(s, e);
      case ForkFail(c) => ForkFailKeepsTable(s, c); ForkKeepsWaits(s, e);
      case ForkParent(c) => ForkParentKeepsTable(s, c); ForkKeepsWaits(s, e);
      case ForkReady(c) => ForkReadyKeepsTable(s, c); ForkKeepsWaits(s, e);
    }
  }

  lemma TableHas(s: Sys)
    requires TableInv(s)
    ensures ForkInv(s) && ParentInv(s) && PidInv(s)
  {
  }

  lemma StepKeeps(s: Sys, e: Event)
    requires Inv(s)
    ensures Inv(Do(s, e))
  {
    hide LockInv, CpuInv, ForkInv, ParentInv, PidInv, WaitInv;
    StepKeepsLock(s, e);
    StepKeepsCpus(s, e);
    StepKeepsTable(s, e);
  }

  lemma {:induction false} RunKeeps(s: Sys, es: seq<Event>)
    requires Inv(s)
    ensures Inv(Run(s, es))
    decreases |es|
  {
    hide Inv;
    if es != [] {
      StepKeeps(s, es[0]);
      RunKeeps(Do(s, es[0]), es[1..]);
    }
  }

  /** The table after userinit: init is runnable, every other slot is free, and no CPU has started. */
  function Boot(slots: set<int>, init: int): Sys {
    Sys(map p | p in slots :: if p == init then Proc(Runnable, 1, None, Other(0), false, None)
                              else Proc(Unused, 0, None, Other(0), false, None),
        map[], None, init, 2)
  }

  lemma BootInv(slots: set<int>, init: int)
    requires init in slots
    ensures Inv(Boot(slots, init))
  {
    assert forall p, np :: !Forks(Boot(slots, init), p, np);
    assert forall p :: !HasZombieChild(Boot(slots, init), p);
  }

  /**
   Process-table safety, over every run from boot. With the lock free, RUNNING processes and CPUs
   with a process correspond one to one.
   */
  lemma RunningMatchesCpus(slots: set<int>, init: int, es: seq<Event>)
    requires init in slots
    ensures var s := Run(Boot(slots, init), es);
            s.lock == None ==>
              && (forall c | c in s.cpus && s.cpus[c].cur.Some? ::
                    s.cpus[c].cur.value in s.procs && s.procs[s.cpus[c].cur.value].state == Running)
              && (forall c, d | c in s.cpus && d in s.cpus && s.cpus[c].cur.Some? && s.cpus[c].cur == s.cpus[d].cur :: c == d)
              && (forall p | p in s.procs && s.procs[p].state == Running ::
                    exists c | c in s.cpus :: s.cpus[c].cur == Some(p))
  {
    BootInv(slots, init);
    RunKeeps(Boot(slots, init), es);
    var s := Run(Boot(slots, init), es);
    if s.lock == None {
      AllInProc(s);
      forall p | p in s.procs && s.procs[p].state == Running ensures exists c | c in s.cpus :: s.cpus[c].cur == Some(p) {
        var c :| c in s.cpus && OnCpu(s.cpus[c].pc, p);
        assert CpuOk(s, s.cpus[c]);
      }
    }
  }

  /** Every live process but init has a live parent that can still reap it, and no one waits while there is something to reap. */
  lemma ParentsCanReap(slots: set<int>, init: int, es: seq<Event>)
    requires init in slots
    ensures var s := Run(Boot(slots, init), es);
            && (forall p | Live(s, p) && p != s.init ::
                  s.procs[p].parent.Some? && Live(s, s.procs[p].parent.value)
                  && s.procs[s.procs[p].parent.value].state != Zombie)
            && (forall z | z in s.procs && s.procs[z].state == Zombie && s.procs[z].parent.Some? ::
                  var q := s.procs[z].parent.value;
                  q in s.procs ==> !(s.procs[q].state == Sleeping && s.procs[q].chan == WaitChan(q)))
  {
    BootInv(slots, init);
    RunKeeps(Boot(slots, init), es);
    var s := Run(Boot(slots, init), es);
    forall z | z in s.procs && s.procs[z].state == Zombie && s.procs[z].parent.Some? && s.procs[z].parent.value in s.procs
      ensures var q := s.procs[z].parent.value; !(s.procs[q].state == Sleeping && s.procs[q].chan == WaitChan(q))
    {
      assert HasZombieChild(s, s.procs[z].parent.value);
    }
  }

  /** wait() frees a zombie's kernel stack only after every CPU has left it and forgotten the process. */
  lemma ReapedOnlyWhenGone(slots: set<int>, init: int, es: seq<Event>, c: int, z: int)
    requires init in slots
    ensures var s := Run(Boot(slots, init), es);
            Enabled(s, Reap(c, z)) ==>
              forall d | d in s.cpus :: s.cpus[d].stack != Some(z) && s.cpus[d].cur != Some(z)
  {
    BootInv(slots, init);
    RunKeeps(Boot(slots, init), es);
    var s := Run(Boot(slots, init), es);
    if Enabled(s, Reap(c, z)) {
      forall d | d in s.cpus ensures s.cpus[d].stack != Some(z) && s.cpus[d].cur != Some(z) {
        assert CpuOk(s, s.cpus[d]);
        OthersInProc(s, c);
      }
    }
  }

  lemma ZombieSurvivesExit(s: Sys, c: int, z: int)
    requires CpuInv(s) && Enabled(s, Exit(c)) && z in s.procs && s.procs[z].state == Zombie
    ensures var s' := Do(s, Exit(c));
            z in s'.procs && s'.procs[z].state == Zombie && s'.procs[z].pid == s.procs[z].pid
  {
    hide ExitProcs, WakeAll;
    ExitAt(s, CpuOf(s, c).pc.p, z);
  }

  lemma ZombieSurvivesFork(s: Sys, e: Event, z: int)
    requires ForkInv(s) && Enabled(s, e) && (e.ForkFail? || e.ForkParent? || e.ForkReady?)
    requires z in s.procs && s.procs[z].state == Zombie
    ensures var s' := Do(s, e);
            z in s'.procs && s'.procs[z].state == Zombie && s'.procs[z].pid == s.procs[z].pid
  {
    EmbryoOf(s, CpuOf(s, e.c).pc.p, s.procs[CpuOf(s, e.c).pc.p].forking.value);
  }

  lemma ZombieSurvivesActor(s: Sys, e: Event, z: int)
    requires CpuInv(s) && Enabled(s, e) && (e.Yield? || e.SleepOn? || e.WaitSleep? || e.AllocProc?)
    requires z in s.procs && s.procs[z].state == Zombie
    ensures var s' := Do(s, e);
            z in s'.procs && s'.procs[z].state == Zombie && s'.procs[z].pid == s.procs[z].pid
  {
    ActorRuns(s, e.c);
  }

  /** A zombie stays the same zombie until its parent reaps it: it never runs again and is reaped once. */
  lemma ZombiesOnlyReaped(s: Sys, e: Event, z: int)
    requires Inv(s) && z in s.procs && s.procs[z].state == Zombie
    ensures var s' := Do(s, e);
            z in s'.procs &&
            if e.Reap? && e.z == z && Enabled(s, e) then s'.procs[z].state == Unused
            else s'.procs[z].state == Zombie && s'.procs[z].pid == s.procs[z].pid
  {
    hide LockInv, CpuInv, ForkInv, ParentInv, WaitInv, PidInv, ExitProcs;
    if Enabled(s, e) {
      match e
      case Exit(c) => ZombieSurvivesExit(s, c, z);
      case ForkFail(_) => ZombieSurvivesFork(s, e, z);
      case ForkParent(_) => ZombieSurvivesFork(s, e, z);
      case ForkReady(_) => ZombieSurvivesFork(s, e, z);
      case Yield(_) => ZombieSurvivesActor(s, e, z);
      case SleepOn(_, _) => ZombieSurvivesActor(s, e, z);
      case WaitSleep(_) => ZombieSurvivesActor(s, e, z);
      case AllocProc(_, _) => ZombieSurvivesActor(s, e, z);
      case _ =>
    }
  }
}
