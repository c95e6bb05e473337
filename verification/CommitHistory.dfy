/**
 What the processes asked to be logged, told from the events of a run alone, and what of it a crash
 leaves. An update belongs to the operation that its process began last, and carries the block and
 contents that the process last presented to log_write.
 */
module CommitHistory {
  import opened Common
  import opened GroupCommit
  import opened LogCode
  import opened RedoLog
  import opened Storage
  import opened Sums

  /** begin_op lets p in. */
  ghost predicate Admitted(g: Geometry, s: State, e: Event) {
    e.Begin? && Enabled(g, s, e) && Admits(|s.h|, s.outstanding, s.committing)
  }

  /** The number of operations begun. */
  ghost function Ops(g: Geometry, d: Disk, es: seq<Event>): nat
    decreases |es|
  {
    if es == [] then 0
    else
      var n := |es| - 1;
      Ops(g, d, es[..n]) + if Admitted(g, Run(g, Boot(d), es[..n]), es[n]) then 1 else 0
  }

  /** The operation p is in: the last one it began. */
  ghost function OpOf(g: Geometry, d: Disk, es: seq<Event>, p: int): nat
    decreases |es|
  {
    if es == [] then 0
    else
      var n := |es| - 1;
      if Admitted(g, Run(g, Boot(d), es[..n]), es[n]) && es[n].p == p then Ops(g, d, es[..n]) else OpOf(g, d, es[..n], p)
  }

  /** What p last called log_write with. */
  ghost function Asked(g: Geometry, d: Disk, es: seq<Event>, p: int): Option<Write>
    decreases |es|
  {
    if es == [] then None
    else
      var n := |es| - 1;
      if es[n].Check? && es[n].p == p && Enabled(g, Run(g, Boot(d), es[..n]), es[n]) then Some(Write(es[n].bn, es[n].data))
      else Asked(g, d, es[..n], p)
  }

  /** The updates of a run in order; a crash forgets those that were not durable. */
  ghost function Updates(g: Geometry, d: Disk, es: seq<Event>): seq<Entry>
    decreases |es|
  {
    if es == [] then []
    else
      var n := |es| - 1;
      var s, before := Run(g, Boot(d), es[..n]), Updates(g, d, es[..n]);
      if !Enabled(g, s, es[n]) then before
      else if es[n].Crash? then before[..if s.durable <= |before| then s.durable else 0]
      else if es[n].Record? && Asked(g, d, es[..n], es[n].p).Some? then
        var w := Asked(g, d, es[..n], es[n].p).value;
        before + [Entry(OpOf(g, d, es[..n], es[n].p), w.bn, w.data)]
      else before
  }

  // ---- the machine keeps exactly these ----

  ghost predicate Knows(g: Geometry, d: Disk, es: seq<Event>, s: State) {
    && s.nextOp == Ops(g, d, es) && s.journal == Updates(g, d, es)
    && (forall p | p in s.procs && (s.procs[p].InOp? || s.procs[p].Logging?) :: s.procs[p].op == OpOf(g, d, es, p))
    && (forall p | p in s.procs && s.procs[p].Logging? :: Asked(g, d, es, p) == Some(Write(s.procs[p].bn, s.procs[p].data)))
  }

  lemma RunLast(g: Geometry, s: State, es: seq<Event>)
    requires es != []
    ensures Run(g, s, es) == Do(g, Run(g, s, es[..|es| - 1]), es[|es| - 1])
  {
    hide Do;
    var n := |es| - 1;
    assert es == es[..n] + [es[n]] && [es[n]][1..] == [];
    RunConcat(g, s, es[..n], [es[n]]);
    assert Run(g, Run(g, s, es[..n]), [es[n]]) == Run(g, Do(g, Run(g, s, es[..n]), es[n]), []);
  }

  ghost predicate Active(ph: Phase) { ph.InOp? || ph.Logging? }

  /** How a step can bring a process into an operation or a call of log_write. */
  lemma PhaseAfter(g: Geometry, s: State, e: Event, p: int)
    ensures var ph, ph' := PhaseOf(s, p), PhaseOf(Do(g, s, e), p);
            && (Active(ph') ==>
                  if Admitted(g, s, e) && e.p == p then ph'.op == s.nextOp else Active(ph) && ph'.op == ph.op)
            && (ph'.Logging? ==>
                  if e.Check? && e.p == p && Enabled(g, s, e) then ph'.bn == e.bn && ph'.data == e.data
                  else ph.Logging? && ph'.bn == ph.bn && ph'.data == ph.data)
  {
    hide Plan, Apply, RecoverAfter, Absorb, TooBig;
  }

  lemma OpsAfter(g: Geometry, s: State, e: Event)
    ensures Do(g, s, e).nextOp == s.nextOp + if Admitted(g, s, e) then 1 else 0
  {
    hide Plan, Apply, RecoverAfter, Absorb, TooBig;
  }

  lemma StepKnowsPhases(g: Geometry, d: Disk, es: seq<Event>)
    requires es != [] && Knows(g, d, es[..|es| - 1], Run(g, Boot(d), es[..|es| - 1]))
    ensures var s' := Do(g, Run(g, Boot(d), es[..|es| - 1]), es[|es| - 1]);
            && s'.nextOp == Ops(g, d, es)
            && (forall p | p in s'.procs && (s'.procs[p].InOp? || s'.procs[p].Logging?) :: s'.procs[p].op == OpOf(g, d, es, p))
            && (forall p | p in s'.procs && s'.procs[p].Logging? ::
                  Asked(g, d, es, p) == Some(Write(s'.procs[p].bn, s'.procs[p].data)))
  {
    hide Run, Do, Enabled, Updates, Admitted;
    var n := |es| - 1;
    var s := Run(g, Boot(d), es[..n]);
    var s' := Do(g, s, es[n]);
    OpsAfter(g, s, es[n]);
    forall p | p in s'.procs && Active(s'.procs[p])
      ensures s'.procs[p].op == OpOf(g, d, es, p)
      ensures s'.procs[p].Logging? ==> Asked(g, d, es, p) == Some(Write(s'.procs[p].bn, s'.procs[p].data))
    {
      PhaseAfter(g, s, es[n], p);
      assert PhaseOf(s', p) == s'.procs[p];
    }
  }

  lemma StepKnowsJournal(g: Geometry, d: Disk, es: seq<Event>)
    requires es != [] && Knows(g, d, es[..|es| - 1], Run(g, Boot(d), es[..|es| - 1]))
    ensures Do(g, Run(g, Boot(d), es[..|es| - 1]), es[|es| - 1]).journal == Updates(g, d, es)
  {
    hide Run, Plan, Apply, RecoverAfter, Absorb, Admits, TooBig, OpOf, Asked, Ops;
    var n := |es| - 1;
    var s, e := Run(g, Boot(d), es[..n]), es[n];
    if Enabled(g, s, e) && e.Record? {
      assert e.p in s.procs && s.procs[e.p].Logging?;
    }
  }

  lemma {:induction false} RunKnows(g: Geometry, d: Disk, es: seq<Event>)
    ensures Knows(g, d, es, Run(g, Boot(d), es))
    decreases |es|
  {
    hide Do;
    if es != [] {
      RunKnows(g, d, es[..|es| - 1]);
      hide Run, Updates, OpOf, Asked, Ops;
      StepKnowsPhases(g, d, es);
      StepKnowsJournal(g, d, es);
      RunLast(g, Boot(d), es);
    }
  }

  // ---- the theorems ----

  /** In every run the machine's journal is what the processes asked to be logged. */
  lemma JournalIsUpdates(g: Geometry, d: Disk, es: seq<Event>)
    ensures Run(g, Boot(d), es).journal == Updates(g, d, es)
  {
    RunKnows(g, d, es);
  }

  /** How many of the updates a crash after this run would leave. */
  ghost function Kept(g: Geometry, d: Disk, es: seq<Event>): nat {
    Run(g, Boot(d), es).durable
  }

  /**
   Recovering from a crash after this run, with recovery itself interrupted any number of times,
   leaves the effect of exactly the first k updates, and these make up whole, finished operations.
   */
  ghost predicate Leaves(g: Geometry, d: Disk, es: seq<Event>, crashes: seq<nat>, k: nat) {
    var s, us := Run(g, Boot(d), es), Updates(g, d, es);
    && |d| == g.total && WellFormed(g, s.disk)
    && k <= |us| && HomeEntries(g, us[..k])
    && SameHome(g, RecoverAfter(g, s.disk, crashes), Replay(g, d, us[..k]))
    && WholeOps(us, k)
    && (forall i | 0 <= i < k :: !Live(s, us[i].op))
  }

  /**
   Group-commit isolation. Whatever the processes did and however often the machine crashed before,
   a crash now leaves a prefix of the updates they asked for, made of whole, finished operations.
   This holds for a log of any size, as long as the header has stayed inside it.
   */
  lemma CrashYieldsWholeOperations(g: Geometry, d: Disk, es: seq<Event>, crashes: seq<nat>)
    requires Clean(g, d) && StaysInside(g, Boot(d), es)
    ensures Leaves(g, d, es, crashes, Kept(g, d, es)) && Run(g, Boot(d), es).fault != EndedWhileCommitting
  {
    hide Inv, Run, StaysInside, Updates, Live;
    BootInv(g, d);
    RunKeeps(g, Boot(d), es);
    InitNeverChanges(g, Boot(d), es);
    InvIsolates(g, Run(g, Boot(d), es), crashes);
    JournalIsUpdates(g, d, es);
  }

  /**
   Durability: the updates that a crash would leave at some point of a run are among those that
   every later crash leaves, in the same order, across any further steps and crashes.
   */
  lemma CommittedStaysCommitted(g: Geometry, d: Disk, es: seq<Event>, later: seq<Event>, crashes: seq<nat>)
    requires Clean(g, d) && StaysInside(g, Boot(d), es + later)
    ensures var us, us' := Updates(g, d, es), Updates(g, d, es + later);
            var k, k' := Kept(g, d, es), Kept(g, d, es + later);
            k <= k' && k <= |us| && k <= |us'| && us[..k] == us'[..k] && Leaves(g, d, es + later, crashes, k')
  {
    hide Run, Updates, StaysInside, Leaves, Do;
    DurablePrefixGrows(g, Boot(d), es);
    DurablePrefixGrows(g, Run(g, Boot(d), es), later);
    RunConcat(g, Boot(d), es, later);
    JournalIsUpdates(g, d, es);
    JournalIsUpdates(g, d, es + later);
    CrashYieldsWholeOperations(g, d, es + later, crashes);
  }

  /** When a commit finishes, every update asked for before it is on the disk, and every later crash leaves them all. */
  lemma FinishedMeansDurable(g: Geometry, d: Disk, es: seq<Event>, p: int)
    requires Clean(g, d) && StaysInside(g, Boot(d), es) && Enabled(g, Run(g, Boot(d), es), Finish(p))
    ensures var us, es' := Updates(g, d, es), es + [Finish(p)];
            && |d| == g.total && HomeEntries(g, us)
            && SameHome(g, Run(g, Boot(d), es').disk, Replay(g, d, us))
            && Updates(g, d, es') == us && Kept(g, d, es') == |us|
  {
    hide Run, Updates, StaysInside, Inv, Enabled, Replay, SameHome;
    var s := Run(g, Boot(d), es);
    BootInv(g, d);
    RunKeeps(g, Boot(d), es);
    InitNeverChanges(g, Boot(d), es);
    FinishFacts(g, s, p);
    FinishSettles(g, s, p);
    assert (es + [Finish(p)])[..|es|] == es;
    RunLast(g, Boot(d), es + [Finish(p)]);
    JournalIsUpdates(g, d, es);
    JournalIsUpdates(g, d, es + [Finish(p)]);
  }

  lemma FinishFacts(g: Geometry, s: State, p: int)
    requires Inv(g, s) && Enabled(g, s, Finish(p))
    ensures |s.init| == g.total && HomeEntries(g, s.journal)
    ensures Do(g, s, Finish(p)).journal == s.journal && Do(g, s, Finish(p)).init == s.init
  {
    hide SpaceInv, SleepInv, OpsInv, Apply;
  }

  /** In a log of more than LOGSIZE blocks isolation and durability hold in every run. */
  lemma RoomyLogIsolates(g: Geometry, d: Disk, es: seq<Event>, crashes: seq<nat>)
    requires Roomy(g) && Clean(g, d)
    ensures Leaves(g, d, es, crashes, Kept(g, d, es))
  {
    BootSpace(g, Boot(d));
    RoomyStaysInside(g, Boot(d), es);
    CrashYieldsWholeOperations(g, d, es, crashes);
  }

  lemma RoomyLogIsDurable(g: Geometry, d: Disk, es: seq<Event>, later: seq<Event>, crashes: seq<nat>)
    requires Roomy(g) && Clean(g, d)
    ensures var us, us' := Updates(g, d, es), Updates(g, d, es + later);
            var k, k' := Kept(g, d, es), Kept(g, d, es + later);
            k <= k' && k <= |us| && k <= |us'| && us[..k] == us'[..k] && Leaves(g, d, es + later, crashes, k')
  {
    hide Run, Updates, StaysInside, Leaves, Do;
    BootSpace(g, Boot(d));
    RoomyStaysInside(g, Boot(d), es + later);
    CommittedStaysCommitted(g, d, es, later, crashes);
  }

  /** In the log mkfs makes they hold in every run in which log_write's guard is not raced. */
  lemma OneAtATimeIsolates(g: Geometry, d: Disk, es: seq<Event>, crashes: seq<nat>)
    requires Clean(g, d) && OneAtATime(g, Boot(d), es)
    ensures Leaves(g, d, es, crashes, Kept(g, d, es))
  {
    OneAtATimeStaysInside(g, Boot(d), es);
    CrashYieldsWholeOperations(g, d, es, crashes);
  }

  // ---- what becomes of an operation that has ended ----

  /** p is outside any operation and does not commit. */
  ghost predicate Resting(s: State, p: int) {
    PhaseOf(s, p) == Idle || PhaseOf(s, p) == Asleep
  }

  lemma RestingIsQuiet(g: Geometry, s: State)
    requires SpaceInv(g, s) && forall p | p in s.procs :: Resting(s, p)
    ensures s.outstanding == 0 && !s.committing
  {
    WeighZero(s.procs, ActiveWeight);
    WeighZero(s.procs, CommitterWeight);
  }

  /**
   end_op leaves nothing behind: in every run, whenever no process is in an operation or commits,
   every update asked for is on the disk.
   */
  lemma QuietMeansDurable(g: Geometry, d: Disk, es: seq<Event>)
    requires Clean(g, d) && StaysInside(g, Boot(d), es)
    requires var s := Run(g, Boot(d), es); forall p | p in s.procs :: Resting(s, p)
    ensures var s, us := Run(g, Boot(d), es), Updates(g, d, es);
            |d| == g.total && HomeEntries(g, us) && SameHome(g, s.disk, Replay(g, d, us)) && Kept(g, d, es) == |us|
  {
    hide Run, Updates, StaysInside, SleepInv, OpsInv, Apply, Weigh, Resting, Committed;
    var s := Run(g, Boot(d), es);
    BootInv(g, d);
    RunKeeps(g, Boot(d), es);
    RunKeepsQuiet(g, Boot(d), es);
    InitNeverChanges(g, Boot(d), es);
    RestingIsQuiet(g, s);
    JournalIsUpdates(g, d, es);
    assert s.journal[..s.durable] == s.journal;
  }

  /** Nobody waits for nothing: while a process sleeps in begin_op, another is in an operation or commits. */
  lemma SleepersAreWaitedFor(g: Geometry, d: Disk, es: seq<Event>, p: int)
    requires Clean(g, d) && StaysInside(g, Boot(d), es) && PhaseOf(Run(g, Boot(d), es), p) == Asleep
    ensures var s := Run(g, Boot(d), es); exists q | q in s.procs :: !Resting(s, q)
  {
    hide Run, StaysInside, DataInv, OpsInv, Weigh, Resting;
    var s := Run(g, Boot(d), es);
    BootInv(g, d);
    RunKeeps(g, Boot(d), es);
    RunKeepsQuiet(g, Boot(d), es);
    if forall q | q in s.procs :: Resting(s, q) {
      RestingIsQuiet(g, s);
    }
  }

  // ---- a commit can always be brought to its end ----

  lemma {:induction false} CommitCanFinish(g: Geometry, s: State, p: int) returns (es: seq<Event>)
    requires Inv(g, s) && Inside(g, s) && s.fault == NoFault && PhaseOf(s, p) == Committing
    ensures var s' := Run(g, s, es);
            && Inv(g, s') && !s'.committing && PhaseOf(s', p) == Idle && s'.journal == s.journal && s'.durable == |s.journal|
    decreases if s.committing && g.Valid() && |s.base| == g.total && Loggable(g, s.h) then |Plan(g, s)| - s.written else 0
  {
    hide SpaceInv, SleepInv, OpsInv, Apply;
    CommitterHolds(g, s, p);
    CommitterReady(g, s, p);
    if s.written < |Plan(g, s)| {
      var e := CommitWrite(p);
      var s1 := Do(g, s, e);
      StepKeeps(g, s, e);
      hide Plan, DataInv, Inv;
      var later := CommitCanFinish(g, s1, p);
      es := [e] + later;
      assert es[1..] == later;
    } else {
      es := [Finish(p)];
      StepKeeps(g, s, Finish(p));
      FinishSettles(g, s, p);
      assert [Finish(p)][1..] == [];
      assert Run(g, s, es) == Run(g, Do(g, s, Finish(p)), []);
    }
  }

  lemma CommitterReady(g: Geometry, s: State, p: int)
    requires DataInv(g, s) && s.committing && PhaseOf(s, p) == Committing
    ensures MidCommit(g, s, p) && s.written <= |Plan(g, s)|
  {
    hide Apply;
  }
}
