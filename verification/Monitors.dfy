/** The critical sections of sleeplock.c, log.c and pipe.c, and which of their sleepers can be left behind. */
module Monitors {
  import opened Common
  import opened SleepWakeup
  import GroupCommit
  import LogCode
  import RedoLog

  // ---- sleeplock.c ----

  const LK: int := 1

  datatype SleepLock = SleepLock(locked: bool, pid: int)

  /** acquiresleep by any process, releasesleep, holdingsleep */
  predicate LockSection(s: SleepLock, s': SleepLock, wakes: set<int>, sleepOn: Option<int>) {
    || (s.locked && s' == s && wakes == {} && sleepOn == Some(LK))
    || (!s.locked && s'.locked && wakes == {} && sleepOn == None)
    || (s' == SleepLock(false, 0) && wakes == {LK} && sleepOn == None)
    || (s' == s && wakes == {} && sleepOn == None)
  }

  predicate LockWait(s: SleepLock, c: int) {
    c == LK && s.locked
  }

  /** With the locks free, a process asleep on a sleep lock means the lock is held. */
  lemma SleepLockSleepersWaitForHolder(init: SleepLock, es: seq<Event<SleepLock>>)
    ensures var s := Run(LockSection, Start(init), es);
            s.lk == None && s.pt == None ==> forall p | p in s.pcs && s.pcs[p] == Asleep(LK) :: s.state.locked
  {
    NoLostWakeup(LockSection, LockWait, init, es);
  }

  // ---- log.c ----

  const LOG: int := 2

  datatype LogCounts = LogCounts(n: nat, outstanding: int, committing: bool)

  predicate BeginOp(s: LogCounts, s': LogCounts, wakes: set<int>, sleepOn: Option<int>) {
    if LogCode.Admits(s.n, s.outstanding, s.committing) then
      s' == s.(outstanding := s.outstanding + 1) && wakes == {} && sleepOn == None
    else s' == s && wakes == {} && sleepOn == Some(LOG)
  }

  /** The first critical section of end_op; only the one that does not start a commit calls wakeup. */
  predicate EndOp(s: LogCounts, s': LogCounts, wakes: set<int>, sleepOn: Option<int>) {
    && !s.committing && sleepOn == None
    && if s.outstanding == 1 then s' == s.(outstanding := 0, committing := true) && wakes == {}
       else s' == s.(outstanding := s.outstanding - 1) && wakes == {LOG}
  }

  predicate LogSection(s: LogCounts, s': LogCounts, wakes: set<int>, sleepOn: Option<int>) {
    || BeginOp(s, s', wakes, sleepOn)
    || EndOp(s, s', wakes, sleepOn)
    // log_write: absorbed or appended
    || ((s' == s || s' == s.(n := s.n + 1)) && wakes == {} && sleepOn == None)
    // the end of a commit, which has emptied the header
    || (s.committing && s' == s.(n := 0, committing := false) && wakes == {LOG} && sleepOn == None)
  }

  predicate LogWait(s: LogCounts, c: int) {
    c == LOG && !LogCode.Admits(s.n, s.outstanding, s.committing)
  }

  /** With the locks free, a process asleep in begin_op means a commit is running or the log has no room for it. */
  lemma BeginOpSleepersWaitForRoom(init: LogCounts, es: seq<Event<LogCounts>>)
    ensures var s := Run(LogSection, Start(init), es);
            s.lk == None && s.pt == None ==>
              forall p | p in s.pcs && s.pcs[p] == Asleep(LOG) ::
                s.state.committing || s.state.n + (s.state.outstanding + 1) * RedoLog.MAXOPBLOCKS > RedoLog.LOGSIZE
  {
    NoLostWakeup(LogSection, LogWait, init, es);
  }

  ghost function Counts(s: GroupCommit.State): LogCounts {
    LogCounts(|s.h|, s.outstanding, s.committing)
  }

  /** The processes asleep in begin_op that the step from s to s' wakes, as a set of channels. */
  ghost function LogWakes(s: GroupCommit.State, s': GroupCommit.State): set<int> {
    if forall p | p in s.procs && s.procs[p] == GroupCommit.Asleep :: p in s'.procs && s'.procs[p] == GroupCommit.Asleep then {} else {LOG}
  }

  /**
   The steps by which the group-commit machine takes the log's lock are these critical sections: it
   counts operations and recorded blocks as they do, sleeps where they do, and wakes nobody they do not.
   */
  lemma LogStepIsSection(g: RedoLog.Geometry, s: GroupCommit.State, e: GroupCommit.Event) returns (wakes: set<int>)
    requires GroupCommit.SpaceInv(g, s) && GroupCommit.Enabled(g, s, e) && (e.Begin? || e.Record? || e.End? || e.Finish?)
    ensures var s' := GroupCommit.Do(g, s, e);
            var sleepOn := if e.Begin? && GroupCommit.PhaseOf(s', e.p) == GroupCommit.Asleep then Some(LOG) else None;
            LogWakes(s, s') <= wakes && LogSection(Counts(s), Counts(s'), wakes, sleepOn)
  {
    hide LogCode.Admits;
    var s' := GroupCommit.Do(g, s, e);
    wakes := {};
    match e
    case Begin(p) => assert LogWakes(s, s') == {};
    case Record(p) => assert LogWakes(s, s') == {};
    case End(p) =>
      GroupCommit.ActiveExcludesCommit(g, s, p);
      if s.outstanding != 1 {
        wakes := {LOG};
      }
    case Finish(p) =>
      GroupCommit.CommitterHolds(g, s, p);
      wakes := {LOG};
  }

  // ---- pipe.c ----

  const NREAD: int := 3
  const NWRITE: int := 4
  const PIPESIZE: nat := 512

  datatype PipeLevel = PipeLevel(count: nat, readopen: bool, writeopen: bool)

  /** How a critical section ends: the new state, the channels it wakes, and where it then sleeps. */
  datatype Turn = Turn(next: PipeLevel, wakes: set<int>, sleepOn: Option<int>)

  /**
   One critical section of pipewrite with n bytes left to store: everything fits, or the pipe fills
   up and the writer sleeps, or it fills up and the writer returns at once, because no reader is
   left or because it has been killed.
   */
  function WriteTurn(s: PipeLevel, n: nat, killed: bool): Turn
    requires s.count <= PIPESIZE
  {
    if s.count + n <= PIPESIZE then Turn(s.(count := s.count + n), {NREAD}, None)
    else if !s.readopen || killed then Turn(s.(count := PIPESIZE), {}, None)
    else Turn(s.(count := PIPESIZE), {NREAD}, Some(NWRITE))
  }

  /** piperead for up to n bytes: sleep while empty unless killed, otherwise take them and wake the writers. */
  function ReadTurn(s: PipeLevel, n: nat, killed: bool): Turn {
    if s.count == 0 && s.writeopen then Turn(s, {}, if killed then None else Some(NREAD))
    else Turn(s.(count := if n < s.count then s.count - n else 0), {NWRITE}, None)
  }

  function CloseTurn(s: PipeLevel, writable: bool): Turn {
    if writable then Turn(s.(writeopen := false), {NREAD}, None)
    else Turn(s.(readopen := false), {NWRITE}, None)
  }

  ghost predicate PipeSection(s: PipeLevel, s': PipeLevel, wakes: set<int>, sleepOn: Option<int>) {
    var t := Turn(s', wakes, sleepOn);
    || (s.count <= PIPESIZE && exists n: nat, killed: bool :: t == WriteTurn(s, n, killed))
    || (exists n: nat, killed: bool :: t == ReadTurn(s, n, killed))
    || (exists writable: bool :: t == CloseTurn(s, writable))
  }

  /** A section that puts bytes into an empty pipe and tells no reader. */
  predicate Forsakes(s: PipeLevel, s': PipeLevel, wakes: set<int>) {
    s.readopen && s.count == 0 && s'.count > 0 && NREAD !in wakes
  }

  /** pipewrite does that exactly when it is called by a killed process for more than the pipe holds. */
  lemma WriteForsakesIff(s: PipeLevel, n: nat, killed: bool)
    requires s.readopen && s.count == 0
    ensures var t := WriteTurn(s, n, killed); Forsakes(s, t.next, t.wakes) <==> killed && n > PIPESIZE
  {
  }

  /** No section of this run does that. */
  ghost predicate Careful(s: Sys<PipeLevel>, es: seq<Event<PipeLevel>>)
    decreases |es|
  {
    es == [] ||
    (&& (es[0].Enter? && Enabled(PipeSection, s, es[0]) ==> !Forsakes(s.state, es[0].next, es[0].wakes))
     && Careful(Do(PipeSection, s, es[0]), es[1..]))
  }

  ghost predicate SafeSection(s: PipeLevel, s': PipeLevel, wakes: set<int>, sleepOn: Option<int>) {
    PipeSection(s, s', wakes, sleepOn) && !Forsakes(s, s', wakes)
  }

  lemma {:induction false} CarefulIsSafe(s: Sys<PipeLevel>, es: seq<Event<PipeLevel>>)
    requires Careful(s, es)
    ensures Run(PipeSection, s, es) == Run(SafeSection, s, es)
    decreases |es|
  {
    if es != [] {
      assert Do(PipeSection, s, es[0]) == Do(SafeSection, s, es[0]);
      CarefulIsSafe(Do(PipeSection, s, es[0]), es[1..]);
    }
  }

  predicate PipeWait(s: PipeLevel, c: int) {
    || (c == NREAD && (!s.readopen || (s.count == 0 && s.writeopen)))
    || (c == NWRITE && s.count == PIPESIZE && s.readopen)
  }

  lemma SafeIsDisciplined()
    ensures Disciplined(SafeSection, PipeWait)
  {
  }

  /**
   In a careful run, with the locks free, a writer sleeps only on a full pipe whose read end is
   open, a reader of an open read end only on an empty pipe that can still be written, and never
   both at once.
   */
  lemma PipeNeverStuck(init: PipeLevel, es: seq<Event<PipeLevel>>)
    requires Careful(Start(init), es)
    ensures var s := Run(PipeSection, Start(init), es);
            s.lk == None && s.pt == None ==>
              && (forall p | p in s.pcs && s.pcs[p] == Asleep(NREAD) && s.state.readopen :: s.state.count == 0 && s.state.writeopen)
              && (forall p | p in s.pcs && s.pcs[p] == Asleep(NWRITE) :: s.state.count == PIPESIZE && s.state.readopen)
              && !(exists p, q | p in s.pcs && q in s.pcs :: s.pcs[p] == Asleep(NREAD) && s.pcs[q] == Asleep(NWRITE))
  {
    hide PipeSection, SafeSection;
    CarefulIsSafe(Start(init), es);
    SafeIsDisciplined();
    NoLostWakeup(SafeSection, PipeWait, init, es);
  }

  // ---- when a reader is left behind ----

  /** Reader q is asleep on an open pipe with bytes in it, and no one is about to wake it. */
  ghost predicate Forgotten(s: Sys<PipeLevel>, q: int) {
    s.lk == None && s.pt == None && s.state.readopen && s.state.count > 0 && q in s.pcs && s.pcs[q] == Asleep(NREAD)
  }

  /** The steps of one critical section of pipewrite by process p. */
  function WriteEvents(s: PipeLevel, p: int, n: nat, killed: bool): seq<Event<PipeLevel>>
    requires s.count <= PIPESIZE
  {
    var t := WriteTurn(s, n, killed);
    var enter := Enter(p, t.next, t.wakes, t.sleepOn);
    if t.wakes == {} then [enter, Leave(p)]
    else if t.sleepOn == None then [enter, StartWake(p, NREAD), EndWake(p), Leave(p)]
    else [enter, StartWake(p, NREAD), EndWake(p), StartSleep(p), FallAsleep(p)]
  }

  lemma RunTwo<S>(sec: Section<S>, s: Sys<S>, a: Event<S>, b: Event<S>)
    ensures Run(sec, s, [a, b]) == Do(sec, Do(sec, s, a), b)
  {
    assert [a, b][1..] == [b] && [b][1..] == [];
    assert Run(sec, Do(sec, s, a), [b]) == Run(sec, Do(sec, Do(sec, s, a), b), []);
  }

  lemma {:induction false} RunConcat<S>(sec: Section<S>, s: Sys<S>, a: seq<Event<S>>, b: seq<Event<S>>)
    ensures Run(sec, s, a + b) == Run(sec, Run(sec, s, a), b)
    decreases |a|
  {
    if a == [] {
      assert a + b == b;
    } else {
      assert (a + b)[1..] == a[1..] + b;
      RunConcat(sec, Do(sec, s, a[0]), a[1..], b);
    }
  }

  ghost predicate Ready(s: Sys<PipeLevel>, p: int, q: int) {
    && s.lk == None && s.pt == None && s.state.count <= PIPESIZE && s.state.readopen
    && (PcOf(s, p) == Out || PcOf(s, p) == Woken) && q in s.pcs && s.pcs[q] == Asleep(NREAD)
  }

  lemma Enters(s: Sys<PipeLevel>, p: int, q: int, n: nat, killed: bool)
    requires Ready(s, p, q)
    ensures var t := WriteTurn(s.state, n, killed);
            Do(PipeSection, s, Enter(p, t.next, t.wakes, t.sleepOn))
            == Sys(t.next, Some(p), None, s.pcs[p := Critical(t.wakes, t.sleepOn)])
  {
    var t := WriteTurn(s.state, n, killed);
    assert PipeSection(s.state, t.next, t.wakes, t.sleepOn) by {
      assert Turn(t.next, t.wakes, t.sleepOn) == WriteTurn(s.state, n, killed);
    }
  }

  /** The writer's wakeup of the readers, once it is in its critical section. */
  lemma Wakes(s: Sys<PipeLevel>, p: int, q: int, sleepOn: Option<int>) returns (s': Sys<PipeLevel>)
    requires s.lk == Some(p) && s.pt == None && p in s.pcs && s.pcs[p] == Critical({NREAD}, sleepOn)
    requires q in s.pcs && s.pcs[q] == Asleep(NREAD)
    ensures s' == Run(PipeSection, s, [StartWake(p, NREAD), EndWake(p)])
    ensures s'.lk == Some(p) && s'.pt == None && p in s'.pcs && s'.pcs[p] == Critical({}, sleepOn) && s'.state == s.state
    ensures q in s'.pcs && s'.pcs[q] == Woken
  {
    hide PipeSection;
    RunTwo(PipeSection, s, StartWake(p, NREAD), EndWake(p));
    var s1 := Do(PipeSection, s, StartWake(p, NREAD));
    assert {NREAD} - {NREAD} == {};
    assert s1 == Sys(s.state, Some(p), Some(p), s.pcs[p := WakeScan(NREAD, {}, sleepOn)]);
    s' := Do(PipeSection, s1, EndWake(p));
  }

  lemma Sleeps(s: Sys<PipeLevel>, p: int)
    requires s.lk == Some(p) && s.pt == None && p in s.pcs && s.pcs[p] == Critical({}, Some(NWRITE))
    ensures Run(PipeSection, s, [StartSleep(p), FallAsleep(p)]) == s.(lk := None, pcs := s.pcs[p := Asleep(NWRITE)])
  {
    hide PipeSection;
    RunTwo(PipeSection, s, StartSleep(p), FallAsleep(p));
    var s1 := Do(PipeSection, s, StartSleep(p));
    assert s1 == Sys(s.state, None, Some(p), s.pcs[p := Falling(NWRITE)]);
    assert s.pcs[p := Falling(NWRITE)][p := Asleep(NWRITE)] == s.pcs[p := Asleep(NWRITE)];
  }

  lemma Leaves(s: Sys<PipeLevel>, p: int)
    requires s.lk == Some(p) && p in s.pcs && s.pcs[p] == Critical({}, None)
    ensures Run(PipeSection, s, [Leave(p)]) == s.(lk := None, pcs := s.pcs[p := Out])
  {
    hide PipeSection;
    var es: seq<Event<PipeLevel>> := [Leave(p)];
    assert es[1..] == [];
    assert Run(PipeSection, s, es) == Run(PipeSection, Do(PipeSection, s, Leave(p)), []);
  }

  /**
   A reader asleep on the pipe is left behind by one critical section of pipewrite if and only if
   the writer has been killed and has more bytes than the pipe has room for.
   */
  lemma WriteForgetsReaderIff(s: Sys<PipeLevel>, p: int, q: int, n: nat, killed: bool)
    requires Ready(s, p, q)
    ensures Forgotten(Run(PipeSection, s, WriteEvents(s.state, p, n, killed)), q)
            <==> killed && s.state.count + n > PIPESIZE
  {
    hide PipeSection, Do, Run;
    var t := WriteTurn(s.state, n, killed);
    var e := Enter(p, t.next, t.wakes, t.sleepOn);
    Enters(s, p, q, n, killed);
    var s1 := Do(PipeSection, s, e);
    var es := WriteEvents(s.state, p, n, killed);
    RunFirst(PipeSection, s, es);
    if t.wakes == {} {
      assert es[1..] == [Leave(p)];
      Leaves(s1, p);
    } else {
      var s2 := Wakes(s1, p, q, t.sleepOn);
      if t.sleepOn == None {
        assert es[1..] == [StartWake(p, NREAD), EndWake(p)] + [Leave(p)];
        RunConcat(PipeSection, s1, [StartWake(p, NREAD), EndWake(p)], [Leave(p)]);
        Leaves(s2, p);
      } else {
        assert es[1..] == [StartWake(p, NREAD), EndWake(p)] + [StartSleep(p), FallAsleep(p)];
        RunConcat(PipeSection, s1, [StartWake(p, NREAD), EndWake(p)], [StartSleep(p), FallAsleep(p)]);
        Sleeps(s2, p);
      }
    }
  }

  lemma RunFirst<S>(sec: Section<S>, s: Sys<S>, es: seq<Event<S>>)
    requires es != []
    ensures Run(sec, s, es) == Run(sec, Do(sec, s, es[0]), es[1..])
  {
  }

  /** From a state that a careful run reaches, with both ends open: if and only if it is killed and n exceeds the whole pipe. */
  lemma ReachableWriteForgetsIff(init: PipeLevel, es: seq<Event<PipeLevel>>, p: int, q: int, n: nat, killed: bool)
    requires Careful(Start(init), es) && Ready(Run(PipeSection, Start(init), es), p, q)
    ensures var s := Run(PipeSection, Start(init), es);
            Forgotten(Run(PipeSection, Start(init), es + WriteEvents(s.state, p, n, killed)), q) <==> killed && n > PIPESIZE
  {
    hide PipeSection, Do, Run, Careful, WriteEvents;
    var s := Run(PipeSection, Start(init), es);
    PipeNeverStuck(init, es);
    WriteForgetsReaderIff(s, p, q, n, killed);
    RunConcat(PipeSection, Start(init), es, WriteEvents(s.state, p, n, killed));
  }

  /** A reader that finds the pipe empty goes to sleep. */
  lemma ReaderSleeps(init: PipeLevel) returns (es: seq<Event<PipeLevel>>)
    requires init == PipeLevel(0, true, true)
    ensures Careful(Start(init), es) && Run(PipeSection, Start(init), es) == Sys(init, None, None, map[0 := Asleep(NREAD)])
  {
    var e := Enter(0, init, {}, Some(NREAD));
    es := [e, StartSleep(0), FallAsleep(0)];
    assert PipeSection(init, init, {}, Some(NREAD)) by {
      assert Turn(init, {}, Some(NREAD)) == ReadTurn(init, 1, false);
    }
    hide PipeSection;
    var s1 := Do(PipeSection, Start(init), e);
    assert s1 == Sys(init, Some(0), None, map[0 := Critical({}, Some(NREAD))]);
    var s2 := Do(PipeSection, s1, StartSleep(0));
    assert s2 == Sys(init, None, Some(0), map[0 := Falling(NREAD)]);
    assert es[1..] == [StartSleep(0), FallAsleep(0)] && es[1..][1..] == [FallAsleep(0)] && es[1..][1..][1..] == [];
    assert Careful(s2, es[1..][1..]);
    assert Careful(s1, es[1..]);
    RunTwo(PipeSection, s1, StartSleep(0), FallAsleep(0));
  }

  /** A run in which a killed writer fills the pipe and returns, and the reader sleeps on. */
  lemma KilledWriterForgetsReader(init: PipeLevel) returns (es: seq<Event<PipeLevel>>)
    requires init == PipeLevel(0, true, true)
    ensures Forgotten(Run(PipeSection, Start(init), es), 0)
  {
    hide PipeSection, Do, Run, Careful;
    var before := ReaderSleeps(init);
    es := before + WriteEvents(init, 1, PIPESIZE + 1, true);
    ReachableWriteForgetsIff(init, before, 1, 0, PIPESIZE + 1, true);
  }
}
