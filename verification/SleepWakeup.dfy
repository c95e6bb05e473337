/**
 sleep and wakeup of proc.c, as used by code that keeps some state under a spinlock lk and waits
 on channels until the state changes. Every acquire and release is a step of its own, so the
 window in sleep, after lk has been released and before the process is marked SLEEPING, is open
 to every other process.
 */
module SleepWakeup {
  import opened Common

  /** What a process is doing; wakes are the wakeup calls its critical section still owes. */
  datatype Pc =
    | Out
    | Critical(wakes: set<int>, sleepOn: Option<int>)
    | WakeScan(chan: int, wakes: set<int>, sleepOn: Option<int>)
    | Falling(chan: int)
    | Asleep(chan: int)
    | Woken

  /** lk and ptable.lock, and the state lk protects. */
  datatype Sys<S> = Sys(state: S, lk: Option<int>, pt: Option<int>, pcs: map<int, Pc>)

  datatype Event<S> =
    | Enter(p: int, next: S, wakes: set<int>, sleepOn: Option<int>)
    | StartWake(p: int, chan: int)
    | EndWake(p: int)
    | Leave(p: int)
    | StartSleep(p: int)
    | FallAsleep(p: int)
    | Kill(p: int)

  /** A critical section: from one state to the next, the channels it wakes, and where it then sleeps. */
  type Section<!S> = (S, S, set<int>, Option<int>) -> bool

  function PcOf<S>(s: Sys<S>, p: int): Pc {
    if p in s.pcs then s.pcs[p] else Out
  }

  predicate Enabled<S>(sec: Section<S>, s: Sys<S>, e: Event<S>) {
    match e
    // acquire(lk), whether on first entry or at the end of sleep; the section runs with lk held
    case Enter(p, next, wakes, sleepOn) =>
      s.lk == None && (PcOf(s, p) == Out || PcOf(s, p) == Woken) && sec(s.state, next, wakes, sleepOn)
    case StartWake(p, chan) => s.pt == None && PcOf(s, p).Critical? && chan in PcOf(s, p).wakes
    case EndWake(p) => PcOf(s, p).WakeScan?
    case Leave(p) => PcOf(s, p) == Critical({}, None)
    case StartSleep(p) => s.pt == None && PcOf(s, p).Critical? && PcOf(s, p).wakes == {} && PcOf(s, p).sleepOn.Some?
    case FallAsleep(p) => PcOf(s, p).Falling?
    case Kill(p) => s.pt == None && PcOf(s, p).Asleep?
  }

  /** wakeup1: every process asleep on chan becomes runnable. */
  function WakeAll(pcs: map<int, Pc>, chan: int): map<int, Pc> {
    map p | p in pcs :: if pcs[p] == Asleep(chan) then Woken else pcs[p]
  }

  function Do<S>(sec: Section<S>, s: Sys<S>, e: Event<S>): Sys<S> {
    if !Enabled(sec, s, e) then s
    else
      match e
      case Enter(p, next, wakes, sleepOn) =>
        s.(state := next, lk := Some(p), pcs := s.pcs[p := Critical(wakes, sleepOn)])
      case StartWake(p, chan) =>
        s.(pt := Some(p), pcs := s.pcs[p := WakeScan(chan, PcOf(s, p).wakes - {chan}, PcOf(s, p).sleepOn)])
      case EndWake(p) =>
        s.(pt := None, pcs := WakeAll(s.pcs, PcOf(s, p).chan)[p := Critical(PcOf(s, p).wakes, PcOf(s, p).sleepOn)])
      case Leave(p) => s.(lk := None, pcs := s.pcs[p := Out])
      // ptable.lock is taken before lk is given up
      case StartSleep(p) => s.(pt := Some(p), lk := None, pcs := s.pcs[p := Falling(PcOf(s, p).sleepOn.value)])
      // the process is marked asleep and switches away, after which the scheduler releases ptable.lock
      case FallAsleep(p) => s.(pt := None, pcs := s.pcs[p := Asleep(PcOf(s, p).chan)])
      case Kill(p) => s.(pcs := s.pcs[p := Woken])
  }

  function Run<S>(sec: Section<S>, s: Sys<S>, es: seq<Event<S>>): Sys<S>
    decreases |es|
  {
    if es == [] then s else Run(sec, Do(sec, s, es[0]), es[1..])
  }

  function Start<S>(state: S): Sys<S> {
    Sys(state, None, None, map[])
  }

  /**
   The discipline: a section only sleeps where it has found the condition true, and wakes every
   channel whose condition it may have made false.
   */
  ghost predicate Disciplined<S(!new)>(sec: Section<S>, wait: (S, int) -> bool) {
    forall s, s', wakes, sleepOn | sec(s, s', wakes, sleepOn) ::
      && (sleepOn.Some? ==> wait(s', sleepOn.value))
      && (forall c | wait(s, c) && !wait(s', c) :: c in wakes)
  }

  predicate HoldsLk(pc: Pc) { pc.Critical? || pc.WakeScan? }
  predicate HoldsPt(pc: Pc) { pc.WakeScan? || pc.Falling? }
  predicate Sleeping(pc: Pc, c: int) { pc == Asleep(c) || pc == Falling(c) }

  /** The holder of lk still owes a wakeup on c, or is in the middle of it. */
  predicate Owes(pc: Pc, c: int) {
    (pc.Critical? && c in pc.wakes) || (pc.WakeScan? && (c in pc.wakes || c == pc.chan))
  }

  ghost predicate Locks<S(!new)>(s: Sys<S>) {
    && (forall p | p in s.pcs :: HoldsLk(s.pcs[p]) <==> s.lk == Some(p))
    && (forall p | p in s.pcs :: HoldsPt(s.pcs[p]) <==> s.pt == Some(p))
    && (s.lk.Some? ==> s.lk.value in s.pcs)
    && (s.pt.Some? ==> s.pt.value in s.pcs)
  }

  /** Whoever sleeps on c has reason to, or the reason's end is about to be announced. */
  ghost predicate NoneForgotten<S(!new)>(wait: (S, int) -> bool, s: Sys<S>) {
    && (forall p, c | p in s.pcs && Sleeping(s.pcs[p], c) ::
          wait(s.state, c) || (s.lk.Some? && Owes(PcOf(s, s.lk.value), c)))
    && (forall p | p in s.pcs && HoldsLk(s.pcs[p]) && s.pcs[p].sleepOn.Some? :: wait(s.state, s.pcs[p].sleepOn.value))
  }

  ghost predicate Inv<S(!new)>(wait: (S, int) -> bool, s: Sys<S>) {
    Locks(s) && NoneForgotten(wait, s)
  }

  lemma StepKeepsLocks<S(!new)>(sec: Section<S>, s: Sys<S>, e: Event<S>)
    requires Locks(s)
    ensures Locks(Do(sec, s, e))
  {
  }

  lemma StepKeepsNone<S(!new)>(sec: Section<S>, wait: (S, int) -> bool, s: Sys<S>, e: Event<S>)
    requires Disciplined(sec, wait) && Inv(wait, s)
    ensures NoneForgotten(wait, Do(sec, s, e))
  {
    StepKeepsLocks(sec, s, e);
  }

  lemma {:induction false} RunKeeps<S(!new)>(sec: Section<S>, wait: (S, int) -> bool, s: Sys<S>, es: seq<Event<S>>)
    requires Disciplined(sec, wait) && Inv(wait, s)
    ensures Inv(wait, Run(sec, s, es))
    decreases |es|
  {
    if es != [] {
      StepKeepsLocks(sec, s, es[0]);
      StepKeepsNone(sec, wait, s, es[0]);
      RunKeeps(sec, wait, Do(sec, s, es[0]), es[1..]);
    }
  }

  /** No wakeup is lost: with both locks free, every sleeper's condition holds. */
  lemma NoLostWakeup<S(!new)>(sec: Section<S>, wait: (S, int) -> bool, init: S, es: seq<Event<S>>)
    requires Disciplined(sec, wait)
    ensures var s := Run(sec, Start(init), es);
            s.lk == None && s.pt == None ==>
              forall p | p in s.pcs && s.pcs[p].Asleep? :: wait(s.state, s.pcs[p].chan)
  {
    RunKeeps(sec, wait, Start(init), es);
    var s := Run(sec, Start(init), es);
    forall p | p in s.pcs && s.pcs[p].Asleep? && s.lk == None ensures wait(s.state, s.pcs[p].chan) {
      assert Sleeping(s.pcs[p], s.pcs[p].chan);
    }
  }
}
