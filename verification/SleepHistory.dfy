/**
 What sleep and wakeup do, told from the events of a run: the shared state is the one the last
 critical section left, a process sleeps where its own last section said, having made all the
 wakeup calls that section owed, and it is woken exactly by a wakeup on that channel or a kill.
 */
module SleepHistory {
  import opened Common
  import opened SleepWakeup

  /** The state that the last critical section left. */
  function LastState<S>(sec: Section<S>, s0: Sys<S>, es: seq<Event<S>>): S
    decreases |es|
  {
    if es == [] then s0.state
    else
      var n := |es| - 1;
      if es[n].Enter? && Enabled(sec, Run(sec, s0, es[..n]), es[n]) then es[n].next else LastState(sec, s0, es[..n])
  }

  /** The last critical section that p entered. */
  function LastEnter<S>(sec: Section<S>, s0: Sys<S>, es: seq<Event<S>>, p: int): Option<Event<S>>
    decreases |es|
  {
    if es == [] then None
    else
      var n := |es| - 1;
      if es[n].Enter? && es[n].p == p && Enabled(sec, Run(sec, s0, es[..n]), es[n]) then Some(es[n])
      else LastEnter(sec, s0, es[..n], p)
  }

  /** The channels that p has woken since it entered its last section. */
  function Announced<S>(sec: Section<S>, s0: Sys<S>, es: seq<Event<S>>, p: int): set<int>
    decreases |es|
  {
    if es == [] then {}
    else
      var n := |es| - 1;
      var s := Run(sec, s0, es[..n]);
      if !Enabled(sec, s, es[n]) then Announced(sec, s0, es[..n], p)
      else if es[n].Enter? && es[n].p == p then {}
      else if es[n].EndWake? && es[n].p == p then Announced(sec, s0, es[..n], p) + {PcOf(s, p).chan}
      else Announced(sec, s0, es[..n], p)
  }

  /** pc is a point in the section e, of which the wakeups in done have been made. */
  predicate Within<S>(pc: Pc, e: Option<Event<S>>, done: set<int>) {
    match pc
    case Out => e.Some? ==> e.value.Enter? && e.value.sleepOn == None && done == e.value.wakes
    case Critical(w, so) => e.Some? && e.value.Enter? && so == e.value.sleepOn && w !! done && w + done == e.value.wakes
    case WakeScan(c, w, so) =>
      e.Some? && e.value.Enter? && so == e.value.sleepOn && c !in w + done && w !! done && w + done + {c} == e.value.wakes
    case Falling(c) => e.Some? && e.value.Enter? && e.value.sleepOn == Some(c) && done == e.value.wakes
    case Asleep(c) => e.Some? && e.value.Enter? && e.value.sleepOn == Some(c) && done == e.value.wakes
    case Woken => e.Some? && e.value.Enter? && e.value.sleepOn.Some? && done == e.value.wakes
  }

  lemma RunLast<S>(sec: Section<S>, s: Sys<S>, es: seq<Event<S>>)
    requires es != []
    ensures Run(sec, s, es) == Do(sec, Run(sec, s, es[..|es| - 1]), es[|es| - 1])
    decreases |es|
  {
    hide Do;
    var n := |es| - 1;
    if n == 0 {
      assert es[1..] == [] && es[..0] == [];
    } else {
      assert es[1..][..n - 1] == es[..n][1..];
      RunLast(sec, Do(sec, s, es[0]), es[1..]);
    }
  }

  /** One step, seen from p. */
  lemma StepWithin<S>(sec: Section<S>, s: Sys<S>, e: Event<S>, p: int, last: Option<Event<S>>, done: set<int>)
    requires Within(PcOf(s, p), last, done)
    ensures var on := Enabled(sec, s, e);
            Within(PcOf(Do(sec, s, e), p),
                   if on && e.Enter? && e.p == p then Some(e) else last,
                   if on && e.Enter? && e.p == p then {}
                   else if on && e.EndWake? && e.p == p then done + {PcOf(s, p).chan} else done)
  {
  }

  /**
   In every run: the state is the one last left, and every process is at some point of its own last
   section, past exactly the wakeup calls it has made, so that it leaves or sleeps only after all of
   them, and sleeps on the channel that the section names.
   */
  lemma {:induction false} SectionsFollowed<S>(sec: Section<S>, init: S, es: seq<Event<S>>, p: int)
    ensures var s := Run(sec, Start(init), es);
            && s.state == LastState(sec, Start(init), es)
            && Within(PcOf(s, p), LastEnter(sec, Start(init), es, p), Announced(sec, Start(init), es, p))
    decreases |es|
  {
    hide Do, Within, Enabled;
    if es == [] {
      assert Within<S>(Out, None, {}) by { OutFirst<S>(); }
    } else {
      var n := |es| - 1;
      SectionsFollowed(sec, init, es[..n], p);
      var s := Run(sec, Start(init), es[..n]);
      StepWithin(sec, s, es[n], p, LastEnter(sec, Start(init), es[..n], p), Announced(sec, Start(init), es[..n], p));
      StepState(sec, s, es[n]);
      RunLast(sec, Start(init), es);
    }
  }

  lemma OutFirst<S>()
    ensures Within<S>(Out, None, {})
  {
  }

  lemma StepState<S>(sec: Section<S>, s: Sys<S>, e: Event<S>)
    ensures Do(sec, s, e).state == if e.Enter? && Enabled(sec, s, e) then e.next else s.state
  {
  }

  /** Event e wakes p, which sleeps on c. */
  predicate Wakes<S>(sec: Section<S>, s: Sys<S>, e: Event<S>, p: int, c: int) {
    Enabled(sec, s, e) && (e == Event<S>.Kill(p) || (e.EndWake? && PcOf(s, e.p).chan == c))
  }

  /** A sleeper is woken exactly so. */
  lemma WokenExactly<S>(sec: Section<S>, s: Sys<S>, e: Event<S>, p: int)
    requires PcOf(s, p).Asleep?
    ensures PcOf(Do(sec, s, e), p) == if Wakes(sec, s, e, p, PcOf(s, p).chan) then Woken else PcOf(s, p)
  {
  }

  predicate Undisturbed<S>(sec: Section<S>, s: Sys<S>, es: seq<Event<S>>, p: int, c: int)
    decreases |es|
  {
    es == [] || (!Wakes(sec, s, es[0], p, c) && Undisturbed(sec, Do(sec, s, es[0]), es[1..], p, c))
  }

  lemma {:induction false} StaysAsleep<S>(sec: Section<S>, s: Sys<S>, es: seq<Event<S>>, p: int, c: int)
    requires PcOf(s, p) == Asleep(c) && Undisturbed(sec, s, es, p, c)
    ensures PcOf(Run(sec, s, es), p) == Asleep(c)
    decreases |es|
  {
    hide Do;
    if es != [] {
      WokenExactly(sec, s, es[0], p);
      StaysAsleep(sec, Do(sec, s, es[0]), es[1..], p, c);
    }
  }

  /** A process that has gone to sleep stays asleep until then. */
  lemma SleepsUntilWoken<S>(sec: Section<S>, s: Sys<S>, p: int, later: seq<Event<S>>)
    requires Enabled(sec, s, FallAsleep(p)) && Undisturbed(sec, Do(sec, s, FallAsleep(p)), later, p, PcOf(s, p).chan)
    ensures PcOf(Run(sec, Do(sec, s, FallAsleep(p)), later), p) == Asleep(PcOf(s, p).chan)
  {
    StaysAsleep(sec, Do(sec, s, FallAsleep(p)), later, p, PcOf(s, p).chan);
  }
}
