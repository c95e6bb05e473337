/** The requests of a run of the disk driver, told from its events alone, and that all of them are served in turn. */
module IdeHistory {
  import opened Common
  import opened IdeQueue

  /** A call of iderw: the buffer's address and what was in it. */
  datatype Ask = Ask(b: int, buf: Buf)

  function Asks(s0: Sys, es: seq<Event>): seq<Ask>
    decreases |es|
  {
    if es == [] then []
    else
      var n := |es| - 1;
      var s := Run(s0, es[..n]);
      if es[n].Request? && Enabled(s, es[n]) then Asks(s0, es[..n]) + [Ask(es[n].b, s.bufs[es[n].b])] else Asks(s0, es[..n])
  }

  /** The number of interrupts that found a request. */
  function Served(s0: Sys, es: seq<Event>): nat
    decreases |es|
  {
    if es == [] then 0
    else
      var n := |es| - 1;
      Served(s0, es[..n]) + if es[n].Interrupt? && Enabled(Run(s0, es[..n]), es[n]) then 1 else 0
  }

  /** The requests among asks, without their addresses. */
  function Bufs(asks: seq<Ask>): seq<Buf> {
    seq(|asks|, i requires 0 <= i < |asks| => asks[i].buf)
  }

  function Ids(asks: seq<Ask>): seq<int> {
    seq(|asks|, i requires 0 <= i < |asks| => asks[i].b)
  }

  lemma {:induction false} RunLast(s: Sys, es: seq<Event>)
    requires es != []
    ensures Run(s, es) == Do(Run(s, es[..|es| - 1]), es[|es| - 1])
    decreases |es|
  {
    hide Do;
    var n := |es| - 1;
    if n == 0 {
      assert es[1..] == [] && es[..0] == [];
    } else {
      assert es[1..][..n - 1] == es[..n][1..];
      RunLast(Do(s, es[0]), es[1..]);
    }
  }

  /** The driver's histories are these. */
  ghost predicate Records(s: Sys, asks: seq<Ask>, n: nat) {
    && n <= |asks| && s.reqs == Bufs(asks) && |s.results| == n && s.queue == Ids(asks[n..])
  }

  lemma StepRecords(s: Sys, e: Event, asks: seq<Ask>, n: nat)
    requires Records(s, asks, n)
    ensures Records(Do(s, e), if e.Request? && Enabled(s, e) then asks + [Ask(e.b, s.bufs[e.b])] else asks,
                    n + if e.Interrupt? && Enabled(s, e) then 1 else 0)
  {
    if Enabled(s, e) {
      match e
      case Request(b) => assert (asks + [Ask(b, s.bufs[b])])[n..] == asks[n..] + [Ask(b, s.bufs[b])];
      case Interrupt => assert asks[n..][1..] == asks[n + 1..];
      case _ =>
    }
  }

  lemma {:induction false} RunRecords(disk: seq<Block>, es: seq<Event>)
    ensures Records(Run(Boot(disk), es), Asks(Boot(disk), es), Served(Boot(disk), es))
    decreases |es|
  {
    hide Do, Enabled, Records;
    if es == [] {
      NoRecords(disk);
    } else {
      var n := |es| - 1;
      RunRecords(disk, es[..n]);
      StepRecords(Run(Boot(disk), es[..n]), es[n], Asks(Boot(disk), es[..n]), Served(Boot(disk), es[..n]));
      RunLast(Boot(disk), es);
    }
  }

  lemma NoRecords(disk: seq<Block>)
    ensures Records(Boot(disk), [], 0)
  {
  }

  /** What the synchronous driver makes of the first n requests, and of the i-th. */
  ghost predicate Synchronous(disk: seq<Block>, asks: seq<Ask>, n: nat, s: Sys) {
    && n <= |asks| && ReqsInRange(disk, Bufs(asks))
    && s.disk == MemDisk(disk, Bufs(asks)[..n])
    && |s.results| == n
    && (forall i | 0 <= i < n :: s.results[i] == MemRw(MemDisk(disk, Bufs(asks)[..i]), Bufs(asks)[i]).buf)
  }

  /**
   Every request made in a run is served exactly as the synchronous driver would serve it, one by each
   interrupt and in the order they were made; those still to come are the queue, unchanged.
   */
  lemma EveryRequestServed(disk: seq<Block>, es: seq<Event>)
    ensures var s0 := Boot(disk);
            var s, asks, n := Run(s0, es), Asks(s0, es), Served(s0, es);
            && Synchronous(disk, asks, n, s)
            && s.queue == Ids(asks[n..])
            && (forall i | n <= i < |asks| :: asks[i].b in s.bufs && s.bufs[asks[i].b] == asks[i].buf)
  {
    hide Do, Run, MemRw, MemDisk, Enabled, Asks, Served;
    RunRecords(disk, es);
    QueuedRefinesSynchronous(disk, es);
    var s, asks, n := Run(Boot(disk), es), Asks(Boot(disk), es), Served(Boot(disk), es);
    forall i | n <= i < |asks| ensures asks[i].b in s.bufs && s.bufs[asks[i].b] == asks[i].buf {
      assert s.queue[i - n] == asks[n..][i - n].b == asks[i].b;
    }
  }

  // ---- what is in a buffer ----

  /** What was last put into buffer b, by its owner or by the interrupt that served it. */
  ghost function Held(s0: Sys, es: seq<Event>, b: int): Option<Buf>
    decreases |es|
  {
    if es == [] then if b in s0.bufs then Some(s0.bufs[b]) else None
    else
      var n := |es| - 1;
      var s := Run(s0, es[..n]);
      if !Enabled(s, es[n]) then Held(s0, es[..n], b)
      else if es[n].Change? && es[n].b == b then Some(es[n].buf)
      else if es[n].Interrupt? && s.queue[0] == b && Served(s0, es[..n]) < |Asks(s0, es[..n])|
              && Asks(s0, es[..n])[Served(s0, es[..n])].buf.bn < |s.disk| then
        Some(MemRw(s.disk, Asks(s0, es[..n])[Served(s0, es[..n])].buf).buf)
      else Held(s0, es[..n], b)
  }

  lemma StepHeld(s: Sys, e: Event, b: int)
    requires Inv(s)
    ensures var n := |s.results|;
            var s' := Do(s, e);
            && (b in s'.bufs <==> b in s.bufs || (Enabled(s, e) && e.Change? && e.b == b))
            && (Enabled(s, e) && e.Interrupt? ==> s.queue[0] in s.bufs && n < |s.reqs| && s.reqs[n].bn < |s.disk|)
            && (b in s'.bufs ==>
                  s'.bufs[b] == if !Enabled(s, e) then s.bufs[b] else if e.Change? && e.b == b then e.buf
                                else if e.Interrupt? && s.queue[0] == b then MemRw(s.disk, s.reqs[n]).buf else s.bufs[b])
  {
    if Enabled(s, e) && e.Interrupt? {
      InterruptIsMemRw(s);
      hide DiskInv;
    }
  }

  lemma {:induction false} BuffersHold(disk: seq<Block>, es: seq<Event>, b: int)
    ensures var s := Run(Boot(disk), es);
            Held(Boot(disk), es, b) == if b in s.bufs then Some(s.bufs[b]) else None
    decreases |es|
  {
    hide Do, Enabled, MemRw, Inv, Asks, Served;
    if es != [] {
      hide Run;
      var n := |es| - 1;
      BuffersHold(disk, es[..n], b);
      BootInv(disk);
      RunKeeps(Boot(disk), es[..n]);
      RunRecords(disk, es[..n]);
      var s, asks, k := Run(Boot(disk), es[..n]), Asks(Boot(disk), es[..n]), Served(Boot(disk), es[..n]);
      StepHeld(s, es[n], b);
      assert k < |asks| ==> s.reqs[k] == asks[k].buf;
      RunLast(Boot(disk), es);
    }
  }
}
