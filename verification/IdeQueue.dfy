/**
 The queued disk driver of ide.c against the synchronous one of memide.c. Processes append
 requests for buffers they hold locked; the device works on the head of the queue and interrupts
 when it is done. Device errors are not modelled.
 */
module IdeQueue {
  import opened Common

  type Block = seq<int>

  datatype Buf = Buf(bn: nat, valid: bool, dirty: bool, data: Block)

  /** What the device has been told to do: the command registers, and for a write the data already sent. */
  datatype Command = ReadCmd(bn: nat) | WriteCmd(bn: nat, data: Block)

  // ---- memide.c ----

  datatype Synced = Synced(disk: seq<Block>, buf: Buf)

  /** memide's iderw: one atomic transfer between a buffer and the disk. */
  function MemRw(disk: seq<Block>, b: Buf): Synced
    requires b.bn < |disk|
  {
    if b.dirty then Synced(disk[b.bn := b.data], b.(dirty := false, valid := true))
    else Synced(disk, b.(data := disk[b.bn], valid := true))
  }

  /** A list of requests served one after the other. */
  function MemDisk(disk: seq<Block>, reqs: seq<Buf>): (r: seq<Block>)
    requires forall i | 0 <= i < |reqs| :: reqs[i].bn < |disk|
    ensures |r| == |disk|
  {
    if reqs == [] then disk
    else MemRw(MemDisk(disk, reqs[..|reqs| - 1]), reqs[|reqs| - 1]).disk
  }

  // ---- ide.c ----

  /** disk0 is the disk at boot, reqs the history of requests in the order they were made, results what they returned. */
  datatype Sys = Sys(
    disk: seq<Block>, bufs: map<int, Buf>, queue: seq<int>, device: Option<Command>,
    disk0: seq<Block>, reqs: seq<Buf>, results: seq<Buf>)

  datatype Event =
    | Change(b: int, buf: Buf)
    | Request(b: int)
    | Interrupt

  /** idestart */
  function StartCmd(b: Buf): Command {
    if b.dirty then WriteCmd(b.bn, b.data) else ReadCmd(b.bn)
  }

  /** iderw's wait is over: valid and clean. */
  predicate Finished(b: Buf) { b.valid && !b.dirty }

  predicate Enabled(s: Sys, e: Event) {
    match e
    // a buffer that is not queued belongs to whoever holds its lock
    case Change(b, buf) => b !in s.queue && buf.bn < |s.disk|
    // iderw panics unless there is something to do, and its caller holds the buffer's lock
    case Request(b) => b in s.bufs && b !in s.queue && !Finished(s.bufs[b])
    case Interrupt => s.queue != [] && s.queue[0] in s.bufs && s.device.Some? && s.bufs[s.queue[0]].bn < |s.disk|
                      && (s.device.value.WriteCmd? ==> s.device.value.bn < |s.disk|)
  }

  function RequestStep(s: Sys, b: int): Sys
    requires b in s.bufs
  {
    s.(queue := s.queue + [b],
       device := if s.queue == [] then Some(StartCmd(s.bufs[b])) else s.device,
       reqs := s.reqs + [s.bufs[b]])
  }

  /** ideintr: finish the head of the queue and start the next request. */
  function InterruptStep(s: Sys): Sys
    requires Enabled(s, Interrupt)
  {
    var b := s.queue[0];
    // the device has carried out its command by the time it interrupts
    var disk := if s.device.value.WriteCmd? then s.disk[s.device.value.bn := s.device.value.data] else s.disk;
    var buf := s.bufs[b];
    var buf' := (if buf.dirty then buf else buf.(data := disk[buf.bn])).(valid := true, dirty := false);
    var bufs := s.bufs[b := buf'];
    var queue := s.queue[1..];
    s.(disk := disk, bufs := bufs, queue := queue,
       device := if queue != [] && queue[0] in bufs then Some(StartCmd(bufs[queue[0]])) else None,
       results := s.results + [buf'])
  }

  function Do(s: Sys, e: Event): Sys {
    if !Enabled(s, e) then s
    else
      match e
      case Change(b, buf) => s.(bufs := s.bufs[b := buf])
      case Request(b) => RequestStep(s, b)
      case Interrupt => InterruptStep(s)
  }

  function Run(s: Sys, es: seq<Event>): Sys
    decreases |es|
  {
    if es == [] then s else Run(Do(s, es[0]), es[1..])
  }

  function Boot(disk: seq<Block>): Sys {
    Sys(disk, map[], [], None, disk, [], [])
  }

  // ---- the invariant ----

  ghost predicate ReqsInRange(disk: seq<Block>, reqs: seq<Buf>) {
    forall i | 0 <= i < |reqs| :: reqs[i].bn < |disk|
  }

  /** The queue holds the outstanding requests in order, unchanged since they were made, and the device works on the first. */
  ghost predicate QueueInv(s: Sys) {
    && |s.results| <= |s.reqs|
    && |s.queue| == |s.reqs| - |s.results|
    && (forall i, j | 0 <= i < j < |s.queue| :: s.queue[i] != s.queue[j])
    && (forall i | 0 <= i < |s.queue| ::
          s.queue[i] in s.bufs && s.bufs[s.queue[i]] == s.reqs[|s.results| + i] && !Finished(s.bufs[s.queue[i]]))
    && s.device == (if s.queue == [] then None else Some(StartCmd(s.reqs[|s.results|])))
  }

  /** The disk and everything returned so far are what the synchronous driver would have produced. */
  ghost predicate Served(disk0: seq<Block>, reqs: seq<Buf>, disk: seq<Block>, results: seq<Buf>) {
    && ReqsInRange(disk0, reqs)
    && |results| <= |reqs|
    && disk == MemDisk(disk0, reqs[..|results|])
    && (forall i | 0 <= i < |results| :: results[i] == MemRw(MemDisk(disk0, reqs[..i]), reqs[i]).buf)
  }

  ghost predicate DiskInv(s: Sys) {
    && |s.disk| == |s.disk0|
    && (forall b | b in s.bufs :: s.bufs[b].bn < |s.disk|)
    && Served(s.disk0, s.reqs, s.disk, s.results)
  }

  ghost predicate Inv(s: Sys) {
    QueueInv(s) && DiskInv(s)
  }

  /** One interrupt is one atomic transfer. */
  lemma InterruptIsMemRw(s: Sys)
    requires Inv(s) && s.queue != []
    ensures Enabled(s, Interrupt)
    ensures var n := |s.results|;
            var m := MemRw(s.disk, s.reqs[n]);
            var s' := InterruptStep(s);
            s'.disk == m.disk && s'.results == s.results + [m.buf] && s'.bufs == s.bufs[s.queue[0] := m.buf]
  {
    var b := s.queue[0];
    assert s.bufs[b] == s.reqs[|s.results| + 0];
  }

  lemma InterruptKeeps(s: Sys)
    requires Inv(s) && s.queue != []
    ensures Enabled(s, Interrupt) && Inv(InterruptStep(s))
  {
    InterruptIsMemRw(s);
    InterruptKeepsQueue(s);
    InterruptKeepsDisk(s);
  }

  lemma InterruptKeepsQueue(s: Sys)
    requires Inv(s) && s.queue != []
    ensures Enabled(s, Interrupt) && QueueInv(InterruptStep(s))
  {
    InterruptIsMemRw(s);
    var s' := InterruptStep(s);
    forall i | 0 <= i < |s'.queue|
      ensures s'.queue[i] in s'.bufs && s'.bufs[s'.queue[i]] == s'.reqs[|s'.results| + i] && !Finished(s'.bufs[s'.queue[i]])
    {
      assert s'.queue[i] == s.queue[i + 1] && s.queue[i + 1] != s.queue[0];
    }
  }

  lemma ServeNext(disk0: seq<Block>, reqs: seq<Buf>, disk: seq<Block>, results: seq<Buf>)
    requires Served(disk0, reqs, disk, results) && |results| < |reqs|
    ensures reqs[|results|].bn < |disk| == |disk0|
    ensures var m := MemRw(disk, reqs[|results|]); Served(disk0, reqs, m.disk, results + [m.buf])
  {
    hide MemRw;
    var n := |results|;
    var m := MemRw(disk, reqs[n]);
    assert MemDisk(disk0, reqs[..n + 1]) == m.disk by {
      assert reqs[..n + 1][..n] == reqs[..n];
    }
    var more := results + [m.buf];
    forall i | 0 <= i < |more| ensures more[i] == MemRw(MemDisk(disk0, reqs[..i]), reqs[i]).buf {
      if i < n {
        assert more[i] == results[i];
      }
    }
  }

  lemma AskMore(disk0: seq<Block>, reqs: seq<Buf>, disk: seq<Block>, results: seq<Buf>, b: Buf)
    requires Served(disk0, reqs, disk, results) && b.bn < |disk0|
    ensures Served(disk0, reqs + [b], disk, results)
  {
    hide MemRw;
    assert (reqs + [b])[..|results|] == reqs[..|results|];
    forall i | 0 <= i < |results| ensures (reqs + [b])[..i] == reqs[..i] && (reqs + [b])[i] == reqs[i] {
    }
  }

  lemma InterruptKeepsDisk(s: Sys)
    requires Inv(s) && s.queue != []
    ensures Enabled(s, Interrupt) && DiskInv(InterruptStep(s))
  {
    hide Served;
    InterruptIsMemRw(s);
    ServeNext(s.disk0, s.reqs, s.disk, s.results);
  }

  lemma RequestKeeps(s: Sys, b: int)
    requires Inv(s) && Enabled(s, Request(b))
    ensures Inv(RequestStep(s, b))
  {
    hide Served;
    AskMore(s.disk0, s.reqs, s.disk, s.results, s.bufs[b]);
  }

  lemma StepKeeps(s: Sys, e: Event)
    requires Inv(s)
    ensures Inv(Do(s, e))
  {
    hide Inv;
    if Enabled(s, e) {
      match e
      case Change(b, buf) => ChangeKeeps(s, b, buf);
      case Request(b) => RequestKeeps(s, b);
      case Interrupt => InterruptKeeps(s);
    }
  }

  lemma ChangeKeeps(s: Sys, b: int, buf: Buf)
    requires Inv(s) && Enabled(s, Change(b, buf))
    ensures Inv(Do(s, Change(b, buf)))
  {
  }

  lemma {:induction false} RunKeeps(s: Sys, es: seq<Event>)
    requires Inv(s)
    ensures Inv(Run(s, es)) && Run(s, es).disk0 == s.disk0
    decreases |es|
  {
    if es != [] {
      StepKeeps(s, es[0]);
      RunKeeps(Do(s, es[0]), es[1..]);
    }
  }

  lemma BootInv(disk: seq<Block>)
    ensures Inv(Boot(disk))
  {
  }

  /**
   The queued driver refines the synchronous one. In every run the first n requests have been
   served, once each and in the order they were made; the disk is what n atomic transfers make of
   it, and each request returned the buffer its own transfer produces.
   */
  lemma QueuedRefinesSynchronous(disk: seq<Block>, es: seq<Event>)
    ensures var s := Run(Boot(disk), es);
            var n := |s.results|;
            && n <= |s.reqs| && ReqsInRange(disk, s.reqs)
            && s.disk == MemDisk(disk, s.reqs[..n])
            && (forall i | 0 <= i < n :: s.results[i] == MemRw(MemDisk(disk, s.reqs[..i]), s.reqs[i]).buf)
            && |s.queue| == |s.reqs| - n
            && (forall i | 0 <= i < |s.queue| :: s.queue[i] in s.bufs && s.bufs[s.queue[i]] == s.reqs[n + i])
  {
    hide Do, Run, MemRw, MemDisk, Finished, StartCmd;
    assert Inv(Boot(disk)) by { hide *; BootInv(disk); }
    RunKeeps(Boot(disk), es);
  }

  /** iderw's wait ends exactly with its request: a queued buffer is never valid and clean, a completed one is. */
  lemma WaitEndsWithRequest(disk: seq<Block>, es: seq<Event>)
    ensures var s := Run(Boot(disk), es);
            && (forall i | 0 <= i < |s.queue| :: s.queue[i] in s.bufs && !Finished(s.bufs[s.queue[i]]))
            && (s.queue != [] ==> Enabled(s, Interrupt) && s.queue[0] in Do(s, Interrupt).bufs
                                  && Finished(Do(s, Interrupt).bufs[s.queue[0]]))
  {
    RunKeeps(Boot(disk), es);
    var s := Run(Boot(disk), es);
    if s.queue != [] {
      InterruptIsMemRw(s);
    }
  }

  // ---- the driver's own data structures ----

  function Nth(q: seq<int>, i: nat): int {
    if i < |q| then q[i] else 0
  }

  /** The list q starts at head and follows next; 0 is the null pointer. */
  ghost predicate Chain(q: seq<int>, head: int, next: map<int, int>) {
    && (q == [] <==> head == 0)
    && (q != [] ==> q[0] == head)
    && (forall i | 0 <= i < |q| :: q[i] != 0 && q[i] in next && next[q[i]] == Nth(q, i + 1))
    && (forall i, j | 0 <= i < j < |q| :: q[i] != q[j])
  }

  class Driver {
    var disk: seq<Block>
    var bufs: map<int, Buf>
    var qnext: map<int, int>
    var idequeue: int
    var device: Option<Command>
    ghost var q: seq<int>
    ghost var disk0: seq<Block>
    ghost var reqs: seq<Buf>
    ghost var results: seq<Buf>

    ghost function S(): Sys
      reads this
    {
      Sys(disk, bufs, q, device, disk0, reqs, results)
    }

    ghost predicate Valid()
      reads this
    {
      Chain(q, idequeue, qnext) && Inv(S())
    }

    /** ideinit: nothing is queued and the disk is idle. */
    constructor (disk: seq<Block>, bufs: map<int, Buf>)
      requires forall b | b in bufs :: bufs[b].bn < |disk|
      ensures Valid() && S() == Boot(disk).(bufs := bufs)
    {
      this.disk, this.bufs, qnext, idequeue, device := disk, bufs, map[], 0, None;
      q, disk0, reqs, results := [], disk, [], [];
    }

    method IdeStart(b: int)
      requires b in bufs
      modifies this`device
      ensures device == Some(StartCmd(bufs[b]))
    {
      if bufs[b].dirty {
        device := Some(WriteCmd(bufs[b].bn, bufs[b].data));
      } else {
        device := Some(ReadCmd(bufs[b].bn));
      }
    }

    /** iderw's walk to the end of the queue. */
    method QueueTail() returns (pp: int)
      requires Chain(q, idequeue, qnext) && q != []
      ensures pp == q[|q| - 1]
    {
      pp := idequeue;
      ghost var k := 0;
      while qnext[pp] != 0
        invariant 0 <= k < |q| && pp == q[k] && qnext[q[k]] == Nth(q, k + 1)
        decreases |q| - k
      {
        pp := qnext[pp];
        k := k + 1;
      }
    }

    /** iderw up to its wait: append b at the end of the linked queue, and start the disk if it is alone there. */
    method IdeRw(b: int)
      requires Valid() && b != 0 && Enabled(S(), Request(b))
      modifies this
      ensures Valid() && S() == RequestStep(old(S()), b)
    {
      hide Inv, Chain;
      ghost var s := S();
      RequestKeeps(s, b);
      ChainAppend(q, idequeue, qnext, b);
      if idequeue == 0 {
        qnext := qnext[b := 0];
        idequeue := b;
      } else {
        var pp := QueueTail();
        qnext := qnext[b := 0];
        qnext := qnext[pp := b];
      }
      q := q + [b];
      reqs := reqs + [bufs[b]];
      if idequeue == b {
        IdeStart(b);
      }
    }

    /** The interrupt handler. A spurious interrupt finds the queue empty and does nothing. */
    method IdeIntr()
      requires Valid()
      modifies this
      ensures Valid()
      ensures S() == if old(idequeue) == 0 then old(S()) else InterruptStep(old(S()))
    {
      hide Inv, Chain, MemRw;
      ghost var s := S();
      if idequeue == 0 {
        return;
      }
      ChainHead(q, idequeue, qnext);
      InterruptKeeps(s);
      QueuedBufs(s);
      var b := idequeue;
      idequeue := qnext[b];
      if device.value.WriteCmd? {
        disk := disk[device.value.bn := device.value.data];
      }
      var buf := bufs[b];
      if !buf.dirty {
        buf := buf.(data := disk[buf.bn]);
      }
      buf := buf.(valid := true, dirty := false);
      bufs := bufs[b := buf];
      q := q[1..];
      results := results + [buf];
      if idequeue != 0 {
        IdeStart(idequeue);
      } else {
        device := None;
      }
    }
  }

  lemma ChainHead(q: seq<int>, head: int, next: map<int, int>)
    requires Chain(q, head, next) && head != 0
    ensures q != [] && q[0] == head && head in next && Chain(q[1..], next[head], next)
    ensures next[head] != 0 <==> |q| > 1
    ensures |q| > 1 ==> next[head] == q[1]
  {
    var r := q[1..];
    assert next[q[0]] == Nth(q, 1);
    forall i | 0 <= i < |r| ensures r[i] != 0 && r[i] in next && next[r[i]] == Nth(r, i + 1) {
      assert r[i] == q[i + 1] && Nth(r, i + 1) == Nth(q, i + 2);
    }
  }

  lemma ChainAppend(q: seq<int>, head: int, next: map<int, int>, b: int)
    requires Chain(q, head, next) && b != 0 && b !in q
    ensures q == [] <==> head == 0
    ensures if q == [] then Chain(q + [b], b, next[b := 0]) else Chain(q + [b], head, next[b := 0][q[|q| - 1] := b])
    ensures q != [] ==> head == q[0] && head != b
  {
  }

  lemma QueuedBufs(s: Sys)
    requires Inv(s)
    ensures forall i | 0 <= i < |s.queue| :: s.queue[i] in s.bufs
  {
  }
}
