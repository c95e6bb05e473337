/**
 pipe.c and sleeplock.c as the kernel runs them: one method per critical section, so that a call
 of pipewrite or piperead that sleeps is several calls here, with anything at all in between.
 */
module PipeCode {
  import opened Common
  import opened SleepWakeup
  import opened Monitors

  type Byte = x: int | 0 <= x < 256

  const UINT: nat := 0x1_0000_0000

  /** How a critical section ends for the process in it. */
  datatype Ending = Return | Sleep | GiveUp

  class Pipe {
    const data: array<Byte>
    var nread: nat
    var nwrite: nat
    var readopen: bool
    var writeopen: bool
    /** every byte ever stored, and every byte ever delivered */
    ghost var written: seq<Byte>
    ghost var read: seq<Byte>

    /**
     The counters are the totals modulo 2^32, at most PIPESIZE bytes are in flight, what has been
     delivered is a prefix of what has been stored, and the rest is in the ring.
     */
    ghost predicate Valid()
      reads this, data
    {
      && data.Length == PIPESIZE
      && nread == |read| % UINT && nwrite == |written| % UINT
      && |read| <= |written| <= |read| + PIPESIZE
      && read == written[..|read|]
      && forall i | |read| <= i < |written| :: data[i % PIPESIZE] == written[i]
    }

    ghost function Level(): PipeLevel
      reads this, data
      requires Valid()
    {
      PipeLevel(|written| - |read|, readopen, writeopen)
    }

    constructor ()
      ensures Valid() && written == [] && read == [] && readopen && writeopen
    {
      data := new Byte[PIPESIZE](_ => 0);
      nread, nwrite, readopen, writeopen := 0, 0, true, true;
      written, read := [], [];
    }

    /** From acquire or the return of sleep up to the next sleep or release: store bytes from position i on. */
    method WriteSome(addr: seq<Byte>, i: nat, killed: bool)
      returns (i': nat, end: Ending, ghost wakes: set<int>, ghost sleepOn: Option<int>)
      requires Valid() && i <= |addr|
      modifies this`nwrite, this`written, data
      ensures Valid() && i <= i' <= |addr|
      ensures written == old(written) + addr[i..i'] && read == old(read)
      ensures end == Return <==> i' == |addr|
      ensures end != Return ==> |written| == |read| + PIPESIZE
      ensures end == GiveUp <==> i' < |addr| && (!readopen || killed)
      ensures Turn(Level(), wakes, sleepOn) == WriteTurn(old(Level()), |addr| - i, killed)
      ensures end == Sleep <==> sleepOn == Some(NWRITE)
      // the readers of an empty pipe are not told exactly in this case
      ensures old(|written| == |read| && readopen) ==>
                (Forsakes(old(Level()), Level(), wakes) <==> killed && |addr| - i > PIPESIZE)
    {
      i' := i;
      assert addr[i..i'] == [];
      while i' < |addr|
        invariant Valid() && i <= i' <= |addr| && read == old(read)
        invariant written == old(written) + addr[i..i']
      {
        CounterGap(|read|, |written|);
        if nwrite == (nread + PIPESIZE) % UINT {
          if !readopen || killed {
            return i', GiveUp, {}, None;
          }
          return i', Sleep, {NREAD}, Some(NWRITE);
        }
        SlotOf(|written|);
        SlotsDiffer(|read|, |written|);
        data[nwrite % PIPESIZE] := addr[i'];
        nwrite := (nwrite + 1) % UINT;
        written := written + [addr[i']];
        i' := i' + 1;
        assert addr[i..i'] == addr[i..i' - 1] + [addr[i' - 1]];
      }
      end, wakes, sleepOn := Return, {NREAD}, None;
    }

    /** Take up to n bytes, or sleep while the pipe is empty and could still be written. */
    method ReadSome(n: nat, killed: bool)
      returns (bytes: seq<Byte>, end: Ending, ghost wakes: set<int>, ghost sleepOn: Option<int>)
      requires Valid()
      modifies this`nread, this`read
      ensures Valid() && written == old(written) && read == old(read) + bytes
      ensures var count := |old(written)| - |old(read)|;
              if count == 0 && writeopen then bytes == [] && end == (if killed then GiveUp else Sleep)
              else end == Return && |bytes| == (if n < count then n else count)
      ensures Turn(Level(), wakes, sleepOn) == ReadTurn(old(Level()), n, killed)
      ensures end == Sleep <==> sleepOn == Some(NREAD)
    {
      bytes := [];
      CounterGap(|read|, |written|);
      if nread == nwrite && writeopen {
        if killed {
          return [], GiveUp, {}, None;
        }
        return [], Sleep, {}, Some(NREAD);
      }
      ghost var count := |written| - |read|;
      var i := 0;
      while i < n
        invariant Valid() && written == old(written) && read == old(read) + bytes
        invariant 0 <= i <= n && i == |bytes|
      {
        CounterGap(|read|, |written|);
        if nread == nwrite {
          break;
        }
        SlotOf(|read|);
        bytes := bytes + [data[nread % PIPESIZE]];
        read := read + [data[nread % PIPESIZE]];
        nread := (nread + 1) % UINT;
        i := i + 1;
      }
      end, wakes, sleepOn := Return, {NWRITE}, None;
    }

    method Close(writable: bool) returns (ghost wakes: set<int>)
      requires Valid()
      modifies this`readopen, this`writeopen
      ensures Valid() && readopen == (old(readopen) && writable) && writeopen == (old(writeopen) && !writable)
      ensures Turn(Level(), wakes, None) == CloseTurn(old(Level()), writable)
    {
      if writable {
        writeopen := false;
        wakes := {NREAD};
      } else {
        readopen := false;
        wakes := {NWRITE};
      }
    }
  }

  /** Totals at most PIPESIZE apart can be told apart by their 32-bit counters. */
  lemma CounterGap(r: nat, w: nat)
    requires r <= w <= r + PIPESIZE
    ensures (w % UINT == (r % UINT + PIPESIZE) % UINT) <==> w == r + PIPESIZE
    ensures r % UINT == w % UINT <==> r == w
    ensures (w % UINT - r % UINT + UINT) % UINT == w - r
  {
    var a, b := r / UINT, w / UINT;
    assert r == a * UINT + r % UINT && w == b * UINT + w % UINT;
    assert a <= b <= a + 1;
  }

  /** The ring position of a total is that of its counter, since PIPESIZE divides 2^32. */
  lemma SlotOf(n: nat)
    ensures (n % UINT) % PIPESIZE == n % PIPESIZE
    ensures (n % UINT + 1) % UINT == (n + 1) % UINT
  {
    var q := n / UINT;
    assert n == PIPESIZE * (0x80_0000 * q) + n % UINT;
  }

  /** The next slot to write holds none of the bytes still in flight. */
  lemma SlotsDiffer(r: nat, w: nat)
    requires r <= w < r + PIPESIZE
    ensures forall i | r <= i < w :: i % PIPESIZE != w % PIPESIZE
  {
    forall i | r <= i < w ensures i % PIPESIZE != w % PIPESIZE {
      var a, b := i / PIPESIZE, w / PIPESIZE;
      assert i == PIPESIZE * a + i % PIPESIZE && w == PIPESIZE * b + w % PIPESIZE;
    }
  }

  class SleepLockCode {
    var locked: bool
    var pid: int

    ghost function State(): SleepLock
      reads this
    {
      SleepLock(locked, pid)
    }

    constructor ()
      ensures !locked && pid == 0
    {
      locked, pid := false, 0;
    }

    /** One pass of acquiresleep's loop. */
    method TryAcquire(me: int) returns (got: bool, ghost sleepOn: Option<int>)
      modifies this
      ensures got == !old(locked) && locked
      ensures got ==> pid == me
      ensures !got ==> State() == old(State()) && sleepOn == Some(LK)
      ensures LockSection(old(State()), State(), {}, sleepOn)
    {
      if locked {
        return false, Some(LK);
      }
      locked := true;
      pid := me;
      got, sleepOn := true, None;
    }

    method Release() returns (ghost wakes: set<int>)
      modifies this
      ensures !locked && pid == 0
      ensures LockSection(old(State()), State(), wakes, None) && wakes == {LK}
    {
      locked := false;
      pid := 0;
      wakes := {LK};
    }

    method Holding(me: int) returns (r: bool)
      ensures r <==> locked && pid == me
    {
      r := locked && pid == me;
    }
  }
}
