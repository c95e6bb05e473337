/**
 log.c as the kernel runs it: one object with the in-memory header and counters, whose methods
 loop over the recorded blocks. Each method is tied to the write lists of RedoLog; issued is the
 history of block writes, so a crash point of a method is a prefix of what it appended there.
 */
module LogCode {
  import opened Common
  import opened Storage
  import opened RedoLog

  /** begin_op's admission test: room for one more operation of MAXOPBLOCKS blocks. */
  predicate Admits(recorded: nat, outstanding: int, committing: bool) {
    !committing && recorded + (outstanding + 1) * MAXOPBLOCKS <= LOGSIZE
  }

  /** log_write's guard, evaluated before the lock is taken. */
  predicate TooBig(g: Geometry, recorded: nat) {
    recorded >= LOGSIZE || recorded >= g.size - 1
  }

  /** Log absorption: a block already recorded is not recorded again. */
  function Absorb(h: seq<int>, bn: int): (r: seq<int>)
    ensures bn in r && forall x | x in h :: x in r
  {
    if bn in h then h else h + [bn]
  }

  class Log {
    const g: Geometry
    var disk: Disk
    var pinned: map<int, Block>
    var outstanding: int
    var committing: bool
    var n: int
    var block: array<int>
    ghost var issued: seq<Write>

    ghost predicate Valid()
      reads this
    {
      && g.Valid()
      && |disk| == g.total
      && block.Length == LOGSIZE
      && n <= LOGSIZE
      && forall bn | bn in pinned :: g.Home(bn)
    }

    /** The block numbers in the in-memory header. */
    ghost function H(): seq<int>
      requires Valid()
      reads this, block
    {
      if n <= 0 then [] else block[..n]
    }

    constructor (g: Geometry, disk: Disk)
      requires g.Valid() && |disk| == g.total
      ensures Valid() && this.g == g && this.disk == disk && pinned == map[] && fresh(block)
      ensures outstanding == 0 && !committing && n == 0 && issued == []
    {
      this.g, this.disk, this.pinned := g, disk, map[];
      outstanding, committing, n := 0, false, 0;
      block := new int[LOGSIZE];
      issued := [];
    }

    method BRead(bn: nat) returns (data: Block)
      requires Valid() && bn < g.total
      ensures data == Buffered(disk, pinned, bn)
    {
      data := if bn in pinned then pinned[bn] else disk[bn];
    }

    /** A block write: the disk changes, and the buffer is no longer dirty. */
    method BWrite(bn: nat, data: Block)
      requires Valid() && bn < g.total
      modifies this`disk, this`pinned, this`issued
      ensures Valid()
      ensures disk == old(disk)[bn := data] && pinned == old(pinned) - {bn}
      ensures issued == old(issued) + [Write(bn, data)]
    {
      disk := disk[bn := data];
      pinned := pinned - {bn};
      issued := issued + [Write(bn, data)];
    }

    method InstallTrans()
      requires Valid() && Loggable(g, H())
      modifies this`disk, this`pinned, this`issued
      ensures Valid() && H() == old(H())
      ensures issued == old(issued) + InstallWrites(g, old(disk), H())
      ensures disk == Apply(old(disk), InstallWrites(g, old(disk), H()))
      ensures pinned == old(pinned) - Elements(H())
    {
      hide Apply, InstallWrites;
      ghost var h := H();
      ghost var ws := InstallWrites(g, disk, h);
      NoWrites(disk, ws);
      var tail := 0;
      while tail < n
        invariant 0 <= tail <= |h| && (n > 0 ==> |h| == n) && (n <= 0 ==> h == [])
        invariant Valid() && H() == h
        invariant issued == old(issued) + ws[..tail]
        invariant disk == Apply(old(disk), ws[..tail])
        invariant pinned == old(pinned) - Elements(h[..tail])
      {
        InstallKeepsLog(g, old(disk), h, tail, g.start + tail + 1);
        NextWrite(old(disk), ws, tail);
        assert h[tail] == block[tail];
        var lbuf := BRead(g.start + tail + 1);
        BWrite(block[tail], lbuf);
        UnpinNext(old(pinned), h, tail);
        tail := tail + 1;
      }
      assert ws[..tail] == ws && h[..tail] == h;
    }

    method ReadHead()
      requires Valid() && WellFormed(g, disk)
      modifies this`n, block
      ensures Valid() && n == disk[g.start][0] && H() == Recorded(disk[g.start])
    {
      var buf := BRead(g.start);
      n := buf[0];
      var i := 0;
      while i < n
        modifies block
        invariant 0 <= i <= LOGSIZE && (n > 0 ==> i <= n) && (n <= 0 ==> i == 0)
        invariant n <= LOGSIZE == block.Length && buf == disk[g.start]
        invariant forall j | 0 <= j < i :: block[j] == buf[1 + j]
      {
        block[i] := buf[1 + i];
        i := i + 1;
      }
      assert n > 0 ==> block[..n] == buf[1..1 + n];
    }

    method WriteHead()
      requires Valid() && n >= 0
      modifies this`disk, this`pinned, this`issued
      ensures Valid() && H() == old(H())
      ensures issued == old(issued) + [Write(g.start, PutHeader(old(disk)[g.start], H()))]
      ensures disk == old(disk)[g.start := PutHeader(old(disk)[g.start], H())]
      ensures pinned == old(pinned)
    {
      var buf := BRead(g.start);
      var hb: seq<int> := buf[0 := n];
      var i := 0;
      while i < n
        invariant 0 <= i <= n && |hb| == WORDS && hb[0] == n
        invariant hb[1..1 + i] == block[..i] && hb[1 + i..] == buf[1 + i..]
      {
        ghost var was := hb;
        hb := hb[1 + i := block[i]];
        assert hb[1..1 + (i + 1)] == was[1..1 + i] + [block[i]];
        assert hb[1 + (i + 1)..] == was[1 + i..][1..];
        i := i + 1;
      }
      assert hb == [n] + hb[1..1 + n] + hb[1 + n..];
      assert hb == PutHeader(buf, H());
      ghost var before := pinned;
      BWrite(g.start, hb);
      assert pinned == before;
    }

    /** Boot: replay whatever the header records, then clear it. */
    method RecoverFromLog()
      requires Valid() && WellFormed(g, disk) && pinned == map[]
      modifies this`disk, this`pinned, this`issued, this`n, block
      ensures Valid() && n == 0 && pinned == map[]
      ensures issued == old(issued) + RecoveryWrites(g, old(disk))
      ensures disk == Recovered(g, old(disk))
    {
      ReadHead();
      ghost var h := H();
      ghost var ws := InstallWrites(g, disk, h);
      InstallTrans();
      InstallKeepsLog(g, old(disk), h, |h|, g.start);
      assert ws[..|h|] == ws;
      n := 0;
      WriteHead();
      ghost var all := RecoveryWrites(g, old(disk));
      assert all[..|all| - 1] == ws;
    }

    method WriteLog()
      requires Valid() && n >= 0 && Loggable(g, H())
      modifies this`disk, this`pinned, this`issued
      ensures Valid() && H() == old(H()) && pinned == old(pinned)
      ensures issued == old(issued) + LogWrites(g, old(disk), pinned, H())
      ensures disk == Apply(old(disk), LogWrites(g, old(disk), pinned, H()))
    {
      hide Apply, LogWrites;
      ghost var h := H();
      ghost var ws := LogWrites(g, disk, pinned, h);
      NoWrites(disk, ws);
      var tail := 0;
      while tail < n
        invariant 0 <= tail <= n == |h|
        invariant Valid() && H() == h && pinned == old(pinned)
        invariant issued == old(issued) + ws[..tail]
        invariant disk == Apply(old(disk), ws[..tail])
      {
        assert h[tail] == block[tail];
        LogKeepsSource(g, old(disk), pinned, h, tail);
        NextWrite(old(disk), ws, tail);
        var from := BRead(block[tail]);
        BWrite(g.start + tail + 1, from);
        assert pinned == old(pinned);
        tail := tail + 1;
      }
      assert ws[..tail] == ws;
    }

    /** The writes of a commit, in order; afterwards the transaction's buffers are unpinned. */
    method Commit()
      requires Valid() && n >= 0 && Clean(g, disk) && Loggable(g, H())
      modifies this`disk, this`pinned, this`issued, this`n
      ensures Valid() && n == 0 && pinned == old(pinned) - Elements(old(H()))
      ensures issued == old(issued) + CommitWrites(g, old(disk), old(pinned), old(H()))
      ensures disk == Apply(old(disk), CommitWrites(g, old(disk), old(pinned), old(H())))
    {
      if n > 0 {
        ghost var d, pins, h := disk, pinned, H();
        WriteLog();
        LogWritesKeepHeader(g, d, pins, h);
        WriteHead();
        AfterHeader(g, d, pins, h);
        InstallTrans();
        InstallKeepsHeader(g, AtCommitPoint(g, d, pins, h), h);
        n := 0;
        WriteHead();
        AssembleCommit(g, d, pins, h);
        AssembleIssued(g, d, pins, h, old(issued));
      } else {
        assert Elements(H()) == {};
        assert old(pinned) - {} == old(pinned);
      }
    }

    /** One pass of begin_op's loop under log.lock: admit the operation, or report that it must sleep. */
    method TryBeginOp() returns (admitted: bool)
      requires Valid() && n >= 0
      modifies this`outstanding
      ensures Valid() && admitted == Admits(n, old(outstanding), committing)
      ensures outstanding == old(outstanding) + if admitted then 1 else 0
    {
      if committing {
        admitted := false;
      } else if n + (outstanding + 1) * MAXOPBLOCKS > LOGSIZE {
        admitted := false;
      } else {
        outstanding := outstanding + 1;
        admitted := true;
      }
    }

    /** The first critical section of end_op. */
    method EndOp() returns (r: Outcome<()>, doCommit: bool)
      requires Valid()
      modifies this`outstanding, this`committing
      ensures outstanding == old(outstanding) - 1
      ensures r.Panic? <==> old(committing)
      ensures doCommit == (!old(committing) && old(outstanding) == 1)
      ensures committing == (old(committing) || doCommit)
    {
      doCommit := false;
      outstanding := outstanding - 1;
      if committing {
        return Panic("log.committing"), false;
      }
      if outstanding == 0 {
        doCommit := true;
        committing := true;
      }
      r := Ok(());
    }

    /** log_write: refuse when the header is full, otherwise record the block and pin its buffer. */
    method LogWrite(bn: int, data: Block) returns (r: Outcome<()>)
      requires Valid() && n >= 0 && g.Home(bn)
      modifies this`n, this`pinned, block
      ensures Valid()
      ensures r.Panic? <==> TooBig(g, old(n)) || outstanding < 1
      ensures r.Panic? ==> H() == old(H()) && pinned == old(pinned)
      ensures r.Ok? ==> H() == Absorb(old(H()), bn) && pinned == old(pinned)[bn := data]
    {
      if n >= LOGSIZE || n >= g.size - 1 {
        return Panic("too big a transaction");
      }
      if outstanding < 1 {
        return Panic("log_write outside of trans");
      }
      ghost var h := H();
      var i := 0;
      while i < n
        invariant 0 <= i <= n
        invariant H() == h && bn !in h[..i]
      {
        if block[i] == bn {
          break;
        }
        assert h[..i + 1] == h[..i] + [h[i]];
        i := i + 1;
      }
      block[i] := bn;
      if i == n {
        assert h[..n] == h;
        n := n + 1;
      }
      assert H() == Absorb(h, bn);
      pinned := pinned[bn := data];
      r := Ok(());
    }
  }

  lemma NextWrite(d: Disk, ws: seq<Write>, k: nat)
    requires InRange(ws, |d|) && k < |ws|
    ensures ws[..k + 1] == ws[..k] + [ws[k]]
    ensures Apply(d, ws[..k + 1]) == Apply(d, ws[..k])[ws[k].bn := ws[k].data]
  {
    assert ws[..k + 1][..k] == ws[..k];
  }

  lemma NoWrites(d: Disk, ws: seq<Write>)
    ensures ws[..0] == [] && Apply(d, ws[..0]) == d
  {
  }

  lemma UnpinNext(pins: map<int, Block>, h: seq<int>, k: nat)
    requires k < |h|
    ensures pins - Elements(h[..k]) - {h[k]} == pins - Elements(h[..k + 1])
  {
    assert h[..k + 1] == h[..k] + [h[k]];
    assert Elements(h[..k + 1]) == Elements(h[..k]) + {h[k]};
  }

  /** write_log copies home blocks that its own writes have not touched. */
  lemma LogKeepsSource(g: Geometry, d: Disk, pins: map<int, Block>, h: seq<int>, k: nat)
    requires g.Valid() && |d| == g.total && Loggable(g, h) && k < |h|
    ensures Apply(d, LogWrites(g, d, pins, h)[..k])[h[k]] == d[h[k]]
  {
    hide Apply, LogWrites, ValueAt;
    var ws := LogWrites(g, d, pins, h);
    ApplyAt(d, ws[..k], h[k]);
    ValueAtUntouched(d[h[k]], ws[..k], h[k]);
  }

  lemma LogWritesKeepHeader(g: Geometry, d: Disk, pins: map<int, Block>, h: seq<int>)
    requires Clean(g, d) && Loggable(g, h)
    ensures Apply(d, LogWrites(g, d, pins, h))[g.start] == d[g.start]
  {
    var logs := LogWrites(g, d, pins, h);
    ApplyAt(d, logs, g.start);
    ValueAtUntouched(d[g.start], logs, g.start);
  }

  lemma InstallKeepsHeader(g: Geometry, c: Disk, h: seq<int>)
    requires g.Valid() && |c| == g.total && Loggable(g, h)
    ensures Apply(c, InstallWrites(g, c, h))[g.start] == c[g.start]
  {
    var ws := InstallWrites(g, c, h);
    InstallKeepsLog(g, c, h, |h|, g.start);
    assert ws[..|h|] == ws;
  }

  lemma AssembleIssued(g: Geometry, d: Disk, pins: map<int, Block>, h: seq<int>, before: seq<Write>)
    requires Clean(g, d) && Loggable(g, h) && h != []
    ensures var full := PutHeader(d[g.start], h);
            before + LogWrites(g, d, pins, h) + [Write(g.start, full)] + HomeWrites(g, d, pins, h)
            + [Write(g.start, PutHeader(full, []))]
            == before + CommitWrites(g, d, pins, h)
  {
  }

  /** The four phases of commit, each applied to the disk the one before left, make up CommitWrites. */
  lemma AssembleCommit(g: Geometry, d: Disk, pins: map<int, Block>, h: seq<int>)
    requires Clean(g, d) && Loggable(g, h) && h != []
    ensures var full := PutHeader(d[g.start], h);
            Apply(d, CommitWrites(g, d, pins, h))
            == Apply(AtCommitPoint(g, d, pins, h), HomeWrites(g, d, pins, h))[g.start := PutHeader(full, [])]
  {
    var full := PutHeader(d[g.start], h);
    var head := LogWrites(g, d, pins, h) + [Write(g.start, full)];
    assert head[..|head| - 1] == LogWrites(g, d, pins, h);
    var homes := HomeWrites(g, d, pins, h);
    ApplyConcat(d, head, homes);
    var all := CommitWrites(g, d, pins, h);
    assert all[..|all| - 1] == head + homes;
  }
}
