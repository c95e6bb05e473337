/**
 The on-disk redo log of log.c: its format, the block writes that commit() and
 recover_from_log() issue, and what a crash between any two of them leaves behind.
 */
module RedoLog {
  import opened Storage

  const MAXOPBLOCKS: nat := 10
  const LOGSIZE: nat := MAXOPBLOCKS * 3

  /** The superblock fields the log uses: a header block at start and size - 1 data blocks after it. */
  datatype Geometry = Geometry(start: nat, size: nat, total: nat) {

    ghost predicate Valid() {
      size >= 1 && start + size <= total
    }

    predicate InLog(bn: int) {
      start <= bn < start + size
    }

    /** A block that belongs to the file system proper. */
    predicate Home(bn: int) {
      0 <= bn < total && !InLog(bn)
    }
  }

  /** Two disks that agree on everything but the log area. */
  ghost predicate SameHome(g: Geometry, d: Disk, d': Disk) {
    && |d| == g.total
    && |d'| == g.total
    && forall bn | 0 <= bn < g.total && g.Home(bn) :: d[bn] == d'[bn]
  }

  /** The block numbers recorded in a header block; a count that is not positive records none. */
  function Recorded(header: Block): (h: seq<int>)
    requires header[0] <= LOGSIZE
  {
    if header[0] <= 0 then [] else header[1..1 + header[0]]
  }

  /** Overwrite the count and the first |h| entries, leaving the rest of the header block as it was. */
  function PutHeader(header: Block, h: seq<int>): (r: Block)
    requires |h| <= LOGSIZE
    ensures r[0] <= LOGSIZE && Recorded(r) == h
  {
    [|h|] + h + header[1 + |h|..]
  }

  /** h can be the contents of a header: it fits in the log and names only home blocks. */
  ghost predicate Loggable(g: Geometry, h: seq<int>) {
    && |h| <= LOGSIZE
    && |h| + 1 <= g.size
    && forall i | 0 <= i < |h| :: g.Home(h[i])
  }

  /** The log area of d is one that this code can have written. */
  ghost predicate WellFormed(g: Geometry, d: Disk) {
    && g.Valid()
    && |d| == g.total
    && d[g.start][0] <= LOGSIZE
    && Loggable(g, Recorded(d[g.start]))
  }

  /** The log holds no committed transaction. */
  ghost predicate Clean(g: Geometry, d: Disk) {
    WellFormed(g, d) && Recorded(d[g.start]) == []
  }

  /** install_trans: copy log block i to its home, for each recorded block. */
  function InstallWrites(g: Geometry, d: Disk, h: seq<int>): (ws: seq<Write>)
    requires g.Valid() && |d| == g.total && Loggable(g, h)
    ensures |ws| == |h| && InRange(ws, g.total)
    ensures forall i | 0 <= i < |h| :: ws[i] == Write(h[i], d[g.start + 1 + i])
  {
    seq(|h|, i requires 0 <= i < |h| => Write(h[i], d[g.start + 1 + i]))
  }

  /** recover_from_log: install whatever is recorded, then clear the header. */
  function RecoveryWrites(g: Geometry, d: Disk): (ws: seq<Write>)
    requires WellFormed(g, d)
    ensures InRange(ws, g.total)
  {
    var h := Recorded(d[g.start]);
    InstallWrites(g, d, h) + [Write(g.start, PutHeader(d[g.start], []))]
  }

  /** The contents of block bn as bread returns them: pinned dirty buffers shadow the disk. */
  function Buffered(d: Disk, pinned: map<int, Block>, bn: nat): Block
    requires bn < |d|
  {
    if bn in pinned then pinned[bn] else d[bn]
  }

  /** write_log: copy the buffered contents of each recorded block to its log block. */
  function LogWrites(g: Geometry, d: Disk, pinned: map<int, Block>, h: seq<int>): (ws: seq<Write>)
    requires g.Valid() && |d| == g.total && Loggable(g, h)
    ensures |ws| == |h| && InRange(ws, g.total)
    ensures forall i | 0 <= i < |h| :: ws[i] == Write(g.start + 1 + i, Buffered(d, pinned, h[i]))
  {
    seq(|h|, i requires 0 <= i < |h| => Write(g.start + 1 + i, Buffered(d, pinned, h[i])))
  }

  /** The home blocks a transaction writes. */
  function HomeWrites(g: Geometry, d: Disk, pinned: map<int, Block>, h: seq<int>): (ws: seq<Write>)
    requires g.Valid() && |d| == g.total && Loggable(g, h)
    ensures |ws| == |h| && InRange(ws, g.total)
    ensures forall i | 0 <= i < |h| :: ws[i] == Write(h[i], Buffered(d, pinned, h[i]))
  {
    seq(|h|, i requires 0 <= i < |h| => Write(h[i], Buffered(d, pinned, h[i])))
  }

  /** commit: log, header, install, clear header; nothing at all for an empty transaction. */
  function CommitWrites(g: Geometry, d: Disk, pinned: map<int, Block>, h: seq<int>): (ws: seq<Write>)
    requires g.Valid() && |d| == g.total && Loggable(g, h)
    ensures InRange(ws, g.total)
    ensures |ws| == if h == [] then 0 else 2 * |h| + 2
  {
    if h == [] then []
    else
      var full := PutHeader(d[g.start], h);
      LogWrites(g, d, pinned, h) + [Write(g.start, full)] + HomeWrites(g, d, pinned, h)
      + [Write(g.start, PutHeader(full, []))]
  }

  /** A completed recovery. */
  function Recovered(g: Geometry, d: Disk): (r: Disk)
    requires WellFormed(g, d)
    ensures |r| == |d|
  {
    Apply(d, RecoveryWrites(g, d))
  }

  /** A recovery that crashes after k of its block writes. */
  function PartlyRecovered(g: Geometry, d: Disk, k: nat): (r: Disk)
    requires WellFormed(g, d)
    ensures |r| == |d|
  {
    var ws := RecoveryWrites(g, d);
    Apply(d, ws[..if k < |ws| then k else |ws|])
  }

  // ---- recovery is idempotent, and restartable at any point ----

  /**
   The order on which crash safety rests: every log block, then the header that records them all,
   then every home block, and last the empty header.
   */
  lemma CommitOrder(g: Geometry, d: Disk, pinned: map<int, Block>, h: seq<int>, i: nat)
    requires g.Valid() && |d| == g.total && Loggable(g, h) && i < |h|
    ensures var ws := CommitWrites(g, d, pinned, h);
            var n := |h|;
            && |ws| == 2 * n + 2
            && ws[i] == Write(g.start + 1 + i, Buffered(d, pinned, h[i]))
            && ws[n].bn == g.start && ws[n].data[0] <= LOGSIZE && Recorded(ws[n].data) == h
            && ws[n + 1 + i] == Write(h[i], Buffered(d, pinned, h[i]))
            && ws[2 * n + 1].bn == g.start && ws[2 * n + 1].data[0] <= LOGSIZE && Recorded(ws[2 * n + 1].data) == []
  {
  }

  lemma InstallTouches(g: Geometry, d: Disk, h: seq<int>, bn: nat)
    requires g.Valid() && |d| == g.total && Loggable(g, h)
    ensures Touches(InstallWrites(g, d, h), bn) <==> bn in h
  {
    var ws := InstallWrites(g, d, h);
    if bn in h {
      var i :| 0 <= i < |h| && h[i] == bn;
      assert ws[i].bn == bn;
    }
  }

  lemma UntouchedByPrefix(ws: seq<Write>, k: nat, bn: nat)
    requires k <= |ws| && !Touches(ws, bn)
    ensures !Touches(ws[..k], bn)
  {
    forall i | 0 <= i < k ensures ws[..k][i].bn != bn {
      assert ws[i].bn != bn;
    }
  }

  /** Part of an installation leaves the log area alone. */
  lemma InstallKeepsLog(g: Geometry, d: Disk, h: seq<int>, k: nat, bn: nat)
    requires g.Valid() && |d| == g.total && Loggable(g, h) && k <= |h| && g.InLog(bn)
    ensures Apply(d, InstallWrites(g, d, h)[..k])[bn] == d[bn]
  {
    var ws := InstallWrites(g, d, h);
    InstallTouches(g, d, h, bn);
    UntouchedByPrefix(ws, k, bn);
    ApplyAt(d, ws[..k], bn);
    ValueAtUntouched(d[bn], ws[..k], bn);
  }

  /** Home contents after a completed recovery: the log's copy where one is recorded. */
  lemma RecoveredHome(g: Geometry, d: Disk, bn: nat)
    requires WellFormed(g, d) && g.Home(bn)
    ensures Recovered(g, d)[bn] == ValueAt(d[bn], InstallWrites(g, d, Recorded(d[g.start])), bn)
  {
    var ws := RecoveryWrites(g, d);
    ApplyAt(d, ws, bn);
    assert ws[..|ws| - 1] == InstallWrites(g, d, Recorded(d[g.start]));
  }

  lemma RecoveredClean(g: Geometry, d: Disk)
    requires WellFormed(g, d)
    ensures Clean(g, Recovered(g, d))
  {
    var ws := RecoveryWrites(g, d);
    assert Recovered(g, d)[g.start] == PutHeader(d[g.start], []);
  }

  /** A crash inside recovery leaves a log that recovers to the same home blocks. */
  lemma RestartableRecovery(g: Geometry, d: Disk, k: nat)
    requires WellFormed(g, d)
    ensures WellFormed(g, PartlyRecovered(g, d, k))
    ensures SameHome(g, Recovered(g, PartlyRecovered(g, d, k)), Recovered(g, d))
  {
    hide Apply, ValueAt;
    var h := Recorded(d[g.start]);
    var install := InstallWrites(g, d, h);
    var ws := RecoveryWrites(g, d);
    var p := PartlyRecovered(g, d, k);
    if k >= |ws| {
      assert ws[..|ws|] == ws;
      CleanRecoversToItself(g, d);
    } else {
      assert ws[..k] == install[..k];
      forall bn | g.InLog(bn) ensures p[bn] == d[bn] {
        InstallKeepsLog(g, d, h, k, bn);
      }
      assert InstallWrites(g, p, h) == install;
      forall bn | 0 <= bn < g.total && g.Home(bn) ensures Recovered(g, p)[bn] == Recovered(g, d)[bn] {
        RecoveredHome(g, p, bn);
        RecoveredHome(g, d, bn);
        ApplyAt(d, install[..k], bn);
        InstallTouches(g, d, h, bn);
        if bn in h {
          ValueAtTouched(p[bn], d[bn], install, bn);
        } else {
          UntouchedByPrefix(install, k, bn);
          ValueAtUntouched(d[bn], install[..k], bn);
        }
      }
    }
  }

  /** Recovering a second time changes no home block. */
  lemma CleanRecoversToItself(g: Geometry, d: Disk)
    requires WellFormed(g, d)
    ensures WellFormed(g, Recovered(g, d))
    ensures SameHome(g, Recovered(g, Recovered(g, d)), Recovered(g, d))
  {
    RecoveredClean(g, d);
    var r := Recovered(g, d);
    forall bn | 0 <= bn < g.total && g.Home(bn) ensures Recovered(g, r)[bn] == r[bn] {
      RecoveredHome(g, r, bn);
    }
  }

  /** Reboot repeatedly: each recovery crashes after crashes[i] block writes, and the last completes. */
  function RecoverAfter(g: Geometry, d: Disk, crashes: seq<nat>): (r: Disk)
    requires WellFormed(g, d)
    ensures |r| == |d|
    decreases |crashes|
  {
    if crashes == [] then Recovered(g, d)
    else
      RestartableRecovery(g, d, crashes[0]);
      RecoverAfter(g, PartlyRecovered(g, d, crashes[0]), crashes[1..])
  }

  /** However often recovery is interrupted, the home blocks come out the same and the log is clean. */
  lemma {:induction false} RecoveryIgnoresCrashes(g: Geometry, d: Disk, crashes: seq<nat>)
    requires WellFormed(g, d)
    ensures SameHome(g, RecoverAfter(g, d, crashes), Recovered(g, d))
    ensures Clean(g, RecoverAfter(g, d, crashes))
    decreases |crashes|
  {
    if crashes == [] {
      RecoveredClean(g, d);
    } else {
      RestartableRecovery(g, d, crashes[0]);
      RecoveryIgnoresCrashes(g, PartlyRecovered(g, d, crashes[0]), crashes[1..]);
    }
  }

  // ---- commit is atomic ----

  /** The disk once the transaction's buffers have reached their home blocks. */
  function Committed(g: Geometry, d: Disk, pinned: map<int, Block>, h: seq<int>): (r: Disk)
    requires g.Valid() && |d| == g.total && Loggable(g, h)
    ensures |r| == |d|
  {
    Apply(d, HomeWrites(g, d, pinned, h))
  }

  /** Exactly the recorded blocks take their buffered contents; every other block is as it was. */
  lemma CommittedAt(g: Geometry, d: Disk, pinned: map<int, Block>, h: seq<int>, bn: nat)
    requires g.Valid() && |d| == g.total && Loggable(g, h) && bn < g.total
    ensures Committed(g, d, pinned, h)[bn] == if bn in h then Buffered(d, pinned, bn) else d[bn]
  {
    var ws := HomeWrites(g, d, pinned, h);
    ApplyAt(d, ws, bn);
    if bn in h {
      var i :| 0 <= i < |h| && h[i] == bn;
      assert ws[i].bn == bn;
      ValueAtConsistent(d[bn], ws, bn, Buffered(d, pinned, bn));
    } else {
      ValueAtUntouched(d[bn], ws, bn);
    }
  }

  /** Writing only part of the log area changes no home block and not the header. */
  lemma BeforeHeader(g: Geometry, d: Disk, pinned: map<int, Block>, h: seq<int>, k: nat)
    requires Clean(g, d) && Loggable(g, h) && k <= |h|
    ensures var c := Apply(d, LogWrites(g, d, pinned, h)[..k]);
            Clean(g, c) && SameHome(g, c, d)
  {
    var ws := LogWrites(g, d, pinned, h)[..k];
    var c := Apply(d, ws);
    forall bn | 0 <= bn < g.total && (g.Home(bn) || bn == g.start) ensures c[bn] == d[bn] {
      ApplyAt(d, ws, bn);
      ValueAtUntouched(d[bn], ws, bn);
    }
  }

  /** The disk just after the header write, the real commit point. */
  function AtCommitPoint(g: Geometry, d: Disk, pinned: map<int, Block>, h: seq<int>): (r: Disk)
    requires g.Valid() && |d| == g.total && Loggable(g, h)
    ensures |r| == |d|
  {
    Apply(d, LogWrites(g, d, pinned, h))[g.start := PutHeader(d[g.start], h)]
  }

  lemma LogBlockWritten(g: Geometry, d: Disk, pinned: map<int, Block>, h: seq<int>, i: nat)
    requires g.Valid() && |d| == g.total && Loggable(g, h) && i < |h|
    ensures AtCommitPoint(g, d, pinned, h)[g.start + 1 + i] == Buffered(d, pinned, h[i])
  {
    var ws := LogWrites(g, d, pinned, h);
    ApplyAt(d, ws, g.start + 1 + i);
    assert ws[i].bn == g.start + 1 + i;
    ValueAtConsistent(d[g.start + 1 + i], ws, g.start + 1 + i, Buffered(d, pinned, h[i]));
  }

  /** At the commit point the home blocks are untouched and the log holds the whole transaction. */
  lemma AfterHeader(g: Geometry, d: Disk, pinned: map<int, Block>, h: seq<int>)
    requires Clean(g, d) && Loggable(g, h)
    ensures var c := AtCommitPoint(g, d, pinned, h);
            && WellFormed(g, c)
            && Recorded(c[g.start]) == h
            && SameHome(g, c, d)
            && InstallWrites(g, c, h) == HomeWrites(g, d, pinned, h)
  {
    var c := AtCommitPoint(g, d, pinned, h);
    var ws := LogWrites(g, d, pinned, h);
    forall bn | 0 <= bn < g.total && g.Home(bn) ensures c[bn] == d[bn] {
      ApplyAt(d, ws, bn);
      ValueAtUntouched(d[bn], ws, bn);
    }
    var ins, hs := InstallWrites(g, c, h), HomeWrites(g, d, pinned, h);
    forall i | 0 <= i < |h| ensures ins[i] == hs[i] {
      LogBlockWritten(g, d, pinned, h, i);
    }
  }

  /** The home blocks that a completed recovery of a crashed commit yields. */
  ghost predicate AllOldOrAllNew(g: Geometry, d: Disk, pinned: map<int, Block>, h: seq<int>, k: nat, r: Disk)
    requires g.Valid() && |d| == g.total && Loggable(g, h)
  {
    SameHome(g, r, if k <= |h| then d else Committed(g, d, pinned, h))
  }

  lemma ApplyLast(d: Disk, ws: seq<Write>, w: Write)
    requires InRange(ws, |d|) && w.bn < |d|
    ensures InRange(ws + [w], |d|)
    ensures Apply(d, ws + [w]) == Apply(d, ws)[w.bn := w.data]
  {
    assert (ws + [w])[..|ws|] == ws;
  }

  /** Past the header write, the commit's own installation is a partial recovery. */
  lemma InstallingIsRecovering(g: Geometry, d: Disk, pinned: map<int, Block>, h: seq<int>, k: nat)
    requires Clean(g, d) && Loggable(g, h) && h != [] && |h| < k <= 2 * |h| + 2
    ensures var c := AtCommitPoint(g, d, pinned, h);
            && WellFormed(g, c)
            && Apply(d, CommitWrites(g, d, pinned, h)[..k]) == PartlyRecovered(g, c, k - |h| - 1)
  {
    hide Apply, ValueAt;
    var full := PutHeader(d[g.start], h);
    var logs := LogWrites(g, d, pinned, h);
    var head := logs + [Write(g.start, full)];
    var c := AtCommitPoint(g, d, pinned, h);
    ApplyLast(d, logs, Write(g.start, full));
    AfterHeader(g, d, pinned, h);
    var rest := RecoveryWrites(g, c);
    var j := k - |h| - 1;
    assert CommitWrites(g, d, pinned, h) == head + rest;
    assert (head + rest)[..k] == head + rest[..j];
    ApplyConcat(d, head, rest[..j]);
  }

  /** Recovering at the commit point installs the whole transaction. */
  lemma CommitPointRecovers(g: Geometry, d: Disk, pinned: map<int, Block>, h: seq<int>)
    requires Clean(g, d) && Loggable(g, h)
    ensures WellFormed(g, AtCommitPoint(g, d, pinned, h))
    ensures SameHome(g, Recovered(g, AtCommitPoint(g, d, pinned, h)), Committed(g, d, pinned, h))
  {
    hide Apply, ValueAt;
    var c := AtCommitPoint(g, d, pinned, h);
    AfterHeader(g, d, pinned, h);
    forall bn | 0 <= bn < g.total && g.Home(bn)
      ensures Recovered(g, c)[bn] == Committed(g, d, pinned, h)[bn]
    {
      RecoveredHome(g, c, bn);
      ApplyAt(d, HomeWrites(g, d, pinned, h), bn);
    }
  }

  lemma CleanRecovers(g: Geometry, c: Disk)
    requires Clean(g, c)
    ensures SameHome(g, Recovered(g, c), c)
  {
    forall bn | 0 <= bn < g.total && g.Home(bn) ensures Recovered(g, c)[bn] == c[bn] {
      RecoveredHome(g, c, bn);
    }
  }

  lemma PrefixIsLogging(g: Geometry, d: Disk, pinned: map<int, Block>, h: seq<int>, k: nat)
    requires g.Valid() && |d| == g.total && Loggable(g, h)
    requires k <= |h| && k <= |CommitWrites(g, d, pinned, h)|
    ensures CommitWrites(g, d, pinned, h)[..k] == LogWrites(g, d, pinned, h)[..k]
  {
  }

  lemma CrashWhileLogging(g: Geometry, d: Disk, pinned: map<int, Block>, h: seq<int>, k: nat)
    requires Clean(g, d) && Loggable(g, h)
    requires k <= |h| && k <= |CommitWrites(g, d, pinned, h)|
    ensures var c := Apply(d, CommitWrites(g, d, pinned, h)[..k]);
            WellFormed(g, c) && SameHome(g, Recovered(g, c), d)
  {
    hide Apply, LogWrites, CommitWrites, Recovered;
    PrefixIsLogging(g, d, pinned, h, k);
    BeforeHeader(g, d, pinned, h, k);
    CleanRecovers(g, Apply(d, LogWrites(g, d, pinned, h)[..k]));
  }

  lemma CrashWhileInstalling(g: Geometry, d: Disk, pinned: map<int, Block>, h: seq<int>, k: nat)
    requires Clean(g, d) && Loggable(g, h)
    requires |h| < k <= |CommitWrites(g, d, pinned, h)|
    ensures var c := Apply(d, CommitWrites(g, d, pinned, h)[..k]);
            WellFormed(g, c) && SameHome(g, Recovered(g, c), Committed(g, d, pinned, h))
  {
    hide Apply, LogWrites, CommitWrites, Recovered, PartlyRecovered, AtCommitPoint, Committed;
    InstallingIsRecovering(g, d, pinned, h, k);
    RestartableRecovery(g, AtCommitPoint(g, d, pinned, h), k - |h| - 1);
    CommitPointRecovers(g, d, pinned, h);
  }

  /** One uninterrupted recovery after a crash k writes into commit. */
  lemma CrashThenRecover(g: Geometry, d: Disk, pinned: map<int, Block>, h: seq<int>, k: nat)
    requires Clean(g, d) && Loggable(g, h)
    requires k <= |CommitWrites(g, d, pinned, h)|
    ensures var c := Apply(d, CommitWrites(g, d, pinned, h)[..k]);
            WellFormed(g, c) && AllOldOrAllNew(g, d, pinned, h, k, Recovered(g, c))
  {
    hide Apply, LogWrites, CommitWrites, Recovered, Committed;
    if k <= |h| {
      CrashWhileLogging(g, d, pinned, h, k);
    } else {
      CrashWhileInstalling(g, d, pinned, h, k);
    }
  }

  /**
   Crash atomicity. Stop commit after any k of its block writes, then interrupt recovery any
   number of times: the home blocks are all old up to the header write and all new from it on.
   */
  lemma CrashAtomicity(g: Geometry, d: Disk, pinned: map<int, Block>, h: seq<int>, k: nat, crashes: seq<nat>)
    requires Clean(g, d) && Loggable(g, h)
    requires k <= |CommitWrites(g, d, pinned, h)|
    ensures var c := Apply(d, CommitWrites(g, d, pinned, h)[..k]);
            && WellFormed(g, c)
            && Clean(g, RecoverAfter(g, c, crashes))
            && AllOldOrAllNew(g, d, pinned, h, k, RecoverAfter(g, c, crashes))
  {
    CrashThenRecover(g, d, pinned, h, k);
    RecoveryIgnoresCrashes(g, Apply(d, CommitWrites(g, d, pinned, h)[..k]), crashes);
  }

  /** A commit that runs to the end leaves the new home blocks in place and a clean log. */
  lemma CommitCompletes(g: Geometry, d: Disk, pinned: map<int, Block>, h: seq<int>)
    requires Clean(g, d) && Loggable(g, h)
    ensures var r := Apply(d, CommitWrites(g, d, pinned, h));
            Clean(g, r) && SameHome(g, r, Committed(g, d, pinned, h))
  {
    var ws := CommitWrites(g, d, pinned, h);
    assert ws[..|ws|] == ws;
    if h != [] {
      var c := AtCommitPoint(g, d, pinned, h);
      InstallingIsRecovering(g, d, pinned, h, |ws|);
      var rest := RecoveryWrites(g, c);
      AfterHeader(g, d, pinned, h);
      assert rest[..|rest|] == rest;
      RecoveredClean(g, c);
      CommitPointRecovers(g, d, pinned, h);
    }
  }
}
