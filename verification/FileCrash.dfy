/**
 filewrite and the log together. The blocks that a transaction of filewrite logs reach the disk
 through the redo log; whatever crash interrupts them, the recovered disk holds a whole file system
 in which the file has been extended by a number of whole chunks.
 */
module FileCrash {
  import opened Bytes
  import opened Common
  import opened FileSpec
  import G = GroupCommit
  import H = CommitHistory
  import opened Inodes
  import opened RedoLog
  import opened Storage

  /** What a disk block holds: the bitmap bits, the inodes and the data that live in it. */
  datatype Sector = Sector(bits: set<nat>, inodes: map<nat, Inode>, data: seq<Byte>)

  ghost function SectorAt(l: Layout, f: FS, d: map<nat, Inode>, b: nat): Sector
    requires Shape(l, f)
  {
    Sector(set c: nat | c < l.size && l.BitmapBlock(c) == b && Bit(f.bitmap, c),
           map i | i in d && l.InodeBlock(i) == b :: d[i],
           if b < l.size then f.blocks[b] else [])
  }

  /** The home blocks of the disk are the file system f with inodes d, under some encoding of blocks. */
  ghost predicate Represents(g: Geometry, l: Layout, enc: Sector -> Block, disk: Disk, f: FS, d: map<nat, Inode>) {
    && |disk| == g.total && Shape(l, f)
    && forall b | 0 <= b < g.total && g.Home(b) :: disk[b] == enc(SectorAt(l, f, d, b))
  }

  /** A block that the transaction does not log stays as it is. */
  lemma UnloggedSector(l: Layout, f: FS, d: map<nat, Inode>, t: Transaction, b: nat)
    requires Complete(l, f, d, t) && b !in t.logged
    ensures SectorAt(l, t.after, t.dinodes, b) == SectorAt(l, f, d, b)
  {
    hide Bit;
    var s, s' := SectorAt(l, f, d, b), SectorAt(l, t.after, t.dinodes, b);
    assert s'.bits == s.bits;
    forall i: nat ensures (i in s.inodes <==> i in s'.inodes) && (i in s.inodes ==> s.inodes[i] == s'.inodes[i]) {
      assert l.InodeBlock(i) in t.logged || SameInode(d, t.dinodes, i);
    }
    assert s'.inodes == s.inodes;
  }

  /** js journals the transaction: it touches the logged blocks only, and leaves each as the transaction commits it. */
  ghost predicate Journals(g: Geometry, l: Layout, enc: Sector -> Block, f: FS, d: map<nat, Inode>, t: Transaction, js: seq<G.Entry>)
    requires Shape(l, f) && Shape(l, t.after)
  {
    && G.HomeEntries(g, js)
    && (forall i | 0 <= i < |js| :: js[i].bn in t.logged)
    && (forall b | b in t.logged ::
          ValueAt(enc(SectorAt(l, f, d, b)), G.AsWrites(js), b) == enc(SectorAt(l, t.after, t.dinodes, b)))
  }

  lemma TransactionReplays(g: Geometry, l: Layout, enc: Sector -> Block, disk: Disk, f: FS, d: map<nat, Inode>,
                           t: Transaction, js: seq<G.Entry>)
    requires Represents(g, l, enc, disk, f, d) && Complete(l, f, d, t) && Journals(g, l, enc, f, d, t, js)
    ensures Represents(g, l, enc, G.Replay(g, disk, js), t.after, t.dinodes)
  {
    hide SectorAt, Complete;
    assert Shape(l, t.after) by { CompleteShape(l, f, d, t); }
    var ws := G.AsWrites(js);
    forall b | 0 <= b < g.total && g.Home(b) ensures G.Replay(g, disk, js)[b] == enc(SectorAt(l, t.after, t.dinodes, b)) {
      ApplyAt(disk, ws, b);
      if b !in t.logged {
        ValueAtUntouched(disk[b], ws, b);
        UnloggedSector(l, f, d, t, b);
      }
    }
  }

  lemma CompleteShape(l: Layout, f: FS, d: map<nat, Inode>, t: Transaction)
    requires Complete(l, f, d, t)
    ensures Shape(l, f) && Shape(l, t.after)
  {
  }

  // ---- a call of several transactions ----

  function Flatten(jss: seq<seq<G.Entry>>): seq<G.Entry> {
    if jss == [] then [] else Flatten(jss[..|jss| - 1]) + jss[|jss| - 1]
  }

  lemma FlattenNext(jss: seq<seq<G.Entry>>, k: nat)
    requires k < |jss|
    ensures Flatten(jss[..k + 1]) == Flatten(jss[..k]) + jss[k]
  {
    assert jss[..k + 1][..k] == jss[..k];
  }

  /** One list of entries for each transaction. */
  ghost predicate JournalsAll(g: Geometry, l: Layout, enc: Sector -> Block, f: FS, d: map<nat, Inode>,
                              ts: seq<Transaction>, jss: seq<seq<G.Entry>>) {
    && |jss| == |ts|
    && forall k | 0 <= k < |ts| ::
         && Complete(l, StateAt(f, ts, k), DinodesAt(d, ts, k), ts[k])
         && Journals(g, l, enc, StateAt(f, ts, k), DinodesAt(d, ts, k), ts[k], jss[k])
  }

  /** Replaying the entries of the first k transactions gives the disk that the k-th commits. */
  lemma {:induction false} PrefixReplays(g: Geometry, l: Layout, enc: Sector -> Block, disk: Disk, f: FS, d: map<nat, Inode>,
                                         ts: seq<Transaction>, jss: seq<seq<G.Entry>>, k: nat)
    requires Represents(g, l, enc, disk, f, d) && JournalsAll(g, l, enc, f, d, ts, jss) && k <= |ts|
    ensures G.HomeEntries(g, Flatten(jss[..k]))
    ensures Represents(g, l, enc, G.Replay(g, disk, Flatten(jss[..k])), StateAt(f, ts, k), DinodesAt(d, ts, k))
  {
    hide Represents, JournalsAll, Flatten, G.Replay, StateAt, DinodesAt;
    if k == 0 {
      NothingReplayed(g, disk, f, d, ts, jss);
      RepresentsSize(g, l, enc, disk, f, d);
    } else {
      PrefixReplays(g, l, enc, disk, f, d, ts, jss, k - 1);
      RepresentsSize(g, l, enc, disk, f, d);
      PrefixStep(g, l, enc, disk, f, d, ts, jss, k - 1);
    }
  }

  lemma NothingReplayed(g: Geometry, disk: Disk, f: FS, d: map<nat, Inode>, ts: seq<Transaction>, jss: seq<seq<G.Entry>>)
    ensures Flatten(jss[..0]) == [] && G.HomeEntries(g, [])
    ensures |disk| == g.total ==> G.Replay(g, disk, []) == disk
    ensures StateAt(f, ts, 0) == f && DinodesAt(d, ts, 0) == d
  {
    assert G.AsWrites([]) == [];
  }

  lemma PrefixStep(g: Geometry, l: Layout, enc: Sector -> Block, disk: Disk, f: FS, d: map<nat, Inode>,
                   ts: seq<Transaction>, jss: seq<seq<G.Entry>>, k: nat)
    requires |disk| == g.total && JournalsAll(g, l, enc, f, d, ts, jss) && k < |ts| && G.HomeEntries(g, Flatten(jss[..k]))
    requires Represents(g, l, enc, G.Replay(g, disk, Flatten(jss[..k])), StateAt(f, ts, k), DinodesAt(d, ts, k))
    ensures G.HomeEntries(g, Flatten(jss[..k + 1]))
    ensures Represents(g, l, enc, G.Replay(g, disk, Flatten(jss[..k + 1])), StateAt(f, ts, k + 1), DinodesAt(d, ts, k + 1))
  {
    hide Represents, Complete, Journals, Flatten, G.Replay;
    FlattenNext(jss, k);
    JournalsHome(g, l, enc, StateAt(f, ts, k), DinodesAt(d, ts, k), ts[k], jss[k]);
    ReplayConcat(g, disk, Flatten(jss[..k]), jss[k]);
    TransactionReplays(g, l, enc, G.Replay(g, disk, Flatten(jss[..k])), StateAt(f, ts, k), DinodesAt(d, ts, k), ts[k], jss[k]);
  }

  lemma RepresentsSize(g: Geometry, l: Layout, enc: Sector -> Block, disk: Disk, f: FS, d: map<nat, Inode>)
    requires Represents(g, l, enc, disk, f, d)
    ensures |disk| == g.total
  {
  }

  lemma JournalsHome(g: Geometry, l: Layout, enc: Sector -> Block, f: FS, d: map<nat, Inode>, t: Transaction, js: seq<G.Entry>)
    requires Complete(l, f, d, t) && Journals(g, l, enc, f, d, t, js)
    ensures G.HomeEntries(g, js)
  {
  }

  lemma ReplayConcat(g: Geometry, disk: Disk, a: seq<G.Entry>, b: seq<G.Entry>)
    requires |disk| == g.total && G.HomeEntries(g, a) && G.HomeEntries(g, b)
    ensures G.HomeEntries(g, a + b) && G.Replay(g, disk, a + b) == G.Replay(g, G.Replay(g, disk, a), b)
  {
    assert G.AsWrites(a + b) == G.AsWrites(a) + G.AsWrites(b);
    ApplyConcat(disk, G.AsWrites(a), G.AsWrites(b));
  }

  // ---- where a crash can cut it ----

  ghost predicate OneOpEach(jss: seq<seq<G.Entry>>, ops: seq<nat>) {
    |ops| == |jss| && forall k, i | 0 <= k < |jss| && 0 <= i < |jss[k]| :: jss[k][i].op == ops[k]
  }

  /** A cut that separates no two entries of one operation falls between two transactions. */
  lemma {:induction false} CutBetween(jss: seq<seq<G.Entry>>, ops: seq<nat>, m: nat, c: nat) returns (k: nat)
    requires OneOpEach(jss, ops) && m <= |jss| && c <= |Flatten(jss[..m])| && G.WholeOps(Flatten(jss[..m]), c)
    ensures k <= m && Flatten(jss[..m])[..c] == Flatten(jss[..k])
    decreases m
  {
    var all := Flatten(jss[..m]);
    if c == |all| {
      k := m;
    } else {
      var front := Flatten(jss[..m - 1]);
      FlattenNext(jss, m - 1);
      assert all == front + jss[m - 1];
      forall i | |front| <= i < |all| ensures all[i].op == ops[m - 1] {
        assert all[i] == jss[m - 1][i - |front|];
      }
      NotInside(all, |front|, ops[m - 1], c);
      assert forall i, j | 0 <= i < c <= j < |front| :: front[i] == all[i] && front[j] == all[j];
      k := CutBetween(jss, ops, m - 1, c);
      assert all[..c] == front[..c];
    }
  }

  lemma NotInside(js: seq<G.Entry>, from: nat, op: nat, c: nat)
    requires from <= |js| && c < |js| && G.WholeOps(js, c) && forall i | from <= i < |js| :: js[i].op == op
    ensures c <= from
  {
    assert from < |js| ==> js[from].op == op;
    assert c >= from ==> js[c].op == op;
  }

  /**
   What the run has asked to be logged is the entries of the first m transactions and some of the next
   one's, and the operation that has not logged all of its blocks has not ended.
   */
  ghost predicate Follows(g: Geometry, disk: Disk, es: seq<G.Event>, jss: seq<seq<G.Entry>>, ops: seq<nat>, m: nat, part: seq<G.Entry>) {
    && OneOpEach(jss, ops) && m < |jss| && part <= jss[m]
    && H.Updates(g, disk, es) == Flatten(jss[..m]) + part
    && (part != jss[m] ==> part == [] || G.Live(G.Run(g, G.Boot(disk), es), ops[m]))
  }

  lemma KeptIsWhole(g: Geometry, disk: Disk, es: seq<G.Event>, c: nat,
                    jss: seq<seq<G.Entry>>, ops: seq<nat>, m: nat, part: seq<G.Entry>) returns (k: nat)
    requires Follows(g, disk, es, jss, ops, m, part) && c <= |H.Updates(g, disk, es)| && G.WholeOps(H.Updates(g, disk, es), c)
    requires forall i | 0 <= i < c :: !G.Live(G.Run(g, G.Boot(disk), es), H.Updates(g, disk, es)[i].op)
    ensures k <= m + 1 && H.Updates(g, disk, es)[..c] == Flatten(jss[..k])
  {
    hide G.Live, G.Run, H.Updates;
    var us := H.Updates(g, disk, es);
    var front := Flatten(jss[..m]);
    if part == jss[m] {
      FlattenNext(jss, m);
      k := CutBetween(jss, ops, m + 1, c);
    } else {
      assert part != [] ==> us[|front|] == jss[m][0];
      assert c <= |front|;
      assert forall i | 0 <= i < |front| :: us[i] == front[i];
      k := CutBetween(jss, ops, m, c);
      assert us[..c] == front[..c];
    }
  }

  /**
   filewrite under a crash. The transactions ts of a call are logged one after the other while the
   machine runs; wherever it stops, and however often recovery is itself interrupted, the recovered
   disk holds the file system as the first k transactions left it, for some k: blocks are owned
   exactly, other files are as they were, and the file is the old one with the first done[k-1] bytes
   of the source laid over it. In a file without holes the inodes found on disk are the current ones.
   */
  lemma FileWriteSurvivesCrash(g: Geometry, l: Layout, enc: Sector -> Block, disk: Disk, es: seq<G.Event>, crashes: seq<nat>,
                               f: FS, d: map<nat, Inode>, inum: nat, off: nat, src: seq<Byte>,
                               ts: seq<Transaction>, done: seq<nat>,
                               jss: seq<seq<G.Entry>>, ops: seq<nat>, m: nat, part: seq<G.Entry>) returns (k: nat)
    requires Clean(g, disk) && G.StaysInside(g, G.Boot(disk), es) && Represents(g, l, enc, disk, f, d)
    requires Transactions(l, f, d, inum, off, src, ts, done) && JournalsAll(g, l, enc, f, d, ts, jss)
    requires Follows(g, disk, es, jss, ops, m, part)
    ensures k <= m + 1 <= |ts|
    ensures var s := G.Run(g, G.Boot(disk), es);
            && WellFormed(g, s.disk)
            && Represents(g, l, enc, RecoverAfter(g, s.disk, crashes), StateAt(f, ts, k), DinodesAt(d, ts, k))
    ensures |done| == |ts| && Advanced(l, f, StateAt(f, ts, k), inum, off, src, if k == 0 then 0 else done[k - 1])
    ensures Owned(l, f) && inum in f.inodes && (NoHoles(l, f, inum) && d == f.inodes ==> DinodesAt(d, ts, k) == StateAt(f, ts, k).inodes)
  {
    hide Represents, Owned, Advanced, NoHoles, JournalsAll, Complete, G.StaysInside, Follows, G.Live, G.Run, H.Updates, G.WholeOps, SameHome;
    H.CrashYieldsWholeOperations(g, disk, es, crashes);
    k := KeptIsWhole(g, disk, es, H.Kept(g, disk, es), jss, ops, m, part);
    FollowsBound(g, disk, es, jss, ops, m, part);
    JournalsBound(g, l, enc, f, d, ts, jss);
    PrefixReplays(g, l, enc, disk, f, d, ts, jss, k);
    SameHomeRepresents(g, l, enc, G.Replay(g, disk, Flatten(jss[..k])),
                       RecoverAfter(g, G.Run(g, G.Boot(disk), es).disk, crashes), StateAt(f, ts, k), DinodesAt(d, ts, k));
    StateAfter(l, f, d, inum, off, src, ts, done, k);
  }

  lemma FollowsBound(g: Geometry, disk: Disk, es: seq<G.Event>, jss: seq<seq<G.Entry>>, ops: seq<nat>, m: nat, part: seq<G.Entry>)
    requires Follows(g, disk, es, jss, ops, m, part)
    ensures m < |jss|
  {
  }

  lemma JournalsBound(g: Geometry, l: Layout, enc: Sector -> Block, f: FS, d: map<nat, Inode>,
                      ts: seq<Transaction>, jss: seq<seq<G.Entry>>)
    requires JournalsAll(g, l, enc, f, d, ts, jss)
    ensures |jss| == |ts|
  {
  }

  lemma SameHomeRepresents(g: Geometry, l: Layout, enc: Sector -> Block, disk: Disk, disk': Disk, f: FS, d: map<nat, Inode>)
    requires Represents(g, l, enc, disk, f, d) && SameHome(g, disk', disk)
    ensures Represents(g, l, enc, disk', f, d)
  {
    hide SectorAt;
  }

  lemma StateAfter(l: Layout, f: FS, d: map<nat, Inode>, inum: nat, off: nat, src: seq<Byte>,
                   ts: seq<Transaction>, done: seq<nat>, k: nat)
    requires Transactions(l, f, d, inum, off, src, ts, done) && k <= |ts|
    ensures Owned(l, f) && inum in f.inodes && |done| == |ts|
    ensures Advanced(l, f, StateAt(f, ts, k), inum, off, src, if k == 0 then 0 else done[k - 1])
    ensures NoHoles(l, f, inum) && d == f.inodes ==> DinodesAt(d, ts, k) == StateAt(f, ts, k).inodes
  {
    hide Owned, Advanced, NoHoles, Complete;
    if k == 0 {
      NotYetAdvanced(l, f, inum, off, src);
    } else {
      assert TransactionOk(l, f, d, inum, off, src, ts, k - 1, done[k - 1]);
    }
  }
}
