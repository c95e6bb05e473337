/**
 The log pins the blocks of a transaction in the buffer cache, and commit needs buffers besides.
 There are as many buffers as a header may record blocks, so whether commit gets them depends on
 the size of the log.
 */
module BufPins {
  import opened BufCache
  import opened Common
  import G = GroupCommit
  import R = RedoLog
  import Storage

  const NBUF: nat := R.MAXOPBLOCKS * 3

  /** The dirty buffers are those of bs, and they hold the blocks of h. */
  ghost predicate Pins(s: Sys, h: seq<Key>, bs: seq<int>) {
    && |bs| == |h| && Distinct(h)
    && (forall i | 0 <= i < |h| :: 0 <= bs[i] < |s.bufs| && s.bufs[bs[i]].key == h[i] && s.bufs[bs[i]].dirty)
    && (forall b | 0 <= b < |s.bufs| && s.bufs[b].dirty :: b in bs)
  }

  ghost predicate Uncached(s: Sys, k: Key) {
    forall b | 0 <= b < |s.bufs| :: s.bufs[b].key != k
  }

  lemma {:induction false} Below(n: nat) returns (all: set<int>)
    ensures |all| == n && forall b :: b in all <==> 0 <= b < n
  {
    if n == 0 {
      all := {};
    } else {
      var rest := Below(n - 1);
      all := rest + {n - 1};
    }
  }

  /** Every buffer is pinned exactly when as many blocks are pinned as there are buffers. */
  lemma AllPinnedIff(s: Sys, h: seq<Key>, bs: seq<int>)
    requires Pins(s, h, bs)
    ensures |h| <= |s.bufs|
    ensures (forall b | 0 <= b < |s.bufs| :: s.bufs[b].dirty) <==> |h| == |s.bufs|
  {
    assert Distinct(bs) by {
      forall i, j | 0 <= i < j < |bs| ensures bs[i] != bs[j] {
        assert h[i] != h[j];
      }
    }
    DistinctSize(bs);
    var all := Below(|s.bufs|);
    assert Elements(bs) <= all;
    assert all == Elements(bs) + (all - Elements(bs));
    if |h| == |s.bufs| {
      SubsetSize(Elements(bs), all);
      forall b | 0 <= b < |s.bufs| ensures s.bufs[b].dirty {
        assert b in Elements(bs);
        var i :| 0 <= i < |bs| && bs[i] == b;
      }
    }
    if forall b | 0 <= b < |s.bufs| :: s.bufs[b].dirty {
      forall b | b in all ensures b in Elements(bs) {
      }
    }
  }

  /**
   When no one else uses a buffer, write_log and install_trans get one for a log block that is not
   cached if and only if fewer blocks are pinned than there are buffers; the block to be copied is
   pinned and so always at hand.
   */
  lemma CommitGetsBuffersIff(s: Sys, h: seq<Key>, bs: seq<int>, r: int, k: Key)
    requires StructInv(s) && Pins(s, h, bs) && s.refs == map[] && k in s.disk && Uncached(s, k)
    ensures Enabled(s, Get(r, k)) <==> |h| < |s.bufs|
  {
    hide StructInv;
    AllPinnedIff(s, h, bs);
    NobodyUses(s);
    RefusesIff(s, r, k);
  }

  lemma NobodyUses(s: Sys)
    requires StructInv(s) && s.refs == map[]
    ensures OrderInv(s) && forall b | 0 <= b < |s.bufs| :: s.bufs[b].refcnt == 0
  {
    forall b | 0 <= b < |s.bufs| ensures s.bufs[b].refcnt == 0 {
      assert RefsOf(s.refs, b) == {};
    }
  }

  /** A pinned block is always at hand: it is found in its own buffer, also while the log block is held. */
  lemma PinnedAtHand(s: Sys, h: seq<Key>, bs: seq<int>, q: int, i: nat)
    requires StructInv(s) && Pins(s, h, bs) && i < |h| && q !in s.refs && h[i] in s.disk
    ensures Enabled(s, Get(q, h[i]))
    ensures var s' := Do(s, Get(q, h[i]));
            q in s'.refs && 0 <= s'.refs[q].b < |s'.bufs| && s'.bufs[s'.refs[q].b].key == h[i]
            && |s'.bufs| == |s.bufs| && forall b | 0 <= b < |s.bufs| :: s'.bufs[b].key == s.bufs[b].key && s'.bufs[b].data == s.bufs[b].data
  {
    FindKeyMeans(s.order, s.bufs, h[i]);
    assert bs[i] in s.order;
    assert s.bufs[bs[i]].key == h[i];
    var c := FindKey(s.order, s.bufs, h[i]);
    hide FindKey, FindVictim, FirstOnly, Descending, RefInv;
  }

  /** With the log that mkfs makes, and the guard of log_write not raced, a transaction leaves a buffer over. */
  lemma MkfsLogLeavesABuffer(g: R.Geometry, d: Storage.Disk, es: seq<G.Event>)
    requires g.size == R.LOGSIZE && R.Clean(g, d) && G.OneAtATime(g, G.Boot(d), es)
    ensures |G.Run(g, G.Boot(d), es).h| < NBUF
  {
    G.OneAtATimeStaysInside(g, G.Boot(d), es);
    InsideAtEnd(g, G.Boot(d), es);
  }

  lemma {:induction false} InsideAtEnd(g: R.Geometry, s: G.State, es: seq<G.Event>)
    requires G.StaysInside(g, s, es)
    ensures G.Inside(g, G.Run(g, s, es))
    decreases |es|
  {
    if es != [] {
      InsideAtEnd(g, G.Do(g, s, es[0]), es[1..]);
    }
  }

  /** With a log that is large enough for a full header, a transaction can pin every buffer. */
  lemma LargerLogCanPinAll(g: R.Geometry, d: Storage.Disk, bs: seq<nat>, data: Storage.Block) returns (es: seq<G.Event>)
    requires G.Roomy(g) && R.Clean(g, d) && G.Spread(g, bs)
    ensures |G.Run(g, G.Boot(d), es).h| == NBUF
  {
    G.FillRun(g, d, bs, data, R.LOGSIZE);
    es := G.FillEvents(bs, data, R.LOGSIZE);
  }
}
