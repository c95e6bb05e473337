/**
 What reaches the disk through the buffer cache, told from the events of a run alone: the last change
 a client made to a block, the last one that bwrite carried to the disk, and whether log_write has
 pinned the block since.
 */
module BufDisk {
  import opened BufCache

  /** Event e is a client's access to block k that takes place. */
  ghost predicate On(s: Sys, e: Event, k: Key) {
    (e.Write? || e.Mark? || e.BWrite?) && Enabled(s, e) && s.bufs[s.refs[e.r].b].key == k
  }

  /** The contents that clients last gave block k, or those it had at the start. */
  ghost function LastWrite(s0: Sys, es: seq<Event>, k: Key): Block
    requires k in s0.store
    decreases |es|
  {
    if es == [] then s0.store[k]
    else
      var n := |es| - 1;
      if es[n].Write? && On(Run(s0, es[..n]), es[n], k) then es[n].x else LastWrite(s0, es[..n], k)
  }

  /** The contents of block k at its last bwrite, or those it had at the start. */
  ghost function LastSave(s0: Sys, es: seq<Event>, k: Key): Block
    requires k in s0.store
    decreases |es|
  {
    if es == [] then s0.store[k]
    else
      var n := |es| - 1;
      if es[n].BWrite? && On(Run(s0, es[..n]), es[n], k) then LastWrite(s0, es[..n], k) else LastSave(s0, es[..n], k)
  }

  /** Block k has been marked since its last bwrite. */
  ghost predicate Pinned(s0: Sys, es: seq<Event>, k: Key)
    decreases |es|
  {
    es != [] &&
    var n := |es| - 1;
    if !es[n].Write? && On(Run(s0, es[..n]), es[n], k) then es[n].Mark? else Pinned(s0, es[..n], k)
  }

  lemma RunLast(s0: Sys, es: seq<Event>)
    requires es != []
    ensures Run(s0, es) == Do(Run(s0, es[..|es| - 1]), es[|es| - 1])
  {
    hide Do;
    var n := |es| - 1;
    assert es == es[..n] + [es[n]] && [es[n]][1..] == [];
    RunConcat(s0, es[..n], [es[n]]);
    assert Run(Run(s0, es[..n]), [es[n]]) == Run(Do(Run(s0, es[..n]), es[n]), []);
  }

  lemma {:induction false} DisciplinedFirst(s: Sys, a: seq<Event>, b: seq<Event>)
    requires Disciplined(s, a + b)
    ensures Disciplined(s, a)
    decreases |a|
  {
    hide Do, Saved;
    if a != [] {
      assert (a + b)[1..] == a[1..] + b && (a + b)[0] == a[0];
      DisciplinedFirst(Do(s, a[0]), a[1..], b);
    }
  }

  // ---- one step ----

  /** The buffer a client holds and what is known of it. */
  lemma HeldBuffer(s: Sys, r: int)
    requires StructInv(s) && DataInv(s) && Loaded(s, r)
    ensures var b := s.bufs[s.refs[r].b]; b.key in s.disk && b.key in s.store && b.data == s.store[b.key]
  {
    hide StructInv;
  }

  lemma StepDisk(s: Sys, e: Event, k: Key)
    requires StructInv(s) && DataInv(s) && k in s.disk && k in s.store
    ensures var s' := Do(s, e);
            && k in s'.disk && k in s'.store
            && s'.store[k] == (if e.Write? && On(s, e, k) then e.x else s.store[k])
            && s'.disk[k] == (if e.BWrite? && On(s, e, k) then s.store[k] else s.disk[k])
  {
    hide StructInv, Without, Chosen, DataInv, Granted;
    if Enabled(s, e) && e.BWrite? {
      HeldBuffer(s, e.r);
    }
  }

  // ---- every run ----

  /** In every disciplined run the store is what clients last wrote, and the disk what bwrite last carried there. */
  lemma {:induction false} DiskIsLastSave(n: nat, disk: map<Key, Block>, es: seq<Event>, k: Key)
    requires Disciplined(Boot(n, disk), es) && k in disk
    ensures var s := Run(Boot(n, disk), es);
            && k in s.disk && k in s.store
            && s.store[k] == LastWrite(Boot(n, disk), es, k)
            && s.disk[k] == LastSave(Boot(n, disk), es, k)
    decreases |es|
  {
    hide Do, On, StructInv, DataInv, Run, Disciplined;
    var s0 := Boot(n, disk);
    if es == [] {
      assert Run(s0, []) == s0 by { NoRun(s0); }
    } else {
      var m := |es| - 1;
      assert es == es[..m] + [es[m]];
      DisciplinedFirst(s0, es[..m], [es[m]]);
      DiskIsLastSave(n, disk, es[..m], k);
      BootInv(n, disk);
      RunKeepsData(s0, es[..m]);
      StepDisk(Run(s0, es[..m]), es[m], k);
      RunLast(s0, es);
    }
  }

  lemma NoRun(s: Sys)
    ensures Run(s, []) == s
  {
  }

  /** A client that has a buffer loaded sees the last change any client made to its block. */
  lemma ReadsLastWrite(n: nat, disk: map<Key, Block>, es: seq<Event>, r: int)
    requires Disciplined(Boot(n, disk), es) && Loaded(Run(Boot(n, disk), es), r)
    ensures var s := Run(Boot(n, disk), es);
            var b := s.bufs[s.refs[r].b];
            b.key in disk && b.data == LastWrite(Boot(n, disk), es, b.key)
  {
    hide Do, Run, Disciplined, LastWrite, StructInv;
    var s0 := Boot(n, disk);
    var s := Run(s0, es);
    BootInv(n, disk);
    RunKeepsData(s0, es);
    RunKeepsKeys(s0, es);
    DiskIsLastSave(n, disk, es, s.bufs[s.refs[r].b].key);
  }

  lemma {:induction false} RunKeepsKeys(s: Sys, es: seq<Event>)
    requires StructInv(s) && DataInv(s) && Disciplined(s, es)
    ensures Run(s, es).disk.Keys == s.disk.Keys
    decreases |es|
  {
    hide Do, Saved, StructInv, DataInv;
    if es != [] {
      StepKeepsStruct(s, es[0]);
      StepKeepsData(s, es[0]);
      StepKeys(s, es[0]);
      RunKeepsKeys(Do(s, es[0]), es[1..]);
    }
  }

  lemma StepKeys(s: Sys, e: Event)
    requires StructInv(s) && DataInv(s)
    ensures Do(s, e).disk.Keys == s.disk.Keys
  {
    hide StructInv, Without, Chosen, DataInv, Granted;
    if Enabled(s, e) && e.BWrite? {
      HeldBuffer(s, e.r);
    }
  }

  /**
   bwrite reaches the disk: in every disciplined run, afterwards the disk holds what was last
   written to the block, the buffer is clean, and no other block and no other buffer has changed.
   */
  lemma WrittenThrough(n: nat, disk: map<Key, Block>, es: seq<Event>, r: int)
    requires Disciplined(Boot(n, disk), es) && Enabled(Run(Boot(n, disk), es), BWrite(r))
    ensures var s := Run(Boot(n, disk), es);
            var s' := Do(s, BWrite(r));
            var b := s.refs[r].b;
            var k := s.bufs[b].key;
            && k in s'.disk && k in s'.store && s'.disk[k] == s'.store[k] && s'.store == s.store
            && |s'.bufs| == |s.bufs| && !s'.bufs[b].dirty && s'.bufs[b] == s.bufs[b].(dirty := false)
            && (forall c | 0 <= c < |s.bufs| && c != b :: s'.bufs[c] == s.bufs[c])
            && s'.disk.Keys == s.disk.Keys && (forall q | q in s.disk && q != k :: s'.disk[q] == s.disk[q])
            && s'.refs == s.refs && s'.order == s.order
  {
    hide Run, Disciplined, StructInv, Without, Chosen;
    BootInv(n, disk);
    RunKeepsData(Boot(n, disk), es);
    HeldBuffer(Run(Boot(n, disk), es), r);
  }

  // ---- pinning ----

  ghost predicate DirtyAt(s: Sys, k: Key) {
    exists b :: 0 <= b < |s.bufs| && s.bufs[b].dirty && s.bufs[b].key == k
  }

  /** The buffers a step leaves alone, and what it does to the one it touches. */
  lemma StepBuffer(s: Sys, e: Event) returns (b: int)
    requires StructInv(s) && Enabled(s, e)
    ensures 0 <= b < |s.bufs| == |Do(s, e).bufs|
    ensures forall c | 0 <= c < |s.bufs| && c != b :: Do(s, e).bufs[c] == s.bufs[c]
    ensures var o, o' := s.bufs[b], Do(s, e).bufs[b];
            && (e.Mark? ==> o'.dirty && On(s, e, o.key))
            && (e.BWrite? ==> !o'.dirty && On(s, e, o.key) && Alone(s, b))
            && (!e.Mark? && !e.BWrite? ==> o'.dirty == o.dirty)
            && (o.dirty || !e.Get? ==> o'.key == o.key)
            && (e.Mark? || e.BWrite? || e.Write? ==> b == s.refs[e.r].b)
  {
    hide Without, FirstOnly, OrderInv, RefInv, Chosen;
    match e
    case Get(r, k) => b := GetChoice(s, r, k);
    case BWrite(r) =>
      b := s.refs[r].b;
      ClientAlone(s, r);
    case _ => b := s.refs[e.r].b;
  }

  lemma StepDirty(s: Sys, e: Event, k: Key)
    requires StructInv(s)
    ensures DirtyAt(Do(s, e), k) <==> if !e.Write? && On(s, e, k) then e.Mark? else DirtyAt(s, k)
  {
    hide Do, Enabled, OrderInv, RefInv, FirstOnly;
    if Enabled(s, e) {
      var b := StepBuffer(s, e);
      var s' := Do(s, e);
      if DirtyAt(s, k) {
        var c :| 0 <= c < |s.bufs| && s.bufs[c].dirty && s.bufs[c].key == k;
        assert c != b || e.BWrite? || (s'.bufs[c].dirty && s'.bufs[c].key == k);
      }
      if DirtyAt(s', k) {
        var c :| 0 <= c < |s'.bufs| && s'.bufs[c].dirty && s'.bufs[c].key == k;
        assert c != b ==> s.bufs[c].dirty && s.bufs[c].key == k;
      }
      assert e.Mark? ==> s'.bufs[b].dirty;
    } else {
      NoStep(s, e);
    }
  }

  lemma NoStep(s: Sys, e: Event)
    requires !Enabled(s, e)
    ensures Do(s, e) == s
  {
  }

  /** In every run a block is dirty in the cache exactly if it has been marked since its last bwrite. */
  lemma {:induction false} DirtyIffPinned(n: nat, disk: map<Key, Block>, es: seq<Event>, k: Key)
    ensures DirtyAt(Run(Boot(n, disk), es), k) <==> Pinned(Boot(n, disk), es, k)
    decreases |es|
  {
    hide Do, On, StructInv, Run;
    var s0 := Boot(n, disk);
    if es == [] {
      NoRun(s0);
    } else {
      var m := |es| - 1;
      DirtyIffPinned(n, disk, es[..m], k);
      BootInv(n, disk);
      RunKeepsStruct(s0, es[..m]);
      StepDirty(Run(s0, es[..m]), es[m], k);
      RunLast(s0, es);
    }
  }

  /** No bwrite of block k takes place in this run. */
  ghost predicate Unsaved(s: Sys, es: seq<Event>, k: Key)
    decreases |es|
  {
    es == [] || (!(es[0].BWrite? && On(s, es[0], k)) && Unsaved(Do(s, es[0]), es[1..], k))
  }

  /** A pinned buffer keeps its block and cannot be recycled until some bwrite of the block. */
  lemma {:induction false} PinnedStays(s: Sys, es: seq<Event>, b: int)
    requires StructInv(s) && 0 <= b < |s.bufs| && s.bufs[b].dirty && Unsaved(s, es, s.bufs[b].key)
    ensures var s' := Run(s, es);
            |s'.bufs| == |s.bufs| && s'.bufs[b].dirty && s'.bufs[b].key == s.bufs[b].key && !Eligible(s'.bufs[b])
    decreases |es|
  {
    hide Do, Enabled, StructInv;
    if es != [] {
      StepKeepsStruct(s, es[0]);
      if Enabled(s, es[0]) {
        var c := StepBuffer(s, es[0]);
      } else {
        NoStep(s, es[0]);
      }
      PinnedStays(Do(s, es[0]), es[1..], b);
    }
  }

  /** After log_write has marked a buffer, in any run, it stays cached and dirty until a bwrite of its block. */
  lemma MarkPins(n: nat, disk: map<Key, Block>, es: seq<Event>, r: int, later: seq<Event>)
    requires Enabled(Run(Boot(n, disk), es), Mark(r))
    requires var s := Run(Boot(n, disk), es); Unsaved(Do(s, Mark(r)), later, s.bufs[s.refs[r].b].key)
    ensures var s := Run(Boot(n, disk), es);
            var b := s.refs[r].b;
            var s' := Run(Do(s, Mark(r)), later);
            |s'.bufs| == |s.bufs| && s'.bufs[b].dirty && s'.bufs[b].key == s.bufs[b].key && !Eligible(s'.bufs[b])
  {
    hide Run, Unsaved, StructInv;
    BootInv(n, disk);
    RunKeepsStruct(Boot(n, disk), es);
    var s := Run(Boot(n, disk), es);
    StepKeepsStruct(s, Mark(r));
    PinnedStays(Do(s, Mark(r)), later, s.refs[r].b);
  }
}
