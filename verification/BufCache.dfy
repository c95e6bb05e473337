/**
 The buffer cache of bio.c. Any number of clients get, lock, change, write and release buffers,
 interleaved at the points where bio.c takes and drops bcache.lock and the buffers' sleep locks.
 The cache keeps its buffers in order of last release and must behave as if there were no cache.
 */
module BufCache {
  import opened Common

  type Block = seq<int>

  datatype Key = Key(dev: nat, bn: nat)

  datatype Buf = Buf(key: Key, valid: bool, dirty: bool, refcnt: nat, locked: bool, data: Block)

  // ---- the two searches of bget ----

  ghost predicate InRange(order: seq<int>, bufs: seq<Buf>) {
    forall i | 0 <= i < |order| :: 0 <= order[i] < |bufs|
  }

  /** The first buffer in the list that holds block k. */
  ghost function FindKey(order: seq<int>, bufs: seq<Buf>, k: Key): Option<int>
    requires InRange(order, bufs)
  {
    if order == [] then None
    else if bufs[order[0]].key == k then Some(order[0])
    else FindKey(order[1..], bufs, k)
  }

  /** A buffer nobody uses and that log.c has not pinned by marking it dirty. */
  predicate Eligible(b: Buf) { b.refcnt == 0 && !b.dirty }

  /** The last eligible buffer in the list. */
  ghost function FindVictim(order: seq<int>, bufs: seq<Buf>): Option<int>
    requires InRange(order, bufs)
  {
    if order == [] then None
    else if Eligible(bufs[order[|order| - 1]]) then Some(order[|order| - 1])
    else FindVictim(order[..|order| - 1], bufs)
  }

  lemma {:induction false} FindKeyMeans(order: seq<int>, bufs: seq<Buf>, k: Key)
    requires InRange(order, bufs)
    ensures var f := FindKey(order, bufs, k);
            if f.None? then forall i | 0 <= i < |order| :: bufs[order[i]].key != k
            else exists i ::
                && 0 <= i < |order| && order[i] == f.value && bufs[order[i]].key == k
                && forall j | 0 <= j < i :: bufs[order[j]].key != k
  {
    if order != [] && bufs[order[0]].key != k {
      FindKeyMeans(order[1..], bufs, k);
      var f := FindKey(order[1..], bufs, k);
      if f.Some? {
        var i :| 0 <= i < |order[1..]| && order[1..][i] == f.value && bufs[order[1..][i]].key == k
                 && forall j | 0 <= j < i :: bufs[order[1..][j]].key != k;
        forall j | 0 <= j < i + 1 ensures bufs[order[j]].key != k {
          assert j > 0 ==> order[j] == order[1..][j - 1];
        }
        assert order[i + 1] == f.value;
      } else {
        forall j | 0 <= j < |order| ensures bufs[order[j]].key != k {
          assert j > 0 ==> order[j] == order[1..][j - 1];
        }
      }
    }
  }

  lemma {:induction false} FindVictimMeans(order: seq<int>, bufs: seq<Buf>)
    requires InRange(order, bufs)
    ensures var f := FindVictim(order, bufs);
            if f.None? then forall i | 0 <= i < |order| :: !Eligible(bufs[order[i]])
            else exists i ::
                && 0 <= i < |order| && order[i] == f.value && Eligible(bufs[order[i]])
                && forall j | i < j < |order| :: !Eligible(bufs[order[j]])
  {
    if order != [] && !Eligible(bufs[order[|order| - 1]]) {
      FindVictimMeans(order[..|order| - 1], bufs);
    }
  }

  /** bget's choice: the cached buffer or else a victim. */
  ghost function Chosen(order: seq<int>, bufs: seq<Buf>, k: Key): (r: Option<int>)
    requires InRange(order, bufs)
    ensures r.Some? ==> 0 <= r.value < |bufs|
  {
    FindKeyMeans(order, bufs, k);
    FindVictimMeans(order, bufs);
    var hit := FindKey(order, bufs, k);
    if hit.Some? then hit else FindVictim(order, bufs)
  }

  /** The chosen buffer gets one more user, after being recycled if it held another block. */
  function Granted(b: Buf, k: Key): Buf {
    if b.key == k then b.(refcnt := b.refcnt + 1)
    else b.(key := k, valid := false, dirty := false, refcnt := 1)
  }

  // ---- brelse's move to the head of the list ----

  function Without(order: seq<int>, b: int): seq<int> {
    if order == [] then []
    else if order[0] == b then order[1..]
    else [order[0]] + Without(order[1..], b)
  }

  lemma {:induction false} WithoutMeans(order: seq<int>, i: nat)
    requires i < |order| && Distinct(order)
    ensures Without(order, order[i]) == order[..i] + order[i + 1..]
  {
    if i > 0 {
      WithoutMeans(order[1..], i - 1);
      assert order[..i] + order[i + 1..] == [order[0]] + (order[1..][..i - 1] + order[1..][i..]);
    }
  }

  // ---- the system ----

  datatype Phase = Waiting | Holding | Dropping

  /** One client's use of a buffer, from bget to the end of brelse. */
  datatype Ref = Ref(b: int, phase: Phase)

  /** store is what an uncached disk would hold; stamps and clock time the releases that left a buffer unused. */
  datatype Sys = Sys(
    order: seq<int>, bufs: seq<Buf>, disk: map<Key, Block>, refs: map<int, Ref>,
    store: map<Key, Block>, stamps: seq<int>, clock: int)

  datatype Event =
    | Get(r: int, k: Key)      // bget up to acquiresleep
    | Lock(r: int)             // acquiresleep
    | Load(r: int)             // bread's iderw
    | Write(r: int, x: Block)  // the client changes the data
    | Mark(r: int)             // log_write pins the buffer
    | BWrite(r: int)           // bwrite
    | Unlock(r: int)           // brelse up to releasesleep
    | Drop(r: int)             // the rest of brelse

  ghost predicate Uses(s: Sys, r: int, phase: Phase) {
    r in s.refs && s.refs[r].phase == phase && 0 <= s.refs[r].b < |s.bufs|
  }

  ghost predicate Loaded(s: Sys, r: int) {
    Uses(s, r, Holding) && s.bufs[s.refs[r].b].valid
  }

  ghost predicate Enabled(s: Sys, e: Event) {
    match e
    // with neither a cached nor an eligible buffer, bget panics
    case Get(r, k) => r !in s.refs && k in s.disk && InRange(s.order, s.bufs)
                      && Chosen(s.order, s.bufs, k).Some?
    case Lock(r) => Uses(s, r, Waiting) && !s.bufs[s.refs[r].b].locked
    case Load(r) => Uses(s, r, Holding) && !s.bufs[s.refs[r].b].valid && s.bufs[s.refs[r].b].key in s.disk
    case Write(r, x) => Loaded(s, r)
    case Mark(r) => Loaded(s, r)
    case BWrite(r) => Loaded(s, r)
    case Unlock(r) => Loaded(s, r)
    case Drop(r) => Uses(s, r, Dropping) && s.bufs[s.refs[r].b].refcnt > 0 && |s.stamps| == |s.bufs|
  }

  ghost function SetBuf(s: Sys, b: int, buf: Buf): Sys
    requires 0 <= b < |s.bufs|
  {
    s.(bufs := s.bufs[b := buf])
  }

  ghost function GetStep(s: Sys, r: int, k: Key): Sys
    requires Enabled(s, Get(r, k))
  {
    var b := Chosen(s.order, s.bufs, k).value;
    SetBuf(s, b, Granted(s.bufs[b], k)).(refs := s.refs[r := Ref(b, Waiting)])
  }

  ghost function DropStep(s: Sys, r: int): Sys
    requires Enabled(s, Drop(r))
  {
    var b := s.refs[r].b;
    var n := s.bufs[b].refcnt - 1;
    var s' := SetBuf(s, b, s.bufs[b].(refcnt := n)).(refs := s.refs - {r});
    if n == 0 then s'.(order := [b] + Without(s.order, b), stamps := s.stamps[b := s.clock], clock := s.clock + 1)
    else s'
  }

  ghost function Do(s: Sys, e: Event): Sys {
    if !Enabled(s, e) then s
    else
      match e
      case Get(r, k) => GetStep(s, r, k)
      case Lock(r) =>
        var b := s.refs[r].b;
        SetBuf(s, b, s.bufs[b].(locked := true)).(refs := s.refs[r := Ref(b, Holding)])
      case Load(r) =>
        var b := s.refs[r].b;
        SetBuf(s, b, s.bufs[b].(valid := true, dirty := false, data := s.disk[s.bufs[b].key]))
      case Write(r, x) =>
        var b := s.refs[r].b;
        SetBuf(s, b, s.bufs[b].(data := x)).(store := s.store[s.bufs[b].key := x])
      case Mark(r) =>
        var b := s.refs[r].b;
        SetBuf(s, b, s.bufs[b].(dirty := true))
      case BWrite(r) =>
        var b := s.refs[r].b;
        SetBuf(s, b, s.bufs[b].(dirty := false)).(disk := s.disk[s.bufs[b].key := s.bufs[b].data])
      case Unlock(r) =>
        var b := s.refs[r].b;
        SetBuf(s, b, s.bufs[b].(locked := false)).(refs := s.refs[r := Ref(b, Dropping)])
      case Drop(r) => DropStep(s, r)
  }

  ghost function Run(s: Sys, es: seq<Event>): Sys
    decreases |es|
  {
    if es == [] then s else Run(Do(s, es[0]), es[1..])
  }

  /** The rule of bio.c's interface: a changed buffer is written, or pinned by the log, before it is released. */
  ghost predicate Saved(s: Sys, e: Event) {
    e.Unlock? && Enabled(s, e) ==>
      var b := s.bufs[s.refs[e.r].b];
      b.dirty || (b.key in s.disk && b.data == s.disk[b.key])
  }

  ghost predicate Disciplined(s: Sys, es: seq<Event>)
    decreases |es|
  {
    es == [] || (Saved(s, es[0]) && Disciplined(Do(s, es[0]), es[1..]))
  }

  /** binit pushes the buffers at the head of the list one by one; all of them claim to hold block 0 of device 0. */
  ghost function Boot(n: nat, disk: map<Key, Block>): Sys {
    Sys(seq(n, i => n - 1 - i), seq(n, i => Buf(Key(0, 0), false, false, 0, false, [])), disk, map[], disk,
        seq(n, i => i), n)
  }

  // ---- invariants ----

  ghost predicate Descending(order: seq<int>, stamps: seq<int>) {
    && (forall i | 0 <= i < |order| :: 0 <= order[i] < |stamps|)
    && (forall i, j | 0 <= i < j < |order| :: stamps[order[i]] > stamps[order[j]])
  }

  /** The list is a permutation of the buffers, latest release first. */
  ghost predicate OrderInv(s: Sys) {
    && |s.order| == |s.bufs| == |s.stamps|
    && InRange(s.order, s.bufs)
    && (forall b | 0 <= b < |s.bufs| :: b in s.order)
    && Descending(s.order, s.stamps)
    && (forall b | 0 <= b < |s.stamps| :: s.stamps[b] < s.clock)
  }

  ghost function RefsOf(refs: map<int, Ref>, b: int): set<int> {
    set r | r in refs && refs[r].b == b
  }

  ghost predicate Held(refs: map<int, Ref>, b: int) {
    exists r :: r in refs && refs[r] == Ref(b, Holding)
  }

  /** Reference counts count the clients, and a locked buffer has exactly one client that holds it. */
  ghost predicate RefInv(s: Sys) {
    && (forall r | r in s.refs :: 0 <= s.refs[r].b < |s.bufs|)
    && (forall b | 0 <= b < |s.bufs| :: s.bufs[b].refcnt == |RefsOf(s.refs, b)|)
    && (forall b | 0 <= b < |s.bufs| :: s.bufs[b].locked <==> Held(s.refs, b))
    && (forall r, q | r in s.refs && q in s.refs && s.refs[r].phase == Holding && s.refs[q] == s.refs[r] :: r == q)
  }

  /** Not used since binit. */
  ghost predicate Untouched(b: Buf) { !b.valid && b.refcnt == 0 }

  /** Of the buffers that claim to hold the same block, only the first in the list has been used. */
  ghost predicate FirstOnly(order: seq<int>, bufs: seq<Buf>) {
    && InRange(order, bufs)
    && (forall i, j | 0 <= i < j < |order| && bufs[order[i]].key == bufs[order[j]].key :: Untouched(bufs[order[j]]))
  }

  /** A block is cached once; the boot-time copies of block (0, 0) sit behind any real one. */
  ghost predicate KeyInv(s: Sys) {
    && FirstOnly(s.order, s.bufs)
    && (forall r | r in s.refs && s.refs[r].phase == Dropping && 0 <= s.refs[r].b < |s.bufs| :: s.bufs[s.refs[r].b].valid)
    && (forall b | 0 <= b < |s.bufs| :: Untouched(s.bufs[b]) ==> s.bufs[b].key == Key(0, 0))
    && (forall b | 0 <= b < |s.bufs| :: !Untouched(s.bufs[b]) ==> s.bufs[b].key in s.disk)
    && (forall b | 0 <= b < |s.bufs| :: s.bufs[b].dirty ==> s.bufs[b].valid)
    && s.disk.Keys == s.store.Keys
  }

  ghost predicate Cached(s: Sys, k: Key) {
    exists b :: 0 <= b < |s.bufs| && s.bufs[b].valid && s.bufs[b].key == k
  }

  /** The cache and the disk together are the uncached store. */
  ghost predicate DataInv(s: Sys) {
    && (forall b | 0 <= b < |s.bufs| && s.bufs[b].valid :: s.bufs[b].key in s.disk && s.bufs[b].key in s.store)
    && (forall b | 0 <= b < |s.bufs| && s.bufs[b].valid :: s.bufs[b].data == s.store[s.bufs[b].key])
    && (forall b | 0 <= b < |s.bufs| && s.bufs[b].valid && !s.bufs[b].dirty && !s.bufs[b].locked ::
          s.bufs[b].data == s.disk[s.bufs[b].key])
    && (forall k | k in s.disk && k in s.store && !Cached(s, k) :: s.disk[k] == s.store[k])
  }

  ghost predicate StructInv(s: Sys) {
    OrderInv(s) && RefInv(s) && KeyInv(s)
  }

  // ---- the list stays in order of last release ----

  /** Where an element of the moved list comes from. */
  function MovedFrom(i: nat, k: nat): nat {
    if i == 0 then k else if i <= k then i - 1 else i
  }

  lemma MoveToFront(order: seq<int>, k: nat)
    requires k < |order| && Distinct(order)
    ensures var o := [order[k]] + Without(order, order[k]);
            |o| == |order| && forall i | 0 <= i < |o| :: o[i] == order[MovedFrom(i, k)]
  {
    WithoutMeans(order, k);
    hide Without;
    var o := [order[k]] + Without(order, order[k]);
    forall i | 0 <= i < |o| ensures o[i] == order[MovedFrom(i, k)] {
    }
  }

  /** Moving a buffer to the front with the newest stamp keeps the list sorted. */
  lemma MovedDescends(order: seq<int>, stamps: seq<int>, k: nat, clock: int)
    requires k < |order| && Descending(order, stamps)
    requires forall b | 0 <= b < |stamps| :: stamps[b] < clock
    ensures Descending([order[k]] + Without(order, order[k]), stamps[order[k] := clock])
  {
    MoveToFront(order, k);
    hide Without;
    var o := [order[k]] + Without(order, order[k]);
    var t := stamps[order[k] := clock];
    forall i, j | 0 <= i < j < |o| ensures t[o[i]] > t[o[j]] {
      assert o[i] == order[MovedFrom(i, k)] && o[j] == order[MovedFrom(j, k)];
    }
  }

  lemma MovedCovers(order: seq<int>, k: nat, c: int)
    requires k < |order| && Distinct(order) && c in order
    ensures c in [order[k]] + Without(order, order[k])
  {
    MoveToFront(order, k);
    var i :| 0 <= i < |order| && order[i] == c;
    var j := if i == k then 0 else if i < k then i + 1 else i;
    assert MovedFrom(j, k) == i;
  }

  lemma DropKeepsOrder(s: Sys, r: int)
    requires OrderInv(s) && Enabled(s, Drop(r))
    ensures OrderInv(DropStep(s, r))
  {
    hide Without;
    var s' := DropStep(s, r);
    if s'.clock != s.clock {
      var b := s.refs[r].b;
      assert b in s.order;
      var k :| 0 <= k < |s.order| && s.order[k] == b;
      MovedDescends(s.order, s.stamps, k, s.clock);
      MoveToFront(s.order, k);
      forall c | 0 <= c < |s.bufs| ensures c in s'.order {
        MovedCovers(s.order, k, c);
      }
    }
  }

  lemma StepKeepsOrder(s: Sys, e: Event)
    requires OrderInv(s)
    ensures OrderInv(Do(s, e))
  {
    if Enabled(s, e) {
      match e
      case Get(r, k) => var _ := GetChoice(s, r, k);
      case Drop(r) => DropKeepsOrder(s, r);
      case _ =>
    }
  }

  // ---- references are counted ----

  lemma RefsOfAdd(refs: map<int, Ref>, r: int, x: Ref, b: int)
    requires r !in refs
    ensures |RefsOf(refs[r := x], b)| == |RefsOf(refs, b)| + (if x.b == b then 1 else 0)
  {
    assert RefsOf(refs[r := x], b) == RefsOf(refs, b) + (if x.b == b then {r} else {});
  }

  lemma RefsOfRemove(refs: map<int, Ref>, r: int, b: int)
    requires r in refs
    ensures |RefsOf(refs - {r}, b)| == |RefsOf(refs, b)| - (if refs[r].b == b then 1 else 0)
  {
    assert RefsOf(refs - {r}, b) == RefsOf(refs, b) - (if refs[r].b == b then {r} else {});
  }

  lemma RefsOfPhase(refs: map<int, Ref>, r: int, phase: Phase, b: int)
    requires r in refs
    ensures RefsOf(refs[r := refs[r].(phase := phase)], b) == RefsOf(refs, b)
  {
  }

  /** A new client of buffer b. */
  lemma AddKeepsRefs(s: Sys, s': Sys, r: int, b: int)
    requires RefInv(s) && r !in s.refs && 0 <= b < |s.bufs| == |s'.bufs|
    requires s'.refs == s.refs[r := Ref(b, Waiting)]
    requires s'.bufs[b].refcnt == s.bufs[b].refcnt + 1 && s'.bufs[b].locked == s.bufs[b].locked
    requires forall c | 0 <= c < |s.bufs| && c != b :: s'.bufs[c] == s.bufs[c]
    ensures RefInv(s')
  {
    forall c | 0 <= c < |s.bufs|
      ensures s'.bufs[c].refcnt == |RefsOf(s'.refs, c)| && (s'.bufs[c].locked <==> Held(s'.refs, c))
    {
      RefsOfAdd(s.refs, r, Ref(b, Waiting), c);
      if Held(s.refs, c) {
        var q :| q in s.refs && s.refs[q] == Ref(c, Holding);
        assert q in s'.refs && s'.refs[q] == Ref(c, Holding);
      }
    }
  }

  /** A client of b takes or gives up its lock. */
  lemma PhaseKeepsRefs(s: Sys, s': Sys, r: int, b: int, lock: bool)
    requires RefInv(s) && 0 <= b < |s.bufs| == |s'.bufs|
    requires r in s.refs && s.refs[r] == Ref(b, if lock then Waiting else Holding)
    requires lock ==> !s.bufs[b].locked
    requires s'.refs == s.refs[r := Ref(b, if lock then Holding else Dropping)]
    requires s'.bufs == s.bufs[b := s.bufs[b].(locked := lock)]
    ensures RefInv(s')
  {
    forall c | 0 <= c < |s.bufs|
      ensures s'.bufs[c].refcnt == |RefsOf(s'.refs, c)| && (s'.bufs[c].locked <==> Held(s'.refs, c))
    {
      RefsOfPhase(s.refs, r, if lock then Holding else Dropping, c);
      assert lock ==> s'.refs[r] == Ref(b, Holding);
      if c != b && Held(s.refs, c) {
        var q :| q in s.refs && s.refs[q] == Ref(c, Holding);
        assert q in s'.refs && s'.refs[q] == Ref(c, Holding);
      }
    }
  }

  lemma DropKeepsRefs(s: Sys, r: int)
    requires RefInv(s) && Enabled(s, Drop(r))
    ensures RefInv(DropStep(s, r))
  {
    var s' := DropStep(s, r);
    forall c | 0 <= c < |s.bufs|
      ensures s'.bufs[c].refcnt == |RefsOf(s'.refs, c)| && (s'.bufs[c].locked <==> Held(s'.refs, c))
    {
      RefsOfRemove(s.refs, r, c);
      if Held(s.refs, c) {
        var q :| q in s.refs && s.refs[q] == Ref(c, Holding);
        assert q in s'.refs && s'.refs[q] == Ref(c, Holding);
      }
    }
  }

  /** What Get does, whichever search finds the buffer. */
  lemma GetChoice(s: Sys, r: int, k: Key) returns (b: int)
    requires Enabled(s, Get(r, k))
    ensures 0 <= b < |s.bufs|
    ensures s.bufs[b].key == k || Eligible(s.bufs[b])
    ensures var s' := GetStep(s, r, k);
            && s'.refs == s.refs[r := Ref(b, Waiting)] && |s'.bufs| == |s.bufs|
            && s'.order == s.order && s'.stamps == s.stamps && s'.clock == s.clock
            && s'.disk == s.disk && s'.store == s.store
            && s'.bufs[b] == Granted(s.bufs[b], k)
            && s'.bufs[b].refcnt == s.bufs[b].refcnt + 1 && s'.bufs[b].locked == s.bufs[b].locked
            && (forall c | 0 <= c < |s.bufs| && c != b :: s'.bufs[c] == s.bufs[c])
  {
    FindKeyMeans(s.order, s.bufs, k);
    FindVictimMeans(s.order, s.bufs);
    b := Chosen(s.order, s.bufs, k).value;
  }

  lemma StepKeepsRefs(s: Sys, e: Event)
    requires RefInv(s)
    ensures RefInv(Do(s, e))
  {
    hide GetStep, DropStep;
    if Enabled(s, e) {
      var s' := Do(s, e);
      match e
      case Get(r, k) =>
        var b := GetChoice(s, r, k);
        hide RefInv;
        AddKeepsRefs(s, s', r, b);
      case Lock(r) =>
        hide RefInv;
        PhaseKeepsRefs(s, s', r, s.refs[r].b, true);
      case Unlock(r) =>
        hide RefInv;
        PhaseKeepsRefs(s, s', r, s.refs[r].b, false);
      case Drop(r) =>
        hide RefInv;
        DropKeepsRefs(s, r);
      case _ =>
        assert s'.refs == s.refs;
    }
  }

  // ---- each block is cached once ----

  lemma ClientTouches(s: Sys, r: int)
    requires RefInv(s) && r in s.refs
    ensures s.bufs[s.refs[r].b].refcnt > 0
  {
    assert r in RefsOf(s.refs, s.refs[r].b);
  }

  lemma GetKeepsFirst(s: Sys, r: int, k: Key)
    requires FirstOnly(s.order, s.bufs) && Distinct(s.order) && Enabled(s, Get(r, k))
    ensures FirstOnly(s.order, GetStep(s, r, k).bufs)
  {
    FindKeyMeans(s.order, s.bufs, k);
    FindVictimMeans(s.order, s.bufs);
    hide FindKey, FindVictim, Eligible;
    var bufs := GetStep(s, r, k).bufs;
    forall i, j | 0 <= i < j < |s.order| && bufs[s.order[i]].key == bufs[s.order[j]].key
      ensures Untouched(bufs[s.order[j]])
    {
      assert s.order[i] != s.order[j];
    }
  }

  lemma GetKeepsKeys(s: Sys, r: int, k: Key)
    requires StructInv(s) && Enabled(s, Get(r, k))
    ensures KeyInv(GetStep(s, r, k))
  {
    GetKeepsFirst(s, r, k);
    var b := GetChoice(s, r, k);
    var s' := GetStep(s, r, k);
    hide FirstOnly, GetStep;
    forall q | q in s'.refs && s'.refs[q].phase == Dropping ensures s'.bufs[s'.refs[q].b].valid {
      assert q in s.refs && s.refs[q].phase == Dropping;
      ClientTouches(s, q);
    }
  }

  lemma UsedKeepsFirst(order: seq<int>, bufs: seq<Buf>, b: int, buf: Buf)
    requires FirstOnly(order, bufs) && 0 <= b < |bufs| && !Untouched(bufs[b]) && buf.key == bufs[b].key
    ensures FirstOnly(order, bufs[b := buf])
  {
    var bufs' := bufs[b := buf];
    forall i, j | 0 <= i < j < |order| && bufs'[order[i]].key == bufs'[order[j]].key ensures Untouched(bufs'[order[j]]) {
      assert bufs[order[i]].key == bufs[order[j]].key;
    }
  }

  lemma MoveKeepsFirst(order: seq<int>, bufs: seq<Buf>, k: nat)
    requires FirstOnly(order, bufs) && Distinct(order) && k < |order| && !Untouched(bufs[order[k]])
    ensures FirstOnly([order[k]] + Without(order, order[k]), bufs)
  {
    MoveToFront(order, k);
    hide Without, Untouched;
    var o := [order[k]] + Without(order, order[k]);
    forall i, j | 0 <= i < j < |o| && bufs[o[i]].key == bufs[o[j]].key ensures Untouched(bufs[o[j]]) {
      var i', j' := MovedFrom(i, k), MovedFrom(j, k);
      assert o[i] == order[i'] && o[j] == order[j'];
    }
  }

  lemma DropKeepsKeys(s: Sys, r: int)
    requires StructInv(s) && Enabled(s, Drop(r))
    ensures KeyInv(DropStep(s, r))
  {
    var s' := DropStep(s, r);
    var b := s.refs[r].b;
    assert s.bufs[b].valid;
    assert s'.bufs == s.bufs[b := s'.bufs[b]] && s'.bufs[b].valid && s'.bufs[b].key == s.bufs[b].key;
    assert FirstOnly(s'.order, s'.bufs) by {
      UsedKeepsFirst(s.order, s.bufs, b, s'.bufs[b]);
      assert b in s.order;
      var k :| 0 <= k < |s.order| && s.order[k] == b;
      hide FirstOnly, Without;
      MoveKeepsFirst(s.order, s'.bufs, k);
    }
    hide FirstOnly, Without;
  }

  /** A client at work on its buffer does not change which block the buffer holds. */
  lemma ClientKeepsKeys(s: Sys, e: Event)
    requires StructInv(s) && Enabled(s, e) && !e.Get? && !e.Drop?
    ensures KeyInv(Do(s, e))
  {
    ClientTouches(s, e.r);
    var s' := Do(s, e);
    var b := s.refs[e.r].b;
    assert s'.order == s.order && s'.bufs == s.bufs[b := s'.bufs[b]];
    assert s'.bufs[b].key == s.bufs[b].key && s'.bufs[b].refcnt == s.bufs[b].refcnt;
    UsedKeepsFirst(s.order, s.bufs, b, s'.bufs[b]);
    hide FirstOnly, OrderInv, RefInv;
  }

  lemma StepKeepsStruct(s: Sys, e: Event)
    requires StructInv(s)
    ensures StructInv(Do(s, e))
  {
    hide OrderInv, RefInv, KeyInv;
    StepKeepsOrder(s, e);
    StepKeepsRefs(s, e);
    if Enabled(s, e) {
      match e
      case Get(r, k) => GetKeepsKeys(s, r, k);
      case Drop(r) => DropKeepsKeys(s, r);
      case _ => ClientKeepsKeys(s, e);
    }
  }

  // ---- the cache is invisible ----

  /** Two used buffers hold different blocks. */
  lemma UsedOnce(s: Sys, b: int, c: int)
    requires OrderInv(s) && KeyInv(s) && 0 <= b < |s.bufs| && 0 <= c < |s.bufs| && b != c
    requires !Untouched(s.bufs[b]) && !Untouched(s.bufs[c])
    ensures s.bufs[b].key != s.bufs[c].key
  {
    assert b in s.order && c in s.order;
    var i :| 0 <= i < |s.order| && s.order[i] == b;
    var j :| 0 <= j < |s.order| && s.order[j] == c;
  }

  lemma StillCached(s: Sys, s': Sys, b: int, q: Key)
    requires 0 <= b < |s.bufs| == |s'.bufs| && Cached(s, q)
    requires forall c | 0 <= c < |s.bufs| && c != b :: s'.bufs[c] == s.bufs[c]
    requires s.bufs[b].valid && s.bufs[b].key == q ==> s'.bufs[b].valid && s'.bufs[b].key == q
    ensures Cached(s', q)
  {
    var c :| 0 <= c < |s.bufs| && s.bufs[c].valid && s.bufs[c].key == q;
    assert s'.bufs[c].valid && s'.bufs[c].key == q;
  }

  lemma UnusedUnlocked(s: Sys, b: int)
    requires RefInv(s) && 0 <= b < |s.bufs| && s.bufs[b].refcnt == 0
    ensures !s.bufs[b].locked
  {
    assert RefsOf(s.refs, b) == {};
    assert forall h | h in s.refs :: h !in RefsOf(s.refs, b);
  }

  lemma GetKeepsData(s: Sys, r: int, k: Key)
    requires StructInv(s) && DataInv(s) && Enabled(s, Get(r, k))
    ensures DataInv(GetStep(s, r, k))
  {
    hide GetStep, FirstOnly, OrderInv, RefInv;
    var b := GetChoice(s, r, k);
    var s' := GetStep(s, r, k);
    if s.bufs[b].refcnt == 0 {
      UnusedUnlocked(s, b);
    }
    // a victim was clean and unused, so the disk has its contents
    forall q | q in s'.disk && q in s'.store && !Cached(s', q) ensures s'.disk[q] == s'.store[q] {
      if Cached(s, q) && !(s.bufs[b].valid && s.bufs[b].key == q) {
        StillCached(s, s', b, q);
      }
    }
  }

  /** The other buffers hold other blocks. */
  ghost predicate Alone(s: Sys, b: int) {
    && 0 <= b < |s.bufs|
    && forall c | 0 <= c < |s.bufs| && c != b && s.bufs[c].valid :: s.bufs[c].key != s.bufs[b].key
  }

  lemma ClientAlone(s: Sys, r: int)
    requires StructInv(s) && r in s.refs
    ensures Alone(s, s.refs[r].b)
  {
    ClientTouches(s, r);
    var b := s.refs[r].b;
    forall c | 0 <= c < |s.bufs| && c != b && s.bufs[c].valid ensures s.bufs[c].key != s.bufs[b].key {
      UsedOnce(s, b, c);
    }
  }

  /** Moving data between a client, its buffer and the disk. */
  lemma TransferKeepsData(s: Sys, e: Event)
    requires DataInv(s) && Enabled(s, e) && (e.Load? || e.Write? || e.BWrite?)
    requires Alone(s, s.refs[e.r].b) && s.bufs[s.refs[e.r].b].key in s.store
    requires !Cached(s, s.bufs[s.refs[e.r].b].key) || s.bufs[s.refs[e.r].b].valid
    requires s.bufs[s.refs[e.r].b].locked
    ensures DataInv(Do(s, e))
  {
    var b := s.refs[e.r].b;
    var s' := Do(s, e);
    assert s'.bufs == s.bufs[b := s'.bufs[b]] && s'.bufs[b].key == s.bufs[b].key;
    assert s'.bufs[b].valid && s'.bufs[b].locked;
    forall q | q in s'.disk && q in s'.store && !Cached(s', q) ensures s'.disk[q] == s'.store[q] {
      if Cached(s, q) {
        StillCached(s, s', b, q);
      }
      assert q != s.bufs[b].key;
    }
  }

  /** Taking and giving up locks, marking and dropping. */
  lemma ControlKeepsData(s: Sys, e: Event)
    requires DataInv(s) && Enabled(s, e) && Saved(s, e) && (e.Lock? || e.Mark? || e.Unlock? || e.Drop?)
    ensures DataInv(Do(s, e))
  {
    hide Without;
    var b := s.refs[e.r].b;
    var s' := Do(s, e);
    assert s'.bufs == s.bufs[b := s'.bufs[b]] && s'.disk == s.disk && s'.store == s.store;
    forall q | q in s'.disk && q in s'.store && !Cached(s', q) ensures s'.disk[q] == s'.store[q] {
      if Cached(s, q) {
        StillCached(s, s', b, q);
      }
    }
  }

  lemma StepKeepsData(s: Sys, e: Event)
    requires StructInv(s) && DataInv(s) && Saved(s, e)
    ensures DataInv(Do(s, e))
  {
    if Enabled(s, e) {
      match e
      case Get(r, k) =>
        hide *;
        GetKeepsData(s, r, k);
      case Lock(_) => hide *; ControlKeepsData(s, e);
      case Mark(_) => hide *; ControlKeepsData(s, e);
      case Unlock(_) => hide *; ControlKeepsData(s, e);
      case Drop(_) => hide *; ControlKeepsData(s, e);
      case _ =>
        HolderReady(s, e.r);
        hide StructInv, DataInv, Do;
        TransferKeepsData(s, e);
    }
  }

  lemma HolderReady(s: Sys, r: int)
    requires StructInv(s) && Uses(s, r, Holding)
    ensures var b := s.refs[r].b;
            && Alone(s, b) && s.bufs[b].locked && s.bufs[b].key in s.store
            && (!Cached(s, s.bufs[b].key) || s.bufs[b].valid)
  {
    ClientAlone(s, r);
    ClientTouches(s, r);
    assert s.refs[r] == Ref(s.refs[r].b, Holding);
  }

  // ---- every run ----

  lemma BootInv(n: nat, disk: map<Key, Block>)
    ensures StructInv(Boot(n, disk)) && DataInv(Boot(n, disk))
  {
    var s := Boot(n, disk);
    forall b | 0 <= b < n ensures b in s.order {
      assert s.order[n - 1 - b] == b;
    }
    forall b | 0 <= b < n ensures s.bufs[b].refcnt == |RefsOf(s.refs, b)| {
      assert RefsOf(s.refs, b) == {};
    }
  }

  lemma {:induction false} RunKeepsStruct(s: Sys, es: seq<Event>)
    requires StructInv(s)
    ensures StructInv(Run(s, es))
    decreases |es|
  {
    if es != [] {
      hide StructInv, Do;
      StepKeepsStruct(s, es[0]);
      RunKeepsStruct(Do(s, es[0]), es[1..]);
    }
  }

  lemma {:induction false} RunKeepsData(s: Sys, es: seq<Event>)
    requires StructInv(s) && DataInv(s) && Disciplined(s, es)
    ensures StructInv(Run(s, es)) && DataInv(Run(s, es))
    decreases |es|
  {
    if es != [] {
      hide StructInv, DataInv, Do, Saved;
      StepKeepsStruct(s, es[0]);
      StepKeepsData(s, es[0]);
      RunKeepsData(Do(s, es[0]), es[1..]);
    }
  }

  /** In every run no two buffers claim the same block, except that buffers unused since boot all claim block (0, 0). */
  lemma CachedOnce(n: nat, disk: map<Key, Block>, es: seq<Event>, b: int, c: int)
    requires var s := Run(Boot(n, disk), es); 0 <= b < |s.bufs| && 0 <= c < |s.bufs| && b != c
    ensures var s := Run(Boot(n, disk), es);
            s.bufs[b].key == s.bufs[c].key ==>
              s.bufs[b].key == Key(0, 0) && (Untouched(s.bufs[b]) || Untouched(s.bufs[c]))
  {
    BootInv(n, disk);
    RunKeepsStruct(Boot(n, disk), es);
    var s := Run(Boot(n, disk), es);
    if !Untouched(s.bufs[b]) && !Untouched(s.bufs[c]) {
      UsedOnce(s, b, c);
    }
  }

  /** Block k is not cached and every buffer is in use or pinned by the log. */
  ghost predicate NoRoom(s: Sys, k: Key) {
    forall b | 0 <= b < |s.bufs| :: s.bufs[b].key != k && !Eligible(s.bufs[b])
  }

  /** v is the least recently released of the buffers that may be recycled. */
  ghost predicate Oldest(s: Sys, v: int) {
    && 0 <= v < |s.bufs| == |s.stamps| && Eligible(s.bufs[v])
    && (forall b | 0 <= b < |s.bufs| && b != v && Eligible(s.bufs[b]) :: s.stamps[v] < s.stamps[b])
  }

  lemma RefusesIff(s: Sys, r: int, k: Key)
    requires OrderInv(s) && r !in s.refs && k in s.disk
    ensures Enabled(s, Get(r, k)) <==> !NoRoom(s, k)
  {
    FindKeyMeans(s.order, s.bufs, k);
    FindVictimMeans(s.order, s.bufs);
    if FindKey(s.order, s.bufs, k).None? && FindVictim(s.order, s.bufs).None? {
      forall b | 0 <= b < |s.bufs| ensures s.bufs[b].key != k && !Eligible(s.bufs[b]) {
        assert b in s.order;
      }
    }
  }

  lemma TakesOldest(s: Sys, k: Key)
    requires OrderInv(s) && FindKey(s.order, s.bufs, k).None? && FindVictim(s.order, s.bufs).Some?
    ensures Oldest(s, FindVictim(s.order, s.bufs).value)
    ensures forall b | 0 <= b < |s.bufs| :: s.bufs[b].key != k
  {
    FindKeyMeans(s.order, s.bufs, k);
    FindVictimMeans(s.order, s.bufs);
    var v := FindVictim(s.order, s.bufs).value;
    forall b | 0 <= b < |s.bufs|
      ensures s.bufs[b].key != k && (b != v && Eligible(s.bufs[b]) ==> s.stamps[v] < s.stamps[b])
    {
      assert b in s.order;
    }
  }

  /**
   In every run, bget panics exactly when the block is not cached and every buffer is in use or
   pinned; if it recycles a buffer, that one is the least recently released of those that are
   neither, and no other buffer changes.
   */
  lemma VictimIsOldest(n: nat, disk: map<Key, Block>, es: seq<Event>, r: int, k: Key)
    requires var s := Run(Boot(n, disk), es); r !in s.refs && k in s.disk
    ensures var s := Run(Boot(n, disk), es);
            && (Enabled(s, Get(r, k)) <==> !NoRoom(s, k))
            && (Enabled(s, Get(r, k)) ==>
                  var s' := Do(s, Get(r, k));
                  && r in s'.refs && 0 <= s'.refs[r].b < |s.bufs| == |s'.bufs|
                  && var v := s'.refs[r].b;
                  && s'.bufs[v].key == k && s'.bufs == s.bufs[v := s'.bufs[v]]
                  && (s.bufs[v].key != k ==> Oldest(s, v) && forall b | 0 <= b < |s.bufs| :: s.bufs[b].key != k))
  {
    BootInv(n, disk);
    RunKeepsStruct(Boot(n, disk), es);
    var s := Run(Boot(n, disk), es);
    RefusesIff(s, r, k);
    FindKeyMeans(s.order, s.bufs, k);
    if FindKey(s.order, s.bufs, k).None? && FindVictim(s.order, s.bufs).Some? {
      TakesOldest(s, k);
    }
    hide StructInv, NoRoom, Oldest, FindKey, FindVictim, Boot, Run;
  }

  /**
   The cache is invisible: in every disciplined run, a client that has a buffer loaded sees what
   was last written to its block, by whichever client, or the original contents.
   */
  lemma ReadsLatest(n: nat, disk: map<Key, Block>, es: seq<Event>, r: int)
    requires Disciplined(Boot(n, disk), es) && Loaded(Run(Boot(n, disk), es), r)
    ensures var s := Run(Boot(n, disk), es);
            var b := s.bufs[s.refs[r].b];
            b.key in s.store && b.data == s.store[b.key]
  {
    BootInv(n, disk);
    RunKeepsData(Boot(n, disk), es);
  }

  /** Dirty buffers stay cached until written, so the disk lags behind the store only where a buffer says so. */
  lemma DiskLags(n: nat, disk: map<Key, Block>, es: seq<Event>, k: Key)
    requires Disciplined(Boot(n, disk), es)
    ensures var s := Run(Boot(n, disk), es);
            k in s.disk && k in s.store && s.disk[k] != s.store[k] ==>
              exists b :: 0 <= b < |s.bufs| && s.bufs[b].valid && s.bufs[b].key == k && (s.bufs[b].dirty || s.bufs[b].locked)
  {
    BootInv(n, disk);
    RunKeepsData(Boot(n, disk), es);
    var s := Run(Boot(n, disk), es);
    if k in s.disk && k in s.store && s.disk[k] != s.store[k] {
      assert Cached(s, k);
      var b :| 0 <= b < |s.bufs| && s.bufs[b].valid && s.bufs[b].key == k;
      assert s.bufs[b].dirty || s.bufs[b].locked;
    }
  }

  /**
   The interface's rule is exactly what is needed. Whatever disciplined run came before, when the
   only user of a buffer releases it, the buffer can be recycled with the last write missing from
   the disk if and only if this release breaks the rule.
   */
  lemma UnsavedIsExposed(n: nat, disk: map<Key, Block>, es: seq<Event>, r: int)
    requires Disciplined(Boot(n, disk), es)
    requires var s := Run(Boot(n, disk), es); Loaded(s, r) && s.bufs[s.refs[r].b].refcnt == 1
    ensures var s := Run(Boot(n, disk), es);
            var b := s.refs[r].b;
            var k := s.bufs[b].key;
            var s' := Do(Do(s, Unlock(r)), Drop(r));
            && k in s'.disk && k in s'.store && b < |s'.bufs| && s'.bufs[b].key == k
            && (Eligible(s'.bufs[b]) && s'.disk[k] != s'.store[k] <==> !Saved(s, Unlock(r)))
  {
    hide FirstOnly, Descending, RefsOf, Held, Without, Run, Boot, Disciplined;
    BootInv(n, disk);
    RunKeepsData(Boot(n, disk), es);
    var s := Run(Boot(n, disk), es);
    var s1 := Do(s, Unlock(r));
    assert s1.refs[r] == Ref(s.refs[r].b, Dropping) && Enabled(s1, Drop(r));
  }

  // ---- a forgotten write ----

  lemma {:induction false} RunConcat(s: Sys, a: seq<Event>, b: seq<Event>)
    ensures Run(s, a + b) == Run(Run(s, a), b)
    decreases |a|
  {
    if a == [] {
      assert a + b == b;
    } else {
      assert (a + b)[1..] == a[1..] + b;
      RunConcat(Do(s, a[0]), a[1..], b);
    }
  }

  lemma RunThree(s: Sys, a: Event, b: Event, c: Event)
    ensures Run(s, [a, b, c]) == Do(Do(Do(s, a), b), c)
    ensures Run(s, [a, b]) == Do(Do(s, a), b)
  {
    assert [a, b, c][1..] == [b, c] && [b, c][1..] == [c] && [c][1..] == [] && [a, b][1..] == [b] && [b][1..] == [];
    assert Run(Do(Do(s, a), b), [c]) == Do(Do(Do(s, a), b), c);
    assert Run(Do(s, a), [b]) == Do(Do(s, a), b);
  }

  /** A cache of a single buffer that no one uses. */
  ghost predicate Quiet(s: Sys) {
    && s.order == [0] && |s.bufs| == |s.stamps| == 1 && s.refs == map[]
    && s.bufs[0].refcnt == 0 && !s.bufs[0].dirty && !s.bufs[0].locked
  }

  /** The same with one client at work on block k, as the disk has it. */
  ghost predicate AtWork(s: Sys, r: int, k: Key) {
    && s.order == [0] && |s.bufs| == |s.stamps| == 1 && s.refs == map[r := Ref(0, Holding)]
    && s.bufs[0].refcnt == 1 && s.bufs[0].valid && !s.bufs[0].dirty && s.bufs[0].locked && s.bufs[0].key == k && k in s.disk
  }

  lemma TakeUp(s: Sys, r: int, k: Key)
    requires Quiet(s) && k in s.disk && s.bufs[0].key != k
    ensures var s' := Run(s, [Get(r, k), Lock(r), Load(r)]);
            AtWork(s', r, k) && s'.bufs[0].data == s.disk[k] && s'.disk == s.disk && s'.store == s.store
  {
    RunThree(s, Get(r, k), Lock(r), Load(r));
    assert s.order[1..] == [] && s.order[..0] == [];
    assert FindKey(s.order, s.bufs, k) == None && FindVictim(s.order, s.bufs) == Some(0);
    var s1 := Do(s, Get(r, k));
    assert s1.refs == map[r := Ref(0, Waiting)] && s1.bufs == [Granted(s.bufs[0], k)];
    var s2 := Do(s1, Lock(r));
    assert s2.refs == map[r := Ref(0, Holding)] && s2.bufs == [s1.bufs[0].(locked := true)];
    var s3 := Do(s2, Load(r));
    assert s3.bufs == [s2.bufs[0].(valid := true, dirty := false, data := s.disk[k])];
  }

  lemma PutDown(s: Sys, r: int, k: Key)
    requires AtWork(s, r, k)
    ensures var s' := Run(s, [Unlock(r), Drop(r)]);
            Quiet(s') && s'.bufs[0].key == k && s'.disk == s.disk && s'.store == s.store
  {
    RunThree(s, Unlock(r), Drop(r), Drop(r));
    var s1 := Do(s, Unlock(r));
    assert s1.refs == map[r := Ref(0, Dropping)] && s1.bufs == [s.bufs[0].(locked := false)];
    assert Without(s.order, 0) == [];
    var s2 := Do(s1, Drop(r));
    assert s2.bufs == [s1.bufs[0].(refcnt := 0)] && s2.refs == map[];
  }

  /**
   What breaking the rule costs. With one buffer, a client that changes block k and releases it
   unsaved, another that reads block j, and a third that reads k again: it sees the old contents.
   */
  lemma ForgottenWriteIsLost(disk: map<Key, Block>, k: Key, j: Key, x: Block) returns (es: seq<Event>)
    requires k in disk && j in disk && k != j && k != Key(0, 0) && x != disk[k]
    ensures var s := Run(Boot(1, disk), es);
            && Loaded(s, 3) && s.bufs[s.refs[3].b].key == k && k in s.store
            && s.store[k] == x && s.bufs[s.refs[3].b].data == disk[k]
    ensures !Disciplined(Boot(1, disk), es)
  {
    hide Run, Do, Disciplined;
    var s0 := Boot(1, disk);
    assert Quiet(s0);
    var a := [Get(1, k), Lock(1), Load(1)];
    TakeUp(s0, 1, k);
    var s1 := Run(s0, a);
    var w := [Write(1, x)];
    Scribble(s1, 1, k, x);
    var s2 := Run(s1, w);
    var b := [Unlock(1), Drop(1)];
    PutDown(s2, 1, k);
    var s3 := Run(s2, b);
    var c := [Get(2, j), Lock(2), Load(2)];
    TakeUp(s3, 2, j);
    var s4 := Run(s3, c);
    var d := [Unlock(2), Drop(2)];
    PutDown(s4, 2, j);
    var s5 := Run(s4, d);
    var e := [Get(3, k), Lock(3), Load(3)];
    TakeUp(s5, 3, k);
    es := a + (w + (b + (c + (d + e))));
    RunConcat(s0, a, w + (b + (c + (d + e))));
    RunConcat(s1, w, b + (c + (d + e)));
    RunConcat(s2, b, c + (d + e));
    RunConcat(s3, c, d + e);
    RunConcat(s4, d, e);
    if Disciplined(s0, es) {
      ReadsLatest(1, disk, es, 3);
    }
  }

  lemma Scribble(s: Sys, r: int, k: Key, x: Block)
    requires AtWork(s, r, k)
    ensures var s' := Run(s, [Write(r, x)]);
            AtWork(s', r, k) && s'.disk == s.disk && s'.store == s.store[k := x]
  {
    assert [Write(r, x)][1..] == [];
    var s1 := Do(s, Write(r, x));
    assert Run(s1, []) == s1;
    assert s1.bufs == [s.bufs[0].(data := x)];
  }
}
