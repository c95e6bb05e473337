/** bio.c's list code: the buffers on a doubly linked circular list through prev and next, with a list head. */
module BufCode {
  import opened BufCache
  import opened Common

  /** The neighbours of the i-th buffer; the head h closes the circle on both sides. */
  function After(o: seq<int>, h: int, i: nat): int {
    if i + 1 < |o| then o[i + 1] else h
  }

  function Before(o: seq<int>, h: int, i: nat): int
    requires i < |o|
  {
    if i > 0 then o[i - 1] else h
  }

  /** Following next from the head visits the buffers of o in order. */
  ghost predicate Forward(o: seq<int>, h: nat, next: seq<int>) {
    && |next| == h + 1
    && (forall i | 0 <= i < |o| :: 0 <= o[i] < h)
    && next[h] == (if o == [] then h else o[0])
    && (forall i {:trigger After(o, h, i)} | 0 <= i < |o| :: next[o[i]] == After(o, h, i))
  }

  /** Following prev from the head visits them in reverse. */
  ghost predicate Backward(o: seq<int>, h: nat, prev: seq<int>) {
    && |prev| == h + 1
    && (forall i | 0 <= i < |o| :: 0 <= o[i] < h)
    && prev[h] == (if o == [] then h else o[|o| - 1])
    && (forall i {:trigger Before(o, h, i)} | 0 <= i < |o| :: prev[o[i]] == Before(o, h, i))
  }

  ghost predicate Linked(o: seq<int>, h: nat, next: seq<int>, prev: seq<int>) {
    Distinct(o) && Forward(o, h, next) && Backward(o, h, prev)
  }

  /** o without its i-th element */
  function Cut(o: seq<int>, i: nat): (q: seq<int>)
    requires i < |o|
    ensures |q| == |o| - 1
    ensures forall j | 0 <= j < |q| :: q[j] == o[if j < i then j else j + 1]
  {
    o[..i] + o[i + 1..]
  }

  lemma CutForward(o: seq<int>, h: nat, next: seq<int>, i: nat)
    requires Distinct(o) && Forward(o, h, next) && i < |o|
    ensures Forward(Cut(o, i), h, next[Before(o, h, i) := next[o[i]]])
  {
    assert next[o[i]] == After(o, h, i);
    var q := Cut(o, i);
    var next' := next[Before(o, h, i) := next[o[i]]];
    forall j | 0 <= j < |q| ensures next'[q[j]] == After(q, h, j) {
      var j' := if j < i then j else j + 1;
      assert q[j] == o[j'];
      assert next[o[j']] == After(o, h, j');
    }
  }

  lemma CutBackwardAt(o: seq<int>, h: nat, prev: seq<int>, i: nat, j: nat)
    requires Distinct(o) && Backward(o, h, prev) && i < |o| && j < |o| - 1
    ensures var q := Cut(o, i); prev[After(o, h, i) := prev[o[i]]][q[j]] == Before(q, h, j)
  {
    var j' := if j < i then j else j + 1;
    assert prev[o[i]] == Before(o, h, i) && prev[o[j']] == Before(o, h, j');
    assert Cut(o, i)[j] == o[j'];
  }

  lemma CutBackward(o: seq<int>, h: nat, prev: seq<int>, i: nat)
    requires Distinct(o) && Backward(o, h, prev) && i < |o|
    ensures Backward(Cut(o, i), h, prev[After(o, h, i) := prev[o[i]]])
  {
    var q := Cut(o, i);
    assert prev[o[i]] == Before(o, h, i);
    forall j | 0 <= j < |q| ensures prev[After(o, h, i) := prev[o[i]]][q[j]] == Before(q, h, j) {
      CutBackwardAt(o, h, prev, i, j);
    }
  }

  lemma PushForward(o: seq<int>, h: nat, next: seq<int>, b: int)
    requires Forward(o, h, next) && 0 <= b < h && b !in o
    ensures Forward([b] + o, h, next[b := next[h]][h := b])
  {
    var q := [b] + o;
    var next' := next[b := next[h]][h := b];
    forall j | 0 <= j < |q| ensures next'[q[j]] == After(q, h, j) {
      if j > 0 {
        assert q[j] == o[j - 1];
        assert next[o[j - 1]] == After(o, h, j - 1);
      }
    }
  }

  lemma PushBackward(o: seq<int>, h: nat, prev: seq<int>, b: int)
    requires Distinct(o) && Backward(o, h, prev) && 0 <= b < h && b !in o
    ensures Backward([b] + o, h, prev[b := h][(if o == [] then h else o[0]) := b])
  {
    var q := [b] + o;
    var prev' := prev[b := h][(if o == [] then h else o[0]) := b];
    forall j | 0 <= j < |q| ensures prev'[q[j]] == Before(q, h, j) {
      if j > 0 {
        assert q[j] == o[j - 1];
        assert prev[o[j - 1]] == Before(o, h, j - 1);
      }
    }
  }

  /** Taking the i-th buffer off the list. */
  lemma Unlink(o: seq<int>, h: nat, next: seq<int>, prev: seq<int>, i: nat)
    requires Linked(o, h, next, prev) && i < |o|
    ensures 0 <= next[o[i]] <= h && 0 <= prev[o[i]] <= h && next[o[i]] != o[i] && prev[o[i]] != o[i]
    ensures Linked(Cut(o, i), h, next[prev[o[i]] := next[o[i]]], prev[next[o[i]] := prev[o[i]]])
  {
    assert next[o[i]] == After(o, h, i) && prev[o[i]] == Before(o, h, i);
    CutForward(o, h, next, i);
    CutBackward(o, h, prev, i);
  }

  /** The links of b's neighbours once b is off the list. */
  lemma UnlinkOne(o: seq<int>, h: nat, next: seq<int>, prev: seq<int>, b: int)
    requires Linked(o, h, next, prev) && b in o
    ensures 0 <= b < |next| && b < |prev| && 0 <= next[b] < |prev| && 0 <= prev[b] < |next| && next[b] != b && prev[b] != b
    ensures Linked(Without(o, b), h, next[prev[b] := next[b]], prev[next[b] := prev[b]]) && b !in Without(o, b)
  {
    var i :| 0 <= i < |o| && o[i] == b;
    Unlink(o, h, next, prev, i);
    WithoutMeans(o, i);
  }

  /** Putting buffer b at the front. */
  lemma PushFront(o: seq<int>, h: nat, next: seq<int>, prev: seq<int>, b: int)
    requires Linked(o, h, next, prev) && 0 <= b < h && b !in o
    ensures 0 <= next[h] <= h && next[h] != b
    ensures Linked([b] + o, h, next[b := next[h]][h := b], prev[b := h][next[h] := b])
  {
    PushForward(o, h, next, b);
    PushBackward(o, h, prev, b);
  }

  class BufferCache {
    const nbuf: nat
    var next: seq<int>
    var prev: seq<int>
    var bufs: seq<Buf>
    ghost var order: seq<int>

    ghost predicate Valid()
      reads this
    {
      && |bufs| == |order| == nbuf
      && Linked(order, nbuf, next, prev)
      && InRange(order, bufs)
      && (forall b | 0 <= b < nbuf :: b in order)
    }

    /** The four assignments by which binit and brelse put a buffer behind the head. */
    method Insert(b: int)
      requires Linked(order, nbuf, next, prev) && 0 <= b < nbuf && b !in order
      modifies this`next, this`prev, this`order
      ensures order == [b] + old(order) && Linked(order, nbuf, next, prev)
    {
      PushFront(order, nbuf, next, prev, b);
      hide Linked;
      next := next[b := next[nbuf]];
      prev := prev[b := nbuf];
      prev := prev[next[nbuf] := b];
      next := next[nbuf := b];
      order := [b] + order;
    }

    /** The two assignments by which brelse takes a buffer off the list. */
    method Remove(b: int)
      requires Linked(order, nbuf, next, prev) && b in order
      modifies this`next, this`prev, this`order
      ensures order == Without(old(order), b) && Linked(order, nbuf, next, prev) && b !in order
    {
      hide Linked, Without;
      UnlinkOne(order, nbuf, next, prev, b);
      prev := prev[next[b] := prev[b]];
      next := next[prev[b] := next[b]];
      order := Without(order, b);
    }

    /** binit */
    constructor (n: nat)
      ensures Valid() && nbuf == n
      ensures order == Boot(n, map[]).order && bufs == Boot(n, map[]).bufs
    {
      nbuf := n;
      next := seq(n + 1, i => n);
      prev := seq(n + 1, i => n);
      bufs := seq(n, i => Buf(Key(0, 0), false, false, 0, false, []));
      order := [];
      new;
      var b := 0;
      while b < n
        invariant 0 <= b <= n && nbuf == n
        invariant order == seq(b, i => b - 1 - i)
        invariant Linked(order, n, next, prev)
        invariant bufs == Boot(n, map[]).bufs
      {
        hide Linked;
        Insert(b);
        b := b + 1;
      }
      forall c | 0 <= c < n ensures c in order {
        assert order[n - 1 - c] == c;
      }
    }

    /** bget up to the sleep lock: walk forwards for the block, then backwards for a victim; None is the panic. */
    method BGet(k: Key) returns (r: Option<int>)
      requires Valid()
      modifies this`bufs
      ensures Valid()
      ensures r == old(Chosen(order, bufs, k))
      ensures bufs == if r.None? then old(bufs) else old(bufs)[r.value := Granted(old(bufs)[r.value], k)]
    {
      var b := next[nbuf];
      ghost var i := 0;
      while b != nbuf
        invariant 0 <= i <= |order| && b == (if i < |order| then order[i] else nbuf)
        invariant bufs == old(bufs)
        invariant FindKey(order, bufs, k) == FindKey(order[i..], bufs, k)
        decreases |order| - i
      {
        assert order[i..][1..] == order[i + 1..];
        if bufs[b].key == k {
          bufs := bufs[b := bufs[b].(refcnt := bufs[b].refcnt + 1)];
          return Some(b);
        }
        assert next[order[i]] == After(order, nbuf, i);
        b := next[b];
        i := i + 1;
      }
      FindKeyMeans(order, bufs, k);
      b := prev[nbuf];
      ghost var m := |order|;
      assert order[..m] == order;
      while b != nbuf
        invariant 0 <= m <= |order| && b == (if m > 0 then order[m - 1] else nbuf)
        invariant bufs == old(bufs)
        invariant FindVictim(order, bufs) == FindVictim(order[..m], bufs)
        decreases m
      {
        assert order[..m][..m - 1] == order[..m - 1];
        if bufs[b].refcnt == 0 && !bufs[b].dirty {
          bufs := bufs[b := bufs[b].(key := k, valid := false, dirty := false, refcnt := 1)];
          return Some(b);
        }
        assert prev[order[m - 1]] == Before(order, nbuf, m - 1);
        b := prev[b];
        m := m - 1;
      }
      return None;
    }

    /** brelse: give up the sleep lock and one use; the last user moves the buffer to the head of the list. */
    method BRelse(b: int)
      requires Valid() && 0 <= b < nbuf && bufs[b].locked && bufs[b].refcnt > 0
      modifies this
      ensures Valid()
      ensures bufs == old(bufs)[b := old(bufs)[b].(locked := false, refcnt := old(bufs)[b].refcnt - 1)]
      ensures order == if bufs[b].refcnt == 0 then [b] + Without(old(order), b) else old(order)
    {
      bufs := bufs[b := bufs[b].(locked := false)];
      bufs := bufs[b := bufs[b].(refcnt := bufs[b].refcnt - 1)];
      if bufs[b].refcnt == 0 {
        assert b in order;
        ghost var i :| 0 <= i < |order| && order[i] == b;
        MoveToFront(order, i);
        forall c | 0 <= c < nbuf ensures c in [b] + Without(order, b) {
          MovedCovers(order, i, c);
        }
        hide Without;
        Remove(b);
        Insert(b);
      }
    }
  }
}
