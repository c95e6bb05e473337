/** Adding up a weight over the values of a finite map: counts of processes, reserved blocks, heap units. */
module Sums {

  ghost function Weigh<P>(m: map<int, P>, w: P -> nat): nat
    decreases |m|
  {
    if exists k :: k in m then
      var k :| k in m;
      assert |m - {k}| < |m| by { assert (m - {k}).Keys == m.Keys - {k}; }
      w(m[k]) + Weigh(m - {k}, w)
    else 0
  }

  /** The sum does not depend on the order in which keys are taken. */
  lemma {:induction false} WeighRemove<P>(m: map<int, P>, k: int, w: P -> nat)
    requires k in m
    ensures Weigh(m, w) == w(m[k]) + Weigh(m - {k}, w)
    decreases |m|
  {
    var c :| c in m && Weigh(m, w) == w(m[c]) + Weigh(m - {c}, w);
    if c != k {
      assert (m - {c}).Keys == m.Keys - {c} && (m - {k}).Keys == m.Keys - {k};
      WeighRemove(m - {c}, k, w);
      WeighRemove(m - {k}, c, w);
      assert m - {c} - {k} == m - {k} - {c};
    }
  }

  lemma WeighUpdate<P>(m: map<int, P>, k: int, v: P, w: P -> nat)
    ensures Weigh(m[k := v], w) + (if k in m then w(m[k]) else 0) == Weigh(m, w) + w(v)
  {
    var m' := m[k := v];
    WeighRemove(m', k, w);
    assert m' - {k} == m - {k};
    if k in m {
      WeighRemove(m, k, w);
    } else {
      assert m - {k} == m;
    }
  }

  /** A key with positive weight keeps the sum positive. */
  lemma WeighAtLeast<P>(m: map<int, P>, k: int, w: P -> nat)
    requires k in m
    ensures Weigh(m, w) >= w(m[k])
  {
    WeighRemove(m, k, w);
  }

  lemma {:induction false} WeighScaled<P>(m: map<int, P>, w: P -> nat, v: P -> nat, c: nat)
    requires forall k | k in m :: w(m[k]) <= c * v(m[k])
    ensures Weigh(m, w) <= c * Weigh(m, v)
    decreases |m|
  {
    if exists k :: k in m {
      var k :| k in m;
      assert (m - {k}).Keys == m.Keys - {k};
      WeighRemove(m, k, w);
      WeighRemove(m, k, v);
      WeighScaled(m - {k}, w, v, c);
      assert c * (v(m[k]) + Weigh(m - {k}, v)) == c * v(m[k]) + c * Weigh(m - {k}, v);
    }
  }

  /** When all weights vanish so does the sum, and conversely. */
  lemma {:induction false} WeighZero<P>(m: map<int, P>, w: P -> nat)
    ensures Weigh(m, w) == 0 <==> forall k | k in m :: w(m[k]) == 0
    decreases |m|
  {
    if exists k :: k in m {
      var k :| k in m;
      assert (m - {k}).Keys == m.Keys - {k};
      WeighRemove(m, k, w);
      WeighZero(m - {k}, w);
      assert forall j | j in m :: j == k || (j in m - {k} && (m - {k})[j] == m[j]);
    }
  }

  /** Changing values without changing their weights leaves the sum alone. */
  lemma {:induction false} WeighSame<P>(m: map<int, P>, m': map<int, P>, w: P -> nat)
    requires m.Keys == m'.Keys && forall k | k in m :: w(m[k]) == w(m'[k])
    ensures Weigh(m, w) == Weigh(m', w)
    decreases |m|
  {
    if exists k :: k in m {
      var k :| k in m;
      assert (m - {k}).Keys == m.Keys - {k} && (m' - {k}).Keys == m'.Keys - {k};
      WeighRemove(m, k, w);
      WeighRemove(m', k, w);
      WeighSame(m - {k}, m' - {k}, w);
    } else {
      assert m'.Keys == {};
    }
  }
}
