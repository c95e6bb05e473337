/**
 The shape of the K&R free list of umalloc.c. Addresses count header units, so a block at a of
 size n occupies units a .. a+n-1, the first of which is its header. L lists the free blocks in
 address order, starting with the empty block base.
 */
module HeapSpec {

  type Cells = map<int, int>

  /** The block after the i-th one, going round. */
  function Succ(L: seq<int>, i: nat): int
    requires i < |L|
  {
    if i + 1 < |L| then L[i + 1] else L[0]
  }

  /** ptr links the free blocks in a circle in the order of L. */
  ghost predicate Circular(L: seq<int>, ptr: Cells) {
    && |L| >= 1
    && forall i | 0 <= i < |L| :: L[i] in ptr && ptr[L[i]] == Succ(L, i)
  }

  /** Free blocks ascend without overlap, below brk; only the first, base, is empty. */
  ghost predicate Ordered(L: seq<int>, size: Cells, brk: int) {
    && (forall i | 0 <= i < |L| :: L[i] in size && size[L[i]] >= (if i == 0 then 0 else 1))
    && (|L| > 0 ==> size[L[0]] == 0)
    && (forall i, j | 0 <= i < j < |L| :: L[i] < L[j] && L[i] + size[L[i]] <= L[j])
    && (forall i | 0 <= i < |L| :: L[i] + size[L[i]] <= brk)
  }

  /** The i-th free block runs up to the next one. */
  ghost predicate Touching(L: seq<int>, size: Cells, i: int) {
    0 <= i < |L| - 1 && L[i] in size && L[i] + size[L[i]] == L[i + 1]
  }

  /** Adjacent free blocks have been merged. */
  ghost predicate Merged(L: seq<int>, size: Cells) {
    forall i | 0 <= i < |L| - 1 :: !Touching(L, size, i)
  }

  /** Allocated blocks have their size in their header and overlap neither free blocks nor each other. */
  ghost predicate Apart(L: seq<int>, size: Cells, alloc: Cells, brk: int) {
    && (forall a | a in alloc :: alloc[a] >= 1 && a in size && size[a] == alloc[a] && a + alloc[a] <= brk)
    && (forall a, i | a in alloc && 0 <= i < |L| && L[i] in size :: L[i] < a || a + alloc[a] <= L[i])
    && (forall a, i | a in alloc && 0 <= i < |L| && L[i] in size :: a < L[i] || L[i] + size[L[i]] <= a)
    && (forall a, i | a in alloc && 0 <= i < |L| :: a != L[i])
    && (|L| > 0 ==> forall a | a in alloc :: L[0] < a)
    && (forall a, b | a in alloc && b in alloc && a < b :: a + alloc[a] <= b)
  }

  /** The units in a list of blocks. */
  ghost function Units(L: seq<int>, size: Cells): int {
    if L == [] then 0
    else Units(L[..|L| - 1], size) + if L[|L| - 1] in size then size[L[|L| - 1]] else 0
  }

  lemma {:induction false} UnitsConcat(A: seq<int>, B: seq<int>, size: Cells)
    ensures Units(A + B, size) == Units(A, size) + Units(B, size)
  {
    if B == [] {
      assert A + B == A;
    } else {
      UnitsConcat(A, B[..|B| - 1], size);
      assert (A + B)[..|A + B| - 1] == A + B[..|B| - 1];
    }
  }

  lemma {:induction false} UnitsSame(L: seq<int>, size: Cells, size': Cells)
    requires forall i | 0 <= i < |L| :: L[i] in size && L[i] in size' && size'[L[i]] == size[L[i]]
    ensures Units(L, size') == Units(L, size)
  {
    if L != [] {
      UnitsSame(L[..|L| - 1], size, size');
    }
  }

  /** A free list and allocated blocks that fit together. */
  ghost predicate Good(L: seq<int>, ptr: Cells, size: Cells, alloc: Cells, brk: int) {
    Circular(L, ptr) && Ordered(L, size, brk) && Apart(L, size, alloc, brk)
  }

  // ---- where free() puts a block ----

  /** The last free block below bp: where free() must stop. */
  ghost predicate Before(L: seq<int>, t: nat, bp: int) {
    t < |L| && L[t] < bp && (t + 1 < |L| ==> bp < L[t + 1])
  }

  lemma {:induction false} FindBefore(L: seq<int>, bp: int, n: nat) returns (t: nat)
    requires 1 <= n <= |L| && L[0] < bp
    requires n < |L| ==> bp < L[n]
    requires forall i | 0 <= i < |L| :: L[i] != bp
    ensures Before(L, t, bp)
  {
    if L[n - 1] < bp {
      t := n - 1;
    } else {
      t := FindBefore(L, bp, n - 1);
    }
  }

  /** Following ptr goes to the next block of the list, and from the last back to the first. */
  lemma RingStep(L: seq<int>, ptr: Cells, k: nat) returns (k': nat)
    requires Circular(L, ptr) && k < |L|
    ensures k' == (if k + 1 < |L| then k + 1 else 0) && L[k] in ptr && ptr[L[k]] == L[k']
  {
    k' := if k + 1 < |L| then k + 1 else 0;
  }

  /** free()'s loop condition picks out that block and no other. */
  lemma StopsExactly(L: seq<int>, ptr: Cells, t: nat, k: nat, bp: int)
    requires Circular(L, ptr) && Before(L, t, bp) && k < |L|
    requires forall i, j | 0 <= i < j < |L| :: L[i] < L[j]
    ensures L[k] in ptr
    ensures var p := L[k];
            (bp > p && bp < ptr[p]) || (p >= ptr[p] && (bp > p || bp < ptr[p])) <==> k == t
  {
  }

  // ---- linking a block in, and merging two that touch ----

  function Linked(L: seq<int>, t: nat, bp: int): (r: seq<int>)
    requires t < |L|
    ensures |r| == |L| + 1
    ensures forall k | 0 <= k < |r| :: r[k] == if k <= t then L[k] else if k == t + 1 then bp else L[k - 1]
  {
    L[..t + 1] + [bp] + L[t + 1..]
  }

  function Unlinked(L: seq<int>, t: nat): (r: seq<int>)
    requires t + 1 < |L|
    ensures |r| == |L| - 1
    ensures forall k | 0 <= k < |r| :: r[k] == if k <= t then L[k] else L[k + 1]
  {
    L[..t + 1] + L[t + 2..]
  }

  lemma LinkGood(L: seq<int>, ptr: Cells, size: Cells, alloc: Cells, brk: int, t: nat, bp: int)
    requires Good(L, ptr, size, alloc, brk) && bp in alloc && Before(L, t, bp)
    ensures Good(Linked(L, t, bp), ptr[bp := Succ(L, t)][L[t] := bp], size, alloc - {bp}, brk)
  {
    hide Ordered, Apart, Circular;
    LinkDistinct(L, size, alloc, brk, bp);
    LinkCircular(L, ptr, t, bp);
    LinkOrdered(L, size, alloc, brk, t, bp);
    LinkApart(L, size, alloc, brk, t, bp);
  }

  lemma LinkDistinct(L: seq<int>, size: Cells, alloc: Cells, brk: int, bp: int)
    requires Ordered(L, size, brk) && Apart(L, size, alloc, brk) && bp in alloc
    ensures forall i, j | 0 <= i < j < |L| :: L[i] < L[j]
    ensures forall i | 0 <= i < |L| :: L[i] != bp
    ensures |L| > 0 ==> L[0] < bp
  {
  }

  lemma LinkApart(L: seq<int>, size: Cells, alloc: Cells, brk: int, t: nat, bp: int)
    requires Apart(L, size, alloc, brk) && t < |L| && bp in alloc
    ensures Apart(Linked(L, t, bp), size, alloc - {bp}, brk)
  {
    var M := Linked(L, t, bp);
    forall a, i | a in alloc - {bp} && 0 <= i < |M| && M[i] in size
      ensures (M[i] < a || a + alloc[a] <= M[i]) && (a < M[i] || M[i] + size[M[i]] <= a) && a != M[i]
    {
      if i != t + 1 {
        assert M[i] == L[if i <= t then i else i - 1];
      }
    }
  }

  lemma LinkCircular(L: seq<int>, ptr: Cells, t: nat, bp: int)
    requires Circular(L, ptr) && t < |L|
    requires forall i, j | 0 <= i < j < |L| :: L[i] != L[j]
    requires forall i | 0 <= i < |L| :: L[i] != bp
    ensures Circular(Linked(L, t, bp), ptr[bp := Succ(L, t)][L[t] := bp])
  {
  }

  /** The allocated block bp lies after the free blocks up to t and before the rest. */
  lemma Sides(L: seq<int>, size: Cells, alloc: Cells, brk: int, t: nat, bp: int)
    requires Ordered(L, size, brk) && Apart(L, size, alloc, brk) && bp in alloc && Before(L, t, bp)
    ensures bp in size
    ensures forall i | 0 <= i <= t :: L[i] < bp && L[i] + size[L[i]] <= bp
    ensures forall i | t < i < |L| :: bp < L[i] && bp + size[bp] <= L[i]
    ensures bp + size[bp] <= brk && size[bp] >= 1
  {
  }

  lemma LinkPair(L: seq<int>, size: Cells, brk: int, t: nat, bp: int, i: nat, j: nat)
    requires Ordered(L, size, brk) && t < |L| && bp in size && i < j < |L| + 1
    requires forall i | 0 <= i <= t :: L[i] < bp && L[i] + size[L[i]] <= bp
    requires forall i | t < i < |L| :: bp < L[i] && bp + size[bp] <= L[i]
    ensures var M := Linked(L, t, bp); M[i] in size && M[i] < M[j] && M[i] + size[M[i]] <= M[j]
  {
    var i', j' := if i <= t then i else i - 1, if j <= t then j else j - 1;
    if i != t + 1 && j != t + 1 {
      assert i' < j';
    }
  }

  lemma LinkOrdered(L: seq<int>, size: Cells, alloc: Cells, brk: int, t: nat, bp: int)
    requires Ordered(L, size, brk) && Apart(L, size, alloc, brk) && bp in alloc && Before(L, t, bp)
    ensures Ordered(Linked(L, t, bp), size, brk)
  {
    hide Apart;
    Sides(L, size, alloc, brk, t, bp);
    var M := Linked(L, t, bp);
    forall i, j | 0 <= i < j < |M| ensures M[i] in size && M[i] < M[j] && M[i] + size[M[i]] <= M[j] {
      LinkPair(L, size, brk, t, bp, i, j);
    }
    forall i | 0 <= i < |M| ensures M[i] in size && size[M[i]] >= (if i == 0 then 0 else 1) && M[i] + size[M[i]] <= brk {
      if i != t + 1 {
        assert M[i] == L[if i <= t then i else i - 1];
      }
    }
  }

  /** Linking can only make the new block touch its two neighbours. */
  lemma LinkTouching(L: seq<int>, size: Cells, t: nat, bp: int, i: int)
    requires t < |L| && Merged(L, size) && i != t && i != t + 1
    ensures !Touching(Linked(L, t, bp), size, i)
  {
    if Touching(Linked(L, t, bp), size, i) {
      assert Touching(L, size, if i < t then i else i - 1);
    }
  }

  lemma LinkUnits(L: seq<int>, size: Cells, t: nat, bp: int)
    requires t < |L| && bp in size
    ensures Units(Linked(L, t, bp), size) == Units(L, size) + size[bp]
  {
    hide Units;
    var A, B := L[..t + 1], L[t + 1..];
    assert L == A + B;
    UnitsConcat(A, B, size);
    UnitsConcat(A + [bp], B, size);
    UnitsConcat(A, [bp], size);
    UnitsOne(bp, size);
  }

  lemma UnitsOne(a: int, size: Cells)
    ensures Units([a], size) == if a in size then size[a] else 0
  {
    assert [a][..0] == [];
  }

  /** size after the i-th block has swallowed the next. */
  function Swallow(L: seq<int>, size: Cells, i: nat): Cells
    requires i + 1 < |L| && L[i] in size && L[i + 1] in size
  {
    size[L[i] := size[L[i]] + size[L[i + 1]]]
  }

  lemma MergeCircular(L: seq<int>, ptr: Cells, i: nat)
    requires Circular(L, ptr) && i + 1 < |L|
    requires forall i, j | 0 <= i < j < |L| :: L[i] != L[j]
    ensures Circular(Unlinked(L, i), ptr[L[i] := Succ(L, i + 1)])
  {
  }

  lemma MergeOrdered(L: seq<int>, size: Cells, brk: int, i: nat)
    requires Ordered(L, size, brk) && 1 <= i && Touching(L, size, i)
    ensures Ordered(Unlinked(L, i), Swallow(L, size, i), brk)
  {
  }

  lemma MergeApart(L: seq<int>, size: Cells, alloc: Cells, brk: int, i: nat)
    requires Ordered(L, size, brk) && Apart(L, size, alloc, brk) && 1 <= i && Touching(L, size, i)
    ensures Apart(Unlinked(L, i), Swallow(L, size, i), alloc, brk)
  {
    var M, size' := Unlinked(L, i), Swallow(L, size, i);
    forall a, k | a in alloc && 0 <= k < |M| && M[k] in size'
      ensures (M[k] < a || a + alloc[a] <= M[k]) && (a < M[k] || M[k] + size'[M[k]] <= a) && a != M[k]
    {
      var k' := if k <= i then k else k + 1;
      assert M[k] == L[k'];
      if k != i {
        assert size'[M[k]] == size[L[k']];
      }
    }
  }

  lemma MergeGood(L: seq<int>, ptr: Cells, size: Cells, alloc: Cells, brk: int, i: nat)
    requires Good(L, ptr, size, alloc, brk) && 1 <= i && Touching(L, size, i)
    ensures Good(Unlinked(L, i), ptr[L[i] := Succ(L, i + 1)], Swallow(L, size, i), alloc, brk)
  {
    MergeCircular(L, ptr, i);
    MergeOrdered(L, size, brk, i);
    MergeApart(L, size, alloc, brk, i);
  }

  /** After a merge at i, a block touches the next one exactly where it did before. */
  lemma MergeTouching(L: seq<int>, size: Cells, brk: int, i: nat, k: int)
    requires Ordered(L, size, brk) && Touching(L, size, i)
    ensures Touching(Unlinked(L, i), Swallow(L, size, i), k) <==> Touching(L, size, if k < i then k else k + 1) && 0 <= k
  {
  }

  lemma MergeUnits(L: seq<int>, size: Cells, brk: int, i: nat)
    requires Ordered(L, size, brk) && Touching(L, size, i)
    ensures Units(Unlinked(L, i), Swallow(L, size, i)) == Units(L, size)
  {
    hide Units;
    var size' := Swallow(L, size, i);
    var A, B := L[..i], L[i + 2..];
    assert L == A + [L[i]] + [L[i + 1]] + B;
    UnitsConcat(A + [L[i]] + [L[i + 1]], B, size);
    UnitsConcat(A + [L[i]], [L[i + 1]], size);
    UnitsConcat(A, [L[i]], size);
    assert Unlinked(L, i) == A + [L[i]] + B;
    UnitsConcat(A + [L[i]], B, size');
    UnitsConcat(A, [L[i]], size');
    UnitsOne(L[i], size);
    UnitsOne(L[i + 1], size);
    UnitsOne(L[i], size');
    UnitsSame(A, size, size');
    UnitsSame(B, size, size');
  }

  // ---- taking a block out ----

  /** The k-th free block leaves the list and becomes an allocated block. */
  lemma TakeGood(L: seq<int>, ptr: Cells, size: Cells, alloc: Cells, brk: int, k: nat)
    requires Good(L, ptr, size, alloc, brk) && 1 <= k < |L|
    ensures L[k] in ptr && L[k] in size
    ensures Good(Unlinked(L, k - 1), ptr[L[k - 1] := ptr[L[k]]], size, alloc[L[k] := size[L[k]]], brk)
  {
    hide Apart, Ordered;
    TakeOrdered(L, size, brk, k);
    MergeCircular(L, ptr, k - 1);
    TakeApart(L, size, alloc, brk, k);
  }

  lemma TakeOrdered(L: seq<int>, size: Cells, brk: int, k: nat)
    requires Ordered(L, size, brk) && 1 <= k < |L|
    ensures Ordered(Unlinked(L, k - 1), size, brk)
    ensures forall i, j | 0 <= i < j < |L| :: L[i] != L[j]
    ensures L[k] in size
  {
    var M := Unlinked(L, k - 1);
    forall i, j | 0 <= i < j < |M| ensures M[i] in size && M[i] < M[j] && M[i] + size[M[i]] <= M[j] {
      assert M[i] == L[if i < k then i else i + 1] && M[j] == L[if j < k then j else j + 1];
    }
  }

  lemma TakeApart(L: seq<int>, size: Cells, alloc: Cells, brk: int, k: nat)
    requires Ordered(L, size, brk) && Apart(L, size, alloc, brk) && 1 <= k < |L|
    ensures Apart(Unlinked(L, k - 1), size, alloc[L[k] := size[L[k]]], brk)
  {
    var M, alloc' := Unlinked(L, k - 1), alloc[L[k] := size[L[k]]];
    forall a, i | a in alloc' && 0 <= i < |M| && M[i] in size
      ensures (M[i] < a || a + alloc'[a] <= M[i]) && (a < M[i] || M[i] + size[M[i]] <= a) && a != M[i]
    {
      assert M[i] == L[if i < k then i else i + 1];
    }
  }

  lemma TakeMerged(L: seq<int>, size: Cells, brk: int, k: nat)
    requires Ordered(L, size, brk) && Merged(L, size) && 1 <= k < |L|
    ensures Merged(Unlinked(L, k - 1), size)
  {
    var M := Unlinked(L, k - 1);
    forall i | 0 <= i < |M| - 1 ensures !Touching(M, size, i) {
      if i != k - 1 {
        assert !Touching(L, size, if i < k - 1 then i else i + 1);
      } else {
        assert L[k - 1] + size[L[k - 1]] <= L[k] < L[k + 1];
      }
    }
  }

  lemma TakeUnits(L: seq<int>, size: Cells, k: nat)
    requires 1 <= k < |L| && L[k] in size
    ensures Units(Unlinked(L, k - 1), size) + size[L[k]] == Units(L, size)
  {
    hide Units;
    var A, B := L[..k], L[k + 1..];
    assert L == A + [L[k]] + B;
    UnitsConcat(A + [L[k]], B, size);
    UnitsConcat(A, [L[k]], size);
    UnitsOne(L[k], size);
    assert Unlinked(L, k - 1) == A + B;
    UnitsConcat(A, B, size);
  }

  /** The sizes after the top n units of the k-th free block have been split off. */
  function Split(L: seq<int>, size: Cells, k: nat, n: int): Cells
    requires k < |L| && L[k] in size
  {
    size[L[k] := size[L[k]] - n][L[k] + size[L[k]] - n := n]
  }

  /** The new block lies strictly inside an old free one, so no other header is there. */
  lemma SplitElsewhere(L: seq<int>, size: Cells, alloc: Cells, brk: int, k: nat, n: int)
    requires Ordered(L, size, brk) && Apart(L, size, alloc, brk) && 1 <= k < |L| && 1 <= n < size[L[k]]
    ensures var q := L[k] + size[L[k]] - n;
            && (forall i | 0 <= i < |L| :: L[i] != q)
            && q !in alloc
            && (forall i | 0 <= i < |L| && i != k :: L[i] != L[k])
            && L[k] !in alloc
  {
  }

  lemma SplitOrdered(L: seq<int>, size: Cells, alloc: Cells, brk: int, k: nat, n: int)
    requires Ordered(L, size, brk) && Apart(L, size, alloc, brk) && 1 <= k < |L| && 1 <= n < size[L[k]]
    ensures Ordered(L, Split(L, size, k, n), brk)
  {
    hide Apart;
    SplitElsewhere(L, size, alloc, brk, k, n);
  }

  lemma SplitPoint(L: seq<int>, size: Cells, alloc: Cells, brk: int, k: nat, n: int, a: int, i: nat)
    requires Ordered(L, size, brk) && Apart(L, size, alloc, brk) && 1 <= k < |L| && 1 <= n < size[L[k]]
    requires i < |L| && (a in alloc || a == L[k] + size[L[k]] - n)
    ensures var size', alloc' := Split(L, size, k, n), alloc[L[k] + size[L[k]] - n := n];
            (L[i] < a || a + alloc'[a] <= L[i]) && (a < L[i] || L[i] + size'[L[i]] <= a) && a != L[i]
  {
    SplitElsewhere(L, size, alloc, brk, k, n);
    if a == L[k] + size[L[k]] - n && i != k {
      assert if i < k then L[i] + size[L[i]] <= L[k] else L[k] + size[L[k]] <= L[i];
    }
  }

  lemma SplitSizes(L: seq<int>, size: Cells, alloc: Cells, brk: int, k: nat, n: int)
    requires Ordered(L, size, brk) && Apart(L, size, alloc, brk) && 1 <= k < |L| && 1 <= n < size[L[k]]
    ensures var size', alloc' := Split(L, size, k, n), alloc[L[k] + size[L[k]] - n := n];
            forall a | a in alloc' ::
              alloc'[a] >= 1 && a in size' && size'[a] == alloc'[a] && a + alloc'[a] <= brk && L[0] < a
  {
    SplitElsewhere(L, size, alloc, brk, k, n);
    assert L[0] < L[k];
  }

  /** One allocated block at a time against one free block at a time. */
  lemma ApartFrom(L: seq<int>, size: Cells, alloc: Cells, brk: int)
    requires forall i | 0 <= i < |L| :: L[i] in size
    requires |L| > 0 && forall a | a in alloc ::
               alloc[a] >= 1 && a in size && size[a] == alloc[a] && a + alloc[a] <= brk && L[0] < a
    requires forall a, i | a in alloc && 0 <= i < |L| ::
               (L[i] < a || a + alloc[a] <= L[i]) && (a < L[i] || L[i] + size[L[i]] <= a) && a != L[i]
    requires forall a, b | a in alloc && b in alloc && a < b :: a + alloc[a] <= b
    ensures Apart(L, size, alloc, brk)
  {
  }

  lemma SplitApart(L: seq<int>, size: Cells, alloc: Cells, brk: int, k: nat, n: int)
    requires Ordered(L, size, brk) && Apart(L, size, alloc, brk) && 1 <= k < |L| && 1 <= n < size[L[k]]
    ensures Apart(L, Split(L, size, k, n), alloc[L[k] + size[L[k]] - n := n], brk)
  {
    hide Apart;
    var q, size' := L[k] + size[L[k]] - n, Split(L, size, k, n);
    var alloc' := alloc[q := n];
    SplitSizes(L, size, alloc, brk, k, n);
    SplitBlocks(L, size, alloc, brk, k, n);
    forall a, i | a in alloc' && 0 <= i < |L|
      ensures (L[i] < a || a + alloc'[a] <= L[i]) && (a < L[i] || L[i] + size'[L[i]] <= a) && a != L[i]
    {
      SplitPoint(L, size, alloc, brk, k, n, a, i);
    }
    ApartFrom(L, size', alloc', brk);
  }

  lemma SplitBlocks(L: seq<int>, size: Cells, alloc: Cells, brk: int, k: nat, n: int)
    requires Ordered(L, size, brk) && Apart(L, size, alloc, brk) && 1 <= k < |L| && 1 <= n < size[L[k]]
    ensures var alloc' := alloc[L[k] + size[L[k]] - n := n];
            forall a, b | a in alloc' && b in alloc' && a < b :: a + alloc'[a] <= b
  {
  }

  lemma SplitMerged(L: seq<int>, size: Cells, alloc: Cells, brk: int, k: nat, n: int)
    requires Ordered(L, size, brk) && Apart(L, size, alloc, brk) && 1 <= k < |L| && 1 <= n < size[L[k]]
    requires Merged(L, size)
    ensures Merged(L, Split(L, size, k, n))
  {
    SplitElsewhere(L, size, alloc, brk, k, n);
    forall i | 0 <= i < |L| - 1 ensures !Touching(L, Split(L, size, k, n), i) {
      assert !Touching(L, size, i);
      assert L[i] + size[L[i]] <= L[i + 1];
    }
  }

  lemma SplitUnits(L: seq<int>, size: Cells, alloc: Cells, brk: int, k: nat, n: int)
    requires Ordered(L, size, brk) && Apart(L, size, alloc, brk) && 1 <= k < |L| && 1 <= n < size[L[k]]
    ensures Units(L, Split(L, size, k, n)) + n == Units(L, size)
  {
    hide Units;
    SplitElsewhere(L, size, alloc, brk, k, n);
    var size' := Split(L, size, k, n);
    var A, B := L[..k], L[k + 1..];
    assert L == A + [L[k]] + B;
    UnitsConcat(A + [L[k]], B, size);
    UnitsConcat(A, [L[k]], size);
    UnitsConcat(A + [L[k]], B, size');
    UnitsConcat(A, [L[k]], size');
    UnitsOne(L[k], size);
    UnitsOne(L[k], size');
    UnitsSame(A, size, size');
    UnitsSame(B, size, size');
  }

  // ---- the whole of free() ----

  datatype Lists = Lists(L: seq<int>, ptr: Cells, size: Cells)

  ghost function LinkStep(h: Lists, t: nat, bp: int): Lists
    requires t < |h.L|
  {
    Lists(Linked(h.L, t, bp), h.ptr[bp := Succ(h.L, t)][h.L[t] := bp], h.size)
  }

  /** Merge the i-th block with the next if they touch. */
  ghost function MergeStep(h: Lists, i: nat): Lists {
    if Touching(h.L, h.size, i) && h.L[i + 1] in h.size then
      Lists(Unlinked(h.L, i), h.ptr[h.L[i] := Succ(h.L, i + 1)], Swallow(h.L, h.size, i))
    else h
  }

  ghost predicate Fits(h: Lists, alloc: Cells, brk: int) {
    Good(h.L, h.ptr, h.size, alloc, brk)
  }

  lemma FitsSizes(h: Lists, alloc: Cells, brk: int)
    requires Fits(h, alloc, brk)
    ensures forall k | 0 <= k < |h.L| :: h.L[k] in h.size && h.L[k] in h.ptr
    ensures |h.L| >= 1 && !Touching(h.L, h.size, 0)
  {
  }

  lemma MergeStepFits(h: Lists, alloc: Cells, brk: int, i: nat)
    requires Fits(h, alloc, brk)
    ensures Fits(MergeStep(h, i), alloc, brk)
    ensures |h.L| >= 1 && |MergeStep(h, i).L| >= 1 && MergeStep(h, i).L[0] == h.L[0]
    ensures Units(MergeStep(h, i).L, MergeStep(h, i).size) == Units(h.L, h.size)
  {
    hide Circular, Ordered, Apart, Units;
    FitsSizes(h, alloc, brk);
    if Touching(h.L, h.size, i) {
      MergeGood(h.L, h.ptr, h.size, alloc, brk, i);
      MergeUnits(h.L, h.size, brk, i);
    }
  }

  /** Once the i-th block has been merged it touches its successor no more, and nothing else has changed in that respect. */
  lemma MergeStepTouching(h: Lists, alloc: Cells, brk: int, i: nat, k: int)
    requires Fits(h, alloc, brk) && !Touching(h.L, h.size, i + 1)
    ensures var m := MergeStep(h, i);
            Touching(m.L, m.size, k) ==>
              k != i && ((k < i && Touching(h.L, h.size, k)) || (k > i && Touching(h.L, h.size, k + 1)) || (m == h && Touching(h.L, h.size, k)))
  {
    hide Circular, Ordered, Apart;
    FitsSizes(h, alloc, brk);
    if Touching(h.L, h.size, i) {
      MergeTouching(h.L, h.size, brk, i, k);
    }
  }

  /** Link bp in after the t-th block, then merge it with the block above and with the block below. */
  ghost function Freed(h: Lists, t: nat, bp: int): Lists
    requires t < |h.L|
  {
    MergeStep(MergeStep(LinkStep(h, t, bp), t + 1), t)
  }

  lemma FreedFits(h: Lists, alloc: Cells, brk: int, t: nat, bp: int)
    requires Fits(h, alloc, brk) && bp in alloc && Before(h.L, t, bp)
    ensures bp in h.size
    ensures var f := Freed(h, t, bp);
            && Fits(f, alloc - {bp}, brk) && |f.L| >= 1 && f.L[0] == h.L[0]
            && Units(f.L, f.size) == Units(h.L, h.size) + h.size[bp]
  {
    hide Circular, Ordered, Apart, Units, MergeStep;
    LinkGood(h.L, h.ptr, h.size, alloc, brk, t, bp);
    assert bp in h.size by { Sides(h.L, h.size, alloc, brk, t, bp); }
    LinkUnits(h.L, h.size, t, bp);
    var h1 := LinkStep(h, t, bp);
    MergeStepFits(h1, alloc - {bp}, brk, t + 1);
    MergeStepFits(MergeStep(h1, t + 1), alloc - {bp}, brk, t);
  }

  lemma FreedMerged(h: Lists, alloc: Cells, brk: int, t: nat, bp: int)
    requires Fits(h, alloc, brk) && bp in alloc && Before(h.L, t, bp) && Merged(h.L, h.size)
    ensures Merged(Freed(h, t, bp).L, Freed(h, t, bp).size)
  {
    hide Circular, Ordered, Apart, Units, MergeStep, Touching;
    LinkGood(h.L, h.ptr, h.size, alloc, brk, t, bp);
    var h1 := LinkStep(h, t, bp);
    var h2 := MergeStep(h1, t + 1);
    LinkTouching(h.L, h.size, t, bp, t + 2);
    MergeStepFits(h1, alloc - {bp}, brk, t + 1);
    MergeStepTouching(h1, alloc - {bp}, brk, t + 1, t + 1);
    var f := Freed(h, t, bp);
    forall k | 0 <= k < |f.L| - 1 ensures !Touching(f.L, f.size, k) {
      MergeStepTouching(h2, alloc - {bp}, brk, t, k);
      MergeStepTouching(h1, alloc - {bp}, brk, t + 1, k);
      MergeStepTouching(h1, alloc - {bp}, brk, t + 1, k + 1);
      if k != t && k != t + 1 {
        LinkTouching(h.L, h.size, t, bp, k);
      }
      if k + 1 != t && k + 1 != t + 1 {
        LinkTouching(h.L, h.size, t, bp, k + 1);
      }
      if k + 2 != t && k + 2 != t + 1 {
        LinkTouching(h.L, h.size, t, bp, k + 2);
      }
    }
  }

  /** The header writes free() makes: first bp's, then those of the block below it, p. */
  ghost predicate FreeWrites(h: Lists, h': Lists, t: nat, bp: int)
    requires t < |h.L| && bp in h.size && h.L[t] in h.size
    requires Succ(h.L, t) in h.size && Succ(h.L, t) in h.ptr
  {
    var p, next := h.L[t], Succ(h.L, t);
    var up := bp + h.size[bp] == next;
    var size1 := if up then h.size[bp := h.size[bp] + h.size[next]] else h.size;
    var ptr1 := h.ptr[bp := if up then h.ptr[next] else next];
    if p + h.size[p] == bp then
      h'.size == size1[p := size1[p] + size1[bp]] && h'.ptr == ptr1[p := ptr1[bp]]
    else h'.size == size1 && h'.ptr == ptr1[p := bp]
  }

  lemma OverwriteFirst(m: Cells, a: int, b: int, x: int, y: int, z: int)
    requires a != b
    ensures m[a := x][b := y][a := z] == m[a := z][b := y]
  {
  }

  lemma LinkMergesUp(h: Lists, alloc: Cells, brk: int, t: nat, bp: int)
    requires Fits(h, alloc, brk) && bp in alloc && Before(h.L, t, bp)
    ensures bp in h.size && Succ(h.L, t) in h.size && Succ(h.L, t) in h.ptr
    ensures var next := Succ(h.L, t);
            var up := bp + h.size[bp] == next;
            var h2 := MergeStep(LinkStep(h, t, bp), t + 1);
            && h2.size == (if up then h.size[bp := h.size[bp] + h.size[next]] else h.size)
            && h2.ptr == h.ptr[bp := if up then h.ptr[next] else next][h.L[t] := bp]
            && |h2.L| > t + 1 && h2.L[t] == h.L[t] && h2.L[t + 1] == bp
            && Succ(h2.L, t + 1) == if up then h.ptr[next] else next
  {
    hide Apart, Ordered;
    Sides(h.L, h.size, alloc, brk, t, bp);
    FitsSizes(h, alloc, brk);
    var h1 := LinkStep(h, t, bp);
    assert h1.L[t + 1] == bp && h1.L[t] == h.L[t];
    if t + 1 < |h.L| {
      assert h1.L[t + 2] == h.L[t + 1];
      assert Succ(h1.L, t + 2) == Succ(h.L, t + 1);
      OverwriteFirst(h.ptr, bp, h.L[t], h.L[t + 1], bp, Succ(h.L, t + 1));
    } else {
      assert Succ(h.L, t) == h.L[0] < bp;
    }
  }

  /** The second merge, of p with bp after it. */
  lemma MergesDown(h: Lists, t: nat, p: int, bp: int)
    requires t + 1 < |h.L| && h.L[t] == p && h.L[t + 1] == bp && p in h.size && bp in h.size
    ensures var f := MergeStep(h, t);
            if p + h.size[p] == bp then
              f.size == h.size[p := h.size[p] + h.size[bp]] && f.ptr == h.ptr[p := Succ(h.L, t + 1)]
            else f == h
  {
  }

  lemma OverwriteSame(m: Cells, a: int, x: int, y: int)
    ensures m[a := x][a := y] == m[a := y]
  {
  }

  lemma FreedIsFreeWrites(h: Lists, alloc: Cells, brk: int, t: nat, bp: int)
    requires Fits(h, alloc, brk) && bp in alloc && Before(h.L, t, bp)
    ensures bp in h.size && h.L[t] in h.size && Succ(h.L, t) in h.size && Succ(h.L, t) in h.ptr
    ensures FreeWrites(h, Freed(h, t, bp), t, bp)
  {
    hide Fits, MergeStep, LinkStep, Succ;
    FitsSizes(h, alloc, brk);
    LinkMergesUp(h, alloc, brk, t, bp);
    var h2 := MergeStep(LinkStep(h, t, bp), t + 1);
    MergesDown(h2, t, h.L[t], bp);
    OverwriteSame(h.ptr[bp := Succ(h2.L, t + 1)], h.L[t], bp, Succ(h2.L, t + 1));
  }

  /** The freed units lie inside one block of the new free list, the one freep names or the one after it. */
  ghost predicate Contains(L: seq<int>, size: Cells, bp: int, n: int) {
    exists k | 0 <= k < |L| :: L[k] in size && L[k] <= bp && bp + n <= L[k] + size[L[k]]
  }

  lemma FreedContains(h: Lists, alloc: Cells, brk: int, t: nat, bp: int)
    requires Fits(h, alloc, brk) && bp in alloc && Before(h.L, t, bp)
    ensures t < |Freed(h, t, bp).L| && Freed(h, t, bp).L[t] == h.L[t]
    ensures bp in h.size && Contains(Freed(h, t, bp).L, Freed(h, t, bp).size, bp, h.size[bp])
  {
    hide Circular, Apart;
    FitsSizes(h, alloc, brk);
    LinkMergesUp(h, alloc, brk, t, bp);
    Sides(h.L, h.size, alloc, brk, t, bp);
    var h2 := MergeStep(LinkStep(h, t, bp), t + 1);
    var f := Freed(h, t, bp);
    assert h2.size[bp] >= h.size[bp] && h2.size[h.L[t]] == h.size[h.L[t]];
    if Touching(h2.L, h2.size, t) {
      assert f.L[t] == h.L[t] && f.L[t] + f.size[f.L[t]] == bp + h2.size[bp];
    } else {
      assert f.L[t + 1] == bp;
    }
  }

  /** No free block's header lies in an allocated block. */
  lemma HeadersApart(L: seq<int>, size: Cells, alloc: Cells, brk: int, i: nat, a: int, x: int)
    requires Ordered(L, size, brk) && Apart(L, size, alloc, brk) && i < |L|
    requires a in alloc && a <= x < a + alloc[a]
    ensures x != L[i]
  {
  }

  lemma BlocksApart(L: seq<int>, size: Cells, alloc: Cells, brk: int, a: int, b: int, x: int)
    requires Apart(L, size, alloc, brk)
    requires a in alloc && b in alloc && a != b && a <= x < a + alloc[a]
    ensures x != b
  {
  }

  /** Fresh memory above the break becomes an allocated block of its own. */
  lemma GrowBeyond(L: seq<int>, size: Cells, alloc: Cells, brk: int, hp: int)
    requires Ordered(L, size, brk) && Apart(L, size, alloc, brk) && brk <= hp && |L| > 0 && L[0] < hp
    ensures hp !in alloc && forall i | 0 <= i < |L| :: L[i] < hp && L[i] in size && L[i] + size[L[i]] <= hp
    ensures forall a | a in alloc :: a < hp && a + alloc[a] <= hp && L[0] < a
  {
    forall i | 0 <= i < |L| ensures L[i] < hp && L[i] + size[L[i]] <= hp {
      assert L[i] + size[L[i]] <= brk;
    }
  }

  lemma GrowOrdered(L: seq<int>, size: Cells, brk: int, hp: int, n: int)
    requires Ordered(L, size, brk) && brk <= hp && 1 <= n && forall i | 0 <= i < |L| :: L[i] < hp
    ensures Ordered(L, size[hp := n], hp + n)
  {
  }

  lemma GrowApart(L: seq<int>, size: Cells, alloc: Cells, brk: int, hp: int, n: int)
    requires Ordered(L, size, brk) && Apart(L, size, alloc, brk) && brk <= hp && 1 <= n && |L| > 0 && L[0] < hp
    ensures Apart(L, size[hp := n], alloc[hp := n], hp + n)
  {
    GrowBeyond(L, size, alloc, brk, hp);
    var size', alloc' := size[hp := n], alloc[hp := n];
    forall a, i | a in alloc' && 0 <= i < |L|
      ensures (L[i] < a || a + alloc'[a] <= L[i]) && (a < L[i] || L[i] + size'[L[i]] <= a) && a != L[i]
    {
      assert L[i] < hp;
    }
    ApartFrom(L, size', alloc', hp + n);
  }

  lemma GrowGood(L: seq<int>, ptr: Cells, size: Cells, alloc: Cells, brk: int, hp: int, n: int)
    requires Good(L, ptr, size, alloc, brk) && brk <= hp && 1 <= n && L[0] < hp
    ensures Good(L, ptr, size[hp := n], alloc[hp := n], hp + n)
    ensures hp !in alloc && forall i | 0 <= i < |L| :: L[i] != hp
  {
    hide Ordered, Apart;
    assert |L| > 0;
    GrowBeyond(L, size, alloc, brk, hp);
    GrowOrdered(L, size, brk, hp, n);
    GrowApart(L, size, alloc, brk, hp, n);
  }
}
