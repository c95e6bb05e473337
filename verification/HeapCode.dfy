/**
 malloc, free and morecore of umalloc.c. Memory is modelled by its header cells, two maps from
 unit addresses to the ptr and size fields found there. sbrk is a parameter: whether it grants
 the request, and how far other callers of sbrk have moved the break meanwhile.
 */
module HeapCode {
  import opened HeapSpec
  import opened Sums

  const HEADER: nat := 8
  const UINT: nat := 0x1_0000_0000
  const MINCORE: nat := 4096
  /** Requests up to here keep the byte count that morecore hands to sbrk below 2^31. */
  const MAXREQUEST: nat := 0x7000_0000

  function Weight(n: int): nat { if n < 0 then 0 else n }

  /** nunits: one header, and the bytes rounded up to whole headers. */
  function UnitsFor(nbytes: nat): nat {
    ((nbytes + HEADER - 1) % UINT) / HEADER + 1
  }

  /** What morecore asks sbrk for. */
  function CoreFor(nu: nat): (r: nat)
    ensures nu <= r && MINCORE <= r && (r == nu || r == MINCORE)
  {
    if nu < MINCORE then MINCORE else nu
  }

  class Heap {
    const base: int
    var ptr: Cells
    var size: Cells
    var freep: int
    var brk: int
    ghost var L: seq<int>
    ghost var alloc: Cells
    ghost var core: nat

    ghost function H(): Lists
      reads this
    {
      Lists(L, ptr, size)
    }

    /**
     The free list is circular and in address order, no two free blocks touch, no blocks overlap,
     and every unit sbrk ever gave is on the free list or in an allocated block.
     */
    ghost predicate Valid()
      reads this
    {
      && 0 < base < brk
      && (freep == 0 ==> alloc == map[] && core == 0 && L == [])
      && (freep != 0 ==>
            && Fits(H(), alloc, brk)
            && Merged(L, size)
            && |L| >= 1 && L[0] == base
            && freep in L
            && Units(L, size) + Weigh(alloc, Weight) == core)
    }

    constructor (base: int, brk: int)
      requires 0 < base < brk
      ensures Valid() && alloc == map[] && core == 0 && this.base == base && this.brk == brk && freep == 0
    {
      this.base, this.brk := base, brk;
      ptr, size, freep := map[], map[], 0;
      L, alloc, core := [], map[], 0;
    }

    /** free()'s search: once round the list at most, stopping at the last free block below bp. */
    method Locate(bp: int) returns (p: int, ghost t: nat)
      requires Valid() && freep != 0 && bp in alloc
      ensures Before(L, t, bp) && p == L[t]
      ensures p in L && p < bp && forall q | q in L :: q <= p || q > bp
    {
      hide Ordered, Apart, Merged, Units, Weigh, Circular;
      LinkDistinct(L, size, alloc, brk, bp);
      t := FindBefore(L, bp, |L|);
      p := freep;
      ghost var k :| 0 <= k < |L| && L[k] == freep;
      StopsExactly(L, ptr, t, k, bp);
      while !(bp > p && bp < ptr[p])
        invariant 0 <= k < |L| && p == L[k] && p in ptr
        invariant (bp > p && bp < ptr[p]) || (p >= ptr[p] && (bp > p || bp < ptr[p])) <==> k == t
        decreases if k <= t then t - k else t - k + |L|
      {
        if p >= ptr[p] && (bp > p || bp < ptr[p]) {
          return;
        }
        k := RingStep(L, ptr, k);
        p := ptr[p];
        StopsExactly(L, ptr, t, k, bp);
      }
    }

    method Free(ap: int)
      requires Valid() && ap - 1 in alloc
      modifies this`ptr, this`size, this`freep, this`L, this`alloc
      ensures Valid() && freep != 0
      ensures alloc == old(alloc) - {ap - 1}
      ensures Untouched(old(H()), H(), alloc)
      ensures Contains(L, size, ap - 1, old(alloc)[ap - 1])
    {
      hide Good, Merged, Units, Freed, Weigh, Contains, Untouched;
      ghost var h := H();
      var bp := ap - 1;
      var p, t := Locate(bp);
      NextIs(h, alloc, brk, t, bp);
      if bp + size[bp] == ptr[p] {
        size := size[bp := size[bp] + size[ptr[p]]];
        ptr := ptr[bp := ptr[ptr[p]]];
      } else {
        ptr := ptr[bp := ptr[p]];
      }
      if p + size[p] == bp {
        size := size[p := size[p] + size[bp]];
        ptr := ptr[p := ptr[bp]];
      } else {
        ptr := ptr[p := bp];
      }
      freep := p;
      FreeOutcome(h, H(), alloc, brk, t, bp);
      WeighRemove(alloc, bp, Weight);
      L, alloc := Freed(h, t, bp).L, alloc - {bp};
    }

    /** Ask sbrk for at least nu units and put them on the free list; 0 if sbrk refuses. */
    method MoreCore(nu: nat, grant: bool, gap: nat) returns (p: int)
      requires Valid() && freep != 0 && nu >= 1
      modifies this`ptr, this`size, this`freep, this`L, this`alloc, this`core, this`brk
      ensures Valid() && freep != 0 && alloc == old(alloc)
      ensures p == (if grant then freep else 0)
      ensures !grant ==> H() == old(H()) && freep == old(freep) && core == old(core)
      ensures grant ==> core == old(core) + CoreFor(nu) && Untouched(old(H()), H(), alloc)
      ensures grant ==> exists k | 0 <= k < |L| :: L[k] in size && size[L[k]] >= nu
    {
      hide Good, Merged, Units, Weigh;
      var n := CoreFor(nu);
      if !grant {
        return 0;
      }
      ghost var h := H();
      var hp := brk + gap;
      GrowFits(h, alloc, brk, hp, n);
      WeighUpdate(alloc, hp, n, Weight);
      brk := hp + n;
      size := size[hp := n];
      alloc, core := alloc[hp := n], core + n;
      ghost var h1 := H();
      Free(hp + 1);
      assert alloc == old(alloc);
      UntouchedChain(h, h1, H(), alloc);
      p := freep;
    }

    /** Take nunits from the k-th free block: all of it, or its top end. */
    method Carve(prevp: int, p: int, nunits: nat, ghost k: nat) returns (ap: int)
      requires Valid() && freep != 0 && 1 <= k < |L| && L[k] == p && L[k - 1] == prevp
      requires p in size && size[p] >= nunits >= 1
      modifies this`ptr, this`size, this`freep, this`L, this`alloc
      ensures Valid() && freep != 0 && ap != 0
      ensures ap - 1 !in old(alloc) && alloc == old(alloc)[ap - 1 := nunits]
      ensures Untouched(old(H()), H(), old(alloc))
    {
      hide Good, Merged, Units, Weigh, Untouched, Unlinked;
      ghost var h := H();
      FitsFacts(h, alloc, brk, k);
      FitsFacts(h, alloc, brk, k - 1);
      if size[p] == nunits {
        TakeOutcome(h, alloc, brk, k);
        ptr := ptr[prevp := ptr[p]];
        L := Unlinked(L, k - 1);
        ap := p + 1;
      } else {
        SplitOutcome(h, alloc, brk, k, nunits);
        size := size[p := size[p] - nunits];
        var q := p + size[p];
        size := size[q := nunits];
        ap := q + 1;
      }
      WeighUpdate(alloc, ap - 1, nunits, Weight);
      alloc := alloc[ap - 1 := nunits];
      freep := prevp;
    }

    /**
     First fit from freep, going round once; if nothing is large enough, one call of morecore and
     a second round that is certain to succeed.
     */
    method Malloc(nbytes: nat, grant: bool, gap: nat) returns (ap: int)
      requires Valid() && nbytes <= MAXREQUEST
      modifies this`ptr, this`size, this`freep, this`L, this`alloc, this`core, this`brk
      ensures Valid()
      ensures ap != 0 ==>
                && ap - 1 !in old(alloc)
                && alloc == old(alloc)[ap - 1 := UnitsFor(nbytes)]
                && HEADER * (UnitsFor(nbytes) - 1) >= nbytes
                && Untouched(old(H()), H(), old(alloc))
      ensures ap == 0 <==> !grant && !Fitting(old(H()), UnitsFor(nbytes))
      ensures ap == 0 ==> alloc == old(alloc) && core == old(core) && (old(freep) != 0 ==> H() == old(H()) && freep == old(freep))
      // more core is asked for exactly when nothing in the list fits
      ensures core == old(core) + if grant && !Fitting(old(H()), UnitsFor(nbytes)) then CoreFor(UnitsFor(nbytes)) else 0
    {
      hide Good, Merged, Units, Weigh, Untouched, Scanning, Dist, UnitsFor;
      var nunits := UnitsFor(nbytes);
      EnoughUnits(nbytes);
      if freep == 0 {
        StartList();
      }
      FirstUntouched(old(H()), H(), old(alloc));
      ghost var h0, freep0 := H(), freep;
      StartFits(old(H()), h0, old(freep) == 0, nunits);
      ghost var j: nat :| j < |L| && L[j] == freep;
      ghost var k := ScanStart(H(), alloc, brk, j, nunits, false);
      ghost var pk: nat := j;
      var prevp := freep;
      var p := ptr[prevp];
      ghost var grown := false;
      while true
        invariant Valid() && freep != 0 && alloc == old(alloc)
        invariant 0 <= k < |L| && 0 <= j < |L| && Scanning(H(), freep, prevp, p, pk, k, j, nunits, grown)
        invariant core == old(core) + if grown then CoreFor(nunits) else 0
        invariant grown ==> grant && !Fitting(h0, nunits)
        invariant !grown ==> H() == h0 && freep == freep0
        invariant Untouched(old(H()), H(), alloc)
        decreases !grown, Dist(|L|, k, j)
      {
        ghost var h := H();
        ScanFacts(h, alloc, brk, freep, prevp, p, pk, k, j, nunits, grown);
        if size[p] >= nunits {
          assert !grown ==> Fitting(h0, nunits);
          ap := Carve(prevp, p, nunits, k);
          UntouchedChain(old(H()), h, H(), old(alloc));
          return;
        }
        if p == freep {
          ScanEnd(h, alloc, brk, freep, prevp, p, pk, k, j, nunits, grown);
          p := MoreCore(nunits, grant, gap);
          if p == 0 {
            return 0;
          }
          UntouchedChain(old(H()), h, H(), alloc);
          grown := true;
          j :| j < |L| && L[j] == freep;
          k := ScanStart(H(), alloc, brk, j, nunits, true);
          pk := j;
        } else {
          pk, k := ScanNext(h, alloc, brk, freep, prevp, p, pk, k, j, nunits, grown);
        }
        prevp := p;
        p := ptr[p];
      }
    }

    /** The first call: the empty block base, linked to itself. */
    method StartList()
      requires Valid() && freep == 0
      modifies this`ptr, this`size, this`freep, this`L
      ensures Valid() && freep == base && L == [base] && base in size && size[base] == 0
    {
      ptr := ptr[base := base];
      freep := base;
      size := size[base := 0];
      L := [base];
      FirstUse(base, ptr, size, brk);
    }
  }

  /** Some free block is large enough. */
  ghost predicate Fitting(h: Lists, n: int) {
    exists k | 0 <= k < |h.L| :: h.L[k] in h.size && h.size[h.L[k]] >= n
  }

  /** The first call finds an empty list and starts one in which nothing fits. */
  lemma StartFits(h: Lists, h': Lists, first: bool, n: nat)
    requires n >= 1
    requires if first then h.L == [] && |h'.L| == 1 && h'.L[0] in h'.size && h'.size[h'.L[0]] == 0 else h' == h
    ensures Fitting(h', n) <==> Fitting(h, n)
  {
  }

  /** Below 2^32 - 7 bytes nothing wraps: the payload holds every byte asked for. */
  lemma EnoughUnits(nbytes: nat)
    requires nbytes + HEADER - 1 < UINT
    ensures UnitsFor(nbytes) >= 1 && nbytes <= HEADER * (UnitsFor(nbytes) - 1) < nbytes + HEADER
  {
  }

  /** malloc's scan: p follows prevp, the round ends at freep, and what has been passed is too small. */
  ghost predicate Scanning(h: Lists, freep: int, prevp: int, p: int, pk: nat, k: nat, j: nat, n: int, grown: bool) {
    && k < |h.L| && j < |h.L| && pk < |h.L|
    && h.L[j] == freep && h.L[k] == p && h.L[pk] == prevp
    && k == (if pk + 1 < |h.L| then pk + 1 else 0)
    && VisitedSmall(h, k, j, n)
    && (grown ==> LargeAhead(h, k, j, n))
  }

  lemma ScanStart(h: Lists, alloc: Cells, brk: int, j: nat, n: int, grown: bool) returns (k: nat)
    requires Fits(h, alloc, brk) && j < |h.L|
    requires grown ==> exists i | 0 <= i < |h.L| :: h.L[i] in h.size && h.size[h.L[i]] >= n
    ensures k < |h.L| && h.L[j] in h.ptr && Scanning(h, h.L[j], h.L[j], h.ptr[h.L[j]], j, k, j, n, grown)
  {
    FullCircle(h, alloc, brk, j, n);
    k := FitsStep(h, alloc, brk, j);
  }

  lemma ScanFacts(h: Lists, alloc: Cells, brk: int, freep: int, prevp: int, p: int, pk: nat, k: nat, j: nat, n: int, grown: bool)
    requires Fits(h, alloc, brk) && Scanning(h, freep, prevp, p, pk, k, j, n, grown) && n >= 1
    ensures p in h.size && p in h.ptr
    ensures h.size[p] >= n ==> 1 <= k < |h.L| && h.L[k] == p && h.L[k - 1] == prevp
  {
    FitsFacts(h, alloc, brk, k);
  }

  lemma ScanNext(h: Lists, alloc: Cells, brk: int, freep: int, prevp: int, p: int, pk: nat, k: nat, j: nat, n: int, grown: bool)
    returns (pk': nat, k': nat)
    requires Fits(h, alloc, brk) && Scanning(h, freep, prevp, p, pk, k, j, n, grown) && p != freep
    requires p in h.size && h.size[p] < n
    ensures k' < |h.L| && p in h.ptr && Scanning(h, freep, p, h.ptr[p], pk', k', j, n, grown)
    ensures Dist(|h.L|, k', j) < Dist(|h.L|, k, j)
  {
    VisitNext(h, k, j, n);
    pk' := k;
    k' := FitsStep(h, alloc, brk, k);
  }

  /** Back at freep with nothing found: every block is too small, so there has been no morecore. */
  lemma ScanEnd(h: Lists, alloc: Cells, brk: int, freep: int, prevp: int, p: int, pk: nat, k: nat, j: nat, n: int, grown: bool)
    requires Fits(h, alloc, brk) && Scanning(h, freep, prevp, p, pk, k, j, n, grown) && p == freep
    requires p in h.size && h.size[p] < n
    ensures !grown && forall i | 0 <= i < |h.L| :: h.L[i] in h.size && h.size[h.L[i]] < n
  {
    FitsFacts(h, alloc, brk, k);
  }

  /** How many steps round a circle of n lead from k to i. */
  function Dist(n: nat, k: nat, i: nat): nat
    requires k < n && i < n
  {
    if i >= k then i - k else i - k + n
  }

  /** The blocks passed since freep, those not between k and j, are too small. */
  ghost predicate VisitedSmall(h: Lists, k: nat, j: nat, n: int)
    requires k < |h.L| && j < |h.L|
  {
    forall i | 0 <= i < |h.L| :: h.L[i] in h.size && (Dist(|h.L|, k, i) > Dist(|h.L|, k, j) ==> h.size[h.L[i]] < n)
  }

  /** A block that is large enough is still to come. */
  ghost predicate LargeAhead(h: Lists, k: nat, j: nat, n: int)
    requires k < |h.L| && j < |h.L|
  {
    exists i | 0 <= i < |h.L| :: h.L[i] in h.size && Dist(|h.L|, k, i) <= Dist(|h.L|, k, j) && h.size[h.L[i]] >= n
  }

  /** Cells inside the given blocks are as they were. */
  ghost predicate Untouched(h: Lists, h': Lists, blocks: Cells) {
    forall a, x | a in blocks && a <= x < a + blocks[a] ::
      && (x in h.ptr ==> x in h'.ptr && h'.ptr[x] == h.ptr[x])
      && (x in h.size ==> x in h'.size && h'.size[x] == h.size[x])
  }

  lemma NextIs(h: Lists, alloc: Cells, brk: int, t: nat, bp: int)
    requires Fits(h, alloc, brk) && bp in alloc && Before(h.L, t, bp)
    ensures h.L[t] in h.ptr && h.ptr[h.L[t]] == Succ(h.L, t)
    ensures h.L[t] in h.size && bp in h.size && alloc[bp] == h.size[bp] && alloc[bp] >= 1
    ensures Succ(h.L, t) in h.ptr && Succ(h.L, t) in h.size
    ensures h.L[t] != bp && Succ(h.L, t) != bp && h.L[t] >= h.L[0]
  {
  }

  /** free() writes only to the headers of free blocks and of the block being freed. */
  lemma FreedTouches(h: Lists, h': Lists, alloc: Cells, brk: int, t: nat, bp: int)
    requires Fits(h, alloc, brk) && bp in alloc && Before(h.L, t, bp)
    requires bp in h.size && h.L[t] in h.size && Succ(h.L, t) in h.size && Succ(h.L, t) in h.ptr
    requires FreeWrites(h, h', t, bp)
    ensures Untouched(h, h', alloc - {bp})
  {
    hide Apart, Ordered;
    forall a, x | a in alloc - {bp} && a <= x < a + alloc[a]
      ensures (x in h.ptr ==> x in h'.ptr && h'.ptr[x] == h.ptr[x]) && (x in h.size ==> x in h'.size && h'.size[x] == h.size[x])
    {
      HeadersApart(h.L, h.size, alloc, brk, t, a, x);
      BlocksApart(h.L, h.size, alloc, brk, a, bp, x);
    }
  }

  /** What free() has achieved once its header writes are done. */
  lemma FreeOutcome(h: Lists, h': Lists, alloc: Cells, brk: int, t: nat, bp: int)
    requires Fits(h, alloc, brk) && bp in alloc && Before(h.L, t, bp) && Merged(h.L, h.size)
    requires bp in h.size && h.L[t] in h.size && Succ(h.L, t) in h.size && Succ(h.L, t) in h.ptr
    requires FreeWrites(h, h', t, bp)
    ensures var f := Freed(h, t, bp);
            && f.ptr == h'.ptr && f.size == h'.size
            && Fits(f, alloc - {bp}, brk) && Merged(f.L, f.size)
            && |f.L| >= 1 && f.L[0] == h.L[0] && h.L[t] in f.L
            && Units(f.L, f.size) == Units(h.L, h.size) + h.size[bp]
            && Untouched(h, f, alloc - {bp})
            && Contains(f.L, f.size, bp, h.size[bp])
  {
    hide Good, Merged, Units, Freed, Contains, Untouched;
    FreedFits(h, alloc, brk, t, bp);
    FreedMerged(h, alloc, brk, t, bp);
    FreedIsFreeWrites(h, alloc, brk, t, bp);
    FreedContains(h, alloc, brk, t, bp);
    FreedTouches(h, Freed(h, t, bp), alloc, brk, t, bp);
  }

  /** A block beyond the break touches no free block and no allocated one. */
  lemma GrowElsewhere(h: Lists, alloc: Cells, brk: int, hp: int, n: int)
    requires Fits(h, alloc, brk) && brk <= hp
    ensures Untouched(h, h.(size := h.size[hp := n]), alloc)
  {
    hide Circular, Ordered;
  }

  lemma GrowFits(h: Lists, alloc: Cells, brk: int, hp: int, n: int)
    requires Fits(h, alloc, brk) && brk <= hp && 1 <= n && |h.L| >= 1 && h.L[0] < hp
    ensures Fits(h.(size := h.size[hp := n]), alloc[hp := n], hp + n)
    ensures hp !in alloc
    ensures Merged(h.L, h.size) ==> Merged(h.L, h.size[hp := n])
    ensures Units(h.L, h.size[hp := n]) == Units(h.L, h.size)
    ensures Untouched(h, h.(size := h.size[hp := n]), alloc)
  {
    hide Good, Untouched;
    FitsSizes(h, alloc, brk);
    GrowGood(h.L, h.ptr, h.size, alloc, brk, hp, n);
    GrowElsewhere(h, alloc, brk, hp, n);
    UnitsSame(h.L, h.size, h.size[hp := n]);
    if Merged(h.L, h.size) {
      var size' := h.size[hp := n];
      forall i | 0 <= i < |h.L| - 1 ensures !Touching(h.L, size', i) {
        assert !Touching(h.L, h.size, i);
      }
    }
  }

  lemma UntouchedChain(h: Lists, g: Lists, k: Lists, blocks: Cells)
    requires Untouched(h, g, blocks) && Untouched(g, k, blocks)
    ensures Untouched(h, k, blocks)
  {
  }

  /** The list malloc sets up on its first call: base alone, pointing to itself. */
  lemma FirstUse(base: int, ptr: Cells, size: Cells, brk: int)
    requires base in ptr && ptr[base] == base && base in size && size[base] == 0 && base < brk
    ensures Fits(Lists([base], ptr, size), map[], brk) && Merged([base], size) && Units([base], size) == 0
    ensures Weigh(map[], Weight) == 0
  {
    UnitsOne(base, size);
    WeighZero(map[], Weight);
  }

  lemma FirstUntouched(h: Lists, g: Lists, blocks: Cells)
    requires g == h || blocks == map[]
    ensures Untouched(h, g, blocks)
  {
  }

  lemma FitsStep(h: Lists, alloc: Cells, brk: int, k: nat) returns (k': nat)
    requires Fits(h, alloc, brk) && k < |h.L|
    ensures k' == (if k + 1 < |h.L| then k + 1 else 0) && h.L[k] in h.ptr && h.ptr[h.L[k]] == h.L[k']
  {
    k' := RingStep(h.L, h.ptr, k);
  }

  lemma FitsFacts(h: Lists, alloc: Cells, brk: int, k: nat)
    requires Fits(h, alloc, brk) && k < |h.L|
    ensures h.L[k] in h.size && h.L[k] in h.ptr && (k == 0 ==> h.size[h.L[k]] == 0) && h.L[k] >= h.L[0]
    ensures forall i | 0 <= i < |h.L| :: h.L[i] == h.L[k] ==> i == k
  {
  }

  /** At the start of a round nothing has been passed yet, and whatever is large enough lies ahead. */
  lemma FullCircle(h: Lists, alloc: Cells, brk: int, j: nat, n: int)
    requires Fits(h, alloc, brk) && j < |h.L|
    ensures h.L[j] in h.ptr
    ensures var k := if j + 1 < |h.L| then j + 1 else 0;
            && VisitedSmall(h, k, j, n)
            && ((exists i | 0 <= i < |h.L| :: h.L[i] in h.size && h.size[h.L[i]] >= n) ==> LargeAhead(h, k, j, n))
  {
    hide Apart;
    var k := if j + 1 < |h.L| then j + 1 else 0;
    assert forall i | 0 <= i < |h.L| :: Dist(|h.L|, k, i) <= Dist(|h.L|, k, j);
  }

  lemma VisitNext(h: Lists, k: nat, j: nat, n: int)
    requires k < |h.L| && j < |h.L| && k != j && VisitedSmall(h, k, j, n) && h.size[h.L[k]] < n
    ensures var k' := if k + 1 < |h.L| then k + 1 else 0;
            && VisitedSmall(h, k', j, n)
            && (LargeAhead(h, k, j, n) ==> LargeAhead(h, k', j, n))
            && Dist(|h.L|, k', j) < Dist(|h.L|, k, j)
  {
    var k' := if k + 1 < |h.L| then k + 1 else 0;
    assert forall i | 0 <= i < |h.L| && i != k :: Dist(|h.L|, k', i) == Dist(|h.L|, k, i) - 1;
    if LargeAhead(h, k, j, n) {
      var i :| 0 <= i < |h.L| && h.L[i] in h.size && Dist(|h.L|, k, i) <= Dist(|h.L|, k, j) && h.size[h.L[i]] >= n;
      assert i != k;
    }
  }

  lemma TakeOutcome(h: Lists, alloc: Cells, brk: int, k: nat)
    requires Fits(h, alloc, brk) && Merged(h.L, h.size) && 1 <= k < |h.L|
    ensures h.L[k] in h.size && h.L[k] in h.ptr && h.L[k] !in alloc
    ensures var h' := Lists(Unlinked(h.L, k - 1), h.ptr[h.L[k - 1] := h.ptr[h.L[k]]], h.size);
            && Fits(h', alloc[h.L[k] := h.size[h.L[k]]], brk) && Merged(h'.L, h'.size)
            && Units(h'.L, h'.size) + h.size[h.L[k]] == Units(h.L, h.size)
            && Untouched(h, h', alloc)
            && |h'.L| >= 1 && h'.L[0] == h.L[0] && h.L[k - 1] in h'.L
  {
    hide Units, Apart, Ordered, Merged, Circular;
    TakeGood(h.L, h.ptr, h.size, alloc, brk, k);
    TakeMerged(h.L, h.size, brk, k);
    TakeUnits(h.L, h.size, k);
    NotAllocated(h, alloc, brk, k);
    var h' := Lists(Unlinked(h.L, k - 1), h.ptr[h.L[k - 1] := h.ptr[h.L[k]]], h.size);
    assert h'.L[k - 1] == h.L[k - 1];
    forall a, x | a in alloc && a <= x < a + alloc[a]
      ensures (x in h.ptr ==> x in h'.ptr && h'.ptr[x] == h.ptr[x]) && (x in h.size ==> x in h'.size && h'.size[x] == h.size[x])
    {
      HeadersApart(h.L, h.size, alloc, brk, k - 1, a, x);
    }
  }

  lemma NotAllocated(h: Lists, alloc: Cells, brk: int, k: nat)
    requires Fits(h, alloc, brk) && k < |h.L|
    ensures h.L[k] !in alloc
  {
  }

  lemma SplitOutcome(h: Lists, alloc: Cells, brk: int, k: nat, n: int)
    requires Fits(h, alloc, brk) && Merged(h.L, h.size) && 1 <= k < |h.L|
    requires h.L[k] in h.size && 1 <= n < h.size[h.L[k]]
    ensures h.L[k] + h.size[h.L[k]] - n !in alloc
    ensures var q := h.L[k] + h.size[h.L[k]] - n;
            var h' := h.(size := h.size[h.L[k] := h.size[h.L[k]] - n][q := n]);
            && Fits(h', alloc[q := n], brk) && Merged(h'.L, h'.size)
            && Units(h'.L, h'.size) + n == Units(h.L, h.size)
            && Untouched(h, h', alloc)
  {
    hide Units, Apart, Ordered, Merged, Circular;
    SplitElsewhere(h.L, h.size, alloc, brk, k, n);
    SplitOrdered(h.L, h.size, alloc, brk, k, n);
    SplitApart(h.L, h.size, alloc, brk, k, n);
    SplitMerged(h.L, h.size, alloc, brk, k, n);
    SplitUnits(h.L, h.size, alloc, brk, k, n);
    var q := h.L[k] + h.size[h.L[k]] - n;
    var h' := h.(size := h.size[h.L[k] := h.size[h.L[k]] - n][q := n]);
    forall a, x | a in alloc && a <= x < a + alloc[a]
      ensures (x in h.ptr ==> x in h'.ptr && h'.ptr[x] == h.ptr[x]) && (x in h.size ==> x in h'.size && h'.size[x] == h.size[x])
    {
      HeadersApart(h.L, h.size, alloc, brk, k, a, x);
      NewHeaderApart(h, alloc, brk, k, n, a, x);
    }
  }

  lemma NewHeaderApart(h: Lists, alloc: Cells, brk: int, k: nat, n: int, a: int, x: int)
    requires Fits(h, alloc, brk) && k < |h.L| && h.L[k] in h.size && 1 <= n < h.size[h.L[k]]
    requires a in alloc && a <= x < a + alloc[a]
    ensures x != h.L[k] + h.size[h.L[k]] - n
  {
  }
}
