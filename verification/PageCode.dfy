/** The page allocator of kalloc.c and the page-table code of vm.c. */
module PageCode {
  import opened Common
  import opened PageCount
  import opened PageSpec

  type Page = seq<int>

  function ZeroPage(): Page {
    seq(PGSIZE, _ => 0)
  }

  /** PGROUNDUP, as a page number. */
  function PagesUp(sz: nat): (r: nat)
    ensures sz <= r * PGSIZE < sz + PGSIZE
  {
    (sz + PGSIZE - 1) / PGSIZE
  }

  /** Page p lies wholly between two addresses. */
  predicate WholePage(start: nat, end: nat, p: int) {
    start <= p * PGSIZE && (p + 1) * PGSIZE <= end
  }

  /** use has grown from use0 only by page tables of directory d. */
  ghost predicate GrownTabs(use0: Uses, use: Uses, d: int) {
    && (forall f | f in use0 :: Is(use, f, use0[f]))
    && (forall f | f in use && f !in use0 :: use[f].Tab? && use[f].d == d)
  }

  /** The directories of use0 map what they did, but for d's pages v..v+n-1, which go to the pages from f on. */
  ghost predicate MapsRange(tab0: Tables, tab: Tables, use0: Uses, d: int, v: int, n: int, f: int, perm: Perm) {
    forall d', w | Is(use0, d', Dir) ::
      Lookup(tab, d', w) == if d' == d && v <= w < v + n then Present(f + (w - v), perm) else Lookup(tab0, d', w)
  }

  /** The directories of use0 map what they did, but for d's pages lo..hi-1, which are absent. */
  ghost predicate Unmaps(tab0: Tables, tab: Tables, use0: Uses, d: int, lo: int, hi: int) {
    forall d', w | Is(use0, d', Dir) ::
      Lookup(tab, d', w) == if d' == d && lo <= w < hi then Absent else Lookup(tab0, d', w)
  }

  /** An absent page table means 1024 absent pages. */
  lemma AbsentTable(tab: Tables, d: int, v: int)
    requires EntryAt(tab, d, v / NPTENTRIES).Absent?
    ensures forall w | v <= w < (v / NPTENTRIES + 1) * NPTENTRIES :: Lookup(tab, d, w) == Absent
  {
    forall w | v <= w < (v / NPTENTRIES + 1) * NPTENTRIES ensures Lookup(tab, d, w) == Absent {
      assert w / NPTENTRIES == v / NPTENTRIES;
    }
  }

  ghost predicate KeepsDirs(use0: Uses, use: Uses) {
    forall d | Is(use0, d, Dir) :: Is(use, d, Dir)
  }

  lemma RangeGrows(tab0: Tables, tab: Tables, tab1: Tables, tab2: Tables, use0: Uses, use: Uses, use1: Uses,
                   d: int, v: int, k: nat, f: int, perm: Perm)
    requires MapsRange(tab0, tab, use0, d, v, k, f, perm) && SameView(tab, tab1, use)
    requires KeepsDirs(use0, use) && KeepsDirs(use0, use1)
    requires forall d', w | Is(use1, d', Dir) ::
               Lookup(tab2, d', w) == if d' == d && w == v + k then Present(f + k, perm) else Lookup(tab1, d', w)
    ensures MapsRange(tab0, tab2, use0, d, v, k + 1, f, perm)
  {
    hide Lookup;
  }

  lemma UnmapGrows(tab0: Tables, tab: Tables, tab1: Tables, use0: Uses, use: Uses, d: int, lo: int, v: int)
    requires Unmaps(tab0, tab, use0, d, lo, v) && KeepsDirs(use0, use) && lo <= v
    requires forall d', w | Is(use, d', Dir) ::
               Lookup(tab1, d', w) == if d' == d && w == v then Absent else Lookup(tab, d', w)
    ensures Unmaps(tab0, tab1, use0, d, lo, v + 1)
  {
    hide Lookup;
  }

  lemma UnmapSkips(tab0: Tables, tab: Tables, use0: Uses, d: int, lo: int, v: int, w: int)
    requires Unmaps(tab0, tab, use0, d, lo, v) && Is(use0, d, Dir) && lo <= v <= w
    requires forall u | v <= u < w :: Lookup(tab, d, u).Absent?
    ensures Unmaps(tab0, tab, use0, d, lo, w)
    ensures forall u | v <= u < w :: Lookup(tab0, d, u).Absent?
  {
    hide Lookup;
  }

  lemma UnmapTrims(tab0: Tables, tab: Tables, use0: Uses, d: int, lo: int, hi: int, v: int)
    requires Unmaps(tab0, tab, use0, d, lo, v) && Is(use0, d, Dir) && lo <= hi <= v
    requires forall u | hi <= u < v :: Lookup(tab0, d, u).Absent?
    ensures Unmaps(tab0, tab, use0, d, lo, hi)
  {
    hide Lookup;
  }

  /** The pages still in use keep their contents. */
  ghost predicate DataKept(data0: map<int, Page>, data: map<int, Page>, use: Uses) {
    forall f | f in use && f in data0 :: f in data && data[f] == data0[f]
  }

  lemma UsersGone(tab: Tables, use: Uses, d: int)
    requires PageInv(tab, use) && Is(use, d, Dir)
    ensures var use1 := WithoutUser(use, d, 0, UPAGES);
            && Is(use1, d, Dir) && Survivors(use1, d) == Survivors(use, d)
            && (forall f | f in Survivors(use, d) :: Is(use, f, Survivors(use, d)[f]))
            && forall f | f in use1 :: !(use1[f].User? && use1[f].d == d)
  {
    hide Lookup, EntryAt;
    var use1 := WithoutUser(use, d, 0, UPAGES);
    forall f ensures f in Survivors(use1, d) <==> f in Survivors(use, d) {
    }
  }

  lemma SurvivorKeys(use: Uses, frames: set<int>, d: int)
    requires forall f | f in use :: f in frames
    ensures frames - Survivors(use, d).Keys == frames - use.Keys + OwnedBy(use, d)
  {
  }

  lemma OthersKeepView(tab0: Tables, tab1: Tables, tab: Tables, use0: Uses, use: Uses, d: int)
    requires Unmaps(tab0, tab1, use0, d, 0, UPAGES) && SameView(tab1, tab, use)
    requires use == Survivors(use0, d)
    ensures SameView(tab0, tab, use)
  {
    hide Lookup;
  }

  lemma DirTable(tab: Tables, use: Uses, d: int)
    requires PageInv(tab, use) && Is(use, d, Dir)
    ensures d in tab && |tab[d]| == NPTENTRIES && forall i | 0 <= i < NPTENTRIES :: tab[d][i] == EntryAt(tab, d, i)
  {
  }

  lemma PageOf(tab: Tables, use: Uses, d: int, v: int)
    requires PageInv(tab, use) && Is(use, d, Dir) && 0 <= v < UPAGES && Lookup(tab, d, v).Present?
    ensures Is(use, Lookup(tab, d, v).frame, User(d, v))
  {
  }

  /** Directory d has the kernel's mappings and no others. */
  ghost predicate KernelOnly(tab: Tables, d: int, dp: int) {
    forall v :: Lookup(tab, d, v) == KernelMap(dp, v)
  }

  ghost predicate RowsMapped(tab: Tables, d: int, dp: int, k: int) {
    forall v :: Lookup(tab, d, v) == RowsMap(dp, k, v)
  }

  lemma RowMapped(tab: Tables, tab1: Tables, use: Uses, d: int, dp: int, k: int)
    requires 0x100 < dp < 0xE000 && 0 <= k < 4 && RowsMapped(tab, d, dp, k) && Is(use, d, Dir)
    requires var m := KMapRow(dp, k); MapsRange(tab, tab1, use, d, m.virt, m.n, m.phys, m.perm)
    ensures RowsMapped(tab1, d, dp, k + 1)
  {
    forall v ensures Lookup(tab1, d, v) == RowsMap(dp, k + 1, v) {
      RowsMapStep(dp, k, v);
      hide Lookup, RowsMap, KMapRow;
    }
  }

  lemma RowAbsent(tab: Tables, d: int, dp: int, k: int)
    requires 0x100 < dp < 0xE000 && 0 <= k < 4 && RowsMapped(tab, d, dp, k)
    ensures var m := KMapRow(dp, k);
            && UPAGES <= m.virt && m.n >= 1 && m.virt + m.n <= VPAGES
            && forall v | m.virt <= v < m.virt + m.n :: Lookup(tab, d, v).Absent?
  {
    var m := KMapRow(dp, k);
    RowsMapStep(dp, k, 0);
    forall v | m.virt <= v < m.virt + m.n ensures Lookup(tab, d, v).Absent? {
      RowsMapStep(dp, k, v);
    }
  }

  lemma RowsDone(tab: Tables, d: int, dp: int)
    requires RowsMapped(tab, d, dp, 4)
    ensures KernelOnly(tab, d, dp)
  {
    AllRows(dp);
  }

  /** The directories of use0 keep their view while another directory changes. */
  lemma OthersUntouched(tab0: Tables, tab: Tables, tab1: Tables, use0: Uses, use: Uses,
                        d: int, v: int, n: int, f: int, perm: Perm)
    requires SameView(tab0, tab, use0) && MapsRange(tab, tab1, use, d, v, n, f, perm)
    requires KeepsDirs(use0, use) && d !in use0
    ensures SameView(tab0, tab1, use0)
  {
    hide Lookup;
  }

  lemma GrowsOn(use0: Uses, use: Uses, use1: Uses, d: int)
    requires Grown(use0, use, d) && GrownTabs(use, use1, d)
    ensures Grown(use0, use1, d)
  {
  }

  /** e maps a page that was not in use before, for the user to read and write, full of zeros. */
  ghost predicate FreshZero(e: Pte, use0: Uses, use: Uses, data: map<int, Page>) {
    && e.Present? && e.perm == Perm(true, true) && e.frame !in use0 && e.frame in use
    && e.frame in data && data[e.frame] == ZeroPage()
  }

  /** The directories of use0 map what they did, but for d's pages lo..v-1, which are new zeroed pages. */
  ghost predicate ZeroMapped(tab0: Tables, tab: Tables, use0: Uses, use: Uses, data: map<int, Page>, d: int, lo: int, v: int) {
    && (forall w | lo <= w < v :: FreshZero(Lookup(tab, d, w), use0, use, data))
    && (forall d', w | Is(use0, d', Dir) && !(d' == d && lo <= w < v) :: Lookup(tab, d', w) == Lookup(tab0, d', w))
  }

  /** use has grown from use0 only by page tables of d and its user pages lo..v-1. */
  ghost predicate GrownUser(use0: Uses, use: Uses, d: int, lo: int, v: int) {
    && (forall f | f in use0 :: Is(use, f, use0[f]))
    && (forall f | f in use && f !in use0 ::
          (use[f].Tab? || (use[f].User? && lo <= use[f].v < v)) && use[f].d == d)
  }

  /** Pages lo..v-1 of d have been added to what tab0, use0 and data0 had, and nothing else but page tables. */
  ghost predicate Zeroing(tab0: Tables, tab: Tables, use0: Uses, use: Uses, data0: map<int, Page>, data: map<int, Page>,
                          d: int, lo: int, v: int) {
    && Is(use, d, Dir) && ZeroMapped(tab0, tab, use0, use, data, d, lo, v)
    && GrownUser(use0, use, d, lo, v) && DataKept(data0, data, use0)
  }

  lemma ZeroGrows(tab0: Tables, tab: Tables, tab1: Tables, use0: Uses, use: Uses, use1: Uses,
                  data: map<int, Page>, d: int, lo: int, v: int, f: int)
    requires ZeroMapped(tab0, tab, use0, use, data, d, lo, v) && Is(use0, d, Dir) && KeepsDirs(use0, use) && lo <= v
    requires GrownUser(use0, use, d, lo, v) && f !in use
    requires GrownTabs(use[f := User(d, v)], use1, d)
    requires MapsRange(tab, tab1, use, d, v, 1, f, Perm(true, true))
    ensures GrownUser(use0, use1, d, lo, v + 1)
    ensures ZeroMapped(tab0, tab1, use0, use1, data[f := ZeroPage()], d, lo, v + 1)
  {
    hide Lookup;
    var data1 := data[f := ZeroPage()];
    forall w | lo <= w < v + 1 ensures FreshZero(Lookup(tab1, d, w), use0, use1, data1) {
      if w < v {
        assert Lookup(tab1, d, w) == Lookup(tab, d, w);
        assert Lookup(tab, d, w).frame in use[f := User(d, v)];
      } else {
        assert f in use[f := User(d, v)];
      }
    }
    forall g | g in use0 ensures Is(use1, g, use0[g]) {
      assert g in use[f := User(d, v)];
    }
  }

  /** A page table could not be had for page f. */
  lemma ZeroStalls(tab0: Tables, tab: Tables, tab1: Tables, use0: Uses, use: Uses, use1: Uses,
                   data: map<int, Page>, d: int, lo: int, v: int, f: int)
    requires ZeroMapped(tab0, tab, use0, use, data, d, lo, v) && GrownUser(use0, use, d, lo, v)
    requires Is(use0, d, Dir) && KeepsDirs(use0, use) && f !in use
    requires GrownTabs(use[f := Kernel], use1, d)
    requires MapsRange(tab, tab1, use[f := Kernel], d, v, 0, f, Perm(true, true))
    ensures GrownUser(use0, use1 - {f}, d, lo, v)
    ensures ZeroMapped(tab0, tab1, use0, use1 - {f}, data, d, lo, v)
  {
    hide Lookup, ZeroPage;
    assert KeepsDirs(use0, use[f := Kernel]);
    forall w | lo <= w < v ensures FreshZero(Lookup(tab1, d, w), use0, use1 - {f}, data) {
      assert Lookup(tab1, d, w) == Lookup(tab, d, w);
      assert Lookup(tab, d, w).frame in use[f := Kernel];
    }
    forall g | g in use0 ensures Is(use1 - {f}, g, use0[g]) {
      assert g in use[f := Kernel];
    }
  }

  lemma WithoutAlso(use: Uses, d: int, lo: int, hi: int, f: int)
    requires Is(use, f, Kernel)
    ensures WithoutUser(use - {f}, d, lo, hi) == WithoutUser(use, d, lo, hi) - {f} && Is(WithoutUser(use, d, lo, hi), f, Kernel)
  {
    forall g ensures g in WithoutUser(use - {f}, d, lo, hi) <==> g in WithoutUser(use, d, lo, hi) - {f} {
    }
  }

  lemma ZeroingStarts(tab: Tables, use: Uses, data: map<int, Page>, d: int, lo: int)
    requires Is(use, d, Dir)
    ensures Zeroing(tab, tab, use, use, data, data, d, lo, lo)
  {
    hide Lookup;
  }

  lemma ZeroingEnds(tab0: Tables, tab: Tables, use0: Uses, use: Uses, data0: map<int, Page>, data: map<int, Page>,
                    d: int, lo: int, v: int)
    requires Zeroing(tab0, tab, use0, use, data0, data, d, lo, v)
    ensures ZeroMapped(tab0, tab, use0, use, data, d, lo, v) && GrownUser(use0, use, d, lo, v) && DataKept(data0, data, use0)
  {
  }

  /** Every user page has contents. */
  ghost predicate HasData(use: Uses, data: map<int, Page>) {
    forall f | f in use && use[f].User? :: f in data
  }

  lemma SurvivorsHaveData(use0: Uses, use: Uses, data0: map<int, Page>, data: map<int, Page>, d: int)
    requires HasData(use0, data0) && use == Survivors(use0, d) && DataKept(data0, data, use)
    requires forall f | f in Survivors(use0, d) :: Is(use0, f, Survivors(use0, d)[f])
    ensures HasData(use, data)
  {
    hide Survivors;
  }

  lemma KeptWithout(data0: map<int, Page>, data: map<int, Page>, use: Uses, f: int)
    requires DataKept(data0, data, use)
    ensures DataKept(data0, data - {f}, use - {f})
  {
  }

  lemma KeptSelf(data: map<int, Page>, use: Uses)
    ensures DataKept(data, data, use)
  {
  }

  lemma UnmapsHeld(tab: Tables, tab1: Tables, use: Uses, held: Uses, d: int, lo: int, hi: int)
    requires Unmaps(tab, tab1, use, d, lo, hi) && forall f | f in held :: Is(use, f, held[f])
    ensures Unmaps(tab, tab1, held, d, lo, hi)
  {
    hide Lookup;
  }

  /** Clearing the pages that were mapped so far restores every mapping; only page tables stay. */
  lemma ZeroUndone(tab0: Tables, tab: Tables, tab1: Tables, use0: Uses, use: Uses,
                   data: map<int, Page>, d: int, lo: int, v: int, hi: int)
    requires ZeroMapped(tab0, tab, use0, use, data, d, lo, v) && GrownUser(use0, use, d, lo, v)
    requires PageInv(tab0, use0) && Is(use0, d, Dir) && lo <= v <= hi
    requires forall w | lo <= w < hi :: Lookup(tab0, d, w).Absent?
    requires Unmaps(tab, tab1, use, d, lo, hi)
    ensures SameView(tab0, tab1, use0) && GrownTabs(use0, WithoutUser(use, d, lo, hi), d)
  {
    hide Lookup, EntryAt;
  }

  /** e maps a page that was not in use before, with the flags and contents of e0's. */
  ghost predicate Copied(e0: Pte, e: Pte, data0: map<int, Page>, data: map<int, Page>, use0: Uses, use: Uses) {
    && e0.Present? && e.Present? && e.perm == e0.perm && e.frame !in use0 && e.frame in use
    && e0.frame in data0 && e.frame in data && data[e.frame] == data0[e0.frame]
  }

  /** Directory c is a copy of the first n pages of d, and has the kernel's mappings besides. */
  ghost predicate CopyOf(tab0: Tables, tab: Tables, data0: map<int, Page>, data: map<int, Page>, use0: Uses, use: Uses,
                         d: int, c: int, n: int, dp: int) {
    && (forall v | 0 <= v < n :: Copied(Lookup(tab0, d, v), Lookup(tab, c, v), data0, data, use0, use))
    && (forall v | !(0 <= v < n) :: Lookup(tab, c, v) == KernelMap(dp, v))
  }

  /** The first n pages of d have been copied to the new directory c, and nothing else has changed. */
  ghost predicate Copying(tab0: Tables, tab: Tables, data0: map<int, Page>, data: map<int, Page>, use0: Uses, use: Uses,
                          d: int, c: int, n: int, dp: int) {
    && c !in use0 && Is(use, c, Dir) && Grown(use0, use, c)
    && SameView(tab0, tab, use0) && DataKept(data0, data, use0)
    && CopyOf(tab0, tab, data0, data, use0, use, d, c, n, dp)
  }

  lemma CopyingStarts(tab0: Tables, tab: Tables, data0: map<int, Page>, data: map<int, Page>, use0: Uses, use: Uses,
                      d: int, c: int, dp: int)
    requires c !in use0 && Is(use, c, Dir) && Grown(use0, use, c) && KernelOnly(tab, c, dp)
    requires SameView(tab0, tab, use0) && DataKept(data0, data, use0)
    ensures Copying(tab0, tab, data0, data, use0, use, d, c, 0, dp)
  {
    hide Lookup, KernelMap;
  }

  lemma CopyGrows(tab0: Tables, tab: Tables, tab1: Tables, data0: map<int, Page>, data: map<int, Page>,
                  use0: Uses, use: Uses, use1: Uses, d: int, c: int, n: nat, dp: int, f: int)
    requires CopyOf(tab0, tab, data0, data, use0, use, d, c, n, dp) && Is(use, c, Dir) && n < UPAGES
    requires c !in use0 && Grown(use0, use, c) && SameView(tab0, tab, use0) && f !in use
    requires var e0 := Lookup(tab0, d, n);
             && e0.Present? && e0.frame in data0
             && MapsRange(tab, tab1, use[f := Kernel], c, n, 1, f, e0.perm)
    requires GrownTabs(use[f := User(c, n)], use1, c)
    ensures CopyOf(tab0, tab1, data0, data[f := data0[Lookup(tab0, d, n).frame]], use0, use1, d, c, n + 1, dp)
    ensures Grown(use0, use1, c) && SameView(tab0, tab1, use0) && Is(use1, c, Dir)
  {
    hide Lookup, KernelMap;
    assert c in use[f := User(c, n)];
    var data1 := data[f := data0[Lookup(tab0, d, n).frame]];
    assert Is(use[f := Kernel], c, Dir);
    forall v | 0 <= v < n + 1 ensures Copied(Lookup(tab0, d, v), Lookup(tab1, c, v), data0, data1, use0, use1) {
      if v < n {
        assert Lookup(tab1, c, v) == Lookup(tab, c, v);
        assert Lookup(tab, c, v).frame in use[f := User(c, n)];
      } else {
        assert f in use[f := User(c, n)];
      }
    }
    forall g | g in use0 ensures Is(use1, g, use0[g]) && (Is(use0, g, Dir) ==> Is(use[f := Kernel], g, Dir)) {
      assert g in use[f := User(c, n)];
    }
    forall g | g in use1 && g !in use0 ensures Belongs(use1, g, c) {
      assert g in use ==> g in use[f := User(c, n)];
    }
  }

  /** Page f was taken but not mapped. */
  lemma TakenBack(tab0: Tables, tab: Tables, use0: Uses, use: Uses, c: int, v: int, f: int, perm: Perm)
    requires f !in use0 && GrownTabs(use0[f := Kernel], use, c) && Is(use0, c, Dir)
    requires MapsRange(tab0, tab, use0[f := Kernel], c, v, 0, f, perm)
    ensures Is(use, f, Kernel) && GrownTabs(use0, use - {f}, c) && Is(use - {f}, c, Dir) && SameView(tab0, tab, use0)
  {
    hide Lookup;
    assert f in use0[f := Kernel] && c in use0[f := Kernel];
    forall g | g in use0 ensures Is(use - {f}, g, use0[g]) && Is(use0[f := Kernel], g, use0[g]) {
      assert g in use0[f := Kernel];
    }
  }

  lemma KernelMapUser(dp: int, v: int)
    requires v < UPAGES
    ensures KernelMap(dp, v).Absent?
  {
  }

  lemma SameViews(tab0: Tables, tab1: Tables, tab2: Tables, use: Uses)
    requires SameView(tab0, tab1, use) && SameView(tab1, tab2, use)
    ensures SameView(tab0, tab2, use)
  {
    hide Lookup;
  }

  /** A failed turn leaves the other directories alone. */
  lemma ViewHolds(tab0: Tables, tab: Tables, tab1: Tables, use0: Uses, use: Uses, c: int)
    requires SameView(tab0, tab, use0) && SameView(tab, tab1, use) && Grown(use0, use, c)
    ensures SameView(tab0, tab1, use0)
  {
    hide Lookup;
  }

  /** The free list holds each page that is not in use, once. */
  ghost predicate FreeOk(free: seq<int>, used: set<int>, frames: set<int>) {
    && Distinct(free)
    && (forall f | f in free :: f in frames && f !in used)
    && (forall f | f in frames :: f in free || f in used)
    && (forall f | f in used :: f in frames)
  }

  lemma HasTable(tab: Tables, d: int, i: int)
    requires 0 <= i < NPTENTRIES
    ensures i in TabSet(tab, d) <==> EntryAt(tab, d, i).Present?
    ensures i in TabSet(tab, d) ==> TabSet(tab, d) + {i} == TabSet(tab, d)
  {
  }

  lemma SameViewSelf(tab: Tables, use: Uses)
    ensures SameView(tab, tab, use)
  {
  }

  lemma NotATable(tab: Tables, use: Uses, t: int)
    requires PageInv(tab, use) && t !in use
    ensures t !in tab
  {
  }

  class Memory {
    /** The pages between the end of the kernel and PHYSTOP. */
    ghost const frames: set<int>
    /** The first page of the kernel's data. */
    const dataPage: int
    var free: seq<int>
    var tab: Tables
    var data: map<int, Page>
    ghost var use: Uses

    /** Every page is either on the free list, once, or in use. */
    ghost predicate FreeInv()
      reads this`free, this`use
    {
      FreeOk(free, use.Keys, frames)
    }

    ghost predicate Valid()
      reads this
    {
      && 0 !in frames && 0x100 < dataPage < 0xE000
      && FreeInv()
      && PageInv(tab, use)
      && HasData(use, data)
    }

    ghost function FreePages(): set<int>
      reads this
    {
      Elements(free)
    }

    /** The free pages are the ones not in use. */
    lemma Conserved()
      requires FreeInv()
      ensures FreePages() == frames - use.Keys && |free| == |FreePages()|
    {
      DistinctSize(free);
      assert forall f :: f in FreePages() <==> f in frames && f !in use;
    }

    lemma FreedPages(d: int)
      requires FreeInv()
      ensures frames - Survivors(use, d).Keys == frames - use.Keys + OwnedBy(use, d)
    {
      SurvivorKeys(use, frames, d);
    }

    /** kinit: freerange frees the whole pages between two addresses. */
    constructor (start: nat, end: nat, dataPage: int)
      requires 0 < start && 0x100 < dataPage < 0xE000
      ensures Valid() && use == map[] && tab == map[]
      ensures FreePages() == frames
      ensures forall p :: p in frames <==> WholePage(start, end, p)
    {
      this.dataPage := dataPage;
      free := [];
      tab := map[];
      data := map[];
      use := map[];
      frames := set p: int | 0 <= p < end && WholePage(start, end, p);
      new;
      var p := PagesUp(start);
      while (p + 1) * PGSIZE <= end
        invariant p >= PagesUp(start) && Distinct(free) && use == map[] && tab == map[]
        invariant forall f :: f in free <==> f < p && WholePage(start, end, f)
        decreases end - p * PGSIZE
      {
        ghost var was := free;
        free := [p] + free;
        assert p !in was && forall f :: f in free <==> f == p || f in was;
        p := p + 1;
      }
    }

    method KAlloc() returns (r: Option<int>)
      requires FreeInv()
      modifies this`free, this`use
      ensures FreeInv()
      ensures r.None? ==> old(free) == [] && free == [] && use == old(use)
      ensures r.Some? ==> r.value !in old(use) && use == old(use)[r.value := Kernel] && old(free) == [r.value] + free
      ensures old(Valid()) ==> Valid()
    {
      hide PageInv;
      if free == [] {
        return None;
      }
      var f := free[0];
      assert forall g | g in free && g != f :: g in free[1..];
      if Valid() {
        KernelTakes(tab, use, f);
      }
      free := free[1..];
      use := use[f := Kernel];
      return Some(f);
    }

    /** The page is filled with junk, so it stops being a table or holding data. */
    method KFree(f: int)
      requires FreeInv() && f in use
      modifies this`free, this`tab, this`data, this`use
      ensures FreeInv()
      ensures free == [f] + old(free) && use == old(use) - {f}
      ensures tab == old(tab) - {f} && data == old(data) - {f}
      ensures old(Valid() && use[f] == Kernel) ==> Valid() && tab == old(tab)
    {
      hide PageInv;
      if Valid() && use[f] == Kernel {
        KernelGives(tab, use, f);
      }
      tab := tab - {f};
      data := data - {f};
      free := [f] + free;
      use := use - {f};
    }

    method WalkPgDir(d: int, v: int, alloc: bool) returns (r: Option<int>)
      requires Valid() && Is(use, d, Dir) && 0 <= v < VPAGES
      modifies this`free, this`tab, this`use
      ensures Valid() && SameView(old(tab), tab, old(use)) && GrownTabs(old(use), use, d)
      ensures r.Some? ==> EntryAt(tab, d, v / NPTENTRIES).Present? && TableOf(tab, d, v) == r.value
      ensures r.None? ==> EntryAt(tab, d, v / NPTENTRIES).Absent? && (alloc ==> free == [])
      ensures r.None? || !alloc ==> use == old(use) && tab == old(tab) && free == old(free)
      ensures r.Some? <==> v / NPTENTRIES in old(TabSet(tab, d)) || (alloc && old(free) != [])
      ensures r.Some? ==> TabSet(tab, d) == old(TabSet(tab, d)) + {v / NPTENTRIES}
      ensures r.Some? ==> |free| == |old(free)| - if v / NPTENTRIES in old(TabSet(tab, d)) then 0 else 1
    {
      hide PageInv, Lookup, FreeOk, TabSet, SameView;
      DirTable(tab, use, d);
      HasTable(tab, d, v / NPTENTRIES);
      var pde := tab[d][v / NPTENTRIES];
      if pde.Present? {
        SameViewSelf(tab, use);
        return Some(pde.frame);
      }
      if !alloc {
        SameViewSelf(tab, use);
        return None;
      }
      r := KAlloc();
      if r.None? {
        SameViewSelf(tab, use);
        return None;
      }
      var t := r.value;
      ghost var keys := use.Keys;
      NotATable(old(tab), old(use), t);
      WithTableKeeps(old(tab), old(use), d, v / NPTENTRIES, t);
      TabSetWithTable(old(tab), d, v / NPTENTRIES, t);
      tab := tab[t := EmptyTable()];
      tab := tab[d := tab[d][v / NPTENTRIES := Present(t, Perm(true, true))]];
      use := use[t := Tab(d, v / NPTENTRIES)];
      assert tab == WithTable(old(tab), d, v / NPTENTRIES, t);
      assert use == old(use)[t := Tab(d, v / NPTENTRIES)] && use.Keys == keys;
    }

    /** Write the entry for page v into page table t. */
    method SetEntryOf(d: int, v: int, t: int, e: Pte, ghost use': Uses)
      requires Valid() && Is(use, d, Dir) && v >= 0 && Rebinds(tab, use, use', d, v, e)
      requires EntryAt(tab, d, v / NPTENTRIES).Present? && TableOf(tab, d, v) == t
      requires use'.Keys == use.Keys && forall g | g in use' && use'[g].User? :: g in data
      modifies this`tab, this`use
      ensures Valid() && use == use'
      ensures forall d', w | Is(old(use), d', Dir) ::
                Lookup(tab, d', w) == if d' == d && w == v then e else old(Lookup(tab, d', w))
      ensures TabSet(tab, d) == old(TabSet(tab, d))
    {
      hide PageInv, Lookup, EntryAt, Rebinds, TabSet;
      DirTable(tab, use, d);
      TableOfIs(tab, use, d, v);
      WithMappingKeeps(tab, use, use', d, v, e);
      assert FreeInv();
      tab := tab[t := tab[t][v % NPTENTRIES := e]];
      use := use';
      TabSetSame(old(tab), tab, d);
    }

    /** Map pages v..v+n-1 to the pages from f on; the first k are mapped even if a page table cannot be had. */
    method MapPages(d: int, v: int, n: nat, f: int, perm: Perm) returns (ok: bool, ghost k: nat)
      requires Valid() && Is(use, d, Dir) && 1 <= n && 0 <= v && v + n <= VPAGES
      // "remap" panics otherwise
      requires forall w | v <= w < v + n :: Lookup(tab, d, w).Absent?
      requires v >= UPAGES || (n == 1 && Is(use, f, Kernel) && f in data)
      modifies this`free, this`tab, this`use
      ensures Valid() && (if ok then k == n else k < n && free == [])
      ensures MapsRange(old(tab), tab, old(use), d, v, k, f, perm)
      ensures GrownTabs(if v < UPAGES && k > 0 then old(use)[f := User(d, v)] else old(use), use, d)
      ensures ok <==> |old(free)| >= Lacking(old(TabSet(tab, d)), v, n)
      ensures ok ==> |free| == |old(free)| - Lacking(old(TabSet(tab, d)), v, n)
      ensures ok ==> TabSet(tab, d) == old(TabSet(tab, d)) + Span(v, n)
    {
      hide PageInv, Lookup, EntryAt, FreeInv, Lacking, Span, TabSet;
      ghost var ts := TabSet(tab, d);
      LackingNone(ts, v);
      SpanNone(ts, v);
      var i := 0;
      while i < n
        invariant 0 <= i <= n && Valid() && Is(use, d, Dir)
        invariant MapsRange(old(tab), tab, old(use), d, v, i, f, perm)
        invariant GrownTabs(if v < UPAGES && i > 0 then old(use)[f := User(d, v)] else old(use), use, d)
        invariant TabSet(tab, d) == ts + Span(v, i) && |free| + Lacking(ts, v, i) == |old(free)|
      {
        ghost var tab0, use0 := tab, use;
        LackingNext(ts, v, i);
        LackingGrows(ts, v, i + 1, n);
        SpanNext(v, i);
        SpanJoins(ts, v, i);
        var r := WalkPgDir(d, v + i, true);
        if r.None? {
          return false, i;
        }
        ghost var tab1, use1 := tab, use;
        var t := r.value;
        assert Lookup(tab, d, v + i).Absent?;
        SetEntryOf(d, v + i, t, Present(f + i, perm), if v < UPAGES then use[f := User(d, v)] else use);
        RangeGrows(old(tab), tab0, tab1, tab, old(use), use0, use1, d, v, i, f, perm);
        i := i + 1;
      }
      return true, n;
    }

    /** Free user page v and clear its entry in page table t, if it is present. */
    method ClearPage(d: int, v: int, t: int)
      requires Valid() && Is(use, d, Dir) && 0 <= v < UPAGES
      requires EntryAt(tab, d, v / NPTENTRIES).Present? && TableOf(tab, d, v) == t
      modifies this`free, this`tab, this`data, this`use
      ensures Valid()
      ensures forall d', w | Is(old(use), d', Dir) ::
                Lookup(tab, d', w) == if d' == d && w == v then Absent else old(Lookup(tab, d', w))
      ensures var e := old(Lookup(tab, d, v));
              use == if e.Present? then old(use) - {e.frame} else old(use)
      ensures DataKept(old(data), data, use)
    {
      TableOfIs(tab, use, d, v);
      var pte := tab[t][v % NPTENTRIES];
      if pte.Present? {
        var f := pte.frame;
        assert Lookup(tab, d, v) == pte && Is(use, f, User(d, v));
        WithMappingKeeps(tab, use, use - {f}, d, v, Absent);
        assert tab - {f} == tab;
        hide PageInv, Lookup, EntryAt;
        // so the panic on page 0 cannot happen
        assert f != 0;
        KFree(f);
        tab := tab[t := tab[t][v % NPTENTRIES := Absent]];
      }
    }

    method DeallocUvm(d: int, oldsz: nat, newsz: nat) returns (r: nat)
      requires Valid() && Is(use, d, Dir) && oldsz <= KERNBASE
      modifies this`free, this`tab, this`data, this`use
      ensures Valid() && r == (if newsz < oldsz then newsz else oldsz)
      ensures var lo, hi := PagesUp(newsz), PagesUp(oldsz);
              && Unmaps(old(tab), tab, old(use), d, lo, hi)
              && use == WithoutUser(old(use), d, lo, hi)
              && DataKept(old(data), data, use)
    {
      hide PageInv, Lookup, EntryAt, WithoutUser, FreeInv;
      if newsz >= oldsz {
        WithoutNone(use, d, PagesUp(newsz), PagesUp(oldsz));
        return oldsz;
      }
      ghost var lo, hi := PagesUp(newsz), PagesUp(oldsz);
      WithoutNone(use, d, lo, lo);
      var v := PagesUp(newsz);
      while v * PGSIZE < oldsz
        invariant lo <= v && lo <= hi && Valid() && Is(use, d, Dir)
        invariant use == WithoutUser(old(use), d, lo, v) && KeepsDirs(old(use), use)
        invariant Unmaps(old(tab), tab, old(use), d, lo, v)
        invariant forall w | hi <= w < v :: Lookup(old(tab), d, w).Absent?
        invariant DataKept(old(data), data, use)
        decreases oldsz - v * PGSIZE
      {
        var r := WalkPgDir(d, v, false);
        if r.None? {
          ghost var w := (v / NPTENTRIES + 1) * NPTENTRIES;
          AbsentTable(tab, d, v);
          UnmapSkips(old(tab), tab, old(use), d, lo, v, w);
          WithoutUserSkip(old(tab), old(use), d, lo, v, w);
          v := (v / NPTENTRIES + 1) * NPTENTRIES - 1;
        } else {
          ghost var tab1, use1 := tab, use;
          WithoutUserStep(old(tab), old(use), d, lo, v);
          ClearPage(d, v, r.value);
          UnmapGrows(old(tab), tab1, tab, old(use), use1, d, lo, v);
        }
        v := v + 1;
      }
      WithoutUserSkip(old(tab), old(use), d, lo, hi, v);
      UnmapTrims(old(tab), tab, old(use), d, lo, hi, v);
      return newsz;
    }

    /** freevm's loop: free the page tables of d, whose user pages are gone. */
    method FreeTables(d: int, ghost data0: map<int, Page>)
      requires Valid() && Is(use, d, Dir) && DataKept(data0, data, use)
      modifies this`free, this`tab, this`data, this`use
      ensures FreeInv() && use == WithoutTabs(old(use), d, NPTENTRIES) && tab == Restrict(old(tab), use.Keys)
      ensures Is(use, d, Dir) && DataKept(data0, data, use)
    {
      hide PageInv, EntryAt, Restrict, WithoutTabs, FreeInv;
      ghost var tab1, use1 := tab, use;
      DirTable(tab, use, d);
      WithoutTabsNone(tab, use, d);
      var i := 0;
      while i < NPTENTRIES
        invariant 0 <= i <= NPTENTRIES && FreeInv()
        invariant use == WithoutTabs(use1, d, i) && tab == Restrict(tab1, use.Keys)
        invariant Is(use, d, Dir) && d in tab && tab[d] == tab1[d]
        invariant DataKept(data0, data, use)
      {
        TabsStep(tab1, use1, d, i);
        if tab[d][i].Present? {
          var t := tab[d][i].frame;
          KFree(t);
        }
        i := i + 1;
      }
    }

    method FreeVm(d: int)
      requires Valid() && Is(use, d, Dir)
      modifies this`free, this`tab, this`data, this`use
      ensures Valid() && use == Survivors(old(use), d)
      ensures FreePages() == old(FreePages()) + OwnedBy(old(use), d)
      ensures SameView(old(tab), tab, use) && DataKept(old(data), data, use)
    {
      hide PageInv, Lookup, EntryAt, WithoutUser, Survivors, Restrict, WithoutTabs, OwnedBy, Belongs, FreeInv, FreePages, SameView, Unmaps, DataKept, HasData;
      Conserved();
      FreedPages(d);
      ghost var after := frames - Survivors(use, d).Keys;
      assert after == FreePages() + OwnedBy(use, d);
      FreePagesOf(d);
      Conserved();
      assert FreePages() == after;
    }

    /** freevm's steps. */
    method FreePagesOf(d: int)
      requires Valid() && Is(use, d, Dir)
      modifies this`free, this`tab, this`data, this`use
      ensures Valid() && use == Survivors(old(use), d)
      ensures SameView(old(tab), tab, use) && DataKept(old(data), data, use)
    {
      hide PageInv, Lookup, EntryAt, WithoutUser, Survivors, Restrict, WithoutTabs, Belongs, FreeInv, SameView, Unmaps, DataKept, HasData;
      UsersGone(tab, use, d);
      var _ := DeallocUvm(d, KERNBASE, 0);
      ghost var tab1, use1 := tab, use;
      FreeTables(d, old(data));
      KeptWithout(old(data), data, use, d);
      KFree(d);
      DirGone(tab1, use1, d);
      OthersKeepView(old(tab), tab1, tab, old(use), use, d);
      SurvivorsHaveData(old(use), use, old(data), data, d);
    }

    /** A page for a directory, cleared. */
    method NewDirectory() returns (r: Option<int>)
      requires Valid()
      modifies this`free, this`tab, this`use
      ensures Valid() && SameView(old(tab), tab, old(use))
      ensures r.None? ==> use == old(use)
      ensures r.Some? ==> r.value !in old(use) && use == old(use)[r.value := Dir] && Grown(old(use), use, r.value)
                          && RowsMapped(tab, r.value, dataPage, 0)
      ensures r.Some? <==> old(free) != []
      ensures r.Some? ==> |free| == |old(free)| - 1 && TabSet(tab, r.value) == {}
    {
      hide PageInv, Lookup, EntryAt, KernelMap, RowsMap, TabSet;
      r := KAlloc();
      if r.None? {
        return;
      }
      var d := r.value;
      NewDirKeeps(old(tab), old(use), d);
      tab := tab[d := EmptyTable()];
      use := use[d := Dir];
      assert tab == WithDir(old(tab), d) && use == old(use)[d := Dir];
      TabSetEmpty(tab, d);
      NoRows(dataPage);
    }

    /** A directory with the kernel's mappings, or nothing taken at all. */
    method SetupKvm() returns (r: Option<int>)
      requires Valid()
      modifies this`free, this`tab, this`data, this`use
      ensures Valid() && SameView(old(tab), tab, old(use)) && DataKept(old(data), data, old(use))
      ensures r.None? ==> use == old(use) && FreePages() == old(FreePages())
      ensures r.Some? ==> r.value !in old(use) && Is(use, r.value, Dir) && Grown(old(use), use, r.value)
                          && KernelOnly(tab, r.value, dataPage)
      // it fails exactly when there are not enough pages
      ensures r.Some? <==> |old(free)| >= KVMPAGES
      ensures r.Some? ==> |free| == |old(free)| - KVMPAGES && TabSet(tab, r.value) == RowTabs(dataPage, 4)
    {
      hide PageInv, Lookup, EntryAt, Survivors, KernelMap, RowsMap, KMapRow, TabSet, RowTabs, Lacking, Span, Interval;
      Conserved();
      AllRowTabs(dataPage);
      NoRowTabs(dataPage);
      r := NewDirectory();
      if r.None? {
        Conserved();
        return;
      }
      var d := r.value;
      hide RowsMapped, SameView, MapsRange;
      var k := 0;
      while k < 4
        invariant 0 <= k <= 4 && Valid() && Is(use, d, Dir) && Grown(old(use), use, d)
        invariant SameView(old(tab), tab, old(use)) && data == old(data)
        invariant RowsMapped(tab, d, dataPage, k)
        invariant TabSet(tab, d) == RowTabs(dataPage, k) && |free| + 1 + |RowTabs(dataPage, k)| == |old(free)|
      {
        ghost var tab1, use1 := tab, use;
        var m := KMapRow(dataPage, k);
        RowLacks(dataPage, k);
        RowTabsNext(dataPage, k);
        RowTabsGrow(dataPage, k + 1);
        RowAbsent(tab, d, dataPage, k);
        var ok, j := MapPages(d, m.virt, m.n, m.phys, m.perm);
        assert KeepsDirs(old(use), use1);
        OthersUntouched(old(tab), tab1, tab, old(use), use1, d, m.virt, j, m.phys, m.perm);
        GrowsOn(old(use), use1, use, d);
        if !ok {
          ghost var tab2 := tab;
          DropNewDir(old(tab), old(use), use, d);
          FreeVm(d);
          SameViews(old(tab), tab2, tab, use);
          Conserved();
          return None;
        }
        RowMapped(tab1, tab, use1, d, dataPage, k);
        k := k + 1;
      }
      RowsDone(tab, d, dataPage);
    }

    /** One turn of allocuvm's loop; if no page table can be had, mem is the page it had taken. */
    method AllocTurn(d: int, v: int, ghost lo: int, ghost tab0: Tables, ghost data0: map<int, Page>, ghost use0: Uses)
      returns (ok: bool, mem: Option<int>, ghost was: map<int, Page>)
      requires Valid() && 0 <= lo <= v < UPAGES && Is(use0, d, Dir) && Lookup(tab0, d, v).Absent?
      requires Zeroing(tab0, tab, use0, use, data0, data, d, lo, v)
      modifies this`free, this`tab, this`data, this`use
      ensures Valid() && Is(use, d, Dir) && DataKept(data0, data, use0)
      ensures ok ==> Zeroing(tab0, tab, use0, use, data0, data, d, lo, v + 1)
      ensures !ok && mem.Some? ==> Is(use, mem.value, Kernel) && mem.value !in use0
      ensures !ok ==> var held := if mem.Some? then use - {mem.value} else use;
                      ZeroMapped(tab0, tab, use0, held, was, d, lo, v) && GrownUser(use0, held, d, lo, v)
      ensures ok <==> |old(free)| >= 1 + Lacking(old(TabSet(tab, d)), v, 1)
      ensures ok ==> |free| == |old(free)| - 1 - Lacking(old(TabSet(tab, d)), v, 1)
      ensures ok ==> TabSet(tab, d) == old(TabSet(tab, d)) + Span(v, 1)
    {
      hide PageInv, Lookup, EntryAt, ZeroPage, FreeInv, TabSet, Span, Lacking;
      ghost var tab1, use1 := tab, use;
      was := data;
      assert Lookup(tab, d, v).Absent?;
      mem := KAlloc();
      if mem.None? {
        return false, None, was;
      }
      var f := mem.value;
      data := data[f := ZeroPage()];
      ghost var k;
      ok, k := MapPages(d, v, 1, f, Perm(true, true));
      if ok {
        assert use1[f := Kernel][f := User(d, v)] == use1[f := User(d, v)];
        ZeroGrows(tab0, tab1, tab, use0, use1, use, was, d, lo, v, f);
      } else {
        ZeroStalls(tab0, tab1, tab, use0, use1, use, was, d, lo, v, f);
      }
    }

    /** What allocuvm does when it has run out of pages at page v. */
    method TakeBack(d: int, oldsz: nat, newsz: nat, mem: Option<int>, ghost v: int,
                    ghost tab0: Tables, ghost data0: map<int, Page>, ghost use0: Uses, ghost was: map<int, Page>)
      requires Valid() && PageInv(tab0, use0) && Is(use0, d, Dir) && Is(use, d, Dir) && DataKept(data0, data, use0)
      requires oldsz <= newsz < KERNBASE && PagesUp(oldsz) <= v <= PagesUp(newsz)
      requires forall w | PagesUp(oldsz) <= w < PagesUp(newsz) :: Lookup(tab0, d, w).Absent?
      requires mem.Some? ==> Is(use, mem.value, Kernel) && mem.value !in use0
      requires var held := if mem.Some? then use - {mem.value} else use;
               ZeroMapped(tab0, tab, use0, held, was, d, PagesUp(oldsz), v) && GrownUser(use0, held, d, PagesUp(oldsz), v)
      modifies this`free, this`tab, this`data, this`use
      ensures Valid() && SameView(tab0, tab, use0) && GrownTabs(use0, use, d) && DataKept(data0, data, use0)
    {
      hide PageInv, Lookup, EntryAt, WithoutUser, FreeInv, ZeroMapped, Unmaps;
      ghost var lo, hi, tab1, use1 := PagesUp(oldsz), PagesUp(newsz), tab, use;
      ghost var held := if mem.Some? then use - {mem.value} else use;
      var _ := DeallocUvm(d, newsz, oldsz);
      UnmapsHeld(tab1, tab, use1, held, d, lo, hi);
      ZeroUndone(tab0, tab1, tab, use0, held, was, d, lo, v, hi);
      if mem.Some? {
        WithoutAlso(use1, d, lo, hi, mem.value);
        KFree(mem.value);
      }
    }

    /** ok distinguishes success from failure, which r alone does not when newsz is 0. */
    method AllocUvm(d: int, oldsz: nat, newsz: nat) returns (r: nat, ghost ok: bool)
      requires Valid() && Is(use, d, Dir)
      // "remap" panics otherwise
      requires newsz < KERNBASE ==> forall w | PagesUp(oldsz) <= w < PagesUp(newsz) :: Lookup(tab, d, w).Absent?
      modifies this`free, this`tab, this`data, this`use
      ensures Valid() && DataKept(old(data), data, old(use))
      ensures newsz >= KERNBASE ==> r == 0 && !ok && tab == old(tab) && use == old(use)
      ensures newsz < KERNBASE && newsz < oldsz ==> r == oldsz && ok && tab == old(tab) && use == old(use)
      ensures oldsz <= newsz < KERNBASE && ok ==>
                && r == newsz
                && ZeroMapped(old(tab), tab, old(use), use, data, d, PagesUp(oldsz), PagesUp(newsz))
                && GrownUser(old(use), use, d, PagesUp(oldsz), PagesUp(newsz))
      ensures oldsz <= newsz < KERNBASE && !ok ==>
                r == 0 && SameView(old(tab), tab, old(use)) && GrownTabs(old(use), use, d)
      // it fails exactly when the pages and the page tables they lack are more than there are
      ensures oldsz <= newsz < KERNBASE ==>
                var lo, n := PagesUp(oldsz), PagesUp(newsz) - PagesUp(oldsz);
                ok <==> |old(free)| >= n + Lacking(old(TabSet(tab, d)), lo, n)
    {
      hide PageInv, Lookup, EntryAt, FreeInv, TabSet, Span, Lacking, Zeroing, ZeroMapped, GrownUser, SameView, DataKept, GrownTabs;
      ghost var lo, hi, ts := PagesUp(oldsz), PagesUp(newsz), TabSet(tab, d);
      if newsz >= KERNBASE {
        KeptSelf(data, use);
        return 0, false;
      }
      if newsz < oldsz {
        KeptSelf(data, use);
        return oldsz, true;
      }
      LackingNone(ts, lo);
      SpanNone(ts, lo);
      ZeroingStarts(tab, use, data, d, lo);
      var v := PagesUp(oldsz);
      while v * PGSIZE < newsz
        invariant lo <= v <= hi && Valid() && Zeroing(old(tab), tab, old(use), use, old(data), data, d, lo, v)
        invariant TabSet(tab, d) == ts + Span(lo, v - lo) && |free| + (v - lo) + Lacking(ts, lo, v - lo) == |old(free)|
      {
        OneMore(ts, lo, v, hi);
        var added, mem, was := AllocTurn(d, v, lo, old(tab), old(data), old(use));
        if !added {
          TakeBack(d, oldsz, newsz, mem, v, old(tab), old(data), old(use), was);
          return 0, false;
        }
        v := v + 1;
      }
      ZeroingEnds(old(tab), tab, old(use), use, old(data), data, d, lo, v);
      return newsz, true;
    }

    /** One turn of copyuvm's loop: a new page f for c's page v with the contents and flags of pte's. */
    method CopyPage(c: int, v: int, pte: Pte) returns (ok: bool, ghost f: int)
      requires Valid() && Is(use, c, Dir) && 0 <= v < UPAGES && Lookup(tab, c, v).Absent?
      requires pte.Present? && pte.frame in data
      modifies this`free, this`tab, this`data, this`use
      ensures Valid() && DataKept(old(data), data, old(use))
      ensures ok ==> f !in old(use) && data == old(data)[f := old(data)[pte.frame]]
                     && MapsRange(old(tab), tab, old(use)[f := Kernel], c, v, 1, f, pte.perm)
                     && GrownTabs(old(use)[f := User(c, v)], use, c)
      ensures !ok ==> SameView(old(tab), tab, old(use)) && GrownTabs(old(use), use, c) && Is(use, c, Dir)
      ensures ok <==> |old(free)| >= 1 + Lacking(old(TabSet(tab, c)), v, 1)
      ensures ok ==> |free| == |old(free)| - 1 - Lacking(old(TabSet(tab, c)), v, 1)
      ensures ok ==> TabSet(tab, c) == old(TabSet(tab, c)) + Span(v, 1)
    {
      hide PageInv, Lookup, EntryAt, TabSet, Span, Lacking;
      var mem := KAlloc();
      if mem.None? {
        return false, 0;
      }
      f := mem.value;
      data := data[mem.value := data[pte.frame]];
      ghost var k;
      ok, k := MapPages(c, v, 1, mem.value, pte.perm);
      assert old(use)[f := Kernel][f := User(c, v)] == old(use)[f := User(c, v)];
      if !ok {
        TakenBack(old(tab), tab, old(use), use, c, v, f, pte.perm);
        KFree(mem.value);
      }
    }

    /** One turn of copyuvm's loop, which began with tab0, data0 and use0. */
    method CopyTurn(d: int, c: int, v: int, ghost tab0: Tables, ghost data0: map<int, Page>, ghost use0: Uses) returns (ok: bool)
      requires Valid() && 0 <= v < UPAGES && PageInv(tab0, use0) && Is(use0, d, Dir) && Lookup(tab0, d, v).Present?
      requires forall f | f in use0 && use0[f].User? :: f in data0
      requires Copying(tab0, tab, data0, data, use0, use, d, c, v, dataPage)
      modifies this`free, this`tab, this`data, this`use
      ensures Valid()
      ensures ok ==> Copying(tab0, tab, data0, data, use0, use, d, c, v + 1, dataPage)
      ensures !ok ==> Is(use, c, Dir) && Grown(use0, use, c) && SameView(tab0, tab, use0) && DataKept(data0, data, use0)
      ensures ok <==> |old(free)| >= 1 + Lacking(old(TabSet(tab, c)), v, 1)
      ensures ok ==> |free| == |old(free)| - 1 - Lacking(old(TabSet(tab, c)), v, 1)
      ensures ok ==> TabSet(tab, c) == old(TabSet(tab, c)) + Span(v, 1)
    {
      hide PageInv, Lookup, EntryAt, KernelMap, TabSet, Lacking, Span, FreeInv;
      ghost var tab1, use1, data1 := tab, use, data;
      var pte := ReadPte(d, v);
      PageOf(tab0, use0, d, v);
      KernelMapUser(dataPage, v);
      ghost var f;
      ok, f := CopyPage(c, v, pte);
      if ok {
        CopyGrows(tab0, tab1, tab, data0, data1, use0, use1, use, d, c, v, dataPage, f);
      } else {
        GrowsOn(use0, use1, use, c);
        ViewHolds(tab0, tab1, tab, use0, use1, c);
      }
    }

    /** A copy of d's first sz bytes of pages in a new directory, or nothing taken at all. */
    method CopyUvm(d: int, sz: nat) returns (r: Option<int>)
      requires Valid() && Is(use, d, Dir) && sz <= KERNBASE
      // the parent's pages must all be there
      requires forall v | 0 <= v < PagesUp(sz) :: Lookup(tab, d, v).Present?
      modifies this`free, this`tab, this`data, this`use
      ensures Valid() && SameView(old(tab), tab, old(use)) && DataKept(old(data), data, old(use))
      ensures r.None? ==> use == old(use) && FreePages() == old(FreePages())
      ensures r.Some? ==>
                && r.value !in old(use) && Is(use, r.value, Dir) && Grown(old(use), use, r.value)
                && CopyOf(old(tab), tab, old(data), data, old(use), use, d, r.value, PagesUp(sz), dataPage)
      // it fails exactly when the directory, the page tables and the pages are more than there are
      ensures r.Some? <==> |old(free)| >= KVMPAGES + PagesUp(sz) + TablesFor(PagesUp(sz))
    {
      hide PageInv, Lookup, EntryAt, Survivors, KernelMap, TabSet, RowTabs, Lacking, Span, FreeInv, CopyOf, SameView, Grown, DataKept, FreePages, KernelOnly, TablesFor;
      Conserved();
      ghost var n, ts := PagesUp(sz), RowTabs(dataPage, 4);
      CopyNeeds(dataPage, n);
      r := SetupKvm();
      if r.None? {
        return;
      }
      var c := r.value;
      CopyingStarts(old(tab), tab, old(data), data, old(use), use, d, c, dataPage);
      var v := 0;
      while v * PGSIZE < sz
        invariant 0 <= v <= n && Valid() && Copying(old(tab), tab, old(data), data, old(use), use, d, c, v, dataPage)
        invariant TabSet(tab, c) == ts + Span(0, v) && |free| + KVMPAGES + v + Lacking(ts, 0, v) == |old(free)|
      {
        OneMore(ts, 0, v, n);
        var ok := CopyTurn(d, c, v, old(tab), old(data), old(use));
        if !ok {
          DropNewDir(old(tab), old(use), use, c);
          GiveUp(c, old(tab), old(data), old(use));
          Conserved();
          return None;
        }
        v := v + 1;
      }
    }

    /** freevm on a directory that was new since tab0, data0 and use0. */
    method GiveUp(c: int, ghost tab0: Tables, ghost data0: map<int, Page>, ghost use0: Uses)
      requires Valid() && Is(use, c, Dir) && Survivors(use, c) == use0
      requires SameView(tab0, tab, use0) && DataKept(data0, data, use0)
      modifies this`free, this`tab, this`data, this`use
      ensures Valid() && use == use0 && SameView(tab0, tab, use0) && DataKept(data0, data, use0)
    {
      hide PageInv, Lookup, EntryAt, Survivors, FreeInv;
      ghost var tab1, data1 := tab, data;
      FreeVm(c);
      SameViews(tab0, tab1, tab, use0);
    }

    /** The entry for a page whose page table exists. */
    method ReadPte(d: int, v: int) returns (e: Pte)
      requires Valid() && Is(use, d, Dir) && 0 <= v < VPAGES && Lookup(tab, d, v).Present?
      modifies this`free, this`tab, this`use
      ensures free == old(free) && tab == old(tab) && use == old(use) && e == Lookup(tab, d, v)
    {
      var t := WalkPgDir(d, v, false);
      TableOfIs(tab, use, d, v);
      e := tab[t.value][v % NPTENTRIES];
    }
  }
}
