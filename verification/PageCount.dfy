/** How many pages the page-table code takes: the page tables that a range of pages needs and does not have yet. */
module PageCount {
  import opened Common
  import opened PageSpec

  ghost function Interval(a: int, b: int): (r: set<int>)
    ensures forall i :: i in r <==> a <= i < b
    decreases b - a
  {
    if a >= b then {} else Interval(a, b - 1) + {b - 1}
  }

  /** The page tables of directory d. */
  ghost function TabSet(tab: Tables, d: int): set<int> {
    set i: int | 0 <= i < NPTENTRIES && EntryAt(tab, d, i).Present?
  }

  /** The page tables that pages v..v+n-1 lie in. */
  ghost function Span(v: int, n: nat): set<int> {
    if n == 0 then {} else Interval(v / NPTENTRIES, (v + n - 1) / NPTENTRIES + 1)
  }

  /** How many of them are missing from those in ts. */
  ghost function Lacking(ts: set<int>, v: int, n: nat): nat {
    |Span(v, n) - ts|
  }

  lemma {:induction false} IntervalSize(a: int, b: int)
    requires a <= b
    ensures |Interval(a, b)| == b - a
    decreases b - a
  {
    if a < b {
      IntervalSize(a, b - 1);
    }
  }

  lemma SpanNext(v: int, n: nat)
    requires 0 <= v
    ensures Span(v, n + 1) == Span(v, n) + {(v + n) / NPTENTRIES}
  {
  }

  /** One more page lacks one more table, unless it has it or an earlier page lacks the same. */
  lemma LackingNext(ts: set<int>, v: int, n: nat)
    requires 0 <= v
    ensures Lacking(ts, v, n + 1) == Lacking(ts, v, n) + if (v + n) / NPTENTRIES in ts + Span(v, n) then 0 else 1
  {
    hide Span, Interval;
    SpanNext(v, n);
    var i := (v + n) / NPTENTRIES;
    if i in ts + Span(v, n) {
      assert Span(v, n + 1) - ts == Span(v, n) - ts;
    } else {
      assert Span(v, n + 1) - ts == Span(v, n) - ts + {i};
    }
  }

  lemma {:induction false} LackingGrows(ts: set<int>, v: int, n: nat, m: nat)
    requires 0 <= v && n <= m
    ensures Lacking(ts, v, n) <= Lacking(ts, v, m)
    decreases m - n
  {
    hide Lacking, Span;
    if n < m {
      LackingGrows(ts, v, n, m - 1);
      LackingNext(ts, v, m - 1);
    }
  }

  lemma LackingNone(ts: set<int>, v: int)
    ensures Lacking(ts, v, 0) == 0
  {
    assert Span(v, 0) - ts == {};
  }

  lemma LackingOne(ts: set<int>, v: int)
    requires 0 <= v
    ensures Span(v, 1) == {v / NPTENTRIES} && Lacking(ts, v, 1) == if v / NPTENTRIES in ts then 0 else 1
  {
    hide Lacking, Interval;
    LackingNone(ts, v);
    LackingNext(ts, v, 0);
    SpanNext(v, 0);
  }

  lemma SpanNone(ts: set<int>, v: int)
    ensures ts + Span(v, 0) == ts
  {
  }

  lemma SpanJoins(ts: set<int>, v: int, n: nat)
    requires 0 <= v
    ensures ts + Span(v, n) + {(v + n) / NPTENTRIES} == ts + Span(v, n + 1)
  {
    hide Span, Interval;
    SpanNext(v, n);
  }

  /** Page v after those from lo on: the table it lacks now, the tables there will be, and the need of the whole range. */
  lemma OneMore(ts: set<int>, lo: int, v: int, hi: int)
    requires 0 <= lo <= v < hi
    ensures var now := ts + Span(lo, v - lo);
            && Lacking(ts, lo, v + 1 - lo) == Lacking(ts, lo, v - lo) + Lacking(now, v, 1)
            && now + Span(v, 1) == ts + Span(lo, v + 1 - lo)
    ensures Lacking(ts, lo, v + 1 - lo) <= Lacking(ts, lo, hi - lo)
  {
    hide Lacking, Span, Interval;
    LackingNext(ts, lo, v - lo);
    LackingOne(ts + Span(lo, v - lo), v);
    SpanJoins(ts, lo, v - lo);
    LackingGrows(ts, lo, v + 1 - lo, hi - lo);
  }

  /** Page tables for n pages from page 0 on. */
  function TablesFor(n: nat): nat {
    (n + NPTENTRIES - 1) / NPTENTRIES
  }

  lemma LackingFromZero(ts: set<int>, n: nat)
    requires forall i | 0 <= i < TablesFor(n) :: i !in ts
    ensures Lacking(ts, 0, n) == TablesFor(n)
  {
    if n == 0 {
      LackingNone(ts, 0);
    } else {
      assert (n - 1) / NPTENTRIES + 1 == TablesFor(n);
      assert Span(0, n) - ts == Interval(0, TablesFor(n));
      IntervalSize(0, TablesFor(n));
    }
  }

  // ---- the kernel's rows ----

  /** The page tables that the first k rows of kmap need. */
  ghost function RowTabs(dp: int, k: int): set<int>
    requires 0x100 < dp < 0xE000 && 0 <= k <= 4
  {
    if k == 0 then {} else RowTabs(dp, k - 1) + Span(KMapRow(dp, k - 1).virt, KMapRow(dp, k - 1).n)
  }

  /** A directory and the page tables of the kernel's mappings: 56 for physical memory and 8 for the devices. */
  const KVMPAGES := 65

  lemma {:induction false} RowTabsGrow(dp: int, k: int)
    requires 0x100 < dp < 0xE000 && 0 <= k <= 4
    ensures RowTabs(dp, k) <= RowTabs(dp, 4) && |RowTabs(dp, k)| <= |RowTabs(dp, 4)|
    decreases 4 - k
  {
    hide Span, Interval;
    if k < 4 {
      RowTabsGrow(dp, k + 1);
      SubsetSize(RowTabs(dp, k), RowTabs(dp, 4));
    }
  }

  lemma RowTabsAre(dp: int)
    requires 0x100 < dp < 0xE000
    ensures RowTabs(dp, 4) == Interval(512, 568) + Interval(1016, 1024)
  {
    assert RowTabs(dp, 1) == Interval(512, 513);
    assert RowTabs(dp, 2) == Interval(512, 512 + (dp - 1) / NPTENTRIES + 1);
    assert RowTabs(dp, 3) == Interval(512, 568);
  }

  lemma Apart(a: int, b: int, c: int, d: int)
    requires b <= c
    ensures Interval(a, b) !! Interval(c, d)
  {
  }

  lemma AllRowTabs(dp: int)
    requires 0x100 < dp < 0xE000
    ensures |RowTabs(dp, 4)| == KVMPAGES - 1 && forall i | i in RowTabs(dp, 4) :: 512 <= i
  {
    RowTabsAre(dp);
    hide RowTabs;
    IntervalSize(512, 568);
    IntervalSize(1016, 1024);
    Apart(512, 568, 1016, 1024);
  }

  lemma RowLacks(dp: int, k: int)
    requires 0x100 < dp < 0xE000 && 0 <= k < 4
    ensures var m := KMapRow(dp, k); |RowTabs(dp, k + 1)| == |RowTabs(dp, k)| + Lacking(RowTabs(dp, k), m.virt, m.n)
  {
    var m := KMapRow(dp, k);
    var ts := RowTabs(dp, k);
    assert RowTabs(dp, k + 1) == ts + (Span(m.virt, m.n) - ts);
  }

  lemma NoRowTabs(dp: int)
    requires 0x100 < dp < 0xE000
    ensures RowTabs(dp, 0) == {}
  {
  }

  lemma RowTabsNext(dp: int, k: int)
    requires 0x100 < dp < 0xE000 && 0 <= k < 4
    ensures RowTabs(dp, k + 1) == RowTabs(dp, k) + Span(KMapRow(dp, k).virt, KMapRow(dp, k).n)
  {
  }

  /** User pages share no page table with the kernel's mappings. */
  lemma CopyNeeds(dp: int, n: nat)
    requires 0x100 < dp < 0xE000 && n <= UPAGES
    ensures var ts := RowTabs(dp, 4);
            && Lacking(ts, 0, n) == TablesFor(n) && Lacking(ts, 0, 0) == 0 && ts + Span(0, 0) == ts
  {
    hide RowTabs, Lacking, Span, Interval;
    AllRowTabs(dp);
    LackingFromZero(RowTabs(dp, 4), n);
    LackingNone(RowTabs(dp, 4), 0);
    SpanNone(RowTabs(dp, 4), 0);
  }

  // ---- what changes the set of page tables ----

  lemma TabSetWithTable(tab: Tables, d: int, i: int, t: int)
    requires d in tab && 0 <= i < |tab[d]| && |tab[d]| == NPTENTRIES && t != d && t !in tab
    ensures TabSet(WithTable(tab, d, i, t), d) == TabSet(tab, d) + {i}
  {
    forall j ensures EntryAt(WithTable(tab, d, i, t), d, j) == if j == i then Present(t, Perm(true, true)) else EntryAt(tab, d, j) {
      WithTableEntries(tab, d, i, t, d, j);
    }
  }

  lemma TabSetSame(tab: Tables, tab': Tables, d: int)
    requires d in tab && d in tab' && tab'[d] == tab[d]
    ensures TabSet(tab', d) == TabSet(tab, d)
  {
  }

  lemma TabSetEmpty(tab: Tables, d: int)
    requires d in tab && tab[d] == EmptyTable()
    ensures TabSet(tab, d) == {}
  {
  }
}
