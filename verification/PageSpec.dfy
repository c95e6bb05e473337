/**
 Two-level page tables of vm.c. Physical pages and virtual pages are numbered; tab holds the
 entries of every page in use as a page directory or page table. use records, for every page
 taken from the allocator, what it is used for.
 */
module PageSpec {

  const PGSIZE := 4096
  const NPTENTRIES := 1024
  const KERNBASE := 0x8000_0000
  /** The virtual pages below KERNBASE. */
  const UPAGES := 0x80000
  const VPAGES := 0x100000

  datatype Perm = Perm(w: bool, u: bool)

  datatype Pte = Absent | Present(frame: int, perm: Perm)

  type Tables = map<int, seq<Pte>>

  /** A page allocated by kalloc is a directory, the i-th page table of directory d, d's user page v, or held by the kernel. */
  datatype Use = Dir | Tab(d: int, i: int) | User(d: int, v: int) | Kernel

  type Uses = map<int, Use>

  function EmptyTable(): seq<Pte> {
    seq(NPTENTRIES, _ => Absent)
  }

  function EntryAt(tab: Tables, t: int, i: int): Pte {
    if t in tab && 0 <= i < |tab[t]| then tab[t][i] else Absent
  }

  /** The meaning of directory d: virtual page v's mapping. */
  function Lookup(tab: Tables, d: int, v: int): Pte {
    var e := EntryAt(tab, d, v / NPTENTRIES);
    if e.Present? then EntryAt(tab, e.frame, v % NPTENTRIES) else Absent
  }

  function SetEntry(tab: Tables, t: int, i: int, e: Pte): Tables
    requires t in tab && 0 <= i < |tab[t]|
  {
    tab[t := tab[t][i := e]]
  }

  predicate Is(use: Uses, f: int, u: Use) {
    f in use && use[f] == u
  }

  predicate IsTable(u: Use) { u.Dir? || u.Tab? }

  // ---- the invariant ----

  ghost predicate Shape(tab: Tables, use: Uses) {
    && (forall f | f in tab :: f in use && IsTable(use[f]) && |tab[f]| == NPTENTRIES)
    && (forall f | f in use && IsTable(use[f]) :: f in tab)
  }

  /** Directory entries and page tables correspond one to one. */
  ghost predicate TabInv(tab: Tables, use: Uses) {
    && (forall d, i | Is(use, d, Dir) && EntryAt(tab, d, i).Present? :: Is(use, EntryAt(tab, d, i).frame, Tab(d, i)))
    && (forall f | f in use && use[f].Tab? ::
          Is(use, use[f].d, Dir) && var e := EntryAt(tab, use[f].d, use[f].i); e.Present? && e.frame == f)
  }

  /** User mappings and user pages correspond one to one. */
  ghost predicate UserInv(tab: Tables, use: Uses) {
    && (forall d, v | Is(use, d, Dir) && 0 <= v < UPAGES && Lookup(tab, d, v).Present? ::
          Is(use, Lookup(tab, d, v).frame, User(d, v)))
    && (forall f | f in use && use[f].User? ::
          && Is(use, use[f].d, Dir) && 0 <= use[f].v < UPAGES
          && var e := Lookup(tab, use[f].d, use[f].v); e.Present? && e.frame == f)
  }

  ghost predicate PageInv(tab: Tables, use: Uses) {
    Shape(tab, use) && TabInv(tab, use) && UserInv(tab, use)
  }

  /** Every directory of use maps every virtual page as before. */
  ghost predicate SameView(tab: Tables, tab': Tables, use: Uses) {
    forall d, v | Is(use, d, Dir) :: Lookup(tab', d, v) == Lookup(tab, d, v)
  }

  // ---- a new page table ----

  ghost function WithTable(tab: Tables, d: int, i: int, t: int): Tables
    requires d in tab && 0 <= i < |tab[d]| && t != d
  {
    SetEntry(tab[t := EmptyTable()], d, i, Present(t, Perm(true, true)))
  }

  lemma WithTableEntries(tab: Tables, d: int, i: int, t: int, f: int, j: int)
    requires d in tab && 0 <= i < |tab[d]| && t != d && t !in tab
    ensures EntryAt(WithTable(tab, d, i, t), f, j) ==
            if f == d && j == i then Present(t, Perm(true, true)) else EntryAt(tab, f, j)
  {
  }

  lemma WithTableLookup(tab: Tables, use: Uses, d: int, i: int, t: int, d': int, v: int)
    requires Shape(tab, use) && TabInv(tab, use) && Is(use, d, Dir) && 0 <= i < NPTENTRIES
    requires t !in use && EntryAt(tab, d, i).Absent? && Is(use, d', Dir)
    ensures Lookup(WithTable(tab, d, i, t), d', v) == Lookup(tab, d', v)
  {
    var tab' := WithTable(tab, d, i, t);
    WithTableEntries(tab, d, i, t, d', v / NPTENTRIES);
    var e := EntryAt(tab', d', v / NPTENTRIES);
    if e.Present? {
      WithTableEntries(tab, d, i, t, e.frame, v % NPTENTRIES);
    }
    hide WithTable;
  }

  lemma WithTableKeeps(tab: Tables, use: Uses, d: int, i: int, t: int)
    requires PageInv(tab, use) && Is(use, d, Dir) && 0 <= i < NPTENTRIES
    requires t !in use && EntryAt(tab, d, i).Absent?
    ensures PageInv(WithTable(tab, d, i, t), use[t := Tab(d, i)])
    ensures SameView(tab, WithTable(tab, d, i, t), use)
  {
    var tab', use' := WithTable(tab, d, i, t), use[t := Tab(d, i)];
    assert Shape(tab', use');
    forall f, j ensures EntryAt(tab', f, j) == if f == d && j == i then Present(t, Perm(true, true)) else EntryAt(tab, f, j) {
      WithTableEntries(tab, d, i, t, f, j);
    }
    forall d', v | Is(use, d', Dir) ensures Lookup(tab', d', v) == Lookup(tab, d', v) {
      WithTableLookup(tab, use, d, i, t, d', v);
    }
    hide WithTable, EntryAt, Lookup;
    assert TabInv(tab', use');
    assert UserInv(tab', use');
  }

  // ---- changing one mapping ----

  /** The page table that maps v in directory d. */
  function TableOf(tab: Tables, d: int, v: int): int
    requires EntryAt(tab, d, v / NPTENTRIES).Present?
  {
    EntryAt(tab, d, v / NPTENTRIES).frame
  }

  lemma TableOfIs(tab: Tables, use: Uses, d: int, v: int)
    requires PageInv(tab, use) && Is(use, d, Dir) && EntryAt(tab, d, v / NPTENTRIES).Present?
    ensures var t := TableOf(tab, d, v); Is(use, t, Tab(d, v / NPTENTRIES)) && t in tab && |tab[t]| == NPTENTRIES
  {
  }

  ghost function WithMapping(tab: Tables, d: int, v: int, e: Pte): Tables
    requires EntryAt(tab, d, v / NPTENTRIES).Present?
    requires var t := TableOf(tab, d, v); t in tab && |tab[t]| == NPTENTRIES
  {
    SetEntry(tab, TableOf(tab, d, v), v % NPTENTRIES, e)
  }

  lemma SetEntryAt(tab: Tables, t: int, i: int, e: Pte, f: int, j: int)
    requires t in tab && 0 <= i < |tab[t]|
    ensures EntryAt(SetEntry(tab, t, i, e), f, j) == if f == t && j == i then e else EntryAt(tab, f, j)
  {
  }

  lemma DivMod(v: int, w: int)
    requires v / NPTENTRIES == w / NPTENTRIES && v % NPTENTRIES == w % NPTENTRIES
    ensures v == w
  {
  }

  /** Changing one entry of a page table changes one mapping of one directory. */
  lemma WithMappingLookup(tab: Tables, use: Uses, d: int, v: int, e: Pte, d': int, v': int)
    requires PageInv(tab, use) && Is(use, d, Dir) && EntryAt(tab, d, v / NPTENTRIES).Present? && Is(use, d', Dir)
    ensures var t := TableOf(tab, d, v);
            && t in tab && |tab[t]| == NPTENTRIES
            && EntryAt(WithMapping(tab, d, v, e), d', v' / NPTENTRIES) == EntryAt(tab, d', v' / NPTENTRIES)
            && Lookup(WithMapping(tab, d, v, e), d', v') == if d' == d && v' == v then e else Lookup(tab, d', v')
  {
    TableOfIs(tab, use, d, v);
    var t := TableOf(tab, d, v);
    var tab' := WithMapping(tab, d, v, e);
    SetEntryAt(tab, t, v % NPTENTRIES, e, d', v' / NPTENTRIES);
    var p := EntryAt(tab, d', v' / NPTENTRIES);
    if p.Present? {
      SetEntryAt(tab, t, v % NPTENTRIES, e, p.frame, v' % NPTENTRIES);
      assert Is(use, p.frame, Tab(d', v' / NPTENTRIES));
      hide EntryAt, SetEntry, Shape, UserInv;
      if p.frame == t && v' % NPTENTRIES == v % NPTENTRIES {
        DivMod(v, v');
      }
    }
  }

  /** What changing the mapping of v in d to e does to the use of pages. */
  ghost predicate Rebinds(tab: Tables, use: Uses, use': Uses, d: int, v: int, e: Pte) {
    var was := Lookup(tab, d, v);
    if v >= UPAGES then use' == use
    else if e.Present? then was.Absent? && Is(use, e.frame, Kernel) && use' == use[e.frame := User(d, v)]
    else was.Present? && use' == use - {was.frame}
  }

  lemma WithMappingKeeps(tab: Tables, use: Uses, use': Uses, d: int, v: int, e: Pte)
    requires PageInv(tab, use) && Is(use, d, Dir) && EntryAt(tab, d, v / NPTENTRIES).Present?
    requires v >= 0 && Rebinds(tab, use, use', d, v, e)
    ensures var t := TableOf(tab, d, v);
            && t in tab && |tab[t]| == NPTENTRIES
            && PageInv(WithMapping(tab, d, v, e), use')
            && (forall d', v' | Is(use, d', Dir) :: Lookup(WithMapping(tab, d, v, e), d', v') ==
                  if d' == d && v' == v then e else Lookup(tab, d', v'))
  {
    TableOfIs(tab, use, d, v);
    var t := TableOf(tab, d, v);
    var tab' := WithMapping(tab, d, v, e);
    if v < UPAGES && e.Absent? {
      assert Is(use, Lookup(tab, d, v).frame, User(d, v));
    }
    assert Shape(tab', use');
    forall d', i | Is(use, d', Dir) ensures EntryAt(tab', d', i) == EntryAt(tab, d', i) {
      SetEntryAt(tab, t, v % NPTENTRIES, e, d', i);
    }
    forall d', v' | Is(use, d', Dir)
      ensures Lookup(tab', d', v') == if d' == d && v' == v then e else Lookup(tab, d', v')
    {
      WithMappingLookup(tab, use, d, v, e, d', v');
    }
    hide WithMapping, EntryAt, Lookup;
    MappingKeepsTabs(tab, tab', use, use', d, v, e);
    MappingKeepsUsers(tab, tab', use, use', d, v, e);
  }

  lemma MappingKeepsTabs(tab: Tables, tab': Tables, use: Uses, use': Uses, d: int, v: int, e: Pte)
    requires TabInv(tab, use) && UserInv(tab, use) && Is(use, d, Dir) && v >= 0 && Rebinds(tab, use, use', d, v, e)
    requires forall d', i | Is(use, d', Dir) :: EntryAt(tab', d', i) == EntryAt(tab, d', i)
    ensures TabInv(tab', use')
  {
    hide EntryAt, Lookup;
  }

  lemma MappingKeepsUsers(tab: Tables, tab': Tables, use: Uses, use': Uses, d: int, v: int, e: Pte)
    requires UserInv(tab, use) && Is(use, d, Dir) && v >= 0 && Rebinds(tab, use, use', d, v, e)
    requires forall d', v' | Is(use, d', Dir) ::
               Lookup(tab', d', v') == if d' == d && v' == v then e else Lookup(tab, d', v')
    ensures UserInv(tab', use')
  {
    hide EntryAt, Lookup;
  }

  // ---- directories come and go ----

  ghost function WithDir(tab: Tables, d: int): Tables {
    tab[d := EmptyTable()]
  }

  lemma NewDirKeeps(tab: Tables, use: Uses, d: int)
    requires PageInv(tab, use) && d !in use
    ensures PageInv(WithDir(tab, d), use[d := Dir])
    ensures SameView(tab, WithDir(tab, d), use)
    ensures forall v :: Lookup(WithDir(tab, d), d, v) == Absent
  {
    var tab', use' := WithDir(tab, d), use[d := Dir];
    assert Shape(tab', use');
    forall f, j ensures EntryAt(tab', f, j) == if f == d then Absent else EntryAt(tab, f, j) {
    }
    forall v ensures Lookup(tab', d, v).Absent? {
    }
    forall d', v | Is(use, d', Dir) ensures Lookup(tab', d', v) == Lookup(tab, d', v) {
    }
    hide EntryAt, Lookup;
    assert TabInv(tab', use');
  }

  /** Page f belongs to directory d: d itself, its page tables, its user pages. */
  ghost predicate Belongs(use: Uses, f: int, d: int) {
    && f in use
    && ((use[f].Dir? && f == d) || (use[f].Tab? && use[f].d == d) || (use[f].User? && use[f].d == d))
  }

  ghost function OwnedBy(use: Uses, d: int): set<int> {
    set f | f in use && Belongs(use, f, d)
  }

  /** What is left when directory d is gone. */
  ghost function Survivors(use: Uses, d: int): Uses {
    map f | f in use && !Belongs(use, f, d) :: use[f]
  }

  function Restrict(tab: Tables, keys: set<int>): Tables {
    map f | f in tab && f in keys :: tab[f]
  }

  lemma DropDirKeeps(tab: Tables, use: Uses, d: int)
    requires PageInv(tab, use) && Is(use, d, Dir)
    ensures var use' := Survivors(use, d);
            var tab' := Restrict(tab, use'.Keys);
            PageInv(tab', use') && SameView(tab, tab', use')
  {
    var use' := Survivors(use, d);
    var tab' := Restrict(tab, use'.Keys);
    assert Shape(tab', use');
    forall d', i | Is(use', d', Dir) ensures EntryAt(tab', d', i) == EntryAt(tab, d', i) {
    }
    forall d', v | Is(use', d', Dir) ensures Lookup(tab', d', v) == Lookup(tab, d', v) {
      var e := EntryAt(tab, d', v / NPTENTRIES);
      assert EntryAt(tab', d', v / NPTENTRIES) == e;
      if e.Present? {
        assert Is(use, e.frame, Tab(d', v / NPTENTRIES));
      }
    }
    hide EntryAt, Lookup;
    assert TabInv(tab', use');
    assert UserInv(tab', use');
  }

  /** use has grown from use0 only by pages of directory d. */
  ghost predicate Grown(use0: Uses, use: Uses, d: int) {
    && (forall f | f in use0 :: Is(use, f, use0[f]))
    && (forall f | f in use && f !in use0 :: Belongs(use, f, d))
  }

  /** Dropping a directory that was new gives back exactly what was taken for it. */
  lemma DropNewDir(tab0: Tables, use0: Uses, use: Uses, d: int)
    requires PageInv(tab0, use0) && d !in use0 && Grown(use0, use, d)
    ensures Survivors(use, d) == use0
  {
    forall f | f in use0 ensures !Belongs(use, f, d) {
    }
    forall f ensures f in Survivors(use, d) <==> f in use0 {
    }
  }

  // ---- freeing user pages ----

  /** use without the user pages lo..hi-1 of d. */
  ghost function WithoutUser(use: Uses, d: int, lo: int, hi: int): Uses {
    map f | f in use && !(use[f].User? && use[f].d == d && lo <= use[f].v < hi) :: use[f]
  }

  lemma WithoutNone(use: Uses, d: int, lo: int, hi: int)
    requires lo >= hi
    ensures WithoutUser(use, d, lo, hi) == use
  {
  }

  lemma WithoutUserStep(tab: Tables, use: Uses, d: int, lo: int, v: int)
    requires PageInv(tab, use) && Is(use, d, Dir) && 0 <= lo <= v < UPAGES
    ensures var e := Lookup(tab, d, v);
            var use1 := WithoutUser(use, d, lo, v);
            if e.Present? then Is(use1, e.frame, User(d, v)) && WithoutUser(use, d, lo, v + 1) == use1 - {e.frame}
            else WithoutUser(use, d, lo, v + 1) == use1
  {
    hide Lookup;
    var e := Lookup(tab, d, v);
    forall f ensures f in WithoutUser(use, d, lo, v + 1) <==> f in WithoutUser(use, d, lo, v) && !(e.Present? && f == e.frame) {
    }
  }

  lemma WithoutUserSkip(tab: Tables, use: Uses, d: int, lo: int, v: int, w: int)
    requires PageInv(tab, use) && Is(use, d, Dir) && lo <= v <= w
    requires forall u | v <= u < w :: Lookup(tab, d, u).Absent?
    ensures WithoutUser(use, d, lo, w) == WithoutUser(use, d, lo, v)
  {
    hide Lookup;
    forall f ensures f in WithoutUser(use, d, lo, w) <==> f in WithoutUser(use, d, lo, v) {
    }
  }

  // ---- freeing page tables ----

  /** use without the page tables 0..i-1 of d. */
  ghost function WithoutTabs(use: Uses, d: int, i: int): Uses {
    map f | f in use && !(use[f].Tab? && use[f].d == d && use[f].i < i) :: use[f]
  }

  lemma TabsStep(tab: Tables, use: Uses, d: int, i: int)
    requires PageInv(tab, use) && Is(use, d, Dir) && 0 <= i < NPTENTRIES
    ensures var e := EntryAt(tab, d, i);
            var use1 := WithoutTabs(use, d, i);
            && d in tab && |tab[d]| == NPTENTRIES && tab[d][i] == e
            && if e.Present? then
              && e.frame != d && Is(use1, e.frame, Tab(d, i)) && WithoutTabs(use, d, i + 1) == use1 - {e.frame}
              && Restrict(tab, WithoutTabs(use, d, i + 1).Keys) == Restrict(tab, use1.Keys) - {e.frame}
            else WithoutTabs(use, d, i + 1) == use1
  {
    var e := EntryAt(tab, d, i);
    assert d in tab && |tab[d]| == NPTENTRIES && tab[d][i] == e;
    hide EntryAt;
    forall f ensures f in WithoutTabs(use, d, i + 1) <==> f in WithoutTabs(use, d, i) && !(e.Present? && f == e.frame) {
    }
  }

  lemma WithoutTabsNone(tab: Tables, use: Uses, d: int)
    requires PageInv(tab, use)
    ensures WithoutTabs(use, d, 0) == use && Restrict(tab, use.Keys) == tab
  {
    forall f | f in use && use[f].Tab? ensures use[f].i >= 0 {
    }
    forall f ensures f in Restrict(tab, use.Keys) <==> f in tab {
    }
    forall f ensures f in WithoutTabs(use, d, 0) <==> f in use {
    }
  }

  lemma DirGone(tab: Tables, use: Uses, d: int)
    requires PageInv(tab, use) && Is(use, d, Dir)
    requires forall f | f in use :: !(use[f].User? && use[f].d == d)
    ensures WithoutTabs(use, d, NPTENTRIES) - {d} == Survivors(use, d)
    ensures var tab' := Restrict(tab, WithoutTabs(use, d, NPTENTRIES).Keys) - {d};
            PageInv(tab', Survivors(use, d)) && SameView(tab, tab', Survivors(use, d))
  {
    forall f | f in use && use[f].Tab? ensures use[f].i < NPTENTRIES {
    }
    forall f ensures f in WithoutTabs(use, d, NPTENTRIES) - {d} <==> f in Survivors(use, d) {
    }
    assert WithoutTabs(use, d, NPTENTRIES) - {d} == Survivors(use, d);
    assert Restrict(tab, WithoutTabs(use, d, NPTENTRIES).Keys) - {d} == Restrict(tab, Survivors(use, d).Keys);
    DropDirKeeps(tab, use, d);
  }

  // ---- pages in the kernel's hands ----

  lemma KernelTakes(tab: Tables, use: Uses, f: int)
    requires PageInv(tab, use) && f !in use
    ensures PageInv(tab, use[f := Kernel])
  {
    hide EntryAt, Lookup;
  }

  lemma KernelGives(tab: Tables, use: Uses, f: int)
    requires PageInv(tab, use) && Is(use, f, Kernel)
    ensures PageInv(tab, use - {f}) && tab - {f} == tab
  {
    assert f !in tab;
    hide EntryAt, Lookup;
  }

  // ---- the kernel's mappings ----

  /** A row of kmap, in pages. */
  datatype KMap = KMap(virt: int, phys: int, n: nat, perm: Perm)

  /** kmap; the kernel's data starts at physical page dp, between EXTMEM and PHYSTOP. */
  function KMapRow(dp: int, k: int): KMap
    requires 0x100 < dp < 0xE000 && 0 <= k < 4
  {
    if k == 0 then KMap(0x80000, 0, 0x100, Perm(true, false))
    else if k == 1 then KMap(0x80100, 0x100, dp - 0x100, Perm(false, false))
    else if k == 2 then KMap(0x80000 + dp, dp, 0xE000 - dp, Perm(true, false))
    else KMap(0xFE000, 0xFE000, 0x2000, Perm(true, false))
  }

  /**
   The layout every process shares: physical memory from 0 to PHYSTOP at KERNBASE, where the kernel's
   text is read-only, and the devices at the top mapped to themselves; none of it for user code.
   */
  function KernelMap(dp: int, v: int): Pte {
    if UPAGES <= v < UPAGES + 0xE000 then Present(v - UPAGES, Perm(!(0x100 <= v - UPAGES < dp), false))
    else if 0xFE000 <= v < VPAGES then Present(v, Perm(true, false))
    else Absent
  }

  /** Which row of kmap maps v; 4 if none does. */
  function Row(dp: int, v: int): int {
    if UPAGES <= v < UPAGES + 0x100 then 0
    else if UPAGES <= v < UPAGES + dp then 1
    else if UPAGES <= v < UPAGES + 0xE000 then 2
    else if 0xFE000 <= v < VPAGES then 3
    else 4
  }

  /** The mappings made by the first k rows. */
  function RowsMap(dp: int, k: int, v: int): Pte {
    if Row(dp, v) < k then KernelMap(dp, v) else Absent
  }

  lemma RowsMapStep(dp: int, k: int, v: int)
    requires 0x100 < dp < 0xE000 && 0 <= k < 4
    ensures var m := KMapRow(dp, k);
            && UPAGES <= m.virt && m.n >= 1 && m.virt + m.n <= VPAGES
            && (m.virt <= v < m.virt + m.n ==> RowsMap(dp, k, v).Absent?)
            && RowsMap(dp, k + 1, v) == if m.virt <= v < m.virt + m.n then Present(m.phys + (v - m.virt), m.perm) else RowsMap(dp, k, v)
  {
  }

  lemma NoRows(dp: int)
    ensures forall v :: RowsMap(dp, 0, v) == Absent
  {
  }

  lemma AllRows(dp: int)
    ensures forall v :: RowsMap(dp, 4, v) == KernelMap(dp, v)
  {
  }
}
