/** Memory of one process (kernel/process.c): mapped regions, the heap and teardown. Regions are kept in pages;
    the break is a byte address. */
module ProcessMemory {
  import opened Hardware
  import opened PageTree
  import opened PageTables
  import opened AddressSpaces
  import opened PageRuns

  const MAX_VM_REGIONS := 2048
  /** PROCESS_VM_BASE, PROCESS_HEAP_BASE and PROCESS_VM_MAX_SIZE in pages. */
  const VM_BASE := 0x10_0000
  const HEAP_BASE := 0x3_0000
  const VM_MAX := 0x2_0000

  datatype Region = Region(base: nat, pages: nat, protection: nat, owns: bool, active: bool) {
    function End(): nat { base + pages }
    predicate Has(v: int) { active && base <= v < End() }
  }

  // ---------------------------------------------------------------- regions

  ghost predicate Disjoint(rs: seq<Region>, i: int, j: int) {
    0 <= i < j < |rs| && rs[i].active && rs[j].active ==> rs[i].End() <= rs[j].base || rs[j].End() <= rs[i].base
  }

  ghost predicate Fits(rs: seq<Region>, next: int, r: int) {
    0 <= r < |rs| && rs[r].active ==> rs[r].pages > 0 && VM_BASE <= rs[r].base && rs[r].End() <= next
  }

  /** Active regions are not empty, lie between the base of the region area and `next`, and do not overlap. */
  ghost predicate RegionsApart(rs: seq<Region>, next: int) {
    && VM_BASE <= next <= USER_PAGES
    && (forall r {:trigger Fits(rs, next, r)} :: Fits(rs, next, r))
    && (forall i, j {:trigger Disjoint(rs, i, j)} :: Disjoint(rs, i, j))
  }

  /** A page of an active region whose frames belong to somebody else. */
  ghost predicate LentPage(rs: seq<Region>, v: int) { exists r :: 0 <= r < |rs| && !rs[r].owns && rs[r].Has(v) }

  ghost function LentOf(rs: seq<Region>, p: Frame): set<Node> {
    set v | 0 <= v < USER_PAGES && LentPage(rs, v) :: Leaf(p, v)
  }

  lemma LentIff(rs: seq<Region>, p: Frame, v: int)
    requires 0 <= v < USER_PAGES
    ensures Leaf(p, v) in LentOf(rs, p) <==> LentPage(rs, v)
  {
    if Leaf(p, v) in LentOf(rs, p) {
      var w :| 0 <= w < USER_PAGES && LentPage(rs, w) && Leaf(p, w) == Leaf(p, v);
      LeafInjective(p, v, p, w);
    }
  }

  /** Pages outside all active regions are not lent. */
  lemma NotLent(rs: seq<Region>, next: int, p: Frame, first: int, end: int)
    requires RegionsApart(rs, next) && 0 <= first && end <= USER_PAGES && (next <= first || end <= VM_BASE)
    ensures RunKeys(p, first, end) !! LentOf(rs, p)
  {
    forall v | first <= v < end ensures Leaf(p, v) !in LentOf(rs, p) {
      LentIff(rs, p, v);
      forall r | 0 <= r < |rs| ensures !rs[r].Has(v) { assert Fits(rs, next, r); }
    }
  }

  /** The pages of a region are lent exactly if the region does not own its frames. */
  lemma RegionUniform(rs: seq<Region>, next: int, p: Frame, r: nat)
    requires RegionsApart(rs, next) && r < |rs| && rs[r].active
    ensures Uniform(p, rs[r].base, rs[r].End(), rs[r].owns, LentOf(rs, p)) && rs[r].End() <= USER_PAGES
  {
    assert Fits(rs, next, r);
    forall v | rs[r].base <= v < rs[r].End() ensures rs[r].owns <==> Leaf(p, v) !in LentOf(rs, p) {
      LentIff(rs, p, v);
      assert rs[r].Has(v);
      if rs[r].owns {
        forall s | 0 <= s < |rs| && s != r ensures !rs[s].Has(v) { assert Disjoint(rs, s, r) && Disjoint(rs, r, s); }
      }
    }
  }

  /** A new region above all others. */
  lemma RegionAdded(rs: seq<Region>, next: int, slot: nat, reg: Region)
    requires RegionsApart(rs, next) && slot < |rs| && !rs[slot].active
    requires reg.active && reg.pages > 0 && next <= reg.base && reg.End() <= USER_PAGES
    ensures RegionsApart(rs[slot := reg], reg.End())
  {
    var rs' := rs[slot := reg];
    forall r ensures Fits(rs', reg.End(), r) { assert Fits(rs, next, r); }
    forall i, j ensures Disjoint(rs', i, j) {
      assert Disjoint(rs, i, j) && Fits(rs, next, i) && Fits(rs, next, j);
    }
  }

  lemma RegionDropped(rs: seq<Region>, next: int, r: nat)
    requires RegionsApart(rs, next) && r < |rs|
    ensures RegionsApart(rs[r := rs[r].(active := false)], next)
  {
    var rs' := rs[r := rs[r].(active := false)];
    forall s ensures Fits(rs', next, s) { assert Fits(rs, next, s); }
    forall i, j ensures Disjoint(rs', i, j) { assert Disjoint(rs, i, j); }
  }

  lemma LentAdded(rs: seq<Region>, p: Frame, slot: nat, reg: Region)
    requires slot < |rs| && !rs[slot].active && reg.active && reg.End() <= USER_PAGES
    ensures LentOf(rs[slot := reg], p) == if reg.owns then LentOf(rs, p)
                                          else LentOf(rs, p) + RunKeys(p, reg.base, reg.End())
  {
    var rs' := rs[slot := reg];
    forall v ensures LentPage(rs', v) <==> LentPage(rs, v) || (!reg.owns && reg.base <= v < reg.End()) {
      if LentPage(rs, v) {
        var r :| 0 <= r < |rs| && !rs[r].owns && rs[r].Has(v);
        assert rs'[r].Has(v);
      }
      if !reg.owns && reg.base <= v < reg.End() { assert rs'[slot].Has(v); }
    }
  }

  /** Deactivating a region takes at most its own pages out of the lent ones. */
  lemma LentDropped(rs: seq<Region>, p: Frame, r: nat, k: Node)
    requires r < |rs| && rs[r].active && rs[r].End() <= USER_PAGES && k !in RunKeys(p, rs[r].base, rs[r].End())
    ensures k in LentOf(rs, p) <==> k in LentOf(rs[r := rs[r].(active := false)], p)
  {
    var rs' := rs[r := rs[r].(active := false)];
    if k in LentOf(rs, p) {
      var v :| 0 <= v < USER_PAGES && LentPage(rs, v) && Leaf(p, v) == k;
      var s :| 0 <= s < |rs| && !rs[s].owns && rs[s].Has(v);
      assert rs'[s].Has(v);
    }
    if k in LentOf(rs', p) {
      var v :| 0 <= v < USER_PAGES && LentPage(rs', v) && Leaf(p, v) == k;
      var s :| 0 <= s < |rs| && !rs'[s].owns && rs'[s].Has(v);
      assert rs[s].Has(v);
    }
  }

  // ---------------------------------------------------------------- what is mapped

  /** The region is fully mapped, or its unmapping was cut short and its first page is gone. */
  ghost predicate Filled(view: View, p: Frame, rs: seq<Region>, r: int) {
    0 <= r < |rs| && rs[r].active ==> RunKeys(p, rs[r].base, rs[r].End()) <= view.Keys || Leaf(p, rs[r].base) !in view
  }

  ghost predicate AllFilled(view: View, p: Frame, rs: seq<Region>) {
    forall r {:trigger Filled(view, p, rs, r)} :: Filled(view, p, rs, r)
  }

  /** The heap occupies the pages from HEAP_BASE to `end`, the break rounded up. */
  ghost predicate HeapOk(view: View, p: Frame, brk: int, end: int) {
    && HEAP_BASE <= end <= HEAP_BASE + VM_MAX && 4096 * HEAP_BASE <= brk && end == (brk + 4095) / 4096
    && RunKeys(p, HEAP_BASE, end) <= view.Keys
  }

  lemma RunsApart(p: Frame, first: int, end: int, first': int, end': int)
    requires 0 <= first && end <= USER_PAGES && 0 <= first' && end' <= USER_PAGES && (end <= first' || end' <= first)
    ensures RunKeys(p, first, end) !! RunKeys(p, first', end')
  {
    forall v | first <= v < end ensures Leaf(p, v) !in RunKeys(p, first', end') { NotInRun(p, v, first', end'); }
  }

  lemma GrownKeeps(view0: View, view: View, p: Frame, first: int, end: int)
    requires Grown(view0, view, p, first, end)
    ensures view.Keys == view0.Keys + RunKeys(p, first, end)
  {
    forall k | k in view0 ensures k in view { assert k in view - RunKeys(p, first, end); }
    forall k | k in view && k !in RunKeys(p, first, end) ensures k in view0 {
      assert k in view - RunKeys(p, first, end);
    }
  }

  /** Mapping pages outside the area of the regions keeps them as they are. */
  lemma FilledMore(view: View, view': View, p: Frame, rs: seq<Region>, next: int, first: int, end: int)
    requires AllFilled(view, p, rs) && RegionsApart(rs, next) && view'.Keys == view.Keys + RunKeys(p, first, end)
    requires 0 <= first && end <= USER_PAGES && (next <= first || end <= VM_BASE)
    ensures AllFilled(view', p, rs)
  {
    forall r ensures Filled(view', p, rs, r) {
      assert Filled(view, p, rs, r) && Fits(rs, next, r);
      if 0 <= r < |rs| && rs[r].active { NotInRun(p, rs[r].base, first, end); }
    }
  }

  lemma FilledAdded(view: View, p: Frame, rs: seq<Region>, slot: nat, reg: Region)
    requires AllFilled(view, p, rs) && slot < |rs| && RunKeys(p, reg.base, reg.End()) <= view.Keys
    ensures AllFilled(view, p, rs[slot := reg])
  {
    var rs' := rs[slot := reg];
    forall r ensures Filled(view, p, rs', r) { if r != slot { assert Filled(view, p, rs, r); } }
  }

  /** Taking pages of region `r` away, its first one among them, leaves the other regions as they are. */
  lemma FilledLess(view: View, p: Frame, rs: seq<Region>, next: int, r: nat, v: int)
    requires AllFilled(view, p, rs) && RegionsApart(rs, next) && r < |rs| && rs[r].active
    requires rs[r].base < v <= rs[r].End() <= USER_PAGES
    ensures AllFilled(view - RunKeys(p, rs[r].base, v), p, rs)
  {
    var view' := view - RunKeys(p, rs[r].base, v);
    assert Leaf(p, rs[r].base) in RunKeys(p, rs[r].base, v);
    forall s ensures Filled(view', p, rs, s) {
      assert Filled(view, p, rs, s) && Fits(rs, next, s) && Disjoint(rs, s, r) && Disjoint(rs, r, s);
      if 0 <= s < |rs| && rs[s].active && s != r { RunsApart(p, rs[s].base, rs[s].End(), rs[r].base, v); }
    }
  }

  lemma FilledDropped(view: View, p: Frame, rs: seq<Region>, r: nat)
    requires AllFilled(view, p, rs) && r < |rs|
    ensures AllFilled(view, p, rs[r := rs[r].(active := false)])
  {
    var rs' := rs[r := rs[r].(active := false)];
    forall s ensures Filled(view, p, rs', s) { if s != r { assert Filled(view, p, rs, s); } }
  }

  // ---------------------------------------------------------------- which regions are torn

  /** Every page of the region is mapped. */
  ghost predicate Whole(view: View, p: Frame, reg: Region) { RunKeys(p, reg.base, reg.End()) <= view.Keys }

  /** The active regions that have lost pages. */
  ghost function Torn(view: View, p: Frame, rs: seq<Region>): set<int> {
    set r | 0 <= r < |rs| && rs[r].active && !Whole(view, p, rs[r])
  }

  /** A torn region has lost its first page. */
  lemma TornFirst(view: View, p: Frame, rs: seq<Region>, next: int, r: nat)
    requires AllFilled(view, p, rs) && RegionsApart(rs, next) && r < |rs| && rs[r].active
    ensures r in Torn(view, p, rs) <==> Leaf(p, rs[r].base) !in view
  {
    assert Filled(view, p, rs, r) && Fits(rs, next, r);
    FirstInRun(p, rs[r].base, rs[r].End());
  }

  /** Mapping pages outside the area of the regions tears and mends nothing. */
  lemma TornMore(view: View, view': View, p: Frame, rs: seq<Region>, next: int, first: int, end: int)
    requires RegionsApart(rs, next) && view'.Keys == view.Keys + RunKeys(p, first, end)
    requires 0 <= first && end <= USER_PAGES && (next <= first || end <= VM_BASE)
    ensures Torn(view', p, rs) == Torn(view, p, rs)
  {
    forall r | 0 <= r < |rs| && rs[r].active ensures Whole(view', p, rs[r]) <==> Whole(view, p, rs[r]) {
      assert Fits(rs, next, r);
      RunsApart(p, rs[r].base, rs[r].End(), first, end);
    }
  }

  lemma TornAdded(view: View, p: Frame, rs: seq<Region>, slot: nat, reg: Region)
    requires slot < |rs| && !rs[slot].active && Whole(view, p, reg)
    ensures Torn(view, p, rs[slot := reg]) == Torn(view, p, rs)
  {}

  /** Unmapping pages of region `r` from its first one on tears that region and no other. */
  lemma TornLess(view: View, p: Frame, rs: seq<Region>, next: int, r: nat, v: int)
    requires RegionsApart(rs, next) && r < |rs| && rs[r].active && rs[r].base < v <= rs[r].End() <= USER_PAGES
    ensures Torn(view - RunKeys(p, rs[r].base, v), p, rs) == Torn(view, p, rs) + {r}
  {
    var view' := view - RunKeys(p, rs[r].base, v);
    FirstInRun(p, rs[r].base, v);
    FirstInRun(p, rs[r].base, rs[r].End());
    forall s | 0 <= s < |rs| && rs[s].active && s != r ensures Whole(view', p, rs[s]) <==> Whole(view, p, rs[s]) {
      assert Fits(rs, next, s) && Disjoint(rs, s, r) && Disjoint(rs, r, s);
      RunsApart(p, rs[s].base, rs[s].End(), rs[r].base, v);
    }
  }

  lemma TornDropped(view: View, p: Frame, rs: seq<Region>, r: nat)
    requires r < |rs|
    ensures Torn(view, p, rs[r := rs[r].(active := false)]) == Torn(view, p, rs) - {r}
  {}

  /** Unmapping pages outside the area of the regions tears nothing. */
  lemma TornOutside(view: View, p: Frame, rs: seq<Region>, next: int, first: int, end: int)
    requires RegionsApart(rs, next) && 0 <= first && end <= USER_PAGES && (next <= first || end <= VM_BASE)
    ensures Torn(view - RunKeys(p, first, end), p, rs) == Torn(view, p, rs)
  {
    forall r | 0 <= r < |rs| && rs[r].active
      ensures Whole(view - RunKeys(p, first, end), p, rs[r]) <==> Whole(view, p, rs[r])
    {
      assert Fits(rs, next, r);
      RunsApart(p, rs[r].base, rs[r].End(), first, end);
    }
  }

  /** Regions and heap are laid out and mapped as they should be. */
  ghost predicate Layout(view: View, p: Frame, rs: seq<Region>, next: int, brk: int, end: int) {
    RegionsApart(rs, next) && AllFilled(view, p, rs) && HeapOk(view, p, brk, end)
  }

  /** A region was mapped above all others. */
  lemma LayoutMapped(view: View, view': View, p: Frame, rs: seq<Region>, next: int, brk: int, end: int, slot: nat,
                     reg: Region)
    requires Layout(view, p, rs, next, brk, end) && slot < |rs| && !rs[slot].active
    requires reg.active && reg.pages > 0 && next <= reg.base && reg.End() <= USER_PAGES
             && Grown(view, view', p, reg.base, reg.End())
    ensures Layout(view', p, rs[slot := reg], reg.End(), brk, end)
    ensures Torn(view', p, rs[slot := reg]) == Torn(view, p, rs)
  {
    GrownKeeps(view, view', p, reg.base, reg.End());
    TornMore(view, view', p, rs, next, reg.base, reg.End());
    TornAdded(view', p, rs, slot, reg);
    RegionAdded(rs, next, slot, reg);
    FilledMore(view, view', p, rs, next, reg.base, reg.End());
    FilledAdded(view', p, rs, slot, reg);
  }

  /** Part of a region, or all of it, was unmapped. */
  lemma LayoutUnmapped(view: View, p: Frame, rs: seq<Region>, next: int, brk: int, end: int, r: nat, v: int)
    requires Layout(view, p, rs, next, brk, end) && r < |rs| && rs[r].active && rs[r].base < v <= rs[r].End()
    ensures Layout(view - RunKeys(p, rs[r].base, v), p, rs, next, brk, end)
    ensures Torn(view - RunKeys(p, rs[r].base, v), p, rs) == Torn(view, p, rs) + {r}
  {
    assert Fits(rs, next, r);
    TornLess(view, p, rs, next, r, v);
    FilledLess(view, p, rs, next, r, v);
    RunsApart(p, HEAP_BASE, end, rs[r].base, v);
  }

  lemma LayoutDropped(view: View, p: Frame, rs: seq<Region>, next: int, brk: int, end: int, r: nat)
    requires Layout(view, p, rs, next, brk, end) && r < |rs|
    ensures Layout(view, p, rs[r := rs[r].(active := false)], next, brk, end)
    ensures Torn(view, p, rs[r := rs[r].(active := false)]) == Torn(view, p, rs) - {r}
  {
    TornDropped(view, p, rs, r);
    RegionDropped(rs, next, r);
    FilledDropped(view, p, rs, r);
  }

  /** The heap grew or shrank. */
  lemma LayoutHeap(view: View, view': View, p: Frame, rs: seq<Region>, next: int, brk: int, end: int, brk': int,
                   end': int)
    requires Layout(view, p, rs, next, brk, end)
    requires HEAP_BASE <= end' <= HEAP_BASE + VM_MAX && 4096 * HEAP_BASE <= brk' && end' == (brk' + 4095) / 4096
    requires if end' >= end then Grown(view, view', p, end, end') else view' == view - RunKeys(p, end', end)
    ensures Layout(view', p, rs, next, brk', end') && Torn(view', p, rs) == Torn(view, p, rs)
  {
    if end' >= end {
      GrownKeeps(view, view', p, end, end');
      TornMore(view, view', p, rs, next, end, end');
      FilledMore(view, view', p, rs, next, end, end');
      forall v | HEAP_BASE <= v < end' ensures Leaf(p, v) in view' {
        if v < end { assert Leaf(p, v) in RunKeys(p, HEAP_BASE, end); } else {
          assert Leaf(p, v) in RunKeys(p, end, end');
        }
      }
    } else {
      TornOutside(view, p, rs, next, end', end);
      forall r ensures Filled(view', p, rs, r) {
        assert Filled(view, p, rs, r) && Fits(rs, next, r);
        if 0 <= r < |rs| && rs[r].active { RunsApart(p, rs[r].base, rs[r].End(), end', end); }
      }
      forall v | HEAP_BASE <= v < end' ensures Leaf(p, v) in view' {
        assert Leaf(p, v) in RunKeys(p, HEAP_BASE, end);
        NotInRun(p, v, end', end);
      }
    }
  }

  lemma LayoutSame(view: View, view': View, p: Frame, rs: seq<Region>, next: int, brk: int, end: int)
    requires Layout(view, p, rs, next, brk, end) && view'.Keys == view.Keys
    ensures Layout(view', p, rs, next, brk, end) && Torn(view', p, rs) == Torn(view, p, rs)
  {
    forall r ensures Filled(view', p, rs, r) { assert Filled(view, p, rs, r); }
  }

  lemma NoRegions(view: View, rs: seq<Region>, p: Frame)
    requires Inactive(rs, |rs|)
    ensures LentOf(rs, p) == {} && Layout(view, p, rs, VM_BASE, 4096 * HEAP_BASE, HEAP_BASE)
    ensures Torn(view, p, rs) == {}
  {
    assert RunKeys(p, HEAP_BASE, HEAP_BASE) == {};
  }

  // ---------------------------------------------------------------- choosing a place

  /** No page of the run is mapped. */
  ghost predicate Clear(view: View, p: Frame, first: int, end: int) { RunKeys(p, first, end) !! view.Keys }

  /** The first of the places `base`, `base + pages`, ... where the run fits and is clear; USER_PAGES if there is
      none. */
  ghost function FirstFit(view: View, p: Frame, base: nat, pages: nat): (b: nat)
    requires pages > 0
    ensures b <= USER_PAGES
    ensures b < USER_PAGES ==> base <= b && b + pages <= USER_PAGES && Clear(view, p, b, b + pages)
    decreases USER_PAGES - base
  {
    if base >= USER_PAGES || pages > USER_PAGES - base then USER_PAGES
    else if Clear(view, p, base, base + pages) then base
    else FirstFit(view, p, base + pages, pages)
  }

  lemma FirstFitNext(view: View, p: Frame, base: nat, next: nat, pages: nat)
    requires pages > 0 && next == base + pages <= USER_PAGES
    ensures FirstFit(view, p, base, pages) == if Clear(view, p, base, next) then base
                                              else FirstFit(view, p, next, pages)
  {}

  /** The scan of one candidate place. */
  method IsClear(vm: Vmm, p: Frame, first: nat, end: nat) returns (clear: bool)
    requires vm.Valid() && vm.Live(p) && first <= end <= USER_PAGES
    ensures clear <==> Clear(vm.view, p, first, end)
  {
    for v := first to end
      invariant forall w :: first <= w < v ==> Leaf(p, w) !in vm.view
    {
      var e := vm.GetEntry(p, v);
      if e.bits.present {
        assert Leaf(p, v) in RunKeys(p, first, end);
        return false;
      }
    }
    return true;
  }

  /** The search of process_vm_map and process_vm_map_phys. */
  method FindBase(vm: Vmm, p: Frame, start: nat, pages: nat) returns (base: nat)
    requires vm.Valid() && vm.Live(p) && pages > 0
    ensures base == FirstFit(vm.view, p, start, pages)
  {
    base := start;
    while base < USER_PAGES && pages <= USER_PAGES - base
      invariant FirstFit(vm.view, p, base, pages) == FirstFit(vm.view, p, start, pages)
      decreases USER_PAGES - base
    {
      var next := base + pages;
      FirstFitNext(vm.view, p, base, next, pages);
      var clear := IsClear(vm, p, base, next);
      if clear { return; }
      base := next;
    }
    return USER_PAGES;
  }

  // ---------------------------------------------------------------- the process

  predicate GoodProtection(protection: nat) { protection < 8 && !(protection / 2 % 2 == 1 && protection / 4 % 2 == 1) }

  function ProtectionFlags(protection: nat): (f: Flags)
    ensures f.present && f.user && (GoodProtection(protection) && f.writable ==> f.noExecute)
  {
    Flags(true, protection / 2 % 2 == 1, true, false, protection / 4 % 2 == 0, 0)
  }

  function PagesFor(size: nat): nat { (size + 4095) / 4096 }

  predicate GoodRequest(size: nat, protection: nat) { 0 < size <= 4096 * VM_MAX && GoodProtection(protection) }

  predicate Matches(reg: Region, address: nat, pages: nat) {
    reg.active && 4096 * reg.base == address && reg.pages == pages
  }

  const HEAP_FLAGS := Flags(true, true, true, false, true, 0)

  /** Exactly the pages between the two ends of the heap were mapped, or unmapped. */
  ghost predicate HeapMoved(view: View, view': View, p: Frame, end: int, end': int) {
    if end' >= end then Grown(view, view', p, end, end') else view' == view - RunKeys(p, end', end)
  }

  lemma Present(view0: View, view: View, p: Frame, first: int, v: int)
    requires Grown(view0, view, p, first, v) && 0 <= first <= v < USER_PAGES
    ensures Leaf(p, v) in view <==> Leaf(p, v) in view0
  {
    GrownKeeps(view0, view, p, first, v);
    NotInRun(p, v, first, v);
  }

  lemma RunSub(p: Frame, first: int, v: int, end: int)
    requires v <= end
    ensures RunKeys(p, first, v) <= RunKeys(p, first, end)
  {}

  ghost predicate InRegion(rs: seq<Region>, v: int) { exists r :: 0 <= r < |rs| && rs[r].Has(v) }

  ghost predicate InUse(view: View, p: Frame, rs: seq<Region>, v: int) { InRegion(rs, v) && Leaf(p, v) in view }

  /** Every page of the run lies in a region and is mapped. */
  ghost predicate Changeable(view: View, p: Frame, rs: seq<Region>, first: int, end: int) {
    forall v {:trigger InUse(view, p, rs, v)} :: first <= v < end ==> InUse(view, p, rs, v)
  }

  lemma ChangeableStep(view: View, p: Frame, rs: seq<Region>, first: int, v: int, next: int, end: int)
    requires first <= v < end && next == v + 1 && Changeable(view, p, rs, first, v)
    ensures InUse(view, p, rs, v) ==> Changeable(view, p, rs, first, next)
    ensures !InUse(view, p, rs, v) ==> !Changeable(view, p, rs, first, end)
  {}

  lemma ChangeableMapped(view: View, p: Frame, rs: seq<Region>, first: int, end: int)
    requires Changeable(view, p, rs, first, end)
    ensures RunKeys(p, first, end) <= view.Keys
  {
    forall v | first <= v < end ensures Leaf(p, v) in view { assert InUse(view, p, rs, v); }
  }

  /** Region `r` has lost its pages below `cut`; either that was all of them and it is retired, or it stays and is torn.
      No other region is touched. */
  ghost predicate Unmapped(rs: seq<Region>, was: Snap, rs': seq<Region>, now: Snap, p: Frame, ok: bool, r: int,
                           cut: nat) {
    && 0 <= r < |rs| && rs[r].base < cut <= rs[r].End() && (ok ==> cut == rs[r].End())
    && rs' == (if ok then rs[r := rs[r].(active := false)] else rs)
    && now.view == was.view - RunKeys(p, rs[r].base, cut) && Extends(now.tab, was.tab)
    && Torn(now.view, p, rs') == Torn(was.view, p, rs) + (if ok then {} else {r})
  }

  class Process {
    const vm: Vmm
    const regions: array<Region>
    var pml4: Frame
    var nextBase: nat
    var heapBreak: nat
    var heapEnd: nat
    ghost var whole: set<int>

    ghost function Lent(): set<Node>
      reads this, regions
    {
      LentOf(regions[..], pml4)
    }

    ghost predicate Valid()
      reads this, regions, vm, vm.pm, vm.pm.ranges
    {
      && regions.Length == MAX_VM_REGIONS && Home(vm, pml4, whole, Lent())
      && Layout(vm.view, pml4, regions[..], nextBase, heapBreak, heapEnd)
    }

    /** The active regions of which pages are missing. */
    ghost function TornNow(): set<int>
      reads this, regions, vm
    {
      Torn(vm.view, pml4, regions[..])
    }

    /** A process that starts: an address space that owns its pages, no regions and an empty heap. */
    constructor (vm: Vmm, p: Frame, ghost whole0: set<int>)
      requires Home(vm, p, whole0, {})
      ensures Valid() && this.vm == vm && pml4 == p && whole == whole0 && fresh(regions) && TornNow() == {}
      ensures nextBase == VM_BASE && heapBreak == 4096 * HEAP_BASE && heapEnd == HEAP_BASE
      ensures Inactive(regions[..], regions.Length)
    {
      this.vm, pml4, whole := vm, p, whole0;
      nextBase, heapBreak, heapEnd := VM_BASE, 4096 * HEAP_BASE, HEAP_BASE;
      regions := new Region[MAX_VM_REGIONS](_ => Region(0, 0, 0, false, false));
      new;
      NoRegions(vm.view, regions[..], p);
    }

    // The first region slot that is not in use; the table length if there is none.
    method FindSlot() returns (slot: nat)
      ensures slot <= regions.Length && (slot < regions.Length ==> !regions[slot].active)
      ensures forall r :: 0 <= r < slot ==> regions[r].active
    {
      slot := 0;
      while slot < regions.Length && regions[slot].active
        invariant 0 <= slot <= regions.Length && forall r :: 0 <= r < slot ==> regions[r].active
      {
        slot := slot + 1;
      }
    }

    /** The process-level state is untouched. */
    twostate predicate Same()
      reads this, regions
    {
      && pml4 == old(pml4) && nextBase == old(nextBase) && heapBreak == old(heapBreak) && heapEnd == old(heapEnd)
      && whole == old(whole) && regions[..] == old(regions[..])
    }

    /** What every operation leaves alone. */
    twostate predicate Kept()
      reads this, vm, vm.pm
    {
      pml4 == old(pml4) && whole == old(whole) && Others(vm, old(Now(vm)), pml4, whole)
    }

    // Enter a new region in the table.
    method Record(slot: nat, reg: Region, end: nat, ghost view0: View)
      requires slot < regions.Length == MAX_VM_REGIONS && !regions[slot].active
      requires reg.active && nextBase <= reg.base < end <= USER_PAGES && end == reg.End()
      requires Layout(view0, pml4, regions[..], nextBase, heapBreak, heapEnd)
               && Grown(view0, vm.view, pml4, reg.base, end)
      requires Home(vm, pml4, whole, if reg.owns then Lent() else Lent() + RunKeys(pml4, reg.base, end))
      modifies regions, `nextBase
      ensures Valid() && regions[..] == old(regions[..])[slot := reg] && nextBase == reg.End()
      ensures TornNow() == Torn(view0, pml4, old(regions[..]))
    {
      LayoutMapped(view0, vm.view, pml4, regions[..], nextBase, heapBreak, heapEnd, slot, reg);
      LentAdded(regions[..], pml4, slot, reg);
      ghost var rs := regions[..];
      regions[slot] := reg;
      assert regions[..] == rs[slot := reg];
      nextBase := end;
    }

    /** The table has gained region `reg` in slot `slot`. */
    twostate predicate Gained(slot: int, reg: Region)
      reads this, regions
    {
      && 0 <= slot < old(|regions[..]|) && !old(regions[..])[slot].active
      && regions[..] == old(regions[..])[slot := reg]
      && nextBase == reg.End() && heapBreak == old(heapBreak) && heapEnd == old(heapEnd)
    }

    // Map the pages of a new region at the place found and record it.
    method MapAt(slot: nat, base: nat, end: nat, protection: nat) returns (ok: bool)
      requires Valid() && slot < regions.Length && !regions[slot].active && nextBase <= base < end <= USER_PAGES
      requires Clear(vm.view, pml4, base, end) && GoodProtection(protection)
      modifies this, regions, vm`tab, vm`view, vm`stock, vm.pm, vm.pm.ranges
      ensures Valid() && Kept() && TornNow() == old(TornNow())
      ensures !ok ==> Same() && Undone(vm, old(Now(vm))) && old(vm.Room()) < 4 * (end - base)
      ensures ok ==>
                Gained(slot, Region(base, end - base, protection, true, true))
                && Grown(old(vm.view), vm.view, pml4, base, end)
      ensures ok ==> Zeroed(vm.view, vm.pm.bytes, pml4, base, end, ProtectionFlags(protection))
    {
      NotLent(regions[..], nextBase, pml4, base, end);
      ok := FillRun(vm, pml4, base, end, ProtectionFlags(protection), Now(vm), whole, Lent());
      if ok { Record(slot, Region(base, end - base, protection, true, true), end, old(vm.view)); }
    }

    /** Where process_vm_map and process_vm_map_phys put a region of `pages` pages; USER_PAGES if the table is full
        or no place is left. */
    ghost function Place(pages: nat): nat
      reads this, regions, vm
      requires pages > 0
    {
      if forall r :: 0 <= r < regions.Length ==> regions[r].active then USER_PAGES
      else FirstFit(vm.view, pml4, nextBase, pages)
    }

    // Look for a slot and a place.
    method Choose(pages: nat) returns (slot: nat, base: nat, end: nat)
      requires Valid() && pages > 0
      ensures base == Place(pages) <= USER_PAGES && end == base + pages
      ensures base < USER_PAGES ==>
                slot < regions.Length && !regions[slot].active && VM_BASE <= nextBase <= base < end <= USER_PAGES
      ensures base < USER_PAGES ==> Clear(vm.view, pml4, base, end)
    {
      slot := FindSlot();
      if slot == regions.Length { return slot, USER_PAGES, USER_PAGES + pages; }
      base := FindBase(vm, pml4, nextBase, pages);
      end := base + pages;
    }

    /** Map a new region of cleared pages (process_vm_map). The result is its first page, or 0 when the arguments are
        wrong, the table is full, no place is left or memory runs out; then nothing has changed. */
    method VmMap(size: nat, protection: nat) returns (base: nat, ghost end: nat, ghost slot: nat)
      requires Valid()
      modifies this, regions, vm`tab, vm`view, vm`stock, vm.pm, vm.pm.ranges
      ensures Valid() && Kept() && TornNow() == old(TornNow())
      ensures base == 0 ==> Same() && Undone(vm, old(Now(vm)))
      ensures base == 0 ==> || !GoodRequest(size, protection) || old(Place(PagesFor(size))) == USER_PAGES
                            || old(vm.Room()) < 4 * PagesFor(size)
      ensures base != 0 ==>
                GoodRequest(size, protection) && base == old(Place(PagesFor(size))) && end == base + PagesFor(size)
      ensures base != 0 ==> Gained(slot, Region(base, PagesFor(size), protection, true, true))
      ensures base != 0 ==> Grown(old(vm.view), vm.view, pml4, base, end)
      ensures base != 0 ==> Zeroed(vm.view, vm.pm.bytes, pml4, base, end, ProtectionFlags(protection))
    {
      base, end, slot := 0, 0, 0;
      NowSound(vm, pml4, whole, Lent());
      if size == 0 || size > 4096 * VM_MAX { return; }
      if protection >= 8 || (protection / 2 % 2 == 1 && protection / 4 % 2 == 1) { return; }
      base, end, slot := MapPages(PagesFor(size), protection);
    }

    // process_vm_map once the arguments have been checked.
    method MapPages(pages: nat, protection: nat) returns (base: nat, ghost end: nat, ghost slot: nat)
      requires Valid() && pages > 0 && GoodProtection(protection)
      modifies this, regions, vm`tab, vm`view, vm`stock, vm.pm, vm.pm.ranges
      ensures Valid() && Kept() && TornNow() == old(TornNow())
      ensures base == 0 ==>
                Same() && Undone(vm, old(Now(vm))) && (old(Place(pages)) == USER_PAGES || old(vm.Room()) < 4 * pages)
      ensures base != 0 ==> base == old(Place(pages)) && end == base + pages
      ensures base != 0 ==>
                Gained(slot, Region(base, pages, protection, true, true))
                && Grown(old(vm.view), vm.view, pml4, base, end)
      ensures base != 0 ==> Zeroed(vm.view, vm.pm.bytes, pml4, base, end, ProtectionFlags(protection))
    {
      NowSound(vm, pml4, whole, Lent());
      var at, first, last := Choose(pages);
      if first >= USER_PAGES { return 0, 0, 0; }
      var ok := MapAt(at, first, last, protection);
      if !ok { return 0, 0, 0; }
      return first, last, at;
    }

    // Count the pages of the place found as lent, and back again.
    lemma Relend(base: nat, end: nat)
      requires Valid() && Clear(vm.view, pml4, base, end)
      ensures Home(vm, pml4, whole, Lent() + RunKeys(pml4, base, end))
    {
      OwnsRelent(vm.view, vm.pm.managed, vm.stock, whole, pml4, Lent(), Lent() + RunKeys(pml4, base, end));
    }

    // Map somebody else's frames at the place found and record the region.
    method LendAt(slot: nat, base: nat, end: nat, phys: seq<nat>, protection: nat) returns (ok: bool)
      requires Valid() && slot < regions.Length && !regions[slot].active && nextBase <= base < end <= USER_PAGES
               && |phys| == end - base
      requires Clear(vm.view, pml4, base, end) && GoodProtection(protection)
      modifies this, regions, vm`tab, vm`view, vm`stock, vm.pm, vm.pm.ranges
      ensures Valid() && Kept() && TornNow() == old(TornNow())
      ensures !ok ==> Same() && Undone(vm, old(Now(vm))) && (!Aligned(phys) || old(vm.Room()) < 3 * |phys|)
      ensures ok ==>
                Gained(slot, Region(base, |phys|, protection, false, true))
                && Grown(old(vm.view), vm.view, pml4, base, end)
      ensures ok ==> Lends(vm.view, pml4, base, end, phys, ProtectionFlags(protection))
    {
      Relend(base, end);
      ghost var lent, view := Lent() + RunKeys(pml4, base, end), vm.view;
      var reg := Region(base, |phys|, protection, false, true);
      ok := LendRun(vm, pml4, base, end, phys, ProtectionFlags(protection), Now(vm), whole, lent);
      if ok {
        Record(slot, reg, end, view);
      } else {
        OwnsRelent(vm.view, vm.pm.managed, vm.stock, whole, pml4, lent, Lent());
      }
    }

    /** Map frames that belong to somebody else (process_vm_map_phys); they are never freed through this process. */
    method VmMapPhys(phys: seq<nat>, isNull: bool, protection: nat) returns (base: nat, ghost end: nat, ghost slot: nat)
      requires Valid()
      modifies this, regions, vm`tab, vm`view, vm`stock, vm.pm, vm.pm.ranges
      ensures Valid() && Kept() && TornNow() == old(TornNow())
      ensures base == 0 ==> Same() && Undone(vm, old(Now(vm)))
      ensures base == 0 ==> || isNull || !(0 < |phys| <= VM_MAX) || !GoodProtection(protection)
                            || old(Place(|phys|)) == USER_PAGES || !Aligned(phys) || old(vm.Room()) < 3 * |phys|
      ensures base != 0 ==> !isNull && 0 < |phys| <= VM_MAX && GoodProtection(protection)
      ensures base != 0 ==> base == old(Place(|phys|)) && end == base + |phys|
      ensures base != 0 ==> Gained(slot, Region(base, |phys|, protection, false, true))
      ensures base != 0 ==> Grown(old(vm.view), vm.view, pml4, base, end)
      ensures base != 0 ==> Lends(vm.view, pml4, base, end, phys, ProtectionFlags(protection))
    {
      base, end, slot := 0, 0, 0;
      NowSound(vm, pml4, whole, Lent());
      if isNull || |phys| == 0 { return; }
      if protection >= 8 || (protection / 2 % 2 == 1 && protection / 4 % 2 == 1) || |phys| > VM_MAX { return; }
      var at, first, last := Choose(|phys|);
      if first >= USER_PAGES { return; }
      var ok := LendAt(at, first, last, phys, protection);
      if ok { base, end, slot := first, last, at; }
    }

    /** The slot of the active region at page `base` with this size; the table length if there is none. */
    method FindRegion(address: nat, pages: nat) returns (r: nat)
      ensures r <= regions.Length && (r < regions.Length ==> Matches(regions[r], address, pages))
      ensures forall s :: 0 <= s < r ==> !Matches(regions[s], address, pages)
    {
      r := 0;
      while r < regions.Length && !(regions[r].active && 4096 * regions[r].base == address && regions[r].pages == pages)
        invariant 0 <= r <= regions.Length && forall s :: 0 <= s < r ==> !Matches(regions[s], address, pages)
      {
        r := r + 1;
      }
    }

    // Mark a region whose pages are gone as free.
    method Retire(r: nat)
      requires r < regions.Length == MAX_VM_REGIONS && regions[r].active && Home(vm, pml4, whole, Lent())
      requires Layout(vm.view, pml4, regions[..], nextBase, heapBreak, heapEnd)
      requires RunKeys(pml4, regions[r].base, regions[r].End()) !! vm.view.Keys
      modifies regions
      ensures Valid() && regions[..] == old(regions[..])[r := old(regions[r]).(active := false)]
      ensures TornNow() == old(TornNow()) - {r}
    {
      ghost var rs := regions[..];
      assert Fits(rs, nextBase, r);
      LayoutDropped(vm.view, pml4, rs, nextBase, heapBreak, heapEnd, r);
      forall k | k in vm.view ensures k in LentOf(rs, pml4) <==> k in LentOf(rs[r := rs[r].(active := false)], pml4) {
        LentDropped(rs, pml4, r, k);
      }
      OwnsRelent(vm.view, vm.pm.managed, vm.stock, whole, pml4, Lent(), LentOf(rs[r := rs[r].(active := false)], pml4));
      regions[r] := regions[r].(active := false);
      assert regions[..] == rs[r := rs[r].(active := false)];
    }

    // Unmap the pages of region `r`, up to the first step that fails.
    method Strip(r: nat) returns (ok: bool, ghost cut: nat)
      requires Valid() && r < regions.Length && regions[r].active
      modifies vm`tab, vm`view, vm`stock, vm.pm, vm.pm.ranges
      ensures Valid() && Kept() && Leaf(pml4, regions[r].base) !in vm.view && TornNow() == old(TornNow()) + {r}
      ensures ok <==> r !in old(TornNow()) && vm.pm.lost == old(vm.pm.lost)
      ensures regions[r].base < cut <= regions[r].End() && (ok ==> cut == regions[r].End())
      ensures vm.view == old(vm.view) - RunKeys(pml4, regions[r].base, cut) && Extends(vm.tab, old(vm.tab))
    {
      ghost var rs := regions[..];
      var reg := regions[r];
      RegionUniform(rs, nextBase, pml4, r);
      NowSound(vm, pml4, whole, Lent());
      assert Filled(vm.view, pml4, rs, r) && Fits(rs, nextBase, r);
      FirstInRun(pml4, reg.base, reg.End());
      TornFirst(vm.view, pml4, rs, nextBase, r);
      ok, cut := UnmapRun(vm, pml4, reg.base, reg.End(), reg.owns, Now(vm), whole, Lent());
      LayoutUnmapped(old(vm.view), pml4, rs, nextBase, heapBreak, heapEnd, r, cut);
      FirstInRun(pml4, reg.base, cut);
    }

    // Unmap region `r` and retire it, unless a step fails.
    method UnmapRegion(r: nat) returns (ok: bool, ghost cut: nat)
      requires Valid() && r < regions.Length && regions[r].active
      modifies regions, vm`tab, vm`view, vm`stock, vm.pm, vm.pm.ranges
      ensures Valid() && Kept() && (ok <==> r !in old(TornNow()) && vm.pm.lost == old(vm.pm.lost))
      ensures Unmapped(old(regions[..]), old(Now(vm)), regions[..], Now(vm), pml4, ok, r, cut)
    {
      ok, cut := Strip(r);
      if ok { Retire(r); }
    }

    /** The slot whose region process_vm_unmap is asked to unmap. */
    ghost predicate Asked(r: int, address: nat, size: nat)
      reads regions
    {
      && 0 <= r < regions.Length && Matches(regions[r], address, PagesFor(size))
      && address != 0 && size != 0 && size + 4095 < 0x1_0000_0000_0000_0000
    }

    /** Unmap a whole region (process_vm_unmap). Without such a region nothing changes. With one, it succeeds exactly if
        the region was whole and nothing is lost on the way. A region whose unmapping is cut short stays in the table
        without its first pages, so every later call fails on it again; it is torn, and no other region is. */
    method VmUnmap(address: nat, size: nat) returns (ok: bool, ghost r: int, ghost cut: nat)
      requires Valid() && size < 0x1_0000_0000_0000_0000
      modifies this, regions, vm`tab, vm`view, vm`stock, vm.pm, vm.pm.ranges
      ensures Valid() && Kept() && nextBase == old(nextBase) && heapBreak == old(heapBreak) && heapEnd == old(heapEnd)
      ensures if r == -1 then forall s :: !old(Asked(s, address, size)) else old(Asked(r, address, size))
      ensures r == -1 ==> !ok && Same() && vm.view == old(vm.view) && vm.tab == old(vm.tab) && vm.stock == old(vm.stock)
      ensures r == -1 ==> vm.pm.lost == old(vm.pm.lost)
      ensures r >= 0 ==> (ok <==> r !in old(TornNow()) && vm.pm.lost == old(vm.pm.lost))
      ensures r >= 0 ==> Unmapped(old(regions[..]), old(Now(vm)), regions[..], Now(vm), pml4, ok, r, cut)
    {
      r, cut := -1, 0;
      NowSound(vm, pml4, whole, Lent());
      if address == 0 || size == 0 { return false, r, cut; }
      if size + 4095 >= 0x1_0000_0000_0000_0000 { return false, r, cut; }
      var slot := FindRegion(address, PagesFor(size));
      if slot == regions.Length { return false, r, cut; }
      r := slot;
      ok, cut := UnmapRegion(slot);
    }

    // The scan of the region table for one page.
    method IsCovered(v: nat) returns (covered: bool)
      ensures covered <==> InRegion(regions[..], v)
    {
      for r := 0 to regions.Length
        invariant forall s :: 0 <= s < r ==> !regions[s].Has(v)
      {
        if regions[r].active && v >= regions[r].base && v < regions[r].base + regions[r].pages {
          assert regions[..][r].Has(v);
          return true;
        }
      }
      return false;
    }

    // The first loop of process_vm_protect.
    method CheckRun(first: nat, end: nat) returns (ok: bool)
      requires vm.Valid() && vm.Live(pml4) && first <= end <= USER_PAGES
      ensures ok <==> Changeable(vm.view, pml4, regions[..], first, end)
    {
      var v := first;
      while v < end
        invariant first <= v <= end && Changeable(vm.view, pml4, regions[..], first, v)
      {
        var next := v + 1;
        var covered := IsCovered(v);
        var e := vm.GetEntry(pml4, v);
        ChangeableStep(vm.view, pml4, regions[..], first, v, next, end);
        if !covered || !e.bits.present { return false; }
        v := next;
      }
      return true;
    }

    // Change the flags of a run that was checked.
    method ProtectRun(first: nat, end: nat, protection: nat) returns (ok: bool)
      requires Valid() && first <= end <= USER_PAGES && GoodProtection(protection)
      modifies vm`view, vm.pm`words
      ensures Valid() && Kept() && TornNow() == old(TornNow())
      ensures ok <==> old(Changeable(vm.view, pml4, regions[..], first, end))
      ensures if ok then Reflagged(old(vm.view), vm.view, pml4, first, end, ProtectionFlags(protection))
              else vm.view == old(vm.view)
    {
      NowSound(vm, pml4, whole, Lent());
      ok := CheckRun(first, end);
      if ok {
        ChangeableMapped(vm.view, pml4, regions[..], first, end);
        ok := ReflagRun(vm, pml4, first, end, ProtectionFlags(protection), Now(vm), whole, Lent());
        LayoutSame(old(vm.view), vm.view, pml4, regions[..], nextBase, heapBreak, heapEnd);
      }
    }

    /** Change the protection of a run of pages (process_vm_protect): all of them, or none when an argument is wrong, a
        page lies outside all regions or a page is not mapped. */
    method VmProtect(address: nat, size: nat, protection: nat) returns (ok: bool)
      requires Valid() && size < 0x1_0000_0000_0000_0000
      modifies vm`view, vm.pm`words
      ensures Valid() && Kept() && TornNow() == old(TornNow())
      ensures ok <==> && address != 0 && size != 0 && address % 4096 == 0 && GoodProtection(protection)
                      && address / 4096 + PagesFor(size) <= USER_PAGES
                      && old(Changeable(vm.view, pml4, regions[..], address / 4096, address / 4096 + PagesFor(size)))
      ensures ok ==>
                Reflagged(old(vm.view), vm.view, pml4, address / 4096, address / 4096 + PagesFor(size),
                          ProtectionFlags(protection))
      ensures !ok ==> vm.view == old(vm.view)
    {
      NowSound(vm, pml4, whole, Lent());
      if address == 0 || size == 0 { return false; }
      if address % 4096 != 0 || protection >= 8 || (protection / 2 % 2 == 1 && protection / 4 % 2 == 1) {
        return false;
      }
      if size + 4095 >= 0x1_0000_0000_0000_0000 { return false; }
      var first, pages := address / 4096, PagesFor(size);
      if first >= USER_PAGES || pages > USER_PAGES - first { return false; }
      ok := ProtectRun(first, first + pages, protection);
    }

    // The loop of process_vm_brk that maps pages; it stops at a page that is mapped or cannot be had.
    method GrowPages(target: nat) returns (mapped: nat)
      requires Valid() && heapEnd < target <= HEAP_BASE + VM_MAX
      modifies vm`tab, vm`view, vm`stock, vm.pm, vm.pm.ranges
      ensures heapEnd <= mapped <= target && Growing(vm, old(Now(vm)), pml4, heapEnd, mapped, whole, Lent())
      ensures mapped == target ==> Zeroed(vm.view, vm.pm.bytes, pml4, heapEnd, target, HEAP_FLAGS)
      ensures mapped < target ==> Leaf(pml4, mapped) in old(vm.view) || old(vm.Room()) < 4 * (target - heapEnd)
    {
      ghost var was, lent := Now(vm), Lent();
      NowSound(vm, pml4, whole, lent);
      GrownNone(was.view, vm.view, pml4, heapEnd);
      NotLent(regions[..], nextBase, pml4, heapEnd, target);
      mapped := heapEnd;
      while mapped < target
        invariant heapEnd <= mapped <= target && Growing(vm, was, pml4, heapEnd, mapped, whole, lent)
        invariant Zeroed(vm.view, vm.pm.bytes, pml4, heapEnd, mapped, HEAP_FLAGS)
        invariant vm.Room() >= old(vm.Room()) - 4 * (mapped - heapEnd)
      {
        var next := mapped + 1;
        RunInside(pml4, heapEnd, mapped, next, target);
        Present(was.view, vm.view, pml4, heapEnd, mapped);
        var e := vm.GetEntry(pml4, mapped);
        if e.bits.present { return; }
        var added := AddFresh(vm, pml4, heapEnd, mapped, next, HEAP_FLAGS, was, whole, lent);
        if !added { return; }
        mapped := next;
      }
    }

    // Map the heap pages up to `target`, or none.
    method GrowHeap(target: nat) returns (ok: bool)
      requires Valid() && heapEnd < target <= HEAP_BASE + VM_MAX
      modifies vm`tab, vm`view, vm`stock, vm.pm, vm.pm.ranges
      ensures ok ==> Growing(vm, old(Now(vm)), pml4, heapEnd, target, whole, Lent())
      ensures ok ==> Zeroed(vm.view, vm.pm.bytes, pml4, heapEnd, target, HEAP_FLAGS)
      ensures !ok ==> Home(vm, pml4, whole, Lent()) && Others(vm, old(Now(vm)), pml4, whole) && Undone(vm, old(Now(vm)))
      ensures !ok ==>
                (exists v :: heapEnd <= v < target && Leaf(pml4, v) in old(vm.view))
                || old(vm.Room()) < 4 * (target - heapEnd)
    {
      ghost var was := Now(vm);
      NowSound(vm, pml4, whole, Lent());
      NotLent(regions[..], nextBase, pml4, heapEnd, target);
      var mapped := GrowPages(target);
      ok := mapped == target;
      if !ok {
        RunSub(pml4, heapEnd, mapped, target);
        UniformRun(pml4, heapEnd, mapped, Lent());
        RollDown(vm, pml4, heapEnd, mapped, was, whole, Lent());
      }
    }

    // Give the heap pages from `target` on back.
    method ShrinkHeap(target: nat)
      requires Valid() && HEAP_BASE <= target < heapEnd
      modifies vm`tab, vm`view, vm`stock, vm.pm, vm.pm.ranges
      ensures Home(vm, pml4, whole, Lent()) && Others(vm, old(Now(vm)), pml4, whole)
      ensures vm.view == old(vm.view) - RunKeys(pml4, target, heapEnd)
    {
      NowSound(vm, pml4, whole, Lent());
      NotLent(regions[..], nextBase, pml4, target, heapEnd);
      UniformRun(pml4, target, heapEnd, Lent());
      ClearRun(vm, pml4, target, heapEnd, true, Now(vm), whole, Lent());
    }

    // Map or unmap the heap pages between the old end and `target`.
    method MoveHeap(target: nat) returns (ok: bool)
      requires Valid() && HEAP_BASE <= target <= HEAP_BASE + VM_MAX
      modifies vm`tab, vm`view, vm`stock, vm.pm, vm.pm.ranges
      ensures Home(vm, pml4, whole, Lent()) && Others(vm, old(Now(vm)), pml4, whole)
      ensures ok ==> HeapMoved(old(vm.view), vm.view, pml4, heapEnd, target)
      ensures ok && target > heapEnd ==> Zeroed(vm.view, vm.pm.bytes, pml4, heapEnd, target, HEAP_FLAGS)
      ensures !ok ==> Undone(vm, old(Now(vm)))
      ensures !ok ==>
                (exists v :: heapEnd <= v < target && Leaf(pml4, v) in old(vm.view))
                || old(vm.Room()) < 4 * (target - heapEnd)
    {
      ok := true;
      if target > heapEnd {
        ok := GrowHeap(target);
      } else if target < heapEnd {
        ShrinkHeap(target);
      } else {
        NowSound(vm, pml4, whole, Lent());
        GrownNone(vm.view, vm.view, pml4, heapEnd);
      }
    }

    // Move the break to an address the heap allows.
    method SetBreak(address: nat, target: nat) returns (ok: bool)
      requires Valid() && 4096 * HEAP_BASE <= address && target == PagesFor(address)
               && HEAP_BASE <= target <= HEAP_BASE + VM_MAX
      modifies `heapBreak, `heapEnd, vm`tab, vm`view, vm`stock, vm.pm, vm.pm.ranges
      ensures Valid() && Kept() && TornNow() == old(TornNow())
      ensures ok ==>
                heapBreak == address && heapEnd == target
                && HeapMoved(old(vm.view), vm.view, pml4, old(heapEnd), target)
      ensures ok && target > old(heapEnd) ==> Zeroed(vm.view, vm.pm.bytes, pml4, old(heapEnd), target, HEAP_FLAGS)
      ensures !ok ==> heapBreak == old(heapBreak) && heapEnd == old(heapEnd) && Undone(vm, old(Now(vm)))
      ensures !ok ==>
                (exists v :: heapEnd <= v < target && Leaf(pml4, v) in old(vm.view))
                || old(vm.Room()) < 4 * (target - heapEnd)
    {
      ok := MoveHeap(target);
      if !ok { return; }
      LayoutHeap(old(vm.view), vm.view, pml4, regions[..], nextBase, heapBreak, heapEnd, address, target);
      heapEnd, heapBreak := target, address;
      return true;
    }

    /** The break (process_vm_brk): the result is the new break, or the old one when the request is refused. A refused
        request changes nothing, even when memory runs out part-way; an accepted one maps or unmaps exactly the pages
        between the old and the new end of the heap, and new pages read as zeros. */
    method Brk(address: nat) returns (brk: nat)
      requires Valid()
      modifies `heapBreak, `heapEnd, vm`tab, vm`view, vm`stock, vm.pm, vm.pm.ranges
      ensures Valid() && Kept() && TornNow() == old(TornNow()) && brk == heapBreak
      ensures 4096 * HEAP_BASE <= address <= 4096 * (HEAP_BASE + VM_MAX) ==>
                || (heapBreak == address && heapEnd == PagesFor(address)
                    && HeapMoved(old(vm.view), vm.view, pml4, old(heapEnd), heapEnd))
                || (exists v :: heapEnd <= v < PagesFor(address) && Leaf(pml4, v) in old(vm.view))
                || old(vm.Room()) < 4 * (PagesFor(address) - heapEnd)
      ensures heapEnd > old(heapEnd) ==> Zeroed(vm.view, vm.pm.bytes, pml4, old(heapEnd), heapEnd, HEAP_FLAGS)
      ensures heapBreak != address ==>
                heapBreak == old(heapBreak) && heapEnd == old(heapEnd) && Undone(vm, old(Now(vm)))
    {
      NowSound(vm, pml4, whole, Lent());
      if address == 0 { return heapBreak; }
      if address < 4096 * HEAP_BASE || address > 4096 * (HEAP_BASE + VM_MAX) { return heapBreak; }
      var ok := SetBreak(address, PagesFor(address));
      return heapBreak;
    }

    // Unmap all pages of region `r` and retire it, whatever the single steps report.
    method DropRegion(r: nat, ghost was: Snap)
      requires Valid() && r < regions.Length && regions[r].active && Others(vm, was, pml4, whole)
      modifies regions, vm`tab, vm`view, vm`stock, vm.pm, vm.pm.ranges
      ensures Valid() && Others(vm, was, pml4, whole)
              && regions[..] == old(regions[..])[r := old(regions[r]).(active := false)]
      ensures vm.pm.bytes == old(vm.pm.bytes)
    {
      ghost var rs := regions[..];
      var reg := regions[r];
      RegionUniform(rs, nextBase, pml4, r);
      ClearRun(vm, pml4, reg.base, reg.End(), reg.owns, was, whole, Lent());
      assert Fits(rs, nextBase, r);
      LayoutUnmapped(old(vm.view), pml4, rs, nextBase, heapBreak, heapEnd, r, reg.End());
      Retire(r);
    }

    // The region loop of process_release_resources.
    method DropRegions(ghost was: Snap)
      requires Valid() && Others(vm, was, pml4, whole)
      modifies regions, vm`tab, vm`view, vm`stock, vm.pm, vm.pm.ranges
      ensures Valid() && Others(vm, was, pml4, whole) && Inactive(regions[..], regions.Length)
      ensures vm.pm.bytes == old(vm.pm.bytes)
    {
      var r := 0;
      while r < regions.Length
        invariant 0 <= r <= regions.Length && Valid() && Others(vm, was, pml4, whole)
        invariant vm.pm.bytes == old(vm.pm.bytes) && Inactive(regions[..], r)
      {
        var next := r + 1;
        InactiveNext(regions[..], r, next);
        if regions[r].active { DropRegion(r, was); }
        r := next;
      }
    }

    // Drop the regions, then the address space.
    method Teardown(ghost was: Snap)
      requires Valid() && Others(vm, was, pml4, whole)
      modifies regions, vm, vm.pm, vm.pm.ranges
      ensures vm.Valid() && vm.stock == whole && Evicted(was.view, vm.view, pml4) && Evicted(was.tab, vm.tab, pml4)
      ensures KeepsBytes(whole, was.bytes, vm.pm.bytes) && was.lost <= vm.pm.lost
      ensures Inactive(regions[..], regions.Length)
    {
      DropRegions(was);
      NoRegions(vm.view, regions[..], pml4);
      Vanish(vm, pml4, was, whole);
    }

    /** Teardown (process_release_resources): all pages and tables of the address space are gone, and exactly the
        frames it owned have been given back, each once; lent frames have not. */
    method Release()
      requires Valid()
      modifies this, regions, vm, vm.pm, vm.pm.ranges
      ensures vm.Valid() && pml4 == 0 && vm.stock == old(whole)
      ensures vm.stock == old(vm.stock) + old(OwnFrames(vm.view, pml4, Lent()))
      ensures Evicted(old(vm.view), vm.view, old(pml4)) && Evicted(old(vm.tab), vm.tab, old(pml4))
      ensures KeepsBytes(old(whole), old(vm.pm.bytes), vm.pm.bytes) && old(vm.pm.lost) <= vm.pm.lost
      ensures nextBase == VM_BASE && heapBreak == 4096 * HEAP_BASE && heapEnd == HEAP_BASE
      ensures Inactive(regions[..], regions.Length)
    {
      ghost var was := Now(vm);
      NowSound(vm, pml4, whole, Lent());
      assert whole == vm.stock + OwnFrames(vm.view, pml4, Lent());
      Teardown(was);
      Reset();
    }

    // The memory fields of a slot without an address space.
    method Reset()
      modifies `pml4, `nextBase, `heapBreak, `heapEnd
      ensures pml4 == 0 && nextBase == VM_BASE && heapBreak == 4096 * HEAP_BASE && heapEnd == HEAP_BASE
    {
      pml4, nextBase, heapBreak, heapEnd := 0, VM_BASE, 4096 * HEAP_BASE, HEAP_BASE;
    }
  }

  /** The first `r` regions are not in use. */
  ghost predicate Inactive(rs: seq<Region>, r: int) { forall s :: 0 <= s < r && s < |rs| ==> !rs[s].active }

  lemma InactiveNext(rs: seq<Region>, r: nat, next: nat)
    requires r < |rs| && next == r + 1 && Inactive(rs, r)
    ensures Inactive(rs[r := rs[r].(active := false)], next) && (!rs[r].active ==> Inactive(rs, next))
  {}

  // Destroy an address space in which nothing is lent.
  method Vanish(vm: Vmm, p: Frame, ghost was: Snap, ghost whole: set<int>)
    requires Home(vm, p, whole, {}) && Others(vm, was, p, whole)
    modifies vm`cr3, vm`tab, vm`view, vm`stock, vm.pm, vm.pm.ranges
    ensures vm.Valid() && vm.stock == whole && Evicted(was.view, vm.view, p) && Evicted(was.tab, vm.tab, p)
    ensures KeepsBytes(whole, was.bytes, vm.pm.bytes) && was.lost <= vm.pm.lost
  {
    OwnsAll(vm.view, vm.pm.managed, vm.stock, whole, p, {});
    ghost var view1, tab1 := vm.view, vm.tab;
    var _ := vm.DestroyUserPml4(p);
    EvictedThrough(was.view, view1, vm.view, p);
    EvictedThrough(was.tab, tab1, vm.tab, p);
  }

  lemma EvictedThrough<T>(s: map<Node, T>, s1: map<Node, T>, s2: map<Node, T>, p: Frame)
    requires OthersSame(s, s1, p) && Evicted(s1, s2, p)
    ensures Evicted(s, s2, p)
  {}

  // ---------------------------------------------------------------- whole lives

  datatype Call =
    | Map(size: nat, protection: nat)
    | MapPhys(phys: seq<nat>, isNull: bool, protection: nat)
    | Unmap(address: nat, size: nat)
    | Protect(address: nat, size: nat, protection: nat)
    | Break(address: nat)

  predicate Sane(c: Call) { c.Unmap? || c.Protect? ==> c.size < 0x1_0000_0000_0000_0000 }

  /** The torn regions are those from before and those in `tears`, which were torn already as long as no page is
      lost. */
  ghost predicate TornBy(torn: set<int>, lost: set<int>, torn': set<int>, lost': set<int>, tears: set<int>) {
    torn' == torn + tears && (lost' == lost ==> tears <= torn)
  }

  lemma TornOn(torn: set<int>, lost: set<int>, torn1: set<int>, lost1: set<int>, torn2: set<int>, lost2: set<int>,
               tears: set<int>, tear: set<int>)
    requires TornBy(torn, lost, torn1, lost1, tears) && TornBy(torn1, lost1, torn2, lost2, tear)
    requires lost <= lost1 <= lost2
    ensures TornBy(torn, lost, torn2, lost2, tears + tear)
  {}

  // process_vm_unmap, and which region it tears.
  method ServeUnmap(pr: Process, address: nat, size: nat) returns (ghost tear: set<int>)
    requires pr.Valid() && size < 0x1_0000_0000_0000_0000
    modifies pr, pr.regions, pr.vm`tab, pr.vm`view, pr.vm`stock, pr.vm.pm, pr.vm.pm.ranges
    ensures pr.Valid() && pr.pml4 == old(pr.pml4) && pr.whole == old(pr.whole)
    ensures Others(pr.vm, old(Now(pr.vm)), pr.pml4, pr.whole)
    ensures TornBy(old(pr.TornNow()), old(pr.vm.pm.lost), pr.TornNow(), pr.vm.pm.lost, tear)
    ensures forall r :: r in tear ==> old(pr.Asked(r, address, size))
  {
    var ok;
    ghost var r, cut;
    ok, r, cut := pr.VmUnmap(address, size);
    tear := if r >= 0 && !ok then {r} else {};
  }

  /** One memory call of the process. Only an unmap of a region that fails tears one, and only one that is asked for; it
      tears one that was whole only if a page is lost. */
  method Serve(pr: Process, c: Call) returns (ghost tear: set<int>)
    requires pr.Valid() && Sane(c)
    modifies pr, pr.regions, pr.vm`tab, pr.vm`view, pr.vm`stock, pr.vm.pm, pr.vm.pm.ranges
    ensures pr.Valid() && pr.pml4 == old(pr.pml4) && pr.whole == old(pr.whole)
    ensures Others(pr.vm, old(Now(pr.vm)), pr.pml4, pr.whole)
    ensures TornBy(old(pr.TornNow()), old(pr.vm.pm.lost), pr.TornNow(), pr.vm.pm.lost, tear)
    ensures forall r :: r in tear ==> c.Unmap? && old(pr.Asked(r, c.address, c.size))
  {
    tear := {};
    match c {
      case Map(size, protection) => var _, _, _ := pr.VmMap(size, protection);
      case MapPhys(phys, isNull, protection) => var _, _, _ := pr.VmMapPhys(phys, isNull, protection);
      case Unmap(address, size) => tear := ServeUnmap(pr, address, size);
      case Protect(address, size, protection) => var _ := pr.VmProtect(address, size, protection);
      case Break(address) => var _ := pr.Brk(address);
    }
  }

  lemma OthersThrough(vm: Vmm, was: Snap, mid: Snap, p: Frame, whole: set<int>)
    requires OthersSame(was.view, mid.view, p) && OthersSame(was.tab, mid.tab, p) && SameRoots(was.tab, mid.tab)
    requires KeepsBytes(whole, was.bytes, mid.bytes) && was.lost <= mid.lost
    requires Others(vm, mid, p, whole)
    ensures Others(vm, was, p, whole)
  {
    OthersTrans(was.view, mid.view, vm.view, p);
    OthersTrans(was.tab, mid.tab, vm.tab, p);
  }

  /** Any memory calls of a process: the torn regions are those from before and those whose unmapping failed, and as
      long as no page is lost no region is torn that was whole. */
  method ServeAll(pr: Process, calls: seq<Call>) returns (ghost tears: set<int>)
    requires pr.Valid() && forall i :: 0 <= i < |calls| ==> Sane(calls[i])
    modifies pr, pr.regions, pr.vm`tab, pr.vm`view, pr.vm`stock, pr.vm.pm, pr.vm.pm.ranges
    ensures pr.Valid() && pr.pml4 == old(pr.pml4) && pr.whole == old(pr.whole)
    ensures Others(pr.vm, old(Now(pr.vm)), pr.pml4, pr.whole)
    ensures TornBy(old(pr.TornNow()), old(pr.vm.pm.lost), pr.TornNow(), pr.vm.pm.lost, tears)
  {
    ghost var was, p, torn := Now(pr.vm), pr.pml4, pr.TornNow();
    NowSound(pr.vm, pr.pml4, pr.whole, pr.Lent());
    tears := {};
    var i := 0;
    while i < |calls|
      invariant 0 <= i <= |calls| && pr.Valid() && pr.pml4 == p && pr.whole == old(pr.whole)
      invariant Others(pr.vm, was, p, pr.whole)
      invariant TornBy(torn, was.lost, pr.TornNow(), pr.vm.pm.lost, tears)
    {
      ghost var mid, torn1 := Now(pr.vm), pr.TornNow();
      ghost var tear := Serve(pr, calls[i]);
      OthersThrough(pr.vm, was, mid, p, pr.whole);
      TornOn(torn, was.lost, torn1, mid.lost, pr.TornNow(), pr.vm.pm.lost, tears, tear);
      tears := tears + tear;
      i := i + 1;
    }
  }

  /** From the start of a process on, over any memory calls: every active region is fully mapped, unless so many pages
      were in use that the free-range array could be full. */
  method RegionsStayWhole(vm: Vmm, p: Frame, calls: seq<Call>, ghost whole: set<int>) returns (pr: Process)
    requires Home(vm, p, whole, {}) && forall i :: 0 <= i < |calls| ==> Sane(calls[i])
    modifies vm`tab, vm`view, vm`stock, vm.pm, vm.pm.ranges
    ensures pr.Valid() && pr.vm == vm && pr.pml4 == p
    ensures vm.pm.lost == old(vm.pm.lost) || vm.pm.Roomy() ==>
              forall r :: 0 <= r < pr.regions.Length && pr.regions[r].active ==> Whole(vm.view, p, pr.regions[r])
  {
    pr := new Process(vm, p, whole);
    ghost var tears := ServeAll(pr, calls);
    forall r | pr.TornNow() == {} && 0 <= r < pr.regions.Length && pr.regions[r].active
      ensures Whole(vm.view, p, pr.regions[r])
    {
      assert r !in Torn(vm.view, p, pr.regions[..]);
    }
  }

  /** Whatever memory calls a process makes, when it is torn down its address space is gone, other address spaces are
      as they were, and the pages that are free, in tables or lost are exactly those that would be without it. */
  method WholeLife(pr: Process, calls: seq<Call>)
    requires pr.Valid() && forall i :: 0 <= i < |calls| ==> Sane(calls[i])
    modifies pr, pr.regions, pr.vm, pr.vm.pm, pr.vm.pm.ranges
    ensures pr.vm.Valid() && pr.vm.stock == old(pr.whole)
    ensures Evicted(old(pr.vm.view), pr.vm.view, old(pr.pml4)) && Evicted(old(pr.vm.tab), pr.vm.tab, old(pr.pml4))
    ensures KeepsBytes(old(pr.whole), old(pr.vm.pm.bytes), pr.vm.pm.bytes) && old(pr.vm.pm.lost) <= pr.vm.pm.lost
  {
    ghost var was, p := Now(pr.vm), pr.pml4;
    ghost var tears := ServeAll(pr, calls);
    ghost var mid := Now(pr.vm);
    pr.Release();
    EvictedThrough(was.view, mid.view, pr.vm.view, p);
    EvictedThrough(was.tab, mid.tab, pr.vm.tab, p);
  }
}
