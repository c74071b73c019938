/** A run that tears a region: an unmap for which a page cannot be given back. */
module RegionRuns {
  import opened FreeList
  import opened Hardware
  import opened PhysicalMemory
  import opened AllocatorRuns
  import opened PageTree
  import opened PageTables
  import opened AddressSpaces
  import opened PageRuns
  import opened ProcessMemory

  /** Odd pages below `2 * n`. */
  ghost predicate OddBelow(s: set<int>, n: int) { forall a :: a in s ==> 0 < a < 2 * n && a % 2 == 1 }

  lemma OddNext(s: set<int>, n: nat, next: nat, page: int)
    requires OddBelow(s, n) && page == 2 * n + 1 && next == n + 1
    ensures OddBelow(s + {page}, next) && page !in s
  {}

  /** Somebody else gives a page back: it joins the stock, and the process owns what it owned. */
  lemma OwnsGiven(view: View, managed: set<int>, stock: set<int>, whole: set<int>, p: Frame, lent: set<Node>, page: int)
    requires Owns(view, managed, stock, whole, p, lent) && page !in whole
    ensures Owns(view, managed, stock + {page}, whole + {page}, p, lent)
  {}

  lemma InWhole(vm: Vmm, pr: Process)
    requires pr.Valid() && pr.vm == vm
    ensures vm.pm.free <= vm.stock <= pr.whole && vm.pm.lost <= vm.stock && Frames(vm.tab) <= vm.stock
  {}

  // Free a page that is in use and no table.
  method GiveFrame(vm: Vmm, page: Frame)
    requires vm.Valid() && page in vm.pm.managed && page !in vm.stock && vm.pm.count < MAX_FREE_RANGES
    modifies vm`stock, vm.pm, vm.pm.ranges
    ensures vm.Valid() && vm.stock == old(vm.stock) + {page} && vm.Room() == old(vm.Room()) + 1
  {
    var _ := vm.FreeFrame(page, {});
  }

  // A page the kernel held for something else is freed while the process lives.
  method GiveOther(vm: Vmm, pr: Process, page: Frame)
    requires pr.Valid() && pr.vm == vm && page in vm.pm.managed && page !in pr.whole && vm.pm.count < MAX_FREE_RANGES
    modifies pr`whole, vm`stock, vm.pm, vm.pm.ranges
    ensures pr.Valid() && pr.whole == old(pr.whole) + {page} && vm.Room() == old(vm.Room()) + 1
  {
    InWhole(vm, pr);
    OwnsGiven(vm.view, vm.pm.managed, vm.stock, pr.whole, pr.pml4, pr.Lent(), page);
    pr.whole := pr.whole + {page};
    GiveFrame(vm, page);
  }

  lemma CountIsRoom(vm: Vmm, pr: Process, n: nat)
    requires pr.Valid() && pr.vm == vm && OddBelow(pr.whole, n)
    ensures vm.pm.count == |vm.pm.free| == vm.Room() <= MAX_FREE_RANGES
  {
    InWhole(vm, pr);
    OddCount(vm.pm);
  }

  lemma OddMore(s: set<int>, n: nat, m: nat)
    requires OddBelow(s, n) && n <= m
    ensures OddBelow(s, m)
  {}

  // Free pages until the array is full again.
  method Refill(vm: Vmm, pr: Process)
    requires pr.Valid() && pr.vm == vm && vm.pm.regions == [Range(1, TOP)] && OddBelow(pr.whole, MAX_FREE_RANGES)
    modifies pr`whole, vm`stock, vm.pm, vm.pm.ranges
    ensures pr.Valid() && OddBelow(pr.whole, 2 * MAX_FREE_RANGES) && vm.Room() == MAX_FREE_RANGES
  {
    CountIsRoom(vm, pr, MAX_FREE_RANGES);
    var n := MAX_FREE_RANGES;
    while vm.pm.count < MAX_FREE_RANGES
      invariant pr.Valid() && MAX_FREE_RANGES <= n && OddBelow(pr.whole, n)
      invariant vm.Room() == vm.pm.count <= MAX_FREE_RANGES && vm.Room() >= n - MAX_FREE_RANGES
      decreases MAX_FREE_RANGES - vm.pm.count
    {
      var next, page := n + 1, 2 * n + 1;
      Managed(vm.pm, n);
      OddNext(pr.whole, n, next, page);
      GiveOther(vm, pr, page);
      CountIsRoom(vm, pr, next);
      n := next;
    }
    OddMore(pr.whole, n, 2 * MAX_FREE_RANGES);
  }

  lemma Managed(pm: PhysMem, n: nat)
    requires pm.Valid() && pm.regions == [Range(1, TOP)] && n < 2 * MAX_FREE_RANGES
    ensures 2 * n + 1 in pm.managed
  {
    DenotesPages(pm.regions, pm.managed);
    PagesCovers(pm.regions, 2 * n + 1);
    assert At(pm.regions, 0, 2 * n + 1);
  }

  /** A full array refuses a page more: with nothing but odd pages free, an unmap of the only region cannot succeed. */
  lemma NoSpace(vm: Vmm, pr: Process, was: Snap, whole: set<int>, lent: set<Node>, k: Node)
    requires pr.Valid() && pr.vm == vm && pr.whole == whole && OddBelow(whole, 2 * MAX_FREE_RANGES)
    requires Owns(was.view, vm.pm.managed, was.stock, whole, pr.pml4, lent)
             && was.stock == was.free + was.lost + Frames(was.tab)
    requires was.free !! was.lost && was.free !! Frames(was.tab) && |was.free| == MAX_FREE_RANGES
    requires k in was.view && Space(k) == pr.pml4 && k !in lent && vm.view == map[]
    requires Extends(vm.tab, was.tab)
    ensures vm.pm.lost != was.lost
  {
    var frame := was.view[k].addr;
    NoFrames(pr.pml4, pr.Lent());
    InWhole(vm, pr);
    OddCount(vm.pm);
    assert frame in OwnFrames(was.view, pr.pml4, lent);
    FramesShrink(vm.tab, was.tab);
    if vm.pm.lost == was.lost {
      MoreFree(was.free, was.lost, Frames(was.tab), vm.pm.free, Frames(vm.tab), frame);
      assert false;
    }
  }

  lemma FramesShrink(tab: Tab, tab0: Tab)
    requires Extends(tab, tab0)
    ensures Frames(tab) <= Frames(tab0)
  {}

  lemma MoreFree(free: set<int>, lost: set<int>, tables: set<int>, free': set<int>, tables': set<int>, frame: int)
    requires free + lost + tables + {frame} <= free' + lost + tables' && tables' <= tables
    requires frame !in free + lost + tables && free !! lost && free !! tables
    ensures |free'| > |free|
  {
    assert free + {frame} <= free';
    SubsetCard(free + {frame}, free');
  }

  lemma PlaceFirst(pr: Process)
    requires pr.Valid() && Inactive(pr.regions[..], pr.regions.Length) && pr.vm.view == map[] && pr.nextBase == VM_BASE
    ensures pr.Place(1) == VM_BASE
  {
    assert RunKeys(pr.pml4, VM_BASE, VM_BASE + 1) !! pr.vm.view.Keys;
    assert Clear(pr.vm.view, pr.pml4, VM_BASE, VM_BASE + 1);
    assert !pr.regions[..][0].active;
  }

  lemma OnePageRequest()
    ensures PagesFor(4096) == 1 && GoodRequest(4096, 3)
  {}

  lemma OnlyRegion(rs: seq<Region>, rs': seq<Region>, slot: int, reg: Region)
    requires Inactive(rs, |rs|) && 0 <= slot < |rs| && rs' == rs[slot := reg]
    ensures forall r :: 0 <= r < |rs| && rs'[r].active ==> r == slot
  {}

  // The first region of a new process: one page.
  method FirstRegion(vm: Vmm, p: Frame, ghost whole: set<int>) returns (pr: Process, base: nat, ghost slot: int)
    requires Home(vm, p, whole, {}) && vm.view == map[] && vm.Room() >= 4
    modifies vm`tab, vm`view, vm`stock, vm.pm, vm.pm.ranges
    ensures pr.Valid() && pr.vm == vm && pr.pml4 == p && pr.whole == whole && fresh(pr) && fresh(pr.regions)
    ensures 0 <= slot < pr.regions.Length && base != 0 && pr.regions[..][slot] == Region(base, 1, 3, true, true)
    ensures forall r :: 0 <= r < pr.regions.Length && pr.regions[..][r].active ==> r == slot
    ensures Grown(map[], vm.view, p, base, base + 1) && base < USER_PAGES
  {
    pr := new Process(vm, p, whole);
    PlaceFirst(pr);
    OnePageRequest();
    ghost var rs, end := pr.regions[..], 0;
    base, end, slot := pr.VmMap(4096, 3);
    OnlyRegion(rs, pr.regions[..], slot, Region(base, 1, 3, true, true));
  }

  lemma NothingLent(rs: seq<Region>, p: Frame, slot: int)
    requires 0 <= slot < |rs| && rs[slot].owns && forall r :: 0 <= r < |rs| && rs[r].active ==> r == slot
    ensures LentOf(rs, p) == {}
  {}

  lemma NoFrames(p: Frame, lent: set<Node>)
    ensures OwnFrames(map[], p, lent) == {}
  {}

  lemma AllGone(was: Snap, now: Snap, rs: seq<Region>, rs': seq<Region>, p: Frame, base: nat, ok: bool, r: int,
                cut: nat)
    requires Unmapped(rs, was, rs', now, p, ok, r, cut) && rs[r] == Region(base, 1, 3, true, true)
    requires Grown(map[], was.view, p, base, base + 1)
    ensures now.view == map[] && Extends(now.tab, was.tab)
  {}

  // Unmap the only region while the array is full.
  method UnmapIt(vm: Vmm, pr: Process, base: nat, ghost slot: int)
    requires pr.Valid() && pr.vm == vm && OddBelow(pr.whole, 2 * MAX_FREE_RANGES) && vm.Room() == MAX_FREE_RANGES
    requires 0 <= slot < pr.regions.Length && 0 < base < USER_PAGES
             && pr.regions[..][slot] == Region(base, 1, 3, true, true)
    requires forall r :: 0 <= r < pr.regions.Length && pr.regions[..][r].active ==> r == slot
    requires Grown(map[], vm.view, pr.pml4, base, base + 1)
    modifies pr, pr.regions, vm`tab, vm`view, vm`stock, vm.pm, vm.pm.ranges
    ensures pr.Valid() && slot in pr.TornNow()
  {
    ghost var was, whole, lent, k, rs := Now(vm), pr.whole, pr.Lent(), Leaf(pr.pml4, base), pr.regions[..];
    NothingLent(pr.regions[..], pr.pml4, slot);
    CountIsRoom(vm, pr, 2 * MAX_FREE_RANGES);
    FirstInRun(pr.pml4, base, base + 1);
    LeafPath(pr.pml4, base);
    OnePageRequest();
    assert pr.Asked(slot, 4096 * base, 4096);
    var ok;
    ghost var r, cut;
    ok, r, cut := pr.VmUnmap(4096 * base, 4096);
    assert r == slot;
    AllGone(was, Now(vm), rs, pr.regions[..], pr.pml4, base, ok, r, cut);
    if ok { NoSpace(vm, pr, was, whole, lent, k); }
  }

  // A machine with a full free-range array and no address space.
  method BootFull(pm: PhysMem, kernel: Frame) returns (vm: Vmm)
    requires pm.Valid() && pm.regions == [Range(1, TOP)] && pm.free == pm.managed && pm.lost == {}
    requires kernel != 0 && kernel !in pm.managed
    modifies pm, pm.ranges
    ensures fresh(vm) && vm.pm == pm && vm.Valid() && vm.view == map[]
    ensures OddBelow(vm.stock, MAX_FREE_RANGES) && vm.Room() == MAX_FREE_RANGES
  {
    FillArray(pm);
    OddsPages(MAX_FREE_RANGES);
    OddCount(pm);
    Fragments(pm, MAX_FREE_RANGES);
    vm := new Vmm(pm, kernel);
  }

  /** A region can be torn: with one region of memory, all of it free, fill the free-range array, start a process, map a
      page, fill the array again and unmap the page. The unmap fails, and the region stays without its page. */
  method TearRegion(pm: PhysMem, kernel: Frame) returns (pr: Process, ghost slot: int)
    requires pm.Valid() && pm.regions == [Range(1, TOP)] && pm.free == pm.managed && pm.lost == {}
    requires kernel != 0 && kernel !in pm.managed
    modifies pm, pm.ranges
    ensures pr.Valid() && slot in pr.TornNow()
  {
    var vm := BootFull(pm, kernel);
    ghost var whole := vm.stock;
    var p := Begin(vm);
    var base;
    pr, base, slot := FirstRegion(vm, p, whole);
    Refill(vm, pr);
    UnmapIt(vm, pr, base, slot);
  }
}
