/** Runs of consecutive pages: mapping them all or none, and unmapping them. */
module PageRuns {
  import opened FreeList
  import opened Hardware
  import opened PhysicalMemory
  import opened PageTree
  import opened PageTables
  import opened AddressSpaces

  // ---------------------------------------------------------------- runs of pages in a view

  ghost function RunKeys(p: Frame, first: int, end: int): set<Node> { set v | first <= v < end :: Leaf(p, v) }

  /** `view` is `view0` with the pages from `first` to `end` added. */
  ghost predicate Grown(view0: View, view: View, p: Frame, first: int, end: int) {
    RunKeys(p, first, end) <= view.Keys && RunKeys(p, first, end) !! view0.Keys
        && view - RunKeys(p, first, end) == view0
  }

  lemma RunUp(p: Frame, first: int, v: int, next: int)
    requires first <= v && next == v + 1
    ensures RunKeys(p, first, next) == RunKeys(p, first, v) + {Leaf(p, v)}
  {}

  lemma RunDown(p: Frame, v: int, next: int, end: int)
    requires v < end && next == v + 1
    ensures RunKeys(p, v, end) == {Leaf(p, v)} + RunKeys(p, next, end)
  {}

  lemma NotInRun(p: Frame, v: int, first: int, end: int)
    requires 0 <= v < USER_PAGES && 0 <= first && end <= USER_PAGES
    ensures Leaf(p, v) in RunKeys(p, first, end) <==> first <= v < end
  {
    if Leaf(p, v) in RunKeys(p, first, end) {
      var w :| first <= w < end && Leaf(p, w) == Leaf(p, v);
      LeafInjective(p, v, p, w);
    }
  }

  lemma GrownNone(view0: View, view: View, p: Frame, v: int)
    ensures Grown(view0, view, p, v, v) <==> view == view0
  {
    assert RunKeys(p, v, v) == {};
    assert view - {} == view;
  }

  lemma GrowStep(view0: View, view: View, p: Frame, first: int, v: int, next: int, e: Entry)
    requires Grown(view0, view, p, first, v) && Leaf(p, v) !in view && first <= v && next == v + 1
    ensures Grown(view0, view[Leaf(p, v) := e], p, first, next)
  {
    RunUp(p, first, v, next);
    var view' := view[Leaf(p, v) := e];
    assert view' - RunKeys(p, first, next) == view - RunKeys(p, first, v);
    assert Leaf(p, v) !in view0 by { assert view0.Keys <= view.Keys; }
  }

  lemma ShrinkLow(view0: View, view: View, p: Frame, v: int, next: int, end: int)
    requires Grown(view0, view, p, v, end) && 0 <= v < end <= USER_PAGES && next == v + 1
    ensures Grown(view0, view - {Leaf(p, v)}, p, next, end)
  {
    RunDown(p, v, next, end);
    NotInRun(p, v, next, end);
    assert view - {Leaf(p, v)} - RunKeys(p, next, end) == view - RunKeys(p, v, end);
  }

  lemma ShrinkHigh(view0: View, view: View, p: Frame, first: int, v: int, next: int)
    requires Grown(view0, view, p, first, next) && 0 <= first <= v < next <= USER_PAGES && next == v + 1
    ensures Grown(view0, view - {Leaf(p, v)}, p, first, v)
  {
    RunUp(p, first, v, next);
    NotInRun(p, v, first, v);
    assert view - {Leaf(p, v)} - RunKeys(p, first, v) == view - RunKeys(p, first, next);
  }

  /** The pages from `first` to `end` are gone and nothing else changed. */
  lemma CutStep(view0: View, view: View, p: Frame, first: int, v: int, next: int)
    requires view == view0 - RunKeys(p, first, v) && first <= v && next == v + 1
    ensures view - {Leaf(p, v)} == view0 - RunKeys(p, first, next)
  {
    RunUp(p, first, v, next);
  }

  /** The pages of the run read as zeros and have the given flags. */
  ghost predicate Zeroed(view: View, bytes: map<Frame, Page>, p: Frame, first: int, end: int, bits: Flags) {
    forall v {:trigger Leaf(p, v)} :: first <= v < end ==>
      Leaf(p, v) in view && view[Leaf(p, v)].bits == bits && view[Leaf(p, v)].addr in bytes
          && bytes[view[Leaf(p, v)].addr] == ZeroPage()
  }

  lemma ZeroStep(view: View, bytes: map<Frame, Page>, bytes': map<Frame, Page>, p: Frame, first: int, v: int, next: int,
                 e: Entry,
                 managed: set<int>, stock: set<int>, whole: set<int>, lent: set<Node>)
    requires Zeroed(view, bytes, p, first, v, e.bits) && Owns(view, managed, stock, whole, p, lent)
             && KeepsBytes(stock, bytes, bytes')
    requires 0 <= first <= v < USER_PAGES && next == v + 1 && Leaf(p, v) !in view
    requires e.addr in bytes' && bytes'[e.addr] == ZeroPage() && RunKeys(p, first, v) !! lent
    ensures Zeroed(view[Leaf(p, v) := e], bytes', p, first, next, e.bits)
  {
    forall w | first <= w < v ensures view[Leaf(p, w)].addr !in stock {
      LeafPath(p, w);
      assert Leaf(p, w) in RunKeys(p, first, v);
    }
  }

  // ---------------------------------------------------------------- snapshots

  ghost predicate Home(vm: Vmm, p: Frame, whole: set<int>, lent: set<Node>)
    reads vm, vm.pm, vm.pm.ranges
  {
    vm.Valid() && vm.Live(p) && Owns(vm.view, vm.pm.managed, vm.stock, whole, p, lent)
  }

  /** A snapshot of a valid state of the same address space. */
  ghost predicate Sound(vm: Vmm, was: Snap, p: Frame, whole: set<int>, lent: set<Node>) {
    && Good(was.tab, was.view, was.words, vm.outer, {}) && Held(was.tab, vm.pm.managed, was.free, was.lost, was.stock)
    && Canonical(was.list) && Denotes(was.list, was.free) && was.free !! was.lost
    && Owns(was.view, vm.pm.managed, was.stock, whole, p, lent)
  }

  /** Other address spaces, and frames that are neither free nor ours, are as in the snapshot. */
  ghost predicate Others(vm: Vmm, was: Snap, p: Frame, whole: set<int>)
    reads vm, vm.pm
  {
    && OthersSame(was.view, vm.view, p) && OthersSame(was.tab, vm.tab, p) && SameRoots(was.tab, vm.tab)
    && KeepsBytes(whole, was.bytes, vm.pm.bytes) && was.lost <= vm.pm.lost
  }

  lemma NowSound(vm: Vmm, p: Frame, whole: set<int>, lent: set<Node>)
    requires Home(vm, p, whole, lent)
    ensures Sound(vm, Now(vm), p, whole, lent) && Others(vm, Now(vm), p, whole)
  {}

  /** Tables and free pages are as in the snapshot; the free list too, unless so many pages were in use that
      the free-range array could be full. */
  ghost predicate Undone(vm: Vmm, was: Snap)
    reads vm, vm.pm
  {
    && vm.view == was.view && vm.tab == was.tab && vm.stock == was.stock
    && vm.pm.free + vm.pm.lost == was.free + was.lost
    && (vm.pm.lost == was.lost || vm.pm.Roomy() ==> vm.pm.list == was.list)
  }

  /** With the pages of the snapshot mapped again and no table of it lost, everything is as it was. */
  lemma Back(vm: Vmm, was: Snap, p: Frame, whole: set<int>, lent: set<Node>)
    requires Home(vm, p, whole, lent) && Sound(vm, was, p, whole, lent)
    requires vm.view == was.view && Extends(was.tab, vm.tab) && SameRoots(was.tab, vm.tab) && was.lost <= vm.pm.lost
    ensures Undone(vm, was)
  {
    assert Extends(vm.tab, vm.tab);
    SameTables(was.tab, was.words, vm.tab, vm.tab, vm.pm.words, vm.view, vm.outer);
    OwnsStock(vm.view, vm.pm.managed, vm.stock, was.stock, whole, p, lent);
    SameReturned(was.list, vm.pm.list, vm.tab, vm.pm.managed, vm.stock, was.free, vm.pm.free, was.lost, vm.pm.lost);
  }

  /** Pruning after an unmap keeps every table that a page of the snapshot needs. */
  lemma KeptTables(was: Snap, tab: Tab, tab': Tab, view': View, words': Words, outer: Outer)
    requires Good(was.tab, was.view, was.words, outer, {}) && Good(tab', view', words', outer, {})
    requires Extends(was.tab, tab) && Extends(tab', tab) && SameRoots(tab, tab') && was.view.Keys <= view'.Keys
    ensures Extends(was.tab, tab')
  {
    forall n | n in was.tab ensures n in tab' && tab'[n] == was.tab[n] {
      if n.Child? {
        var k := HasPage(was.tab, was.view, was.words, outer, n);
        AncestorLive(tab', view', words', n, k);
      }
      assert tab[n] == was.tab[n];
    }
  }

  lemma OthersStep(vm: Vmm, was: Snap, p: Frame, whole: set<int>, view1: View, tab1: Tab, bytes1: map<Frame, Page>,
                   lost1: set<int>, stock1: set<int>)
    requires OthersSame(was.view, view1, p) && OthersSame(was.tab, tab1, p) && SameRoots(was.tab, tab1)
    requires KeepsBytes(whole, was.bytes, bytes1) && was.lost <= lost1 && stock1 <= whole
    requires OthersSame(view1, vm.view, p) && OthersSame(tab1, vm.tab, p) && SameRoots(tab1, vm.tab)
    requires KeepsBytes(stock1, bytes1, vm.pm.bytes) && lost1 <= vm.pm.lost
    ensures Others(vm, was, p, whole)
  {
    OthersTrans(was.view, view1, vm.view, p);
    OthersTrans(was.tab, tab1, vm.tab, p);
  }

  // ---------------------------------------------------------------- one page

  /** Unmap page `v`; its frame is freed unless the page is lent. */
  method UnmapOne(vm: Vmm, p: Frame, v: nat, freePhys: bool, ghost was: Snap, ghost whole: set<int>,
                  ghost lent: set<Node>) returns (ok: bool)
    requires Home(vm, p, whole, lent) && v < USER_PAGES && (freePhys <==> Leaf(p, v) !in lent)
             && Others(vm, was, p, whole)
    modifies vm`tab, vm`view, vm`stock, vm.pm, vm.pm.ranges
    ensures Home(vm, p, whole, lent) && Others(vm, was, p, whole)
    ensures vm.view == old(vm.view) - {Leaf(p, v)}
    ensures Extends(vm.tab, old(vm.tab)) && SameRoots(old(vm.tab), vm.tab) && old(vm.pm.lost) <= vm.pm.lost
    ensures ok <==> Leaf(p, v) in old(vm.view) && vm.pm.lost == old(vm.pm.lost)
    ensures vm.pm.bytes == old(vm.pm.bytes)
  {
    assert 4096 * v / 4096 == v && 4096 * v % 4096 == 0;
    if freePhys {
      ok := UnmapOwned(vm, p, 4096 * v, whole, lent);
    } else {
      ok := UnmapLent(vm, p, 4096 * v, whole, lent);
    }
    OthersStep(vm, was, p, whole, old(vm.view), old(vm.tab), old(vm.pm.bytes), old(vm.pm.lost), old(vm.stock));
  }

  /** Mapping or unmapping lent page `v` concerns nobody else. */
  lemma LentStep(view: View, managed: set<int>, stock: set<int>, whole: set<int>, p: Frame, lent: set<Node>, v: int,
                 e: Entry)
    requires Owns(view, managed, stock, whole, p, lent) && Leaf(p, v) in lent
    ensures Owns(view[Leaf(p, v) := e], managed, stock, whole, p, lent) && OthersSame(view, view[Leaf(p, v) := e], p)
    ensures Owns(view - {Leaf(p, v)}, managed, stock, whole, p, lent) && OthersSame(view, view - {Leaf(p, v)}, p)
  {
    LeafPath(p, v);
    OwnsLent(view, managed, stock, whole, p, lent, Leaf(p, v), e);
    PutOthers(view, Leaf(p, v), e, p);
  }

  // Unmap a page without freeing its frame.
  method DropEntry(vm: Vmm, p: Frame, virt: nat) returns (ok: bool)
    requires vm.Valid() && vm.Live(p) && virt < 0x8000_0000_0000 && virt % 4096 == 0
    modifies vm`tab, vm`view, vm`stock, vm.pm, vm.pm.ranges
    ensures vm.Valid() && SameRoots(old(vm.tab), vm.tab) && Extends(vm.tab, old(vm.tab)) && vm.stock == old(vm.stock)
    ensures vm.view == old(vm.view) - {Leaf(p, virt / 4096)}
    ensures ok <==> Leaf(p, virt / 4096) in old(vm.view) && vm.pm.lost == old(vm.pm.lost)
    ensures vm.pm.bytes == old(vm.pm.bytes) && old(vm.pm.lost) <= vm.pm.lost
  {
    ghost var k := Leaf(p, virt / 4096);
    assert k !in vm.view ==> vm.view - {k} == vm.view;
    ok := vm.UnmapPage(p, virt, false);
  }

  // Unmap a lent page.
  method UnmapLent(vm: Vmm, p: Frame, virt: nat, ghost whole: set<int>, ghost lent: set<Node>) returns (ok: bool)
    requires Home(vm, p, whole, lent) && virt < 0x8000_0000_0000 && virt % 4096 == 0 && Leaf(p, virt / 4096) in lent
    modifies vm`tab, vm`view, vm`stock, vm.pm, vm.pm.ranges
    ensures Home(vm, p, whole, lent) && vm.view == old(vm.view) - {Leaf(p, virt / 4096)}
    ensures OthersSame(old(vm.view), vm.view, p) && OthersSame(old(vm.tab), vm.tab, p)
    ensures ok <==> Leaf(p, virt / 4096) in old(vm.view) && vm.pm.lost == old(vm.pm.lost)
    ensures vm.pm.bytes == old(vm.pm.bytes) && old(vm.pm.lost) <= vm.pm.lost
    ensures SameRoots(old(vm.tab), vm.tab) && Extends(vm.tab, old(vm.tab))
  {
    LentStep(vm.view, vm.pm.managed, vm.stock, whole, p, lent, virt / 4096, NO_ENTRY);
    ok := DropEntry(vm, p, virt);
    OthersTables(old(vm.tab), old(vm.view), old(vm.pm.words), vm.tab, vm.view, vm.pm.words, vm.outer, p);
  }

  /** Map a fresh page at `v` and clear it. */
  method MapOne(vm: Vmm, p: Frame, v: nat, flags: Flags, ghost was: Snap, ghost whole: set<int>, ghost lent: set<Node>)
    returns (page: nat)
    requires Home(vm, p, whole, lent) && v < USER_PAGES && Leaf(p, v) !in lent && Others(vm, was, p, whole)
    requires flags.present && flags.user && (flags.writable ==> flags.noExecute)
    modifies vm`tab, vm`view, vm`stock, vm.pm, vm.pm.ranges
    ensures Home(vm, p, whole, lent) && Others(vm, was, p, whole) && Extends(old(vm.tab), vm.tab)
    ensures page == 0 ==> vm.view == old(vm.view) && (Leaf(p, v) in old(vm.view) || old(vm.Room()) < 4)
    ensures page != 0 ==>
              page < 0x100_0000_0000 && Leaf(p, v) !in old(vm.view)
              && vm.view == old(vm.view)[Leaf(p, v) := Entry(page, flags)]
    ensures page != 0 ==> vm.pm.bytes[page] == ZeroPage() && vm.Room() >= old(vm.Room()) - 4
    ensures KeepsBytes(old(vm.stock), old(vm.pm.bytes), vm.pm.bytes)
  {
    assert 4096 * v / 4096 == v && 4096 * v % 4096 == 0;
    page := MapOwned(vm, p, 4096 * v, flags, whole, lent);
    OthersStep(vm, was, p, whole, old(vm.view), old(vm.tab), old(vm.pm.bytes), old(vm.pm.lost), old(vm.stock));
    if page != 0 {
      ghost var bytes1 := vm.pm.bytes;
      ClearBytes(vm.pm, page);
      SameBytes(bytes1, vm.pm.bytes, page);
    }
  }

  /** Map a lent frame at `v`; nothing is allocated but tables. */
  method LendOne(vm: Vmm, p: Frame, v: nat, phys: nat, flags: Flags, ghost was: Snap, ghost whole: set<int>,
                 ghost lent: set<Node>) returns (ok: bool)
    requires Home(vm, p, whole, lent) && v < USER_PAGES && Leaf(p, v) in lent && Others(vm, was, p, whole)
    requires flags.present && flags.user && (flags.writable ==> flags.noExecute)
    modifies vm`tab, vm`view, vm.pm, vm.pm.ranges
    ensures Home(vm, p, whole, lent) && Others(vm, was, p, whole) && Extends(old(vm.tab), vm.tab)
    ensures !ok ==> vm.view == old(vm.view) && (phys % 4096 != 0 || Leaf(p, v) in old(vm.view) || old(vm.Room()) < 3)
    ensures ok ==>
              phys % 4096 == 0 && Leaf(p, v) !in old(vm.view)
              && vm.view == old(vm.view)[Leaf(p, v) := LeafEntry(phys, flags)]
    ensures ok ==> vm.Room() >= old(vm.Room()) - 3
  {
    assert 4096 * v / 4096 == v && 4096 * v % 4096 == 0;
    LentStep(vm.view, vm.pm.managed, vm.stock, whole, p, lent, v, LeafEntry(phys, flags));
    ok := MapHere(vm, p, 4096 * v, phys, flags);
    if ok {
      OthersTables(old(vm.tab), old(vm.view), old(vm.pm.words), vm.tab, vm.view, vm.pm.words, vm.outer, p);
    }
    OthersStep(vm, was, p, whole, old(vm.view), old(vm.tab), old(vm.pm.bytes), old(vm.pm.lost), old(vm.stock));
  }

  // ---------------------------------------------------------------- runs

  /** The pages from `first` to `v` have been mapped since the snapshot, and nothing else happened. */
  ghost predicate Growing(vm: Vmm, was: Snap, p: Frame, first: int, v: int, whole: set<int>, lent: set<Node>)
    reads vm, vm.pm, vm.pm.ranges
  {
    && Home(vm, p, whole, lent) && Others(vm, was, p, whole) && Extends(was.tab, vm.tab)
    && Grown(was.view, vm.view, p, first, v)
  }

  /** The pages of the run are all lent, or none is. */
  ghost predicate Uniform(p: Frame, first: int, end: int, freePhys: bool, lent: set<Node>) {
    forall v {:trigger Leaf(p, v)} :: first <= v < end ==> (freePhys <==> Leaf(p, v) !in lent)
  }

  lemma GrownOver(view0: View, view: View, p: Frame, first: int, end: int, v: int)
    requires Grown(view0, view, p, first, end) && first <= v < end
    ensures view0.Keys <= (view - {Leaf(p, v)}).Keys
  {
    assert Leaf(p, v) in RunKeys(p, first, end);
    forall k | k in view0 ensures k in view && k != Leaf(p, v) { assert k in view - RunKeys(p, first, end); }
  }

  // Take one page of the run back.
  method TakeBack(vm: Vmm, p: Frame, first: nat, end: nat, v: nat, freePhys: bool, ghost was: Snap,
                  ghost whole: set<int>, ghost lent: set<Node>)
    requires Growing(vm, was, p, first, end, whole, lent) && Sound(vm, was, p, whole, lent)
    requires first <= v < end <= USER_PAGES && (freePhys <==> Leaf(p, v) !in lent)
    modifies vm`tab, vm`view, vm`stock, vm.pm, vm.pm.ranges
    ensures Home(vm, p, whole, lent) && Others(vm, was, p, whole) && Extends(was.tab, vm.tab)
    ensures vm.view == old(vm.view) - {Leaf(p, v)}
  {
    GrownOver(was.view, vm.view, p, first, end, v);
    var _ := UnmapOne(vm, p, v, freePhys, was, whole, lent);
    KeptTables(was, old(vm.tab), vm.tab, vm.view, vm.pm.words, vm.outer);
  }

  /** The rollback loops that count up. */
  method RollUp(vm: Vmm, p: Frame, first: nat, end: nat, freePhys: bool, ghost was: Snap, ghost whole: set<int>,
                ghost lent: set<Node>)
    requires Growing(vm, was, p, first, end, whole, lent) && Sound(vm, was, p, whole, lent)
    requires first <= end <= USER_PAGES && Uniform(p, first, end, freePhys, lent)
    modifies vm`tab, vm`view, vm`stock, vm.pm, vm.pm.ranges
    ensures Home(vm, p, whole, lent) && Others(vm, was, p, whole) && Undone(vm, was)
  {
    var v := first;
    while v < end
      invariant first <= v <= end && Growing(vm, was, p, v, end, whole, lent)
    {
      var next := v + 1;
      ShrinkLow(was.view, vm.view, p, v, next, end);
      TakeBack(vm, p, v, end, v, freePhys, was, whole, lent);
      v := next;
    }
    GrownNone(was.view, vm.view, p, end);
    Back(vm, was, p, whole, lent);
  }

  /** The rollback loop that counts down. */
  method RollDown(vm: Vmm, p: Frame, first: nat, end: nat, ghost was: Snap, ghost whole: set<int>,
                  ghost lent: set<Node>)
    requires Growing(vm, was, p, first, end, whole, lent) && Sound(vm, was, p, whole, lent)
    requires first <= end <= USER_PAGES && Uniform(p, first, end, true, lent)
    modifies vm`tab, vm`view, vm`stock, vm.pm, vm.pm.ranges
    ensures Home(vm, p, whole, lent) && Others(vm, was, p, whole) && Undone(vm, was)
  {
    var mapped := end;
    while mapped > first
      invariant first <= mapped <= end && Growing(vm, was, p, first, mapped, whole, lent)
    {
      var v := mapped - 1;
      ShrinkHigh(was.view, vm.view, p, first, v, mapped);
      TakeBack(vm, p, first, mapped, v, true, was, whole, lent);
      mapped := v;
    }
    GrownNone(was.view, vm.view, p, first);
    Back(vm, was, p, whole, lent);
  }

  // Add one fresh page to the run.
  method AddFresh(vm: Vmm, p: Frame, first: nat, v: nat, next: nat, flags: Flags, ghost was: Snap,
                  ghost whole: set<int>, ghost lent: set<Node>) returns (ok: bool)
    requires Growing(vm, was, p, first, v, whole, lent) && first <= v < USER_PAGES && next == v + 1
    requires Zeroed(vm.view, vm.pm.bytes, p, first, v, flags) && RunKeys(p, first, next) !! lent
    requires flags.present && flags.user && (flags.writable ==> flags.noExecute)
    modifies vm`tab, vm`view, vm`stock, vm.pm, vm.pm.ranges
    ensures !ok ==> Growing(vm, was, p, first, v, whole, lent) && (Leaf(p, v) in old(vm.view) || old(vm.Room()) < 4)
    ensures ok ==> Growing(vm, was, p, first, next, whole, lent) && Zeroed(vm.view, vm.pm.bytes, p, first, next, flags)
    ensures ok ==> vm.Room() >= old(vm.Room()) - 4
  {
    RunUp(p, first, v, next);
    var page := MapOne(vm, p, v, flags, was, whole, lent);
    ok := page != 0;
    if ok {
      GrowStep(was.view, old(vm.view), p, first, v, next, Entry(page, flags));
      ZeroStep(old(vm.view), old(vm.pm.bytes), vm.pm.bytes, p, first, v, next, Entry(page, flags), vm.pm.managed,
               old(vm.stock), whole, lent);
    }
  }

  /** Map fresh cleared pages from `first` to `end`, or none. */
  method FillRun(vm: Vmm, p: Frame, first: nat, end: nat, flags: Flags, ghost was: Snap, ghost whole: set<int>,
                 ghost lent: set<Node>) returns (ok: bool)
    requires Home(vm, p, whole, lent) && was == Now(vm) && first <= end <= USER_PAGES && RunKeys(p, first, end) !! lent
    requires RunKeys(p, first, end) !! vm.view.Keys
    requires flags.present && flags.user && (flags.writable ==> flags.noExecute)
    modifies vm`tab, vm`view, vm`stock, vm.pm, vm.pm.ranges
    ensures ok ==> Growing(vm, was, p, first, end, whole, lent) && Zeroed(vm.view, vm.pm.bytes, p, first, end, flags)
    ensures !ok ==>
              Home(vm, p, whole, lent) && Others(vm, was, p, whole) && Undone(vm, was)
              && old(vm.Room()) < 4 * (end - first)
  {
    GrownNone(was.view, vm.view, p, first);
    var v := first;
    while v < end
      invariant first <= v <= end && Growing(vm, was, p, first, v, whole, lent)
      invariant Zeroed(vm.view, vm.pm.bytes, p, first, v, flags) && vm.Room() >= old(vm.Room()) - 4 * (v - first)
    {
      var next := v + 1;
      RunInside(p, first, v, next, end);
      NotYet(was.view, vm.view, p, first, v, end);
      var done := AddFresh(vm, p, first, v, next, flags, was, whole, lent);
      if !done {
        UniformRun(p, first, v, lent);
        RollUp(vm, p, first, v, true, was, whole, lent);
        return false;
      }
      v := next;
    }
    return true;
  }

  lemma RunInside(p: Frame, first: int, v: int, next: int, end: int)
    requires first <= v < end && next == v + 1
    ensures RunKeys(p, first, next) <= RunKeys(p, first, end) && RunKeys(p, first, v) <= RunKeys(p, first, end)
            && Leaf(p, v) in RunKeys(p, first, end)
  {}

  lemma NotYet(view0: View, view: View, p: Frame, first: int, v: int, end: int)
    requires Grown(view0, view, p, first, v) && 0 <= first <= v < end <= USER_PAGES && Leaf(p, v) !in view0
    ensures Leaf(p, v) !in view
  {
    NotInRun(p, v, first, v);
    assert Leaf(p, v) !in view - RunKeys(p, first, v);
  }

  lemma UniformRun(p: Frame, first: int, end: int, lent: set<Node>)
    requires RunKeys(p, first, end) !! lent
    ensures Uniform(p, first, end, true, lent)
  {
    forall v | first <= v < end ensures Leaf(p, v) !in lent { assert Leaf(p, v) in RunKeys(p, first, end); }
  }

  /** The lent pages from `first` to `v` map the first frames of `phys`. */
  ghost predicate Lends(view: View, p: Frame, first: int, v: int, phys: seq<nat>, flags: Flags) {
    forall w {:trigger Leaf(p, w)} :: first <= w < v && w - first < |phys| ==>
      Leaf(p, w) in view && view[Leaf(p, w)] == LeafEntry(phys[w - first], flags) && phys[w - first] % 4096 == 0
  }

  lemma LendStep(view: View, p: Frame, first: int, v: int, next: int, phys: seq<nat>, flags: Flags)
    requires Lends(view, p, first, v, phys, flags) && 0 <= first <= v < USER_PAGES && next == v + 1
             && v - first < |phys|
    requires Leaf(p, v) !in view && phys[v - first] % 4096 == 0
    ensures Lends(view[Leaf(p, v) := LeafEntry(phys[v - first], flags)], p, first, next, phys, flags)
  {}

  // Add one lent page to the run.
  method AddLent(vm: Vmm, p: Frame, first: nat, v: nat, next: nat, phys: seq<nat>, flags: Flags,
                 ghost was: Snap, ghost whole: set<int>, ghost lent: set<Node>) returns (ok: bool)
    requires Growing(vm, was, p, first, v, whole, lent) && first <= v < USER_PAGES && next == v + 1
    requires v - first < |phys| && Lends(vm.view, p, first, v, phys, flags) && Leaf(p, v) in lent
    requires flags.present && flags.user && (flags.writable ==> flags.noExecute)
    modifies vm`tab, vm`view, vm.pm, vm.pm.ranges
    ensures !ok ==> Growing(vm, was, p, first, v, whole, lent)
    ensures !ok ==> phys[v - first] % 4096 != 0 || Leaf(p, v) in old(vm.view) || old(vm.Room()) < 3
    ensures ok ==> Growing(vm, was, p, first, next, whole, lent) && Lends(vm.view, p, first, next, phys, flags)
    ensures ok ==> vm.Room() >= old(vm.Room()) - 3 && phys[v - first] % 4096 == 0
  {
    ok := LendOne(vm, p, v, phys[v - first], flags, was, whole, lent);
    if ok {
      GrowStep(was.view, old(vm.view), p, first, v, next, LeafEntry(phys[v - first], flags));
      LendStep(old(vm.view), p, first, v, next, phys, flags);
    }
  }

  ghost predicate Aligned(phys: seq<nat>) { forall i :: 0 <= i < |phys| ==> phys[i] % 4096 == 0 }

  /** Map the given frames from `first` to `end`, or none. */
  method LendRun(vm: Vmm, p: Frame, first: nat, end: nat, phys: seq<nat>, flags: Flags,
                 ghost was: Snap, ghost whole: set<int>, ghost lent: set<Node>) returns (ok: bool)
    requires Home(vm, p, whole, lent) && was == Now(vm) && first <= end <= USER_PAGES && |phys| == end - first
    requires RunKeys(p, first, end) <= lent && RunKeys(p, first, end) !! vm.view.Keys
    requires flags.present && flags.user && (flags.writable ==> flags.noExecute)
    modifies vm`tab, vm`view, vm`stock, vm.pm, vm.pm.ranges
    ensures ok ==> Growing(vm, was, p, first, end, whole, lent) && Lends(vm.view, p, first, end, phys, flags)
    ensures !ok ==> Home(vm, p, whole, lent) && Others(vm, was, p, whole) && Undone(vm, was)
    ensures !ok ==> !Aligned(phys) || old(vm.Room()) < 3 * (end - first)
  {
    GrownNone(was.view, vm.view, p, first);
    var v := first;
    while v < end
      invariant first <= v <= end && Growing(vm, was, p, first, v, whole, lent)
      invariant Lends(vm.view, p, first, v, phys, flags) && vm.Room() >= old(vm.Room()) - 3 * (v - first)
    {
      var next := v + 1;
      RunInside(p, first, v, next, end);
      NotYet(was.view, vm.view, p, first, v, end);
      var done := AddLent(vm, p, first, v, next, phys, flags, was, whole, lent);
      if !done {
        UniformLent(p, first, v, lent);
        RollUp(vm, p, first, v, false, was, whole, lent);
        return false;
      }
      v := next;
    }
    return true;
  }

  lemma UniformLent(p: Frame, first: int, end: int, lent: set<Node>)
    requires RunKeys(p, first, end) <= lent
    ensures Uniform(p, first, end, false, lent)
  {
    forall v | first <= v < end ensures Leaf(p, v) in lent { assert Leaf(p, v) in RunKeys(p, first, end); }
  }

  /** Unmap the pages from `first` to `end`, whatever the single steps report. */
  method ClearRun(vm: Vmm, p: Frame, first: nat, end: nat, freePhys: bool, ghost was: Snap, ghost whole: set<int>,
                  ghost lent: set<Node>)
    requires Home(vm, p, whole, lent) && Others(vm, was, p, whole) && first <= end <= USER_PAGES
             && Uniform(p, first, end, freePhys, lent)
    modifies vm`tab, vm`view, vm`stock, vm.pm, vm.pm.ranges
    ensures Home(vm, p, whole, lent) && Others(vm, was, p, whole) && vm.view == old(vm.view) - RunKeys(p, first, end)
    ensures vm.pm.bytes == old(vm.pm.bytes) && old(vm.pm.lost) <= vm.pm.lost
  {
    ghost var view0 := vm.view;
    assert RunKeys(p, first, first) == {};
    assert view0 - {} == view0;
    var v := first;
    while v < end
      invariant first <= v <= end && Home(vm, p, whole, lent) && Others(vm, was, p, whole)
      invariant vm.view == view0 - RunKeys(p, first, v) && vm.pm.bytes == old(vm.pm.bytes)
                && old(vm.pm.lost) <= vm.pm.lost
    {
      var next := v + 1;
      CutStep(view0, vm.view, p, first, v, next);
      var _ := UnmapOne(vm, p, v, freePhys, was, whole, lent);
      v := next;
    }
  }

  /** Unmap the pages from `first` to `end`, up to the first step that fails. */
  method UnmapRun(vm: Vmm, p: Frame, first: nat, end: nat, freePhys: bool, ghost was: Snap, ghost whole: set<int>,
                  ghost lent: set<Node>)
    returns (ok: bool, ghost cut: nat)
    requires Home(vm, p, whole, lent) && Others(vm, was, p, whole) && first <= end <= USER_PAGES
             && Uniform(p, first, end, freePhys, lent)
    modifies vm`tab, vm`view, vm`stock, vm.pm, vm.pm.ranges
    ensures Home(vm, p, whole, lent) && Others(vm, was, p, whole)
    ensures first <= cut <= end && vm.view == old(vm.view) - RunKeys(p, first, cut)
    ensures if ok then cut == end && vm.pm.lost == old(vm.pm.lost) else first < cut
    ensures !ok ==> old(vm.pm.lost) < vm.pm.lost || !(RunKeys(p, first, end) <= old(vm.view).Keys)
    ensures ok ==> RunKeys(p, first, end) <= old(vm.view).Keys
    ensures vm.pm.bytes == old(vm.pm.bytes) && old(vm.pm.lost) <= vm.pm.lost
    ensures Extends(vm.tab, old(vm.tab)) && SameRoots(vm.tab, old(vm.tab))
  {
    ghost var view0, tab0 := vm.view, vm.tab;
    assert RunKeys(p, first, first) == {};
    assert view0 - {} == view0;
    var v := first;
    while v < end
      invariant first <= v <= end && Home(vm, p, whole, lent) && Others(vm, was, p, whole)
      invariant vm.view == view0 - RunKeys(p, first, v) && vm.pm.bytes == old(vm.pm.bytes)
                && vm.pm.lost == old(vm.pm.lost)
      invariant RunKeys(p, first, v) <= view0.Keys && Extends(vm.tab, tab0) && SameRoots(vm.tab, tab0)
    {
      var next := v + 1;
      CutStep(view0, vm.view, p, first, v, next);
      StillMapped(view0, vm.view, p, first, v, end);
      RunMore(view0, vm.view, p, first, v, next);
      ghost var tab1 := vm.tab;
      ok := UnmapOne(vm, p, v, freePhys, was, whole, lent);
      ExtendsOn(vm.tab, tab1, tab0);
      if !ok { return false, next; }
      v := next;
    }
    return true, end;
  }

  lemma FirstInRun(p: Frame, first: int, end: int)
    requires first < end
    ensures Leaf(p, first) in RunKeys(p, first, end)
  {}

  lemma RunMore(view0: View, view: View, p: Frame, first: int, v: int, next: int)
    requires view == view0 - RunKeys(p, first, v) && first <= v && next == v + 1 && RunKeys(p, first, v) <= view0.Keys
    ensures Leaf(p, v) in view ==> RunKeys(p, first, next) <= view0.Keys
  {
    RunUp(p, first, v, next);
  }

  lemma StillMapped(view0: View, view: View, p: Frame, first: int, v: int, end: int)
    requires view == view0 - RunKeys(p, first, v) && 0 <= first <= v < end <= USER_PAGES
    ensures RunKeys(p, first, end) <= view0.Keys ==> Leaf(p, v) in view
  {
    NotInRun(p, v, first, v);
    assert Leaf(p, v) in RunKeys(p, first, end);
  }

  /** The pages from `first` to `end` have new flags and their old frames; nothing else changed. */
  ghost predicate Reflagged(view0: View, view: View, p: Frame, first: int, end: int, bits: Flags) {
    && view.Keys == view0.Keys
    && (forall k {:trigger view[k]} :: k in view0 ==>
          view[k] == if k in RunKeys(p, first, end) then Entry(view0[k].addr, bits) else view0[k])
  }

  lemma ReflagStep(view0: View, view: View, p: Frame, first: int, v: int, next: int, bits: Flags)
    requires Reflagged(view0, view, p, first, v, bits) && 0 <= first <= v < USER_PAGES && next == v + 1
             && Leaf(p, v) in view
    ensures Reflagged(view0, view[Leaf(p, v) := Entry(view[Leaf(p, v)].addr, bits)], p, first, next, bits)
  {
    RunUp(p, first, v, next);
    NotInRun(p, v, first, v);
  }

  // Change the flags of one page.
  method ReflagOne(vm: Vmm, p: Frame, v: nat, flags: Flags, ghost was: Snap, ghost whole: set<int>,
                   ghost lent: set<Node>) returns (ok: bool)
    requires Home(vm, p, whole, lent) && Others(vm, was, p, whole) && v < USER_PAGES && Leaf(p, v) in vm.view
    requires flags.present && flags.user && (flags.writable ==> flags.noExecute)
    modifies vm`view, vm.pm`words
    ensures Home(vm, p, whole, lent) && Others(vm, was, p, whole) && ok
    ensures vm.view == old(vm.view)[Leaf(p, v) := Entry(old(vm.view)[Leaf(p, v)].addr, flags)]
  {
    assert 4096 * v / 4096 == v && 4096 * v % 4096 == 0;
    NotKernel(vm, p);
    LeafPath(p, v);
    ghost var e := Entry(vm.view[Leaf(p, v)].addr, flags);
    OwnsFlags(vm.view, vm.pm.managed, vm.stock, whole, p, lent, Leaf(p, v), e);
    PutOthers(vm.view, Leaf(p, v), e, p);
    OthersTrans(was.view, vm.view, vm.view[Leaf(p, v) := e], p);
    ok := vm.SetFlags(p, 4096 * v, flags);
  }

  /** The second loop of process_vm_protect; on mapped pages it does not fail. */
  method ReflagRun(vm: Vmm, p: Frame, first: nat, end: nat, flags: Flags, ghost was: Snap, ghost whole: set<int>,
                   ghost lent: set<Node>) returns (ok: bool)
    requires Home(vm, p, whole, lent) && Others(vm, was, p, whole) && first <= end <= USER_PAGES
             && RunKeys(p, first, end) <= vm.view.Keys
    requires flags.present && flags.user && (flags.writable ==> flags.noExecute)
    modifies vm`view, vm.pm`words
    ensures Home(vm, p, whole, lent) && Others(vm, was, p, whole) && ok
    ensures Reflagged(old(vm.view), vm.view, p, first, end, flags)
  {
    var v := first;
    while v < end
      invariant first <= v <= end && Home(vm, p, whole, lent) && Others(vm, was, p, whole)
      invariant Reflagged(old(vm.view), vm.view, p, first, v, flags)
    {
      var next := v + 1;
      RunInside(p, first, v, next, end);
      ReflagStep(old(vm.view), vm.view, p, first, v, next, flags);
      ok := ReflagOne(vm, p, v, flags, was, whole, lent);
      if !ok { return; }
      v := next;
    }
    return true;
  }
}
