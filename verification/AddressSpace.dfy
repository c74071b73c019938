/** Whole lives of user address spaces: mapping and unmapping are inverse, and every page an address space
    ever took is given back when it is destroyed. */
module AddressSpaces {
  import opened FreeList
  import opened Hardware
  import opened PhysicalMemory
  import opened PageTree
  import opened PageTables

  lemma PutRemove(view: View, k: Node, e: Entry)
    requires k !in view
    ensures view[k := e] - {k} == view
  {}

  /** With the same tables and the same stock, the same pages have been given back. */
  lemma SameReturned(s: seq<Range>, t: seq<Range>, tab: Tab, managed: set<int>, stock: set<int>,
                     free: set<int>, free': set<int>, lost: set<int>, lost': set<int>)
    requires Held(tab, managed, free, lost, stock) && Held(tab, managed, free', lost', stock)
    requires Canonical(s) && Canonical(t) && Denotes(s, free) && Denotes(t, free') && free !! lost && free' !! lost'
    ensures free + lost == free' + lost'
    ensures lost == lost' ==> s == t
  {
    AvailIsStock(tab, managed, free, lost, stock);
    AvailIsStock(tab, managed, free', lost', stock);
    if lost == lost' { SameList(s, t, free, free', lost); }
  }

  /** Map a page and unmap it again without freeing the frame: the map, the tables and the free list are as before;
      the list could only differ if so many pages were in use that the free-range array could be full. */
  method MapUnmap(vm: Vmm, pml4: nat, virt: nat, phys: nat, flags: Flags) returns (ok: bool)
    requires vm.Valid() && vm.Live(pml4) && virt < 0x8000_0000_0000
    modifies vm`tab, vm`view, vm`stock, vm.pm, vm.pm.ranges
    ensures vm.Valid()
    ensures vm.view == old(vm.view) && vm.tab == old(vm.tab) && vm.stock == old(vm.stock)
    ensures vm.pm.free + vm.pm.lost == old(vm.pm.free + vm.pm.lost)
    ensures vm.pm.lost == old(vm.pm.lost) || vm.pm.Roomy() ==> vm.pm.list == old(vm.pm.list)
  {
    ok := vm.MapPage(pml4, virt, phys, flags);
    if ok {
      ghost var mid := vm.tab;
      PutRemove(old(vm.view), Leaf(pml4, virt / 4096), LeafEntry(phys, flags));
      var _ := vm.UnmapPage(pml4, virt, false);
      SameTables(old(vm.tab), old(vm.pm.words), mid, vm.tab, vm.pm.words, vm.view, vm.outer);
      SameReturned(old(vm.pm.list), vm.pm.list, vm.tab, vm.pm.managed, vm.stock,
                   old(vm.pm.free), vm.pm.free, old(vm.pm.lost), vm.pm.lost);
    }
  }

  // ---------------------------------------------------------------- one address space among others

  /** What an operation is compared with. */
  datatype Snap = Snap(tab: Tab, view: View, words: Words, bytes: map<Frame, Page>, stock: set<int>,
                       list: seq<Range>, free: set<int>, lost: set<int>)

  ghost function Now(vm: Vmm): Snap
    reads vm, vm.pm
  {
    Snap(vm.tab, vm.view, vm.pm.words, vm.pm.bytes, vm.stock, vm.pm.list, vm.pm.free, vm.pm.lost)
  }

  /** Pages of other address spaces are mapped as before. */
  ghost predicate OthersSame<T>(s: map<Node, T>, s': map<Node, T>, p: Frame) {
    forall m :: Space(m) != p ==> (m in s <==> m in s') && (m in s' ==> m in s && s'[m] == s[m])
  }

  /** The tables of other address spaces are where they were, because their pages are. */
  lemma OthersTables(tab: Tab, view: View, words: Words, tab': Tab, view': View, words': Words, outer: Outer, p: Frame)
    requires Good(tab, view, words, outer, {}) && Good(tab', view', words', outer, {})
    requires OthersSame(view, view', p) && SameRoots(tab, tab') && (Extends(tab, tab') || Extends(tab', tab))
    ensures OthersSame(tab, tab', p)
  {
    forall m | Space(m) != p ensures (m in tab <==> m in tab') && (m in tab' ==> m in tab && tab'[m] == tab[m]) {
      if m in tab && m.Child? { OtherTable(tab, view, words, tab', view', words', outer, p, m); }
      if m in tab' && m.Child? { OtherTable(tab', view', words', tab, view, words, outer, p, m); }
    }
  }

  lemma OtherTable(tab: Tab, view: View, words: Words, tab': Tab, view': View, words': Words, outer: Outer, p: Frame,
                   m: Node)
    requires Good(tab, view, words, outer, {}) && Good(tab', view', words', outer, {})
    requires OthersSame(view, view', p) && Space(m) != p && m in tab && m.Child?
    ensures m in tab'
  {
    var k := HasPage(tab, view, words, outer, m);
    BelowLevel(m, k);
    AncestorLive(tab', view', words', m, k);
  }

  // ---------------------------------------------------------------- ownership of frames

  /** The frames of the pages of space `p`, except the pages in `lent`. */
  ghost function OwnFrames(view: View, p: Frame, lent: set<Node>): set<int> {
    set k | k in view && Space(k) == p && k !in lent :: view[k].addr
  }

  ghost predicate SoleOwner(view: View, p: Frame, lent: set<Node>, j: Node, k: Node) {
    && j in view && k in view && Space(j) == p && Space(k) == p && j !in lent && k !in lent
    && view[j].addr == view[k].addr
    ==> j == k
  }

  /** Space `p` owns the frame of each of its pages outside `lent`: a managed frame of its own that is not in the
      stock. Stock and owned frames together are the constant `whole`. */
  ghost predicate Owns(view: View, managed: set<int>, stock: set<int>, whole: set<int>, p: Frame, lent: set<Node>) {
    && (forall k {:trigger view[k]} :: k in view && Space(k) == p && k !in lent ==>
      view[k].addr in managed && view[k].addr !in stock)
    && (forall j, k :: SoleOwner(view, p, lent, j, k))
    && stock + OwnFrames(view, p, lent) == whole
  }

  /** A fresh frame is mapped at a page that was not mapped. */
  lemma OwnsMapped(view: View, managed: set<int>, stock: set<int>, whole: set<int>, p: Frame, lent: set<Node>, k: Node,
                   e: Entry)
    requires Owns(view, managed, stock, whole, p, lent) && e.addr in managed && e.addr in stock
    requires k !in view && k !in lent && Space(k) == p
    ensures Owns(view[k := e], managed, stock - {e.addr}, whole, p, lent)
  {
    var view' := view[k := e];
    forall j | j in view && Space(j) == p && j !in lent
      ensures view[j].addr != e.addr && view'[j] == view[j] && view[j].addr in OwnFrames(view', p, lent)
    {
      assert view'[j] == view[j];
    }
    forall i, j ensures SoleOwner(view', p, lent, i, j) { assert SoleOwner(view, p, lent, i, j); }
    assert view'[k].addr in OwnFrames(view', p, lent);
    assert OwnFrames(view', p, lent) == OwnFrames(view, p, lent) + {e.addr};
  }

  /** An owned page is unmapped and its frame given back. */
  lemma OwnsUnmapped(view: View, managed: set<int>, stock: set<int>, whole: set<int>, p: Frame, lent: set<Node>,
                     k: Node)
    requires Owns(view, managed, stock, whole, p, lent) && k in view && Space(k) == p && k !in lent
    ensures Owns(view - {k}, managed, stock + {view[k].addr}, whole, p, lent)
  {
    var view', f := view - {k}, view[k].addr;
    forall j | j in view && Space(j) == p && j !in lent && j != k
      ensures view[j].addr != f && view'[j] == view[j] && view[j].addr in OwnFrames(view', p, lent)
    {
      assert view'[j] == view[j];
      assert SoleOwner(view, p, lent, j, k);
    }
    forall i, j ensures SoleOwner(view', p, lent, i, j) { assert SoleOwner(view, p, lent, i, j); }
    assert f in OwnFrames(view, p, lent);
    assert OwnFrames(view, p, lent) == OwnFrames(view', p, lent) + {f};
  }

  /** A page keeps its frame and gets new flags. */
  lemma OwnsFlags(view: View, managed: set<int>, stock: set<int>, whole: set<int>, p: Frame, lent: set<Node>, k: Node,
                  e: Entry)
    requires Owns(view, managed, stock, whole, p, lent) && k in view && e.addr == view[k].addr
    ensures Owns(view[k := e], managed, stock, whole, p, lent)
  {
    var view' := view[k := e];
    forall j | j in view ensures view'[j].addr == view[j].addr {}
    forall j | j in view && Space(j) == p && j !in lent ensures view[j].addr in OwnFrames(view', p, lent) {
      assert view'[j].addr == view[j].addr;
    }
    forall i, j ensures SoleOwner(view', p, lent, i, j) { assert SoleOwner(view, p, lent, i, j); }
    assert OwnFrames(view', p, lent) == OwnFrames(view, p, lent);
  }

  /** Pages in `lent` can be mapped, remapped and unmapped without touching what is owned. */
  lemma OwnsLent(view: View, managed: set<int>, stock: set<int>, whole: set<int>, p: Frame, lent: set<Node>, k: Node,
                 e: Entry)
    requires Owns(view, managed, stock, whole, p, lent) && k in lent
    ensures Owns(view[k := e], managed, stock, whole, p, lent) && Owns(view - {k}, managed, stock, whole, p, lent)
  {
    OwnsSame(view, view[k := e], managed, stock, whole, p, lent);
    OwnsSame(view, view - {k}, managed, stock, whole, p, lent);
  }

  lemma OwnsSame(view: View, view': View, managed: set<int>, stock: set<int>, whole: set<int>, p: Frame,
                 lent: set<Node>)
    requires Owns(view, managed, stock, whole, p, lent)
    requires forall k :: k !in lent ==> (k in view <==> k in view') && (k in view ==> view'[k] == view[k])
    ensures Owns(view', managed, stock, whole, p, lent)
  {
    forall i, j ensures SoleOwner(view', p, lent, i, j) { assert SoleOwner(view, p, lent, i, j); }
    forall k | k in view && Space(k) == p && k !in lent ensures view[k].addr in OwnFrames(view', p, lent) {
      assert view'[k] == view[k];
    }
    assert OwnFrames(view', p, lent) == OwnFrames(view, p, lent);
  }

  /** Which pages count as lent matters only where something is mapped. */
  lemma OwnsRelent(view: View, managed: set<int>, stock: set<int>, whole: set<int>, p: Frame, lent: set<Node>,
                   lent': set<Node>)
    requires Owns(view, managed, stock, whole, p, lent) && forall k :: k in view ==> (k in lent <==> k in lent')
    ensures Owns(view, managed, stock, whole, p, lent')
  {
    forall i, j ensures SoleOwner(view, p, lent', i, j) { assert SoleOwner(view, p, lent, i, j); }
    assert OwnFrames(view, p, lent') == OwnFrames(view, p, lent);
  }

  /** The stock is what the owned frames leave of the whole. */
  lemma OwnsStock(view: View, managed: set<int>, stock: set<int>, stock': set<int>, whole: set<int>, p: Frame,
                  lent: set<Node>)
    requires Owns(view, managed, stock, whole, p, lent) && Owns(view, managed, stock', whole, p, lent)
    ensures stock == stock'
  {
    forall f ensures f in stock <==> f in whole && f !in OwnFrames(view, p, lent) {}
    forall f ensures f in stock' <==> f in whole && f !in OwnFrames(view, p, lent) {}
  }

  /** With nothing lent out, teardown may free every page. */
  lemma OwnsAll(view: View, managed: set<int>, stock: set<int>, whole: set<int>, p: Frame, lent: set<Node>)
    requires Owns(view, managed, stock, whole, p, lent)
    requires forall k :: k in view && Space(k) == p ==> k !in lent
    ensures OwnLeaves(view, managed, stock, Root(p)) && stock + SpaceFrames(view, p) == whole
  {
    forall k | Below(Root(p), k) ensures Space(k) == p { SpaceIsSubtree(p, k); }
    forall j, k | j in view && k in view && Below(Root(p), j) && Below(Root(p), k) && view[j].addr == view[k].addr
      ensures j == k {
      assert SoleOwner(view, p, lent, j, k);
    }
    assert SpaceFrames(view, p) == OwnFrames(view, p, lent);
  }

  // ---------------------------------------------------------------- mapping a fresh page

  /** The request passes the checks of vmm_map_page and the page is not mapped yet. */
  ghost predicate Mappable(view: View, p: Frame, virt: nat, flags: Flags) {
    virt % 4096 == 0 && !(flags.user && flags.writable && !flags.noExecute) && Leaf(p, virt / 4096) !in view
  }

  // Map a page of a live space; three pages are enough for its tables.
  method MapHere(vm: Vmm, p: Frame, virt: nat, phys: nat, flags: Flags) returns (ok: bool)
    requires vm.Valid() && vm.Live(p) && virt < 0x8000_0000_0000
    modifies vm`tab, vm`view, vm.pm, vm.pm.ranges
    ensures vm.Valid() && SameRoots(old(vm.tab), vm.tab) && Extends(old(vm.tab), vm.tab)
    ensures !ok ==>
              vm.view == old(vm.view) && vm.tab == old(vm.tab)
              && vm.pm.free + vm.pm.lost == old(vm.pm.free + vm.pm.lost)
    ensures !ok && Mappable(old(vm.view), p, virt, flags) && phys % 4096 == 0 ==> old(vm.Room()) < 3
    ensures ok ==> virt % 4096 == 0 && phys % 4096 == 0 && Leaf(p, virt / 4096) !in old(vm.view)
    ensures ok ==> vm.view == old(vm.view)[Leaf(p, virt / 4096) := LeafEntry(phys, flags)]
    ensures ok ==> vm.pm.lost == old(vm.pm.lost) && vm.Room() >= old(vm.Room()) - 3
    ensures KeepsBytes(old(vm.pm.free), old(vm.pm.bytes), vm.pm.bytes) && old(vm.pm.lost) <= vm.pm.lost
  {
    NotKernel(vm, p);
    ok := vm.MapPage(p, virt, phys, flags);
  }

  /** Allocate a page, map it, and give it back if the mapping is refused. */
  method MapFresh(vm: Vmm, p: Frame, virt: nat, flags: Flags) returns (page: nat)
    requires vm.Valid() && vm.Live(p) && virt < 0x8000_0000_0000
    modifies vm`tab, vm`view, vm`stock, vm.pm, vm.pm.ranges
    ensures vm.Valid() && SameRoots(old(vm.tab), vm.tab) && Extends(old(vm.tab), vm.tab)
    ensures page == 0 ==> vm.view == old(vm.view) && vm.tab == old(vm.tab) && vm.stock == old(vm.stock)
    ensures page != 0 ==> page < 0x100_0000_0000 && Leaf(p, virt / 4096) !in old(vm.view)
    ensures page != 0 ==> vm.view == old(vm.view)[Leaf(p, virt / 4096) := Entry(page, flags.(present := true))]
    ensures page != 0 ==> page in vm.pm.managed && page in old(vm.stock) && vm.stock == old(vm.stock) - {page}
    ensures page != 0 ==> page in old(vm.pm.free) && vm.pm.bytes[page] == ZeroPage() && vm.pm.lost == old(vm.pm.lost)
    ensures KeepsBytes(old(vm.pm.free), old(vm.pm.bytes), vm.pm.bytes) && old(vm.pm.lost) <= vm.pm.lost
    ensures page != 0 ==> vm.Room() >= old(vm.Room()) - 4
    ensures page == 0 && Mappable(old(vm.view), p, virt, flags) ==> old(vm.Room()) < 4
  {
    page := vm.AllocFrame();
    if page == 0 { return; }
    FrameOfPage(page);
    var ok := MapHere(vm, p, virt, 4096 * page, flags);
    if !ok {
      GiveUp(vm, page, old(vm.stock));
      return 0;
    }
  }

  // Free a page that could not be mapped.
  method GiveUp(vm: Vmm, page: Frame, ghost stock0: set<int>)
    requires vm.Valid() && page in stock0 && vm.stock == stock0 - {page} && page in vm.pm.managed
    modifies vm`stock, vm.pm, vm.pm.ranges
    ensures vm.Valid() && vm.stock == stock0 && vm.pm.bytes == old(vm.pm.bytes) && old(vm.pm.lost) <= vm.pm.lost
  {
    var _ := vm.FreeFrame(page, {});
    TakenBack(stock0, page);
  }

  lemma FrameOfPage(page: nat)
    requires page < 0x100_0000_0000
    ensures 4096 * page / 4096 % 0x100_0000_0000 == page && 4096 * page % 4096 == 0
  {}

  /** A user address space is not the kernel's: its PML4 is a page of the allocator. */
  lemma NotKernel(vm: Vmm, p: Frame)
    requires vm.Valid() && vm.Live(p)
    ensures p != vm.kernelPml4
  {
    assert Placed(vm.tab, Root(p));
    assert vm.outer.pml4 in vm.outer.memory;
  }

  lemma TakenBack(s: set<int>, x: int)
    requires x in s
    ensures s - {x} + {x} == s
  {}

  // The loop that clears a new page.
  method ClearBytes(pm: PhysMem, f: Frame)
    requires pm.Valid()
    modifies pm`bytes
    ensures pm.Valid() && pm.bytes[f] == ZeroPage()
    ensures forall g: Frame :: g != f ==> pm.bytes[g] == old(pm.bytes)[g]
  {
    for b := 0 to 4096
      invariant pm.Valid() && forall g: Frame :: g != f ==> pm.bytes[g] == old(pm.bytes)[g]
      invariant forall o :: 0 <= o < b ==> pm.bytes[f][o] == 0
    {
      pm.WriteByte(f, b, 0);
    }
    assert pm.bytes[f] == ZeroPage();
  }

  // Clearing a page that is clear already changes nothing.
  lemma SameBytes(bytes: map<Frame, Page>, bytes': map<Frame, Page>, f: Frame)
    requires forall g: Frame :: g in bytes && g in bytes'
    requires (forall g: Frame :: g != f ==> bytes'[g] == bytes[g]) && bytes'[f] == bytes[f]
    ensures bytes' == bytes
  {}

  // ---------------------------------------------------------------- a whole life

  /** What can happen to a page of the address space; flags and addresses are arbitrary. */
  datatype Event = Map(virt: nat, flags: Flags) | Unmap(virt: nat) | Protect(virt: nat, flags: Flags)

  lemma PutOthers<T>(s: map<Node, T>, k: Node, e: T, p: Frame)
    requires Space(k) == p
    ensures OthersSame(s, s[k := e], p) && OthersSame(s, s - {k}, p)
  {}

  lemma OthersTrans<T>(s: map<Node, T>, s': map<Node, T>, s'': map<Node, T>, p: Frame)
    requires OthersSame(s, s', p) && OthersSame(s', s'', p)
    ensures OthersSame(s, s'', p)
  {}

  /** One event keeps ownership and does not touch other address spaces. */
  method Happen(vm: Vmm, p: Frame, ev: Event, ghost whole: set<int>)
    requires vm.Valid() && vm.Live(p) && ev.virt < 0x8000_0000_0000
    requires Owns(vm.view, vm.pm.managed, vm.stock, whole, p, {})
    modifies vm`tab, vm`view, vm`stock, vm.pm, vm.pm.ranges
    ensures vm.Valid() && vm.Live(p) && Owns(vm.view, vm.pm.managed, vm.stock, whole, p, {})
    ensures OthersSame(old(vm.view), vm.view, p) && OthersSame(old(vm.tab), vm.tab, p) && old(vm.pm.lost) <= vm.pm.lost
    ensures KeepsBytes(old(vm.stock), old(vm.pm.bytes), vm.pm.bytes)
  {
    ghost var k := Leaf(p, ev.virt / 4096);
    LeafPath(p, ev.virt / 4096);
    match ev
    case Map(virt, flags) =>
      var _ := MapOwned(vm, p, virt, flags, whole, {});
    case Unmap(virt) =>
      var _ := UnmapOwned(vm, p, virt, whole, {});
    case Protect(virt, flags) =>
      var ok := vm.SetFlags(p, virt, flags);
      if ok {
        ghost var e := Entry(old(vm.view)[k].addr, flags.(present := true));
        OwnsFlags(old(vm.view), vm.pm.managed, vm.stock, whole, p, {}, k, e);
        PutOthers(old(vm.view), k, e, p);
      }
  }

  /** Map a fresh page into a space that owns its pages; pages in `lent` must not be named. */
  method MapOwned(vm: Vmm, p: Frame, virt: nat, flags: Flags, ghost whole: set<int>, ghost lent: set<Node>)
    returns (page: nat)
    requires vm.Valid() && vm.Live(p) && virt < 0x8000_0000_0000 && Leaf(p, virt / 4096) !in lent
    requires Owns(vm.view, vm.pm.managed, vm.stock, whole, p, lent)
    modifies vm`tab, vm`view, vm`stock, vm.pm, vm.pm.ranges
    ensures vm.Valid() && vm.Live(p) && Owns(vm.view, vm.pm.managed, vm.stock, whole, p, lent)
    ensures OthersSame(old(vm.view), vm.view, p) && OthersSame(old(vm.tab), vm.tab, p)
    ensures page == 0 ==> vm.view == old(vm.view)
    ensures page == 0 && Mappable(old(vm.view), p, virt, flags) ==> old(vm.Room()) < 4
    ensures page != 0 ==> page < 0x100_0000_0000 && Leaf(p, virt / 4096) !in old(vm.view)
    ensures page != 0 ==> vm.view == old(vm.view)[Leaf(p, virt / 4096) := Entry(page, flags.(present := true))]
    ensures page != 0 ==> vm.pm.bytes[page] == ZeroPage() && vm.Room() >= old(vm.Room()) - 4
    ensures page != 0 ==> page in old(vm.stock)
    ensures KeepsBytes(old(vm.stock), old(vm.pm.bytes), vm.pm.bytes) && SameRoots(old(vm.tab), vm.tab)
            && Extends(old(vm.tab), vm.tab)
    ensures page != 0 ==> vm.pm.lost == old(vm.pm.lost)
    ensures old(vm.pm.lost) <= vm.pm.lost
  {
    ghost var k := Leaf(p, virt / 4096);
    LeafPath(p, virt / 4096);
    page := MapFresh(vm, p, virt, flags);
    if page != 0 {
      OwnsMapped(old(vm.view), vm.pm.managed, old(vm.stock), whole, p, lent, k, Entry(page, flags.(present := true)));
      PutOthers(old(vm.view), k, Entry(page, flags.(present := true)), p);
      OthersTables(old(vm.tab), old(vm.view), old(vm.pm.words), vm.tab, vm.view, vm.pm.words, vm.outer, p);
    }
  }

  /** Unmap a page and free its frame; pages in `lent` must not be named. */
  method UnmapOwned(vm: Vmm, p: Frame, virt: nat, ghost whole: set<int>, ghost lent: set<Node>) returns (ok: bool)
    requires vm.Valid() && vm.Live(p) && virt < 0x8000_0000_0000 && Leaf(p, virt / 4096) !in lent
    requires Owns(vm.view, vm.pm.managed, vm.stock, whole, p, lent)
    modifies vm`tab, vm`view, vm`stock, vm.pm, vm.pm.ranges
    ensures vm.Valid() && vm.Live(p) && Owns(vm.view, vm.pm.managed, vm.stock, whole, p, lent)
    ensures vm.view == if virt % 4096 == 0 then old(vm.view) - {Leaf(p, virt / 4096)} else old(vm.view)
    ensures OthersSame(old(vm.view), vm.view, p) && OthersSame(old(vm.tab), vm.tab, p)
    ensures ok <==> virt % 4096 == 0 && Leaf(p, virt / 4096) in old(vm.view) && vm.pm.lost == old(vm.pm.lost)
    ensures vm.pm.bytes == old(vm.pm.bytes) && old(vm.pm.lost) <= vm.pm.lost
    ensures SameRoots(old(vm.tab), vm.tab) && Extends(vm.tab, old(vm.tab))
  {
    ghost var k := Leaf(p, virt / 4096);
    LeafPath(p, virt / 4096);
    if virt % 4096 == 0 && k in vm.view {
      OwnsUnmapped(vm.view, vm.pm.managed, vm.stock, whole, p, lent, k);
      PutOthers(vm.view, k, vm.view[k], p);
    }
    ok := vm.UnmapPage(p, virt, true);
    OthersTables(old(vm.tab), old(vm.view), old(vm.pm.words), vm.tab, vm.view, vm.pm.words, vm.outer, p);
  }

  /** An address space that does not exist has no tables and no pages. */
  lemma NothingThere(tab: Tab, view: View, words: Words, p: Frame)
    requires Wf(tab, view, words) && Root(p) !in tab
    ensures forall m :: m in tab || m in view ==> Space(m) != p
  {
    forall m | m in tab || m in view ensures Space(m) != p {
      SpaceIsSubtree(p, m);
      if Below(Root(p), m) { AncestorLive(tab, view, words, Root(p), m); }
    }
  }

  lemma Restored<T>(s: map<Node, T>, s': map<Node, T>, s'': map<Node, T>, p: Frame)
    requires forall m :: m in s ==> Space(m) != p
    requires OthersSame(s, s', p) && Evicted(s', s'', p)
    ensures s'' == s
  {
    forall m ensures m in s'' <==> m in s { assert m in s'' <==> m in s' && Space(m) != p; }
    forall m | m in s ensures s''[m] == s[m] {
      assert m in s'';
      assert s''[m] == s'[m];
    }
  }

  /** Memory the allocator does not manage, the kernel's own tables among it, is the same in all valid states. */
  lemma OuterUntouched(tab: Tab, view: View, words: Words, tab': Tab, view': View, words': Words, outer: Outer,
                       f: Frame)
    requires Good(tab, view, words, outer, {}) && Good(tab', view', words', outer, {}) && f in outer.memory
    ensures words'[f] == words[f]
  {}

  /** A new address space owns its pages, of which it has none. */
  method Begin(vm: Vmm) returns (p: nat)
    requires vm.Valid()
    modifies vm`tab, vm.pm, vm.pm.ranges
    ensures vm.Valid() && vm.stock == old(vm.stock) && vm.pm.lost == old(vm.pm.lost)
            && (p == 0 <==> old(vm.Room()) == 0)
    ensures p == 0 ==> vm.tab == old(vm.tab) && vm.pm.list == old(vm.pm.list) && vm.pm.free == old(vm.pm.free)
    ensures p != 0 ==>
              vm.Live(p) && Owns(vm.view, vm.pm.managed, vm.stock, vm.stock, p, {})
              && OthersSame(old(vm.tab), vm.tab, p)
    ensures p != 0 ==> forall m :: m in old(vm.tab) || m in vm.view ==> Space(m) != p
    ensures p != 0 ==> vm.Room() == old(vm.Room()) - 1
    ensures forall f: Frame :: f !in vm.pm.managed ==> vm.pm.words[f] == old(vm.pm.words)[f]
    ensures KeepsBytes(old(vm.stock), old(vm.pm.bytes), vm.pm.bytes)
  {
    p := vm.CreateUserPml4();
    forall f: Frame | f !in vm.pm.managed ensures vm.pm.words[f] == old(vm.pm.words)[f] {
      OuterUntouched(old(vm.tab), old(vm.view), old(vm.pm.words), vm.tab, vm.view, vm.pm.words, vm.outer, f);
    }
    if p != 0 {
      NothingThere(old(vm.tab), old(vm.view), old(vm.pm.words), p);
      Newborn(old(vm.tab), vm.view, vm.pm.managed, vm.stock, p);
    }
  }

  /** Create an address space, let anything happen to it, destroy it: tables, translations and pages are as before,
      the free list is the same list unless so many pages were in use that the free-range array could be full, and
      memory outside the allocator is untouched. */
  method Life(vm: Vmm, events: seq<Event>) returns (created: bool)
    requires vm.Valid() && forall i :: 0 <= i < |events| ==> events[i].virt < 0x8000_0000_0000
    modifies vm, vm.pm, vm.pm.ranges
    ensures vm.Valid() && (created <==> old(vm.Room()) > 0)
    ensures vm.tab == old(vm.tab) && vm.view == old(vm.view) && vm.stock == old(vm.stock)
    ensures vm.pm.free + vm.pm.lost == old(vm.pm.free + vm.pm.lost)
    ensures vm.pm.lost == old(vm.pm.lost) || vm.pm.Roomy() ==> vm.pm.list == old(vm.pm.list)
    ensures forall f: Frame :: f !in vm.pm.managed ==> vm.pm.words[f] == old(vm.pm.words)[f]
  {
    ghost var was := Now(vm);
    var p := Begin(vm);
    if p == 0 { return false; }
    for i := 0 to |events|
      invariant vm.Valid() && vm.Live(p) && Owns(vm.view, vm.pm.managed, vm.stock, was.stock, p, {})
      invariant OthersSame(was.view, vm.view, p) && OthersSame(was.tab, vm.tab, p) && was.lost <= vm.pm.lost
    {
      ghost var tab1, view1 := vm.tab, vm.view;
      Happen(vm, p, events[i], was.stock);
      OthersTrans(was.view, view1, vm.view, p);
      OthersTrans(was.tab, tab1, vm.tab, p);
    }
    End(vm, p, was);
    return true;
  }

  lemma Newborn(tab: Tab, view: View, managed: set<int>, stock: set<int>, p: Frame)
    requires forall m :: m in tab || m in view ==> Space(m) != p
    ensures Owns(view, managed, stock, stock, p, {})
    ensures OthersSame(view, view, p) && OthersSame(tab, tab[Root(p) := p], p)
  {
    assert OwnFrames(view, p, {}) == {};
  }

  // Destroy the address space and compare with the state before it was created.
  method End(vm: Vmm, p: Frame, ghost was: Snap)
    requires vm.Valid() && vm.Live(p) && Owns(vm.view, vm.pm.managed, vm.stock, was.stock, p, {})
    requires OthersSame(was.view, vm.view, p) && OthersSame(was.tab, vm.tab, p) && was.lost <= vm.pm.lost
    requires Unmade(vm, p, was)
    modifies vm, vm.pm, vm.pm.ranges
    ensures vm.Valid() && vm.tab == was.tab && vm.view == was.view && vm.stock == was.stock
            && vm.pm.bytes == old(vm.pm.bytes)
    ensures vm.pm.free + vm.pm.lost == was.free + was.lost && was.lost <= vm.pm.lost
    ensures vm.pm.lost == was.lost || vm.pm.Roomy() ==> vm.pm.list == was.list
    ensures forall f: Frame :: f !in vm.pm.managed ==> vm.pm.words[f] == was.words[f]
  {
    OwnsAll(vm.view, vm.pm.managed, vm.stock, was.stock, p, {});
    var _ := vm.DestroyUserPml4(p);
    Restored(was.tab, old(vm.tab), vm.tab, p);
    Restored(was.view, old(vm.view), vm.view, p);
    SameReturned(was.list, vm.pm.list, vm.tab, vm.pm.managed, was.stock, was.free, vm.pm.free, was.lost, vm.pm.lost);
    forall f: Frame | f !in vm.pm.managed ensures vm.pm.words[f] == was.words[f] {
      OuterUntouched(was.tab, was.view, was.words, vm.tab, vm.view, vm.pm.words, vm.outer, f);
    }
  }

  /** A snapshot of a valid state in which address space `p` did not exist. */
  ghost predicate Unmade(vm: Vmm, p: Frame, was: Snap)
    reads vm, vm.pm
  {
    && (forall m :: m in was.tab || m in was.view ==> Space(m) != p)
    && Good(was.tab, was.view, was.words, vm.outer, {}) && Held(was.tab, vm.pm.managed, was.free, was.lost, was.stock)
    && Canonical(was.list) && Denotes(was.list, was.free) && was.free !! was.lost
  }
}
