/** 4-level page tables (kernel/memory.c): mapping with rollback, unmapping with pruning, teardown. */
module PageTables {
  import opened Hardware
  import opened PageTree
  import opened PhysicalMemory
  import opened FreeList

  // ---------------------------------------------------------------- virtual page numbers

  /** One past the last user page: USER_VA_LIMIT in pages. */
  const USER_PAGES := 0x8_0000_0000

  /** The index page `v` selects in a table of the given level. */
  function Index(v: int, level: int): int {
    match level
    case 4 => v / 0x800_0000 % 512
    case 3 => v / 0x4_0000 % 512
    case 2 => v / 512 % 512
    case _ => v % 512
  }

  /** The node of the page `v` below a table `n` of the given level. */
  function Under(n: Node, level: nat, v: int): Node
    decreases level
  {
    if level == 0 then n else Under(Child(n, Index(v, level)), level - 1, v)
  }

  /** The node of page `v` in the address space with PML4 `p`. */
  function Leaf(p: Frame, v: int): Node { Under(Root(p), 4, v) }

  lemma LeafPath(p: Frame, v: int)
    ensures Leaf(p, v) == Child(Child(Child(Child(Root(p), Index(v, 4)), Index(v, 3)), Index(v, 2)), Index(v, 1))
    ensures Space(Leaf(p, v)) == p
  {
    var a := Child(Root(p), Index(v, 4));
    var b := Child(a, Index(v, 3));
    var c := Child(b, Index(v, 2));
    assert Under(Root(p), 4, v) == Under(a, 3, v) == Under(b, 2, v) == Under(c, 1, v)
        == Under(Child(c, Index(v, 1)), 0, v);
    assert Space(a) == Space(Root(p)) == p;
    assert Space(b) == Space(a);
    assert Space(c) == Space(b);
    assert Space(Child(c, Index(v, 1))) == Space(c);
  }

  /** Different pages have different nodes. */
  lemma LeafInjective(p: Frame, v: int, q: Frame, w: int)
    requires 0 <= v < USER_PAGES && 0 <= w < USER_PAGES && Leaf(p, v) == Leaf(q, w)
    ensures p == q && v == w
  {
    LeafPath(p, v);
    LeafPath(q, w);
    Recompose(v);
    Recompose(w);
  }

  lemma Recompose(v: int)
    requires 0 <= v < USER_PAGES
    ensures v == Index(v, 4) * 0x800_0000 + Index(v, 3) * 0x4_0000 + Index(v, 2) * 512 + Index(v, 1)
    ensures 0 <= Index(v, 4) < 256
  {
    var a, b := v / 512, v / 0x4_0000;
    assert b == a / 512 && v / 0x800_0000 == b / 512;
  }

  lemma IndexInWidth(n: Node, v: int, level: int)
    requires 0 <= v < USER_PAGES && Level(n) == level && 1 <= level <= 4
    ensures 0 <= Index(v, level) < Width(n)
  {
    Recompose(v);
    assert n.Child? ==> Level(n) == Level(n.up) - 1;
  }

  lemma UnderIsChild(n: Node, level: nat, v: int)
    requires level >= 1
    ensures Under(n, level, v).Child? && Under(n, level, v).at == Index(v, 1)
    decreases level
  {
    if level > 1 { UnderIsChild(Child(n, Index(v, level)), level - 1, v); }
    else { assert Under(n, 1, v) == Under(Child(n, Index(v, 1)), 0, v); }
  }

  /** Below a node that is not live there is no page table and no page. */
  lemma UnderAbsent(tab: Tab, view: View, words: Words, n: Node, level: nat, v: int)
    requires Wf(tab, view, words) && n !in tab && level >= 1
    ensures Under(n, level, v).Child? && Under(n, level, v).up !in tab && Under(n, level, v) !in view
    decreases level
  {
    UnderIsChild(n, level, v);
    if level > 1 {
      NoOrphan(tab, n, Index(v, level));
      UnderAbsent(tab, view, words, Child(n, Index(v, level)), level - 1, v);
    } else {
      assert Under(n, 1, v) == Under(Child(n, Index(v, 1)), 0, v) == Child(n, Index(v, 1));
    }
  }

  /** How many tables below `n` are missing on the way to page `v`. */
  function Missing(tab: set<Node>, n: Node, level: nat, v: int): (m: nat)
    ensures m == 0 || m < level
    decreases level
  {
    if level <= 1 then 0
    else if Child(n, Index(v, level)) in tab then Missing(tab, Child(n, Index(v, level)), level - 1, v)
    else level - 1
  }

  /** One step down keeps the balance of free pages and missing tables. */
  lemma RoomStep(tab: set<Node>, room: int, tab': set<Node>, room': int, n: Node, level: nat, v: int)
    requires level > 1
    requires var c := Child(n, Index(v, level));
             if c in tab then tab' == tab && room' == room
             else tab' == tab + {c} && Child(c, Index(v, level - 1)) !in tab' && room' == room - 1
    ensures room' - Missing(tab', Child(n, Index(v, level)), level - 1, v) == room - Missing(tab, n, level, v)
  {
    var c := Child(n, Index(v, level));
    if c !in tab {
      assert Missing(tab', c, level - 1, v) == if level - 1 <= 1 then 0 else level - 2;
    }
  }

  /** Only frames that were free may have changed contents. */
  ghost predicate KeepsBytes(free: set<int>, bytes: map<Frame, Page>, bytes': map<Frame, Page>) {
    forall f: Frame :: f !in free && f in bytes ==> f in bytes' && bytes'[f] == bytes[f]
  }

  /** The argument checks of vmm_map_page. Addresses are bytes; the PML4 is named by its page number, 0 for none. */
  predicate MapChecks(kernel: Frame, pml4: nat, virt: nat, phys: nat, flags: Flags) {
    && pml4 != 0 && virt % 4096 == 0 && phys % 4096 == 0
    && (virt / 0x8000_0000_0000 == 0 || virt / 0x8000_0000_0000 == 0x1_FFFF)
    && !(pml4 == kernel && flags.user)
    && !(flags.user && virt >= 0x8000_0000_0000)
    && !(flags.user && flags.writable && !flags.noExecute)
  }

  /** The entry vmm_map_page stores: the address field is cut to 52 bits. */
  function LeafEntry(phys: nat, flags: Flags): Entry {
    Entry(phys / 4096 % 0x100_0000_0000, flags.(present := true))
  }

  /** Releasing a page that is not a table, on a stock that then includes it if it is managed. */
  lemma HeldReleased(tab: Tab, managed: set<int>, free: set<int>, lost: set<int>, stock: set<int>, page: int)
    requires Held(tab, managed, free, lost, stock) && page !in Frames(tab) && page !in lost
    ensures page in managed && page !in free ==> Held(tab, managed, free + {page}, lost, stock + {page})
    ensures page in managed && page !in free ==> Held(tab, managed, free, lost + {page}, stock + {page})
    ensures page in free ==> stock + {page} == stock
  {
    forall n | n in tab ensures tab[n] != page { assert tab[n] in Frames(tab); }
  }

  lemma AvailIsStock(tab: Tab, managed: set<int>, free: set<int>, lost: set<int>, stock: set<int>)
    requires Held(tab, managed, free, lost, stock)
    ensures free + lost == stock - Frames(tab)
  {}

  /** The flags of an entry that points to a lower table. */
  function TableFlags(user: bool): Flags { Flags(true, true, user, false, false, 0) }

  ghost predicate Unmanaged(memory: Words, managed: set<int>) {
    forall f: Frame {:trigger f in memory} :: f in memory <==> f !in managed
  }

  /** Every table frame is managed memory that is neither free nor lost. The stock is what has been given
      back (the free list, and pages refused because it was full) together with the table frames. */
  ghost predicate Held(tab: Tab, managed: set<int>, free: set<int>, lost: set<int>, stock: set<int>) {
    && (forall n {:trigger tab[n]} :: n in tab ==> tab[n] in managed && tab[n] !in free && tab[n] !in lost)
    && stock == free + lost + Frames(tab)
  }

  lemma HeldAdded(tab: Tab, managed: set<int>, free: set<int>, lost: set<int>, stock: set<int>, c: Node, f: Frame)
    requires Held(tab, managed, free, lost, stock) && c !in tab && f in free && f in managed && f !in lost
    ensures Held(tab[c := f], managed, free - {f}, lost, stock)
    ensures f !in tab.Values
  {
    FramesAdded(tab, c, f);
    assert forall n :: n in tab ==> tab[n] != f;
  }

  lemma ExtendsOn(a: Tab, b: Tab, c: Tab)
    requires Extends(a, b) && Extends(b, c) && SameRoots(a, b) && SameRoots(b, c)
    ensures Extends(a, c) && SameRoots(a, c)
  {}

  /** How a mapping may change table entries outside the pages that were free: an entry that is present keeps its value
      or gets the user bit, for a user mapping; with `closed` no entry becomes present. */
  ghost predicate Soft(free: set<int>, words: Words, words': Words, user: bool, closed: bool) {
    forall f: Frame, i {:trigger SoftAt(words, words', user, closed, f, i)} :: f !in free && 0 <= i < 512 ==>
      SoftAt(words, words', user, closed, f, i)
  }

  ghost predicate SoftAt(words: Words, words': Words, user: bool, closed: bool, f: Frame, i: int) {
    f in words && f in words' && 0 <= i < 512 ==>
      if words[f][i].bits.present then words'[f][i] == words[f][i] || (user && words'[f][i] == Raised(words[f][i]))
      else closed ==> !words'[f][i].bits.present
  }

  lemma SoftSame(free: set<int>, words: Words, user: bool, closed: bool)
    ensures Soft(free, words, words, user, closed)
  {}

  lemma SoftPut(free: set<int>, words: Words, f: Frame, i: int, e: Entry, user: bool)
    requires f in words && 0 <= i < 512 && !words[f][i].bits.present
    ensures Soft(free, words, Put(words, f, i, e), user, false)
  {}

  /** One step down: the entry of table `f` was linked to a new table, or got the user bit. */
  ghost predicate SteppedDown(free0: set<int>, words0: Words, free: set<int>, words: Words, f: Frame, i: int,
                              child: nat,
                              user: bool, built: bool)
  {
    && 0 <= i < 512 && child < 0x100_0000_0000 && f in words0 && f !in free0 && free <= free0
    && if built then
         && child in free0 && !words0[f][i].bits.present
         && words == Put(words0[child := ZeroTable()], f, i, Entry(child, TableFlags(user)))
       else
         words == words0 || (user && words0[f][i].bits.present && words == Put(words0, f, i, Raised(words0[f][i])))
  }

  /** What happened below, after one step down. */
  lemma SoftLinked(free0: set<int>, words0: Words, free1: set<int>, words1: Words, words2: Words, f: Frame, i: int,
                   child: Frame,
                   user: bool, built: bool, closed: bool, closed': bool)
    requires SteppedDown(free0, words0, free1, words1, f, i, child, user, built)
             && Soft(free1, words1, words2, user, closed)
    requires (forall g: Frame :: g in words1) && f in words2 && closed' == (closed && !built)
    ensures Soft(free0, words0, words2, user, closed')
    ensures built ==> Soft(free0, words0, Put(words2, f, i, NO_ENTRY), user, closed)
  {
    forall g: Frame, j | g !in free0 && 0 <= j < 512
      ensures SoftAt(words0, words2, user, closed', g, j)
      ensures built ==> SoftAt(words0, Put(words2, f, i, NO_ENTRY), user, closed, g, j)
    {
      assert SoftAt(words1, words2, user, closed, g, j);
    }
  }

  /** A page that was free becomes an empty child table. */
  lemma TableBuilt(tab: Tab, view: View, words: Words, outer: Outer, spare: set<Node>, n: Node, i: int, f: Frame,
                   user: bool,
                   managed: set<int>, free: set<int>, lost: set<int>, stock: set<int>)
    requires Good(tab, view, words, outer, spare) && Held(tab, managed, free, lost, stock)
             && Unmanaged(outer.memory, managed)
    requires n in tab && Level(n) > 1 && 0 <= i < Width(n) && Child(n, i) !in tab
    requires f != 0 && f in free && free <= managed && free !! lost
    ensures var tab', words' := tab[Child(n, i) := f], words[f := ZeroTable()];
            && Good(tab', view, Put(words', tab[n], i, Entry(f, TableFlags(user))), outer, spare - {n} + {Child(n, i)})
            && Held(tab', managed, free - {f}, lost, stock) && !Occupied(tab', view, Child(n, i))
  {
    var words' := words[f := ZeroTable()];
    HeldAdded(tab, managed, free, lost, stock, Child(n, i), f);
    Elsewhere(tab, view, words, words', outer, spare);
    GoodAdded(tab, view, words', outer, spare, n, i, f, Entry(f, TableFlags(user)));
    Unborn(tab, view, words', Child(n, i), f);
  }

  lemma NotFreeYet(tab: Tab, managed: set<int>, free: set<int>, lost: set<int>, stock: set<int>, c: Node)
    requires Held(tab, managed, free, lost, stock) && c in tab
    ensures tab[c] in managed && tab[c] !in free && tab[c] !in lost
  {}

  /** A table is taken out of the tree, and its page goes on the free list or is lost. */
  lemma HeldMoved(tab: Tab, managed: set<int>, free: set<int>, lost: set<int>, free': set<int>, lost': set<int>,
                  stock: set<int>, c: Node)
    requires Shape(tab) && Held(tab, managed, free, lost, stock) && c in tab
    requires (free' == free + {tab[c]} && lost' == lost) || (free' == free && lost' == lost + {tab[c]})
    ensures Held(tab - {c}, managed, free', lost', stock)
  {
    HeldRemoved(tab, managed, free, lost, stock, c);
  }

  lemma HeldRemoved(tab: Tab, managed: set<int>, free: set<int>, lost: set<int>, stock: set<int>, c: Node)
    requires Shape(tab) && Held(tab, managed, free, lost, stock) && c in tab
    ensures Held(tab - {c}, managed, free + {tab[c]}, lost, stock)
    ensures Held(tab - {c}, managed, free, lost + {tab[c]}, stock)
    ensures tab[c] in managed && tab[c] !in free && tab[c] !in lost
  {
    FramesRemoved(tab, c);
    forall n | n in tab && n != c ensures tab[n] != tab[c] { OtherFrame(tab, n, c); }
  }

  class Vmm {
    const pm: PhysMem
    const kernelPml4: Frame
    ghost const outer: Outer
    var cr3: Frame
    ghost var tab: Tab
    ghost var view: View
    ghost var stock: set<int>

    ghost predicate Core(spare: set<Node>)
      reads this, pm, pm.ranges
    {
      && pm.Valid() && kernelPml4 != 0 && outer.pml4 == kernelPml4 && Unmanaged(outer.memory, pm.managed)
      && Good(tab, view, pm.words, outer, spare)
      && Held(tab, pm.managed, pm.free, pm.lost, stock)
    }

    ghost predicate Valid()
      reads this, pm, pm.ranges
    {
      Core({})
    }

    /** After boot there is no user address space; the kernel's own tables lie outside managed memory. */
    constructor (pm: PhysMem, kernel: Frame)
      requires pm.Valid() && kernel != 0 && kernel !in pm.managed
      ensures Valid() && this.pm == pm && kernelPml4 == kernel && cr3 == kernel && tab == map[] && view == map[]
    {
      this.pm, kernelPml4, cr3, tab, view, stock := pm, kernel, kernel, map[], map[], pm.free + pm.lost;
      outer := Outer(kernel, map f: Frame | f in pm.words && f !in pm.managed :: pm.words[f]);
    }

    /** Pages an allocation can still draw on. */
    ghost function Room(): int
      reads pm
    {
      pm.totalUsable - pm.inUse
    }

    // A page from the allocator; 0 when none is left.
    method NextPage() returns (page: nat)
      requires pm.Valid()
      modifies pm, pm.ranges
      ensures pm.Valid() && pm.lost == old(pm.lost) && (page == 0 <==> old(Room()) == 0)
      ensures page == 0 ==>
                pm.free == old(pm.free) && pm.words == old(pm.words) && pm.bytes == old(pm.bytes)
                && Room() == old(Room())
      ensures page != 0 ==>
                page in old(pm.free) && pm.free == old(pm.free) - {page} && page < 0x100_0000_0000
                && Room() == old(Room()) - 1
      ensures page != 0 ==> pm.words == old(pm.words)[page := ZeroTable()]
      ensures KeepsBytes(old(pm.free), old(pm.bytes), pm.bytes)
    {
      page := pm.AllocPage();
    }

    // Build an empty child table; 0 when no page is left.
    method Build(f: Frame, i: int, user: bool, ghost n: Node, ghost spare: set<Node>) returns (child: nat)
      requires Core(spare) && n in tab && tab[n] == f && Level(n) > 1 && 0 <= i < Width(n) && Child(n, i) !in tab
      modifies `tab, pm, pm.ranges
      ensures pm.lost == old(pm.lost) && pm.free <= old(pm.free) && KeepsBytes(old(pm.free), old(pm.bytes), pm.bytes)
      ensures child == 0 <==> old(Room()) == 0
      ensures child == 0 ==> Core(spare) && tab == old(tab) && Room() == old(Room()) && pm.words == old(pm.words)
      ensures child != 0 ==> SteppedDown(old(pm.free), old(pm.words), pm.free, pm.words, f, i, child, user, true)
      ensures child != 0 ==> Core(spare - {n} + {Child(n, i)}) && Room() == old(Room()) - 1
      ensures child != 0 ==>
                child < 0x100_0000_0000 && tab == old(tab)[Child(n, i) := child] && !Occupied(tab, view, Child(n, i))
    {
      assert Slot(tab, pm.words, n, i) && f !in pm.free;
      child := NextPage();
      if child == 0 { return; }
      TableBuilt(tab, view, old(pm.words), outer, spare, n, i, child, user, pm.managed, old(pm.free), pm.lost, stock);
      pm.WriteWord(f, i, Entry(child, TableFlags(user)));
      tab := tab[Child(n, i) := child];
    }

    // One level of vmm_map_page: find the child table, or build an empty one.
    method Descend(f: Frame, i: int, user: bool, ghost n: Node, ghost spare: set<Node>)
      returns (child: nat, built: bool)
      requires Core(spare) && n in tab && tab[n] == f && Level(n) > 1 && 0 <= i < Width(n)
      modifies `tab, pm, pm.ranges
      ensures pm.lost == old(pm.lost) && Extends(old(tab), tab)
      ensures child == 0 ==> !built && Core(spare) && pm.words == old(pm.words)
      ensures child != 0 ==> SteppedDown(old(pm.free), old(pm.words), pm.free, pm.words, f, i, child, user, built)
      ensures child == 0 <==> Child(n, i) !in old(tab) && old(Room()) == 0
      ensures Room() == if built then old(Room()) - 1 else old(Room())
      ensures pm.free <= old(pm.free)
      ensures KeepsBytes(old(pm.free), old(pm.bytes), pm.bytes)
      ensures child != 0 ==> Child(n, i) in tab && tab[Child(n, i)] == child
      ensures child != 0 ==> Core(if built then spare - {n} + {Child(n, i)} else spare - {n})
      ensures built ==>
                Child(n, i) !in old(tab) && tab == old(tab)[Child(n, i) := child] && !Occupied(tab, view, Child(n, i))
      ensures !built ==> tab == old(tab)
    {
      assert Slot(tab, pm.words, n, i);
      var e := pm.words[f][i];
      if !e.bits.present {
        child := Build(f, i, user, n, spare);
        built := child != 0;
      } else {
        GoodRaised(tab, view, pm.words, outer, spare, n, i, e);
        if user {
          GoodRaised(tab, view, pm.words, outer, spare, n, i, Raised(e));
          pm.WriteWord(f, i, Raised(e));
        }
        child, built := e.addr, false;
      }
    }

    // Clear an entry that points to an empty table and give the table's page back.
    method Unhook(f: Frame, i: int, c: Frame, ghost n: Node, ghost spare: set<Node>) returns (ok: bool)
      requires Core(spare) && n in tab && tab[n] == f && Level(n) > 1 && 0 <= i < Width(n)
      requires Child(n, i) in tab && tab[Child(n, i)] == c && !Occupied(tab, view, Child(n, i))
      modifies `tab, pm, pm.ranges
      ensures Core(spare - {Child(n, i)} + {n})
      ensures tab == old(tab) - {Child(n, i)} && pm.words == Put(old(pm.words), f, i, NO_ENTRY)
      ensures old(pm.lost) <= pm.lost && pm.bytes == old(pm.bytes)
      ensures ok <==> pm.lost == old(pm.lost)
    {
      GoodRemoved(tab, view, pm.words, outer, spare, n, i);
      ghost var free, lost := pm.free, pm.lost;
      NotFreeYet(tab, pm.managed, free, lost, stock, Child(n, i));
      ok := pm.ClearAndGiveBack(f, i, c);
      HeldMoved(tab, pm.managed, free, lost, pm.free, pm.lost, stock, Child(n, i));
      tab := tab - {Child(n, i)};
    }

    // Store a page-table entry.
    method SetLeaf(f: Frame, i: int, e: Entry, ghost n: Node, ghost spare: set<Node>)
      requires Core(spare) && n in tab && tab[n] == f && Level(n) == 1 && 0 <= i < 512
      requires e.bits.present && (e.bits.user && e.bits.writable ==> e.bits.noExecute)
      modifies `view, pm`words
      ensures Core(spare - {n}) && view == old(view)[Child(n, i) := e] && pm.words == Put(old(pm.words), f, i, e)
    {
      GoodLeafPut(tab, view, pm.words, outer, spare, n, i, e);
      pm.WriteWord(f, i, e);
      view := view[Child(n, i) := e];
    }

    // The last step of vmm_map_page: the page-table entry must be free.
    method MapLeaf(f: Frame, i: int, e: Entry, ghost n: Node) returns (ok: bool)
      requires Core({n}) && n in tab && tab[n] == f && Level(n) == 1 && 0 <= i < 512
      requires e.bits.present && (e.bits.user && e.bits.writable ==> e.bits.noExecute)
      modifies `view, pm`words
      ensures ok <==> Child(n, i) !in old(view)
      ensures ok ==> Core({}) && view == old(view)[Child(n, i) := e]
      ensures !ok ==> Core({n}) && view == old(view)
      ensures Soft(old(pm.free), old(pm.words), pm.words, e.bits.user, !ok)
    {
      SoftSame(pm.free, pm.words, e.bits.user, true);
      assert Cell(tab, view, pm.words, n, i);
      ok := !pm.words[f][i].bits.present;
      if ok {
        SoftPut(pm.free, pm.words, f, i, e, e.bits.user);
        SetLeaf(f, i, e, n, {n});
      }
    }

    // The rollback of vmm_map_page at one level: a table built for a mapping that failed is taken back.
    method Undo(f: Frame, i: int, c: Frame, built: bool, ghost n: Node, ghost before: Tab)
      requires Core({Child(n, i)}) && n in tab && tab[n] == f && Level(n) > 1 && 0 <= i < Width(n)
      requires if built then Child(n, i) !in before && tab == before[Child(n, i) := c]
               && !Occupied(tab, view, Child(n, i))
               else tab == before && Pruned(tab, view, {n})
      modifies `tab, pm, pm.ranges
      ensures Core({n}) && tab == before && old(pm.lost) <= pm.lost && pm.bytes == old(pm.bytes)
      ensures pm.words == if built then Put(old(pm.words), f, i, NO_ENTRY) else old(pm.words)
    {
      if built {
        var _ := Unhook(f, i, c, n, {Child(n, i)});
        assert before[Child(n, i) := c] - {Child(n, i)} == before;
        assert {Child(n, i)} - {Child(n, i)} + {n} == {n};
      }
    }

    // vmm_map_page in the page table of page `v`.
    method MapLast(f: Frame, v: int, e: Entry, ghost n: Node) returns (ok: bool)
      requires Core({n}) && n in tab && tab[n] == f && Level(n) == 1 && 0 <= v < USER_PAGES
      requires e.bits.present && (e.bits.user && e.bits.writable ==> e.bits.noExecute)
      modifies `view, pm`words
      ensures ok <==> Under(n, 1, v) !in old(view)
      ensures ok ==> Core({}) && view == old(view)[Under(n, 1, v) := e]
      ensures !ok ==> Core({n}) && view == old(view)
      ensures Soft(old(pm.free), old(pm.words), pm.words, e.bits.user, !ok)
    {
      IndexInWidth(n, v, 1);
      assert Under(n, 1, v) == Under(Child(n, Index(v, 1)), 0, v);
      ok := MapLeaf(f, Index(v, 1), e, n);
    }

    // One level of vmm_map_page on the way to page `v`: afterwards the tables still missing are those below.
    method DescendFor(f: Frame, level: nat, v: int, i: int, user: bool, ghost n: Node) returns (child: nat, built: bool)
      requires Core({n}) && n in tab && tab[n] == f && Level(n) == level && 1 < level <= 4 && 0 <= v < USER_PAGES
               && i == Index(v, level)
      modifies `tab, pm, pm.ranges
      ensures 0 <= i < Width(n) && pm.lost == old(pm.lost) && pm.free <= old(pm.free)
              && KeepsBytes(old(pm.free), old(pm.bytes), pm.bytes)
      ensures child == 0 ==> Core({n}) && tab == old(tab) && Missing(old(tab).Keys, n, level, v) > old(Room())
      ensures child == 0 ==> pm.words == old(pm.words)
      ensures child != 0 ==> SteppedDown(old(pm.free), old(pm.words), pm.free, pm.words, f, i, child, user, built)
      ensures child != 0 ==> Core({Child(n, i)}) && Child(n, i) in tab && tab[Child(n, i)] == child
      ensures Extends(old(tab), tab) && SameRoots(old(tab), tab)
      ensures child != 0 ==>
                Room() - Missing(tab.Keys, Child(n, i), level - 1, v)
                == old(Room()) - Missing(old(tab).Keys, n, level, v)
      ensures built ==>
                child != 0 && Child(n, i) !in old(tab) && tab == old(tab)[Child(n, i) := child]
                && !Occupied(tab, view, Child(n, i))
      ensures !built ==> tab == old(tab)
    {
      IndexInWidth(n, v, level);
      child, built := Descend(f, i, user, n, {n});
      if child == 0 { return; }
      assert built ==> !Kid(tab, view, Child(n, i), Index(v, level - 1));
      RoomStep(old(tab).Keys, old(Room()), tab.Keys, Room(), n, level, v);
    }

    /** The outcome of mapping page `v` below table `n`. */
    twostate predicate MapOutcome(ok: bool, level: nat, v: int, e: Entry, n: Node)
      reads this, pm, pm.ranges
    {
      && (ok <==> Under(n, level, v) !in old(view) && Missing(old(tab).Keys, n, level, v) <= old(Room()))
      && old(pm.lost) <= pm.lost && KeepsBytes(old(pm.free), old(pm.bytes), pm.bytes)
      && Soft(old(pm.free), old(pm.words), pm.words, e.bits.user, !ok)
      && (if ok then
            && Core({}) && Extends(old(tab), tab) && SameRoots(old(tab), tab) && pm.lost == old(pm.lost)
            && Room() == old(Room()) - Missing(old(tab).Keys, n, level, v)
            && view == old(view)[Under(n, level, v) := e]
          else
            Core({n}) && view == old(view) && tab == old(tab))
    }

    // vmm_map_page below one table.
    method MapBelow(f: Frame, level: nat, v: int, e: Entry, ghost n: Node) returns (ok: bool)
      requires Core({n}) && n in tab && tab[n] == f && Level(n) == level && 1 <= level <= 4 && 0 <= v < USER_PAGES
      requires e.bits.present && (e.bits.user && e.bits.writable ==> e.bits.noExecute)
      modifies `tab, `view, pm, pm.ranges
      ensures MapOutcome(ok, level, v, e, n)
      decreases level, 2
    {
      if level == 1 {
        ok := MapLast(f, v, e, n);
      } else {
        ok := MapDeep(f, level, v, e, n);
      }
    }

    // Descend one level, map, and take back a table built in vain.
    method MapDeep(f: Frame, level: nat, v: int, e: Entry, ghost n: Node) returns (ok: bool)
      requires Core({n}) && n in tab && tab[n] == f && Level(n) == level && 1 < level <= 4 && 0 <= v < USER_PAGES
      requires e.bits.present && (e.bits.user && e.bits.writable ==> e.bits.noExecute)
      modifies `tab, `view, pm, pm.ranges
      ensures MapOutcome(ok, level, v, e, n)
      decreases level, 1
    {
      var i := Index(v, level);
      var child, built := DescendFor(f, level, v, i, e.bits.user, n);
      SoftSame(old(pm.free), old(pm.words), e.bits.user, true);
      ok := false;
      if child != 0 {
        ghost var mid, free, words, below := tab, pm.free, pm.words, pm.words;
        ok, below := MapChild(f, level, v, e, i, child, built, n, old(tab), Under(n, level, v),
                              Missing(tab.Keys, Child(n, i), level - 1, v));
        if ok { ExtendsOn(old(tab), mid, tab); }
        SoftLinked(old(pm.free), old(pm.words), free, words, below, f, i, child, e.bits.user, built, !ok, !ok
                   && !built);
      }
    }

    // Map below a child table that was found, or built since the tables were `before`; take it back if that fails.
    method MapChild(f: Frame, level: nat, v: int, e: Entry, i: int, child: Frame, built: bool, ghost n: Node,
                    ghost before: Tab, ghost k: Node, ghost rest: int)
      returns (ok: bool, ghost below: Words)
      requires n in tab && tab[n] == f && Level(n) == level && 1 < level <= 4 && 0 <= v < USER_PAGES
               && i == Index(v, level)
      requires k == Under(n, level, v) && rest == Missing(tab.Keys, Child(n, i), level - 1, v)
      requires 0 <= i < Width(n) && Core({Child(n, i)}) && Child(n, i) in tab && tab[Child(n, i)] == child
      requires e.bits.present && (e.bits.user && e.bits.writable ==> e.bits.noExecute)
      requires Pruned(before, view, {n})
      requires if built then Child(n, i) !in before && tab == before[Child(n, i) := child]
               && !Occupied(tab, view, Child(n, i))
               else tab == before
      modifies `tab, `view, pm, pm.ranges
      ensures Soft(old(pm.free), old(pm.words), below, e.bits.user, !ok) && f in below
      ensures ok || !built ==> pm.words == below
      ensures !ok && built ==> pm.words == Put(below, f, i, NO_ENTRY)
      ensures ok <==> k !in old(view) && rest <= old(Room())
      ensures old(pm.lost) <= pm.lost && KeepsBytes(old(pm.free), old(pm.bytes), pm.bytes)
      ensures ok ==> Core({}) && Extends(old(tab), tab) && SameRoots(old(tab), tab) && pm.lost == old(pm.lost)
      ensures ok ==> Room() == old(Room()) - rest && view == old(view)[k := e]
      ensures !ok ==> Core({n}) && view == old(view) && tab == before
      decreases level, 0
    {
      ok := MapBelow(child, level - 1, v, e, Child(n, i));
      below := pm.words;
      if !ok { Undo(f, i, child, built, n, before); }
    }

    /** A user address space that exists. */
    ghost predicate Live(pml4: int)
      reads this
    {
      0 < pml4 < 0x100_0000_0000 && Root(pml4) in tab
    }

    /** Map one page of a user address space. The mapping is made exactly when the checks pass, the page is not
        mapped yet and the missing tables can be allocated; a refused request changes no translation and no page. */
    method MapPage(pml4: nat, virt: nat, phys: nat, flags: Flags) returns (ok: bool)
      requires Valid() && (pml4 == 0 || Live(pml4) || (pml4 == kernelPml4 && flags.user))
      requires flags.user || virt < 0x8000_0000_0000
      modifies `tab, `view, pm, pm.ranges
      ensures Valid()
      ensures ok ==> MapChecks(kernelPml4, pml4, virt, phys, flags) && Live(pml4)
      ensures Live(pml4) && MapChecks(kernelPml4, pml4, virt, phys, flags) ==>
                (ok <==> Leaf(pml4, virt / 4096) !in old(view)
                         && Missing(old(tab).Keys, Root(pml4), 4, virt / 4096) <= old(Room()))
      ensures ok ==> view == old(view)[Leaf(pml4, virt / 4096) := LeafEntry(phys, flags)]
      ensures ok ==> Extends(old(tab), tab) && SameRoots(old(tab), tab) && pm.lost == old(pm.lost)
      ensures ok ==> Room() == old(Room()) - Missing(old(tab).Keys, Root(pml4), 4, virt / 4096)
      ensures !ok ==> view == old(view) && tab == old(tab) && pm.free + pm.lost == old(pm.free + pm.lost)
      ensures !ok && pm.lost == old(pm.lost) ==> pm.list == old(pm.list)
      ensures old(pm.lost) <= pm.lost && KeepsBytes(old(pm.free), old(pm.bytes), pm.bytes)
      ensures Soft(old(pm.free), old(pm.words), pm.words, flags.user, !ok)
    {
      SoftSame(pm.free, pm.words, flags.user, true);
      if pml4 == 0 || virt % 4096 != 0 || phys % 4096 != 0 { return false; }
      if virt / 0x8000_0000_0000 != 0 && virt / 0x8000_0000_0000 != 0x1_FFFF { return false; }
      if pml4 == kernelPml4 && flags.user { return false; }
      if flags.user && virt >= 0x8000_0000_0000 { return false; }
      if flags.user && flags.writable && !flags.noExecute { return false; }
      assert Placed(tab, Root(pml4));
      AvailIsStock(tab, pm.managed, pm.free, pm.lost, stock);
      ok := MapBelow(pml4, 4, virt / 4096, LeafEntry(phys, flags), Root(pml4));
      if !ok {
        AvailIsStock(tab, pm.managed, pm.free, pm.lost, stock);
        SameList(old(pm.list), pm.list, old(pm.free), pm.free, pm.lost);
      }
    }

    // The walk of vmm_get_pt: the page table that translates page `v`, 0 when there is none.
    method WalkBelow(f: Frame, level: nat, v: int, ghost n: Node) returns (pt: nat)
      requires Valid() && n in tab && tab[n] == f && Level(n) == level && 1 <= level <= 4 && 0 <= v < USER_PAGES
      ensures Under(n, level, v).Child?
      ensures pt == 0 <==> Under(n, level, v).up !in tab
      ensures pt != 0 ==> tab[Under(n, level, v).up] == pt && Level(Under(n, level, v).up) == 1
      decreases level
    {
      UnderIsChild(n, level, v);
      var i := Index(v, level);
      IndexInWidth(n, v, level);
      if level == 1 {
        assert Under(n, 1, v) == Under(Child(n, i), 0, v) == Child(n, i);
        return f;
      }
      assert Slot(tab, pm.words, n, i);
      var e := pm.words[f][i];
      if !e.bits.present || e.bits.huge {
        UnderAbsent(tab, view, pm.words, Child(n, i), level - 1, v);
        return 0;
      }
      pt := WalkBelow(e.addr, level - 1, v, Child(n, i));
    }

    /** vmm_get_page_flags: the entry of page `v`, all zero when it is not mapped. */
    method GetEntry(p: Frame, v: int) returns (e: Entry)
      requires Valid() && Live(p) && 0 <= v < USER_PAGES
      ensures e == Lookup(p, v) && (e.bits.present <==> Leaf(p, v) in view)
    {
      assert Placed(tab, Root(p));
      var pt := WalkBelow(p, 4, v, Root(p));
      UnderIsChild(Root(p), 4, v);
      if pt == 0 { return NO_ENTRY; }
      assert Cell(tab, view, pm.words, Leaf(p, v).up, Index(v, 1));
      e := pm.words[pt][Index(v, 1)];
    }

    ghost function Lookup(p: Frame, v: int): Entry
      reads this
    {
      if Leaf(p, v) in view then view[Leaf(p, v)] else NO_ENTRY
    }

    /** Change the flags of a mapped page; the frame stays (vmm_set_page_flags). */
    method SetFlags(pml4: nat, virt: nat, flags: Flags) returns (ok: bool)
      requires Valid() && (pml4 == 0 || Live(pml4) || (pml4 == kernelPml4 && flags.user))
      requires flags.user || virt < 0x8000_0000_0000
      modifies `view, pm`words
      ensures Valid()
      ensures ok <==> && pml4 != 0 && virt % 4096 == 0 && !(pml4 == kernelPml4 && flags.user)
                      && virt < 0x8000_0000_0000 && !(flags.user && flags.writable && !flags.noExecute)
                      && Leaf(pml4, virt / 4096) in old(view)
      ensures ok ==> view == old(view)[Leaf(pml4, virt / 4096) :=
                       Entry(old(view)[Leaf(pml4, virt / 4096)].addr, flags.(present := true))]
      ensures !ok ==> view == old(view)
    {
      if pml4 == 0 || virt % 4096 != 0 { return false; }
      if pml4 == kernelPml4 && flags.user { return false; }
      if flags.user && virt >= 0x8000_0000_0000 { return false; }
      if flags.user && flags.writable && !flags.noExecute { return false; }
      var v := virt / 4096;
      assert Placed(tab, Root(pml4));
      var pt := WalkBelow(pml4, 4, v, Root(pml4));
      if pt == 0 { return false; }
      ghost var n := Leaf(pml4, v).up;
      UnderIsChild(Root(pml4), 4, v);
      assert Cell(tab, view, pm.words, n, Index(v, 1));
      var e := pm.words[pt][Index(v, 1)];
      if !e.bits.present { return false; }
      SetLeaf(pt, Index(v, 1), Entry(e.addr, flags.(present := true)), n, {});
      return true;
    }

    // table_empty
    method TableEmpty(f: Frame, ghost n: Node) returns (empty: bool)
      requires pm.Valid() && Wf(tab, view, pm.words) && n in tab && n.Child? && tab[n] == f
      ensures empty <==> !Occupied(tab, view, n)
    {
      OccupiedIsPresent(tab, view, pm.words, n);
      for i := 0 to 512
        invariant forall j :: 0 <= j < i ==> !Ent(pm.words, f, j).bits.present
      {
        if pm.words[f][i].bits.present {
          assert Ent(pm.words, f, i).bits.present;
          return false;
        }
      }
      return true;
    }

    /** What is given back when page frame `page` is freed: the page itself if the allocator manages it. */
    ghost function Returned(page: int): set<int> { if page in pm.managed then {page} else {} }

    // Free the frame of an unmapped page.
    method FreeFrame(page: Frame, ghost spare: set<Node>) returns (ok: bool)
      requires Core(spare) && page !in Frames(tab) && page !in pm.lost
      modifies `stock, pm, pm.ranges
      ensures Core(spare) && stock == old(stock) + Returned(page)
      ensures old(pm.lost) <= pm.lost && pm.bytes == old(pm.bytes) && pm.words == old(pm.words)
      ensures ok <==> page in pm.managed && page !in old(pm.free) && pm.lost == old(pm.lost)
      ensures ok <==> page in pm.managed && page !in old(pm.free) && old(pm.count) < MAX_FREE_RANGES
      ensures ok ==> Room() == old(Room()) + 1
    {
      HeldReleased(tab, pm.managed, pm.free, pm.lost, stock, page);
      stock := stock + Returned(page);
      ok := pm.FreePage(page);
      assert old(pm.lost) - {page} == old(pm.lost);
    }

    // Clear a page-table entry.
    method ClearLeaf(f: Frame, i: int, ghost n: Node, ghost spare: set<Node>)
      requires Core(spare) && n in tab && tab[n] == f && Level(n) == 1 && 0 <= i < 512
      modifies `view, pm`words
      ensures Core(spare + {n}) && view == old(view) - {Child(n, i)}
    {
      GoodLeafCleared(tab, view, pm.words, outer, spare, n, i);
      pm.WriteWord(f, i, NO_ENTRY);
      view := view - {Child(n, i)};
    }

    // The last step of the walk: clear the entry and free the frame if asked.
    method UnmapLeaf(f: Frame, i: int, freePhys: bool, ghost n: Node) returns (found: bool, ok: bool)
      requires Valid() && n in tab && tab[n] == f && Level(n) == 1 && 0 <= i < 512
      requires freePhys && Child(n, i) in view ==>
                 view[Child(n, i)].addr !in Frames(tab) && view[Child(n, i)].addr !in pm.lost
      modifies `view, `stock, pm, pm.ranges
      ensures found <==> Child(n, i) in old(view)
      ensures !found ==>
                Valid() && view == old(view) && stock == old(stock) && pm.list == old(pm.list)
                && pm.free == old(pm.free)
      ensures found ==> Core({n}) && view == old(view) - {Child(n, i)}
      ensures found ==> stock == old(stock) + if freePhys then Returned(old(view)[Child(n, i)].addr) else {}
      ensures old(pm.lost) <= pm.lost && pm.bytes == old(pm.bytes)
      ensures found ==>
                (ok <==> (freePhys ==> Freeable(old(view)[Child(n, i)].addr, old(pm.free))) && pm.lost == old(pm.lost))
    {
      assert Cell(tab, view, pm.words, n, i);
      var e := pm.words[f][i];
      if !e.bits.present { return false, false; }
      ClearLeaf(f, i, n, {});
      found, ok := true, true;
      if freePhys { ok := FreeFrame(e.addr, {n}); }
    }

    ghost predicate Freeable(page: int, free: set<int>) { page in pm.managed && page !in free }

    // Give back a table that has become empty.
    method Prune(f: Frame, i: int, c: Frame, ghost n: Node) returns (ok: bool)
      requires Core({Child(n, i)}) && n in tab && tab[n] == f && Level(n) > 1 && 0 <= i < Width(n)
      requires Child(n, i) in tab && tab[Child(n, i)] == c
      modifies `tab, pm, pm.ranges
      ensures Core({n}) && n in tab && tab[n] == f && Extends(tab, old(tab)) && SameRoots(old(tab), tab)
      ensures old(pm.lost) <= pm.lost && pm.bytes == old(pm.bytes)
      ensures ok <==> pm.lost == old(pm.lost)
    {
      var empty := TableEmpty(c, Child(n, i));
      if !empty { return true; }
      assert {Child(n, i)} - {Child(n, i)} + {n} == {n};
      assert n != Child(n, i) by { assert Level(Child(n, i)) == Level(n) - 1; }
      ok := Unhook(f, i, c, n, {Child(n, i)});
    }

    // vmm_unmap_page below one table.
    method UnmapBelow(f: Frame, level: nat, v: int, freePhys: bool, ghost n: Node) returns (found: bool, ok: bool)
      requires Valid() && n in tab && tab[n] == f && Level(n) == level && 1 <= level <= 4 && 0 <= v < USER_PAGES
      requires var k := Under(n, level, v);
               freePhys && k in view ==> view[k].addr !in Frames(tab) && view[k].addr !in pm.lost
      modifies `tab, `view, `stock, pm, pm.ranges
      ensures found <==> Under(n, level, v) in old(view)
      ensures !found ==>
                Valid() && tab == old(tab) && view == old(view) && stock == old(stock) && pm.list == old(pm.list)
                && pm.free == old(pm.free)
      ensures found ==> Core({n}) && n in tab && tab[n] == f && view == old(view) - {Under(n, level, v)}
      ensures found ==> Extends(tab, old(tab)) && SameRoots(old(tab), tab)
      ensures found ==> stock == old(stock) + if freePhys then Returned(old(view)[Under(n, level, v)].addr) else {}
      ensures old(pm.lost) <= pm.lost && pm.bytes == old(pm.bytes)
      ensures found ==>
                (ok <==> && (freePhys ==> Freeable(old(view)[Under(n, level, v)].addr, old(pm.free)))
                         && pm.lost == old(pm.lost))
      decreases level
    {
      var i := Index(v, level);
      IndexInWidth(n, v, level);
      if level == 1 {
        assert Under(n, 1, v) == Under(Child(n, i), 0, v) == Child(n, i);
        found, ok := UnmapLeaf(f, i, freePhys, n);
        return;
      }
      assert Slot(tab, pm.words, n, i);
      var e := pm.words[f][i];
      if !e.bits.present || e.bits.huge {
        UnderAbsent(tab, view, pm.words, Child(n, i), level - 1, v);
        return false, false;
      }
      found, ok := UnmapBelow(e.addr, level - 1, v, freePhys, Child(n, i));
      if found {
        assert Placed(tab, Child(n, i));
        var freed := Prune(f, i, e.addr, n);
        ok := ok && freed;
      }
    }

    /** Unmap one page (vmm_unmap_page). Tables left empty are given back, so the tables are again exactly
        the ones the remaining pages need. */
    method UnmapPage(pml4: nat, virt: nat, freePhys: bool) returns (ok: bool)
      requires Valid() && (pml4 == 0 || Live(pml4)) && virt < 0x8000_0000_0000
      requires var k := Leaf(pml4, virt / 4096);
               freePhys && k in view ==> view[k].addr !in Frames(tab) && view[k].addr !in pm.lost
      modifies `tab, `view, `stock, pm, pm.ranges
      ensures Valid()
      ensures var k := Leaf(pml4, virt / 4096);
              var found := pml4 != 0 && virt % 4096 == 0 && k in old(view);
              if found then
                && view == old(view) - {k} && Extends(tab, old(tab)) && SameRoots(old(tab), tab) && Live(pml4)
                && stock == old(stock) + (if freePhys then Returned(old(view)[k].addr) else {})
                && (ok <==> (freePhys ==> Freeable(old(view)[k].addr, old(pm.free))) && pm.lost == old(pm.lost))
              else
                && !ok && tab == old(tab) && view == old(view) && stock == old(stock)
                && pm.list == old(pm.list) && pm.free == old(pm.free)
      ensures old(pm.lost) <= pm.lost && pm.bytes == old(pm.bytes)
    {
      if pml4 == 0 || virt % 4096 != 0 { return false; }
      assert Placed(tab, Root(pml4));
      var found, done := UnmapBelow(pml4, 4, virt / 4096, freePhys, Root(pml4));
      ok := found && done;
    }

    // Clear a page-table entry and free the page it maps.
    method DropLeaf(f: Frame, i: int, page: Frame, ghost n: Node, ghost spare: set<Node>)
      requires Core(spare) && n in spare && n in tab && tab[n] == f && Level(n) == 1 && 0 <= i < 512
      requires page in pm.managed && page !in stock
      modifies `view, `stock, pm, pm.ranges
      ensures Core(spare) && view == old(view) - {Child(n, i)} && stock == old(stock) + {page}
      ensures old(pm.lost) <= pm.lost && pm.bytes == old(pm.bytes)
    {
      GoodLeafCleared(tab, view, pm.words, outer, spare, n, i);
      GoodMore(tab, view - {Child(n, i)}, Put(pm.words, tab[n], i, NO_ENTRY), outer, spare + {n}, spare);
      HeldReleased(tab, pm.managed, pm.free, pm.lost, stock, page);
      var _ := pm.ClearAndGiveBack(f, i, page);
      view, stock := view - {Child(n, i)}, stock + {page};
    }

    // One entry of vmm_free_pt: clear it and free the page.
    method FreeLeafSlot(f: Frame, i: int, ghost n: Node, ghost spare: set<Node>)
      requires Core(spare) && n in spare && n in tab && tab[n] == f && Level(n) == 1 && 0 <= i < 512
      requires OwnLeaves(view, pm.managed, stock, n)
      modifies `view, `stock, pm, pm.ranges
      ensures Core(spare) && Without(old(tab), tab, Child(n, i)) && Without(old(view), view, Child(n, i))
      ensures stock == old(stock) + FramesIn(old(view), Child(n, i))
      ensures old(pm.lost) <= pm.lost && pm.bytes == old(pm.bytes)
    {
      LeafAlone(tab, view, pm.words, n, i);
      assert Cell(tab, view, pm.words, n, i);
      var e := pm.words[f][i];
      if e.bits.present {
        assert view[Child(n, i)] == e;
        DropLeaf(f, i, e.addr, n, spare);
      } else {
        assert view - {Child(n, i)} == view;
      }
    }

    // One entry of vmm_free_pd, vmm_free_pdpt or vmm_destroy_user_pml4: free the subtree, clear the entry, free the
    // table.
    method FreeTableSlot(f: Frame, i: int, level: nat, ghost n: Node, ghost spare: set<Node>)
      requires Core(spare) && n in spare && n in tab && tab[n] == f && Level(n) == level && 2 <= level <= 4
               && 0 <= i < Width(n)
      requires OwnLeaves(view, pm.managed, stock, n)
      modifies `tab, `view, `stock, pm, pm.ranges
      ensures Core(spare) && n in tab && tab[n] == f
      ensures Without(old(tab), tab, Child(n, i)) && Without(old(view), view, Child(n, i))
      ensures stock == old(stock) + FramesIn(old(view), Child(n, i))
      ensures old(pm.lost) <= pm.lost && pm.bytes == old(pm.bytes)
      decreases level, 1
    {
      ghost var c := Child(n, i);
      assert Slot(tab, pm.words, n, i);
      var e := pm.words[f][i];
      if !e.bits.present || e.bits.huge {
        SubtreeAbsent(tab, view, pm.words, c);
        return;
      }
      FreeChild(f, i, level, e.addr, n, spare);
    }

    // Free the subtree below an entry, clear the entry, free the table.
    method FreeChild(f: Frame, i: int, level: nat, table: Frame, ghost n: Node, ghost spare: set<Node>)
      requires Core(spare) && n in spare && n in tab && tab[n] == f && Level(n) == level && 2 <= level <= 4
      requires 0 <= i < Width(n) && Child(n, i) in tab && tab[Child(n, i)] == table
      requires OwnLeaves(view, pm.managed, stock, n)
      modifies `tab, `view, `stock, pm, pm.ranges
      ensures Core(spare) && n in tab && tab[n] == f
      ensures Without(old(tab), tab, Child(n, i)) && Without(old(view), view, Child(n, i))
      ensures stock == old(stock) + FramesIn(old(view), Child(n, i))
      ensures old(pm.lost) <= pm.lost && pm.bytes == old(pm.bytes)
      decreases level, 0
    {
      ghost var c := Child(n, i);
      OwnChild(view, pm.managed, stock, n, i);
      FreeBelow(table, level - 1, c, spare + {c});
      SubtreeGone(old(tab), old(view), old(pm.words), tab, view, n, i);
      UnhookFreed(f, i, table, n, spare);
    }

    // Clear the entry of a table that was emptied on purpose and give the table's page back.
    method UnhookFreed(f: Frame, i: int, table: Frame, ghost n: Node, ghost spare: set<Node>)
      requires Core(spare + {Child(n, i)}) && n in spare && n in tab && tab[n] == f && Level(n) > 1 && 0 <= i < Width(n)
      requires Child(n, i) in tab && tab[Child(n, i)] == table && !Occupied(tab, view, Child(n, i))
      modifies `tab, pm, pm.ranges
      ensures Core(spare) && tab == old(tab) - {Child(n, i)}
      ensures old(pm.lost) <= pm.lost && pm.bytes == old(pm.bytes)
    {
      ghost var c := Child(n, i);
      var _ := Unhook(f, i, table, n, spare + {c});
      GoodMore(tab, view, pm.words, outer, spare + {c} - {c} + {n}, spare);
    }

    // One entry of a table of any level.
    method FreeSlot(f: Frame, i: int, level: nat, ghost n: Node, ghost spare: set<Node>)
      requires Core(spare) && n in spare && n in tab && tab[n] == f && Level(n) == level && 1 <= level <= 4
               && 0 <= i < Width(n)
      requires OwnLeaves(view, pm.managed, stock, n)
      modifies `tab, `view, `stock, pm, pm.ranges
      ensures Core(spare) && n in tab && tab[n] == f
      ensures Without(old(tab), tab, Child(n, i)) && Without(old(view), view, Child(n, i))
      ensures stock == old(stock) + FramesIn(old(view), Child(n, i))
      ensures old(pm.lost) <= pm.lost && pm.bytes == old(pm.bytes)
      decreases level, 2
    {
      if level == 1 {
        FreeLeafSlot(f, i, n, spare);
      } else {
        FreeTableSlot(f, i, level, n, spare);
      }
    }

    // All entries of one table.
    method FreeBelow(f: Frame, level: nat, ghost n: Node, ghost spare: set<Node>)
      requires Core(spare) && n in spare && n in tab && tab[n] == f && Level(n) == level && 1 <= level <= 4
      requires OwnLeaves(view, pm.managed, stock, n)
      modifies `tab, `view, `stock, pm, pm.ranges
      ensures Core(spare)
      ensures Freeing(old(tab), old(view), old(stock), tab, view, stock, pm.managed, n, Width(n))
      ensures old(pm.lost) <= pm.lost && pm.bytes == old(pm.bytes)
      decreases level, 3
    {
      FreeingStart(tab, view, pm.words, stock, pm.managed, n);
      RootLevel(tab, n);
      var width := if level == 4 then 256 else 512;
      for i := 0 to width
        invariant Core(spare) && n in tab && tab[n] == f
        invariant Freeing(old(tab), old(view), old(stock), tab, view, stock, pm.managed, n, i)
        invariant old(pm.lost) <= pm.lost && pm.bytes == old(pm.bytes)
      {
        ghost var tab1, view1, stock1 := tab, view, stock;
        FreeSlot(f, i, level, n, spare);
        FreeingStep(old(tab), old(view), old(stock), tab1, view1, stock1, tab, view, stock, pm.managed, n, i);
      }
    }

    // The two loops of vmm_create_user_pml4.
    method FillPml4(f: Frame)
      requires pm.Valid() && f != kernelPml4
      modifies pm`words
      ensures pm.Valid() && Full(pm.words) && (forall g: Frame :: g != f ==> pm.words[g] == old(pm.words)[g])
      ensures forall i :: 0 <= i < 512 ==> Ent(pm.words, f, i) == if i < 256 then NO_ENTRY
                                                                  else Ent(pm.words, kernelPml4, i)
    {
      var kernel := pm.words[kernelPml4];
      for i := 0 to 512
        invariant pm.Valid() && (forall g: Frame :: g != f ==> pm.words[g] == old(pm.words)[g])
        invariant forall j :: 0 <= j < i ==> pm.words[f][j] == if j < 256 then NO_ENTRY else kernel[j]
      {
        pm.WriteWord(f, i, if i < 256 then NO_ENTRY else kernel[i]);
      }
    }

    /** A new user address space; 0 when no page is left (vmm_create_user_pml4). */
    method CreateUserPml4() returns (p: nat)
      requires Valid()
      modifies `tab, pm, pm.ranges
      ensures Valid() && pm.lost == old(pm.lost)
      ensures p == 0 <==> old(Room()) == 0
      ensures p == 0 ==> tab == old(tab) && pm.list == old(pm.list) && pm.free == old(pm.free)
      ensures p != 0 ==> Live(p) && Root(p) !in old(tab) && tab == old(tab)[Root(p) := p]
      ensures p != 0 ==> p in old(pm.free) && Room() == old(Room()) - 1
      ensures KeepsBytes(old(pm.free), old(pm.bytes), pm.bytes)
    {
      p := pm.AllocPage();
      if p == 0 { return; }
      assert Root(p) in tab ==> Placed(tab, Root(p));
      HeldAdded(tab, pm.managed, old(pm.free), pm.lost, stock, Root(p), p);
      FillPml4(p);
      GoodRoot(tab, view, old(pm.words), pm.words, outer, p);
      tab := tab[Root(p) := p];
    }

    /** Tear an address space down (vmm_destroy_user_pml4): every page frame and every table frame is given back. */
    method DestroyUserPml4(pml4: nat) returns (ok: bool)
      requires Valid() && (pml4 == 0 || pml4 == kernelPml4 || Live(pml4))
      requires Live(pml4) ==> OwnLeaves(view, pm.managed, stock, Root(pml4))
      modifies `cr3, `tab, `view, `stock, pm, pm.ranges
      ensures Valid() && old(pm.lost) <= pm.lost && pm.bytes == old(pm.bytes)
      ensures ok <==> pml4 != 0 && pml4 != kernelPml4
      ensures ok <==> old(Live(pml4))
      ensures !ok ==>
                tab == old(tab) && view == old(view) && stock == old(stock) && cr3 == old(cr3)
                && pm.list == old(pm.list)
      ensures ok ==> Evicted(old(tab), tab, pml4) && Evicted(old(view), view, pml4)
      ensures ok ==> stock == old(stock) + SpaceFrames(old(view), pml4)
      ensures ok ==> cr3 == if old(cr3) == pml4 then kernelPml4 else old(cr3)
    {
      assert Live(pml4) ==> Placed(tab, Root(pml4));
      assert outer.pml4 in outer.memory;
      if pml4 == 0 || pml4 == kernelPml4 { return false; }
      if cr3 == pml4 { cr3 := kernelPml4; }
      DropSpace(pml4);
      return true;
    }

    // Give back everything of an address space, then its PML4.
    method DropSpace(pml4: nat)
      requires Valid() && Live(pml4) && OwnLeaves(view, pm.managed, stock, Root(pml4))
      modifies `tab, `view, `stock, pm, pm.ranges
      ensures Valid() && old(pm.lost) <= pm.lost && pm.bytes == old(pm.bytes)
      ensures Evicted(old(tab), tab, pml4) && Evicted(old(view), view, pml4)
      ensures stock == old(stock) + SpaceFrames(old(view), pml4)
    {
      assert Placed(tab, Root(pml4));
      GoodMore(tab, view, pm.words, outer, {}, {Root(pml4)});
      FreeBelow(pml4, 4, Root(pml4), {Root(pml4)});
      SpaceGone(old(tab), old(view), old(pm.words), tab, view, pml4);
      GoodUnroot(tab, view, pm.words, outer, pml4);
      HeldRemoved(tab, pm.managed, pm.free, pm.lost, stock, Root(pml4));
      tab := tab - {Root(pml4)};
      var _ := pm.GiveBack(pml4);
    }

    /** pmm_alloc_page called by a client while address spaces exist. */
    method AllocFrame() returns (page: nat)
      requires Valid()
      modifies `stock, pm, pm.ranges
      ensures Valid() && pm.lost == old(pm.lost)
      ensures page == 0 <==> old(Room()) == 0
      ensures page == 0 ==> stock == old(stock) && pm.list == old(pm.list) && pm.bytes == old(pm.bytes)
      ensures page != 0 ==> page in old(stock) && page in pm.managed && page !in pm.free && page < 0x100_0000_0000
      ensures page != 0 ==> stock == old(stock) - {page} && Room() == old(Room()) - 1
      ensures page != 0 ==>
                page in old(pm.free) && pm.free <= old(pm.free) && pm.bytes == old(pm.bytes)[page := ZeroPage()]
    {
      page := pm.AllocPage();
      if page == 0 { return; }
      HeldTaken(tab, pm.managed, old(pm.free), pm.lost, stock, page);
      Elsewhere(tab, view, old(pm.words), pm.words, outer, {});
      stock := stock - {page};
    }
  }

  lemma HeldTaken(tab: Tab, managed: set<int>, free: set<int>, lost: set<int>, stock: set<int>, page: Frame)
    requires Held(tab, managed, free, lost, stock) && page in free && page !in lost
    ensures Held(tab, managed, free - {page}, lost, stock - {page}) && page in stock
    ensures forall n :: n in tab ==> tab[n] != page
  {}

  lemma SameList(s: seq<Range>, t: seq<Range>, free: set<int>, free': set<int>, lost: set<int>)
    requires Canonical(s) && Canonical(t) && Denotes(s, free) && Denotes(t, free') && free' !! lost
    ensures free + lost == free' + lost && free !! lost ==> s == t
  {
    if free + lost == free' + lost && free !! lost {
      assert free == free';
      DenotesPages(s, free);
      DenotesPages(t, free);
      PagesDetermine(s, t);
    }
  }

  function Raised(e: Entry): Entry { e.(bits := e.bits.(user := true)) }
}
