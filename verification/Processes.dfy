/** Many processes at once: their regions, heaps and frames, whatever memory calls they make in turn. */
module ProcessGroups {
  import opened Hardware
  import opened PageTree
  import opened PageTables
  import opened AddressSpaces
  import opened PageRuns
  import opened ElfLoader
  import opened ProcessMemory
  import Isolation

  /** What a process keeps about its memory. */
  datatype Memory = Memory(pml4: Frame, rs: seq<Region>, next: int, brk: int, end: int)

  ghost function MemoryOf(pr: Process): Memory
    reads pr, pr.regions
  {
    Memory(pr.pml4, pr.regions[..], pr.nextBase, pr.heapBreak, pr.heapEnd)
  }

  /** The frames of its pages that are not lent. */
  ghost function Own(view: View, m: Memory): set<int> { OwnFrames(view, m.pml4, LentOf(m.rs, m.pml4)) }

  /** The invariant of one process. */
  ghost predicate Sound(view: View, tab: Tab, managed: set<int>, stock: set<int>, m: Memory) {
    && |m.rs| == MAX_VM_REGIONS && 0 < m.pml4 && Root(m.pml4) in tab
    && Owns(view, managed, stock, stock + Own(view, m), m.pml4, LentOf(m.rs, m.pml4))
    && Layout(view, m.pml4, m.rs, m.next, m.brk, m.end)
  }

  // ---------------------------------------------------------------- the others stand

  lemma RunsElsewhere(view: View, view': View, p: Frame, q: Frame, first: int, end: int)
    requires OthersSame(view, view', p) && q != p
    ensures RunKeys(q, first, end) <= view.Keys <==> RunKeys(q, first, end) <= view'.Keys
  {
    forall v | first <= v < end ensures Leaf(q, v) in view <==> Leaf(q, v) in view' { LeafPath(q, v); }
    assert forall k :: k in RunKeys(q, first, end) ==> (k in view <==> k in view');
  }

  lemma LayoutElsewhere(view: View, view': View, p: Frame, q: Frame, rs: seq<Region>, next: int, brk: int, end: int)
    requires OthersSame(view, view', p) && q != p && Layout(view, q, rs, next, brk, end)
    ensures Layout(view', q, rs, next, brk, end) && Torn(view', q, rs) == Torn(view, q, rs)
  {
    forall r ensures Filled(view', q, rs, r) {
      assert Filled(view, q, rs, r);
      if 0 <= r < |rs| {
        RunsElsewhere(view, view', p, q, rs[r].base, rs[r].End());
        LeafPath(q, rs[r].base);
      }
    }
    forall r | 0 <= r < |rs| ensures Whole(view', q, rs[r]) <==> Whole(view, q, rs[r]) {
      RunsElsewhere(view, view', p, q, rs[r].base, rs[r].End());
    }
    RunsElsewhere(view, view', p, q, HEAP_BASE, end);
  }

  lemma OwnElsewhere(view: View, view': View, p: Frame, q: Frame, lent: set<Node>)
    requires OthersSame(view, view', p) && q != p
    ensures OwnFrames(view', q, lent) == OwnFrames(view, q, lent)
  {
    forall k | Space(k) == q ensures (k in view <==> k in view') && (k in view ==> view'[k] == view[k]) {}
    forall f | f in OwnFrames(view, q, lent) ensures f in OwnFrames(view', q, lent) {
      var k :| k in view && Space(k) == q && k !in lent && view[k].addr == f;
      assert k in view' && view'[k].addr == f;
    }
    forall f | f in OwnFrames(view', q, lent) ensures f in OwnFrames(view, q, lent) {
      var k :| k in view' && Space(k) == q && k !in lent && view'[k].addr == f;
      assert k in view && view[k].addr == f;
    }
  }

  /** A process stays sound when another changes its own pages and exchanges frames with the stock. */
  lemma SoundElsewhere(view: View, tab: Tab, view': View, tab': Tab, managed: set<int>, stock: set<int>,
                       stock': set<int>,
                       whole: set<int>, p: Frame, m: Memory)
    requires Sound(view, tab, managed, stock, m) && OthersSame(view, view', p) && OthersSame(tab, tab', p)
             && m.pml4 != p
    requires stock' <= whole && Own(view, m) !! whole
    ensures Sound(view', tab', managed, stock', m) && Own(view', m) == Own(view, m)
  {
    var q, lent := m.pml4, LentOf(m.rs, m.pml4);
    OwnElsewhere(view, view', p, q, lent);
    LayoutElsewhere(view, view', p, q, m.rs, m.next, m.brk, m.end);
    assert Space(Root(q)) == q;
    forall k | k in view' && Space(k) == q && k !in lent ensures view'[k].addr in managed && view'[k].addr !in stock' {
      assert k in view && view'[k] == view[k];
      assert view[k].addr in Own(view, m);
    }
    forall j, k ensures SoleOwner(view', q, lent, j, k) { assert SoleOwner(view, q, lent, j, k); }
  }

  // ---------------------------------------------------------------- the group

  ghost predicate OwnedBy(view: View, live: map<nat, Memory>, f: int) {
    exists i :: i in live && f in Own(view, live[i])
  }

  ghost predicate Apart(view: View, live: map<nat, Memory>, i: nat, j: nat) {
    i in live && j in live && i != j ==> live[i].pml4 != live[j].pml4 && Own(view, live[i]) !! Own(view, live[j])
  }

  /** Every process in its slot is sound, no two share an address space or a frame of their own, and the stock with the
      frames of all of them is the constant `all`. */
  ghost predicate Group(view: View, tab: Tab, managed: set<int>, stock: set<int>, all: set<int>,
                        live: map<nat, Memory>) {
    && (forall i {:trigger live[i]} :: i in live ==>
      Sound(view, tab, managed, stock, live[i]) && Own(view, live[i]) <= all)
    && (forall i, j {:trigger Apart(view, live, i, j)} :: Apart(view, live, i, j))
    && stock <= all
    && (forall f {:trigger OwnedBy(view, live, f)} :: f in all && f !in stock ==> OwnedBy(view, live, f))
  }

  lemma StockApart(view: View, managed: set<int>, stock: set<int>, whole: set<int>, m: Memory)
    requires Owns(view, managed, stock, whole, m.pml4, LentOf(m.rs, m.pml4))
    ensures Own(view, m) !! stock
  {}

  /** What one process does with its own memory keeps the group. */
  lemma GroupStep(view: View, tab: Tab, view': View, tab': Tab, managed: set<int>, stock: set<int>, stock': set<int>,
                  all: set<int>,
                  live: map<nat, Memory>, i: nat, m: Memory)
    requires Group(view, tab, managed, stock, all, live) && i in live && m.pml4 == live[i].pml4
    requires OthersSame(view, view', m.pml4) && OthersSame(tab, tab', m.pml4)
    requires Sound(view', tab', managed, stock', m) && stock' + Own(view', m) == stock + Own(view, live[i])
    ensures Group(view', tab', managed, stock', all, live[i := m])
    ensures forall j :: j in live && j != i ==> Own(view', live[j]) == Own(view, live[j])
  {
    var live', whole := live[i := m], stock + Own(view, live[i]);
    forall j | j in live && j != i
      ensures Sound(view', tab', managed, stock', live[j]) && Own(view', live[j]) == Own(view, live[j]) {
      assert Apart(view, live, i, j);
      StockApart(view, managed, stock, stock + Own(view, live[j]), live[j]);
      SoundElsewhere(view, tab, view', tab', managed, stock, stock', whole, m.pml4, live[j]);
    }
    AllApart(view, view', managed, stock, live, live', i, m);
    AllOwned(view, view', stock, stock', all, live, live', i);
  }

  lemma AllApart(view: View, view': View, managed: set<int>, stock: set<int>, live: map<nat, Memory>,
                 live': map<nat, Memory>, i: nat, m: Memory)
    requires i in live && live' == live[i := m] && m.pml4 == live[i].pml4 && Own(view', m) <= stock + Own(view, live[i])
    requires forall a, b {:trigger Apart(view, live, a, b)} :: Apart(view, live, a, b)
    requires forall j {:trigger live[j]} :: j in live && j != i ==>
               && Own(view', live[j]) == Own(view, live[j])
               && Owns(view, managed, stock, stock + Own(view, live[j]), live[j].pml4, LentOf(live[j].rs, live[j].pml4))
    ensures forall a, b {:trigger Apart(view', live', a, b)} :: Apart(view', live', a, b)
  {
    forall a, b ensures Apart(view', live', a, b) {
      assert Apart(view, live, a, b);
      if a in live && b in live && a != b {
        if a == i { OwnApart(view, managed, stock, live, i, b, Own(view', m)); }
        if b == i {
          assert Apart(view, live, i, a);
          OwnApart(view, managed, stock, live, i, a, Own(view', m));
        }
      }
    }
  }

  lemma AllOwned(view: View, view': View, stock: set<int>, stock': set<int>, all: set<int>, live: map<nat, Memory>,
                 live': map<nat, Memory>, i: nat)
    requires i in live && i in live' && stock' + Own(view', live'[i]) == stock + Own(view, live[i])
    requires forall j {:trigger live[j]} :: j in live && j != i ==>
               j in live' && Own(view', live'[j]) == Own(view, live[j])
    requires forall f {:trigger OwnedBy(view, live, f)} :: f in all && f !in stock ==> OwnedBy(view, live, f)
    ensures forall f {:trigger OwnedBy(view', live', f)} :: f in all && f !in stock' ==> OwnedBy(view', live', f)
  {
    forall f | f in all && f !in stock' ensures OwnedBy(view', live', f) {
      if f in stock + Own(view, live[i]) {
        assert f in Own(view', live'[i]);
      } else {
        assert OwnedBy(view, live, f);
        var j :| j in live && f in Own(view, live[j]);
        assert f in Own(view', live'[j]);
      }
    }
  }

  lemma OwnApart(view: View, managed: set<int>, stock: set<int>, live: map<nat, Memory>, i: nat, j: nat, own: set<int>)
    requires i in live && j in live && i != j && Apart(view, live, i, j) && own <= stock + Own(view, live[i])
    requires Owns(view, managed, stock, stock + Own(view, live[j]), live[j].pml4, LentOf(live[j].rs, live[j].pml4))
    ensures own !! Own(view, live[j])
  {
    StockApart(view, managed, stock, stock + Own(view, live[j]), live[j]);
  }

  lemma BesideBorn(was: Snap, now: Snap, managed: set<int>, m0: Memory, m: Memory)
    requires Sound(was.view, was.tab, managed, was.stock, m0) && Started(was, now, managed, m)
    ensures Sound(now.view, now.tab, managed, now.stock, m0) && m0.pml4 != m.pml4
    ensures Own(now.view, m0) == Own(was.view, m0) && Own(was.view, m0) !! was.stock
  {
    assert Space(Root(m0.pml4)) == m0.pml4;
    StockApart(was.view, managed, was.stock, was.stock + Own(was.view, m0), m0);
    SoundElsewhere(was.view, was.tab, now.view, now.tab, managed, was.stock, now.stock, was.stock, m.pml4, m0);
  }

  lemma AllBeside(was: Snap, now: Snap, managed: set<int>, all: set<int>, live: map<nat, Memory>, m: Memory)
    requires Group(was.view, was.tab, managed, was.stock, all, live) && Started(was, now, managed, m)
    ensures forall j {:trigger live[j]} :: j in live ==>
              && Sound(now.view, now.tab, managed, now.stock, live[j]) && live[j].pml4 != m.pml4
              && Own(now.view, live[j]) == Own(was.view, live[j]) && Own(was.view, live[j]) !! was.stock
  {
    forall j | j in live
      ensures && Sound(now.view, now.tab, managed, now.stock, live[j]) && live[j].pml4 != m.pml4
              && Own(now.view, live[j]) == Own(was.view, live[j]) && Own(was.view, live[j]) !! was.stock
    {
      BesideBorn(was, now, managed, live[j], m);
    }
  }

  /** A process with a new address space, whose frames come from the stock, joins in a free slot. */
  lemma GroupBorn(was: Snap, now: Snap, managed: set<int>, all: set<int>, live: map<nat, Memory>, i: nat, m: Memory)
    requires Group(was.view, was.tab, managed, was.stock, all, live) && i !in live && Started(was, now, managed, m)
    ensures Group(now.view, now.tab, managed, now.stock, all, live[i := m])
    ensures forall j :: j in live ==> Own(now.view, live[j]) == Own(was.view, live[j]) && live[j].pml4 != m.pml4
  {
    var live' := live[i := m];
    AllBeside(was, now, managed, all, live, m);
    BornApart(was.view, now.view, was.stock, live, live', i);
    BornOwned(was.view, now.view, was.stock, now.stock, all, live, live', i);
  }

  lemma BornApart(view: View, view': View, stock: set<int>, live: map<nat, Memory>, live': map<nat, Memory>, i: nat)
    requires i !in live && i in live' && live' == live[i := live'[i]] && Own(view', live'[i]) <= stock
    requires forall j {:trigger live[j]} :: j in live ==>
               && Own(view', live[j]) == Own(view, live[j]) && Own(view, live[j]) !! stock
               && live[j].pml4 != live'[i].pml4
    requires forall a, b {:trigger Apart(view, live, a, b)} :: Apart(view, live, a, b)
    ensures forall a, b {:trigger Apart(view', live', a, b)} :: Apart(view', live', a, b)
  {
    forall a, b ensures Apart(view', live', a, b) { assert Apart(view, live, a, b); }
  }

  lemma BornOwned(view: View, view': View, stock: set<int>, stock': set<int>, all: set<int>, live: map<nat, Memory>,
                  live': map<nat, Memory>, i: nat)
    requires i in live' && stock' + Own(view', live'[i]) == stock
    requires forall j {:trigger live[j]} :: j in live ==> j in live' && Own(view', live'[j]) == Own(view, live[j])
    requires forall f {:trigger OwnedBy(view, live, f)} :: f in all && f !in stock ==> OwnedBy(view, live, f)
    ensures forall f {:trigger OwnedBy(view', live', f)} :: f in all && f !in stock' ==> OwnedBy(view', live', f)
  {
    forall f | f in all && f !in stock' ensures OwnedBy(view', live', f) {
      if f in stock {
        assert f in Own(view', live'[i]);
      } else {
        assert OwnedBy(view, live, f);
        var j :| j in live && f in Own(view, live[j]);
        assert f in Own(view', live'[j]);
      }
    }
  }

  /** What the start of a process does: a new address space with frames from the stock. */
  ghost predicate Started(was: Snap, now: Snap, managed: set<int>, m: Memory) {
    && Sound(now.view, now.tab, managed, now.stock, m) && now.stock + Own(now.view, m) == was.stock
    && OthersSame(was.view, now.view, m.pml4) && OthersSame(was.tab, now.tab, m.pml4)
    && (forall k :: k in was.tab || k in was.view ==> Space(k) != m.pml4)
    && KeepsBytes(was.stock, was.bytes, now.bytes) && was.lost <= now.lost && Torn(now.view, m.pml4, m.rs) == {}
  }

  /** A process leaves, and its frames go back to the stock. */
  lemma GroupGone(view: View, tab: Tab, view': View, tab': Tab, managed: set<int>, stock: set<int>, stock': set<int>,
                  all: set<int>,
                  live: map<nat, Memory>, i: nat)
    requires Group(view, tab, managed, stock, all, live) && i in live && stock' == stock + Own(view, live[i])
    requires Evicted(view, view', live[i].pml4) && Evicted(tab, tab', live[i].pml4)
    ensures Group(view', tab', managed, stock', all, live - {i})
    ensures forall j :: j in live && j != i ==> Own(view', live[j]) == Own(view, live[j])
  {
    var live', p := live - {i}, live[i].pml4;
    EvictedOthers(view, view', p);
    EvictedOthers(tab, tab', p);
    forall j | j in live && j != i
      ensures Sound(view', tab', managed, stock', live[j]) && Own(view', live[j]) == Own(view, live[j]) {
      assert Apart(view, live, i, j);
      StockApart(view, managed, stock, stock + Own(view, live[j]), live[j]);
      SoundElsewhere(view, tab, view', tab', managed, stock, stock', stock', p, live[j]);
    }
    forall a, b ensures Apart(view', live', a, b) { assert Apart(view, live, a, b); }
    forall f | f in all && f !in stock' ensures OwnedBy(view', live', f) {
      assert OwnedBy(view, live, f);
      var j :| j in live && f in Own(view, live[j]);
      assert f in Own(view', live'[j]);
    }
  }

  lemma EvictedOthers<T>(s: map<Node, T>, s': map<Node, T>, p: Frame)
    requires Evicted(s, s', p)
    ensures OthersSame(s, s', p)
  {}

  // ---------------------------------------------------------------- the process table

  const SLOTS := 16

  ghost function Objects(t: seq<Process?>): set<object> { set i | 0 <= i < |t| && t[i] != null :: t[i] }

  ghost function Tables(t: seq<Process?>): set<object> { set i | 0 <= i < |t| && t[i] != null :: t[i].regions }

  /** The slots in use and what their processes keep. */
  ghost predicate Filed(vm: Vmm, t: seq<Process?>, live: map<nat, Memory>)
    reads Objects(t), Tables(t)
  {
    && |t| == SLOTS && (forall i {:trigger live[i]} :: i in live ==> i < SLOTS)
    && (forall i {:trigger t[i]} :: 0 <= i < SLOTS ==> (t[i] != null <==> i in live))
    && (forall i {:trigger t[i]} :: 0 <= i < SLOTS && t[i] != null ==>
          t[i].vm == vm && t[i].regions.Length == MAX_VM_REGIONS && MemoryOf(t[i]) == live[i])
    && Distinct(t)
  }

  ghost predicate Distinct(t: seq<Process?>) {
    forall i, j {:trigger t[i], t[j]} :: 0 <= i < j < |t| && t[i] != null && t[j] != null ==>
      t[i] != t[j] && t[i].regions != t[j].regions
  }

  /** The accounts of every process are right. */
  ghost predicate Settled(stock: set<int>, view: View, t: seq<Process?>, live: map<nat, Memory>)
    reads Objects(t)
  {
    forall i: nat {:trigger t[i]} :: i < |t| && t[i] != null && i in live ==> t[i].whole == stock + Own(view, live[i])
  }

  ghost predicate Running(vm: Vmm, t: seq<Process?>, live: map<nat, Memory>, all: set<int>)
    reads vm, vm.pm, vm.pm.ranges, Objects(t), Tables(t)
  {
    vm.Valid() && Filed(vm, t, live) && Settled(vm.stock, vm.view, t, live)
    && Group(vm.view, vm.tab, vm.pm.managed, vm.stock, all, live)
  }

  /** In the table every process meets its own invariant. */
  lemma ValidIn(vm: Vmm, t: seq<Process?>, live: map<nat, Memory>, all: set<int>, i: nat)
    requires Running(vm, t, live, all) && i < SLOTS && t[i] != null
    ensures i in live && t[i].vm == vm && t[i].Valid() && MemoryOf(t[i]) == live[i]
  {
    assert Sound(vm.view, vm.tab, vm.pm.managed, vm.stock, live[i]);
  }

  /** The processes in other slots, their pages and the contents of their own frames are the same. */
  ghost predicate Undisturbed(view: View, bytes: map<Frame, Page>, view': View, bytes': map<Frame, Page>,
                              live: map<nat, Memory>, live': map<nat, Memory>, j: nat)
    requires j in live
  {
    && j in live' && live'[j] == live[j] && Own(view', live[j]) == Own(view, live[j])
    && (forall k {:trigger view'[k]} :: Space(k) == live[j].pml4 ==>
      (k in view <==> k in view') && (k in view ==> view'[k] == view[k]))
    && (forall f: Frame {:trigger f in bytes'} {:trigger bytes'[f]} :: f in Own(view, live[j]) && f in bytes ==>
      f in bytes' && bytes'[f] == bytes[f])
  }

  // Bring the ghost accounts of all processes up to date.
  ghost method Settle(vm: Vmm, t: seq<Process?>, live: map<nat, Memory>)
    requires Filed(vm, t, live)
    modifies Objects(t)
    ensures Filed(vm, t, live) && Settled(vm.stock, vm.view, t, live)
  {
    forall i | 0 <= i < SLOTS && t[i] != null {
      t[i].whole := vm.stock + Own(vm.view, MemoryOf(t[i]));
    }
  }

  ghost method SettleGroup(vm: Vmm, t: seq<Process?>, live: map<nat, Memory>, all: set<int>)
    requires vm.Valid() && Filed(vm, t, live) && Group(vm.view, vm.tab, vm.pm.managed, vm.stock, all, live)
    modifies Objects(t)
    ensures Running(vm, t, live, all) && Now(vm) == old(Now(vm))
  {
    Settle(vm, t, live);
  }

  /** What the step of one process means for another. */
  lemma StandsStill(view: View, bytes: map<Frame, Page>, view': View, bytes': map<Frame, Page>, tab: Tab,
                    managed: set<int>,
                    stock: set<int>, all: set<int>, live: map<nat, Memory>, live': map<nat, Memory>, i: nat, j: nat)
    requires Group(view, tab, managed, stock, all, live) && i in live && j in live && i != j
    requires OthersSame(view, view', live[i].pml4) && KeepsBytes(stock + Own(view, live[i]), bytes, bytes')
    requires j in live' && live'[j] == live[j] && Own(view', live[j]) == Own(view, live[j])
    ensures Undisturbed(view, bytes, view', bytes', live, live', j)
  {
    assert Apart(view, live, i, j);
    StockApart(view, managed, stock, stock + Own(view, live[j]), live[j]);
  }

  /** What a call of one process does: it exchanges frames with the stock and touches nothing else. */
  ghost predicate Stepped(was: Snap, now: Snap, managed: set<int>, m0: Memory, m: Memory, tear: set<int>) {
    && m.pml4 == m0.pml4 && Sound(now.view, now.tab, managed, now.stock, m)
    && now.stock + Own(now.view, m) == was.stock + Own(was.view, m0)
    && OthersSame(was.view, now.view, m.pml4) && OthersSame(was.tab, now.tab, m.pml4)
    && KeepsBytes(was.stock + Own(was.view, m0), was.bytes, now.bytes) && was.lost <= now.lost
    && TornBy(Torn(was.view, m0.pml4, m0.rs), was.lost, Torn(now.view, m.pml4, m.rs), now.lost, tear)
  }

  // One memory call of the process in slot `i`, up to the table.
  method CallOnly(vm: Vmm, t: seq<Process?>, i: nat, c: Call, ghost live: map<nat, Memory>, ghost all: set<int>)
    returns (ghost m: Memory, ghost tear: set<int>)
    requires Running(vm, t, live, all) && i < SLOTS && t[i] != null && Sane(c)
    modifies t[i], t[i].regions, vm`tab, vm`view, vm`stock, vm.pm, vm.pm.ranges
    ensures vm.Valid() && i in live && m == MemoryOf(t[i])
    ensures Stepped(old(Now(vm)), Now(vm), vm.pm.managed, live[i], m, tear)
  {
    ValidIn(vm, t, live, all, i);
    var pr := t[i];
    tear := Serve(pr, c);
    m := MemoryOf(pr);
  }

  lemma FiledCalled(vm: Vmm, t: seq<Process?>, live: map<nat, Memory>, i: nat, m: Memory)
    requires |t| == SLOTS && Distinct(t) && i in live && m.pml4 == live[i].pml4
    requires forall j {:trigger live[j]} :: j in live ==> j < SLOTS
    requires forall j {:trigger t[j]} :: 0 <= j < SLOTS ==> (t[j] != null <==> j in live)
    requires forall j {:trigger t[j]} :: 0 <= j < SLOTS && t[j] != null ==>
               && t[j].vm == vm && t[j].regions.Length == MAX_VM_REGIONS && (j != i ==> MemoryOf(t[j]) == live[j])
    requires MemoryOf(t[i]) == m
    ensures Filed(vm, t, live[i := m])
  {}

  // The same, with the table up to date.
  method CallFiled(vm: Vmm, t: seq<Process?>, i: nat, c: Call, ghost live: map<nat, Memory>, ghost all: set<int>)
    returns (ghost m: Memory, ghost tear: set<int>)
    requires Running(vm, t, live, all) && i < SLOTS && t[i] != null && Sane(c)
    modifies t[i], t[i].regions, vm`tab, vm`view, vm`stock, vm.pm, vm.pm.ranges
    ensures vm.Valid() && i in live && Filed(vm, t, live[i := m])
    ensures Stepped(old(Now(vm)), Now(vm), vm.pm.managed, live[i], m, tear)
  {
    m, tear := CallOnly(vm, t, i, c, live, all);
    forall j | 0 <= j < SLOTS && t[j] != null && j != i ensures MemoryOf(t[j]) == live[j] {
      assert t[j] != t[i] && t[j].regions != t[i].regions;
    }
    FiledCalled(vm, t, live, i, m);
  }

  // One memory call of the process in slot `i`.
  method CallIn(vm: Vmm, t: seq<Process?>, i: nat, c: Call, ghost live: map<nat, Memory>, ghost all: set<int>)
    returns (ghost live': map<nat, Memory>, ghost tear: set<int>)
    requires Running(vm, t, live, all) && i < SLOTS && t[i] != null && Sane(c)
    modifies Objects(t), t[i].regions, vm`tab, vm`view, vm`stock, vm.pm, vm.pm.ranges
    ensures Running(vm, t, live', all) && i in live && i in live' && live' == live[i := live'[i]]
    ensures Stepped(old(Now(vm)), Now(vm), vm.pm.managed, live[i], live'[i], tear)
    ensures forall j {:trigger live[j]} :: j in live && j != i ==>
              Undisturbed(old(vm.view), old(vm.pm.bytes), vm.view, vm.pm.bytes, live, live', j)
  {
    ghost var was := Now(vm);
    ghost var m;
    m, tear := CallFiled(vm, t, i, c, live, all);
    live' := live[i := m];
    GroupStep(was.view, was.tab, vm.view, vm.tab, vm.pm.managed, was.stock, vm.stock, all, live, i, m);
    OthersStand(was, Now(vm), vm.pm.managed, all, live, live', i, m, tear);
    SettleGroup(vm, t, live', all);
  }

  lemma OthersStand(was: Snap, now: Snap, managed: set<int>, all: set<int>, live: map<nat, Memory>,
                    live': map<nat, Memory>,
                    i: nat, m: Memory, tear: set<int>)
    requires Group(was.view, was.tab, managed, was.stock, all, live) && i in live && live' == live[i := m]
    requires Stepped(was, now, managed, live[i], m, tear)
    requires forall j {:trigger live[j]} :: j in live && j != i ==> Own(now.view, live[j]) == Own(was.view, live[j])
    ensures forall j {:trigger live[j]} :: j in live && j != i ==>
              Undisturbed(was.view, was.bytes, now.view, now.bytes, live, live', j)
  {
    forall j | j in live && j != i ensures Undisturbed(was.view, was.bytes, now.view, now.bytes, live, live', j) {
      StandsStill(was.view, was.bytes, now.view, now.bytes, was.tab, managed, was.stock, all, live, live', i, j);
    }
  }

  lemma FiledBorn(vm: Vmm, t: seq<Process?>, live: map<nat, Memory>, i: nat, pr: Process)
    requires Filed(vm, t, live) && i < SLOTS && t[i] == null && Nowhere(t, pr)
    requires pr.vm == vm && pr.regions.Length == MAX_VM_REGIONS
    ensures Filed(vm, t[i := pr], live[i := MemoryOf(pr)])
  {}

  /** The process is in no slot. */
  ghost predicate Nowhere(t: seq<Process?>, pr: Process) {
    forall j {:trigger t[j]} :: 0 <= j < |t| && t[j] != null ==> t[j] != pr && t[j].regions != pr.regions
  }

  /** Nothing happened, except that free pages were used and given back. */
  ghost predicate Refused(was: Snap, now: Snap) {
    && now.tab == was.tab && now.view == was.view && now.stock == was.stock && was.lost <= now.lost
    && KeepsBytes(was.stock, was.bytes, now.bytes)
  }

  // Load a program and create a process for it; null when it cannot be loaded.
  method NewProcess(vm: Vmm, file: seq<Byte>) returns (pr: Process?)
    requires vm.Valid() && |file| < 0x1_0000_0000_0000_0000
    modifies vm, vm.pm, vm.pm.ranges
    ensures vm.Valid() && (pr == null ==> Refused(old(Now(vm)), Now(vm)))
    ensures pr != null ==> && fresh(pr) && fresh(pr.regions) && pr.vm == vm && pr.regions.Length == MAX_VM_REGIONS
                           && Started(old(Now(vm)), Now(vm), vm.pm.managed, MemoryOf(pr))
  {
    ghost var was := Now(vm);
    var code, p, entry := ElfLoad(vm, file, false);
    if code != 0 { return null; }
    pr := new Process(vm, p, was.stock);
    OursStarted(vm, was, pr);
  }

  lemma OursStarted(vm: Vmm, was: Snap, pr: Process)
    requires pr.Valid() && pr.vm == vm && pr.whole == was.stock && pr.TornNow() == {}
    requires Ours(vm, pr.pml4, was) && forall k :: k in was.tab || k in was.view ==> Space(k) != pr.pml4
    ensures pr.regions.Length == MAX_VM_REGIONS && Started(was, Now(vm), vm.pm.managed, MemoryOf(pr))
  {}

  // Create a process beside those in the table.
  method NewBeside(vm: Vmm, t: seq<Process?>, file: seq<Byte>, ghost live: map<nat, Memory>) returns (pr: Process?)
    requires vm.Valid() && Filed(vm, t, live) && |file| < 0x1_0000_0000_0000_0000
    modifies vm, vm.pm, vm.pm.ranges
    ensures vm.Valid() && Filed(vm, t, live) && (pr == null ==> Refused(old(Now(vm)), Now(vm)))
    ensures pr != null ==> && fresh(pr) && fresh(pr.regions) && pr.vm == vm && pr.regions.Length == MAX_VM_REGIONS
                           && Nowhere(t, pr) && Started(old(Now(vm)), Now(vm), vm.pm.managed, MemoryOf(pr))
  {
    pr := NewProcess(vm, file);
  }

  /** When only free pages change, every process stands still. */
  lemma RefusedStand(was: Snap, now: Snap, managed: set<int>, all: set<int>, live: map<nat, Memory>)
    requires Group(was.view, was.tab, managed, was.stock, all, live) && Refused(was, now)
    ensures forall j {:trigger live[j]} :: j in live ==>
              Undisturbed(was.view, was.bytes, now.view, now.bytes, live, live, j)
  {
    forall j | j in live ensures Undisturbed(was.view, was.bytes, now.view, now.bytes, live, live, j) {
      StockApart(was.view, managed, was.stock, was.stock + Own(was.view, live[j]), live[j]);
    }
  }

  /** A new process disturbs none of the others. */
  lemma StartedStand(was: Snap, now: Snap, managed: set<int>, all: set<int>, live: map<nat, Memory>, i: nat, m: Memory)
    requires Group(was.view, was.tab, managed, was.stock, all, live) && i !in live && Started(was, now, managed, m)
    ensures forall j {:trigger live[j]} :: j in live ==>
              Undisturbed(was.view, was.bytes, now.view, now.bytes, live, live[i := m], j)
  {
    GroupBorn(was, now, managed, all, live, i, m);
    forall j | j in live ensures Undisturbed(was.view, was.bytes, now.view, now.bytes, live, live[i := m], j) {
      StockApart(was.view, managed, was.stock, was.stock + Own(was.view, live[j]), live[j]);
    }
  }

  /** What the end of a process does. */
  ghost predicate Ended(was: Snap, now: Snap, m: Memory) {
    && Evicted(was.view, now.view, m.pml4) && Evicted(was.tab, now.tab, m.pml4)
    && now.stock == was.stock + Own(was.view, m)
    && KeepsBytes(was.stock + Own(was.view, m), was.bytes, now.bytes) && was.lost <= now.lost
  }

  // End the process in slot `i`, up to the table.
  method ExitOnly(vm: Vmm, t: seq<Process?>, i: nat, ghost live: map<nat, Memory>, ghost all: set<int>)
    requires Running(vm, t, live, all) && i < SLOTS && t[i] != null
    modifies t[i], t[i].regions, vm, vm.pm, vm.pm.ranges
    ensures vm.Valid() && i in live && Ended(old(Now(vm)), Now(vm), live[i])
  {
    ValidIn(vm, t, live, all, i);
    t[i].Release();
  }

  lemma FiledGone(vm: Vmm, t: seq<Process?>, live: map<nat, Memory>, i: nat)
    requires |t| == SLOTS && Distinct(t) && i in live
    requires forall j {:trigger live[j]} :: j in live ==> j < SLOTS
    requires forall j {:trigger t[j]} :: 0 <= j < SLOTS ==> (t[j] != null <==> j in live)
    requires forall j {:trigger t[j]} :: 0 <= j < SLOTS && t[j] != null && j != i ==>
               t[j].vm == vm && t[j].regions.Length == MAX_VM_REGIONS && MemoryOf(t[j]) == live[j]
    ensures Filed(vm, t[i := null], live - {i})
  {}

  // The same, with the table up to date.
  method ExitFiled(vm: Vmm, t: seq<Process?>, i: nat, ghost live: map<nat, Memory>, ghost all: set<int>)
    requires Running(vm, t, live, all) && i < SLOTS && t[i] != null
    modifies t[i], t[i].regions, vm, vm.pm, vm.pm.ranges
    ensures vm.Valid() && i in live && Ended(old(Now(vm)), Now(vm), live[i]) && Filed(vm, t[i := null], live - {i})
  {
    ExitOnly(vm, t, i, live, all);
    forall j | 0 <= j < SLOTS && t[j] != null && j != i ensures MemoryOf(t[j]) == live[j] {
      assert t[j] != t[i] && t[j].regions != t[i].regions;
    }
    FiledGone(vm, t, live, i);
  }

  lemma OthersRemain(was: Snap, now: Snap, managed: set<int>, all: set<int>, live: map<nat, Memory>, i: nat)
    requires Group(was.view, was.tab, managed, was.stock, all, live) && i in live && Ended(was, now, live[i])
    requires forall j {:trigger live[j]} :: j in live && j != i ==> Own(now.view, live[j]) == Own(was.view, live[j])
    ensures forall j {:trigger live[j]} :: j in live && j != i ==>
              Undisturbed(was.view, was.bytes, now.view, now.bytes, live, live - {i}, j)
  {
    EvictedOthers(was.view, now.view, live[i].pml4);
    forall j | j in live && j != i ensures Undisturbed(was.view, was.bytes, now.view, now.bytes, live, live - {i}, j) {
      StandsStill(was.view, was.bytes, now.view, now.bytes, was.tab, managed, was.stock, all, live, live - {i}, i, j);
    }
  }

  // ---------------------------------------------------------------- runs

  /** A program is started, or the process in slot `i` makes a memory call or ends. */
  datatype Command = Spawn(file: seq<Byte>) | Issue(i: nat, c: Call) | Exit(i: nat)

  predicate Fit(c: Command) {
    match c
    case Spawn(file) => |file| < 0x1_0000_0000_0000_0000
    case Issue(_, call) => Sane(call)
    case Exit(_) => true
  }

  /** The command is for the process in slot `j`. */
  predicate Concerns(c: Command, j: nat) { !c.Spawn? && c.i == j }

  ghost function Spaces(live: map<nat, Memory>): set<Frame> { set i | i in live :: live[i].pml4 }

  ghost predicate NoneTorn(view: View, live: map<nat, Memory>) {
    forall j {:trigger live[j]} :: j in live ==> Torn(view, live[j].pml4, live[j].rs) == {}
  }

  /** What one command does: it concerns slot `i` and address space `who`. */
  ghost predicate Done(was: Snap, now: Snap, live: map<nat, Memory>, live': map<nat, Memory>, i: nat, who: Frame) {
    && was.lost <= now.lost && OthersSame(was.view, now.view, who) && OthersSame(was.tab, now.tab, who)
    && (forall j {:trigger live[j]} :: j in live && j != i ==>
      Undisturbed(was.view, was.bytes, now.view, now.bytes, live, live', j))
    && (forall j {:trigger live'[j]} :: j in live' && j != i ==> j in live)
    && (i in live ==> live[i].pml4 == who) && (i in live' ==> live'[i].pml4 == who)
    && (i !in live && i in live' ==> forall m :: m in was.tab || m in was.view ==> Space(m) != who)
    && (i in live && i !in live' ==> forall m :: m in now.tab || m in now.view ==> Space(m) != who)
    && (i !in live && i !in live' ==> now.view == was.view && now.tab == was.tab)
    && (NoneTorn(was.view, live) && now.lost == was.lost ==> i in live' ==> Torn(now.view, who, live'[i].rs) == {})
  }

  /** The processes in the table were there before or are new. */
  twostate predicate FromOrNew(t: seq<Process?>, new t': seq<Process?>) {
    forall j {:trigger t'[j]} :: 0 <= j < |t'| && t'[j] != null ==>
      (t'[j] in Objects(t) && t'[j].regions in Tables(t)) || (fresh(t'[j]) && fresh(t'[j].regions))
  }

  lemma StartDone(was: Snap, now: Snap, managed: set<int>, all: set<int>, live: map<nat, Memory>, i: nat, m: Memory)
    requires Group(was.view, was.tab, managed, was.stock, all, live) && i !in live && Started(was, now, managed, m)
    ensures Done(was, now, live, live[i := m], i, m.pml4)
    ensures Group(now.view, now.tab, managed, now.stock, all, live[i := m])
  {
    GroupBorn(was, now, managed, all, live, i, m);
    StartedStand(was, now, managed, all, live, i, m);
  }

  lemma RefusedDone(was: Snap, now: Snap, managed: set<int>, all: set<int>, live: map<nat, Memory>, i: nat)
    requires Group(was.view, was.tab, managed, was.stock, all, live) && i !in live && Refused(was, now)
    ensures Done(was, now, live, live, i, 0)
  {
    RefusedStand(was, now, managed, all, live);
  }

  /** A command that does nothing. */
  lemma StillDone(now: Snap, live: map<nat, Memory>, i: nat, who: Frame)
    requires i in live ==> live[i].pml4 == who
    ensures Done(now, now, live, live, i, who)
  {}

  // The first free slot.
  method FreeSlot(t: seq<Process?>) returns (i: nat)
    ensures i <= |t| && (i < |t| ==> t[i] == null) && forall j :: 0 <= j < i ==> t[j] != null
  {
    i := 0;
    while i < |t| && t[i] != null
      invariant 0 <= i <= |t| && forall j :: 0 <= j < i ==> t[j] != null
    {
      i := i + 1;
    }
  }

  // Start a process in the free slot `i`, up to the accounts of the others.
  method SpawnIn(vm: Vmm, t: seq<Process?>, i: nat, file: seq<Byte>, ghost live: map<nat, Memory>, ghost all: set<int>)
    returns (t': seq<Process?>, ghost live': map<nat, Memory>, ghost who: Frame)
    requires Running(vm, t, live, all) && i < SLOTS && t[i] == null && |file| < 0x1_0000_0000_0000_0000
    modifies vm, vm.pm, vm.pm.ranges
    ensures vm.Valid() && Filed(vm, t', live') && Group(vm.view, vm.tab, vm.pm.managed, vm.stock, all, live')
    ensures Done(old(Now(vm)), Now(vm), live, live', i, who) && FromOrNew(t, t')
  {
    ghost var was := Now(vm);
    var pr := NewBeside(vm, t, file, live);
    if pr == null {
      RefusedDone(was, Now(vm), vm.pm.managed, all, live, i);
      return t, live, 0;
    }
    t', live', who := t[i := pr], live[i := MemoryOf(pr)], pr.pml4;
    FiledBorn(vm, t, live, i, pr);
    StartDone(was, Now(vm), vm.pm.managed, all, live, i, MemoryOf(pr));
  }

  // A start, as a command.
  method ObeySpawn(vm: Vmm, t: seq<Process?>, i: nat, file: seq<Byte>, ghost live: map<nat, Memory>,
                   ghost all: set<int>)
    returns (t': seq<Process?>, ghost live': map<nat, Memory>, ghost who: Frame)
    requires Running(vm, t, live, all) && i < SLOTS && t[i] == null && |file| < 0x1_0000_0000_0000_0000
    modifies vm, vm.pm, vm.pm.ranges, Objects(t)
    ensures Running(vm, t', live', all) && Done(old(Now(vm)), Now(vm), live, live', i, who) && FromOrNew(t, t')
  {
    t', live', who := SpawnIn(vm, t, i, file, live, all);
    SettleGroup(vm, t', live', all);
  }

  // A memory call, as a command.
  method ObeyIssue(vm: Vmm, t: seq<Process?>, i: nat, c: Call, ghost live: map<nat, Memory>, ghost all: set<int>)
    returns (ghost live': map<nat, Memory>, ghost who: Frame)
    requires Running(vm, t, live, all) && i < SLOTS && t[i] != null && Sane(c)
    modifies Objects(t), t[i].regions, vm`tab, vm`view, vm`stock, vm.pm, vm.pm.ranges
    ensures Running(vm, t, live', all) && Done(old(Now(vm)), Now(vm), live, live', i, who)
  {
    who := live[i].pml4;
    ghost var tear;
    live', tear := CallIn(vm, t, i, c, live, all);
  }

  lemma EndDone(was: Snap, now: Snap, managed: set<int>, all: set<int>, live: map<nat, Memory>, i: nat)
    requires Group(was.view, was.tab, managed, was.stock, all, live) && i in live && Ended(was, now, live[i])
    requires forall j {:trigger live[j]} :: j in live && j != i ==> Own(now.view, live[j]) == Own(was.view, live[j])
    ensures Done(was, now, live, live - {i}, i, live[i].pml4)
  {
    EvictedOthers(was.view, now.view, live[i].pml4);
    EvictedOthers(was.tab, now.tab, live[i].pml4);
    OthersRemain(was, now, managed, all, live, i);
  }

  lemma FewerObjects(t: seq<Process?>, t': seq<Process?>, i: nat)
    requires i < |t| && t' == t[i := null]
    ensures Objects(t') <= Objects(t)
  {}

  // End the process in slot `i`, up to the accounts of the others.
  method ExitGroup(vm: Vmm, t: seq<Process?>, t': seq<Process?>, i: nat, ghost live: map<nat, Memory>,
                   ghost rest: map<nat, Memory>, ghost all: set<int>)
    requires Running(vm, t, live, all) && i < SLOTS && t[i] != null && t' == t[i := null] && rest == live - {i}
    modifies t[i], t[i].regions, vm, vm.pm, vm.pm.ranges
    ensures vm.Valid() && i in live && Done(old(Now(vm)), Now(vm), live, rest, i, live[i].pml4) && Filed(vm, t', rest)
    ensures Group(vm.view, vm.tab, vm.pm.managed, vm.stock, all, rest)
  {
    ghost var was, managed := Now(vm), vm.pm.managed;
    ExitFiled(vm, t, i, live, all);
    GroupGone(was.view, was.tab, vm.view, vm.tab, managed, was.stock, vm.stock, all, live, i);
    EndDone(was, Now(vm), managed, all, live, i);
  }

  // An exit, as a command; the slot is free again.
  method ObeyExit(vm: Vmm, t: seq<Process?>, i: nat, ghost live: map<nat, Memory>, ghost all: set<int>)
    returns (t': seq<Process?>, ghost live': map<nat, Memory>, ghost who: Frame)
    requires Running(vm, t, live, all) && i < SLOTS && t[i] != null
    modifies Objects(t), t[i].regions, vm, vm.pm, vm.pm.ranges
    ensures Running(vm, t', live', all) && Done(old(Now(vm)), Now(vm), live, live', i, who) && t' == t[i := null]
  {
    t', live', who := t[i := null], live - {i}, live[i].pml4;
    FewerObjects(t, t', i);
    ExitGroup(vm, t, t', i, live, live', all);
    SettleGroup(vm, t', live', all);
  }

  /** One command. It concerns the slot `at`; it does nothing when the table is full, the program cannot be loaded or
      the slot is free. */
  method Obey(vm: Vmm, t: seq<Process?>, c: Command, ghost live: map<nat, Memory>, ghost all: set<int>)
    returns (t': seq<Process?>, ghost live': map<nat, Memory>, ghost at: nat, ghost who: Frame)
    requires Running(vm, t, live, all) && Fit(c)
    modifies vm, vm.pm, vm.pm.ranges, Objects(t), Tables(t)
    ensures Running(vm, t', live', all) && Done(old(Now(vm)), Now(vm), live, live', at, who) && FromOrNew(t, t')
    ensures at in live ==> Concerns(c, at)
  {
    var i := if c.Spawn? then SLOTS else c.i;
    if c.Spawn? { i := FreeSlot(t); }
    at := i;
    if i >= SLOTS || (!c.Spawn? && t[i] == null) {
      t', live', who := t, live, 0;
      StillDone(Now(vm), live, at, who);
      return;
    }
    match c
    case Spawn(file) => t', live', who := ObeySpawn(vm, t, i, file, live, all);
    case Issue(_, call) =>
      t' := t;
      live', who := ObeyIssue(vm, t, i, call, live, all);
    case Exit(_) => t', live', who := ObeyExit(vm, t, i, live, all);
  }

  // ---------------------------------------------------------------- what a run keeps

  lemma UndisturbedOn(v0: View, b0: map<Frame, Page>, v1: View, b1: map<Frame, Page>, v2: View, b2: map<Frame, Page>,
                      live0: map<nat, Memory>, live1: map<nat, Memory>, live2: map<nat, Memory>, j: nat)
    requires j in live0 && Undisturbed(v0, b0, v1, b1, live0, live1, j) && Undisturbed(v1, b1, v2, b2, live1, live2, j)
    ensures Undisturbed(v0, b0, v2, b2, live0, live2, j)
  {
    forall k | Space(k) == live0[j].pml4 ensures (k in v0 <==> k in v2) && (k in v0 ==> v2[k] == v0[k]) {
      assert k in v0 <==> k in v1;
    }
    forall f: Frame | f in Own(v0, live0[j]) && f in b0 ensures f in b2 && b2[f] == b0[f] {
      assert f in b1 && b1[f] == b0[f];
    }
  }

  lemma TornKept(view: View, view': View, q: Frame, rs: seq<Region>)
    requires forall k :: Space(k) == q ==> (k in view <==> k in view')
    ensures Torn(view', q, rs) == Torn(view, q, rs)
  {
    forall r | 0 <= r < |rs| ensures Whole(view', q, rs[r]) <==> Whole(view, q, rs[r]) {
      forall v | rs[r].base <= v < rs[r].End() ensures Leaf(q, v) in view <==> Leaf(q, v) in view' { LeafPath(q, v); }
      assert forall k :: k in RunKeys(q, rs[r].base, rs[r].End()) ==> (k in view <==> k in view');
    }
  }

  /** As long as nothing is lost no command tears a region. */
  lemma NoneTornStep(was: Snap, now: Snap, live: map<nat, Memory>, live': map<nat, Memory>, i: nat, who: Frame)
    requires Done(was, now, live, live', i, who) && NoneTorn(was.view, live) && now.lost == was.lost
    ensures NoneTorn(now.view, live')
  {
    forall j | j in live' ensures Torn(now.view, live'[j].pml4, live'[j].rs) == {} {
      if j != i {
        assert Undisturbed(was.view, was.bytes, now.view, now.bytes, live, live', j);
        TornKept(was.view, now.view, live[j].pml4, live[j].rs);
      }
    }
  }

  /** The other processes are the same, and have other address spaces. */
  ghost predicate Beside(live: map<nat, Memory>, live': map<nat, Memory>, i: nat, who: Frame) {
    && (forall j {:trigger live[j]} :: j in live && j != i ==>
          j in live' && live'[j] == live[j] && (i in live || i in live' ==> live[j].pml4 != who))
    && (forall j {:trigger live'[j]} :: j in live' && j != i ==> j in live)
    && (i in live ==> live[i].pml4 == who) && (i in live' ==> live'[i].pml4 == who)
  }

  lemma DoneBeside(was: Snap, now: Snap, managed: set<int>, all: set<int>, live: map<nat, Memory>,
                   live': map<nat, Memory>, i: nat, who: Frame)
    requires Done(was, now, live, live', i, who) && Group(was.view, was.tab, managed, was.stock, all, live)
    ensures Beside(live, live', i, who)
  {
    forall j | j in live && j != i
      ensures j in live' && live'[j] == live[j] && (i in live || i in live' ==> live[j].pml4 != who)
    {
      assert Undisturbed(was.view, was.bytes, now.view, now.bytes, live, live', j);
      assert Apart(was.view, live, i, j);
      assert Space(Root(live[j].pml4)) == live[j].pml4;
    }
  }

  lemma SpacesStep(live: map<nat, Memory>, live': map<nat, Memory>, i: nat, who: Frame)
    requires Beside(live, live', i, who)
    ensures i in live || i in live' ==> forall q :: q != who ==> (q in Spaces(live') <==> q in Spaces(live))
    ensures i !in live && i !in live' ==> Spaces(live') == Spaces(live)
    ensures i in live ==> who in Spaces(live)
    ensures i in live' ==> who in Spaces(live')
    ensures i !in live && i in live' ==> who !in Spaces(live)
    ensures i in live && i !in live' ==> who !in Spaces(live')
  {}

  lemma OutsideKept<T>(s0: map<Node, T>, s: map<Node, T>, s': map<Node, T>, was: Snap, now: Snap, managed: set<int>,
                       all: set<int>,
                       live: map<nat, Memory>, live': map<nat, Memory>, i: nat, who: Frame)
    requires Done(was, now, live, live', i, who) && Group(was.view, was.tab, managed, was.stock, all, live)
    requires Isolation.SameOutside(s0, s, Spaces(live)) && OthersSame(s, s', who)
    requires i !in live && i in live' ==> forall m :: m in s ==> Space(m) != who
    requires i in live && i !in live' ==> forall m :: m in s' ==> Space(m) != who
    requires i !in live && i !in live' ==> s' == s
    ensures Isolation.SameOutside(s0, s', Spaces(live'))
  {
    DoneBeside(was, now, managed, all, live, live', i, who);
    SpacesStep(live, live', i, who);
    if i in live || i in live' { Isolation.OutsideStep(s0, s, s', Spaces(live), Spaces(live'), who); }
  }

  /** Compared with a state before all of the processes, everything outside their address spaces is the same. */
  ghost predicate Above(was: Snap, now: Snap, live: map<nat, Memory>) {
    && Isolation.SameOutside(was.tab, now.tab, Spaces(live)) && Isolation.SameOutside(was.view, now.view, Spaces(live))
    && was.lost <= now.lost
  }

  /** What one command keeps of a run. */
  ghost predicate Went(mid: Snap, now: Snap, live: map<nat, Memory>, live': map<nat, Memory>, c: Command) {
    && mid.lost <= now.lost && (NoneTorn(mid.view, live) && now.lost == mid.lost ==> NoneTorn(now.view, live'))
    && (forall j {:trigger live[j]} :: j in live && !Concerns(c, j) ==>
          Undisturbed(mid.view, mid.bytes, now.view, now.bytes, live, live', j))
  }

  lemma DoneWent(was: Snap, mid: Snap, now: Snap, managed: set<int>, all: set<int>, live: map<nat, Memory>,
                 live': map<nat, Memory>, c: Command, i: nat, who: Frame)
    requires Done(mid, now, live, live', i, who) && Group(mid.view, mid.tab, managed, mid.stock, all, live)
    requires Above(was, mid, live) && (i in live ==> Concerns(c, i))
    ensures Above(was, now, live') && Went(mid, now, live, live', c)
  {
    OutsideKept(was.tab, mid.tab, now.tab, mid, now, managed, all, live, live', i, who);
    OutsideKept(was.view, mid.view, now.view, mid, now, managed, all, live, live', i, who);
    if NoneTorn(mid.view, live) && now.lost == mid.lost { NoneTornStep(mid, now, live, live', i, who); }
  }

  // One command, and what it keeps of a run.
  method Step(vm: Vmm, t: seq<Process?>, c: Command, ghost live: map<nat, Memory>, ghost all: set<int>, ghost was: Snap)
    returns (t': seq<Process?>, ghost live': map<nat, Memory>)
    requires Running(vm, t, live, all) && Above(was, Now(vm), live) && Fit(c)
    modifies vm, vm.pm, vm.pm.ranges, Objects(t), Tables(t)
    ensures Running(vm, t', live', all) && FromOrNew(t, t')
    ensures Above(was, Now(vm), live') && Went(old(Now(vm)), Now(vm), live, live', c)
  {
    ghost var mid, managed := Now(vm), vm.pm.managed;
    ghost var at, who;
    t', live', at, who := Obey(vm, t, c, live, all);
    DoneWent(was, mid, Now(vm), managed, all, live, live', c, at, who);
  }

  /** One of the first `n` commands is for the process in slot `j`. */
  predicate Named(commands: seq<Command>, n: nat, j: nat)
    requires n <= |commands|
  {
    exists m :: 0 <= m < n && Concerns(commands[m], j)
  }

  predicate AllSane(commands: seq<Command>) {
    forall n :: 0 <= n < |commands| ==> Fit(commands[n])
  }

  /** What the first `n` commands keep: everything outside the address spaces of the processes, the regions whole while
      nothing is lost, and the processes that none of the commands names. */
  ghost predicate Kept(was: Snap, first: Snap, now: Snap, live0: map<nat, Memory>, live: map<nat, Memory>,
                       commands: seq<Command>, n: nat)
    requires n <= |commands|
  {
    && Above(was, now, live) && first.lost <= now.lost
    && (NoneTorn(first.view, live0) && now.lost == first.lost ==> NoneTorn(now.view, live))
    && (forall j {:trigger live0[j]} :: j in live0 && !Named(commands, n, j) ==>
          Undisturbed(first.view, first.bytes, now.view, now.bytes, live0, live, j))
  }

  lemma KeptNone(was: Snap, now: Snap, live: map<nat, Memory>, commands: seq<Command>)
    requires Above(was, now, live)
    ensures Kept(was, now, now, live, live, commands, 0)
  {}

  lemma KeptOn(was: Snap, first: Snap, mid: Snap, now: Snap, live0: map<nat, Memory>, live1: map<nat, Memory>,
               live2: map<nat, Memory>, commands: seq<Command>, n: nat, next: nat)
    requires n < |commands| && next == n + 1 && Kept(was, first, mid, live0, live1, commands, n)
    requires Went(mid, now, live1, live2, commands[n]) && Above(was, now, live2)
    ensures Kept(was, first, now, live0, live2, commands, next)
  {
    forall j | j in live0 && !Named(commands, next, j)
      ensures Undisturbed(first.view, first.bytes, now.view, now.bytes, live0, live2, j)
    {
      assert !Named(commands, n, j) && !Concerns(commands[n], j);
      assert Undisturbed(first.view, first.bytes, mid.view, mid.bytes, live0, live1, j);
      UndisturbedOn(first.view, first.bytes, mid.view, mid.bytes, now.view, now.bytes, live0, live1, live2, j);
    }
  }

  // The next command of a run that began at `first`.
  method StepOn(vm: Vmm, t: seq<Process?>, commands: seq<Command>, n: nat, next: nat, ghost live0: map<nat, Memory>,
                ghost live: map<nat, Memory>, ghost all: set<int>, ghost was: Snap, ghost first: Snap)
    returns (t': seq<Process?>, ghost live': map<nat, Memory>)
    requires Running(vm, t, live, all) && n < |commands| && next == n + 1
    requires AllSane(commands) && Kept(was, first, Now(vm), live0, live, commands, n)
    modifies vm, vm.pm, vm.pm.ranges, Objects(t), Tables(t)
    ensures Running(vm, t', live', all) && FromOrNew(t, t')
    ensures Kept(was, first, Now(vm), live0, live', commands, next)
  {
    ghost var mid := Now(vm);
    t', live' := Step(vm, t, commands[n], live, all, was);
    KeptOn(was, first, mid, Now(vm), live0, live, live', commands, n, next);
  }

  // The commands from `n` on.
  method ServeFrom(vm: Vmm, t0: seq<Process?>, commands: seq<Command>, n: nat, ghost live0: map<nat, Memory>,
                   ghost live1: map<nat, Memory>, ghost all: set<int>, ghost was: Snap, ghost first: Snap)
    returns (t: seq<Process?>, ghost live: map<nat, Memory>)
    requires Running(vm, t0, live1, all) && n <= |commands| && AllSane(commands)
    requires Kept(was, first, Now(vm), live0, live1, commands, n)
    modifies vm, vm.pm, vm.pm.ranges, Objects(t0), Tables(t0)
    ensures Running(vm, t, live, all) && FromOrNew(t0, t)
    ensures Kept(was, first, Now(vm), live0, live, commands, |commands|)
    decreases |commands| - n
  {
    t, live := t0, live1;
    if n < |commands| {
      var next := n + 1;
      t, live := StepOn(vm, t, commands, n, next, live0, live, all, was, first);
      t, live := ServeFrom(vm, t, commands, next, live0, live, all, was, first);
    }
  }

  /** Any commands of any processes, in any order: every process stays sound, none shares an address space or a frame of
      its own with another, one that no command names keeps its regions, its heap, its pages and their contents, and as
      long as no page is lost every active region of every process stays fully mapped. */
  method ServeGroup(vm: Vmm, t0: seq<Process?>, commands: seq<Command>, ghost live0: map<nat, Memory>,
                    ghost all: set<int>, ghost was: Snap)
    returns (t: seq<Process?>, ghost live: map<nat, Memory>)
    requires Running(vm, t0, live0, all) && Above(was, Now(vm), live0) && AllSane(commands)
    modifies vm, vm.pm, vm.pm.ranges, Objects(t0), Tables(t0)
    ensures Running(vm, t, live, all) && FromOrNew(t0, t)
    ensures Kept(was, old(Now(vm)), Now(vm), live0, live, commands, |commands|)
  {
    KeptNone(was, Now(vm), live0, commands);
    t, live := ServeFrom(vm, t0, commands, 0, live0, live0, all, was, Now(vm));
  }

  // End one process.
  method FinishOne(vm: Vmm, t: seq<Process?>, i: nat, ghost live: map<nat, Memory>, ghost all: set<int>,
                   ghost was: Snap)
    returns (t': seq<Process?>, ghost live': map<nat, Memory>)
    requires Running(vm, t, live, all) && Above(was, Now(vm), live) && i < SLOTS && t[i] != null
    modifies vm, vm.pm, vm.pm.ranges, Objects(t), Tables(t)
    ensures Running(vm, t', live', all) && Above(was, Now(vm), live') && t' == t[i := null]
  {
    ghost var mid, managed := Now(vm), vm.pm.managed;
    ghost var who;
    t', live', who := ObeyExit(vm, t, i, live, all);
    DoneWent(was, mid, Now(vm), managed, all, live, live', Exit(i), i, who);
  }

  /** From slot `i` on the table is unchanged, and before it is empty. */
  ghost predicate EmptyTo(t0: seq<Process?>, t: seq<Process?>, i: nat) {
    |t| == |t0| && forall j {:trigger t[j]} :: 0 <= j < |t| ==> t[j] == null || (t[j] == t0[j] && i <= j)
  }

  lemma FewerLeft(t0: seq<Process?>, t: seq<Process?>, t': seq<Process?>, i: nat, next: nat)
    requires EmptyTo(t0, t, i) && i < |t| && next == i + 1 && t' == t[i := null]
    ensures EmptyTo(t0, t', next) && Objects(t') <= Objects(t0) && Tables(t') <= Tables(t0)
  {}

  lemma NobodyFiled(vm: Vmm, t0: seq<Process?>, t: seq<Process?>, live: map<nat, Memory>)
    requires Filed(vm, t, live) && EmptyTo(t0, t, |t|)
    ensures live == map[]
  {
    forall i: nat ensures i !in live { if i < SLOTS { assert t[i] == null; } }
  }

  // End all processes.
  method FinishAll(vm: Vmm, t0: seq<Process?>, ghost live0: map<nat, Memory>, ghost all: set<int>, ghost was: Snap)
    requires Running(vm, t0, live0, all) && Above(was, Now(vm), live0)
    modifies vm, vm.pm, vm.pm.ranges, Objects(t0), Tables(t0)
    ensures vm.Valid() && Group(vm.view, vm.tab, vm.pm.managed, vm.stock, all, map[]) && Above(was, Now(vm), map[])
  {
    var t, i := t0, 0;
    ghost var live := live0;
    while i < SLOTS
      invariant 0 <= i <= SLOTS && Running(vm, t, live, all) && Above(was, Now(vm), live)
      invariant EmptyTo(t0, t, i) && Objects(t) <= Objects(t0) && Tables(t) <= Tables(t0)
    {
      var next := i + 1;
      FewerLeft(t0, t, t[i := null], i, next);
      if t[i] != null { t, live := FinishOne(vm, t, i, live, all, was); } else { assert t == t[i := null]; }
      i := next;
    }
    NobodyFiled(vm, t0, t, live);
  }

  lemma AllGone(was: Snap, now: Snap)
    requires Above(was, now, map[])
    ensures now.tab == was.tab && now.view == was.view
  {
    assert Spaces(map[]) == {};
    Isolation.NobodyLeft(was.tab, now.tab);
    Isolation.NobodyLeft(was.view, now.view);
  }

  lemma StockBack(view: View, tab: Tab, managed: set<int>, stock: set<int>, all: set<int>)
    requires Group(view, tab, managed, stock, all, map[])
    ensures stock == all
  {
    forall f | f in all ensures f in stock { assert !OwnedBy(view, map[], f); }
  }

  // From the empty table to the empty table again.
  method LiveAndEnd(vm: Vmm, commands: seq<Command>)
    requires vm.Valid() && AllSane(commands)
    modifies vm, vm.pm, vm.pm.ranges
    ensures vm.Valid() && Group(vm.view, vm.tab, vm.pm.managed, vm.stock, old(vm.stock), map[])
    ensures Above(old(Now(vm)), Now(vm), map[])
  {
    ghost var was := Now(vm);
    var empty := seq(SLOTS, _ => null);
    NobodyYet(vm, empty, was);
    ghost var live;
    var t;
    t, live := ServeGroup(vm, empty, commands, map[], was.stock, was);
    FinishAll(vm, t, live, was.stock, was);
  }

  /** Start processes, let them make any memory calls in turn, end some and start others, and end them all at last:
      tables, translations and pages are as before, and the free list is the same list unless so many pages were in use
      that the free-range array could be full. */
  method Lives(vm: Vmm, commands: seq<Command>)
    requires vm.Valid() && AllSane(commands)
    modifies vm, vm.pm, vm.pm.ranges
    ensures vm.Valid() && vm.tab == old(vm.tab) && vm.view == old(vm.view) && vm.stock == old(vm.stock)
    ensures vm.pm.free + vm.pm.lost == old(vm.pm.free + vm.pm.lost)
    ensures vm.pm.lost == old(vm.pm.lost) || vm.pm.Roomy() ==> vm.pm.list == old(vm.pm.list)
  {
    ghost var was := Now(vm);
    LiveAndEnd(vm, commands);
    AllGone(was, Now(vm));
    StockBack(vm.view, vm.tab, vm.pm.managed, vm.stock, was.stock);
    SameReturned(was.list, vm.pm.list, vm.tab, vm.pm.managed, vm.stock, was.free, vm.pm.free, was.lost, vm.pm.lost);
  }

  /** With an empty table the run may start. */
  lemma NobodyYet(vm: Vmm, t: seq<Process?>, was: Snap)
    requires vm.Valid() && was == Now(vm) && |t| == SLOTS && forall i :: 0 <= i < SLOTS ==> t[i] == null
    ensures Running(vm, t, map[], vm.stock) && Above(was, Now(vm), map[])
  {}
}
