/** The page-table tree as a relation between memory words and two ghost maps:
    `tab` names the frame of every live table, `view` is the finite map the tables represent.
    A node is a path of table indices below a PML4; all address spaces share one `tab`. */
module PageTree {
  import opened Hardware

  datatype Node = Root(pml4: Frame) | Child(up: Node, at: int)

  /** 4 for a PML4 down to 1 for a page table; 0 for a mapped page. */
  function Level(n: Node): int {
    match n
    case Root(_) => 4
    case Child(u, _) => Level(u) - 1
  }

  /** The PML4 frame of the address space a node belongs to. */
  function Space(n: Node): Frame {
    match n
    case Root(p) => p
    case Child(u, _) => Space(u)
  }

  /** Entries of a table that belong to the address space: the kernel half of a PML4 does not. */
  function Width(n: Node): int { if n.Root? then 256 else 512 }

  type Tab = map<Node, Frame>
  type View = map<Node, Entry>
  type Words = map<Frame, Table>

  ghost predicate Full(words: Words) { forall f: Frame :: f in words }

  function Ent(words: Words, f: Frame, i: int): Entry {
    if f in words && 0 <= i < 512 then words[f][i] else NO_ENTRY
  }

  function Put(words: Words, f: Frame, i: int, e: Entry): Words
    requires f in words && 0 <= i < 512
  {
    words[f := words[f][i := e]]
  }

  /** Node `n` has something below index `i`: a live table or a mapped page. */
  ghost predicate Kid(tab: Tab, view: View, n: Node, i: int) { Child(n, i) in tab || Child(n, i) in view }

  ghost predicate Occupied(tab: Tab, view: View, n: Node) { exists i :: Kid(tab, view, n, i) }

  // ---------------------------------------------------------------- the invariant

  ghost predicate Placed(tab: Tab, n: Node)
    requires n in tab
  {
    && 1 <= Level(n) <= 4
    && (n.Root? ==> tab[n] == n.pml4)
    && (n.Child? ==> n.up in tab && 0 <= n.at < Width(n.up))
  }

  ghost predicate Distinct(tab: Tab, m: Node, n: Node) {
    m in tab && n in tab && tab[m] == tab[n] ==> m == n
  }

  /** The nodes form trees of depth four below their roots, and no two nodes share a frame. */
  ghost predicate Shape(tab: Tab) {
    && (forall n {:trigger Placed(tab, n)} :: n in tab ==> Placed(tab, n))
    && (forall m, n :: Distinct(tab, m, n))
  }

  /** Entry `i` of an interior table is present exactly when the child is live, and then points to it;
      an absent entry is all zero. */
  ghost predicate Slot(tab: Tab, words: Words, n: Node, i: int)
    requires n in tab
  {
    var e := Ent(words, tab[n], i);
    && (e.bits.present <==> Child(n, i) in tab)
    && (if Child(n, i) in tab then !e.bits.huge && e.addr == tab[Child(n, i)] else e == NO_ENTRY)
  }

  ghost predicate Linked(tab: Tab, words: Words) {
    forall n, i {:trigger Slot(tab, words, n, i)} :: n in tab && Level(n) > 1 && 0 <= i < Width(n) ==>
      Slot(tab, words, n, i)
  }

  /** Entry `i` of a page table is present exactly when the view has the page, and then is its value. */
  ghost predicate Cell(tab: Tab, view: View, words: Words, n: Node, i: int)
    requires n in tab
  {
    var e := Ent(words, tab[n], i);
    && (e.bits.present <==> Child(n, i) in view)
    && e == (if Child(n, i) in view then view[Child(n, i)] else NO_ENTRY)
  }

  ghost predicate Viewed(tab: Tab, view: View, words: Words) {
    && (forall k :: k in view ==> k.Child? && k.up in tab && Level(k.up) == 1 && 0 <= k.at < 512)
    && (forall n, i {:trigger Cell(tab, view, words, n, i)} :: n in tab && Level(n) == 1 && 0 <= i < 512 ==>
      Cell(tab, view, words, n, i))
  }

  /** User-writable pages are never executable. */
  ghost predicate WxClean(view: View) {
    forall k :: k in view && view[k].bits.user && view[k].bits.writable ==> view[k].bits.noExecute
  }

  ghost predicate Wf(tab: Tab, view: View, words: Words) {
    Full(words) && Shape(tab) && Linked(tab, words) && Viewed(tab, view, words) && WxClean(view)
  }

  /** Every table below a PML4, except those in `spare`, has something below it. */
  ghost predicate Pruned(tab: Tab, view: View, spare: set<Node>) {
    forall n {:trigger Occupied(tab, view, n)} :: n in tab && n.Child? && n !in spare ==> Occupied(tab, view, n)
  }

  /** A table is occupied exactly when one of its entries is present. */
  lemma OccupiedIsPresent(tab: Tab, view: View, words: Words, n: Node)
    requires Wf(tab, view, words) && n in tab && n.Child?
    ensures Occupied(tab, view, n) <==> exists i :: 0 <= i < 512 && Ent(words, tab[n], i).bits.present
  {
    assert Placed(tab, n);
    if i :| Kid(tab, view, n, i) {
      if Child(n, i) in tab { assert Placed(tab, Child(n, i)); assert Slot(tab, words, n, i); }
      else { assert Cell(tab, view, words, n, i); }
    }
    if i :| 0 <= i < 512 && Ent(words, tab[n], i).bits.present {
      if Level(n) == 1 { assert Cell(tab, view, words, n, i); } else { assert Slot(tab, words, n, i); }
      assert Kid(tab, view, n, i);
    }
  }

  // ---------------------------------------------------------------- one-entry edits

  /** A fresh empty table `f` is hung below node `n` at index `i`. */
  lemma TableAdded(tab: Tab, view: View, words: Words, n: Node, i: int, f: Frame, e: Entry)
    requires Wf(tab, view, words) && n in tab && Level(n) > 1 && 0 <= i < Width(n)
    requires Child(n, i) !in tab && f !in tab.Values && words[f] == ZeroTable()
    requires e.addr == f && e.bits.present && !e.bits.huge
    ensures Wf(tab[Child(n, i) := f], view, Put(words, tab[n], i, e))
  {
    AddedShape(tab, n, i, f);
    AddedLinked(tab, words, n, i, f, e);
    AddedViewed(tab, view, words, n, i, f, e);
  }

  lemma AddedShape(tab: Tab, n: Node, i: int, f: Frame)
    requires Shape(tab) && n in tab && Level(n) > 1 && 0 <= i < Width(n) && f !in tab.Values
    ensures Shape(tab[Child(n, i) := f])
  {
    var c := Child(n, i);
    var tab' := tab[c := f];
    forall m | m in tab' ensures Placed(tab', m) {
      assert Placed(tab, n);
      if m != c { assert Placed(tab, m); }
    }
    DistinctAdded(tab, c, f);
  }

  lemma DistinctAdded(tab: Tab, c: Node, f: Frame)
    requires Shape(tab) && f !in tab.Values
    ensures var tab' := tab[c := f]; forall m, n :: Distinct(tab', m, n)
  {
    var tab' := tab[c := f];
    forall m, n ensures Distinct(tab', m, n) { assert Distinct(tab, m, n); }
  }

  lemma DistinctRemoved(tab: Tab, c: Node)
    requires Shape(tab)
    ensures var tab' := tab - {c}; forall m, n :: Distinct(tab', m, n)
  {
    var tab' := tab - {c};
    forall m, n ensures Distinct(tab', m, n) { assert Distinct(tab, m, n); }
  }

  lemma AddedLinked(tab: Tab, words: Words, n: Node, i: int, f: Frame, e: Entry)
    requires Full(words) && Shape(tab) && Linked(tab, words) && n in tab && Level(n) > 1 && 0 <= i < Width(n)
    requires Child(n, i) !in tab && f !in tab.Values && words[f] == ZeroTable()
    requires e.addr == f && e.bits.present && !e.bits.huge
    ensures Linked(tab[Child(n, i) := f], Put(words, tab[n], i, e))
  {
    var c := Child(n, i);
    var tab', words' := tab[c := f], Put(words, tab[n], i, e);
    forall m, j | m in tab' && Level(m) > 1 && 0 <= j < Width(m) ensures Slot(tab', words', m, j) {
      if m == c {
        assert Child(m, j) !in tab by { NoOrphan(tab, c, j); }
      } else {
        assert Slot(tab, words, m, j);
        OtherFrame(tab, m, n);
      }
    }
  }

  lemma AddedViewed(tab: Tab, view: View, words: Words, n: Node, i: int, f: Frame, e: Entry)
    requires Full(words) && Shape(tab) && Viewed(tab, view, words) && n in tab && Level(n) > 1 && 0 <= i < Width(n)
    requires Child(n, i) !in tab && f !in tab.Values && words[f] == ZeroTable()
    ensures Viewed(tab[Child(n, i) := f], view, Put(words, tab[n], i, e))
  {
    var c := Child(n, i);
    var tab', words' := tab[c := f], Put(words, tab[n], i, e);
    assert words'[f] == ZeroTable() by { assert tab[n] in tab.Values; }
    forall m, j | m in tab' && Level(m) == 1 && 0 <= j < 512 ensures Cell(tab', view, words', m, j) {
      if m != c { OtherCell(tab, view, words, n, i, e, m, j); }
    }
  }

  /** Writing a table leaves the cells of every other page table as they were. */
  lemma OtherCell(tab: Tab, view: View, words: Words, n: Node, i: int, e: Entry, m: Node, j: int)
    requires Full(words) && Shape(tab) && Viewed(tab, view, words) && n in tab && 0 <= i < 512
    requires m in tab && m != n && Level(m) == 1 && 0 <= j < 512
    ensures Cell(tab, view, Put(words, tab[n], i, e), m, j)
  {
    assert Cell(tab, view, words, m, j);
    OtherFrame(tab, m, n);
  }

  /** An empty table below `n` is unlinked. */
  lemma TableRemoved(tab: Tab, view: View, words: Words, n: Node, i: int)
    requires Wf(tab, view, words) && n in tab && Level(n) > 1 && 0 <= i < Width(n)
    requires Child(n, i) in tab && !Occupied(tab, view, Child(n, i))
    ensures Wf(tab - {Child(n, i)}, view, Put(words, tab[n], i, NO_ENTRY))
  {
    RemovedShape(tab, view, n, i);
    RemovedLinked(tab, words, n, i);
    RemovedViewed(tab, view, words, n, i);
  }

  lemma RemovedShape(tab: Tab, view: View, n: Node, i: int)
    requires Shape(tab) && Child(n, i) in tab && !Occupied(tab, view, Child(n, i))
    ensures Shape(tab - {Child(n, i)})
  {
    var c := Child(n, i);
    var tab' := tab - {c};
    forall m | m in tab' ensures Placed(tab', m) {
      assert Placed(tab, m);
      if m.Child? { assert m == Child(m.up, m.at); assert !Kid(tab, view, c, m.at); }
    }
    DistinctRemoved(tab, c);
  }

  lemma RemovedLinked(tab: Tab, words: Words, n: Node, i: int)
    requires Full(words) && Shape(tab) && Linked(tab, words) && n in tab && 0 <= i < Width(n)
    requires Child(n, i) in tab
    ensures Linked(tab - {Child(n, i)}, Put(words, tab[n], i, NO_ENTRY))
  {
    var c := Child(n, i);
    var tab', words' := tab - {c}, Put(words, tab[n], i, NO_ENTRY);
    forall m, j | m in tab' && Level(m) > 1 && 0 <= j < Width(m) ensures Slot(tab', words', m, j) {
      assert Slot(tab, words, m, j);
      OtherFrame(tab, m, n);
    }
  }

  lemma RemovedViewed(tab: Tab, view: View, words: Words, n: Node, i: int)
    requires Full(words) && Shape(tab) && Viewed(tab, view, words) && n in tab && Level(n) > 1 && 0 <= i < Width(n)
    requires Child(n, i) in tab && !Occupied(tab, view, Child(n, i))
    ensures Viewed(tab - {Child(n, i)}, view, Put(words, tab[n], i, NO_ENTRY))
  {
    var c := Child(n, i);
    var tab', words' := tab - {c}, Put(words, tab[n], i, NO_ENTRY);
    forall k | k in view ensures k.Child? && k.up in tab' {
      assert k == Child(k.up, k.at);
      assert !Kid(tab, view, c, k.at);
    }
    forall m, j | m in tab' && Level(m) == 1 && 0 <= j < 512 ensures Cell(tab', view, words', m, j) {
      OtherCell(tab, view, words, n, i, NO_ENTRY, m, j);
    }
  }

  /** A page-table entry is written: the view gains or changes exactly that page. */
  lemma LeafPut(tab: Tab, view: View, words: Words, n: Node, i: int, e: Entry)
    requires Wf(tab, view, words) && n in tab && Level(n) == 1 && 0 <= i < 512
    requires e.bits.present && (e.bits.user && e.bits.writable ==> e.bits.noExecute)
    ensures Wf(tab, view[Child(n, i) := e], Put(words, tab[n], i, e))
  {
    PutLinked(tab, words, n, i, e);
    PutViewed(tab, view, words, n, i, e);
  }

  lemma PutViewed(tab: Tab, view: View, words: Words, n: Node, i: int, e: Entry)
    requires Full(words) && Shape(tab) && Viewed(tab, view, words) && n in tab && Level(n) == 1 && 0 <= i < 512
    requires e.bits.present
    ensures Viewed(tab, view[Child(n, i) := e], Put(words, tab[n], i, e))
  {
    var view', words' := view[Child(n, i) := e], Put(words, tab[n], i, e);
    forall m, j | m in tab && Level(m) == 1 && 0 <= j < 512 ensures Cell(tab, view', words', m, j) {
      assert Cell(tab, view, words, m, j);
      OtherFrame(tab, m, n);
    }
  }

  /** A page-table entry is cleared: the view loses exactly that page. */
  lemma LeafCleared(tab: Tab, view: View, words: Words, n: Node, i: int)
    requires Wf(tab, view, words) && n in tab && Level(n) == 1 && 0 <= i < 512
    ensures Wf(tab, view - {Child(n, i)}, Put(words, tab[n], i, NO_ENTRY))
  {
    var view', words' := view - {Child(n, i)}, Put(words, tab[n], i, NO_ENTRY);
    PutLinked(tab, words, n, i, NO_ENTRY);
    forall m, j | m in tab && Level(m) == 1 && 0 <= j < 512 ensures Cell(tab, view', words', m, j) {
      assert Cell(tab, view, words, m, j);
      OtherFrame(tab, m, n);
    }
  }

  lemma PutLinked(tab: Tab, words: Words, n: Node, i: int, e: Entry)
    requires Full(words) && Shape(tab) && Linked(tab, words) && n in tab && Level(n) == 1 && 0 <= i < 512
    ensures Linked(tab, Put(words, tab[n], i, e))
  {
    forall m, j | m in tab && Level(m) > 1 && 0 <= j < Width(m) ensures Slot(tab, Put(words, tab[n], i, e), m, j) {
      assert Slot(tab, words, m, j);
      OtherFrame(tab, m, n);
    }
  }

  /** Raising the user bit of an interior entry changes nothing the view can see. */
  lemma SlotRaised(tab: Tab, view: View, words: Words, n: Node, i: int, e: Entry)
    requires Wf(tab, view, words) && n in tab && Level(n) > 1 && 0 <= i < 512
    requires var d := Ent(words, tab[n], i);
             d.bits.present && e.addr == d.addr && e.bits.present && e.bits.huge == d.bits.huge
    ensures Wf(tab, view, Put(words, tab[n], i, e))
  {
    var words' := Put(words, tab[n], i, e);
    forall m, j | m in tab && Level(m) > 1 && 0 <= j < Width(m) ensures Slot(tab, words', m, j) {
      assert Slot(tab, words, m, j);
      OtherFrame(tab, m, n);
    }
    forall m, j | m in tab && Level(m) == 1 && 0 <= j < 512 ensures Cell(tab, view, words', m, j) {
      assert Cell(tab, view, words, m, j);
      OtherFrame(tab, m, n);
    }
  }

  /** A new PML4 whose user half is empty. */
  lemma RootAdded(tab: Tab, view: View, words: Words, words': Words, f: Frame)
    requires Wf(tab, view, words) && f !in tab.Values && Root(f) !in tab
    requires Full(words') && (forall g: Frame :: g != f ==> words'[g] == words[g])
    requires forall i :: 0 <= i < 256 ==> Ent(words', f, i) == NO_ENTRY
    ensures Wf(tab[Root(f) := f], view, words')
  {
    var tab' := tab[Root(f) := f];
    DistinctAdded(tab, Root(f), f);
    forall m | m in tab ensures tab[m] != f {}
    forall m | m in tab' ensures Placed(tab', m) {
      if m != Root(f) { assert Placed(tab, m); }
    }
    forall m, j | m in tab' && Level(m) > 1 && 0 <= j < Width(m) ensures Slot(tab', words', m, j) {
      if m != Root(f) { assert Slot(tab, words, m, j); } else { NoOrphan(tab, m, j); }
    }
    forall m, j | m in tab' && Level(m) == 1 && 0 <= j < 512 ensures Cell(tab', view, words', m, j) {
      assert Cell(tab, view, words, m, j);
    }
  }

  /** A PML4 with an empty user half is given up. */
  lemma RootRemoved(tab: Tab, view: View, words: Words, f: Frame)
    requires Wf(tab, view, words) && Root(f) in tab
    requires forall i :: 0 <= i < 256 ==> Child(Root(f), i) !in tab
    ensures Wf(tab - {Root(f)}, view, words)
  {
    var tab' := tab - {Root(f)};
    DistinctRemoved(tab, Root(f));
    forall m | m in tab' ensures Placed(tab', m) {
      assert Placed(tab, m);
    }
    forall m, j | m in tab' && Level(m) > 1 && 0 <= j < Width(m) ensures Slot(tab', words, m, j) {
      assert Slot(tab, words, m, j);
    }
    forall m, j | m in tab' && Level(m) == 1 && 0 <= j < 512 ensures Cell(tab', view, words, m, j) {
      assert Cell(tab, view, words, m, j);
    }
  }

  /** A node that is not live has no live child. */
  lemma NoOrphan(tab: Tab, n: Node, i: int)
    requires Shape(tab) && n !in tab
    ensures Child(n, i) !in tab
  {
    assert Child(n, i) in tab ==> Placed(tab, Child(n, i));
  }

  /** Nothing hangs below a node that is not live. */
  lemma Unborn(tab: Tab, view: View, words: Words, c: Node, f: Frame)
    requires Wf(tab, view, words) && c !in tab
    ensures !Occupied(tab[c := f], view, c)
  {
    var tab' := tab[c := f];
    forall i ensures !Kid(tab', view, c, i) {
      NoOrphan(tab, c, i);
      assert Level(Child(c, i)) != Level(c);
    }
  }

  lemma OtherFrame(tab: Tab, m: Node, n: Node)
    requires Shape(tab) && m in tab && n in tab
    ensures tab[m] == tab[n] <==> m == n
  {
    assert Distinct(tab, m, n);
  }

  /** The frames of the live tables. */
  ghost function Frames(tab: Tab): set<int> { set n | n in tab :: tab[n] }

  lemma FramesAdded(tab: Tab, c: Node, f: Frame)
    requires c !in tab
    ensures Frames(tab[c := f]) == Frames(tab) + {f}
  {
    var tab' := tab[c := f];
    assert tab'[c] in Frames(tab');
    forall n | n in tab ensures tab[n] in Frames(tab') { assert tab'[n] == tab[n]; }
  }

  lemma FramesRemoved(tab: Tab, c: Node)
    requires Shape(tab) && c in tab
    ensures Frames(tab) == Frames(tab - {c}) + {tab[c]} && tab[c] !in Frames(tab - {c})
  {
    var tab' := tab - {c};
    forall n | n in tab && n != c ensures tab[n] in Frames(tab') && tab[n] != tab[c] {
      assert tab'[n] == tab[n];
      OtherFrame(tab, n, c);
    }
  }

  ghost predicate SameRoots(tab: Tab, tab': Tab) {
    forall p: Frame :: Root(p) in tab <==> Root(p) in tab'
  }

  /** Every node of `tab` is still live in `tab'`, at the same frame. */
  ghost predicate Extends(tab: Tab, tab': Tab) {
    forall n :: n in tab ==> n in tab' && tab'[n] == tab[n]
  }

  // ---------------------------------------------------------------- the whole invariant

  /** Memory the allocator does not manage, with the kernel's own PML4 in it. */
  datatype Outer = Outer(pml4: Frame, memory: Words)

  /** No table lies in outer memory, outer memory is as it was at boot, and every PML4 carries the kernel's upper
      half. */
  ghost predicate KernelHalf(tab: Tab, words: Words, kernel: Outer) {
    && kernel.pml4 in kernel.memory
    && (forall f {:trigger f in kernel.memory} :: f in kernel.memory ==>
      f !in tab.Values && f in words && words[f] == kernel.memory[f])
    && (forall p: Frame, i {:trigger Ent(words, p, i), Root(p)} :: Root(p) in tab && 256 <= i < 512 ==>
          Ent(words, p, i) == kernel.memory[kernel.pml4][i])
  }

  /** Well-formed, pruned except for `spare`, and every PML4 carries the kernel's upper half. */
  ghost predicate Good(tab: Tab, view: View, words: Words, kernel: Outer, spare: set<Node>) {
    && Wf(tab, view, words)
    && Pruned(tab, view, spare)
    && KernelHalf(tab, words, kernel)
  }

  lemma KernelPut(tab: Tab, words: Words, kernel: Outer, n: Node, i: int, e: Entry)
    requires Full(words) && Shape(tab) && KernelHalf(tab, words, kernel) && n in tab && 0 <= i < Width(n)
    ensures KernelHalf(tab, Put(words, tab[n], i, e), kernel)
  {
    var words' := Put(words, tab[n], i, e);
    assert tab[n] in tab.Values;
    forall p: Frame, j | Root(p) in tab && 256 <= j < 512 ensures Ent(words', p, j) == kernel.memory[kernel.pml4][j] {
      assert Placed(tab, Root(p));
      assert Ent(words, p, j) == kernel.memory[kernel.pml4][j];
      OtherFrame(tab, Root(p), n);
    }
  }

  /** Memory that is neither a table nor outer memory may change freely. */
  lemma Elsewhere(tab: Tab, view: View, words: Words, words': Words, kernel: Outer, spare: set<Node>)
    requires Good(tab, view, words, kernel, spare) && Full(words')
    requires forall n :: n in tab ==> words'[tab[n]] == words[tab[n]]
    requires forall f :: f in kernel.memory ==> words'[f] == words[f]
    ensures Good(tab, view, words', kernel, spare)
  {
    forall n, i | n in tab && Level(n) > 1 && 0 <= i < Width(n) ensures Slot(tab, words', n, i) {
      assert Slot(tab, words, n, i);
    }
    forall n, i | n in tab && Level(n) == 1 && 0 <= i < 512 ensures Cell(tab, view, words', n, i) {
      assert Cell(tab, view, words, n, i);
    }
    forall p: Frame, j | Root(p) in tab && 256 <= j < 512 ensures Ent(words', p, j) == kernel.memory[kernel.pml4][j] {
      assert Placed(tab, Root(p));
      assert Ent(words, p, j) == kernel.memory[kernel.pml4][j];
    }
  }

  lemma GoodAdded(tab: Tab, view: View, words: Words, kernel: Outer, spare: set<Node>, n: Node, i: int, f: Frame,
                  e: Entry)
    requires Good(tab, view, words, kernel, spare) && n in tab && Level(n) > 1 && 0 <= i < Width(n)
    requires Child(n, i) !in tab && f !in tab.Values && words[f] == ZeroTable() && f !in kernel.memory
    requires e.addr == f && e.bits.present && !e.bits.huge
    ensures Good(tab[Child(n, i) := f], view, Put(words, tab[n], i, e), kernel, spare - {n} + {Child(n, i)})
  {
    TableAdded(tab, view, words, n, i, f, e);
    PrunedMore(tab, view, tab[Child(n, i) := f], view, spare, n, i);
    KernelPut(tab, words, kernel, n, i, e);
    AddedValues(tab, Child(n, i), f);
  }

  lemma AddedValues(tab: Tab, c: Node, f: Frame)
    ensures tab[c := f].Values <= tab.Values + {f}
  {}

  /** Something new appears below `n` and nothing disappears. */
  lemma PrunedMore(tab: Tab, view: View, tab': Tab, view': View, spare: set<Node>, n: Node, i: int)
    requires Pruned(tab, view, spare) && Kid(tab', view', n, i)
    requires tab.Keys <= tab'.Keys <= tab.Keys + {Child(n, i)} && view.Keys <= view'.Keys
    ensures Pruned(tab', view', spare - {n} + (tab'.Keys - tab.Keys))
  {
    forall m | m in tab' && m.Child? && m !in spare - {n} + (tab'.Keys - tab.Keys) ensures Occupied(tab', view', m) {
      if m != n {
        assert Occupied(tab, view, m);
        var j :| Kid(tab, view, m, j);
        assert Kid(tab', view', m, j);
      }
    }
  }

  /** Something below `n` disappears. */
  lemma PrunedLess(tab: Tab, view: View, tab': Tab, view': View, spare: set<Node>, n: Node, i: int)
    requires Pruned(tab, view, spare)
    requires tab.Keys - {Child(n, i)} <= tab'.Keys <= tab.Keys && view.Keys - {Child(n, i)} <= view'.Keys
    ensures Pruned(tab', view', spare + {n})
  {
    forall m | m in tab' && m.Child? && m !in spare + {n} ensures Occupied(tab', view', m) {
      assert Occupied(tab, view, m);
      var j :| Kid(tab, view, m, j);
      assert Kid(tab', view', m, j);
    }
  }

  lemma GoodRemoved(tab: Tab, view: View, words: Words, kernel: Outer, spare: set<Node>, n: Node, i: int)
    requires Good(tab, view, words, kernel, spare) && n in tab && Level(n) > 1 && 0 <= i < Width(n)
    requires Child(n, i) in tab && !Occupied(tab, view, Child(n, i))
    ensures Good(tab - {Child(n, i)}, view, Put(words, tab[n], i, NO_ENTRY), kernel, spare - {Child(n, i)} + {n})
  {
    TableRemoved(tab, view, words, n, i);
    PrunedLess(tab, view, tab - {Child(n, i)}, view, spare, n, i);
    KernelPut(tab, words, kernel, n, i, NO_ENTRY);
    assert (tab - {Child(n, i)}).Values <= tab.Values;
  }

  lemma GoodLeafPut(tab: Tab, view: View, words: Words, kernel: Outer, spare: set<Node>, n: Node, i: int, e: Entry)
    requires Good(tab, view, words, kernel, spare) && n in tab && Level(n) == 1 && 0 <= i < 512
    requires e.bits.present && (e.bits.user && e.bits.writable ==> e.bits.noExecute)
    ensures Good(tab, view[Child(n, i) := e], Put(words, tab[n], i, e), kernel, spare - {n})
  {
    LeafPut(tab, view, words, n, i, e);
    PrunedMore(tab, view, tab, view[Child(n, i) := e], spare, n, i);
    KernelPut(tab, words, kernel, n, i, e);
  }

  lemma GoodLeafCleared(tab: Tab, view: View, words: Words, kernel: Outer, spare: set<Node>, n: Node, i: int)
    requires Good(tab, view, words, kernel, spare) && n in tab && Level(n) == 1 && 0 <= i < 512
    ensures Good(tab, view - {Child(n, i)}, Put(words, tab[n], i, NO_ENTRY), kernel, spare + {n})
  {
    LeafCleared(tab, view, words, n, i);
    PrunedLess(tab, view, tab, view - {Child(n, i)}, spare, n, i);
    KernelPut(tab, words, kernel, n, i, NO_ENTRY);
  }

  lemma GoodRaised(tab: Tab, view: View, words: Words, kernel: Outer, spare: set<Node>, n: Node, i: int, e: Entry)
    requires Good(tab, view, words, kernel, spare) && n in tab && Level(n) > 1 && 0 <= i < Width(n)
    requires var d := Ent(words, tab[n], i);
             d.bits.present && e.addr == d.addr && e.bits.present && e.bits.huge == d.bits.huge
    ensures Good(tab, view, Put(words, tab[n], i, e), kernel, spare - {n})
  {
    SlotRaised(tab, view, words, n, i, e);
    assert Slot(tab, words, n, i);
    PrunedMore(tab, view, tab, view, spare, n, i);
    KernelPut(tab, words, kernel, n, i, e);
  }

  lemma GoodMore(tab: Tab, view: View, words: Words, kernel: Outer, spare: set<Node>, spare': set<Node>)
    requires Good(tab, view, words, kernel, spare) && spare <= spare'
    ensures Good(tab, view, words, kernel, spare')
  {}

  lemma RootLevel(tab: Tab, n: Node)
    requires Shape(tab) && n in tab
    ensures Level(n) == 4 <==> n.Root?
  {
    assert Placed(tab, n);
    if n.Child? { assert Placed(tab, n.up); }
  }

  // ---------------------------------------------------------------- subtrees

  /** `m` lies strictly below `n`. */
  predicate Below(n: Node, m: Node) { m.Child? && (m.up == n || Below(n, m.up)) }

  /** The entry of `n` through which `m` is reached. */
  function Branch(n: Node, m: Node): int
    requires Below(n, m)
  {
    if m.up == n then m.at else Branch(n, m.up)
  }

  /** `m` hangs below one of the first `i` entries of `n`. */
  predicate Cut(n: Node, i: int, m: Node) { Below(n, m) && Branch(n, m) < i }

  lemma {:induction false} BelowLevel(n: Node, m: Node)
    requires Below(n, m)
    ensures Level(m) < Level(n) && Space(m) == Space(n)
  {
    if m.up != n { BelowLevel(n, m.up); }
  }

  /** One more entry: its child and everything below the child. */
  lemma {:induction false} CutStep(n: Node, i: int, m: Node)
    ensures Cut(n, i + 1, m) <==> Cut(n, i, m) || m == Child(n, i) || Below(Child(n, i), m)
  {
    var c := Child(n, i);
    if m.Child? {
      if m.up != n { CutStep(n, i, m.up); }
      if Below(c, m) && m.up == n { BelowLevel(c, m); }
    }
  }

  /** Without the child at `i`, nothing below it is left. */
  lemma {:induction false} NoneBelow(tab: Tab, view: View, words: Words, c: Node, m: Node)
    requires Wf(tab, view, words) && c !in tab && (m in tab || m in view) && Level(c) >= 1
    ensures !Below(c, m)
  {
    if m.Child? {
      if m in tab { assert Placed(tab, m); }
      if m.up != c { NoneBelow(tab, view, words, c, m.up); }
    }
  }

  /** `m` is `c` or lies below it. */
  predicate In(c: Node, m: Node) { m == c || Below(c, m) }

  lemma {:induction false} BelowTrans(n: Node, i: int, m: Node)
    requires In(Child(n, i), m)
    ensures Below(n, m)
  {
    if m != Child(n, i) && m.up != Child(n, i) { BelowTrans(n, i, m.up); }
  }

  /** In a well-formed state every descendant is reached through an entry that belongs to the table. */
  lemma {:induction false} CutAll(tab: Tab, view: View, words: Words, n: Node, m: Node)
    requires Wf(tab, view, words) && (m in tab || m in view) && Below(n, m)
    ensures 0 <= Branch(n, m) < Width(n)
  {
    if m in tab { assert Placed(tab, m); }
    if m.up != n { CutAll(tab, view, words, n, m.up); }
    else if m in view { assert Level(n) == 1; assert n.Root? ==> Level(n) == 4; }
  }

  /** What is left of a map keyed by nodes after the first `i` branches of `n` are gone. */
  ghost predicate Trimmed<T>(s: map<Node, T>, s': map<Node, T>, n: Node, i: int) {
    && (forall m {:trigger m in s'} :: m in s' <==> m in s && !Cut(n, i, m))
    && (forall m {:trigger s'[m]} :: m in s' ==> m in s && s'[m] == s[m])
  }

  /** What is left after `c` and everything below it are gone. */
  ghost predicate Without<T>(s: map<Node, T>, s': map<Node, T>, c: Node) {
    && (forall m {:trigger m in s'} :: m in s' <==> m in s && !In(c, m))
    && (forall m {:trigger s'[m]} :: m in s' ==> m in s && s'[m] == s[m])
  }

  lemma TrimmedStep<T>(s: map<Node, T>, s1: map<Node, T>, s2: map<Node, T>, n: Node, i: int)
    requires Trimmed(s, s1, n, i) && Without(s1, s2, Child(n, i))
    ensures Trimmed(s, s2, n, i + 1)
  {
    forall m ensures m in s2 <==> m in s && !Cut(n, i + 1, m) {
      CutStep(n, i, m);
      assert m in s1 <==> m in s && !Cut(n, i, m);
    }
  }

  lemma TrimmedStart(tab: Tab, view: View, words: Words, n: Node)
    requires Wf(tab, view, words)
    ensures Trimmed(tab, tab, n, 0) && Trimmed(view, view, n, 0) && LeafFrames(view, n, 0) == {}
  {
    forall m | m in tab ensures !Cut(n, 0, m) { if Below(n, m) { CutAll(tab, view, words, n, m); } }
    forall m | m in view ensures !Cut(n, 0, m) { if Below(n, m) { CutAll(tab, view, words, n, m); } }
  }

  /** Once every branch is gone, nothing is left below `n`. */
  lemma TrimmedAll(tab: Tab, view: View, words: Words, tab': Tab, view': View, n: Node)
    requires Wf(tab, view, words) && Trimmed(tab, tab', n, Width(n)) && Trimmed(view, view', n, Width(n))
    ensures !Occupied(tab', view', n)
    ensures forall m :: m in tab' <==> m in tab && !Below(n, m)
    ensures forall m :: m in view' <==> m in view && !Below(n, m)
    ensures LeafFrames(view, n, Width(n)) == set k | k in view && Below(n, k) :: view[k].addr
  {
    forall m | m in tab || m in view ensures Below(n, m) <==> Cut(n, Width(n), m) {
      if Below(n, m) { CutAll(tab, view, words, n, m); }
    }
    forall i ensures !Kid(tab', view', n, i) { assert Below(n, Child(n, i)); }
  }

  /** The frames of the pages among the first `i` branches of `n`. */
  ghost function LeafFrames(view: View, n: Node, i: int): set<int> { set k | k in view && Cut(n, i, k) :: view[k].addr }

  ghost function FramesIn(view: View, c: Node): set<int> { set k | k in view && In(c, k) :: view[k].addr }

  lemma LeafFramesStep(view: View, view1: View, n: Node, i: int)
    requires Trimmed(view, view1, n, i)
    ensures LeafFrames(view, n, i + 1) == LeafFrames(view, n, i) + FramesIn(view1, Child(n, i))
  {
    var c := Child(n, i);
    forall k | k in view ensures Cut(n, i + 1, k) <==> Cut(n, i, k) || In(c, k) { CutStep(n, i, k); }
    forall k | k in view && In(c, k) ensures !Cut(n, i, k) && k in view1 && view1[k] == view[k] {
      BranchOf(n, i, k);
      assert k in view1;
      assert view1[k] == view[k];
    }
    forall k | k in view1 ensures k in view && view1[k] == view[k] { assert view1[k] == view[k]; }
  }

  lemma {:induction false} BranchOf(n: Node, i: int, k: Node)
    requires In(Child(n, i), k)
    ensures Below(n, k) && Branch(n, k) == i
  {
    if k != Child(n, i) {
      if k.up != Child(n, i) { BranchOf(n, i, k.up); }
      BelowLevel(Child(n, i), k);
    }
  }

  /** The pages below `n` are backed by managed frames outside the stock, each by its own. */
  ghost predicate OwnLeaves(view: View, managed: set<int>, stock: set<int>, n: Node) {
    && (forall k {:trigger view[k]} :: k in view && Below(n, k) ==> view[k].addr in managed && view[k].addr !in stock)
    && (forall j, k {:trigger view[j], view[k]} ::
          j in view && k in view && Below(n, j) && Below(n, k) && view[j].addr == view[k].addr ==> j == k)
  }

  lemma OwnChild(view: View, managed: set<int>, stock: set<int>, n: Node, i: int)
    requires OwnLeaves(view, managed, stock, n)
    ensures OwnLeaves(view, managed, stock, Child(n, i))
  {
    forall k | Below(Child(n, i), k) ensures Below(n, k) { BelowTrans(n, i, k); }
  }

  /** Releasing the frames of one branch leaves the remaining pages owned. */
  lemma OwnRest(view: View, view': View, managed: set<int>, stock: set<int>, n: Node, i: int)
    requires OwnLeaves(view, managed, stock, n) && Without(view, view', Child(n, i))
    ensures OwnLeaves(view', managed, stock + FramesIn(view, Child(n, i)), n)
  {
    var c := Child(n, i);
    forall k | k in view' && Below(n, k)
      ensures k in view && view'[k] == view[k] && view[k].addr !in FramesIn(view, c)
    {
      assert view'[k] == view[k];
      if view[k].addr in FramesIn(view, c) {
        var j :| j in view && In(c, j) && view[j].addr == view[k].addr;
        BelowTrans(n, i, j);
      }
    }
  }

  /** The first `i` branches of `n` have been freed: their tables and pages are gone, their frames are in the
      stock, and the pages that remain below `n` are still owned. */
  ghost predicate Freeing(tab0: Tab, view0: View, stock0: set<int>, tab: Tab, view: View, stock: set<int>,
                          managed: set<int>, n: Node, i: int) {
    && (forall m {:trigger m in tab} :: m in tab ==> m in tab0)
    && Trimmed(tab0, tab, n, i) && Trimmed(view0, view, n, i)
    && OwnLeaves(view, managed, stock, n)
    && stock == stock0 + LeafFrames(view0, n, i)
  }

  lemma FreeingStart(tab: Tab, view: View, words: Words, stock: set<int>, managed: set<int>, n: Node)
    requires Wf(tab, view, words) && OwnLeaves(view, managed, stock, n)
    ensures Freeing(tab, view, stock, tab, view, stock, managed, n, 0)
  {
    TrimmedStart(tab, view, words, n);
  }

  /** One more branch. */
  lemma FreeingStep(tab0: Tab, view0: View, stock0: set<int>, tab: Tab, view: View, stock: set<int>,
                    tab': Tab, view': View, stock': set<int>, managed: set<int>, n: Node, i: int)
    requires Freeing(tab0, view0, stock0, tab, view, stock, managed, n, i)
    requires Without(tab, tab', Child(n, i)) && Without(view, view', Child(n, i))
    requires stock' == stock + FramesIn(view, Child(n, i))
    ensures Freeing(tab0, view0, stock0, tab', view', stock', managed, n, i + 1)
  {
    TrimmedStep(tab0, tab, tab', n, i);
    TrimmedStep(view0, view, view', n, i);
    LeafFramesStep(view0, view, n, i);
    OwnRest(view, view', managed, stock, n, i);
  }

  lemma NotBelow(c: Node, m: Node)
    requires Level(m) >= Level(c)
    ensures !Below(c, m)
  {
    if Below(c, m) { BelowLevel(c, m); }
  }

  /** A page has nothing below it. */
  lemma LeafAlone(tab: Tab, view: View, words: Words, n: Node, i: int)
    requires Wf(tab, view, words) && n in tab && Level(n) == 1
    ensures Without(tab, tab, Child(n, i)) && Without(view, view - {Child(n, i)}, Child(n, i))
    ensures FramesIn(view, Child(n, i)) == if Child(n, i) in view then {view[Child(n, i)].addr} else {}
  {
    var c := Child(n, i);
    forall m | m in tab ensures !In(c, m) {
      assert Placed(tab, m);
      NotBelow(c, m);
    }
    forall m | m in view ensures !Below(c, m) {
      assert Level(m) == Level(m.up) - 1;
      NotBelow(c, m);
    }
  }

  /** Nothing of the subtree of a table that is not live exists. */
  lemma SubtreeAbsent(tab: Tab, view: View, words: Words, c: Node)
    requires Wf(tab, view, words) && c !in tab && Level(c) >= 1
    ensures Without(tab, tab, c) && Without(view, view, c) && FramesIn(view, c) == {}
  {
    forall m | m in tab ensures !In(c, m) { NoneBelow(tab, view, words, c, m); }
    forall m | m in view ensures !In(c, m) {
      NoneBelow(tab, view, words, c, m);
      assert Level(m) == Level(m.up) - 1;
    }
  }

  /** The subtree of a live table after its entries were freed: only the table itself is left. */
  lemma SubtreeGone(tab: Tab, view: View, words: Words, tab': Tab, view': View, n: Node, i: int)
    requires Wf(tab, view, words) && Child(n, i) in tab && n in tab
    requires Trimmed(tab, tab', Child(n, i), 512) && Trimmed(view, view', Child(n, i), 512)
    ensures !Occupied(tab', view', Child(n, i))
    ensures Child(n, i) in tab' && tab'[Child(n, i)] == tab[Child(n, i)] && n in tab' && tab'[n] == tab[n]
    ensures Without(tab, tab' - {Child(n, i)}, Child(n, i)) && Without(view, view', Child(n, i))
    ensures LeafFrames(view, Child(n, i), 512) == FramesIn(view, Child(n, i))
  {
    var c := Child(n, i);
    TrimmedAll(tab, view, words, tab', view', c);
    assert Placed(tab, c);
    NotBelow(c, c);
    NotBelow(c, n);
    assert c in tab' && tab'[c] == tab[c] && n in tab' && tab'[n] == tab[n];
    forall m | m in view ensures m != c { assert Level(m) == Level(m.up) - 1; }
    var tab'' := tab' - {c};
    forall m | m in tab'' ensures m in tab && tab''[m] == tab[m] { assert tab'[m] == tab[m]; }
  }

  // ---------------------------------------------------------------- whole address spaces

  lemma {:induction false} SpaceIsSubtree(p: Frame, m: Node)
    ensures Space(m) == p <==> In(Root(p), m)
  {
    if m.Child? { SpaceIsSubtree(p, m.up); }
  }

  /** A fresh PML4: empty user half, the kernel's upper half. */
  lemma GoodRoot(tab: Tab, view: View, words: Words, words': Words, kernel: Outer, f: Frame)
    requires Good(tab, view, words, kernel, {}) && f !in tab.Values && Root(f) !in tab && f !in kernel.memory
    requires Full(words') && (forall g: Frame :: g != f ==> words'[g] == words[g])
    requires forall i :: 0 <= i < 512 ==> Ent(words', f, i) == if i < 256 then NO_ENTRY else Ent(words', kernel.pml4, i)
    ensures Good(tab[Root(f) := f], view, words', kernel, {})
  {
    var tab' := tab[Root(f) := f];
    RootAdded(tab, view, words, words', f);
    AddedValues(tab, Root(f), f);
    forall n | n in tab' && n.Child? ensures Occupied(tab', view, n) {
      assert Occupied(tab, view, n);
      var j :| Kid(tab, view, n, j);
      assert Kid(tab', view, n, j);
    }
    assert words'[kernel.pml4] == kernel.memory[kernel.pml4];
    forall p: Frame, j | Root(p) in tab' && 256 <= j < 512 ensures Ent(words', p, j) == kernel.memory[kernel.pml4][j] {
      if p != f {
        assert Placed(tab, Root(p));
        assert Ent(words, p, j) == kernel.memory[kernel.pml4][j];
      }
    }
  }

  /** An emptied PML4 is dropped. */
  lemma GoodUnroot(tab: Tab, view: View, words: Words, kernel: Outer, f: Frame)
    requires Good(tab, view, words, kernel, {Root(f)}) && Root(f) in tab && !Occupied(tab, view, Root(f))
    ensures Good(tab - {Root(f)}, view, words, kernel, {})
  {
    forall i | 0 <= i < 256 ensures Child(Root(f), i) !in tab { assert !Kid(tab, view, Root(f), i); }
    RootRemoved(tab, view, words, f);
    var tab' := tab - {Root(f)};
    forall n | n in tab' && n.Child? ensures Occupied(tab', view, n) {
      assert Occupied(tab, view, n);
      var j :| Kid(tab, view, n, j);
      assert Kid(tab', view, n, j);
    }
    assert tab'.Values <= tab.Values;
  }

  /** The state after teardown of one address space: everything of that space is gone, the rest is as before. */
  ghost predicate Evicted<T>(s: map<Node, T>, s': map<Node, T>, p: Frame) {
    && (forall m {:trigger m in s'} :: m in s' <==> m in s && Space(m) != p)
    && (forall m {:trigger s'[m]} :: m in s' ==> m in s && s'[m] == s[m])
  }

  ghost function SpaceFrames(view: View, p: Frame): set<int> { set k | k in view && Space(k) == p :: view[k].addr }

  lemma SpaceGone(tab: Tab, view: View, words: Words, tab': Tab, view': View, p: Frame)
    requires Wf(tab, view, words) && Root(p) in tab
    requires Trimmed(tab, tab', Root(p), 256) && Trimmed(view, view', Root(p), 256)
    ensures !Occupied(tab', view', Root(p)) && Root(p) in tab' && tab'[Root(p)] == tab[Root(p)]
    ensures Evicted(tab, tab' - {Root(p)}, p) && Evicted(view, view', p)
    ensures LeafFrames(view, Root(p), 256) == SpaceFrames(view, p)
  {
    TrimmedAll(tab, view, words, tab', view', Root(p));
    assert Root(p) in tab';
    assert tab'[Root(p)] == tab[Root(p)];
    forall m ensures Space(m) == p <==> In(Root(p), m) { SpaceIsSubtree(p, m); }
    forall m | m in view ensures m != Root(p) {}
    var tab'' := tab' - {Root(p)};
    forall m | m in tab'' ensures m in tab && tab''[m] == tab[m] { assert tab'[m] == tab[m]; }
  }

  // ---------------------------------------------------------------- the tables are a function of the view

  /** Below every table of a pruned tree there is a mapped page. */
  lemma {:induction false} HasPage(tab: Tab, view: View, words: Words, kernel: Outer, n: Node) returns (k: Node)
    requires Good(tab, view, words, kernel, {}) && n in tab && n.Child?
    ensures k in view && Below(n, k)
    decreases Level(n) + 1
  {
    assert Placed(tab, n);
    assert Occupied(tab, view, n);
    var i :| Kid(tab, view, n, i);
    var c := Child(n, i);
    if c in view {
      k := c;
    } else {
      assert Placed(tab, c);
      assert Level(c) == Level(n) - 1;
      k := HasPage(tab, view, words, kernel, c);
      BelowTrans(n, i, k);
    }
  }

  lemma {:induction false} AncestorLive(tab: Tab, view: View, words: Words, n: Node, k: Node)
    requires Wf(tab, view, words) && (k in tab || k in view) && Below(n, k)
    ensures n in tab
  {
    if k in tab { assert Placed(tab, k); }
    if k.up != n { AncestorLive(tab, view, words, n, k.up); }
  }

  /** Two pruned trees that represent the same map have the same tables. */
  lemma TablesFromView(tab: Tab, words: Words, tab': Tab, words': Words, view: View, kernel: Outer, n: Node)
    requires Good(tab, view, words, kernel, {}) && Good(tab', view, words', kernel, {}) && n.Child? && n in tab
    ensures n in tab'
  {
    var k := HasPage(tab, view, words, kernel, n);
    AncestorLive(tab', view, words', n, k);
  }

  lemma SameTables(tab: Tab, words: Words, mid: Tab, tab': Tab, words': Words, view: View, kernel: Outer)
    requires Good(tab, view, words, kernel, {}) && Good(tab', view, words', kernel, {})
    requires Extends(tab, mid) && Extends(tab', mid) && SameRoots(tab, tab')
    ensures tab' == tab
  {
    forall n ensures n in tab <==> n in tab' {
      if n.Child? {
        if n in tab { TablesFromView(tab, words, tab', words', view, kernel, n); }
        if n in tab' { TablesFromView(tab', words', tab, words, view, kernel, n); }
      }
    }
    forall n | n in tab ensures tab[n] == tab'[n] { assert mid[n] == tab[n]; }
  }
}
