/** Many address spaces at once: whatever their processes do in turn, no frame is shared, no process changes the memory
    of another, and when all have ended everything is as before. */
module Isolation {
  import opened Hardware
  import opened PageTree
  import opened PageTables
  import opened AddressSpaces
  import opened UserCopies

  // ---------------------------------------------------------------- ownership in a group

  ghost predicate OneOwner(view: View, live: set<Frame>, j: Node, k: Node) {
    j in view && k in view && Space(j) in live && Space(k) in live && view[j].addr == view[k].addr ==> j == k
  }

  ghost predicate Backs(view: View, live: set<Frame>, f: int) {
    exists k :: k in view && Space(k) in live && view[k].addr == f
  }

  /** Every page of the live spaces has a managed frame of its own outside the stock; stock and those frames together
      are the constant `all`. */
  ghost predicate Group(view: View, managed: set<int>, stock: set<int>, all: set<int>, live: set<Frame>) {
    && (forall k {:trigger view[k]} :: k in view && Space(k) in live ==>
          view[k].addr in managed && view[k].addr !in stock && view[k].addr in all)
    && (forall j, k {:trigger OneOwner(view, live, j, k)} :: OneOwner(view, live, j, k))
    && stock <= all && (forall f {:trigger Backs(view, live, f)} :: f in all && f !in stock ==> Backs(view, live, f))
  }

  /** Each member owns its pages; for it the whole is the stock and its own frames. */
  lemma GroupOwns(view: View, managed: set<int>, stock: set<int>, all: set<int>, live: set<Frame>, p: Frame)
    requires Group(view, managed, stock, all, live) && p in live
    ensures Owns(view, managed, stock, stock + OwnFrames(view, p, {}), p, {})
  {
    forall j, k ensures SoleOwner(view, p, {}, j, k) { assert OneOwner(view, live, j, k); }
  }

  /** What one member does with its own pages and the stock keeps the group. */
  lemma GroupStep(view: View, view': View, managed: set<int>, stock: set<int>, stock': set<int>, all: set<int>,
                  live: set<Frame>, p: Frame)
    requires Group(view, managed, stock, all, live) && p in live && OthersSame(view, view', p)
    requires Owns(view', managed, stock', stock + OwnFrames(view, p, {}), p, {})
    ensures Group(view', managed, stock', all, live)
  {
    var whole := stock + OwnFrames(view, p, {});
    forall k | k in view' && Space(k) in live
      ensures view'[k].addr in managed && view'[k].addr !in stock' && view'[k].addr in all
              && (view'[k].addr in whole <==> Space(k) == p)
    {
      if Space(k) == p {
        assert view'[k].addr in OwnFrames(view', p, {});
        InAll(view, managed, stock, all, live, p, view'[k].addr);
      } else {
        NotIn(view, managed, stock, all, live, p, k);
      }
    }
    forall j, k ensures OneOwner(view', live, j, k) {
      assert OneOwner(view, live, j, k) && SoleOwner(view', p, {}, j, k);
    }
    forall f | f in stock' ensures f in all { InAll(view, managed, stock, all, live, p, f); }
    forall f | f in all && f !in stock' ensures Backs(view', live, f) {
      if f in whole {
        var k :| k in view' && Space(k) == p && view'[k].addr == f;
      } else {
        assert Backs(view, live, f);
        var k :| k in view && Space(k) in live && view[k].addr == f;
        assert k in view' && view'[k].addr == f;
      }
    }
  }

  lemma InAll(view: View, managed: set<int>, stock: set<int>, all: set<int>, live: set<Frame>, p: Frame, f: int)
    requires Group(view, managed, stock, all, live) && p in live && f in stock + OwnFrames(view, p, {})
    ensures f in all
  {}

  /** The frames of another member are neither in the stock nor owned by `p`. */
  lemma NotIn(view: View, managed: set<int>, stock: set<int>, all: set<int>, live: set<Frame>, p: Frame, k: Node)
    requires Group(view, managed, stock, all, live) && p in live && k in view && Space(k) in live && Space(k) != p
    ensures view[k].addr !in stock + OwnFrames(view, p, {})
  {
    forall j | j in view && Space(j) == p ensures view[j].addr != view[k].addr { assert OneOwner(view, live, j, k); }
  }

  lemma GroupBorn(view: View, managed: set<int>, stock: set<int>, all: set<int>, live: set<Frame>, p: Frame)
    requires Group(view, managed, stock, all, live) && forall m :: m in view ==> Space(m) != p
    ensures Group(view, managed, stock, all, live + {p})
  {
    forall j, k ensures OneOwner(view, live + {p}, j, k) { assert OneOwner(view, live, j, k); }
    forall f | f in all && f !in stock ensures Backs(view, live + {p}, f) { assert Backs(view, live, f); }
  }

  lemma GroupGone(view: View, view': View, managed: set<int>, stock: set<int>, all: set<int>, live: set<Frame>,
                  p: Frame)
    requires Group(view, managed, stock, all, live) && p in live && Evicted(view, view', p)
    ensures Group(view', managed, stock + SpaceFrames(view, p), all, live - {p})
  {
    var stock', live' := stock + SpaceFrames(view, p), live - {p};
    assert SpaceFrames(view, p) == OwnFrames(view, p, {});
    forall k | k in view' && Space(k) in live'
      ensures view'[k].addr in managed && view'[k].addr !in stock' && view'[k].addr in all
    {
      NotIn(view, managed, stock, all, live, p, k);
    }
    forall j, k ensures OneOwner(view', live', j, k) { assert OneOwner(view, live, j, k); }
    forall f | f in all && f !in stock' ensures Backs(view', live', f) {
      assert Backs(view, live, f);
      var k :| k in view && Space(k) in live && view[k].addr == f;
      assert k in view' && view'[k].addr == f;
    }
  }

  // ---------------------------------------------------------------- one command

  /** What the kernel does on behalf of one process, named by its PML4. */
  datatype Command =
    | Create
    | Destroy(p: Frame)
    | Map(p: Frame, virt: nat, flags: Flags)
    | Unmap(p: Frame, virt: nat)
    | Protect(p: Frame, virt: nat, flags: Flags)
    | Copy(p: Frame, dst: nat, data: seq<Byte>)

  predicate Sane(c: Command) {
    && (c.Map? || c.Unmap? || c.Protect? ==> c.virt < 0x8000_0000_0000)
    && (c.Copy? ==> c.dst < 0x1_0000_0000_0000_0000 && |c.data| < 0x1_0000_0000_0000_0000)
  }

  /** CR3 never names a space that is gone. */
  ghost predicate Loaded(vm: Vmm)
    reads vm
  {
    vm.cr3 == 0 || vm.cr3 == vm.kernelPml4 || vm.Live(vm.cr3)
  }

  /** The live spaces exist and form a group. */
  ghost predicate Running(vm: Vmm, live: set<Frame>, all: set<int>)
    reads vm, vm.pm, vm.pm.ranges
  {
    vm.Valid() && Loaded(vm)
        && (forall p :: p in live ==> vm.Live(p)) && Group(vm.view, vm.pm.managed, vm.stock, all, live)
  }

  /** The pages of space `q` and their contents are the same. */
  ghost predicate SameMemory(view: View, bytes: map<Frame, Page>, view': View, bytes': map<Frame, Page>, q: Frame) {
    forall k {:trigger view[k]} {:trigger view'[k]} :: Space(k) == q ==>
      && (k in view <==> k in view')
      && (k in view && view[k].addr in bytes ==>
            view'[k] == view[k] && view[k].addr in bytes' && bytes'[view[k].addr] == bytes[view[k].addr])
  }

  /** What a command for space `p` leaves alone: the tables, pages and memory of the other spaces. */
  twostate predicate Only(vm: Vmm, p: Frame, live: set<Frame>)
    reads vm, vm.pm
  {
    && OthersSame(old(vm.view), vm.view, p) && OthersSame(old(vm.tab), vm.tab, p)
    && forall q :: q in live && q != p ==> SameMemory(old(vm.view), old(vm.pm.bytes), vm.view, vm.pm.bytes, q)
  }

  lemma MemoryKept(view: View, bytes: map<Frame, Page>, view': View, bytes': map<Frame, Page>, managed: set<int>,
                   stock: set<int>,
                   all: set<int>, live: set<Frame>, p: Frame, q: Frame)
    requires Group(view, managed, stock, all, live) && q in live && q != p
    requires OthersSame(view, view', p) && KeepsBytes(stock, bytes, bytes')
    ensures SameMemory(view, bytes, view', bytes', q)
  {}

  // Map, unmap or change a page of a live space.
  method Act(vm: Vmm, p: Frame, ev: Event, live: set<Frame>, ghost all: set<int>)
    requires Running(vm, live, all) && p in live && ev.virt < 0x8000_0000_0000
    modifies vm`tab, vm`view, vm`stock, vm.pm, vm.pm.ranges
    ensures Running(vm, live, all) && Only(vm, p, live) && old(vm.pm.lost) <= vm.pm.lost
  {
    ghost var view, tab, bytes, stock, managed := vm.view, vm.tab, vm.pm.bytes, vm.stock, vm.pm.managed;
    GroupOwns(view, managed, stock, all, live, p);
    Happen(vm, p, ev, stock + OwnFrames(view, p, {}));
    GroupStep(view, vm.view, managed, stock, vm.stock, all, live, p);
    forall q | q in live && q != p ensures SameMemory(view, bytes, vm.view, vm.pm.bytes, q) {
      MemoryKept(view, bytes, vm.view, vm.pm.bytes, managed, stock, all, live, p, q);
    }
    assert forall q: Frame :: q != p && Root(q) in tab ==> Space(Root(q)) == q && Root(q) in vm.tab;
  }

  /** A copy into one member misses the frames of the others. */
  lemma {:induction false} CopyMisses(view: View, bytes: map<Frame, Page>, managed: set<int>, stock: set<int>,
                                      all: set<int>, live: set<Frame>,
                                      p: Frame, dst: nat, data: seq<Byte>, q: Frame)
    requires Group(view, managed, stock, all, live) && p in live && q in live && q != p
    requires AllMapped(view, p, dst, |data|) && forall f: Frame :: f in bytes
    ensures SameMemory(view, bytes, view, Applied(bytes, ByteStores(view, p, dst, data), |data|), q)
  {
    var stores := ByteStores(view, p, dst, data);
    var bytes' := Applied(bytes, stores, |data|);
    forall k | k in view && Space(k) == q ensures bytes'[view[k].addr] == bytes[view[k].addr] {
      forall i | 0 <= i < |data| ensures stores[i].frame != view[k].addr {
        StoreFrame(view, p, dst, data, i);
        LeafPath(p, (dst + i) / 4096);
        assert OneOwner(view, live, Leaf(p, (dst + i) / 4096), k);
      }
      forall o | 0 <= o < 4096 ensures bytes'[view[k].addr][o] == bytes[view[k].addr][o] {
        AppliedElsewhere(bytes, stores, |data|, view[k].addr, o);
      }
    }
  }

  // The process of a live space runs and the kernel copies data to it.
  method Deliver(vm: Vmm, p: Frame, dst: nat, data: seq<Byte>, live: set<Frame>, ghost all: set<int>)
    requires Running(vm, live, all) && p in live && dst < 0x1_0000_0000_0000_0000 && |data| < 0x1_0000_0000_0000_0000
    modifies vm`cr3, vm.pm`bytes
    ensures Running(vm, live, all) && Only(vm, p, live) && vm.view == old(vm.view) && vm.tab == old(vm.tab)
  {
    ghost var view, bytes := vm.view, vm.pm.bytes;
    vm.cr3 := p;
    ghost var valid := RangeValid(vm, dst, |data|, WRITE);
    if valid { RangeMapped(vm, dst, |data|, WRITE); }
    var ok := CopyToUser(vm, dst, data, false, |data|);
    assert data[..|data|] == data;
    forall q | q in live && q != p ensures SameMemory(view, bytes, view, vm.pm.bytes, q) {
      if ok && data != [] { CopyMisses(view, bytes, vm.pm.managed, vm.stock, all, live, p, dst, data, q); }
    }
  }

  // Destroy a live space.
  method Finish(vm: Vmm, p: Frame, live: set<Frame>, ghost all: set<int>)
    requires Running(vm, live, all) && p in live
    modifies vm, vm.pm, vm.pm.ranges
    ensures Running(vm, live - {p}, all) && Only(vm, p, live) && old(vm.pm.lost) <= vm.pm.lost
    ensures Evicted(old(vm.view), vm.view, p) && Evicted(old(vm.tab), vm.tab, p)
  {
    ghost var view, tab, bytes, stock, managed := vm.view, vm.tab, vm.pm.bytes, vm.stock, vm.pm.managed;
    GroupOwns(view, managed, stock, all, live, p);
    OwnsAll(view, managed, stock, stock + OwnFrames(view, p, {}), p, {});
    var _ := vm.DestroyUserPml4(p);
    GroupGone(view, vm.view, managed, stock, all, live, p);
    forall q | q in live && q != p ensures SameMemory(view, bytes, vm.view, vm.pm.bytes, q) {
      MemoryKept(view, bytes, vm.view, vm.pm.bytes, managed, stock, all, live, p, q);
    }
    assert forall q: Frame :: q != p && Root(q) in tab ==> Space(Root(q)) == q && Root(q) in vm.tab;
  }

  // Create a space; 0 when no page is left.
  method Start(vm: Vmm, live: set<Frame>, ghost all: set<int>) returns (p: Frame)
    requires Running(vm, live, all)
    modifies vm`tab, vm.pm, vm.pm.ranges
    ensures p == 0 ==> Running(vm, live, all) && vm.tab == old(vm.tab)
    ensures p != 0 ==>
              Running(vm, live + {p}, all) && p !in live
              && forall m :: m in old(vm.tab) || m in vm.view ==> Space(m) != p
    ensures Only(vm, p, live) && vm.pm.lost == old(vm.pm.lost)
  {
    ghost var bytes, managed := vm.pm.bytes, vm.pm.managed;
    p := Begin(vm);
    if p != 0 {
      GroupBorn(vm.view, managed, vm.stock, all, live, p);
      forall q | q in live ensures q != p && vm.Live(q) {
        assert Root(q) in old(vm.tab) && Space(Root(q)) == q;
      }
    }
    forall q | q in live && q != p ensures SameMemory(vm.view, bytes, vm.view, vm.pm.bytes, q) {
      MemoryStays(vm.view, bytes, vm.pm.bytes, managed, vm.stock, all, live, q);
    }
  }

  lemma MemoryStays(view: View, bytes: map<Frame, Page>, bytes': map<Frame, Page>, managed: set<int>, stock: set<int>,
                    all: set<int>,
                    live: set<Frame>, q: Frame)
    requires Group(view, managed, stock, all, live) && q in live && KeepsBytes(stock, bytes, bytes')
    ensures SameMemory(view, bytes, view, bytes', q)
  {}

  /** One command: it concerns one space `who`, which may come into being or go. A command that names no live space does
      nothing. */
  method Obey(vm: Vmm, c: Command, live: set<Frame>, ghost all: set<int>) returns (after: set<Frame>, ghost who: Frame)
    requires Running(vm, live, all) && Sane(c)
    modifies vm, vm.pm, vm.pm.ranges
    ensures Running(vm, after, all) && Only(vm, who, live) && old(vm.pm.lost) <= vm.pm.lost
    ensures if c.Create? then who !in live else who == c.p
    ensures forall q :: q != who ==> (q in after <==> q in live)
    ensures who !in live && who in after ==> forall m :: m in old(vm.tab) || m in old(vm.view) ==> Space(m) != who
    ensures who in live && who !in after ==> forall m :: m in vm.tab || m in vm.view ==> Space(m) != who
    ensures who !in live && who !in after ==> vm.view == old(vm.view) && vm.tab == old(vm.tab)
  {
    after := live;
    if c.Create? {
      var p := Start(vm, live, all);
      who := p;
      if p != 0 { after := live + {p}; }
      return;
    }
    who := c.p;
    if c.p !in live { return; }
    match c
    case Destroy(p) =>
      Finish(vm, p, live, all);
      after := live - {p};
    case Map(p, virt, flags) => Act(vm, p, Event.Map(virt, flags), live, all);
    case Unmap(p, virt) => Act(vm, p, Event.Unmap(virt), live, all);
    case Protect(p, virt, flags) => Act(vm, p, Event.Protect(virt, flags), live, all);
    case Copy(p, dst, data) => Deliver(vm, p, dst, data, live, all);
  }

  // ---------------------------------------------------------------- runs

  /** Everything that belongs to no live space is as in the snapshot, in which none of the live spaces existed. */
  ghost predicate SameOutside<T>(s: map<Node, T>, s': map<Node, T>, live: set<Frame>) {
    && (forall m {:trigger m in s} :: m in s ==> Space(m) !in live)
    && (forall m {:trigger m in s'} :: Space(m) !in live ==> (m in s <==> m in s') && (m in s ==> s'[m] == s[m]))
  }

  lemma OutsideStep<T>(s0: map<Node, T>, s: map<Node, T>, s': map<Node, T>, live: set<Frame>, after: set<Frame>,
                       who: Frame)
    requires SameOutside(s0, s, live) && OthersSame(s, s', who)
    requires forall q :: q != who ==> (q in after <==> q in live)
    requires who !in live && who in after ==> forall m :: m in s ==> Space(m) != who
    requires who in live && who !in after ==> forall m :: m in s' ==> Space(m) != who
    requires who !in live && who !in after ==> s' == s
    ensures SameOutside(s0, s', after)
  {
    forall m | m in s0 ensures Space(m) !in after { assert Space(m) !in live && (m in s0 <==> m in s); }
    forall m | Space(m) !in after ensures (m in s0 <==> m in s') && (m in s0 ==> s'[m] == s0[m]) {
      if Space(m) !in live { assert m in s0 <==> m in s; }
    }
  }

  ghost predicate Above(vm: Vmm, was: Snap, live: set<Frame>)
    reads vm, vm.pm
  {
    SameOutside(was.tab, vm.tab, live) && SameOutside(was.view, vm.view, live) && was.lost <= vm.pm.lost
  }

  predicate Names(c: Command, q: Frame) { !c.Create? && c.p == q }

  lemma MemoryTrans(view: View, bytes: map<Frame, Page>, view': View, bytes': map<Frame, Page>, view'': View,
                    bytes'': map<Frame, Page>, q: Frame)
    requires SameMemory(view, bytes, view', bytes', q) && SameMemory(view', bytes', view'', bytes'', q)
    ensures SameMemory(view, bytes, view'', bytes'', q)
  {}

  /** Any commands, in any order and for any processes: the live spaces never share a frame, and a space that no command
      names has exactly its pages and its memory. */
  method Serve(vm: Vmm, start: set<Frame>, commands: seq<Command>, ghost all: set<int>, ghost was: Snap)
    returns (live: set<Frame>)
    requires Running(vm, start, all) && Above(vm, was, start) && forall i :: 0 <= i < |commands| ==> Sane(commands[i])
    modifies vm, vm.pm, vm.pm.ranges
    ensures Running(vm, live, all) && Above(vm, was, live)
    ensures forall q :: q in start && (forall i :: 0 <= i < |commands| ==> !Names(commands[i], q)) ==>
              q in live && SameMemory(old(vm.view), old(vm.pm.bytes), vm.view, vm.pm.bytes, q)
  {
    live := start;
    ghost var view0, bytes0 := vm.view, vm.pm.bytes;
    for n := 0 to |commands|
      invariant Running(vm, live, all) && Above(vm, was, live)
      invariant forall q :: q in start && (forall i :: 0 <= i < n ==> !Names(commands[i], q)) ==>
                  q in live && SameMemory(view0, bytes0, vm.view, vm.pm.bytes, q)
    {
      ghost var view, tab, bytes, before := vm.view, vm.tab, vm.pm.bytes, live;
      ghost var who;
      live, who := Obey(vm, commands[n], live, all);
      OutsideStep(was.tab, tab, vm.tab, before, live, who);
      OutsideStep(was.view, view, vm.view, before, live, who);
      forall q | q in start && forall i :: 0 <= i < n + 1 ==> !Names(commands[i], q)
        ensures q in live && SameMemory(view0, bytes0, vm.view, vm.pm.bytes, q)
      {
        assert q in before && q != who;
        MemoryTrans(view0, bytes0, view, bytes, vm.view, vm.pm.bytes, q);
      }
    }
  }

  // Destroy one live space.
  method FinishOne(vm: Vmm, p: Frame, live: set<Frame>, less: set<Frame>, ghost all: set<int>, ghost was: Snap)
    requires Running(vm, live, all) && Above(vm, was, live) && p in live && less == live - {p}
    modifies vm, vm.pm, vm.pm.ranges
    ensures Running(vm, less, all) && Above(vm, was, less)
  {
    ghost var view, tab := vm.view, vm.tab;
    Finish(vm, p, live, all);
    OutsideStep(was.tab, tab, vm.tab, live, less, p);
    OutsideStep(was.view, view, vm.view, live, less, p);
  }

  // Destroy all live spaces.
  method FinishAll(vm: Vmm, live: set<Frame>, ghost all: set<int>, ghost was: Snap)
    requires Running(vm, live, all) && Above(vm, was, live)
    modifies vm, vm.pm, vm.pm.ranges
    ensures Running(vm, {}, all) && Above(vm, was, {})
  {
    var rest := live;
    while rest != {}
      invariant Running(vm, rest, all) && Above(vm, was, rest)
      decreases |rest|
    {
      var p :| p in rest;
      var less := rest - {p};
      FinishOne(vm, p, rest, less, all, was);
      rest := less;
    }
  }

  lemma NobodyLeft<T>(s: map<Node, T>, s': map<Node, T>)
    requires SameOutside(s, s', {})
    ensures s == s'
  {
    forall m ensures m in s <==> m in s' {}
    forall m | m in s ensures s'[m] == s[m] {}
  }

  lemma StockBack(view: View, managed: set<int>, stock: set<int>, all: set<int>)
    requires Group(view, managed, stock, all, {})
    ensures stock == all
  {
    forall f | f in all ensures f in stock { assert !Backs(view, {}, f); }
  }

  /** Start processes, let them do anything in turn, end them all: tables, translations and pages are as before, and the
      free list is the same list unless so many pages were in use that the free-range array could be full. */
  method Lives(vm: Vmm, commands: seq<Command>)
    requires vm.Valid() && Loaded(vm) && forall i :: 0 <= i < |commands| ==> Sane(commands[i])
    modifies vm, vm.pm, vm.pm.ranges
    ensures vm.Valid() && Loaded(vm) && vm.tab == old(vm.tab) && vm.view == old(vm.view) && vm.stock == old(vm.stock)
    ensures vm.pm.free + vm.pm.lost == old(vm.pm.free + vm.pm.lost)
    ensures vm.pm.lost == old(vm.pm.lost) || vm.pm.Roomy() ==> vm.pm.list == old(vm.pm.list)
  {
    ghost var was := Now(vm);
    var live := Serve(vm, {}, commands, was.stock, was);
    FinishAll(vm, live, was.stock, was);
    NobodyLeft(was.tab, vm.tab);
    NobodyLeft(was.view, vm.view);
    StockBack(vm.view, vm.pm.managed, vm.stock, was.stock);
    SameReturned(was.list, vm.pm.list, vm.tab, vm.pm.managed, vm.stock, was.free, vm.pm.free, was.lost, vm.pm.lost);
  }
}
