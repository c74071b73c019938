/** The ELF loader (kernel/elf.c): the new address space holds exactly the image the file describes, and every
    failure gives all pages back. */
module ElfLoader {
  import opened Hardware
  import opened PhysicalMemory
  import opened PageTree
  import opened PageTables
  import opened AddressSpaces
  import opened ElfFormat

  const STACK_FLAGS := Flags(true, true, true, false, true, 0)

  // ---------------------------------------------------------------- the state of one page

  /** Page `v` is mapped exactly if one of the first `c` segments is on it, and then has its permissions and bytes. */
  ghost predicate PageState(view: View, bytes: map<Frame, Page>, p: Frame, file: seq<Byte>, segs: seq<Segment>, c: nat,
                            v: int)
    requires c <= |segs|
  {
    && (Leaf(p, v) in view <==> Covered(segs, c, v))
    && (Leaf(p, v) in view ==>
          var e := view[Leaf(p, v)];
          HasFlags(e.bits, segs, c, v) && e.addr in bytes && HasImage(bytes[e.addr], file, segs, c, v))
  }

  function Upto(segs: seq<Segment>, k: nat, hi: int, v: int): (c: nat)
    requires k <= |segs|
    ensures c <= |segs|
  {
    if v < hi && k < |segs| then k + 1 else k
  }

  /** The first `k` segments are loaded, and segment `k` on the pages below `hi`. */
  ghost predicate Image(view: View, bytes: map<Frame, Page>, p: Frame, file: seq<Byte>, segs: seq<Segment>, k: nat,
                        hi: int)
    requires k <= |segs|
  {
    forall v {:trigger PageState(view, bytes, p, file, segs, Upto(segs, k, hi, v), v)} ::
      0 <= v < USER_PAGES ==> PageState(view, bytes, p, file, segs, Upto(segs, k, hi, v), v)
  }

  ghost predicate SamePage(view: View, bytes: map<Frame, Page>, view': View, bytes': map<Frame, Page>, k: Node) {
    && (k in view <==> k in view')
    && (k in view && view[k].addr in bytes ==>
      view'[k] == view[k] && view[k].addr in bytes' && bytes'[view[k].addr] == bytes[view[k].addr])
  }

  /** Only page `v` may have changed. */
  ghost predicate SameBut(view: View, bytes: map<Frame, Page>, view': View, bytes': map<Frame, Page>, p: Frame,
                          v: int) {
    forall w {:trigger SamePage(view, bytes, view', bytes', Leaf(p, w))} :: 0 <= w < USER_PAGES && w != v ==>
      SamePage(view, bytes, view', bytes', Leaf(p, w))
  }

  lemma MappedBut(view: View, bytes: map<Frame, Page>, bytes': map<Frame, Page>, p: Frame, v: int, e: Entry,
                  managed: set<int>, stock: set<int>, whole: set<int>)
    requires Owns(view, managed, stock, whole, p, {}) && KeepsBytes(stock, bytes, bytes') && 0 <= v < USER_PAGES
    ensures SameBut(view, bytes, view[Leaf(p, v) := e], bytes', p, v)
  {
    forall w | 0 <= w < USER_PAGES && w != v ensures SamePage(view, bytes, view[Leaf(p, v) := e], bytes', Leaf(p, w)) {
      LeafPath(p, w);
      if Leaf(p, w) == Leaf(p, v) { LeafInjective(p, w, p, v); }
    }
  }

  lemma CopiedBut(view: View, bytes: map<Frame, Page>, bytes': map<Frame, Page>, p: Frame, v: int,
                  managed: set<int>, stock: set<int>, whole: set<int>)
    requires Owns(view, managed, stock, whole, p, {}) && 0 <= v < USER_PAGES && Leaf(p, v) in view
    requires forall f: Frame :: f in bytes && f != view[Leaf(p, v)].addr ==> f in bytes' && bytes'[f] == bytes[f]
    ensures SameBut(view, bytes, view, bytes', p, v)
  {
    forall w | 0 <= w < USER_PAGES && w != v ensures SamePage(view, bytes, view, bytes', Leaf(p, w)) {
      LeafPath(p, w);
      LeafPath(p, v);
      assert SoleOwner(view, p, {}, Leaf(p, w), Leaf(p, v));
      if Leaf(p, w) == Leaf(p, v) { LeafInjective(p, w, p, v); }
    }
  }

  lemma ButTrans(view: View, bytes: map<Frame, Page>, view': View, bytes': map<Frame, Page>,
                 view'': View, bytes'': map<Frame, Page>, p: Frame, v: int)
    requires (forall f: Frame :: f in bytes && f in bytes') && SameBut(view, bytes, view', bytes', p, v)
             && SameBut(view', bytes', view'', bytes'', p, v)
    ensures SameBut(view, bytes, view'', bytes'', p, v)
  {
    forall w | 0 <= w < USER_PAGES && w != v ensures SamePage(view, bytes, view'', bytes'', Leaf(p, w)) {
      assert SamePage(view, bytes, view', bytes', Leaf(p, w));
      assert SamePage(view', bytes', view'', bytes'', Leaf(p, w));
    }
  }

  /** Segment `k` is loaded on page `v`: its pages below `v + 1` are now done. */
  lemma ImageNext(view: View, bytes: map<Frame, Page>, view': View, bytes': map<Frame, Page>, p: Frame,
                  file: seq<Byte>, segs: seq<Segment>, k: nat, v: int)
    requires k < |segs| && 0 <= v < USER_PAGES && Image(view, bytes, p, file, segs, k, v)
             && SameBut(view, bytes, view', bytes', p, v)
    requires PageState(view', bytes', p, file, segs, k + 1, v)
    ensures Image(view', bytes', p, file, segs, k, v + 1)
  {
    var next := v + 1;
    forall w | 0 <= w < USER_PAGES ensures PageState(view', bytes', p, file, segs, Upto(segs, k, next, w), w) {
      assert PageState(view, bytes, p, file, segs, Upto(segs, k, v, w), w);
      if w != v { assert SamePage(view, bytes, view', bytes', Leaf(p, w)); }
    }
  }

  /** A segment that is not on a page can be counted as loaded there. */
  lemma StateSkip(view: View, bytes: map<Frame, Page>, p: Frame, file: seq<Byte>, segs: seq<Segment>, c: nat, v: int)
    requires c < |segs| && Sound(segs[c], |file|) && !segs[c].OnPage(v) && PageState(view, bytes, p, file, segs, c, v)
    ensures PageState(view, bytes, p, file, segs, c + 1, v)
  {
    if Leaf(p, v) in view {
      var e := view[Leaf(p, v)];
      ImageSkip(bytes[e.addr], file, segs, c, v);
      var j :| 0 <= j < c && segs[j].OnPage(v);
    }
  }

  lemma ImageStart(view: View, bytes: map<Frame, Page>, p: Frame, file: seq<Byte>, segs: seq<Segment>, k: nat)
    requires k < |segs| && Sound(segs[k], |file|) && Image(view, bytes, p, file, segs, k, 0)
    ensures Image(view, bytes, p, file, segs, k, segs[k].FirstPage())
  {
    forall v | 0 <= v < USER_PAGES
      ensures PageState(view, bytes, p, file, segs, Upto(segs, k, segs[k].FirstPage(), v), v) {
      assert PageState(view, bytes, p, file, segs, Upto(segs, k, 0, v), v);
      if v < segs[k].FirstPage() { StateSkip(view, bytes, p, file, segs, k, v); }
    }
  }

  lemma ImageEnd(view: View, bytes: map<Frame, Page>, p: Frame, file: seq<Byte>, segs: seq<Segment>, k: nat, hi: int)
    requires k < |segs| && Sound(segs[k], |file|) && Image(view, bytes, p, file, segs, k, hi)
    requires segs[k].Loads() ==> segs[k].PageEnd() <= hi
    ensures Image(view, bytes, p, file, segs, k + 1, 0)
  {
    var next := k + 1;
    forall v | 0 <= v < USER_PAGES ensures PageState(view, bytes, p, file, segs, Upto(segs, next, 0, v), v) {
      assert PageState(view, bytes, p, file, segs, Upto(segs, k, hi, v), v);
      if v >= hi { StateSkip(view, bytes, p, file, segs, k, v); }
    }
  }

  // ---------------------------------------------------------------- checks

  /** The checks of one program header. */
  method CheckSegment(size: nat, segs: seq<Segment>, i: nat) returns (code: int)
    requires i < |segs|
    ensures code == SegmentCode(size, segs, i)
  {
    var s := segs[i];
    if s.kind == PT_INTERP || s.kind == PT_DYNAMIC { return -7; }
    if s.kind != PT_LOAD { return 0; }
    if s.filesz > s.memsz { return -7; }
    if s.flags >= 8 || !s.Readable() || (s.Writable() && s.Executable()) { return -8; }
    if s.align != 0 && (!PowerOfTwo(s.align) || s.offset % s.align != s.vaddr % s.align) { return -9; }
    var memEnd := s.vaddr + s.memsz;
    if s.offset + s.filesz >= WORD64 || s.offset + s.filesz > size || memEnd >= WORD64
       || s.vaddr < 4096 || s.vaddr >= USER_LIMIT || memEnd > USER_LIMIT
       || (s.vaddr < STACK_HIGH && memEnd > STACK_LOW) { return -9; }
    if s.memsz == 0 { return 0; }
    for previous := 0 to i
      invariant !OverlapsEarlier(segs, i, previous)
    {
      var other := segs[previous];
      if other.kind == PT_LOAD && other.memsz != 0 && other.vaddr + other.memsz < WORD64
         && s.vaddr < other.vaddr + other.memsz && other.vaddr < memEnd { return -12; }
    }
    return 0;
  }

  // ---------------------------------------------------------------- one page

  // Copy the file bytes of segment `s` that fall on page `v` to frame `f`.
  method CopyIn(pm: PhysMem, f: Frame, file: seq<Byte>, s: Segment, v: nat)
    requires pm.Valid() && s.OnPage(v) && s.offset + s.filesz <= |file|
    modifies pm`bytes
    ensures pm.Valid() && Overlaid(old(pm.bytes)[f], pm.bytes[f], file, s, v)
    ensures forall g: Frame :: g != f ==> pm.bytes[g] == old(pm.bytes)[g]
  {
    var pageVa, dataEnd := 4096 * v, s.vaddr + s.filesz;
    var copyStart := if pageVa > s.vaddr then pageVa else s.vaddr;
    var copyEnd := if pageVa + 4096 < dataEnd then pageVa + 4096 else dataEnd;
    if copyStart < copyEnd {
      var fileOffset, pageOffset := s.offset + (copyStart - s.vaddr), copyStart - pageVa;
      for b := 0 to copyEnd - copyStart
        invariant pm.Valid() && forall g: Frame :: g != f ==> pm.bytes[g] == old(pm.bytes)[g]
        invariant forall o :: 0 <= o < 4096 ==>
                    pm.bytes[f][o] == if pageOffset <= o < pageOffset + b then file[fileOffset + (o - pageOffset)]
                                      else old(pm.bytes)[f][o]
      {
        pm.WriteByte(f, pageOffset + b, file[fileOffset + b]);
      }
    }
  }

  /** The address space being loaded: it owns its pages, and the others are as in the snapshot. */
  ghost predicate Ours(vm: Vmm, p: Frame, was: Snap)
    reads vm, vm.pm, vm.pm.ranges
  {
    && vm.Valid() && vm.Live(p) && Owns(vm.view, vm.pm.managed, vm.stock, was.stock, p, {})
    && OthersSame(was.view, vm.view, p) && OthersSame(was.tab, vm.tab, p)
    && KeepsBytes(was.stock, was.bytes, vm.pm.bytes) && was.lost <= vm.pm.lost
  }

  lemma BytesTrans(whole: set<int>, stock: set<int>, bytes0: map<Frame, Page>, bytes: map<Frame, Page>,
                   bytes': map<Frame, Page>)
    requires KeepsBytes(whole, bytes0, bytes) && stock <= whole && KeepsBytes(stock, bytes, bytes')
    ensures KeepsBytes(whole, bytes0, bytes')
  {}

  // Map a fresh page at page number `v`.
  method MapOurs(vm: Vmm, p: Frame, v: nat, flags: Flags, ghost was: Snap) returns (page: nat)
    requires Ours(vm, p, was) && v < USER_PAGES && flags.present && (flags.writable ==> flags.noExecute)
    requires Leaf(p, v) !in vm.view
    modifies vm`tab, vm`view, vm`stock, vm.pm, vm.pm.ranges
    ensures Ours(vm, p, was)
    ensures page == 0 ==> old(vm.Room()) < 4
    ensures page != 0 ==> page < 0x100_0000_0000 && vm.view == old(vm.view)[Leaf(p, v) := Entry(page, flags)]
    ensures page != 0 ==> page in was.stock && vm.pm.bytes[page] == ZeroPage() && vm.Room() >= old(vm.Room()) - 4
    ensures page != 0 ==> SameBut(old(vm.view), old(vm.pm.bytes), vm.view, vm.pm.bytes, p, v)
  {
    assert 4096 * v / 4096 == v;
    page := MapOwned(vm, p, 4096 * v, flags, was.stock, {});
    OthersTrans(was.view, old(vm.view), vm.view, p);
    OthersTrans(was.tab, old(vm.tab), vm.tab, p);
    BytesTrans(was.stock, old(vm.stock), was.bytes, old(vm.pm.bytes), vm.pm.bytes);
    if page != 0 {
      MappedBut(old(vm.view), old(vm.pm.bytes), vm.pm.bytes, p, v, Entry(page, flags), vm.pm.managed, old(vm.stock),
                was.stock);
    }
  }

  /** Some earlier segment is on page `v` with other permissions than segment `i`. */
  ghost predicate ClashAt(segs: seq<Segment>, i: nat, v: int)
    requires i < |segs|
  {
    exists j :: 0 <= j < i && segs[j].OnPage(v) && segs[i].OnPage(v) && PageFlags(segs[j]) != PageFlags(segs[i])
  }

  /** Page `v` is mapped to `f` for segment `i`, whose bytes are not copied yet. */
  ghost predicate Ready(view: View, bytes: map<Frame, Page>, p: Frame, file: seq<Byte>, segs: seq<Segment>, i: nat,
                        v: int, f: Frame)
    requires i < |segs|
  {
    && Leaf(p, v) in view && view[Leaf(p, v)].addr == f && HasFlags(view[Leaf(p, v)].bits, segs, i + 1, v)
    && f in bytes && HasImage(bytes[f], file, segs, i, v)
  }

  lemma ReadyMapped(view: View, bytes: map<Frame, Page>, p: Frame, file: seq<Byte>, segs: seq<Segment>, i: nat, v: int)
    requires i < |segs| && segs[i].OnPage(v) && PageState(view, bytes, p, file, segs, i, v) && Leaf(p, v) in view
    ensures var e := view[Leaf(p, v)];
            && (ClashAt(segs, i, v) <==>
            (e.bits.user, e.bits.writable, e.bits.noExecute) != (true, segs[i].Writable(), !segs[i].Executable()))
            && (!ClashAt(segs, i, v) ==> Ready(view, bytes, p, file, segs, i, v, e.addr))
  {
    var j :| 0 <= j < i && segs[j].OnPage(v);
    assert view[Leaf(p, v)].bits == PageFlags(segs[j]);
  }

  // Map a cleared page for segment `i` where no earlier segment has one.
  method NewPage(vm: Vmm, p: Frame, file: seq<Byte>, segs: seq<Segment>, i: nat, v: nat, ghost was: Snap)
    returns (f: Frame)
    requires Ours(vm, p, was) && i < |segs| && v < USER_PAGES && segs[i].OnPage(v)
    requires HasImage(ZeroPage(), file, segs, i, v) && Leaf(p, v) !in vm.view && Sound(segs[i], |file|)
    requires !Covered(segs, i, v)
    modifies vm`tab, vm`view, vm`stock, vm.pm, vm.pm.ranges
    ensures Ours(vm, p, was)
    ensures f == 0 ==> old(vm.Room()) < 4
    ensures f != 0 ==> Ready(vm.view, vm.pm.bytes, p, file, segs, i, v, f) && vm.Room() >= old(vm.Room()) - 4
    ensures f != 0 ==> SameBut(old(vm.view), old(vm.pm.bytes), vm.view, vm.pm.bytes, p, v) && f in was.stock
  {
    var page := MapOurs(vm, p, v, PageFlags(segs[i]), was);
    if page == 0 { return 0; }
    f := page;
    ghost var bytes1 := vm.pm.bytes;
    ClearBytes(vm.pm, f);
    SameBytes(bytes1, vm.pm.bytes, f);
  }

  // Find or make the frame of page `v`.
  method FetchPage(vm: Vmm, p: Frame, file: seq<Byte>, segs: seq<Segment>, i: nat, v: nat, ghost was: Snap)
    returns (code: int, f: Frame)
    requires Ours(vm, p, was) && i < |segs| && v < USER_PAGES && segs[i].OnPage(v)
    requires forall j :: 0 <= j <= i ==> Sound(segs[j], |file|)
    requires PageState(vm.view, vm.pm.bytes, p, file, segs, i, v)
    modifies vm`tab, vm`view, vm`stock, vm.pm, vm.pm.ranges
    ensures Ours(vm, p, was)
    ensures (code == 0 || code == -11 || code == -12) && (code == -12 <==> ClashAt(segs, i, v))
    ensures code == -11 ==> old(vm.Room()) < 4
    ensures code == 0 ==> Ready(vm.view, vm.pm.bytes, p, file, segs, i, v, f) && vm.Room() >= old(vm.Room()) - 4
    ensures code == 0 ==> SameBut(old(vm.view), old(vm.pm.bytes), vm.view, vm.pm.bytes, p, v) && f in was.stock
  {
    LeafPath(p, v);
    var e := vm.GetEntry(p, v);
    f := e.addr;
    if f == 0 {
      ZeroImage(file, segs, i, v);
      f := NewPage(vm, p, file, segs, i, v, was);
      return if f == 0 then -11 else 0, f;
    }
    ReadyMapped(vm.view, vm.pm.bytes, p, file, segs, i, v);
    var flags := PageFlags(segs[i]);
    if (e.bits.user, e.bits.writable, e.bits.noExecute) != (flags.user, flags.writable, flags.noExecute) {
      return -12, 0;
    }
    return 0, f;
  }

  // Copy the bytes of segment `i` into page `v`, which is mapped to `f`.
  method CopyPage(vm: Vmm, p: Frame, file: seq<Byte>, segs: seq<Segment>, i: nat, v: nat, f: Frame,
                  ghost view0: View, ghost bytes0: map<Frame, Page>, ghost was: Snap)
    requires Ours(vm, p, was) && i < |segs| && v < USER_PAGES && segs[i].OnPage(v) && Sound(segs[i], |file|)
    requires Ready(vm.view, vm.pm.bytes, p, file, segs, i, v, f) && f in was.stock
    requires SameBut(view0, bytes0, vm.view, vm.pm.bytes, p, v) && forall g: Frame :: g in bytes0
    modifies vm.pm`bytes
    ensures Ours(vm, p, was) && SameBut(view0, bytes0, vm.view, vm.pm.bytes, p, v)
    ensures PageState(vm.view, vm.pm.bytes, p, file, segs, i + 1, v)
  {
    ghost var bytes1 := vm.pm.bytes;
    CopyIn(vm.pm, f, file, segs[i], v);
    ImageStep(bytes1[f], vm.pm.bytes[f], file, segs, i, v);
    CopiedBut(vm.view, bytes1, vm.pm.bytes, p, v, vm.pm.managed, vm.stock, was.stock);
    ButTrans(view0, bytes0, vm.view, bytes1, vm.view, vm.pm.bytes, p, v);
  }

  // The loop body of elf_load for page `v` of segment `i`.
  method LoadPage(vm: Vmm, p: Frame, file: seq<Byte>, segs: seq<Segment>, i: nat, v: nat, next: nat,
                  ghost first: nat, ghost end: nat, ghost clash: iset<int>,
                  ghost was: Snap) returns (code: int)
    requires Ours(vm, p, was) && i < |segs| && first <= v < end <= USER_PAGES && OnPages(segs[i], first, end)
    requires forall j :: 0 <= j <= i ==> Sound(segs[j], |file|)
    requires Image(vm.view, vm.pm.bytes, p, file, segs, i, v) && next == v + 1 && IsClash(segs, i, clash)
    modifies vm`tab, vm`view, vm`stock, vm.pm, vm.pm.ranges
    ensures Ours(vm, p, was)
    ensures (code == 0 || code == -11 || code == -12) && (code == -12 <==> v in clash)
    ensures code == -11 ==> old(vm.Room()) < 4
    ensures code == 0 ==> Image(vm.view, vm.pm.bytes, p, file, segs, i, next) && vm.Room() >= old(vm.Room()) - 4
  {
    assert segs[i].OnPage(v) && (ClashAt(segs, i, v) <==> v in clash);
    assert PageState(vm.view, vm.pm.bytes, p, file, segs, Upto(segs, i, v, v), v);
    var f;
    code, f := FetchPage(vm, p, file, segs, i, v, was);
    if code == 0 {
      CopyPage(vm, p, file, segs, i, v, f, old(vm.view), old(vm.pm.bytes), was);
      ImageNext(old(vm.view), old(vm.pm.bytes), vm.view, vm.pm.bytes, p, file, segs, i, v);
    }
  }

  ghost predicate OnPages(s: Segment, first: nat, end: nat) {
    forall v {:trigger s.OnPage(v)} :: s.OnPage(v) <==> first <= v < end
  }

  /** The pages on which segment `i` clashes with an earlier one. */
  ghost predicate IsClash(segs: seq<Segment>, i: nat, clash: iset<int>)
    requires i < |segs|
  {
    forall v {:trigger ClashAt(segs, i, v)} :: v in clash <==> ClashAt(segs, i, v)
  }

  ghost predicate NoneIn(clash: iset<int>, first: int, end: int) { forall v :: first <= v < end ==> v !in clash }

  lemma NoneNext(clash: iset<int>, first: int, v: int, next: int, end: int)
    requires first <= v < end && next == v + 1 && NoneIn(clash, first, v)
    ensures v in clash ==> !NoneIn(clash, first, end)
    ensures v !in clash ==> NoneIn(clash, first, next)
  {}

  lemma ClashIff(segs: seq<Segment>, i: nat, clash: iset<int>, first: nat, end: nat)
    requires i < |segs| && IsClash(segs, i, clash) && OnPages(segs[i], first, end)
    ensures Clash(segs, i) <==> !NoneIn(clash, first, end)
  {
    if Clash(segs, i) {
      var j, v :| 0 <= j < i && segs[j].OnPage(v) && segs[i].OnPage(v) && PageFlags(segs[j]) != PageFlags(segs[i]);
      assert ClashAt(segs, i, v);
    }
    if v :| first <= v < end && v in clash {
      assert ClashAt(segs, i, v);
      var j :| 0 <= j < i && segs[j].OnPage(v) && segs[i].OnPage(v) && PageFlags(segs[j]) != PageFlags(segs[i]);
    }
  }

  // The page loop of elf_load.
  method LoadPages(vm: Vmm, p: Frame, file: seq<Byte>, segs: seq<Segment>, i: nat, first: nat, end: nat,
                   ghost clash: iset<int>,
                   ghost was: Snap) returns (code: int)
    requires Ours(vm, p, was) && i < |segs| && first <= end <= USER_PAGES
    requires OnPages(segs[i], first, end) && IsClash(segs, i, clash)
    requires forall j :: 0 <= j <= i ==> Sound(segs[j], |file|)
    requires Image(vm.view, vm.pm.bytes, p, file, segs, i, first)
    modifies vm`tab, vm`view, vm`stock, vm.pm, vm.pm.ranges
    ensures Ours(vm, p, was)
    ensures (code == 0 || code == -11 || code == -12) && (code == -12 ==> !NoneIn(clash, first, end))
    ensures code == 0 ==> NoneIn(clash, first, end)
    ensures code == -11 ==> old(vm.Room()) < 4 * (end - first)
    ensures code == 0 ==>
              Image(vm.view, vm.pm.bytes, p, file, segs, i, end) && vm.Room() >= old(vm.Room()) - 4 * (end - first)
  {
    var v := first;
    while v < end
      invariant first <= v <= end && Ours(vm, p, was)
      invariant Image(vm.view, vm.pm.bytes, p, file, segs, i, v)
      invariant NoneIn(clash, first, v)
      invariant vm.Room() >= old(vm.Room()) - 4 * (v - first)
    {
      var next := v + 1;
      NoneNext(clash, first, v, next, end);
      code := LoadPage(vm, p, file, segs, i, v, next, first, end, clash, was);
      if code != 0 { return; }
      v := next;
    }
    return 0;
  }

  // All pages of segment `i`.
  method LoadSegment(vm: Vmm, p: Frame, file: seq<Byte>, segs: seq<Segment>, i: nat, next: nat,
                     ghost was: Snap) returns (code: int)
    requires Ours(vm, p, was) && i < |segs| && next == i + 1 && segs[i].Loads()
    requires forall j :: 0 <= j <= i ==> Sound(segs[j], |file|)
    requires Image(vm.view, vm.pm.bytes, p, file, segs, i, 0)
    modifies vm`tab, vm`view, vm`stock, vm.pm, vm.pm.ranges
    ensures Ours(vm, p, was)
    ensures (code == 0 || code == -11 || code == -12) && (code == -12 ==> Clash(segs, i))
            && (code == 0 ==> !Clash(segs, i))
    ensures code == -11 ==> old(vm.Room()) < 4 * PagesIn(segs[i])
    ensures code == 0 ==>
              Image(vm.view, vm.pm.bytes, p, file, segs, next, 0) && vm.Room() >= old(vm.Room()) - 4 * PagesIn(segs[i])
  {
    var first, end := segs[i].FirstPage(), segs[i].PageEnd();
    ImageStart(vm.view, vm.pm.bytes, p, file, segs, i);
    ghost var clash := iset v: int | ClashAt(segs, i, v);
    ClashIff(segs, i, clash, first, end);
    code := LoadPages(vm, p, file, segs, i, first, end, clash, was);
    if code == 0 { ImageEnd(vm.view, vm.pm.bytes, p, file, segs, i, end); }
  }

  /** A header that passed its checks is sound. */
  lemma CodeSound(size: nat, segs: seq<Segment>, i: nat)
    requires i < |segs| && SegmentCode(size, segs, i) == 0
    ensures Sound(segs[i], size)
  {}

  // Check and load program header `i`; say whether it holds the entry point.
  method LoadOne(vm: Vmm, p: Frame, file: seq<Byte>, segs: seq<Segment>, entry: nat, ghost plan: Plan, i: nat,
                 next: nat, ghost was: Snap) returns (code: int, holds: bool)
    requires Ours(vm, p, was) && Planned(|file|, segs, entry, plan)
    requires i < |segs| && next == i + 1 && AllClear(plan.codes, i)
    requires Image(vm.view, vm.pm.bytes, p, file, segs, i, 0)
    modifies vm`tab, vm`view, vm`stock, vm.pm, vm.pm.ranges
    ensures Ours(vm, p, was)
    ensures code == -11 ==> old(vm.Room()) < 4 * plan.pages[i]
    ensures code != -11 ==> code == plan.codes[i]
    ensures code == 0 ==> holds == plan.holds[i] && (holds ==> segs[i].kind == PT_LOAD)
    ensures code == 0 ==>
              Image(vm.view, vm.pm.bytes, p, file, segs, next, 0) && vm.Room() >= old(vm.Room()) - 4 * plan.pages[i]
  {
    assert plan.codes[i] == StepCode(|file|, segs, i) && plan.pages[i] == PagesIn(segs[i])
        && plan.holds[i] == Holds(segs[i], entry);
    holds := false;
    code := CheckSegment(|file|, segs, i);
    if code != 0 { return; }
    AcceptedIfClear(|file|, segs, entry, plan, i);
    CodeSound(|file|, segs, i);
    var s := segs[i];
    if s.kind != PT_LOAD || s.memsz == 0 {
      ImageEnd(vm.view, vm.pm.bytes, p, file, segs, i, 0);
      return;
    }
    holds := s.Executable() && s.vaddr <= entry < s.vaddr + s.memsz;
    code := LoadSegment(vm, p, file, segs, i, next, was);
  }

  lemma ClearNext(codes: seq<int>, i: nat, next: nat)
    requires i < |codes| && next == i + 1 && AllClear(codes, i)
    ensures codes[i] == 0 ==> AllClear(codes, next)
    ensures codes[i] != 0 ==> FirstBad(codes) == codes[i]
  {
    FirstBadIs(codes, i);
  }

  /** What the loop over the program headers knows after `i` of them. */
  ghost predicate Scanned(plan: Plan, i: nat, covered: bool, loads: nat)
    requires |plan.codes| == |plan.holds|
  {
    i <= |plan.codes| && AllClear(plan.codes, i) && covered == Any(plan.holds, i) && (covered ==> loads > 0)
  }

  lemma ScannedNext(plan: Plan, i: nat, next: nat, covered: bool, loads: nat, kind: int, holds: bool, more: nat)
    requires |plan.codes| == |plan.holds| && Scanned(plan, i, covered, loads) && i < |plan.codes| && next == i + 1
    requires plan.codes[i] == 0 && holds == plan.holds[i] && (holds ==> kind == PT_LOAD)
             && more == if kind == PT_LOAD then loads + 1 else loads
    ensures Scanned(plan, next, covered || holds, more)
  {
    ClearNext(plan.codes, i, next);
  }

  lemma SumNext(pages: seq<nat>, i: nat, next: nat)
    requires i < |pages| && next == i + 1
    ensures Sum(pages, next) == Sum(pages, i) + pages[i] <= Sum(pages, |pages|)
  {
    SumGrows(pages, next, |pages|);
  }

  // The loop of elf_load over the program headers.
  method LoadHeaders(vm: Vmm, p: Frame, file: seq<Byte>, segs: seq<Segment>, entry: nat, ghost plan: Plan,
                     ghost was: Snap)
    returns (code: int, covered: bool)
    requires Ours(vm, p, was) && Planned(|file|, segs, entry, plan)
    requires Image(vm.view, vm.pm.bytes, p, file, segs, 0, 0)
    modifies vm`tab, vm`view, vm`stock, vm.pm, vm.pm.ranges
    ensures Ours(vm, p, was)
    ensures code == -11 ==> old(vm.Room()) < 4 * Sum(plan.pages, |segs|)
    ensures code != -11 ==> code == FirstBad(plan.codes)
    ensures code == 0 ==> covered == Any(plan.holds, |segs|) && AllClear(plan.codes, |segs|)
    ensures code == 0 ==> Image(vm.view, vm.pm.bytes, p, file, segs, |segs|, 0)
    ensures code == 0 ==> vm.Room() >= old(vm.Room()) - 4 * Sum(plan.pages, |segs|)
  {
    var loads, i := 0, 0;
    covered := false;
    while i < |segs|
      invariant 0 <= i <= |segs| && Ours(vm, p, was) && Scanned(plan, i, covered, loads)
      invariant Image(vm.view, vm.pm.bytes, p, file, segs, i, 0)
      invariant vm.Room() >= old(vm.Room()) - 4 * Sum(plan.pages, i)
    {
      var next := i + 1;
      SumNext(plan.pages, i, next);
      ClearNext(plan.codes, i, next);
      var holds;
      code, holds := LoadOne(vm, p, file, segs, entry, plan, i, next, was);
      if code != 0 { return; }
      var more := if segs[i].kind == PT_LOAD then loads + 1 else loads;
      ScannedNext(plan, i, next, covered, loads, segs[i].kind, holds, more);
      loads, covered, i := more, covered || holds, next;
    }
    FirstBadIs(plan.codes, |segs|);
    return 0, loads > 0 && covered;
  }

  // The program headers and the test of the entry point.
  method LoadAll(vm: Vmm, p: Frame, file: seq<Byte>, segs: seq<Segment>, entry: nat, ghost plan: Plan, ghost was: Snap)
    returns (code: int)
    requires Ours(vm, p, was) && Planned(|file|, segs, entry, plan)
    requires Image(vm.view, vm.pm.bytes, p, file, segs, 0, 0)
    modifies vm`tab, vm`view, vm`stock, vm.pm, vm.pm.ranges
    ensures Ours(vm, p, was)
    ensures code == -11 ==> old(vm.Room()) < 4 * Sum(plan.pages, |segs|)
    ensures code != -11 ==> code == Outcome(plan)
    ensures code == 0 ==> Image(vm.view, vm.pm.bytes, p, file, segs, |segs|, 0) && AllClear(plan.codes, |segs|)
    ensures code == 0 ==> vm.Room() >= old(vm.Room()) - 4 * Sum(plan.pages, |segs|)
  {
    var covered;
    code, covered := LoadHeaders(vm, p, file, segs, entry, plan, was);
    if code == 0 {
      var good := covered;
      if covered { good := EntryOk(vm, p, file, segs, entry, plan); }
      if !good { code := -14; }
    }
  }

  // The test of the entry point's page.
  method EntryOk(vm: Vmm, p: Frame, file: seq<Byte>, segs: seq<Segment>, entry: nat, ghost plan: Plan)
    returns (good: bool)
    requires vm.Valid() && vm.Live(p) && Planned(|file|, segs, entry, plan) && AllClear(plan.codes, |segs|)
    requires Image(vm.view, vm.pm.bytes, p, file, segs, |segs|, 0) && Any(plan.holds, |segs|)
    ensures good
  {
    AcceptedIfClear(|file|, segs, entry, plan, |segs|);
    AnyIs(plan.holds, |segs|);
    ghost var j :| 0 <= j < |segs| && plan.holds[j];
    assert Holds(segs[j], entry);
    EntryPage(vm.view, vm.pm.bytes, p, file, segs, entry, j);
    var e := vm.GetEntry(p, entry / 4096);
    good := !(entry >= USER_LIMIT || !e.bits.present || !e.bits.user || e.bits.noExecute);
  }

  /** The second test of the entry point never fails once a segment covers it. */
  lemma EntryPage(view: View, bytes: map<Frame, Page>, p: Frame, file: seq<Byte>, segs: seq<Segment>, entry: nat,
                  j: nat)
    requires Accepted(|file|, segs, |segs|) && Image(view, bytes, p, file, segs, |segs|, 0) && j < |segs|
             && Holds(segs[j], entry)
    ensures entry < USER_LIMIT && Leaf(p, entry / 4096) in view
    ensures var e := view[Leaf(p, entry / 4096)]; e.bits.present && e.bits.user && !e.bits.noExecute
  {
    OnOwnPages(segs[j], entry);
    var v := entry / 4096;
    assert PageState(view, bytes, p, file, segs, Upto(segs, |segs|, 0, v), v);
    assert Covered(segs, |segs|, v);
  }

  // ---------------------------------------------------------------- the stack and the result

  /** The stack in page numbers. */
  const STACK_FIRST := 0x6_FFF0
  const STACK_END := 0x7_0000

  /** Page `v` of a loaded program: a zeroed stack page below `top`, otherwise what the segments say. */
  ghost predicate PageDone(view: View, bytes: map<Frame, Page>, p: Frame, file: seq<Byte>, segs: seq<Segment>, top: int,
                           v: int) {
    if STACK_FIRST <= v < top then
      && Leaf(p, v) in view && view[Leaf(p, v)].bits == STACK_FLAGS
      && view[Leaf(p, v)].addr in bytes && bytes[view[Leaf(p, v)].addr] == ZeroPage()
    else PageState(view, bytes, p, file, segs, |segs|, v)
  }

  ghost predicate Loaded(view: View, bytes: map<Frame, Page>, p: Frame, file: seq<Byte>, segs: seq<Segment>, top: int) {
    forall v {:trigger PageDone(view, bytes, p, file, segs, top, v)} :: 0 <= v < USER_PAGES ==>
      PageDone(view, bytes, p, file, segs, top, v)
  }

  lemma StackStart(view: View, bytes: map<Frame, Page>, p: Frame, file: seq<Byte>, segs: seq<Segment>)
    requires Image(view, bytes, p, file, segs, |segs|, 0)
    ensures Loaded(view, bytes, p, file, segs, STACK_FIRST)
  {
    forall v | 0 <= v < USER_PAGES ensures PageDone(view, bytes, p, file, segs, STACK_FIRST, v) {
      assert PageState(view, bytes, p, file, segs, Upto(segs, |segs|, 0, v), v);
    }
  }

  /** No segment is on a stack page, so the page is not mapped yet. */
  lemma StackFree(view: View, bytes: map<Frame, Page>, p: Frame, file: seq<Byte>, segs: seq<Segment>, v: int)
    requires Loaded(view, bytes, p, file, segs, v) && STACK_FIRST <= v < STACK_END && Accepted(|file|, segs, |segs|)
    ensures Leaf(p, v) !in view
  {
    assert PageDone(view, bytes, p, file, segs, v, v);
    forall j | 0 <= j < |segs| ensures !segs[j].OnPage(v) { OffStack(segs[j], |file|, v); }
  }

  lemma StackNext(view: View, bytes: map<Frame, Page>, view': View, bytes': map<Frame, Page>, p: Frame,
                  file: seq<Byte>, segs: seq<Segment>, v: int, next: int)
    requires Loaded(view, bytes, p, file, segs, v) && STACK_FIRST <= v < STACK_END && next == v + 1
    requires SameBut(view, bytes, view', bytes', p, v) && PageDone(view', bytes', p, file, segs, next, v)
    ensures Loaded(view', bytes', p, file, segs, next)
  {
    forall w | 0 <= w < USER_PAGES ensures PageDone(view', bytes', p, file, segs, next, w) {
      assert PageDone(view, bytes, p, file, segs, v, w);
      if w != v { assert SamePage(view, bytes, view', bytes', Leaf(p, w)); }
    }
  }

  // Map stack page `v`.
  method StackPage(vm: Vmm, p: Frame, file: seq<Byte>, segs: seq<Segment>, v: nat, next: nat, ghost was: Snap)
    returns (ok: bool)
    requires Ours(vm, p, was) && Accepted(|file|, segs, |segs|)
    requires STACK_FIRST <= v < STACK_END && next == v + 1 && Loaded(vm.view, vm.pm.bytes, p, file, segs, v)
    modifies vm`tab, vm`view, vm`stock, vm.pm, vm.pm.ranges
    ensures Ours(vm, p, was)
    ensures !ok ==> old(vm.Room()) < 4
    ensures ok ==> Loaded(vm.view, vm.pm.bytes, p, file, segs, next) && vm.Room() >= old(vm.Room()) - 4
  {
    StackFree(vm.view, vm.pm.bytes, p, file, segs, v);
    var page := MapOurs(vm, p, v, STACK_FLAGS, was);
    ok := page != 0;
    if ok { StackNext(old(vm.view), old(vm.pm.bytes), vm.view, vm.pm.bytes, p, file, segs, v, next); }
  }

  // The stack loop of elf_load.
  method MapStack(vm: Vmm, p: Frame, file: seq<Byte>, segs: seq<Segment>, ghost was: Snap) returns (code: int)
    requires Ours(vm, p, was) && Accepted(|file|, segs, |segs|)
    requires Loaded(vm.view, vm.pm.bytes, p, file, segs, STACK_FIRST)
    modifies vm`tab, vm`view, vm`stock, vm.pm, vm.pm.ranges
    ensures Ours(vm, p, was)
    ensures code == 0 || code == -13
    ensures code == -13 ==> old(vm.Room()) < 64
    ensures code == 0 ==> Loaded(vm.view, vm.pm.bytes, p, file, segs, STACK_END)
  {
    var v := STACK_FIRST;
    while v < STACK_END
      invariant STACK_FIRST <= v <= STACK_END && Ours(vm, p, was)
      invariant Loaded(vm.view, vm.pm.bytes, p, file, segs, v)
      invariant vm.Room() >= old(vm.Room()) - 4 * (v - STACK_FIRST)
    {
      var next := v + 1;
      var ok := StackPage(vm, p, file, segs, v, next, was);
      if !ok { return -13; }
      v := next;
    }
    return 0;
  }

  // Everything elf_load does between creating the address space and returning.
  method Fill(vm: Vmm, p: Frame, file: seq<Byte>, segs: seq<Segment>, entry: nat, ghost plan: Plan, ghost was: Snap)
    returns (code: int)
    requires Ours(vm, p, was) && Planned(|file|, segs, entry, plan)
    requires Image(vm.view, vm.pm.bytes, p, file, segs, 0, 0)
    modifies vm`tab, vm`view, vm`stock, vm.pm, vm.pm.ranges
    ensures Ours(vm, p, was)
    ensures code == -11 || code == -13 ==> old(vm.Room()) < 4 * Sum(plan.pages, |segs|) + 64
    ensures code != -11 && code != -13 ==> code == Outcome(plan)
    ensures code == 0 ==> Loaded(vm.view, vm.pm.bytes, p, file, segs, STACK_END)
  {
    code := LoadAll(vm, p, file, segs, entry, plan, was);
    NoSuchCode(|file|, segs, entry, plan, 0);
    if code == 0 {
      AcceptedIfClear(|file|, segs, entry, plan, |segs|);
      StackStart(vm.view, vm.pm.bytes, p, file, segs);
      code := MapStack(vm, p, file, segs, was);
    }
  }

  lemma {:induction false} NoSuchCode(size: nat, segs: seq<Segment>, entry: nat, plan: Plan, k: nat)
    requires Planned(size, segs, entry, plan) && k <= |segs|
    ensures !OutOfMemory(FirstBad(plan.codes[k..]))
    decreases |segs| - k
  {
    if k < |segs| {
      NoSuchCode(size, segs, entry, plan, k + 1);
      assert plan.codes[k..][1..] == plan.codes[k + 1..];
      assert plan.codes[k..][0] == StepCode(size, segs, k);
    }
    assert plan.codes[0..] == plan.codes;
  }

  /** An address space without pages holds the image of no segments. */
  lemma NothingLoaded(view: View, bytes: map<Frame, Page>, p: Frame, file: seq<Byte>, segs: seq<Segment>)
    requires forall m :: m in view ==> Space(m) != p
    ensures Image(view, bytes, p, file, segs, 0, 0)
  {
    forall v | 0 <= v < USER_PAGES ensures PageState(view, bytes, p, file, segs, Upto(segs, 0, 0, v), v) {
      LeafPath(p, v);
    }
  }

  /** Out of memory: no page for the PML4, for a segment or for the stack. */
  predicate OutOfMemory(code: int) { code == -6 || code == -11 || code == -13 }

  /** Pages that always suffice: one for the PML4, and for each mapped page the page and three tables. */
  ghost function Demand(file: seq<Byte>): nat {
    if HeaderCode(file, |file|) == 0 then 1 + 4 * Sum(FilePlan(file).pages, |Segments(file)|) + 64 else 0
  }

  // Load into the new address space, or destroy it.
  method FillOrEnd(vm: Vmm, p: Frame, file: seq<Byte>, segs: seq<Segment>, entry: nat, ghost plan: Plan,
                   ghost was: Snap) returns (code: int)
    requires Ours(vm, p, was) && Unmade(vm, p, was) && Planned(|file|, segs, entry, plan)
    requires Image(vm.view, vm.pm.bytes, p, file, segs, 0, 0)
    modifies vm, vm.pm, vm.pm.ranges
    ensures vm.Valid() && KeepsBytes(was.stock, was.bytes, vm.pm.bytes)
    ensures code == -11 || code == -13 ==> old(vm.Room()) < 4 * Sum(plan.pages, |segs|) + 64
    ensures code != -11 && code != -13 ==> code == Outcome(plan)
    ensures code == 0 ==> Ours(vm, p, was) && Loaded(vm.view, vm.pm.bytes, p, file, segs, STACK_END)
    ensures code != 0 ==> vm.tab == was.tab && vm.view == was.view && vm.stock == was.stock
    ensures code != 0 ==> vm.pm.free + vm.pm.lost == was.free + was.lost && was.lost <= vm.pm.lost
    ensures code != 0 && (vm.pm.lost == was.lost || vm.pm.Roomy()) ==> vm.pm.list == was.list
  {
    code := Fill(vm, p, file, segs, entry, plan, was);
    if code != 0 { End(vm, p, was); }
  }

  /** Load an executable. Unless memory runs out, the result is what the file alone decides. On success the new
      address space holds exactly the file's image and a zeroed stack, and owns every frame it uses; on failure the
      tables, the translations and the free pages are as before, and so is the free list unless so many pages were in
      use that the free-range array could be full. */
  method ElfLoad(vm: Vmm, file: seq<Byte>, nulls: bool) returns (code: int, p: Frame, entry: nat)
    requires vm.Valid() && |file| < WORD64
    modifies vm, vm.pm, vm.pm.ranges
    ensures vm.Valid()
    ensures !OutOfMemory(code) ==> code == if nulls then -1 else FileVerdict(file)
    ensures OutOfMemory(code) ==> !nulls && HeaderCode(file, |file|) == 0 && old(vm.Room()) < Demand(file)
    ensures code == 0 ==> Ours(vm, p, old(Now(vm))) && Unmade(vm, p, old(Now(vm)))
    ensures code == 0 ==>
              Loaded(vm.view, vm.pm.bytes, p, file, Segments(file), STACK_END) && entry == ParseHeader(file).entry
    ensures code != 0 ==> vm.tab == old(vm.tab) && vm.view == old(vm.view) && vm.stock == old(vm.stock)
    ensures code != 0 ==> vm.pm.free + vm.pm.lost == old(vm.pm.free + vm.pm.lost) && old(vm.pm.lost) <= vm.pm.lost
    ensures code != 0 && (vm.pm.lost == old(vm.pm.lost) || vm.pm.Roomy()) ==> vm.pm.list == old(vm.pm.list)
    ensures code != 0 ==> KeepsBytes(old(vm.stock), old(vm.pm.bytes), vm.pm.bytes)
  {
    if nulls { return -1, 0, 0; }
    code := HeaderCode(file, |file|);
    if code != 0 { return code, 0, 0; }
    var h, segs := ParseHeader(file), Segments(file);
    ghost var was := Now(vm);
    var q := Begin(vm);
    if q == 0 { return -6, 0, 0; }
    NothingLoaded(vm.view, vm.pm.bytes, q, file, segs);
    ghost var plan := FilePlan(file);
    NoSuchCode(|file|, segs, h.entry, plan, 0);
    assert plan.codes[0..] == plan.codes;
    code := FillOrEnd(vm, q, file, segs, h.entry, plan, was);
    return code, if code == 0 then q else 0, h.entry;
  }

  /** What a loaded program sees at any address of any of its segments: the page is mapped for user code with the
      segment's permissions and never both writable and executable, it is not a stack page, and the byte is the
      file's byte below `filesz` and zero from there on. */
  lemma LoadedMeaning(view: View, bytes: map<Frame, Page>, p: Frame, file: seq<Byte>, j: nat, x: nat)
    requires FileVerdict(file) == 0 && Loaded(view, bytes, p, file, Segments(file), STACK_END)
    requires j < |Segments(file)| && Segments(file)[j].Loads() && Segments(file)[j].vaddr <= x < Segments(file)[j].End()
    ensures var s, k := Segments(file)[j], Leaf(p, x / 4096);
            && k in view && view[k].bits == PageFlags(s) && !(view[k].bits.writable && !view[k].bits.noExecute)
            && !(STACK_LOW <= x < STACK_HIGH) && view[k].addr in bytes && s.offset + s.filesz <= |file|
            && bytes[view[k].addr][x % 4096] == if x < s.vaddr + s.filesz then file[s.offset + (x - s.vaddr)] else 0
  {
    var segs, v := Segments(file), x / 4096;
    ClearIfFirst(FilePlan(file).codes);
    AcceptedIfClear(|file|, segs, ParseHeader(file).entry, FilePlan(file), |segs|);
    assert Sound(segs[j], |file|);
    SegmentPage(segs[j], |file|, x, v);
    assert PageDone(view, bytes, p, file, segs, STACK_END, v);
    assert Covered(segs, |segs|, v);
    SegmentImage(file, segs, |segs|, j, x);
    ImageAt(bytes[view[Leaf(p, v)].addr], file, segs, |segs|, v, x);
  }

  lemma SegmentPage(s: Segment, size: nat, x: nat, v: nat)
    requires Sound(s, size) && s.Loads() && s.vaddr <= x < s.End() && v == x / 4096
    ensures s.OnPage(v) && v < USER_PAGES && !(STACK_FIRST <= v < STACK_END) && !(STACK_LOW <= x < STACK_HIGH)
  {
    OnOwnPages(s, x);
    OffStack(s, size, v);
  }
}
