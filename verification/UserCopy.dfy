/** Copies between kernel buffers and user memory (kernel/memory.c): page-sized chunks through the translation
    of the current address space, against a byte-by-byte specification. */
module UserCopies {
  import opened Hardware
  import opened PhysicalMemory
  import opened PageTree
  import opened PageTables
  import opened AddressSpaces

  const USER_LIMIT := 0x8000_0000_0000

  datatype Access = Access(write: bool, exec: bool)
  const READ := Access(false, false)
  const WRITE := Access(true, false)

  /** The interior entries on the way to page `v` all carry the user bit. */
  ghost predicate UserPath(tab: Tab, words: Words, n: Node, level: nat, v: int)
    decreases level
  {
    level <= 1 || (n in tab && Ent(words, tab[n], Index(v, level)).bits.user
                   && UserPath(tab, words, Child(n, Index(v, level)), level - 1, v))
  }

  /** Page `v` of the address space is mapped for user code with the wanted rights. */
  ghost predicate Accessible(tab: Tab, view: View, words: Words, p: Frame, v: int, access: Access) {
    && Leaf(p, v) in view
    && var e := view[Leaf(p, v)];
       && e.bits.user && (access.write ==> e.bits.writable) && (access.exec ==> !e.bits.noExecute)
       && UserPath(tab, words, Root(p), 4, v)
  }

  /** What user_range_valid decides. */
  ghost predicate RangeValid(vm: Vmm, addr: nat, size: nat, access: Access)
    reads vm, vm.pm
  {
    size == 0 || (&& addr + size <= USER_LIMIT && vm.cr3 != 0 && vm.cr3 != vm.kernelPml4
                  && forall v :: addr / 4096 <= v <= (addr + size - 1) / 4096 ==>
                       Accessible(vm.tab, vm.view, vm.pm.words, vm.cr3, v, access))
  }

  // The walk of user_range_valid for one page.
  method CheckPage(vm: Vmm, f: Frame, level: nat, v: int, access: Access, ghost n: Node) returns (ok: bool)
    requires vm.Valid() && n in vm.tab && vm.tab[n] == f && Level(n) == level && 1 <= level <= 4 && 0 <= v < USER_PAGES
    ensures ok <==> var k := Under(n, level, v);
                    && k in vm.view && vm.view[k].bits.user && (access.write ==> vm.view[k].bits.writable)
                    && (access.exec ==> !vm.view[k].bits.noExecute) && UserPath(vm.tab, vm.pm.words, n, level, v)
    decreases level
  {
    var i := Index(v, level);
    IndexInWidth(n, v, level);
    var e := vm.pm.words[f][i];
    if level == 1 {
      assert Under(n, 1, v) == Under(Child(n, i), 0, v) == Child(n, i);
      assert Cell(vm.tab, vm.view, vm.pm.words, n, i);
      return e.bits.present && e.bits.user && !(access.write && !e.bits.writable) && !(access.exec && e.bits.noExecute);
    }
    assert Slot(vm.tab, vm.pm.words, n, i);
    if !e.bits.present || !e.bits.user || e.bits.huge {
      if !e.bits.present { UnderAbsent(vm.tab, vm.view, vm.pm.words, Child(n, i), level - 1, v); }
      return false;
    }
    ok := CheckPage(vm, e.addr, level - 1, v, access, Child(n, i));
  }

  method UserRangeValid(vm: Vmm, addr: nat, size: nat, access: Access) returns (ok: bool)
    requires vm.Valid() && (vm.cr3 == 0 || vm.cr3 == vm.kernelPml4 || vm.Live(vm.cr3))
    requires addr < 0x1_0000_0000_0000_0000 && size < 0x1_0000_0000_0000_0000
    ensures ok <==> RangeValid(vm, addr, size, access)
  {
    if size == 0 { return true; }
    if addr + size >= 0x1_0000_0000_0000_0000 || addr >= USER_LIMIT || addr + size > USER_LIMIT { return false; }
    if vm.cr3 == 0 || vm.cr3 == vm.kernelPml4 { return false; }
    ok := PagesAccessible(vm, addr / 4096, (addr + size - 1) / 4096, access);
  }

  // The page loop of vmm_user_range_valid.
  method PagesAccessible(vm: Vmm, first: nat, last: nat, access: Access) returns (ok: bool)
    requires vm.Valid() && vm.Live(vm.cr3) && first <= last < USER_PAGES
    ensures ok <==> forall v :: first <= v <= last ==> Accessible(vm.tab, vm.view, vm.pm.words, vm.cr3, v, access)
  {
    assert Placed(vm.tab, Root(vm.cr3));
    var page := first;
    while true
      invariant first <= page <= last
      invariant forall v :: first <= v < page ==> Accessible(vm.tab, vm.view, vm.pm.words, vm.cr3, v, access)
      decreases last - page
    {
      var good := CheckPage(vm, vm.cr3, 4, page, access, Root(vm.cr3));
      assert good <==> Accessible(vm.tab, vm.view, vm.pm.words, vm.cr3, page, access);
      if !good { return false; }
      if page == last { return true; }
      page := page + 1;
    }
  }

  // ---------------------------------------------------------------- the byte-by-byte specification

  ghost predicate MappedAt(view: View, p: Frame, x: int) { Leaf(p, x / 4096) in view }

  /** The frame that backs address `x`; 0 when the page is not mapped. */
  ghost function FrameAt(view: View, p: Frame, x: int): Frame {
    if MappedAt(view, p, x) then view[Leaf(p, x / 4096)].addr else 0
  }

  /** The byte user code with PML4 `p` reads at address `x`. */
  ghost function Load(bytes: map<Frame, Page>, view: View, p: Frame, x: int): Byte
    requires forall f: Frame :: f in bytes
  {
    bytes[FrameAt(view, p, x)][x % 4096]
  }

  /** One byte written to physical memory. */
  datatype Store = Store(frame: Frame, offset: nat, value: Byte)

  ghost predicate StoresOk(stores: seq<Store>) { forall i :: 0 <= i < |stores| ==> stores[i].offset < 4096 }

  /** Memory after the first `k` stores, made one after the other. */
  ghost function Applied(bytes: map<Frame, Page>, stores: seq<Store>, k: nat): (m: map<Frame, Page>)
    requires k <= |stores| && StoresOk(stores) && forall f: Frame :: f in bytes
    ensures forall f: Frame :: f in m
  {
    if k == 0 then bytes
    else
      var m, s := Applied(bytes, stores, k - 1), stores[k - 1];
      m[s.frame := m[s.frame][s.offset := s.value]]
  }

  /** The stores of a byte-by-byte copy to address `addr`: byte `i` goes where `addr + i` translates to. */
  ghost function ByteStores(view: View, p: Frame, addr: int, data: seq<Byte>): (s: seq<Store>)
    ensures StoresOk(s)
  {
    seq(|data|, i => Store(FrameAt(view, p, addr + i), (addr + i) % 4096, if 0 <= i < |data| then data[i] else 0))
  }

  /** A byte of memory that no store names keeps its value. */
  lemma {:induction false} AppliedElsewhere(bytes: map<Frame, Page>, stores: seq<Store>, k: nat, f: Frame, o: int)
    requires k <= |stores| && StoresOk(stores) && (forall g: Frame :: g in bytes) && 0 <= o < 4096
    requires forall i :: 0 <= i < k ==> stores[i].frame != f || stores[i].offset != o
    ensures Applied(bytes, stores, k)[f][o] == bytes[f][o]
  {
    if k > 0 { AppliedElsewhere(bytes, stores, k - 1, f, o); }
  }

  /** The last store to a spot decides what is there. */
  lemma {:induction false} AppliedLast(bytes: map<Frame, Page>, stores: seq<Store>, k: nat, i: nat)
    requires i < k <= |stores| && StoresOk(stores) && forall g: Frame :: g in bytes
    requires forall j :: i < j < k ==> stores[j].frame != stores[i].frame || stores[j].offset != stores[i].offset
    ensures Applied(bytes, stores, k)[stores[i].frame][stores[i].offset] == stores[i].value
  {
    if i < k - 1 { AppliedLast(bytes, stores, k - 1, i); }
  }

  /** Different pages of the space are backed by different frames. */
  ghost predicate FramesApart(view: View, p: Frame) {
    forall v, w :: (&& 0 <= v < USER_PAGES && 0 <= w < USER_PAGES && Leaf(p, v) in view && Leaf(p, w) in view
                    && view[Leaf(p, v)].addr == view[Leaf(p, w)].addr) ==> v == w
  }

  /** Where no two pages share a frame, user code reads exactly the copied bytes at the target addresses and its
      old bytes at every other mapped address. */
  lemma CopyReadsBack(bytes: map<Frame, Page>, view: View, p: Frame, addr: nat, data: seq<Byte>, x: nat)
    requires (forall f: Frame :: f in bytes) && FramesApart(view, p) && addr + |data| <= USER_LIMIT && x < USER_LIMIT
    requires AllMapped(view, p, addr, |data|) && MappedAt(view, p, x)
    ensures var m := Applied(bytes, ByteStores(view, p, addr, data), |data|);
            Load(m, view, p, x) == if addr <= x < addr + |data| then data[x - addr] else Load(bytes, view, p, x)
  {
    var stores := ByteStores(view, p, addr, data);
    forall j | 0 <= j < |data| && addr + j != x
      ensures stores[j].frame != FrameAt(view, p, x) || stores[j].offset != x % 4096
    {
      assert MappedAt(view, p, addr + j);
      if FrameAt(view, p, addr + j) == FrameAt(view, p, x) { assert (addr + j) / 4096 == x / 4096; }
    }
    if addr <= x < addr + |data| {
      AppliedLast(bytes, stores, |data|, x - addr);
    } else {
      AppliedElsewhere(bytes, stores, |data|, FrameAt(view, p, x), x % 4096);
    }
  }

  /** No copy to an address space stores into a page table or into a free page, except through a page whose frame is
      lent; and where no page is lent no two pages are on one frame. */
  lemma OwnedCopy(vm: Vmm, whole: set<int>, p: Frame, lent: set<Node>, addr: nat, data: seq<Byte>, i: nat)
    requires vm.Valid() && Owns(vm.view, vm.pm.managed, vm.stock, whole, p, lent)
    requires AllMapped(vm.view, p, addr, |data|) && i < |data| && Leaf(p, (addr + i) / 4096) !in lent
    ensures var f := ByteStores(vm.view, p, addr, data)[i].frame; f !in Frames(vm.tab) && f !in vm.pm.free
    ensures lent == {} ==> FramesApart(vm.view, p)
  {
    if lent == {} { OwnedApart(vm.view, vm.pm.managed, vm.stock, whole, p); }
    StoreFrame(vm.view, p, addr, data, i);
    LeafPath(p, (addr + i) / 4096);
    assert vm.stock == vm.pm.free + vm.pm.lost + Frames(vm.tab);
  }

  lemma OwnedApart(view: View, managed: set<int>, stock: set<int>, whole: set<int>, p: Frame)
    requires Owns(view, managed, stock, whole, p, {})
    ensures FramesApart(view, p)
  {
    forall v, w | 0 <= v < USER_PAGES && 0 <= w < USER_PAGES && Leaf(p, v) in view && Leaf(p, w) in view
                  && view[Leaf(p, v)].addr == view[Leaf(p, w)].addr ensures v == w
    {
      LeafPath(p, v);
      LeafPath(p, w);
      assert SoleOwner(view, p, {}, Leaf(p, v), Leaf(p, w));
      LeafInjective(p, v, p, w);
    }
  }

  lemma StoreFrame(view: View, p: Frame, addr: nat, data: seq<Byte>, i: nat)
    requires AllMapped(view, p, addr, |data|) && i < |data|
    ensures var k := Leaf(p, (addr + i) / 4096); k in view && ByteStores(view, p, addr, data)[i].frame == view[k].addr
  {
    var x := addr + i;
    assert MappedAt(view, p, x);
    var stores := ByteStores(view, p, addr, data);
    assert stores[i] == Store(FrameAt(view, p, addr + i), (addr + i) % 4096, data[i]);
    assert FrameAt(view, p, x) == view[Leaf(p, x / 4096)].addr;
  }

  ghost predicate AllMapped(view: View, p: Frame, addr: int, size: int) {
    forall x :: addr <= x < addr + size ==> MappedAt(view, p, x)
  }

  /** Within one page the frame is the same and offsets count up. */
  lemma ChunkAt(view: View, p: Frame, x: int, y: int)
    requires x <= y < x + 4096 - x % 4096
    ensures FrameAt(view, p, y) == FrameAt(view, p, x) && y % 4096 == x % 4096 + (y - x)
  {
    assert y / 4096 == x / 4096;
  }

  lemma RangeMapped(vm: Vmm, addr: nat, size: nat, access: Access)
    requires RangeValid(vm, addr, size, access)
    ensures AllMapped(vm.view, vm.cr3, addr, size)
  {
    forall x | addr <= x < addr + size ensures MappedAt(vm.view, vm.cr3, x) {
      assert Accessible(vm.tab, vm.view, vm.pm.words, vm.cr3, x / 4096, access);
    }
  }

  // ---------------------------------------------------------------- the copies

  // Copy the bytes of one page into the buffer.
  method ReadChunk(dst: array<Byte>, at: nat, page: Page, offset: nat, chunk: nat)
    requires at + chunk <= dst.Length && offset + chunk <= 4096
    modifies dst
    ensures forall i :: at <= i < at + chunk ==> dst[i] == page[offset + (i - at)]
    ensures forall i :: 0 <= i < dst.Length && !(at <= i < at + chunk) ==> dst[i] == old(dst[i])
  {
    for k := 0 to chunk
      invariant forall i :: at <= i < at + k ==> dst[i] == page[offset + (i - at)]
      invariant forall i :: 0 <= i < dst.Length && !(at <= i < at + k) ==> dst[i] == old(dst[i])
    {
      dst[at + k] := page[offset + k];
    }
  }

  // Copy what lies on the page of user address `src + done`.
  method FetchChunk(vm: Vmm, dst: array<Byte>, done: nat, src: nat, chunk: nat)
    requires vm.Valid() && vm.Live(vm.cr3) && MappedAt(vm.view, vm.cr3, src + done) && src + done < USER_LIMIT
    requires (src + done) % 4096 + chunk <= 4096 && done + chunk <= dst.Length
    modifies dst
    ensures forall i :: done <= i < done + chunk ==> dst[i] == Load(vm.pm.bytes, vm.view, vm.cr3, src + i)
    ensures forall i :: 0 <= i < dst.Length && !(done <= i < done + chunk) ==> dst[i] == old(dst[i])
  {
    var x := src + done;
    var f := FindFrame(vm, x);
    ReadChunk(dst, done, vm.pm.bytes[f], x % 4096, chunk);
    forall i | done <= i < done + chunk ensures dst[i] == Load(vm.pm.bytes, vm.view, vm.cr3, src + i) {
      ChunkAt(vm.view, vm.cr3, x, src + i);
    }
  }

  /** Copy out of user memory (copy_from_user): byte `i` of the buffer is the byte at address `src + i`; a refused
      copy, and every copy beyond its size, leaves the buffer alone. */
  method CopyFromUser(vm: Vmm, dst: array<Byte>, dstNull: bool, src: nat, size: nat) returns (ok: bool)
    requires vm.Valid() && (vm.cr3 == 0 || vm.cr3 == vm.kernelPml4 || vm.Live(vm.cr3))
    requires src < 0x1_0000_0000_0000_0000 && size < 0x1_0000_0000_0000_0000 && (!dstNull ==> size <= dst.Length)
    modifies dst
    ensures ok <==> size == 0 || (!dstNull && src != 0 && RangeValid(vm, src, size, READ))
    ensures ok ==> forall i :: 0 <= i < size ==> i < dst.Length && dst[i] == Load(vm.pm.bytes, vm.view, vm.cr3, src + i)
    ensures forall i :: 0 <= i < dst.Length && (!ok || i >= size) ==> dst[i] == old(dst[i])
  {
    if size == 0 { return true; }
    if dstNull || src == 0 { return false; }
    ok := UserRangeValid(vm, src, size, READ);
    if !ok { return; }
    RangeMapped(vm, src, size, READ);
    var done := 0;
    while done < size
      invariant 0 <= done <= size
      invariant forall i :: 0 <= i < done ==> dst[i] == Load(vm.pm.bytes, vm.view, vm.cr3, src + i)
      invariant forall i :: done <= i < dst.Length ==> dst[i] == old(dst[i])
    {
      var x := src + done;
      assert MappedAt(vm.view, vm.cr3, x);
      var offset := x % 4096;
      var chunk := if 4096 - offset > size - done then size - done else 4096 - offset;
      FetchChunk(vm, dst, done, src, chunk);
      done := done + chunk;
    }
  }

  // Copy the bytes of one page out of the buffer.
  method WriteChunk(pm: PhysMem, f: Frame, data: seq<Byte>, at: nat, next: nat, offset: nat,
                    ghost stores: seq<Store>, ghost bytes: map<Frame, Page>)
    requires pm.Valid() && at <= next <= |data| == |stores| && offset + (next - at) <= 4096
    requires StoresOk(stores) && forall g: Frame :: g in bytes
    requires forall i :: at <= i < next ==> stores[i] == Store(f, offset + (i - at), data[i])
    requires pm.bytes == Applied(bytes, stores, at)
    modifies pm`bytes
    ensures pm.Valid() && pm.bytes == Applied(bytes, stores, next)
  {
    for i := at to next
      invariant pm.Valid() && pm.bytes == Applied(bytes, stores, i)
    {
      assert stores[i] == Store(f, offset + (i - at), data[i]);
      pm.WriteByte(f, offset + (i - at), data[i]);
    }
  }

  /** The stores of one chunk all go to the same frame. */
  lemma ChunkStores(view: View, p: Frame, addr: int, data: seq<Byte>, stores: seq<Store>, f: Frame, at: nat, next: nat,
                    offset: nat)
    requires at <= next <= |data| && offset == (addr + at) % 4096 && offset + (next - at) <= 4096
    requires stores == ByteStores(view, p, addr, data) && f == FrameAt(view, p, addr + at)
    ensures forall i :: at <= i < next ==> stores[i] == Store(f, offset + (i - at), data[i])
  {
    forall i | at <= i < next ensures stores[i] == Store(f, offset + (i - at), data[i]) {
      ChunkAt(view, p, addr + at, addr + i);
    }
  }

  // The frame behind a mapped user address.
  method FindFrame(vm: Vmm, x: nat) returns (f: Frame)
    requires vm.Valid() && vm.Live(vm.cr3) && MappedAt(vm.view, vm.cr3, x) && x < USER_LIMIT
    ensures f == FrameAt(vm.view, vm.cr3, x)
  {
    var e := vm.GetEntry(vm.cr3, x / 4096);
    f := e.addr;
  }

  // One round of copy_to_user.
  method WriteSome(vm: Vmm, dst: nat, data: seq<Byte>, done: nat, ghost stores: seq<Store>,
                   ghost bytes: map<Frame, Page>)
    returns (next: nat)
    requires vm.Valid() && vm.Live(vm.cr3) && MappedAt(vm.view, vm.cr3, dst + done) && done < |data|
    requires dst + done < USER_LIMIT
             && (forall g: Frame :: g in bytes) && stores == ByteStores(vm.view, vm.cr3, dst, data)
    requires vm.pm.bytes == Applied(bytes, stores, done)
    modifies vm.pm`bytes
    ensures done < next <= |data| && vm.Valid() && vm.pm.bytes == Applied(bytes, stores, next)
  {
    var x := dst + done;
    var f := FindFrame(vm, x);
    var offset := x % 4096;
    var chunk := if 4096 - offset > |data| - done then |data| - done else 4096 - offset;
    next := done + chunk;
    ChunkStores(vm.view, vm.cr3, dst, data, stores, f, done, next, offset);
    WriteChunk(vm.pm, f, data, done, next, offset, stores, bytes);
  }

  // The loop of copy_to_user.
  method WriteAll(vm: Vmm, dst: nat, data: seq<Byte>, ghost stores: seq<Store>)
    requires vm.Valid() && vm.Live(vm.cr3) && AllMapped(vm.view, vm.cr3, dst, |data|) && dst + |data| <= USER_LIMIT
    requires stores == ByteStores(vm.view, vm.cr3, dst, data)
    modifies vm.pm`bytes
    ensures vm.Valid() && vm.pm.bytes == Applied(old(vm.pm.bytes), stores, |data|)
  {
    var done := 0;
    ghost var was := vm.pm.bytes;
    while done < |data|
      invariant 0 <= done <= |data|
      invariant vm.Valid() && vm.pm.bytes == Applied(was, stores, done)
    {
      assert MappedAt(vm.view, vm.cr3, dst + done);
      done := WriteSome(vm, dst, data, done, stores, was);
    }
  }

  /** Copy into user memory (copy_to_user): memory afterwards is what storing the bytes one by one through the
      translation gives; a refused copy changes no byte. */
  method CopyToUser(vm: Vmm, dst: nat, src: seq<Byte>, srcNull: bool, size: nat) returns (ok: bool)
    requires vm.Valid() && (vm.cr3 == 0 || vm.cr3 == vm.kernelPml4 || vm.Live(vm.cr3))
    requires dst < 0x1_0000_0000_0000_0000 && size < 0x1_0000_0000_0000_0000 && (!srcNull ==> size <= |src|)
    modifies vm.pm`bytes
    ensures vm.Valid()
    ensures ok <==> size == 0 || (!srcNull && dst != 0 && old(RangeValid(vm, dst, size, WRITE)))
    ensures vm.pm.bytes == if ok && size > 0
                           then Applied(old(vm.pm.bytes), ByteStores(vm.view, vm.cr3, dst, src[..size]), size)
                           else old(vm.pm.bytes)
  {
    if size == 0 { return true; }
    if srcNull || dst == 0 { return false; }
    ok := UserRangeValid(vm, dst, size, WRITE);
    if ok {
      RangeMapped(vm, dst, size, WRITE);
      WriteAll(vm, dst, src[..size], ByteStores(vm.view, vm.cr3, dst, src[..size]));
    }
  }
}
