/** Physical memory and its best-fit page allocator (kernel/memory.c). */
module PhysicalMemory {
  import opened FreeList
  import opened Hardware

  const MAX_REGIONS := 64
  const MAX_FREE_RANGES := 16384
  const MAX_PAGES := 0xF_FFFF_FFFF_FFFF

  // ---------------------------------------------------------------- list edits

  /** Sorted and disjoint; only neighbours (k, k+1) with `k == x` or `k == y` may touch. */
  predicate Touching(s: seq<Range>, x: int, y: int) {
    && (forall i :: 0 <= i < |s| ==> WellFormed(s[i]))
    && (forall i, j :: 0 <= i < j < |s| ==>
          s[i].end <= s[j].base && (s[i].end == s[j].base ==> j == i + 1 && (i == x || i == y)))
  }

  /** Range `k` joined with its right neighbour when the two touch. */
  function Joined(s: seq<Range>, k: int): seq<Range> {
    if 0 <= k && k + 1 < |s| && s[k].end == s[k + 1].base then Merged(s, k) else s
  }

  /** The list that pmm_insert_free_range leaves: the range at its place, then joined left, then right. */
  function Coalesced(s: seq<Range>, pos: nat, r: Range): seq<Range>
    requires pos <= |s|
  {
    var a := Inserted(s, pos, r);
    var b := Joined(a, pos - 1);
    Joined(b, if |b| < |a| then pos - 1 else pos)
  }

  /** `pos` is where `r` belongs in the sorted list, and `r` overlaps neither neighbour. */
  predicate FitsAt(s: seq<Range>, pos: nat, r: Range) {
    && pos <= |s|
    && (forall i :: 0 <= i < pos ==> s[i].end <= r.base)
    && (forall i :: pos <= i < |s| ==> r.end <= s[i].base)
  }

  lemma InsertedTouching(s: seq<Range>, pos: nat, r: Range)
    requires Canonical(s) && WellFormed(r) && FitsAt(s, pos, r)
    ensures Touching(Inserted(s, pos, r), pos - 1, pos)
  {
    var t := Inserted(s, pos, r);
    forall i, j | 0 <= i < j < |t|
      ensures t[i].end <= t[j].base && (t[i].end == t[j].base ==> j == i + 1 && (i == pos - 1 || i == pos))
    {
      var u, w := if i < pos then i else i - 1, if j < pos then j else j - 1;
      if i == pos {
        assert t[j] == s[w];
      } else if j == pos {
        assert t[i] == s[u];
      } else {
        assert t[i] == s[u] && t[j] == s[w] && Before(s, u, w);
      }
      if i != pos && i + 1 < pos && j == pos { assert Before(s, i, i + 1); }
      if i == pos && j > pos + 1 { assert Before(s, pos, w); }
    }
  }

  lemma MergedTouching(s: seq<Range>, k: nat, y: int)
    requires k + 1 < |s| && Touching(s, k, y) && (y == k || y == k + 1)
    ensures Touching(Merged(s, k), y - 1, y - 1)
    ensures y == k ==> Canonical(Merged(s, k))
  {
    var t := Merged(s, k);
    forall i, j | 0 <= i < j < |t|
      ensures t[i].end <= t[j].base && (t[i].end == t[j].base ==> y == k + 1 && j == i + 1 && i == k)
    {
      var u, w := if i < k then i else i + 1, if j <= k then j else j + 1;
      assert t[i].end == s[u].end && t[j].base == s[w].base;
      assert s[u].end <= s[w].base;
    }
  }

  lemma JoinedCovers(s: seq<Range>, k: int, x: int)
    requires forall i :: 0 <= i < |s| ==> WellFormed(s[i])
    ensures Covers(Joined(s, k), x) <==> Covers(s, x)
  {
    if 0 <= k && k + 1 < |s| && s[k].end == s[k + 1].base {
      MergedCovers(s, k, x);
    }
  }

  lemma JoinedTouching(s: seq<Range>, k: int)
    requires Touching(s, k, k + 1)
    ensures Touching(Joined(s, k), if |Joined(s, k)| < |s| then k else k + 1, if |Joined(s, k)| < |s| then k else k + 1)
  {
    if 0 <= k && k + 1 < |s| && s[k].end == s[k + 1].base {
      MergedTouching(s, k, k + 1);
    }
  }

  lemma JoinedCanonical(s: seq<Range>, k: int)
    requires Touching(s, k, k)
    ensures Canonical(Joined(s, k))
  {
    if 0 <= k && k + 1 < |s| && s[k].end == s[k + 1].base {
      MergedTouching(s, k, k);
    }
  }

  /** Inserting a range that overlaps nothing keeps the list canonical and adds exactly that range. */
  lemma CoalescedCanonical(s: seq<Range>, pos: nat, r: Range, x: int)
    requires Canonical(s) && WellFormed(r) && FitsAt(s, pos, r)
    ensures Canonical(Coalesced(s, pos, r))
    ensures Covers(Coalesced(s, pos, r), x) <==> Covers(s, x) || r.Has(x)
  {
    var a := Inserted(s, pos, r);
    InsertedTouching(s, pos, r);
    InsertedCovers(s, pos, r, x);
    JoinedTouching(a, pos - 1);
    JoinedCovers(a, pos - 1, x);
    var b := Joined(a, pos - 1);
    var p := if |b| < |a| then pos - 1 else pos;
    JoinedCanonical(b, p);
    JoinedCovers(b, p, x);
  }

  lemma CoalescedPages(s: seq<Range>, pos: nat, r: Range)
    requires Canonical(s) && WellFormed(r) && FitsAt(s, pos, r)
    ensures Pages(Coalesced(s, pos, r)) == Pages(s) + Span(r.base, r.end)
  {
    forall x ensures x in Pages(Coalesced(s, pos, r)) <==> x in Pages(s) + Span(r.base, r.end) {
      PagesCovers(s, x);
      PagesCovers(Coalesced(s, pos, r), x);
      CoalescedCanonical(s, pos, r, x);
    }
  }

  /** The list after `n` pages were cut from the front of range `k`. */
  function Carved(s: seq<Range>, k: nat, n: nat): seq<Range>
    requires k < |s| && n <= s[k].Size()
  {
    if s[k].Size() == n then Removed(s, k) else s[k := Range(s[k].base + n, s[k].end)]
  }

  lemma CarvedCanonical(s: seq<Range>, k: nat, n: nat)
    requires k < |s| && n <= s[k].Size() && Canonical(s)
    ensures Canonical(Carved(s, k, n))
  {
    var t := Carved(s, k, n);
    forall i, j ensures Before(t, i, j) {
      if s[k].Size() == n {
        assert Before(s, if i < k then i else i + 1, if j < k then j else j + 1);
      } else {
        assert Before(s, i, j);
      }
    }
  }

  lemma CarvedCovers(s: seq<Range>, k: nat, n: nat, x: int)
    requires k < |s| && 0 < n <= s[k].Size() && Canonical(s)
    ensures Covers(Carved(s, k, n), x) <==> Covers(s, x) && !(s[k].base <= x < s[k].base + n)
  {
    if s[k].Size() == n {
      RemovedCovers(s, k, x);
    } else {
      ShrunkCovers(s, k, s[k].base + n, x);
    }
  }

  lemma CarvedPages(s: seq<Range>, k: nat, n: nat)
    requires k < |s| && 0 < n <= s[k].Size() && Canonical(s)
    ensures Pages(Carved(s, k, n)) == Pages(s) - Span(s[k].base, s[k].base + n)
    ensures Span(s[k].base, s[k].base + n) <= Pages(s)
  {
    var cut := Span(s[k].base, s[k].base + n);
    forall x ensures x in Pages(Carved(s, k, n)) <==> x in Pages(s) - cut {
      PagesCovers(s, x);
      PagesCovers(Carved(s, k, n), x);
      CarvedCovers(s, k, n, x);
    }
    forall x | x in cut ensures x in Pages(s) {
      assert At(s, k, x);
      PagesCovers(s, x);
    }
  }

  /** Where a request for `n` pages is served from; 0 when it is refused. */
  function FirstPage(s: seq<Range>, n: nat): nat {
    var k := BestFit(s, n);
    if n == 0 || n > MAX_PAGES || k == |s| then 0 else s[k].base
  }

  /** The free list after that request. */
  function After(s: seq<Range>, n: nat): seq<Range> {
    var k := BestFit(s, n);
    if n == 0 || n > MAX_PAGES || k == |s| then s else Carved(s, k, n)
  }

  // ---------------------------------------------------------------- boot memory map

  datatype MapEntry = MapEntry(base: nat, length: nat, usable: bool)

  /** First page at or above a byte address, in 64-bit arithmetic; page that contains it. */
  function PageUp(a: nat): nat { if a + 4095 >= 0x1_0000_0000_0000_0000 then 0 else (a + 4095) / 4096 }
  function PageDown(a: nat): nat { a / 4096 }

  /** What one boot map entry contributes, given the regions already recorded. */
  function WithEntry(regions: seq<Range>, e: MapEntry): seq<Range> {
    if !e.usable || |regions| >= MAX_REGIONS || e.base + e.length >= 0x1_0000_0000_0000_0000
       || PageDown(e.base + e.length) <= PageUp(e.base) then regions
    else regions + [Range(PageUp(e.base), PageDown(e.base + e.length))]
  }

  function UsableRegions(entries: seq<MapEntry>): seq<Range> {
    if entries == [] then [] else WithEntry(UsableRegions(entries[..|entries| - 1]), entries[|entries| - 1])
  }

  lemma UsableNext(entries: seq<MapEntry>, i: nat, next: nat)
    requires i < |entries| && next == i + 1
    ensures UsableRegions(entries[..next]) == WithEntry(UsableRegions(entries[..i]), entries[i])
  {
    assert entries[..next][..i] == entries[..i];
  }

  /** The regions the allocator manages; a fixed window stands in for an empty map. */
  function ManagedRegions(entries: seq<MapEntry>): seq<Range> {
    var rs := UsableRegions(entries);
    if rs == [] then [Range(0x2000, 0x2200)] else rs
  }

  /** What the kernel assumes of the boot map: usable memory does not contain page zero, stays
      within the physical address space, and usable entries do not overlap. */
  ghost predicate RegionsOk(rs: seq<Range>) {
    && |rs| <= MAX_REGIONS
    && (forall i :: 0 <= i < |rs| ==> WellFormed(rs[i]) && 0 < rs[i].base && rs[i].end <= 0x100_0000_0000)
    && Separate(rs)
  }

  /** pmm_managed_range: the whole range lies in one region. */
  predicate InOneRegion(rs: seq<Range>, base: int, end: int) {
    exists i :: 0 <= i < |rs| && rs[i].base <= base && end <= rs[i].end
  }

  lemma RegionPages(rs: seq<Range>, a: int)
    requires RegionsOk(rs) && a in Pages(rs)
    ensures 0 < a < 0x100_0000_0000 && InOneRegion(rs, a, a + 1)
  {
    PagesCovers(rs, a);
    var i :| At(rs, i, a);
    assert rs[i].base <= a && a + 1 <= rs[i].end;
  }

  lemma RegionFrames(rs: seq<Range>)
    requires RegionsOk(rs)
    ensures FramesOk(Pages(rs))
  {
    forall a | a in Pages(rs) ensures 0 < a < 0x100_0000_0000 { RegionPages(rs, a); }
  }

  lemma RegionSpan(rs: seq<Range>, base: int, end: int)
    requires InOneRegion(rs, base, end)
    ensures Span(base, end) <= Pages(rs)
  {
    var i :| 0 <= i < |rs| && rs[i].base <= base && end <= rs[i].end;
    forall a | a in Span(base, end) ensures a in Pages(rs) {
      PagesCovers(rs, a);
      assert At(rs, i, a);
    }
  }

  /** A well-formed range meets no range of a canonical list exactly when it shares no page with it. */
  lemma OverlapIsShared(s: seq<Range>, r: Range)
    requires Canonical(s) && WellFormed(r)
    ensures (forall i :: 0 <= i < |s| ==> !(r.base < s[i].end && s[i].base < r.end)) <==>
            Span(r.base, r.end) !! Pages(s)
  {
    if i :| 0 <= i < |s| && r.base < s[i].end && s[i].base < r.end {
      var a := if r.base < s[i].base then s[i].base else r.base;
      assert At(s, i, a);
      PagesCovers(s, a);
      assert a in Span(r.base, r.end);
    }
    if a :| a in Span(r.base, r.end) && a in Pages(s) {
      PagesCovers(s, a);
      var i :| At(s, i, a);
    }
  }

  /** Managed pages are physical frames, and page zero is not one of them. */
  ghost predicate FramesOk(managed: set<int>) {
    forall a :: a in managed ==> 0 < a < 0x100_0000_0000
  }

  /** Free and lost pages are managed pages, and no page is both. */
  ghost predicate Apart(managed: set<int>, free: set<int>, lost: set<int>) {
    free <= managed && lost <= managed && free !! lost
  }

  /** The pages a list covers, stated so that it only unfolds where a proof asks about coverage. */
  ghost predicate Denotes(s: seq<Range>, pages: set<int>) {
    forall a {:trigger Covers(s, a)} :: a in pages <==> Covers(s, a)
  }

  lemma DenotesPages(s: seq<Range>, pages: set<int>)
    ensures Denotes(s, pages) <==> pages == Pages(s)
  {
    forall a ensures a in Pages(s) <==> Covers(s, a) { PagesCovers(s, a); }
    if Denotes(s, pages) {
      forall a ensures a in pages <==> a in Pages(s) { PagesCovers(s, a); }
    }
  }

  /** The page sets, the free list and the counters agree. */
  ghost predicate Books(regions: seq<Range>, managed: set<int>, list: seq<Range>, free: set<int>, lost: set<int>,
                        total: int, inUse: int, peak: int) {
    && RegionsOk(regions) && Denotes(regions, managed) && FramesOk(managed)
    && Canonical(list) && Denotes(list, free)
    && Apart(managed, free, lost)
    && (forall n {:trigger Tally(list, n)} :: Tally(list, n) ==> n + inUse == total)
    && (forall n {:trigger Tally(regions, n)} :: Tally(regions, n) ==> n == total)
    && inUse <= total && inUse <= peak
    && Excused(lost, peak, |regions|)
  }

  /** Pages only got lost if so many pages were in use at some time that the free-range array could be full. */
  ghost predicate Excused(lost: set<int>, peak: int, regions: nat) {
    peak + regions < MAX_FREE_RANGES ==> lost == {}
  }

  /** The ranges hold `n` pages. */
  ghost predicate Tally(s: seq<Range>, n: int) { PageCount(s) == n }

  /** The same in terms of page sets and range sizes. */
  lemma BooksLedger(regions: seq<Range>, managed: set<int>, list: seq<Range>, free: set<int>, lost: set<int>,
                    total: int, inUse: int, peak: int)
    ensures Books(regions, managed, list, free, lost, total, inUse, peak) <==>
            Ledger(regions, managed, list, free, lost, total, inUse, peak)
  {
    DenotesPages(regions, managed);
    DenotesPages(list, free);
    assert Tally(list, PageCount(list)) && Tally(regions, PageCount(regions));
  }

  ghost predicate Ledger(regions: seq<Range>, managed: set<int>, list: seq<Range>, free: set<int>, lost: set<int>,
                        total: int, inUse: int, peak: int) {
    && RegionsOk(regions) && managed == Pages(regions)
    && FramesOk(managed)
    && Canonical(list) && free == Pages(list)
    && Apart(managed, free, lost)
    && total == PageCount(regions)
    && PageCount(list) + inUse == total && inUse <= total && inUse <= peak
    && Excused(lost, peak, |regions|)
  }

  /** Every frame of the physical address space has contents. */
  ghost predicate Backed(words: map<Frame, Table>, bytes: map<Frame, Page>) {
    forall f: Frame :: f in words && f in bytes
  }

  /** A block pmm_free_pages accepts: inside one region and not free already. */
  ghost predicate Returnable(page: int, n: int, regions: seq<Range>, free: set<int>) {
    InOneRegion(regions, page, page + n) && Span(page, page + n) !! free
  }

  lemma OnePage(rs: seq<Range>, a: int)
    requires RegionsOk(rs)
    ensures a in Pages(rs) <==> InOneRegion(rs, a, a + 1)
  {
    if a in Pages(rs) { RegionPages(rs, a); }
    if i :| 0 <= i < |rs| && rs[i].base <= a && a + 1 <= rs[i].end { assert At(rs, i, a); }
  }

  /** A freed block is part of what was in use, so the use count cannot go below zero. */
  lemma CountWithin(s: seq<Range>, t: seq<Range>, rs: seq<Range>, base: int, end: int)
    requires Canonical(s) && Canonical(t) && RegionsOk(rs) && base < end
    requires Pages(t) == Pages(s) + Span(base, end) && Pages(s) !! Span(base, end) && Pages(t) <= Pages(rs)
    ensures PageCount(t) == PageCount(s) + (end - base) <= PageCount(rs)
  {
    CountStep(s, t, base, end);
    CountCanonical(t);
    CountPages(rs);
    SubsetCard(Pages(t), Pages(rs));
  }

  lemma ReturnFacts(s: seq<Range>, t: seq<Range>, rs: seq<Range>, lost: set<int>, base: int, end: int)
    requires Canonical(s) && Canonical(t) && RegionsOk(rs) && base < end
    requires Pages(t) == Pages(s) + Span(base, end) && Pages(s) !! Span(base, end)
    requires Apart(Pages(rs), Pages(s), lost) && InOneRegion(rs, base, end)
    ensures Apart(Pages(rs), Pages(t), lost - Span(base, end))
    ensures PageCount(t) == PageCount(s) + (end - base) <= PageCount(rs)
  {
    RegionSpan(rs, base, end);
    CountWithin(s, t, rs, base, end);
  }

  /** With every region on the free list, the accounts agree. */
  lemma BootBooks(rs: seq<Range>, list: seq<Range>)
    requires RegionsOk(rs) && Canonical(list) && Pages(list) == Pages(rs)
    ensures Books(rs, Pages(rs), list, Pages(rs), {}, PageCount(rs), 0, 0)
  {
    RegionFrames(rs);
    CountCanonical(list);
    CountPages(rs);
    BooksLedger(rs, Pages(rs), list, Pages(rs), {}, PageCount(rs), 0, 0);
  }

  lemma BooksReturn(regions: seq<Range>, managed: set<int>, s: seq<Range>, t: seq<Range>, free: set<int>,
                    lost: set<int>,
                    total: int, inUse: int, peak: int, base: int, end: int)
    requires Books(regions, managed, s, free, lost, total, inUse, peak)
    requires Canonical(t) && base < end && InOneRegion(regions, base, end)
    requires Pages(t) == Pages(s) + Span(base, end) && Pages(s) !! Span(base, end)
    ensures Books(regions, managed, t, Pages(t), lost - Span(base, end), total, inUse - (end - base), peak)
    ensures 0 <= inUse - (end - base)
  {
    BooksLedger(regions, managed, s, free, lost, total, inUse, peak);
    ReturnFacts(s, t, regions, lost, base, end);
    BooksLedger(regions, managed, t, Pages(t), lost - Span(base, end), total, inUse - (end - base), peak);
  }

  function SaturatingSub(a: nat, b: nat): nat { if a >= b then a - b else 0 }

  /** Memory after the contents of `n` frames from `page` on were set to `zero`. */
  function Cleared<T>(m: map<Frame, T>, page: nat, n: nat, zero: T): map<Frame, T>
    requires page + n <= 0x100_0000_0000
  {
    if n == 0 then m else Cleared(m, page, n - 1, zero)[page + n - 1 := zero]
  }

  lemma {:induction false} ClearedAt<T>(m: map<Frame, T>, page: nat, n: nat, zero: T, f: Frame)
    requires page + n <= 0x100_0000_0000 && f in m
    ensures f in Cleared(m, page, n, zero)
    ensures Cleared(m, page, n, zero)[f] == if page <= f < page + n then zero else m[f]
  {
    if n > 0 { ClearedAt(m, page, n - 1, zero, f); }
  }

  /** A request for one page is refused only when nothing is free. */
  lemma OnePageFits(s: seq<Range>)
    requires Canonical(s) && forall a :: a in Pages(s) ==> a > 0
    ensures FirstPage(s, 1) == 0 <==> PageCount(s) == 0
  {
    BestFitIsBest(s, 1);
    CountPositive(s);
    if s != [] {
      assert s[0].Size() >= 1;
      var k := BestFit(s, 1);
      assert At(s, k, s[k].base);
      assert s[k].base in Pages(s);
    }
  }

  lemma {:induction false} CountPositive(s: seq<Range>)
    requires forall i :: 0 <= i < |s| ==> WellFormed(s[i])
    ensures PageCount(s) >= 0 && (PageCount(s) == 0 <==> s == [])
  {
    if s != [] { CountPositive(s[..|s| - 1]); }
  }

  lemma SpanOne(base: int)
    ensures Span(base, base + 1) == {base}
  {}

  // ---------------------------------------------------------------- when the array can be full

  ghost function Bases(rs: seq<Range>): set<int> { set i | 0 <= i < |rs| :: rs[i].base }

  ghost function Next(used: set<int>): set<int> { set a | a in used :: a + 1 }

  /** A run of free pages starts at a region or right above a page in use. */
  lemma StartsCovered(rs: seq<Range>, free: set<int>, a: int)
    requires RegionsOk(rs) && free <= Pages(rs) && a in Starts(free)
    ensures a in Bases(rs) + Next(Pages(rs) - free)
  {
    if a - 1 in Pages(rs) {
      assert a - 1 in Pages(rs) - free;
    } else {
      PagesCovers(rs, a);
      PagesCovers(rs, a - 1);
      var i :| At(rs, i, a);
      assert !At(rs, i, a - 1);
      assert rs[i].base == a;
    }
  }

  /** The free list has at most one range per region plus one per page in use. */
  lemma CountBound(rs: seq<Range>, s: seq<Range>)
    requires RegionsOk(rs) && Canonical(s) && Pages(s) <= Pages(rs)
    ensures |s| <= |rs| + (PageCount(rs) - PageCount(s))
  {
    var used := Pages(rs) - Pages(s);
    assert |s| == |Starts(Pages(s))| <= |Bases(rs) + Next(used)| by {
      CountIsStarts(s);
      forall a | a in Starts(Pages(s)) ensures a in Bases(rs) + Next(used) { StartsCovered(rs, Pages(s), a); }
      SubsetCard(Starts(Pages(s)), Bases(rs) + Next(used));
    }
    assert |Bases(rs) + Next(used)| <= |rs| + |used| by {
      UnionCard(Bases(rs), Next(used));
      BasesCard(rs);
      NextCard(used);
    }
    assert |used| == PageCount(rs) - PageCount(s) by {
      CountPages(rs);
      CountCanonical(s);
      UsedCard(Pages(rs), Pages(s));
    }
  }

  lemma UnionCard(a: set<int>, b: set<int>)
    ensures |a + b| <= |a| + |b|
  {}

  lemma UsedCard(managed: set<int>, free: set<int>)
    requires free <= managed
    ensures |managed - free| == |managed| - |free|
  {}

  lemma {:induction false} BasesCard(rs: seq<Range>)
    ensures |Bases(rs)| <= |rs|
  {
    if rs == [] {
      assert Bases(rs) == {};
    } else {
      var u, b := rs[..|rs| - 1], rs[|rs| - 1].base;
      BasesCard(u);
      forall x | x in Bases(rs) ensures x in Bases(u) + {b} {
        var i :| 0 <= i < |rs| && rs[i].base == x;
        if i < |u| { assert u[i].base == x; }
      }
      SubsetCard(Bases(rs), Bases(u) + {b});
    }
  }

  lemma {:induction false} NextCard(used: set<int>)
    ensures |Next(used)| <= |used|
  {
    if x :| x in used {
      NextCard(used - {x});
      forall y | y in Next(used) ensures y in Next(used - {x}) + {x + 1} {
        var a :| a in used && a + 1 == y;
        assert a == x || a in used - {x};
      }
      SubsetCard(Next(used), Next(used - {x}) + {x + 1});
    } else {
      assert Next(used) == {};
    }
  }

  /** While fewer than MAX_FREE_RANGES - |regions| pages are in use the array has room, so no release is refused for
      it. */
  lemma NeverFull(regions: seq<Range>, managed: set<int>, list: seq<Range>, free: set<int>, lost: set<int>,
                  total: int, inUse: int, peak: int)
    requires Books(regions, managed, list, free, lost, total, inUse, peak)
    ensures inUse + |regions| < MAX_FREE_RANGES ==> |list| < MAX_FREE_RANGES
  {
    BooksLedger(regions, managed, list, free, lost, total, inUse, peak);
    CountBound(regions, list);
  }

  /** A page that cannot go back on the list because the array is full. */
  lemma BooksLose(regions: seq<Range>, managed: set<int>, list: seq<Range>, free: set<int>, lost: set<int>,
                  total: int, inUse: int, peak: int, block: set<int>)
    requires Books(regions, managed, list, free, lost, total, inUse, peak)
    requires |list| >= MAX_FREE_RANGES && block <= managed && block !! free
    ensures Books(regions, managed, list, free, lost + block, total, inUse, peak)
  {
    NeverFull(regions, managed, list, free, lost, total, inUse, peak);
  }

  // ---------------------------------------------------------------- the allocator

  class PhysMem {
    const regions: seq<Range>
    const totalUsable: nat
    const ranges: array<Range>
    var count: nat
    var inUse: nat
    var peak: nat
    var allocations: nat
    var frees: nat
    var failures: nat

    /** Memory read as page tables, and memory read as bytes. */
    var words: map<Frame, Table>
    var bytes: map<Frame, Page>

    /** The free list, the pages the allocator manages, pages on the free list, and pages whose release was refused
        because the free-range array was full. */
    ghost const managed: set<int>
    ghost var list: seq<Range>
    ghost var free: set<int>
    ghost var lost: set<int>

    /** The used part of the array holds the free list, and the list is canonical. */
    ghost predicate ListOk()
      reads this, ranges
    {
      ranges.Length == MAX_FREE_RANGES && count <= ranges.Length && ranges[..count] == list && Canonical(list)
    }

    ghost predicate Valid()
      reads this, ranges
    {
      && ranges.Length == MAX_FREE_RANGES && count <= ranges.Length && ranges[..count] == list
      && Books(regions, managed, list, free, lost, totalUsable, inUse, peak)
      && Backed(words, bytes)
    }

    /** Fewer pages were ever in use than could fill the free-range array. */
    ghost predicate Roomy()
      reads this
    {
      peak + |regions| < MAX_FREE_RANGES
    }

    // Shift the tail one place right and put `r` at `pos`.
    method OpenSlot(pos: nat, r: Range)
      requires pos <= count < ranges.Length
      modifies ranges, this`count
      ensures count == old(count) + 1 && count <= ranges.Length
      ensures ranges[..count] == Inserted(old(ranges[..count]), pos, r)
    {
      var i := count;
      ghost var s := ranges[..count];
      while i > pos
        invariant pos <= i <= count
        invariant forall j {:trigger ranges[j]} :: 0 <= j <= i && j < count ==> ranges[j] == s[j]
        invariant forall j {:trigger ranges[j]} :: i < j <= count ==> ranges[j] == s[j - 1]
        modifies ranges
      {
        ranges[i] := ranges[i - 1];
        i := i - 1;
      }
      ranges[pos] := r;
      count := count + 1;
    }

    // Shift the tail one place left over `pos`.
    method CloseSlot(pos: nat)
      requires pos < count <= ranges.Length
      modifies ranges, this`count
      ensures count == old(count) - 1
      ensures ranges[..count] == Removed(old(ranges[..count]), pos)
    {
      var i := pos;
      while i + 1 < count
        invariant pos <= i < count
        invariant forall j :: 0 <= j < pos ==> ranges[j] == old(ranges[j])
        invariant forall j :: pos <= j < i ==> ranges[j] == old(ranges[j + 1])
        invariant forall j :: i <= j < count ==> ranges[j] == old(ranges[j])
        modifies ranges
      {
        ranges[i] := ranges[i + 1];
        i := i + 1;
      }
      count := count - 1;
    }

    // Join range `k` with its right neighbour when they touch.
    method JoinRight(k: nat) returns (joined: bool)
      requires k + 1 <= count <= ranges.Length
      modifies ranges, this`count
      ensures count <= ranges.Length
      ensures ranges[..count] == Joined(old(ranges[..count]), k)
      ensures joined <==> count < old(count)
    {
      joined := k + 1 < count && ranges[k].end == ranges[k + 1].base;
      if joined {
        ghost var s := ranges[..count];
        ranges[k] := Range(ranges[k].base, ranges[k + 1].end);
        assert ranges[..count] == s[k := Range(s[k].base, s[k + 1].end)];
        CloseSlot(k + 1);
        assert Removed(s[k := Range(s[k].base, s[k + 1].end)], k + 1) == Merged(s, k);
      }
    }

    // The index of the first range that does not start below `base`, and whether the new range fits there.
    method FindPlace(base: nat, end: nat) returns (pos: nat, fits: bool)
      requires ListOk() && base < end
      ensures fits ==> FitsAt(list, pos, Range(base, end))
      ensures fits <==> Span(base, end) !! Pages(list)
    {
      pos := 0;
      while pos < count && ranges[pos].base < base
        invariant 0 <= pos <= count
        invariant forall i :: 0 <= i < pos ==> ranges[i].base < base
      {
        pos := pos + 1;
      }
      fits := !(pos > 0 && ranges[pos - 1].end > base) && !(pos < count && ranges[pos].base < end);
      FitsHere(list, pos, Range(base, end));
    }

    // Put the range at its place and coalesce with both neighbours.
    method PlaceAt(pos: nat, r: Range)
      requires pos <= count < ranges.Length
      modifies ranges, this`count
      ensures count <= ranges.Length && count <= old(count) + 1
      ensures ranges[..count] == Coalesced(old(ranges[..count]), pos, r)
    {
      OpenSlot(pos, r);
      var k := pos;
      if pos > 0 {
        var joined := JoinRight(pos - 1);
        if joined { k := pos - 1; }
      }
      var _ := JoinRight(k);
    }

    method InsertFreeRange(base: nat, end: nat) returns (ok: bool)
      requires ListOk()
      modifies ranges, `count, `list
      ensures ListOk()
      ensures ok <==> base < end && old(count) < MAX_FREE_RANGES && Span(base, end) !! Pages(old(list))
      ensures Pages(list) == Pages(old(list)) + (if ok then Span(base, end) else {})
      ensures !ok ==> list == old(list)
      ensures count <= old(count) + 1
    {
      if base >= end || count >= MAX_FREE_RANGES { return false; }
      var pos, fits := FindPlace(base, end);
      if !fits { return false; }
      CoalescedPages(list, pos, Range(base, end));
      CoalescedCanonical(list, pos, Range(base, end), 0);
      PlaceAt(pos, Range(base, end));
      list := Coalesced(list, pos, Range(base, end));
      return true;
    }

    // One entry of the boot map: record it if it is usable and add up its size.
    static method AddEntry(rs: seq<Range>, total: nat, e: MapEntry) returns (rs': seq<Range>, total': nat)
      requires total == PageCount(rs)
      ensures rs' == WithEntry(rs, e) && total' == PageCount(rs')
    {
      rs', total' := rs, total;
      if !e.usable || |rs| >= MAX_REGIONS || e.base + e.length >= 0x1_0000_0000_0000_0000 { return; }
      var base, end := PageUp(e.base), PageDown(e.base + e.length);
      if end <= base { return; }
      rs', total' := rs + [Range(base, end)], total + (end - base);
      assert rs'[..|rs|] == rs;
    }

    // The first loop of pmm_init.
    static method ScanMap(entries: seq<MapEntry>) returns (rs: seq<Range>, total: nat)
      ensures rs == ManagedRegions(entries) && total == PageCount(rs)
    {
      rs, total := [], 0;
      var i := 0;
      while i < |entries|
        invariant 0 <= i <= |entries| && rs == UsableRegions(entries[..i]) && total == PageCount(rs)
      {
        var next := i + 1;
        UsableNext(entries, i, next);
        rs, total := AddEntry(rs, total, entries[i]);
        i := next;
      }
      assert entries[..|entries|] == entries;
      if rs == [] {
        rs, total := [Range(0x2000, 0x2200)], 0x200;
        assert rs[..0] == [];
      }
    }

    // The last loop of pmm_init: put every region on the free list.
    method InsertAll(rs: seq<Range>)
      requires ListOk() && list == [] && RegionsOk(rs)
      modifies ranges, `count, `list
      ensures ListOk() && Pages(list) == Pages(rs)
    {
      for i := 0 to |rs|
        invariant ListOk() && count <= i && Pages(list) == Pages(rs[..i])
      {
        RegionsApart(rs, i);
        assert rs[..i + 1][..i] == rs[..i];
        PagesOfLast(rs[..i + 1]);
        var _ := InsertFreeRange(rs[i].base, rs[i].end);
      }
      assert rs[..|rs|] == rs;
    }

    /** Boot: record the usable regions and put all of them on the free list (pmm_init). */
    constructor (entries: seq<MapEntry>, words0: map<Frame, Table>, bytes0: map<Frame, Page>)
      requires RegionsOk(ManagedRegions(entries))
      requires Backed(words0, bytes0)
      ensures Valid() && fresh(ranges)
      ensures regions == ManagedRegions(entries) && managed == Pages(regions)
      ensures free == managed && lost == {} && inUse == 0
      ensures totalUsable == PageCount(regions)
      ensures words == words0 && bytes == bytes0
    {
      var rs, total := ScanMap(entries);
      regions, totalUsable := rs, total;
      managed, list, free, lost := Pages(rs), [], Pages(rs), {};
      ranges := new Range[MAX_FREE_RANGES](_ => Range(0, 0));
      count, inUse, peak, allocations, frees, failures := 0, 0, 0, 0, 0, 0;
      words, bytes := words0, bytes0;
      new;
      InsertAll(rs);
      BootBooks(rs, list);
    }

    // The best-fit scan of pmm_alloc_pages.
    method FindBest(n: nat) returns (best: nat)
      requires ListOk() && forall i :: 0 <= i < |list| ==> list[i].end <= 0x100_0000_0000
      ensures best == BestFit(list, n)
    {
      assert list[..|list|] == list;
      best := count;
      var bestSize := 0xFFFF_FFFF_FFFF_FFFF;
      for i := 0 to count
        invariant var k := BestFit(list[..i], n);
                  if k == i then best == count && bestSize == 0xFFFF_FFFF_FFFF_FFFF
                  else best == k && bestSize == list[k].Size()
      {
        assert list[..i + 1][..i] == list[..i] && ranges[i] == list[i];
        var size := ranges[i].end - ranges[i].base;
        if size >= n && size < bestSize { best, bestSize := i, size; }
      }
    }

    // Cut `n` pages from the front of range `k`.
    method Carve(k: nat, n: nat)
      requires k < count <= ranges.Length && n <= ranges[k].Size()
      modifies ranges, this`count
      ensures count <= ranges.Length
      ensures ranges[..count] == Carved(old(ranges[..count]), k, n)
    {
      ghost var s := ranges[..count];
      ranges[k] := Range(ranges[k].base + n, ranges[k].end);
      assert ranges[..count] == s[k := Range(s[k].base + n, s[k].end)];
      if ranges[k].base == ranges[k].end {
        CloseSlot(k);
      }
    }

    // Zero the contents of `n` pages from `phys` on.
    method ZeroFill(phys: nat, n: nat)
      requires phys + n <= 0x100_0000_0000 && Backed(words, bytes)
      modifies this`words, this`bytes
      ensures Backed(words, bytes)
      ensures words == Cleared(old(words), phys, n, ZeroTable()) && bytes == Cleared(old(bytes), phys, n, ZeroPage())
    {
      for q := 0 to n
        invariant words == Cleared(old(words), phys, q, ZeroTable())
        invariant bytes == Cleared(old(bytes), phys, q, ZeroPage())
      {
        words, bytes := words[phys + q := ZeroTable()], bytes[phys + q := ZeroPage()];
      }
      forall f: Frame ensures f in words && f in bytes {
        ClearedAt(old(words), phys, n, ZeroTable(), f);
        ClearedAt(old(bytes), phys, n, ZeroPage(), f);
      }
    }

    // Hand out the first `n` pages of range `best` and update the accounts.
    method Take(best: nat, n: nat) returns (phys: nat)
      requires Valid() && best < count && 0 < n && n <= list[best].Size()
      modifies ranges, `count, `list, `free, `inUse, `peak, `allocations
      ensures Valid()
      ensures phys == old(list[best].base) != 0 && phys + n <= 0x100_0000_0000
      ensures list == Carved(old(list), best, n)
      ensures Span(phys, phys + n) <= old(free) && free == old(free) - Span(phys, phys + n)
      ensures inUse == old(inUse) + n
    {
      phys := ranges[best].base;
      BooksTake(regions, managed, list, free, lost, totalUsable, inUse, peak, best, n);
      Carve(best, n);
      list, free := Carved(list, best, n), free - Span(phys, phys + n);
      inUse, allocations := inUse + n, allocations + 1;
      peak := if inUse > peak then inUse else peak;
    }

    // The locked section of pmm_alloc_pages.
    method Reserve(n: nat) returns (phys: nat)
      requires Valid()
      modifies ranges, `count, `list, `free, `inUse, `peak, `allocations, `failures
      ensures Valid()
      ensures phys == FirstPage(old(list), n) && list == After(old(list), n)
      ensures phys == 0 ==> list == old(list) && free == old(free)
      ensures inUse == if phys == 0 then old(inUse) else old(inUse) + n
      ensures phys != 0 ==> Span(phys, phys + n) <= old(free) && free == old(free) - Span(phys, phys + n)
      ensures phys + n <= 0x100_0000_0000 || phys == 0
    {
      if n == 0 || n > MAX_PAGES {
        failures := failures + 1;
        return 0;
      }
      DenotesPages(list, free);
      ListInside(list, managed);
      var best := FindBest(n);
      if best == count {
        failures := failures + 1;
        return 0;
      }
      phys := Take(best, n);
    }

    /** The block is the front of a smallest sufficient range, cleared; 0 when no range is large enough. */
    method AllocPages(n: nat) returns (phys: nat)
      requires Valid()
      modifies ranges, `count, `list, `free, `inUse, `peak, `allocations, `failures, `words, `bytes
      ensures Valid()
      ensures phys == FirstPage(old(list), n) && list == After(old(list), n)
      ensures phys == 0 ==> list == old(list) && free == old(free) && words == old(words) && bytes == old(bytes)
      ensures inUse == if phys == 0 then old(inUse) else old(inUse) + n
      ensures phys != 0 ==> Span(phys, phys + n) <= old(free) && free == old(free) - Span(phys, phys + n)
      ensures phys != 0 ==> phys + n <= 0x100_0000_0000
      ensures phys != 0 ==> words == Cleared(old(words), phys, n, ZeroTable())
      ensures phys != 0 ==> bytes == Cleared(old(bytes), phys, n, ZeroPage())
    {
      phys := Reserve(n);
      if phys != 0 { ZeroFill(phys, n); }
    }

    /** A store into a page-table entry. */
    method WriteWord(f: Frame, i: int, e: Entry)
      requires Valid() && 0 <= i < 512
      modifies `words
      ensures Valid() && words == old(words)[f := old(words)[f][i := e]]
    {
      words := words[f := words[f][i := e]];
    }

    /** A store of one byte. */
    method WriteByte(f: Frame, o: int, b: Byte)
      requires Valid() && 0 <= o < 4096
      modifies `bytes
      ensures Valid() && bytes == old(bytes)[f := old(bytes)[f][o := b]]
    {
      bytes := bytes[f := bytes[f][o := b]];
    }

    method AllocPage() returns (phys: nat)
      requires Valid()
      modifies ranges, `count, `list, `free, `inUse, `peak, `allocations, `failures, `words, `bytes
      ensures Valid()
      ensures phys == FirstPage(old(list), 1) && list == After(old(list), 1)
      ensures phys == 0 ==> list == old(list) && free == old(free) && words == old(words) && bytes == old(bytes)
      ensures phys == 0 <==> old(inUse) == totalUsable
      ensures inUse == if phys == 0 then old(inUse) else old(inUse) + 1
      ensures phys != 0 ==> phys in old(free) && free == old(free) - {phys} && phys < 0x100_0000_0000
      ensures phys != 0 ==> words == old(words)[phys := ZeroTable()] && bytes == old(bytes)[phys := ZeroPage()]
    {
      BooksLedger(regions, managed, list, free, lost, totalUsable, inUse, peak);
      OnePageFits(list);
      phys := AllocPages(1);
      SpanOne(phys);
    }

    // pmm_managed_range
    method IsManaged(base: nat, end: nat) returns (ok: bool)
      ensures ok <==> InOneRegion(regions, base, end)
    {
      for i := 0 to |regions|
        invariant forall j :: 0 <= j < i ==> !(regions[j].base <= base && end <= regions[j].end)
      {
        if base >= regions[i].base && end <= regions[i].end { return true; }
      }
      return false;
    }

    // The scan of pmm_free_pages for a free range that meets the block.
    method MeetsFree(base: nat, end: nat) returns (meets: bool)
      requires ListOk() && base < end
      ensures !meets <==> Span(base, end) !! Pages(list)
    {
      OverlapIsShared(list, Range(base, end));
      for i := 0 to count
        invariant forall j :: 0 <= j < i ==> !(base < list[j].end && list[j].base < end)
      {
        assert ranges[i] == list[i];
        if base < ranges[i].end && ranges[i].base < end { return true; }
      }
      return false;
    }

    // The two tests pmm_free_pages makes before it inserts the block.
    method CanReturn(page: nat, n: nat) returns (ok: bool)
      requires Valid() && n > 0
      ensures ok <==> Returnable(page, n, regions, free)
    {
      ok := IsManaged(page, page + n);
      DenotesPages(list, free);
      if ok {
        var meets := MeetsFree(page, page + n);
        ok := !meets;
      }
    }

    // Insert a returnable block and take it off the use count.
    method PutBack(page: nat, n: nat)
      requires Valid() && n > 0 && Returnable(page, n, regions, free) && count < MAX_FREE_RANGES
      modifies ranges, `count, `list, `free, `lost, `inUse, `frees
      ensures Valid()
      ensures free == old(free) + Span(page, page + n)
      ensures lost == old(lost) - Span(page, page + n)
      ensures inUse == old(inUse) - n
    {
      ghost var before := list;
      DenotesPages(list, free);
      var _ := InsertFreeRange(page, page + n);
      BooksReturn(regions, managed, before, list, free, lost, totalUsable, inUse, peak, page, page + n);
      free, lost, inUse, frees := Pages(list), lost - Span(page, page + n), SaturatingSub(inUse, n), frees + 1;
    }

    // The locked section of pmm_free_pages.
    method Release(page: nat, n: nat) returns (ok: bool)
      requires Valid() && n > 0
      modifies ranges, `count, `list, `free, `lost, `inUse, `frees
      ensures Valid()
      ensures ok <==> Returnable(page, n, regions, old(free)) && old(count) < MAX_FREE_RANGES
      ensures free == if ok then old(free) + Span(page, page + n) else old(free)
      ensures !ok ==> list == old(list)
      ensures lost == if ok then old(lost) - Span(page, page + n)
                      else if Returnable(page, n, regions, old(free)) then old(lost) + Span(page, page + n)
                      else old(lost)
      ensures inUse == if ok then old(inUse) - n else old(inUse)
    {
      ok := CanReturn(page, n);
      if !ok { return; }
      RegionSpan(regions, page, page + n);
      DenotesPages(regions, managed);
      if count >= MAX_FREE_RANGES {
        // pmm_insert_free_range refuses: the pages leak
        BooksLose(regions, managed, list, free, lost, totalUsable, inUse, peak, Span(page, page + n));
        lost := lost + Span(page, page + n);
        return false;
      }
      PutBack(page, n);
    }

    method FreePage(page: nat) returns (ok: bool)
      requires Valid()
      modifies ranges, `count, `list, `free, `lost, `inUse, `frees
      ensures Valid()
      ensures ok <==> page in managed && page !in old(free) && old(count) < MAX_FREE_RANGES
      ensures free == if ok then old(free) + {page} else old(free)
      ensures inUse == if ok then old(inUse) - 1 else old(inUse)
      ensures !ok ==> list == old(list)
      ensures lost == if ok then old(lost) - {page} else if page in managed
              && page !in old(free) then old(lost) + {page} else old(lost)
    {
      SpanOne(page);
      OnePage(regions, page);
      DenotesPages(regions, managed);
      ok := Release(page, 1);
    }

    /** FreePage for a page that is in use: it goes on the free list, or is lost when the array is full. */
    method GiveBack(page: nat) returns (ok: bool)
      requires Valid() && page in managed && page !in free && page !in lost
      modifies ranges, `count, `list, `free, `lost, `inUse, `frees
      ensures Valid()
      ensures ok <==> old(count) < MAX_FREE_RANGES
      ensures old(inUse) + |regions| < MAX_FREE_RANGES ==> ok
      ensures free == if ok then old(free) + {page} else old(free)
      ensures lost == (if ok then old(lost) else old(lost) + {page}) && old(lost) <= lost && (ok <==> lost == old(lost))
    {
      NeverFull(regions, managed, list, free, lost, totalUsable, inUse, peak);
      ok := FreePage(page);
      assert old(lost) - {page} == old(lost);
    }

    /** Clear a page-table entry and give back the page it pointed to. */
    method ClearAndGiveBack(f: Frame, i: int, page: nat) returns (ok: bool)
      requires Valid() && 0 <= i < 512 && page in managed && page !in free && page !in lost
      modifies ranges, `count, `list, `free, `lost, `inUse, `frees, `words
      ensures Valid() && words == old(words)[f := old(words)[f][i := NO_ENTRY]]
      ensures ok <==> old(count) < MAX_FREE_RANGES
      ensures free == if ok then old(free) + {page} else old(free)
      ensures lost == (if ok then old(lost) else old(lost) + {page}) && old(lost) <= lost && (ok <==> lost == old(lost))
    {
      WriteWord(f, i, NO_ENTRY);
      ok := GiveBack(page);
    }

    /** pmm_get_diagnostics: free and allocated pages add up to the usable total, and the largest run is exactly the
        largest request that would succeed. */
    method Diagnostics() returns (freePages: nat, largest: nat)
      requires Valid()
      ensures freePages == PageCount(list) && freePages + inUse == totalUsable
      ensures forall n :: 0 < n <= MAX_PAGES ==> (FirstPage(list, n) != 0 <==> n <= largest)
    {
      freePages, largest := 0, 0;
      assert list[..0] == [];
      for i := 0 to count
        invariant freePages == PageCount(list[..i])
        invariant (forall j :: 0 <= j < i ==> list[j].Size() <= largest)
                  && (largest == 0 || exists j :: 0 <= j < i && list[j].Size() == largest)
      {
        assert list[..i + 1][..i] == list[..i] && ranges[i] == list[i];
        var size := ranges[i].end - ranges[i].base;
        freePages := freePages + size;
        if size > largest { largest := size; }
      }
      assert list[..count] == list;
      BooksLedger(regions, managed, list, free, lost, totalUsable, inUse, peak);
      ListInside(list, managed);
      forall n | 0 < n <= MAX_PAGES ensures FirstPage(list, n) != 0 <==> n <= largest { BestFitIsBest(list, n); }
    }

    /** The public entry: `phys` is a byte address. */
    method FreePages(phys: nat, n: nat) returns (ok: bool)
      requires Valid() && phys < 0x1_0000_0000_0000_0000
      modifies ranges, `count, `list, `free, `lost, `inUse, `frees
      ensures Valid()
      ensures ok <==> && n != 0 && phys % 4096 == 0 && n <= MAX_PAGES && phys + 4096 * n < 0x1_0000_0000_0000_0000
                      && Returnable(phys / 4096, n, regions, old(free)) && old(count) < MAX_FREE_RANGES
      ensures free == if ok then old(free) + Span(phys / 4096, phys / 4096 + n) else old(free)
      ensures !ok ==> list == old(list)
    {
      if n == 0 || phys % 4096 != 0 { return false; }
      if n > MAX_PAGES { return false; }
      if phys + 4096 * n >= 0x1_0000_0000_0000_0000 { return false; }
      ok := Release(phys / 4096, n);
    }
  }

  lemma BooksTake(regions: seq<Range>, managed: set<int>, s: seq<Range>, free: set<int>, lost: set<int>,
                  total: int, inUse: int, peak: int, k: nat, n: nat)
    requires Books(regions, managed, s, free, lost, total, inUse, peak)
    requires k < |s| && 0 < n && n <= s[k].Size()
    ensures Books(regions, managed, Carved(s, k, n), free - Span(s[k].base, s[k].base + n), lost, total,
                  inUse + n, if inUse + n > peak then inUse + n else peak)
    ensures Span(s[k].base, s[k].base + n) <= free
    ensures 0 < s[k].base && s[k].base + n <= 0x100_0000_0000
  {
    BooksLedger(regions, managed, s, free, lost, total, inUse, peak);
    TakeFacts(s, k, n, managed);
    BooksLedger(regions, managed, Carved(s, k, n), free - Span(s[k].base, s[k].base + n), lost, total,
                inUse + n, if inUse + n > peak then inUse + n else peak);
  }

  lemma TakeFacts(s: seq<Range>, k: nat, n: nat, managed: set<int>)
    requires Canonical(s) && Pages(s) <= managed && FramesOk(managed)
    requires k < |s| && 0 < n && n <= s[k].Size()
    ensures Canonical(Carved(s, k, n))
    ensures Pages(Carved(s, k, n)) == Pages(s) - Span(s[k].base, s[k].base + n)
    ensures Span(s[k].base, s[k].base + n) <= Pages(s)
    ensures PageCount(Carved(s, k, n)) == PageCount(s) - n >= 0
    ensures 0 < s[k].base && s[k].base + n <= 0x100_0000_0000
  {
    ListInside(s, managed);
    CarvedPages(s, k, n);
    CarvedCanonical(s, k, n);
    CarvedCount(s, k, n);
    CountPositive(Carved(s, k, n));
  }

  lemma CarvedSplit(s: seq<Range>, k: nat, n: nat)
    requires Canonical(s) && k < |s| && 0 < n <= s[k].Size()
    ensures Pages(s) == Pages(Carved(s, k, n)) + Span(s[k].base, s[k].base + n)
    ensures Pages(Carved(s, k, n)) !! Span(s[k].base, s[k].base + n)
  {
    CarvedPages(s, k, n);
  }

  /** Adding a run of pages to what a list covers adds its length to the page count. */
  lemma CountStep(s: seq<Range>, t: seq<Range>, base: int, end: int)
    requires Canonical(s) && Canonical(t) && base <= end
    requires Pages(t) == Pages(s) + Span(base, end) && Pages(s) !! Span(base, end)
    ensures PageCount(t) == PageCount(s) + (end - base)
  {
    CountCanonical(s);
    CountCanonical(t);
    SpanSize(base, end);
    SumCard(Pages(s), Span(base, end));
  }

  lemma CarvedCount(s: seq<Range>, k: nat, n: nat)
    requires Canonical(s) && k < |s| && 0 < n <= s[k].Size()
    ensures PageCount(Carved(s, k, n)) == PageCount(s) - n
  {
    CarvedSplit(s, k, n);
    CarvedCanonical(s, k, n);
    CountStep(Carved(s, k, n), s, s[k].base, s[k].base + n);
  }

  lemma RegionsApart(rs: seq<Range>, i: nat)
    requires RegionsOk(rs) && i < |rs|
    ensures Span(rs[i].base, rs[i].end) !! Pages(rs[..i])
  {
    forall a | a in Pages(rs[..i]) ensures a !in Span(rs[i].base, rs[i].end) {
      PagesCovers(rs[..i], a);
      var j :| At(rs[..i], j, a);
      assert Aside(rs, j, i);
    }
  }

  lemma ListInside(s: seq<Range>, managed: set<int>)
    requires Canonical(s) && Pages(s) <= managed && FramesOk(managed)
    ensures forall i :: 0 <= i < |s| ==> 0 < s[i].base && s[i].end <= 0x100_0000_0000
  {
    forall i | 0 <= i < |s| ensures 0 < s[i].base && s[i].end <= 0x100_0000_0000 {
      PagesCovers(s, s[i].base);
      assert At(s, i, s[i].base);
      PagesCovers(s, s[i].end - 1);
      assert At(s, i, s[i].end - 1);
    }
  }

  lemma FitsHere(s: seq<Range>, pos: nat, r: Range)
    requires Canonical(s) && WellFormed(r) && pos <= |s|
    requires forall i :: 0 <= i < pos ==> s[i].base < r.base
    requires pos < |s| ==> r.base <= s[pos].base
    ensures !(pos > 0 && s[pos - 1].end > r.base) && !(pos < |s| && s[pos].base < r.end) <==>
            Span(r.base, r.end) !! Pages(s)
    ensures Span(r.base, r.end) !! Pages(s) ==> FitsAt(s, pos, r)
  {
    OverlapIsShared(s, r);
    if pos > 0 && s[pos - 1].end > r.base {
      assert r.base < s[pos - 1].end && s[pos - 1].base < r.end;
    } else if pos < |s| && s[pos].base < r.end {
      assert r.base < s[pos].end && s[pos].base < r.end;
    } else {
      forall i | 0 <= i < |s| ensures if i < pos then s[i].end <= r.base else r.end <= s[i].base {
        if i < pos - 1 { assert Before(s, i, pos - 1); }
        if i > pos { assert Before(s, pos, i); }
      }
    }
  }
}
