/** Runs of the page allocator: what alternating requests and releases keep, and what they restore. */
module AllocatorRuns {
  import opened FreeList
  import opened PhysicalMemory

  // ---------------------------------------------------------------- exclusivity and conservation

  ghost function PagesOf(b: Range): set<int> { Span(b.base, b.end) }

  /** Outstanding blocks are not empty and not free, and no two of them share a page. */
  ghost predicate Exclusive(blocks: seq<Range>, free: set<int>) {
    && (forall i :: 0 <= i < |blocks| ==> WellFormed(blocks[i]) && PagesOf(blocks[i]) !! free)
    && (forall i, j :: 0 <= i < j < |blocks| ==> PagesOf(blocks[i]) !! PagesOf(blocks[j]))
  }

  lemma Granted(blocks: seq<Range>, free: set<int>, free': set<int>, b: Range)
    requires Exclusive(blocks, free) && WellFormed(b)
    requires PagesOf(b) <= free && free' == free - PagesOf(b)
    ensures Exclusive(blocks + [b], free') && Pages(blocks + [b]) + free' == Pages(blocks) + free
  {
    var all := blocks + [b];
    forall i, j | 0 <= i < j < |all| ensures PagesOf(all[i]) !! PagesOf(all[j]) {
      if j == |blocks| { assert PagesOf(blocks[i]) !! free; }
    }
    PagesOfLast(all);
    assert all[..|all| - 1] == blocks;
  }

  function Dropped(blocks: seq<Range>, k: nat): seq<Range>
    requires k < |blocks|
  {
    blocks[..k] + blocks[k + 1..]
  }

  lemma Taken(blocks: seq<Range>, free: set<int>, free': set<int>, k: nat)
    requires Exclusive(blocks, free) && k < |blocks| && free' == free + PagesOf(blocks[k])
    ensures Exclusive(Dropped(blocks, k), free')
  {
    var rest := Dropped(blocks, k);
    forall i | 0 <= i < |rest| ensures WellFormed(rest[i]) && PagesOf(rest[i]) !! free' {
      var u := if i < k then i else i + 1;
      assert rest[i] == blocks[u];
      assert if u < k then PagesOf(blocks[u]) !! PagesOf(blocks[k]) else PagesOf(blocks[k]) !! PagesOf(blocks[u]);
    }
    forall i, j | 0 <= i < j < |rest| ensures PagesOf(rest[i]) !! PagesOf(rest[j]) {
      assert rest[i] == blocks[if i < k then i else i + 1] && rest[j] == blocks[if j < k then j else j + 1];
    }
  }

  lemma TakenPages(blocks: seq<Range>, k: nat)
    requires k < |blocks|
    ensures Pages(Dropped(blocks, k)) + PagesOf(blocks[k]) == Pages(blocks)
  {
    var rest := Dropped(blocks, k);
    forall a ensures a in Pages(rest) + PagesOf(blocks[k]) <==> a in Pages(blocks) {
      PagesCovers(rest, a);
      PagesCovers(blocks, a);
      if i :| At(rest, i, a) { assert At(blocks, if i < k then i else i + 1, a); }
      if i :| At(blocks, i, a) && i != k { assert At(rest, if i < k then i else i - 1, a); }
      if a in PagesOf(blocks[k]) { assert At(blocks, k, a); }
    }
  }

  /** One request of a client that frees only what it was given: ask for `n` pages, or return block `k`. */
  datatype Request = Ask(n: nat) | Return(k: nat)

  method Step(pm: PhysMem, blocks: seq<Range>, r: Request) returns (after: seq<Range>)
    requires pm.Valid() && Exclusive(blocks, pm.free)
    modifies pm, pm.ranges
    ensures pm.Valid() && Exclusive(after, pm.free)
    ensures Pages(after) + pm.free == Pages(blocks) + old(pm.free)
  {
    after := blocks;
    match r
    case Ask(n) =>
      var page := pm.AllocPages(n);
      if page != 0 {
        Granted(blocks, old(pm.free), pm.free, Range(page, page + n));
        after := blocks + [Range(page, page + n)];
      }
    case Return(k) =>
      if k < |blocks| {
        var ok := pm.Release(blocks[k].base, blocks[k].end - blocks[k].base);
        if ok {
          Taken(blocks, old(pm.free), pm.free, k);
          TakenPages(blocks, k);
          after := Dropped(blocks, k);
        }
      }
  }

  /** Whatever the requests: outstanding blocks never overlap each other or the free list, every page that was
      free at the start is free or in an outstanding block, and free and used pages add up to the usable total.
      A block whose release is refused stays outstanding. */
  method Run(pm: PhysMem, requests: seq<Request>) returns (blocks: seq<Range>)
    requires pm.Valid()
    modifies pm, pm.ranges
    ensures pm.Valid() && Exclusive(blocks, pm.free)
    ensures Pages(blocks) + pm.free == old(pm.free)
    ensures PageCount(pm.list) + pm.inUse == pm.totalUsable == PageCount(pm.regions)
  {
    blocks := [];
    for i := 0 to |requests|
      invariant pm.Valid() && Exclusive(blocks, pm.free) && Pages(blocks) + pm.free == old(pm.free)
    {
      blocks := Step(pm, blocks, requests[i]);
    }
    BooksLedger(pm.regions, pm.managed, pm.list, pm.free, pm.lost, pm.totalUsable, pm.inUse, pm.peak);
  }

  // ---------------------------------------------------------------- round trip

  /** Allocate a block and give it back at once. The release succeeds exactly when the block lies in one region
      and the free-range array is not full; then the free list is the very list it was, so the next equal
      request gets the same address. */
  method AllocThenFree(pm: PhysMem, n: nat) returns (page: nat, ok: bool)
    requires pm.Valid()
    modifies pm, pm.ranges
    ensures pm.Valid() && page == FirstPage(old(pm.list), n)
    ensures page != 0 ==>
              (ok <==> InOneRegion(pm.regions, page, page + n) && |After(old(pm.list), n)| < MAX_FREE_RANGES)
    ensures page != 0 && ok ==> pm.list == old(pm.list) && FirstPage(pm.list, n) == page
  {
    page := pm.AllocPages(n);
    ok := false;
    if page != 0 {
      ok := pm.Release(page, n);
      if ok {
        DenotesPages(pm.list, pm.free);
        DenotesPages(old(pm.list), old(pm.free));
        assert pm.free == old(pm.free);
        PagesDetermine(pm.list, old(pm.list));
      }
    }
  }

  /** A block can straddle two adjacent regions, because their ranges coalesce; such a block cannot be freed. */
  lemma StraddlingBlock()
    ensures var regions := [Range(1, 2), Range(2, 3)]; var list := [Range(1, 3)];
            && RegionsOk(regions) && Canonical(list) && Pages(list) == Pages(regions)
            && FirstPage(list, 2) == 1 && !InOneRegion(regions, 1, 3)
  {
    var regions, list := [Range(1, 2), Range(2, 3)], [Range(1, 3)];
    assert regions[..1] == [Range(1, 2)];
    PagesOfLast(regions);
    PagesOfLast([Range(1, 2)]);
    PagesOfLast(list);
    assert list[..0] == [] && [Range(1, 2)][..0] == [];
    BestFitIsBest(list, 2);
  }

  /** The page the allocator grants next and gives back again: it is accepted. */
  ghost predicate Regained(pm: PhysMem, list: seq<Range>, n: nat) {
    var page := FirstPage(list, n);
    page != 0 && InOneRegion(pm.regions, page, page + n) && |After(list, n)| < MAX_FREE_RANGES
  }

  /** memory_security_selftest, the allocator part: it succeeds exactly if a page and a run of three pages are granted
      and both can be given back, and then the free list is as before. */
  method SelfTest(pm: PhysMem) returns (code: int)
    requires pm.Valid()
    modifies pm, pm.ranges
    ensures pm.Valid() && (code == 0 ==> pm.list == old(pm.list))
    ensures code == 0 <==> Regained(pm, old(pm.list), 1) && Regained(pm, old(pm.list), 3)
  {
    var first, ok := AllocThenFree(pm, 1);
    if first == 0 || !ok { return -1; }
    var reused, ok2 := AllocThenFree(pm, 1);
    if reused != first || !ok2 { return -2; }
    var run, ok3 := AllocThenFree(pm, 3);
    if run == 0 || !ok3 { return -11; }
    var again, ok4 := AllocThenFree(pm, 3);
    if again != run { return -12; }
    if !ok4 { return -13; }
    return 0;
  }

  /** A single page that is granted can be given back unless the array is full. */
  lemma SinglePage(pm: PhysMem)
    requires pm.Valid()
    ensures Regained(pm, pm.list, 1) <==> FirstPage(pm.list, 1) != 0 && |After(pm.list, 1)| < MAX_FREE_RANGES
  {
    if FirstPage(pm.list, 1) != 0 {
      BestFitIsBest(pm.list, 1);
      var k := BestFit(pm.list, 1);
      DenotesPages(pm.regions, pm.managed);
      OnePage(pm.regions, pm.list[k].base);
      assert At(pm.list, k, pm.list[k].base);
      assert Covers(pm.list, pm.list[k].base);
    }
  }

  // ---------------------------------------------------------------- a full array

  /** The first `n` odd pages, as ranges. */
  function Odds(n: nat): (s: seq<Range>)
    ensures |s| == n && forall i :: 0 <= i < n ==> s[i] == Range(2 * i + 1, 2 * i + 2)
  {
    seq(n, i requires 0 <= i < n => Range(2 * i + 1, 2 * i + 2))
  }

  lemma OddsPages(n: nat)
    ensures Canonical(Odds(n)) && Pages(Odds(n + 1)) == Pages(Odds(n)) + {2 * n + 1}
    ensures forall a :: a in Pages(Odds(n)) ==> 0 < a < 2 * n && a % 2 == 1
  {
    assert Odds(n + 1)[..n] == Odds(n);
    PagesOfLast(Odds(n + 1));
    SpanOne(2 * n + 1);
    forall a | a in Pages(Odds(n)) ensures 0 < a < 2 * n && a % 2 == 1 { PagesCovers(Odds(n), a); }
  }

  /** When no two free pages are neighbours every free page is a range of its own. */
  lemma OddCount(pm: PhysMem)
    requires pm.Valid() && forall a :: a in pm.free ==> a % 2 == 1
    ensures pm.count == |pm.free| == pm.totalUsable - pm.inUse <= MAX_FREE_RANGES
  {
    BooksLedger(pm.regions, pm.managed, pm.list, pm.free, pm.lost, pm.totalUsable, pm.inUse, pm.peak);
    CountIsStarts(pm.list);
    CountCanonical(pm.list);
    assert Starts(pm.free) == pm.free;
  }

  const TOP := 4 * MAX_FREE_RANGES + 2

  /** Pages do get lost: with one region, all of it free, take everything and give back every second page; the
      free-range array is full after MAX_FREE_RANGES of them, and the next one is refused. */
  method LosePage(pm: PhysMem) returns (page: nat)
    requires pm.Valid() && pm.regions == [Range(1, TOP)] && pm.free == pm.managed && pm.lost == {}
    modifies pm, pm.ranges
    ensures pm.Valid() && pm.lost == {page}
  {
    FillArray(pm);
    Fragments(pm, MAX_FREE_RANGES);
    page := 2 * MAX_FREE_RANGES + 1;
    var _ := pm.FreePage(page);
  }

  // Take everything and give back the first odd pages, one range each, until the array is full.
  method FillArray(pm: PhysMem)
    requires pm.Valid() && pm.regions == [Range(1, TOP)] && pm.free == pm.managed && pm.lost == {}
    modifies pm, pm.ranges
    ensures pm.Valid() && pm.free == Pages(Odds(MAX_FREE_RANGES)) && pm.lost == {}
  {
    TakeEverything(pm);
    for i := 0 to MAX_FREE_RANGES
      invariant pm.Valid() && pm.free == Pages(Odds(i)) && pm.lost == {}
    {
      Fragments(pm, i);
      var _ := pm.FreePage(2 * i + 1);
    }
  }

  // Allocate all pages in one block.
  method TakeEverything(pm: PhysMem)
    requires pm.Valid() && pm.regions == [Range(1, TOP)] && pm.free == pm.managed
    modifies pm, pm.ranges
    ensures pm.Valid() && pm.free == {} == Pages(Odds(0)) && pm.lost == old(pm.lost)
  {
    assert RegionsOk([Range(1, TOP)]);
    ghost var all := pm.regions;
    DenotesPages(pm.regions, pm.managed);
    DenotesPages(pm.list, pm.free);
    PagesDetermine(pm.list, all);
    BestFitIsBest(all, TOP - 1);
    var _ := pm.AllocPages(TOP - 1);
    PagesOfLast(all);
    assert all[..0] == [];
  }

  lemma Fragments(pm: PhysMem, n: nat)
    requires pm.Valid() && pm.regions == [Range(1, TOP)] && pm.free == Pages(Odds(n)) && n <= MAX_FREE_RANGES
    ensures pm.count == n && 2 * n + 1 in pm.managed && 2 * n + 1 !in pm.free
    ensures Pages(Odds(n + 1)) == pm.free + {2 * n + 1}
  {
    OddsPages(n);
    DenotesPages(pm.list, pm.free);
    PagesDetermine(pm.list, Odds(n));
    DenotesPages(pm.regions, pm.managed);
    PagesCovers(pm.regions, 2 * n + 1);
    assert At(pm.regions, 0, 2 * n + 1);
  }
}
