/** The physical allocator's free list as a mathematical object: a sequence of page ranges.
    Addresses are counted in pages of 4096 bytes throughout, so every bound is page aligned.
    A canonical list is sorted, free of empty ranges and maximally coalesced; the page set it
    covers determines it uniquely. */
module FreeList {

  datatype Range = Range(base: nat, end: nat) {
    function Size(): int { end - base }
    predicate Has(a: int) { base <= a < end }
  }

  predicate WellFormed(r: Range) { r.base < r.end }

  ghost predicate Canonical(s: seq<Range>) {
    && (forall i :: 0 <= i < |s| ==> WellFormed(s[i]))
    && (forall i, j {:trigger Before(s, i, j)} :: Before(s, i, j))
  }

  /** Range `i` ends below range `j`, with a gap. */
  predicate Before(s: seq<Range>, i: int, j: int) { 0 <= i < j < |s| ==> s[i].end < s[j].base }

  predicate At(s: seq<Range>, i: int, a: int) { 0 <= i < |s| && s[i].Has(a) }

  ghost predicate Covers(s: seq<Range>, a: int) {
    exists i :: At(s, i, a)
  }

  /** The list after a new range has been put at position `pos`. */
  function Inserted(s: seq<Range>, pos: nat, r: Range): (t: seq<Range>)
    requires pos <= |s|
    ensures |t| == |s| + 1
  {
    s[..pos] + [r] + s[pos..]
  }

  /** The list after range `pos` has swallowed its right neighbour. */
  function Merged(s: seq<Range>, pos: nat): (t: seq<Range>)
    requires pos + 1 < |s|
    ensures |t| == |s| - 1
  {
    s[..pos] + [Range(s[pos].base, s[pos + 1].end)] + s[pos + 2..]
  }

  function Removed(s: seq<Range>, pos: nat): (t: seq<Range>)
    requires pos < |s|
    ensures |t| == |s| - 1
  {
    s[..pos] + s[pos + 1..]
  }

  lemma InsertedCovers(s: seq<Range>, pos: nat, r: Range, a: int)
    requires pos <= |s|
    ensures Covers(Inserted(s, pos, r), a) <==> Covers(s, a) || r.Has(a)
  {
    var t := Inserted(s, pos, r);
    if i :| At(s, i, a) {
      assert At(t, if i < pos then i else i + 1, a);
    }
    if r.Has(a) {
      assert At(t, pos, a);
    }
    if i :| At(t, i, a) && i != pos {
      assert At(s, if i < pos then i else i - 1, a);
    }
  }

  lemma MergedCovers(s: seq<Range>, pos: nat, a: int)
    requires pos + 1 < |s| && s[pos].end == s[pos + 1].base
    requires s[pos].base <= s[pos].end && s[pos + 1].base <= s[pos + 1].end
    ensures Covers(Merged(s, pos), a) <==> Covers(s, a)
  {
    var t := Merged(s, pos);
    if i :| At(s, i, a) {
      assert At(t, if i <= pos then i else i - 1, a);
    }
    if i :| At(t, i, a) {
      assert if i < pos then At(s, i, a) else if i > pos then At(s, i + 1, a) else At(s, pos, a) || At(s, pos + 1, a);
    }
  }

  lemma OneOwner(s: seq<Range>, i: nat, j: nat, a: int)
    requires Canonical(s) && i != j && j < |s| && At(s, i, a)
    ensures !At(s, j, a)
  {
    assert Before(s, i, j) && Before(s, j, i);
  }

  lemma RemovedCovers(s: seq<Range>, pos: nat, a: int)
    requires pos < |s| && Canonical(s)
    ensures Covers(Removed(s, pos), a) <==> Covers(s, a) && !s[pos].Has(a)
  {
    var t := Removed(s, pos);
    if i :| At(s, i, a) && i != pos {
      assert At(t, if i < pos then i else i - 1, a);
    }
    if i :| At(t, i, a) {
      var k := if i < pos then i else i + 1;
      assert At(s, k, a);
      OneOwner(s, k, pos, a);
    }
  }

  lemma ShrunkCovers(s: seq<Range>, pos: nat, from: nat, a: int)
    requires pos < |s| && Canonical(s) && s[pos].base <= from <= s[pos].end
    ensures Covers(s[pos := Range(from, s[pos].end)], a) <==> Covers(s, a) && !(s[pos].base <= a < from)
  {
    var t := s[pos := Range(from, s[pos].end)];
    if i :| At(s, i, a) {
      if i != pos { OneOwner(s, i, pos, a); }
      if !(s[pos].base <= a < from) { assert At(t, i, a); }
    }
    if i :| At(t, i, a) {
      assert At(s, i, a);
      if i != pos { OneOwner(s, i, pos, a); }
    }
  }

  ghost predicate SamePages(s: seq<Range>, t: seq<Range>) {
    forall a: int :: Covers(s, a) <==> Covers(t, a)
  }

  /** A canonical list is determined by the pages it covers. */
  lemma {:induction false} CanonicalUnique(s: seq<Range>, t: seq<Range>)
    requires Canonical(s) && Canonical(t) && SamePages(s, t)
    ensures s == t
  {
    if s == [] || t == [] {
      FirstCovered(s, t);
      FirstCovered(t, s);
    } else {
      FirstBase(s, t);
      FirstBase(t, s);
      FirstEnd(s, t);
      FirstEnd(t, s);
      TailsAgree(s, t);
      CanonicalUnique(s[1..], t[1..]);
      assert s == [s[0]] + s[1..] && t == [t[0]] + t[1..];
    }
  }

  /** Equal page sets mean equal lists. */
  lemma PagesDetermine(s: seq<Range>, t: seq<Range>)
    requires Canonical(s) && Canonical(t) && Pages(s) == Pages(t)
    ensures s == t
  {
    forall a: int ensures Covers(s, a) <==> Covers(t, a) {
      PagesCovers(s, a);
      PagesCovers(t, a);
    }
    CanonicalUnique(s, t);
  }

  lemma FirstCovered(s: seq<Range>, t: seq<Range>)
    requires Canonical(s) && SamePages(s, t)
    ensures s != [] ==> t != []
  {
    if s != [] {
      assert At(s, 0, s[0].base);
      assert Covers(t, s[0].base);
    }
  }

  lemma SliceCanonical(s: seq<Range>, lo: nat, hi: nat)
    requires Canonical(s) && lo <= hi <= |s|
    ensures Canonical(s[lo..hi])
  {
    forall i, j ensures Before(s[lo..hi], i, j) { assert Before(s, lo + i, lo + j); }
  }

  lemma TailsAgree(s: seq<Range>, t: seq<Range>)
    requires Canonical(s) && Canonical(t) && s != [] && t != [] && s[0] == t[0] && SamePages(s, t)
    ensures Canonical(s[1..]) && Canonical(t[1..]) && SamePages(s[1..], t[1..])
  {
    assert Removed(s, 0) == s[1..] && Removed(t, 0) == t[1..];
    SliceCanonical(s, 1, |s|);
    SliceCanonical(t, 1, |t|);
    assert s[1..|s|] == s[1..] && t[1..|t|] == t[1..];
    forall a: int ensures Covers(s[1..], a) <==> Covers(t[1..], a) {
      RemovedCovers(s, 0, a);
      RemovedCovers(t, 0, a);
    }
  }

  lemma FirstBase(s: seq<Range>, t: seq<Range>)
    requires Canonical(s) && Canonical(t) && s != [] && t != [] && SamePages(s, t)
    ensures t[0].base <= s[0].base
  {
    assert At(s, 0, s[0].base);
    assert Covers(t, s[0].base);
    var i :| At(t, i, s[0].base);
    assert Before(t, 0, i);
  }

  lemma FirstEnd(s: seq<Range>, t: seq<Range>)
    requires Canonical(s) && Canonical(t) && s != [] && t != [] && s[0].base == t[0].base && SamePages(s, t)
    ensures t[0].end <= s[0].end
  {
    var e := s[0].end;
    assert !Covers(s, e) by {
      forall i ensures !At(s, i, e) { assert Before(s, 0, i); }
    }
    assert !At(t, 0, e);
  }

  /** The pages of one range. */
  ghost function Span(base: int, end: int): set<int> {
    set a: int | base <= a < end && Within(base, a, end)
  }

  predicate Within(base: int, a: int, end: int) { base <= a < end }

  /** The pages a list covers. */
  ghost function Pages(s: seq<Range>): set<int> {
    set i, a | 0 <= i < |s| && s[i].base <= a < s[i].end && At(s, i, a) :: a
  }

  lemma PagesCovers(s: seq<Range>, a: int)
    ensures a in Pages(s) <==> Covers(s, a)
  {}

  lemma PagesOfLast(s: seq<Range>)
    requires s != []
    ensures Pages(s) == Pages(s[..|s| - 1]) + Span(s[|s| - 1].base, s[|s| - 1].end)
  {
    var u := s[..|s| - 1];
    forall a ensures a in Pages(s) <==> a in Pages(u) + Span(s[|s| - 1].base, s[|s| - 1].end) {
      if i :| At(u, i, a) {
        assert At(s, i, a);
      }
      if a in Span(s[|s| - 1].base, s[|s| - 1].end) {
        assert At(s, |s| - 1, a);
      }
      if i :| At(s, i, a) && i < |s| - 1 {
        assert At(u, i, a);
      }
    }
  }

  lemma {:induction false} SpanSize(base: int, end: int)
    requires base <= end
    ensures |Span(base, end)| == end - base
    decreases end - base
  {
    if base == end {
      assert Span(base, end) == {};
    } else {
      SpanSize(base, end - 1);
      assert Span(base, end) == Span(base, end - 1) + {end - 1};
    }
  }

  /** Sum of the range sizes. */
  function PageCount(s: seq<Range>): int {
    if s == [] then 0 else PageCount(s[..|s| - 1]) + s[|s| - 1].Size()
  }

  ghost predicate Separate(s: seq<Range>) {
    forall i, j {:trigger Aside(s, i, j)} :: Aside(s, i, j)
  }

  predicate Aside(s: seq<Range>, i: int, j: int) {
    0 <= i < j < |s| ==> s[i].end <= s[j].base || s[j].end <= s[i].base
  }

  /** For ranges that do not overlap, the sum of the sizes is the number of pages covered. */
  lemma {:induction false} CountPages(s: seq<Range>)
    requires forall i :: 0 <= i < |s| ==> WellFormed(s[i])
    requires Separate(s)
    ensures PageCount(s) == |Pages(s)|
  {
    if s == [] {
      assert Pages(s) == {};
    } else {
      var u := s[..|s| - 1];
      forall i, j ensures Aside(u, i, j) { assert Aside(s, i, j); }
      CountPages(u);
      CountOfLast(s);
    }
  }

  lemma CountCanonical(s: seq<Range>)
    requires Canonical(s)
    ensures PageCount(s) == |Pages(s)|
  {
    CanonicalSeparate(s);
    CountPages(s);
  }

  lemma CountOfLast(s: seq<Range>)
    requires s != [] && Separate(s) && WellFormed(s[|s| - 1])
    ensures |Pages(s)| == |Pages(s[..|s| - 1])| + s[|s| - 1].Size()
  {
    LastApart(s);
    PagesOfLast(s);
    SpanSize(s[|s| - 1].base, s[|s| - 1].end);
    SumCard(Pages(s[..|s| - 1]), Span(s[|s| - 1].base, s[|s| - 1].end));
  }

  lemma LastApart(s: seq<Range>)
    requires s != [] && Separate(s)
    ensures Pages(s[..|s| - 1]) !! Span(s[|s| - 1].base, s[|s| - 1].end)
  {
    var u := s[..|s| - 1];
    forall a | a in Pages(u) ensures a !in Span(s[|s| - 1].base, s[|s| - 1].end) {
      PagesCovers(u, a);
      var i :| At(u, i, a);
      assert s[i] == u[i] && Aside(s, i, |s| - 1);
    }
  }

  lemma SumCard(a: set<int>, b: set<int>)
    requires a !! b
    ensures |a + b| == |a| + |b|
  {}

  lemma SubsetCard(a: set<int>, b: set<int>)
    requires a <= b
    ensures |a| <= |b|
  {
    assert b == a + (b - a);
  }

  lemma CanonicalSeparate(s: seq<Range>)
    requires Canonical(s)
    ensures Separate(s)
  {
    forall i, j ensures Aside(s, i, j) { assert Before(s, i, j); }
  }

  /** `a` starts a run: it is in `p` and the page below it is not. */
  ghost predicate IsStart(p: set<int>, a: int) { a in p && a - 1 !in p }

  ghost function Starts(p: set<int>): set<int> { set a | a in p && IsStart(p, a) }

  /** A canonical list has exactly one range for each start of a run of covered pages. */
  lemma {:induction false} CountIsStarts(s: seq<Range>)
    requires Canonical(s)
    ensures |s| == |Starts(Pages(s))|
  {
    if s == [] {
      assert Starts(Pages(s)) == {};
    } else {
      var u, last := s[..|s| - 1], s[|s| - 1];
      SliceCanonical(s, 0, |s| - 1);
      CountIsStarts(u);
      PagesOfLast(s);
      forall a ensures a in Pages(u) ==> a < last.base - 1 { BelowLast(s, a); }
      LastStart(Pages(u), last);
    }
  }

  lemma BelowLast(s: seq<Range>, a: int)
    requires Canonical(s) && s != []
    ensures a in Pages(s[..|s| - 1]) ==> a < s[|s| - 1].base - 1
  {
    var u, last := s[..|s| - 1], s[|s| - 1];
    PagesCovers(u, a);
    if i :| At(u, i, a) {
      assert s[i] == u[i] && Before(s, i, |s| - 1);
    }
  }

  lemma LastStart(p: set<int>, last: Range)
    requires WellFormed(last) && forall a :: a in p ==> a < last.base - 1
    ensures Starts(p + Span(last.base, last.end)) == Starts(p) + {last.base}
    ensures last.base !in Starts(p)
  {
    var q := p + Span(last.base, last.end);
    forall a ensures a in Starts(q) <==> a in Starts(p) + {last.base} {
      if a in Span(last.base, last.end) && a != last.base {
        assert a - 1 in Span(last.base, last.end);
      }
    }
  }

  /** Index of the smallest range of at least `n` pages, the first of equals; |s| when none fits. */
  function BestFit(s: seq<Range>, n: nat): (k: nat)
    ensures k <= |s| && (k < |s| ==> n <= s[k].Size())
  {
    if s == [] then 0
    else
      var last := |s| - 1;
      var k := BestFit(s[..last], n);
      if s[last].Size() >= n && (k >= last || s[last].Size() < s[k].Size()) then last
      else if k >= last then |s| else k
  }

  lemma {:induction false} BestFitIsBest(s: seq<Range>, n: nat)
    ensures forall j :: 0 <= j < |s| && s[j].Size() >= n ==>
              && BestFit(s, n) < |s|
              && s[BestFit(s, n)].Size() <= s[j].Size()
              && (j < BestFit(s, n) ==> s[BestFit(s, n)].Size() < s[j].Size())
  {
    if s != [] {
      var u := s[..|s| - 1];
      BestFitIsBest(u, n);
      forall j | 0 <= j < |s| - 1 ensures u[j] == s[j] {}
    }
  }
}
