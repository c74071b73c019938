/** ELF64 executables as the loader reads them (kernel/elf.h, kernel/elf.c; chapter 5, "Program Loading", of the
    System V gABI): what it accepts, and the memory image a file describes. */
module ElfFormat {
  import opened Hardware

  const WORD64 := 0x1_0000_0000_0000_0000
  const USER_LIMIT := 0x8000_0000_0000
  const STACK_LOW := 0x6FFF_0000
  const STACK_HIGH := 0x7000_0000
  const EHDR_SIZE := 64
  const PHDR_SIZE := 56
  const PT_LOAD := 1
  const PT_DYNAMIC := 2
  const PT_INTERP := 3

  /** Little-endian numbers of 2, 4 and 8 bytes. */
  function U16(file: seq<Byte>, at: nat): (r: nat)
    requires at + 2 <= |file|
    ensures r < 0x1_0000
  {
    (file[at] as int) + 0x100 * (file[at + 1] as int)
  }

  function U32(file: seq<Byte>, at: nat): (r: nat)
    requires at + 4 <= |file|
    ensures r < 0x1_0000_0000
  {
    U16(file, at) + 0x1_0000 * U16(file, at + 2)
  }

  function U64(file: seq<Byte>, at: nat): (r: nat)
    requires at + 8 <= |file|
    ensures r < WORD64
  {
    U32(file, at) + 0x1_0000_0000 * U32(file, at + 4)
  }

  datatype Header = Header(ident: seq<Byte>, kind: nat, machine: nat, version: nat, entry: nat, phoff: nat,
                           ehsize: nat, phentsize: nat, phnum: nat)

  datatype Segment = Segment(kind: nat, flags: nat, offset: nat, vaddr: nat, filesz: nat, memsz: nat, align: nat) {
    predicate Readable() { flags / 4 % 2 == 1 }
    predicate Writable() { flags / 2 % 2 == 1 }
    predicate Executable() { flags % 2 == 1 }
    function End(): nat { vaddr + memsz }
    function FirstPage(): nat { vaddr / 4096 }
    function PageEnd(): nat { (End() + 4095) / 4096 }
    /** The segment occupies memory. */
    predicate Loads() { kind == PT_LOAD && memsz > 0 }
    predicate OnPage(v: int) { Loads() && FirstPage() <= v < PageEnd() }
    /** The byte at address `x` comes from the file. */
    predicate HasFileByte(x: int) { Loads() && vaddr <= x < vaddr + filesz }
  }

  function ParseHeader(file: seq<Byte>): (h: Header)
    requires |file| >= EHDR_SIZE
    ensures h.phoff < WORD64 && h.entry < WORD64 && h.phnum < 0x1_0000
  {
    Header(file[0..16], U16(file, 16), U16(file, 18), U32(file, 20), U64(file, 24), U64(file, 32),
           U16(file, 52), U16(file, 54), U16(file, 56))
  }

  predicate SegmentFields(s: Segment) {
    s.offset < WORD64 && s.vaddr < WORD64 && s.filesz < WORD64 && s.memsz < WORD64 && s.align < WORD64
  }

  function ParseSegment(file: seq<Byte>, at: nat): (s: Segment)
    requires at + PHDR_SIZE <= |file|
    ensures SegmentFields(s)
  {
    Segment(U32(file, at), U32(file, at + 4), U64(file, at + 8), U64(file, at + 16),
            U64(file, at + 32), U64(file, at + 40), U64(file, at + 48))
  }

  /** The checks before an address space exists. */
  function HeaderCode(file: seq<Byte>, size: nat): (code: int)
    requires |file| == size
    ensures -5 <= code <= 0
    ensures code == 0 ==>
              && size >= EHDR_SIZE
              && var h := ParseHeader(file);
                 0 < h.phnum <= 128 && h.phoff + PHDR_SIZE * h.phnum <= size
  {
    if size < EHDR_SIZE then -1
    else
      var h := ParseHeader(file);
      if h.ident[..8] != [0x7f, 0x45, 0x4c, 0x46, 2, 1, 1, 0] || h.machine != 62 || h.version != 1 then -2
      else if h.kind != 2 then -3
      else if h.ehsize != EHDR_SIZE || h.phentsize != PHDR_SIZE || h.phnum == 0 || h.phnum > 128 then -4
      else if h.phoff > size || h.phnum > (size - h.phoff) / PHDR_SIZE then -5
      else 0
  }

  /** The program headers. */
  function Segments(file: seq<Byte>): (segs: seq<Segment>)
    requires HeaderCode(file, |file|) == 0
    ensures |segs| == ParseHeader(file).phnum && forall i :: 0 <= i < |segs| ==> SegmentFields(segs[i])
  {
    var h := ParseHeader(file);
    seq(h.phnum, i requires 0 <= i < h.phnum => ParseSegment(file, h.phoff + i * PHDR_SIZE))
  }

  predicate PowerOfTwo(n: nat) { n == 1 || (n > 1 && n % 2 == 0 && PowerOfTwo(n / 2)) }

  predicate Overlap(a: Segment, b: Segment) { a.vaddr < b.End() && b.vaddr < a.End() }

  predicate OverlapsEarlier(segs: seq<Segment>, i: nat, k: nat)
    requires i < |segs| && k <= |segs|
  {
    exists j :: 0 <= j < k && segs[j].Loads() && segs[j].End() < WORD64 && Overlap(segs[i], segs[j])
  }

  /** The checks of one program header, in the order the loader makes them; 0 to go on. */
  function SegmentCode(size: nat, segs: seq<Segment>, i: nat): (code: int)
    requires i < |segs|
  {
    var s := segs[i];
    if s.kind == PT_INTERP || s.kind == PT_DYNAMIC then -7
    else if s.kind != PT_LOAD then 0
    else if s.filesz > s.memsz then -7
    else if s.flags >= 8 || !s.Readable() || (s.Writable() && s.Executable()) then -8
    else if s.align != 0 && (!PowerOfTwo(s.align) || s.offset % s.align != s.vaddr % s.align) then -9
    else if s.offset + s.filesz >= WORD64 || s.offset + s.filesz > size || s.End() >= WORD64
            || s.vaddr < 4096 || s.vaddr >= USER_LIMIT || s.End() > USER_LIMIT
            || (s.vaddr < STACK_HIGH && s.End() > STACK_LOW) then -9
    else if s.memsz == 0 then 0
    else if OverlapsEarlier(segs, i, i) then -12
    else 0
  }

  /** What a segment that passed its checks satisfies. */
  predicate Sound(s: Segment, size: nat) {
    s.Loads() ==> && s.filesz <= s.memsz && s.offset + s.filesz <= size && 4096 <= s.vaddr && s.End() <= USER_LIMIT
                  && !(s.Writable() && s.Executable()) && (s.End() <= STACK_LOW || STACK_HIGH <= s.vaddr)
  }

  /** segment_page_flags, as the entry of a mapped page shows them. */
  function PageFlags(s: Segment): (f: Flags)
    ensures f.present && f.user && (f.writable && !f.noExecute ==> s.Writable() && s.Executable())
  {
    Flags(true, s.Writable(), true, false, !s.Executable(), 0)
  }

  /** Segment `i` shares a page with an earlier segment that has other permissions. */
  ghost predicate Clash(segs: seq<Segment>, i: nat)
    requires i < |segs|
  {
    exists j, v :: 0 <= j < i && segs[j].OnPage(v) && segs[i].OnPage(v) && PageFlags(segs[j]) != PageFlags(segs[i])
  }

  /** The verdict on one program header. */
  ghost function StepCode(size: nat, segs: seq<Segment>, i: nat): int
    requires i < |segs|
  {
    if SegmentCode(size, segs, i) != 0 then SegmentCode(size, segs, i) else if Clash(segs, i) then -12 else 0
  }

  /** Pages a segment needs. */
  function PagesIn(s: Segment): nat {
    if s.Loads() && s.PageEnd() >= s.FirstPage() then s.PageEnd() - s.FirstPage() else 0
  }

  /** An executable segment that contains the entry point. */
  predicate Holds(s: Segment, entry: nat) { s.Loads() && s.Executable() && s.vaddr <= entry < s.End() }

  /** For each program header: the verdict on it, the pages it needs, and whether it holds the entry point. */
  datatype Plan = Plan(codes: seq<int>, pages: seq<nat>, holds: seq<bool>)

  ghost function PlanOf(size: nat, segs: seq<Segment>, entry: nat): (plan: Plan)
    ensures Planned(size, segs, entry, plan)
  {
    Plan(seq(|segs|, i requires 0 <= i < |segs| => StepCode(size, segs, i)),
         seq(|segs|, i requires 0 <= i < |segs| => PagesIn(segs[i])),
         seq(|segs|, i requires 0 <= i < |segs| => Holds(segs[i], entry)))
  }

  ghost predicate Planned(size: nat, segs: seq<Segment>, entry: nat, plan: Plan) {
    && |plan.codes| == |plan.pages| == |plan.holds| == |segs|
    && (forall i {:trigger Holds(segs[i], entry)} :: 0 <= i < |segs| ==> plan.holds[i] == Holds(segs[i], entry))
    && (forall i {:trigger StepCode(size, segs, i)} :: 0 <= i < |segs| ==> plan.codes[i] == StepCode(size, segs, i))
    && (forall i {:trigger PagesIn(segs[i])} :: 0 <= i < |segs| ==> plan.pages[i] == PagesIn(segs[i]))
  }

  ghost predicate AllClear(codes: seq<int>, k: nat)
    requires k <= |codes|
  {
    forall i :: 0 <= i < k ==> codes[i] == 0
  }

  /** The first code that is not zero. */
  ghost function FirstBad(codes: seq<int>): int {
    if codes == [] then 0 else if codes[0] != 0 then codes[0] else FirstBad(codes[1..])
  }

  lemma {:induction false} FirstBadIs(codes: seq<int>, i: nat)
    requires i <= |codes| && AllClear(codes, i)
    ensures i == |codes| ==> FirstBad(codes) == 0
    ensures i < |codes| && codes[i] != 0 ==> FirstBad(codes) == codes[i]
  {
    if i > 0 {
      assert forall j :: 0 <= j < i - 1 ==> codes[1..][j] == codes[j + 1];
      FirstBadIs(codes[1..], i - 1);
    }
  }

  lemma {:induction false} ClearIfFirst(codes: seq<int>)
    requires FirstBad(codes) == 0
    ensures AllClear(codes, |codes|)
  {
    if codes != [] {
      ClearIfFirst(codes[1..]);
      forall i | 0 <= i < |codes| ensures codes[i] == 0 { assert i > 0 ==> codes[i] == codes[1..][i - 1]; }
    }
  }

  function Sum(pages: seq<nat>, k: nat): nat
    requires k <= |pages|
  {
    if k == 0 then 0 else Sum(pages, k - 1) + pages[k - 1]
  }

  lemma {:induction false} SumGrows(pages: seq<nat>, k: nat, n: nat)
    requires k <= n <= |pages|
    ensures Sum(pages, k) <= Sum(pages, n)
  {
    if k < n { SumGrows(pages, k, n - 1); }
  }

  /** One of the first `k` is true. */
  predicate Any(holds: seq<bool>, k: nat)
    requires k <= |holds|
  {
    k > 0 && (Any(holds, k - 1) || holds[k - 1])
  }

  lemma {:induction false} AnyIs(holds: seq<bool>, k: nat)
    requires k <= |holds|
    ensures Any(holds, k) <==> exists j :: 0 <= j < k && holds[j]
  {
    if k > 0 { AnyIs(holds, k - 1); }
  }

  /** The result for program headers that were checked and an entry point. */
  ghost function Outcome(plan: Plan): int {
    if FirstBad(plan.codes) != 0 then FirstBad(plan.codes) else if Any(plan.holds, |plan.holds|) then 0 else -14
  }

  ghost function FilePlan(file: seq<Byte>): Plan
    requires HeaderCode(file, |file|) == 0
  {
    PlanOf(|file|, Segments(file), ParseHeader(file).entry)
  }

  /** The result of loading `file` when memory does not run out. */
  ghost function FileVerdict(file: seq<Byte>): int {
    if HeaderCode(file, |file|) != 0 then HeaderCode(file, |file|)
    else
      Outcome(FilePlan(file))
  }

  /** With nothing to object to, all segments are sound, pairwise apart, and agree on the permissions of shared
      pages. */
  ghost predicate Accepted(size: nat, segs: seq<Segment>, k: nat)
    requires k <= |segs|
  {
    && (forall i :: 0 <= i < k ==> Sound(segs[i], size))
    && (forall i, j :: 0 <= j < i < k && segs[i].Loads() && segs[j].Loads() ==> !Overlap(segs[i], segs[j]))
    && (forall i, j, v :: 0 <= j < i < k && segs[i].OnPage(v) && segs[j].OnPage(v) ==>
      PageFlags(segs[i]) == PageFlags(segs[j]))
  }

  lemma {:induction false} AcceptedIfClear(size: nat, segs: seq<Segment>, entry: nat, plan: Plan, k: nat)
    requires Planned(size, segs, entry, plan) && k <= |segs| && AllClear(plan.codes, k)
    ensures Accepted(size, segs, k)
  {
    if k > 0 {
      AcceptedIfClear(size, segs, entry, plan, k - 1);
      assert StepCode(size, segs, k - 1) == 0;
      forall j | 0 <= j < k - 1 && segs[j].Loads() && segs[k - 1].Loads() ensures !Overlap(segs[k - 1], segs[j]) {
        assert Sound(segs[j], size);
      }
    }
  }

  // ---------------------------------------------------------------- the memory image

  /** The byte the first `k` segments put at address `x`: the file byte of the segment that has one, else zero. */
  ghost function ImageByte(file: seq<Byte>, segs: seq<Segment>, k: nat, x: int): Byte
    requires k <= |segs|
  {
    if k == 0 then 0
    else
      var s := segs[k - 1];
      if s.HasFileByte(x) && s.offset + s.filesz <= |file| then file[s.offset + (x - s.vaddr)]
      else ImageByte(file, segs, k - 1, x)
  }

  lemma {:induction false} NoFileByte(file: seq<Byte>, segs: seq<Segment>, k: nat, x: int)
    requires k <= |segs| && forall j :: 0 <= j < k ==> !segs[j].HasFileByte(x)
    ensures ImageByte(file, segs, k, x) == 0
  {
    if k > 0 { NoFileByte(file, segs, k - 1, x); }
  }

  /** Every byte of an accepted segment is its file byte below `filesz` and zero from there to `memsz`,
      whichever other segments the file has. */
  lemma {:induction false} SegmentImage(file: seq<Byte>, segs: seq<Segment>, k: nat, j: nat, x: int)
    requires j < k <= |segs| && Accepted(|file|, segs, k) && segs[j].Loads() && segs[j].vaddr <= x < segs[j].End()
    ensures ImageByte(file, segs, k, x) ==
            if x < segs[j].vaddr + segs[j].filesz then file[segs[j].offset + (x - segs[j].vaddr)] else 0
  {
    forall i | 0 <= i < k && i != j ensures !segs[i].HasFileByte(x) {
      assert Sound(segs[i], |file|);
      if segs[i].Loads() { assert if i < j then !Overlap(segs[j], segs[i]) else !Overlap(segs[i], segs[j]); }
    }
    if j == k - 1 {
      if x >= segs[j].vaddr + segs[j].filesz { NoFileByte(file, segs, k, x); }
    } else {
      SegmentImage(file, segs, k - 1, j, x);
    }
  }

  /** A segment lies on its own pages. */
  lemma OnOwnPages(s: Segment, x: int)
    requires s.Loads() && s.vaddr <= x < s.End()
    ensures s.OnPage(x / 4096)
  {}

  /** Accepted segments stay off the stack pages. */
  lemma OffStack(s: Segment, size: nat, v: int)
    requires Sound(s, size)
    ensures s.OnPage(v) ==> 1 <= v < USER_LIMIT / 4096 && !(STACK_LOW / 4096 <= v < STACK_HIGH / 4096)
  {}

  // ---------------------------------------------------------------- pages

  ghost predicate Covered(segs: seq<Segment>, c: nat, v: int)
    requires c <= |segs|
  {
    exists j :: 0 <= j < c && segs[j].OnPage(v)
  }

  /** The page holds the image of the first `c` segments. */
  ghost predicate HasImage(page: Page, file: seq<Byte>, segs: seq<Segment>, c: nat, v: int)
    requires c <= |segs|
  {
    forall o :: 0 <= o < 4096 ==> page[o] == ImageByte(file, segs, c, 4096 * v + o)
  }

  /** The entry has the permissions of every one of the first `c` segments on this page. */
  ghost predicate HasFlags(bits: Flags, segs: seq<Segment>, c: nat, v: int)
    requires c <= |segs|
  {
    forall j :: 0 <= j < c && segs[j].OnPage(v) ==> bits == PageFlags(segs[j])
  }

  /** A page that no earlier segment touches starts as zeros, and that is its image so far. */
  lemma ZeroImage(file: seq<Byte>, segs: seq<Segment>, c: nat, v: int)
    requires c <= |segs| && !Covered(segs, c, v) && forall j :: 0 <= j < c ==> Sound(segs[j], |file|)
    ensures HasImage(ZeroPage(), file, segs, c, v)
  {
    forall o | 0 <= o < 4096 ensures ZeroPage()[o] == ImageByte(file, segs, c, 4096 * v + o) {
      forall j | 0 <= j < c ensures !segs[j].HasFileByte(4096 * v + o) {
        OffPage(segs[j], |file|, v, o);
      }
      NoFileByte(file, segs, c, 4096 * v + o);
    }
  }

  lemma OffPage(s: Segment, size: nat, v: int, o: int)
    requires Sound(s, size) && !s.OnPage(v) && 0 <= o < 4096
    ensures !s.HasFileByte(4096 * v + o)
  {
    assert (4096 * v + o) / 4096 == v;
    if s.HasFileByte(4096 * v + o) { OnOwnPages(s, 4096 * v + o); }
  }

  /** A segment that is not on the page changes nothing there. */
  lemma ImageSkip(page: Page, file: seq<Byte>, segs: seq<Segment>, c: nat, v: int)
    requires c < |segs| && Sound(segs[c], |file|) && !segs[c].OnPage(v)
    ensures HasImage(page, file, segs, c, v) <==> HasImage(page, file, segs, c + 1, v)
  {
    forall o | 0 <= o < 4096
      ensures page[o] == ImageByte(file, segs, c + 1, 4096 * v + o) <==>
              page[o] == ImageByte(file, segs, c, 4096 * v + o) {
      OffPage(segs[c], |file|, v, o);
    }
  }

  /** The page after the loader copied the file bytes of segment `s` that fall on it. */
  ghost predicate Overlaid(page: Page, page': Page, file: seq<Byte>, s: Segment, v: int)
    requires s.offset + s.filesz <= |file|
  {
    forall o :: 0 <= o < 4096 ==>
      page'[o] == if s.HasFileByte(4096 * v + o) then file[s.offset + (4096 * v + o - s.vaddr)] else page[o]
  }

  lemma ImageAt(page: Page, file: seq<Byte>, segs: seq<Segment>, c: nat, v: int, x: int)
    requires c <= |segs| && HasImage(page, file, segs, c, v) && v == x / 4096
    ensures page[x % 4096] == ImageByte(file, segs, c, x)
  {
    assert 4096 * v + x % 4096 == x;
  }

  lemma ImageStep(page: Page, page': Page, file: seq<Byte>, segs: seq<Segment>, c: nat, v: int)
    requires c < |segs| && segs[c].offset + segs[c].filesz <= |file|
    requires HasImage(page, file, segs, c, v) && Overlaid(page, page', file, segs[c], v)
    ensures HasImage(page', file, segs, c + 1, v)
  {}
}
