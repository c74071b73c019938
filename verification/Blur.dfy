/** The box blur of the desktop (src/desktop.c, blur_rect_buf): two passes with running sums equal the plain box
    filter. */
module BoxBlur {
  import opened Hardware

  const MAX_WIDTH := 2560
  const MAX_HEIGHT := 1440

  datatype Pixel = Pixel(alpha: Byte, red: Byte, green: Byte, blue: Byte)

  /** Channel sums of a run of pixels, and how many there are. */
  datatype Sums = Sums(red: int, green: int, blue: int, count: int)

  function Plus(s: Sums, p: Pixel): Sums { Sums(s.red + p.red, s.green + p.green, s.blue + p.blue, s.count + 1) }
  function Minus(s: Sums, p: Pixel): Sums { Sums(s.red - p.red, s.green - p.green, s.blue - p.blue, s.count - 1) }

  // ---------------------------------------------------------------- the plain filter

  /** The sums over positions `lo` to `hi`. */
  function Sum(line: seq<Pixel>, lo: int, hi: int): (s: Sums)
    requires 0 <= lo <= hi <= |line|
    ensures s.count == hi - lo
    ensures 0 <= s.red <= 255 * s.count && 0 <= s.green <= 255 * s.count && 0 <= s.blue <= 255 * s.count
    decreases hi - lo
  {
    if lo == hi then Sums(0, 0, 0, 0) else Plus(Sum(line, lo, hi - 1), line[hi - 1])
  }

  lemma {:induction false} SumFront(line: seq<Pixel>, lo: int, hi: int)
    requires 0 <= lo < hi <= |line|
    ensures Minus(Sum(line, lo, hi), line[lo]) == Sum(line, lo + 1, hi)
    decreases hi - lo
  {
    if lo + 1 < hi { SumFront(line, lo, hi - 1); }
  }

  /** The quotient by repeated subtraction. */
  function Quotient(sum: int, count: int): (q: int)
    requires sum >= 0 && count > 0
    ensures q >= 0
    decreases sum
  {
    if sum < count then 0 else 1 + Quotient(sum - count, count)
  }

  /** It is the floor of `sum / count`. */
  lemma {:induction false} QuotientIsFloor(sum: int, count: int)
    requires sum >= 0 && count > 0
    ensures Quotient(sum, count) == sum / count
    decreases sum
  {
    if sum >= count {
      QuotientIsFloor(sum - count, count);
      OneMore(sum, count);
    }
  }

  lemma OneMore(sum: int, count: int)
    requires sum >= count > 0
    ensures sum / count == 1 + (sum - count) / count
  {
    var q, r := sum / count, (sum - count) / count;
    assert sum == q * count + sum % count && sum - count == r * count + (sum - count) % count;
    assert (q - r - 1) * count == (sum - count) % count - sum % count;
    assert (r + 1 - q) * count == -((q - r - 1) * count);
    if q - r - 1 >= 1 { AtLeast(q - r - 1, count); }
    if r + 1 - q >= 1 { AtLeast(r + 1 - q, count); }
  }

  lemma AtLeast(k: int, count: int)
    requires k >= 1 && count > 0
    ensures k * count >= count
  {
    assert k * count == (k - 1) * count + count;
  }

  lemma {:induction false} QuotientBound(sum: int, count: int, m: int)
    requires 0 <= sum && count > 0 && sum < m * count
    ensures Quotient(sum, count) < m
    decreases sum
  {
    if sum < count {
      assert m > 0;
    } else {
      assert (m - 1) * count == m * count - count;
      QuotientBound(sum - count, count, m - 1);
    }
  }

  /** The floor of the mean of each channel; the top byte is cleared. */
  function Mean(s: Sums): Pixel
    requires s.count > 0
    requires 0 <= s.red <= 255 * s.count && 0 <= s.green <= 255 * s.count && 0 <= s.blue <= 255 * s.count
  {
    QuotientBound(s.red, s.count, 256);
    QuotientBound(s.green, s.count, 256);
    QuotientBound(s.blue, s.count, 256);
    Pixel(0, Quotient(s.red, s.count), Quotient(s.green, s.count), Quotient(s.blue, s.count))
  }

  /** A mean is the integer quotient in each channel. */
  lemma MeanIsFloor(s: Sums)
    requires s.count > 0
    requires 0 <= s.red <= 255 * s.count && 0 <= s.green <= 255 * s.count && 0 <= s.blue <= 255 * s.count
    ensures var p := Mean(s); p.red == s.red / s.count && p.green == s.green / s.count && p.blue == s.blue / s.count
  {
    QuotientIsFloor(s.red, s.count);
    QuotientIsFloor(s.green, s.count);
    QuotientIsFloor(s.blue, s.count);
  }

  // The division at the end of a window.
  method Average(s: Sums) returns (p: Pixel)
    requires s.count > 0
    requires 0 <= s.red <= 255 * s.count && 0 <= s.green <= 255 * s.count && 0 <= s.blue <= 255 * s.count
    ensures p == Mean(s)
  {
    MeanIsFloor(s);
    p := Pixel(0, s.red / s.count, s.green / s.count, s.blue / s.count);
  }

  /** The window around position `i`, cut off at the ends of the line. */
  function Low(i: int, radius: int): int { if i - radius < 0 then 0 else i - radius }
  function High(n: int, i: int, radius: int): int { if i + radius + 1 > n then n else i + radius + 1 }

  function Box(line: seq<Pixel>, i: int, radius: int): Pixel
    requires 0 <= i < |line| && radius > 0
  {
    Mean(Sum(line, Low(i, radius), High(|line|, i, radius)))
  }

  /** Each channel of a box is the integer quotient of its sum over the window and the size of the window. */
  lemma BoxIsMean(line: seq<Pixel>, i: int, radius: int)
    requires 0 <= i < |line| && radius > 0
    ensures var s, p := Sum(line, Low(i, radius), High(|line|, i, radius)), Box(line, i, radius);
            && s.count == High(|line|, i, radius) - Low(i, radius) > 0
            && p.red == s.red / s.count && p.green == s.green / s.count && p.blue == s.blue / s.count && p.alpha == 0
  {
    MeanIsFloor(Sum(line, Low(i, radius), High(|line|, i, radius)));
  }

  /** The first `n` pixels of the filtered line. */
  function FilteredTo(line: seq<Pixel>, radius: int, n: nat): (r: seq<Pixel>)
    requires radius > 0 && n <= |line|
    ensures |r| == n
  {
    if n == 0 then [] else FilteredTo(line, radius, n - 1) + [Box(line, n - 1, radius)]
  }

  function Filtered(line: seq<Pixel>, radius: int): (r: seq<Pixel>)
    requires radius > 0
    ensures |r| == |line|
  {
    FilteredTo(line, radius, |line|)
  }

  /** Every pixel of the filtered line is the mean of its window. */
  lemma {:induction false} FilteredAt(line: seq<Pixel>, radius: int, n: nat, i: nat)
    requires radius > 0 && i < n <= |line|
    ensures FilteredTo(line, radius, n)[i] == Box(line, i, radius)
  {
    if i < n - 1 { FilteredAt(line, radius, n - 1, i); }
  }

  // ---------------------------------------------------------------- the running sums

  /** From the window of `i` to the window of `i + 1`: one pixel may enter, one may leave. */
  lemma WindowMoves(line: seq<Pixel>, i: int, radius: int)
    requires 0 <= i && i + 1 < |line| && radius > 0
    ensures var s := Sum(line, Low(i, radius), High(|line|, i, radius));
            var t := if i + 1 + radius < |line| then Plus(s, line[i + 1 + radius]) else s;
            (if i - radius >= 0 then Minus(t, line[i - radius]) else t)
                == Sum(line, Low(i + 1, radius), High(|line|, i + 1, radius))
  {
    var lo, hi' := Low(i, radius), High(|line|, i + 1, radius);
    if i - radius >= 0 { SumFront(line, lo, hi'); }
  }

  // The sums of the first window.
  method FirstWindow(line: seq<Pixel>, radius: int) returns (s: Sums)
    requires radius > 0 && line != []
    ensures s == Sum(line, Low(0, radius), High(|line|, 0, radius))
  {
    s := Sums(0, 0, 0, 0);
    var initMax := if radius < |line| then radius else |line| - 1;
    for k := 0 to initMax + 1
      invariant s == Sum(line, 0, k)
    {
      s := Plus(s, line[k]);
    }
  }

  // Slide the window from `i - 1` to `i`.
  method NextWindow(line: seq<Pixel>, radius: int, i: int, s: Sums) returns (t: Sums)
    requires radius > 0 && 0 < i < |line| && s == Sum(line, Low(i - 1, radius), High(|line|, i - 1, radius))
    ensures t == Sum(line, Low(i, radius), High(|line|, i, radius))
  {
    WindowMoves(line, i - 1, radius);
    t := s;
    if i + radius < |line| { t := Plus(t, line[i + radius]); }
    if i - 1 - radius >= 0 { t := Minus(t, line[i - 1 - radius]); }
  }

  /** One line: a window of running sums slides along it. */
  method Slide(line: seq<Pixel>, radius: int) returns (out: seq<Pixel>)
    requires radius > 0
    ensures out == Filtered(line, radius)
  {
    out := [];
    if line == [] { return; }
    var s := FirstWindow(line, radius);
    var i := 0;
    while i < |line|
      invariant 0 <= i <= |line| && out == FilteredTo(line, radius, i)
      invariant i < |line| ==> s == Sum(line, Low(i, radius), High(|line|, i, radius))
    {
      var next := i + 1;
      var p := Average(s);
      out := out + [p];
      if next < |line| { s := NextWindow(line, radius, next, s); }
      i := next;
    }
  }

  // ---------------------------------------------------------------- rectangles

  /** A rectangle cut to the screen. */
  datatype Rect = Rect(x: int, y: int, w: int, h: int)

  function Clipped(r: Rect, width: int, height: int): Rect {
    var x, w := if r.x < 0 then 0 else r.x, if r.x < 0 then r.w + r.x else r.w;
    var y, h := if r.y < 0 then 0 else r.y, if r.y < 0 then r.h + r.y else r.h;
    Rect(x, y, if x + w > width then width - x else w, if y + h > height then height - y else h)
  }

  predicate Inside(c: Rect, row: int, col: int) { c.y <= row < c.y + c.h && c.x <= col < c.x + c.w }

  /** The clipped rectangle is exactly the part of the rectangle that is on the screen. */
  lemma ClippedMeaning(r: Rect, width: nat, height: nat, row: int, col: int)
    requires Clipped(r, width, height).w > 0 && Clipped(r, width, height).h > 0
    ensures Inside(Clipped(r, width, height), row, col) <==>
            Inside(r, row, col) && 0 <= row < height && 0 <= col < width
  {}

  type Image = seq<seq<Pixel>>

  predicate Sized(img: Image, height: nat, width: nat) {
    |img| == height && forall i :: 0 <= i < |img| ==> |img[i]| == width
  }

  ghost function Shot(a: array2<Pixel>): (img: Image)
    reads a
    ensures Sized(img, a.Length0, a.Length1)
    ensures forall i, j :: 0 <= i < a.Length0 && 0 <= j < a.Length1 ==> img[i][j] == a[i, j]
  {
    seq(a.Length0,
        i requires 0 <= i < a.Length0 reads a => seq(a.Length1, j requires 0 <= j < a.Length1 reads a => a[i, j]))
  }

  predicate OnScreen(c: Rect, height: nat, width: nat) {
    0 <= c.x && 0 <= c.y && c.w > 0 && c.h > 0 && c.x + c.w <= width && c.y + c.h <= height
  }

  /** The image after every row of the rectangle has been filtered. */
  ghost function RowsBlurred(img: Image, c: Rect, radius: int, width: nat): (r: Image)
    requires radius > 0 && Sized(img, |img|, width) && OnScreen(c, |img|, width)
    ensures Sized(r, |img|, width)
  {
    seq(|img|, i requires 0 <= i < |img| => RowPixels(img, c, radius, width, i))
  }

  ghost function RowPixels(img: Image, c: Rect, radius: int, width: nat, i: int): (r: seq<Pixel>)
    requires radius > 0 && Sized(img, |img|, width) && OnScreen(c, |img|, width) && 0 <= i < |img|
    ensures |r| == width
  {
    if c.y <= i < c.y + c.h then img[i][..c.x] + Filtered(img[i][c.x..c.x + c.w], radius) + img[i][c.x + c.w..]
    else img[i]
  }

  /** Column `j` of the rectangle. */
  ghost function Column(img: Image, c: Rect, width: nat, j: int): (r: seq<Pixel>)
    requires Sized(img, |img|, width) && OnScreen(c, |img|, width) && 0 <= j < width
    ensures |r| == c.h
  {
    seq(c.h, k requires 0 <= k < c.h => img[c.y + k][j])
  }

  ghost function ColumnPixel(img: Image, c: Rect, radius: int, width: nat, i: int, j: int): Pixel
    requires radius > 0 && Sized(img, |img|, width) && OnScreen(c, |img|, width) && 0 <= i < |img| && 0 <= j < width
  {
    if Inside(c, i, j) then Filtered(Column(img, c, width, j), radius)[i - c.y] else img[i][j]
  }

  // The row pass: filter each row of the rectangle and write it back.
  method RowPass(a: array2<Pixel>, c: Rect, radius: int)
    requires radius > 0 && OnScreen(c, a.Length0, a.Length1)
    modifies a
    ensures Shot(a) == RowsBlurred(old(Shot(a)), c, radius, a.Length1)
  {
    ghost var img := Shot(a);
    var row := 0;
    while row < c.h
      invariant 0 <= row <= c.h
      invariant forall i, j :: 0 <= i < a.Length0 && 0 <= j < a.Length1 ==>
                  a[i, j] == if i < c.y + row then RowsBlurred(img, c, radius, a.Length1)[i][j] else img[i][j]
    {
      OneRow(a, c, radius, c.y + row, img);
      row := row + 1;
    }
    SameImage(Shot(a), RowsBlurred(img, c, radius, a.Length1), a.Length0, a.Length1);
  }

  lemma SameImage(p: Image, q: Image, height: nat, width: nat)
    requires Sized(p, height, width) && Sized(q, height, width)
    requires forall i, j :: 0 <= i < height && 0 <= j < width ==> p[i][j] == q[i][j]
    ensures p == q
  {
    forall i | 0 <= i < height ensures p[i] == q[i] {}
  }

  // Filter one row of the rectangle in place.
  method OneRow(a: array2<Pixel>, c: Rect, radius: int, row: int, ghost img: Image)
    requires radius > 0 && OnScreen(c, a.Length0, a.Length1) && c.y <= row < c.y + c.h
             && Sized(img, a.Length0, a.Length1)
    requires forall j :: 0 <= j < a.Length1 ==> a[row, j] == img[row][j]
    modifies a
    ensures forall i, j :: 0 <= i < a.Length0 && 0 <= j < a.Length1 ==>
              a[i, j] == if i == row then RowPixels(img, c, radius, a.Length1, row)[j] else old(a[i, j])
  {
    var line := ReadRow(a, c, row, img);
    var scratch := Slide(line, radius);
    RowPixelAt(img, c, radius, a.Length1, row, scratch);
    WriteRow(a, row, c.x, scratch);
  }

  // The pixels of a row inside the rectangle.
  method ReadRow(a: array2<Pixel>, c: Rect, row: int, ghost img: Image) returns (line: seq<Pixel>)
    requires OnScreen(c, a.Length0, a.Length1) && c.y <= row < c.y + c.h && Sized(img, a.Length0, a.Length1)
    requires forall j :: 0 <= j < a.Length1 ==> a[row, j] == img[row][j]
    ensures line == img[row][c.x..c.x + c.w]
  {
    line := seq(c.w, k requires 0 <= k < c.w reads a => a[row, c.x + k]);
  }

  // The pixels of a column inside the rectangle.
  method ReadColumn(a: array2<Pixel>, c: Rect, col: int, ghost img: Image) returns (line: seq<Pixel>)
    requires OnScreen(c, a.Length0, a.Length1) && c.x <= col < c.x + c.w && Sized(img, a.Length0, a.Length1)
    requires forall i :: 0 <= i < a.Length0 ==> a[i, col] == img[i][col]
    ensures line == Column(img, c, a.Length1, col)
  {
    line := seq(c.h, k requires 0 <= k < c.h reads a => a[c.y + k, col]);
  }

  lemma RowPixelAt(img: Image, c: Rect, radius: int, width: nat, row: int, scratch: seq<Pixel>)
    requires radius > 0 && Sized(img, |img|, width) && OnScreen(c, |img|, width) && c.y <= row < c.y + c.h
    requires scratch == Filtered(img[row][c.x..c.x + c.w], radius)
    ensures |scratch| == c.w
    ensures forall j :: 0 <= j < width ==>
              RowPixels(img, c, radius, width, row)[j] == if c.x <= j < c.x + c.w then scratch[j - c.x] else img[row][j]
  {}

  // Write a run of pixels into one row.
  method WriteRow(a: array2<Pixel>, row: int, x: int, data: seq<Pixel>)
    requires 0 <= row < a.Length0 && 0 <= x && x + |data| <= a.Length1
    modifies a
    ensures forall i, j :: 0 <= i < a.Length0 && 0 <= j < a.Length1 ==>
              a[i, j] == if i == row && x <= j < x + |data| then data[j - x] else old(a[i, j])
  {
    for col := 0 to |data|
      invariant forall i, j :: 0 <= i < a.Length0 && 0 <= j < a.Length1 ==>
                  a[i, j] == if i == row && x <= j < x + col then data[j - x] else old(a[i, j])
    {
      a[row, x + col] := data[col];
    }
  }

  // Filter one column of the rectangle in place.
  method OneColumn(a: array2<Pixel>, c: Rect, radius: int, col: int, ghost img: Image)
    requires radius > 0 && OnScreen(c, a.Length0, a.Length1) && c.x <= col < c.x + c.w
             && Sized(img, a.Length0, a.Length1)
    requires forall i :: 0 <= i < a.Length0 ==> a[i, col] == img[i][col]
    modifies a
    ensures forall i, j :: 0 <= i < a.Length0 && 0 <= j < a.Length1 ==>
              a[i, j] == if j == col then ColumnPixel(img, c, radius, a.Length1, i, col) else old(a[i, j])
  {
    var scratch := ReadColumn(a, c, col, img);
    var out := Slide(scratch, radius);
    ColumnPixelAt(img, c, radius, a.Length1, col, out);
    WriteColumn(a, col, c.y, out);
  }

  lemma ColumnPixelAt(img: Image, c: Rect, radius: int, width: nat, col: int, out: seq<Pixel>)
    requires radius > 0 && Sized(img, |img|, width) && OnScreen(c, |img|, width) && c.x <= col < c.x + c.w
    requires out == Filtered(Column(img, c, width, col), radius)
    ensures |out| == c.h
    ensures forall i :: 0 <= i < |img| ==>
              ColumnPixel(img, c, radius, width, i, col) == if c.y <= i < c.y + c.h then out[i - c.y] else img[i][col]
  {}

  // Write a run of pixels into one column.
  method WriteColumn(a: array2<Pixel>, col: int, y: int, data: seq<Pixel>)
    requires 0 <= col < a.Length1 && 0 <= y && y + |data| <= a.Length0
    modifies a
    ensures forall i, j :: 0 <= i < a.Length0 && 0 <= j < a.Length1 ==>
              a[i, j] == if j == col && y <= i < y + |data| then data[i - y] else old(a[i, j])
  {
    for row := 0 to |data|
      invariant forall i, j :: 0 <= i < a.Length0 && 0 <= j < a.Length1 ==>
                  a[i, j] == if j == col && y <= i < y + row then data[i - y] else old(a[i, j])
    {
      a[y + row, col] := data[row];
    }
  }

  // The column pass.
  method ColumnPass(a: array2<Pixel>, c: Rect, radius: int)
    requires radius > 0 && OnScreen(c, a.Length0, a.Length1)
    modifies a
    ensures forall i, j :: 0 <= i < a.Length0 && 0 <= j < a.Length1 ==>
              a[i, j] == ColumnPixel(old(Shot(a)), c, radius, a.Length1, i, j)
  {
    ghost var img := Shot(a);
    var col := 0;
    while col < c.w
      invariant 0 <= col <= c.w
      invariant forall i, j :: 0 <= i < a.Length0 && 0 <= j < a.Length1 ==>
                  a[i, j] == if j < c.x + col then ColumnPixel(img, c, radius, a.Length1, i, j) else img[i][j]
    {
      OneColumn(a, c, radius, c.x + col, img);
      col := col + 1;
    }
  }

  /** blur_rect_buf: inside the clipped rectangle every pixel becomes the plain column filter of the plain row filter of
      the old image; outside it, and when the request is refused, nothing changes. */
  method BlurRect(a: array2<Pixel>, glass: bool, r: Rect, radius: int)
    modifies a
    ensures var c := Clipped(r, a.Length1, a.Length0);
            var img := old(Shot(a));
            forall i, j :: 0 <= i < a.Length0 && 0 <= j < a.Length1 ==>
              a[i, j] == if glass && radius > 0 && 0 < c.w <= MAX_WIDTH && 0 < c.h <= MAX_HEIGHT
                         then ColumnPixel(RowsBlurred(img, c, radius, a.Length1), c, radius, a.Length1, i, j)
                         else img[i][j]
  {
    if !glass || radius <= 0 { return; }
    var c := Clipped(r, a.Length1, a.Length0);
    if c.w <= 0 || c.h <= 0 || c.w > MAX_WIDTH || c.h > MAX_HEIGHT { return; }
    RowPass(a, c, radius);
    ColumnPass(a, c, radius);
  }

  /** Outside the clipped rectangle the two passes change nothing. */
  lemma OutsideSame(img: Image, c: Rect, radius: int, width: nat, i: int, j: int)
    requires radius > 0 && Sized(img, |img|, width) && OnScreen(c, |img|, width) && 0 <= i < |img| && 0 <= j < width
             && !Inside(c, i, j)
    ensures ColumnPixel(RowsBlurred(img, c, radius, width), c, radius, width, i, j) == img[i][j]
  {
    assert RowsBlurred(img, c, radius, width)[i] == RowPixels(img, c, radius, width, i);
  }

  /** A pixel of the rectangle after the row pass. */
  lemma RowBlurred(img: Image, c: Rect, radius: int, width: nat, i: int, j: int)
    requires radius > 0 && Sized(img, |img|, width) && OnScreen(c, |img|, width) && Inside(c, i, j)
    ensures RowsBlurred(img, c, radius, width)[i][j] == Box(img[i][c.x..c.x + c.w], j - c.x, radius)
  {
    var line := img[i][c.x..c.x + c.w];
    RowPixelAt(img, c, radius, width, i, Filtered(line, radius));
    FilteredAt(line, radius, c.w, j - c.x);
  }

  /** For each row of the rectangle the mean of the old image over the window around column `j`. */
  ghost function RowMeans(img: Image, c: Rect, radius: int, width: nat, j: int): (means: seq<Pixel>)
    requires radius > 0 && Sized(img, |img|, width) && OnScreen(c, |img|, width) && c.x <= j < c.x + c.w
    ensures |means| == c.h
  {
    seq(c.h, k requires 0 <= k < c.h => Box(img[c.y + k][c.x..c.x + c.w], j - c.x, radius))
  }

  lemma ColumnOfMeans(img: Image, c: Rect, radius: int, width: nat, j: int)
    requires radius > 0 && Sized(img, |img|, width) && OnScreen(c, |img|, width) && c.x <= j < c.x + c.w
    ensures Column(RowsBlurred(img, c, radius, width), c, width, j) == RowMeans(img, c, radius, width, j)
  {
    var rows := RowsBlurred(img, c, radius, width);
    forall k | 0 <= k < c.h ensures Column(rows, c, width, j)[k] == RowMeans(img, c, radius, width, j)[k] {
      RowBlurred(img, c, radius, width, c.y + k, j);
    }
  }

  /** What a pixel of the rectangle becomes, without reference to the passes: the mean, over the window around its row,
      of the means of the old image over the window around its column; windows end at the edges of the rectangle. */
  lemma BlurredPixel(img: Image, c: Rect, radius: int, width: nat, i: int, j: int)
    requires radius > 0 && Sized(img, |img|, width) && OnScreen(c, |img|, width) && Inside(c, i, j)
    ensures ColumnPixel(RowsBlurred(img, c, radius, width), c, radius, width, i, j)
            == Box(RowMeans(img, c, radius, width, j), i - c.y, radius)
  {
    ColumnOfMeans(img, c, radius, width, j);
    FilteredAt(RowMeans(img, c, radius, width, j), radius, c.h, i - c.y);
  }
}
