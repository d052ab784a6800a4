/** The area filter that scales decoded images down, and the size an image is scaled to. */
module AreaScale {
  import opened Basics
  import opened Arithmetic
  import opened AreaWeights
  import opened Words

  const IMAGE_MAX_PIXELS: nat := 1024 * 1024

  datatype Pixel = Pixel(alpha: Byte, red: Byte, green: Byte, blue: Byte)

  /** An ARGB8888 image, or an A8 mask, whose pixels have no colour. */
  datatype Image = Image(width: nat, height: nat, mask: bool, rows: seq<seq<Pixel>>) {
    ghost predicate Valid() {
      && |rows| == height
      && (forall y :: 0 <= y < height ==> |rows[y]| == width)
      && (mask ==> forall y, x :: 0 <= y < height && 0 <= x < width ==> Colourless(rows[y][x]))
    }
  }

  predicate Colourless(p: Pixel) { p.red == p.green == p.blue == 0 }

  /** What is summed up: the area itself, the alpha, and the colours premultiplied with it. */
  datatype Channel = Area | Alpha | Red | Green | Blue

  predicate IsColour(c: Channel) { c == Red || c == Green || c == Blue }

  function Part(p: Pixel, c: Channel): nat {
    match c
    case Area => 1
    case Alpha => p.alpha
    case Red => p.alpha * p.red
    case Green => p.alpha * p.green
    case Blue => p.alpha * p.blue
  }

  // ---- The sums over the whole image, of which the loops visit a part

  function Parts(row: seq<Pixel>, c: Channel): (r: seq<nat>)
    ensures |r| == |row| && forall x :: 0 <= x < |row| ==> r[x] == Part(row[x], c)
  {
    seq(|row|, x requires 0 <= x < |row| => Part(row[x], c))
  }

  /** Each row's weighted sum. */
  function RowSums(image: Image, c: Channel, across: Span): (r: seq<nat>)
    requires image.Valid()
    ensures |r| == image.height
    ensures forall y :: 0 <= y < image.height ==> r[y] == Dot(across, Parts(image.rows[y], c), image.width)
  {
    seq(image.height, y requires 0 <= y < image.height => Dot(across, Parts(image.rows[y], c), image.width))
  }

  function Across(image: Image, width: nat, x: nat): Span { Span(image.width, width, x) }
  function Down(image: Image, height: nat, y: nat): Span { Span(image.height, height, y) }

  /** The sum of one channel for one scaled pixel, over every source pixel. */
  function Sum(image: Image, c: Channel, across: Span, down: Span): nat
    requires image.Valid()
  {
    Dot(down, RowSums(image, c, across), image.height)
  }

  /** Rounded to the nearest value; 0 without weight. */
  function Average(sum: nat, divisor: nat): nat {
    if divisor == 0 then 0 else (2 * sum + divisor) / (2 * divisor)
  }

  function ScaledPixel(image: Image, across: Span, down: Span): Pixel
    requires image.Valid() && Fits(image, across, down)
  {
    var alpha := Sum(image, Alpha, across, down);
    SumsAreBounded(image, across, down);
    assert IsColour(Red) && IsColour(Green) && IsColour(Blue);
    Pixel(Average(alpha, image.width * image.height), Average(Sum(image, Red, across, down), alpha),
          Average(Sum(image, Green, across, down), alpha), Average(Sum(image, Blue, across, down), alpha))
  }

  // ---- Facts about the sums

  predicate Fits(image: Image, across: Span, down: Span) {
    across.Valid() && down.Valid() && across.source == image.width && down.source == image.height
  }

  /** A scaled pixel covers a source pixel. */
  predicate Covers(across: Span, down: Span, x: nat, y: nat) {
    Weight(across, x) > 0 && Weight(down, y) > 0
  }

  /** Two channels that are in proportion in every covered pixel are in proportion in the sums. */
  lemma Proportion(image: Image, c: Channel, d: Channel, lo: nat, hi: nat, across: Span, down: Span)
    requires image.Valid()
    requires forall y, x :: 0 <= y < image.height && 0 <= x < image.width && Covers(across, down, x, y) ==>
      lo * Part(image.rows[y][x], d) <= Part(image.rows[y][x], c) <= hi * Part(image.rows[y][x], d)
    ensures lo * Sum(image, d, across, down) <= Sum(image, c, across, down) <= hi * Sum(image, d, across, down)
  {
    var v, base := RowSums(image, c, across), RowSums(image, d, across);
    forall y | 0 <= y < image.height && Weight(down, y) > 0 ensures lo * base[y] <= v[y] <= hi * base[y] {
      var row := image.rows[y];
      forall x | 0 <= x < image.width && Weight(across, x) > 0
        ensures lo * Parts(row, d)[x] <= Parts(row, c)[x] <= hi * Parts(row, d)[x]
      {
        assert Covers(across, down, x, y);
      }
      DotProportion(across, Parts(row, c), Parts(row, d), lo, hi, image.width);
    }
    DotProportion(down, v, base, lo, hi, image.height);
  }

  /** The weights of one scaled pixel make up the area of the source image. */
  lemma WeightsMakeUpTheArea(image: Image, across: Span, down: Span)
    requires image.Valid() && Fits(image, across, down)
    ensures Sum(image, Area, across, down) == image.width * image.height
  {
    WeightsSum(across);
    WeightsSum(down);
    forall y | 0 <= y < image.height ensures RowSums(image, Area, across)[y] == image.width {
      DotOfConstant(across, Parts(image.rows[y], Area), 1, image.width);
    }
    DotOfConstant(down, RowSums(image, Area, across), image.width, image.height);
  }

  lemma AverageIsBounded(sum: nat, divisor: nat, lo: nat, hi: nat)
    requires lo * divisor <= sum <= hi * divisor && divisor > 0
    ensures lo <= Average(sum, divisor) <= hi
  {
    Doubled(lo, divisor);
    Doubled(hi, divisor);
    QuotientBetween(2 * sum + divisor, 2 * divisor, lo, hi);
  }

  lemma Doubled(a: nat, b: nat)
    ensures a * (2 * b) == 2 * (a * b)
  {
  }

  lemma ColourIsBounded(image: Image, c: Channel, across: Span, down: Span)
    requires image.Valid() && IsColour(c)
    ensures Sum(image, c, across, down) <= 255 * Sum(image, Alpha, across, down)
    ensures Average(Sum(image, c, across, down), Sum(image, Alpha, across, down)) <= 255
    ensures image.mask ==> Sum(image, c, across, down) == 0
  {
    forall p: Pixel ensures Part(p, c) <= 255 * Part(p, Alpha) {
      MulMonotone(if c == Red then p.red else if c == Green then p.green else p.blue, 255, p.alpha);
    }
    Proportion(image, c, Alpha, 0, 255, across, down);
    if Sum(image, Alpha, across, down) > 0 {
      AverageIsBounded(Sum(image, c, across, down), Sum(image, Alpha, across, down), 0, 255);
    }
    if image.mask { Proportion(image, c, Alpha, 0, 0, across, down); }
  }

  /** No sum exceeds what its largest values allow, so every average is a channel value. */
  lemma SumsAreBounded(image: Image, across: Span, down: Span)
    requires image.Valid() && Fits(image, across, down)
    ensures Sum(image, Alpha, across, down) <= 255 * (image.width * image.height)
    ensures Average(Sum(image, Alpha, across, down), image.width * image.height) <= 255
    ensures forall c :: IsColour(c) ==>
      && Sum(image, c, across, down) <= 255 * Sum(image, Alpha, across, down)
      && Average(Sum(image, c, across, down), Sum(image, Alpha, across, down)) <= 255
  {
    WeightsMakeUpTheArea(image, across, down);
    Proportion(image, Alpha, Area, 0, 255, across, down);
    if image.width * image.height > 0 {
      AverageIsBounded(Sum(image, Alpha, across, down), image.width * image.height, 0, 255);
    }
    forall c | IsColour(c)
      ensures Sum(image, c, across, down) <= 255 * Sum(image, Alpha, across, down)
      ensures Average(Sum(image, c, across, down), Sum(image, Alpha, across, down)) <= 255
    {
      ColourIsBounded(image, c, across, down);
    }
  }

  /** For an image of the largest size no sum leaves 64 bits, and both operands of a quotient stay below 2^53. */
  lemma SumsFit(image: Image, c: Channel, across: Span, down: Span)
    requires image.Valid() && Fits(image, across, down) && image.width * image.height <= IMAGE_MAX_PIXELS
    ensures Sum(image, c, across, down) < 0x20_0000_0000_0000 < WORD64
  {
    SumsAreBounded(image, across, down);
    WeightsMakeUpTheArea(image, across, down);
  }

  // ---- What the filter means

  function ColourOf(p: Pixel, c: Channel): Byte
    requires IsColour(c)
  {
    if c == Red then p.red else if c == Green then p.green else p.blue
  }

  predicate Visible(image: Image, across: Span, down: Span, x: nat, y: nat)
    requires image.Valid() && x < image.width && y < image.height
  {
    Covers(across, down, x, y) && image.rows[y][x].alpha > 0
  }

  /** A scaled pixel's alpha lies between the alphas of the pixels it covers. */
  lemma AlphaIsAMean(image: Image, across: Span, down: Span, lo: Byte, hi: Byte)
    requires image.Valid() && Fits(image, across, down) && image.width * image.height > 0
    requires forall y, x :: 0 <= y < image.height && 0 <= x < image.width && Covers(across, down, x, y) ==>
      lo <= image.rows[y][x].alpha <= hi
    ensures lo <= ScaledPixel(image, across, down).alpha <= hi
  {
    WeightsMakeUpTheArea(image, across, down);
    Proportion(image, Alpha, Area, lo, hi, across, down);
    AverageIsBounded(Sum(image, Alpha, across, down), image.width * image.height, lo, hi);
  }

  /** Its colour lies between the colours of the visible pixels it covers. */
  lemma ColourIsAMean(image: Image, across: Span, down: Span, lo: Byte, hi: Byte, c: Channel)
    requires image.Valid() && Fits(image, across, down) && IsColour(c)
    requires Sum(image, Alpha, across, down) > 0
    requires forall y, x :: 0 <= y < image.height && 0 <= x < image.width && Visible(image, across, down, x, y) ==>
      lo <= ColourOf(image.rows[y][x], c) <= hi
    ensures lo <= ColourOf(ScaledPixel(image, across, down), c) <= hi
  {
    forall y, x | 0 <= y < image.height && 0 <= x < image.width && Covers(across, down, x, y)
      ensures lo * Part(image.rows[y][x], Alpha) <= Part(image.rows[y][x], c) <= hi * Part(image.rows[y][x], Alpha)
    {
      var p := image.rows[y][x];
      assert p.alpha > 0 ==> Visible(image, across, down, x, y);
      PremultipliedIsBetween(p, c, lo, hi);
    }
    Proportion(image, c, Alpha, lo, hi, across, down);
    AverageIsBounded(Sum(image, c, across, down), Sum(image, Alpha, across, down), lo, hi);
  }

  lemma PremultipliedIsBetween(p: Pixel, c: Channel, lo: Byte, hi: Byte)
    requires IsColour(c) && (p.alpha > 0 ==> lo <= ColourOf(p, c) <= hi)
    ensures lo * Part(p, Alpha) <= Part(p, c) <= hi * Part(p, Alpha)
  {
    if p.alpha > 0 {
      MulMonotone(lo, ColourOf(p, c), p.alpha);
      MulMonotone(ColourOf(p, c), hi, p.alpha);
    }
  }

  /** Pixels that agree in alpha, and in colour unless they are transparent, or are not covered. */
  predicate LooksAlike(p: Pixel, q: Pixel) {
    p.alpha == q.alpha && (p.alpha > 0 ==> p == q)
  }

  /** Neither a transparent pixel's colour nor anything that is not covered changes the result. */
  lemma TransparentAddsNoColour(image: Image, other: Image, across: Span, down: Span)
    requires image.Valid() && other.Valid() && Fits(image, across, down) && Fits(other, across, down)
    requires forall y, x :: 0 <= y < image.height && 0 <= x < image.width && Covers(across, down, x, y) ==>
      LooksAlike(image.rows[y][x], other.rows[y][x])
    ensures ScaledPixel(image, across, down) == ScaledPixel(other, across, down)
  {
    forall c: Channel ensures Sum(image, c, across, down) == Sum(other, c, across, down) {
      SumsAgree(image, other, c, across, down);
    }
  }

  lemma SumsAgree(image: Image, other: Image, c: Channel, across: Span, down: Span)
    requires image.Valid() && other.Valid() && Fits(image, across, down) && Fits(other, across, down)
    requires forall y, x :: 0 <= y < image.height && 0 <= x < image.width && Covers(across, down, x, y) ==>
      LooksAlike(image.rows[y][x], other.rows[y][x])
    ensures Sum(image, c, across, down) == Sum(other, c, across, down)
  {
    var v, w := RowSums(image, c, across), RowSums(other, c, across);
    forall y | 0 <= y < image.height ensures Weight(down, y) == 0 || v[y] == w[y] {
      if Weight(down, y) > 0 {
        var a, b := Parts(image.rows[y], c), Parts(other.rows[y], c);
        forall x | 0 <= x < image.width ensures Weight(across, x) == 0 || a[x] == b[x] {
          assert Weight(across, x) > 0 ==> Covers(across, down, x, y);
        }
        DotAgrees(across, a, b, image.width);
      }
    }
    DotAgrees(down, v, w, image.height);
  }

  /** An image of one visible colour keeps it, whatever size it is scaled to. */
  lemma ConstantStaysConstant(image: Image, p: Pixel, across: Span, down: Span)
    requires image.Valid() && Fits(image, across, down) && image.width * image.height > 0
    requires forall y, x :: 0 <= y < image.height && 0 <= x < image.width ==> image.rows[y][x] == p
    ensures ScaledPixel(image, across, down) == if p.alpha > 0 then p else Pixel(0, 0, 0, 0)
  {
    WeightsMakeUpTheArea(image, across, down);
    AlphaIsAMean(image, across, down, p.alpha, p.alpha);
    Proportion(image, Alpha, Area, p.alpha, p.alpha, across, down);
    if p.alpha > 0 {
      MulMonotone(1, p.alpha, image.width * image.height);
      ColourIsAMean(image, across, down, p.red, p.red, Red);
      ColourIsAMean(image, across, down, p.green, p.green, Green);
      ColourIsAMean(image, across, down, p.blue, p.blue, Blue);
    } else {
      assert Sum(image, Alpha, across, down) == 0;
    }
  }

  // ---- Conservation over the whole result

  /** One channel's sums in all scaled pixels of one column of the result. */
  function ColumnTotal(image: Image, c: Channel, across: Span, height: nat): nat
    requires image.Valid()
  {
    SumTo(Scaled(RowSums(image, c, across), height), height)
  }

  function ResultTotal(image: Image, c: Channel, width: nat, height: nat, n: nat): nat
    requires image.Valid()
  {
    if n == 0 then 0
    else ResultTotal(image, c, width, height, n - 1) + ColumnTotal(image, c, Across(image, width, n - 1), height)
  }

  /** One channel's sum over the source image. */
  function SourceTotal(image: Image, c: Channel, n: nat): nat
    requires image.Valid() && n <= image.height
  {
    if n == 0 then 0 else SourceTotal(image, c, n - 1) + SumTo(Parts(image.rows[n - 1], c), image.width)
  }

  /** The first scaled pixels of one source row. */
  function RowTotal(image: Image, c: Channel, width: nat, n: nat, y: nat): nat
    requires image.Valid() && y < image.height && n <= width
  {
    SumTo(Scaled(Parts(image.rows[y], c), width), n)
  }

  function RowsTotal(image: Image, c: Channel, width: nat, n: nat, m: nat): nat
    requires image.Valid() && m <= image.height && n <= width
  {
    if m == 0 then 0 else RowsTotal(image, c, width, n, m - 1) + RowTotal(image, c, width, n, m - 1)
  }

  lemma {:induction false} RowsTotalGrows(image: Image, c: Channel, width: nat, n: nat, m: nat)
    requires image.Valid() && m <= image.height && n < width
    ensures RowsTotal(image, c, width, n + 1, m)
      == RowsTotal(image, c, width, n, m) + SumTo(RowSums(image, c, Across(image, width, n)), m)
  {
    if m > 0 { RowsTotalGrows(image, c, width, n, m - 1); }
  }

  lemma {:induction false} NoColumns(image: Image, c: Channel, width: nat, m: nat)
    requires image.Valid() && m <= image.height
    ensures RowsTotal(image, c, width, 0, m) == 0
  {
    if m > 0 { NoColumns(image, c, width, m - 1); }
  }

  lemma ColumnIsConserved(image: Image, c: Channel, across: Span, height: nat)
    requires image.Valid()
    ensures ColumnTotal(image, c, across, height) == height * SumTo(RowSums(image, c, across), image.height)
  {
    ScaledIsConserved(RowSums(image, c, across), height);
  }

  lemma OneMoreColumn(image: Image, c: Channel, width: nat, height: nat, n: nat, before: nat, after: nat)
    requires image.Valid() && ResultTotal(image, c, width, height, n) == height * before
    requires after == before + SumTo(RowSums(image, c, Across(image, width, n)), image.height)
    ensures ResultTotal(image, c, width, height, n + 1) == height * after
  {
    ColumnIsConserved(image, c, Across(image, width, n), height);
    AddTimes(height, before, SumTo(RowSums(image, c, Across(image, width, n)), image.height));
  }

  lemma {:induction false} ResultTotalByRows(image: Image, c: Channel, width: nat, height: nat, n: nat)
    requires image.Valid() && n <= width
    ensures ResultTotal(image, c, width, height, n) == height * RowsTotal(image, c, width, n, image.height)
  {
    if n == 0 {
      NoColumns(image, c, width, image.height);
    } else {
      ResultTotalByRows(image, c, width, height, n - 1);
      RowsTotalGrows(image, c, width, n - 1, image.height);
      OneMoreColumn(image, c, width, height, n - 1, RowsTotal(image, c, width, n - 1, image.height),
                    RowsTotal(image, c, width, n, image.height));
    }
  }

  lemma {:induction false} RowsTotalIsConserved(image: Image, c: Channel, width: nat, m: nat)
    requires image.Valid() && m <= image.height
    ensures RowsTotal(image, c, width, width, m) == width * SourceTotal(image, c, m)
  {
    if m > 0 {
      RowsTotalIsConserved(image, c, width, m - 1);
      var v := Parts(image.rows[m - 1], c);
      ScaledIsConserved(v, width);
      AddTimes(width, SourceTotal(image, c, m - 1), SumTo(v, image.width));
    }
  }

  /** The sums of all scaled pixels make up the source's: alpha and colour are only moved. */
  lemma ScalingConservesTheTotal(image: Image, c: Channel, width: nat, height: nat)
    requires image.Valid()
    ensures ResultTotal(image, c, width, height, width) == height * (width * SourceTotal(image, c, image.height))
    ensures forall x, y :: 0 <= x < width && 0 <= y < height ==>
      Scaled(RowSums(image, c, Across(image, width, x)), height)[y]
        == Sum(image, c, Across(image, width, x), Down(image, height, y))
  {
    ResultTotalByRows(image, c, width, height, width);
    RowsTotalIsConserved(image, c, width, image.height);
  }

  // ---- The loops

  datatype Sums = Sums(alpha: nat, red: nat, green: nat, blue: nat)

  /** The sums of the rows before y and of the pixels before x of row y. */
  ghost predicate SumsAre(sums: Sums, image: Image, across: Span, down: Span, x: nat, y: nat)
    requires image.Valid() && y < image.height && x <= image.width
  {
    && sums.alpha == Upto(image, Alpha, across, down, x, y)
    && sums.red == Upto(image, Red, across, down, x, y)
    && sums.green == Upto(image, Green, across, down, x, y)
    && sums.blue == Upto(image, Blue, across, down, x, y)
  }

  function Upto(image: Image, c: Channel, across: Span, down: Span, x: nat, y: nat): nat
    requires image.Valid() && y < image.height && x <= image.width
  {
    Plus(Dot(down, RowSums(image, c, across), y), Weight(down, y), Dot(across, Parts(image.rows[y], c), x))
  }

  function Plus(before: nat, weight: nat, value: nat): nat { before + weight * value }

  lemma TimesTimes(a: nat, b: nat, c: nat, d: nat, e: nat)
    ensures a * (b + c * (d * e)) == a * b + a * c * d * e
  {
    assert a * (b + c * (d * e)) == a * b + a * (c * (d * e));
    assert a * (c * (d * e)) == (a * c) * (d * e);
    assert (a * c) * (d * e) == a * c * d * e;
  }

  lemma UptoNext(image: Image, across: Span, down: Span, x: nat, y: nat)
    requires image.Valid() && y < image.height && x < image.width
    ensures var p := image.rows[y][x];
      var covered := Weight(down, y) * Weight(across, x) * p.alpha;
      && Upto(image, Alpha, across, down, x + 1, y) == Upto(image, Alpha, across, down, x, y) + covered
      && Upto(image, Red, across, down, x + 1, y) == Upto(image, Red, across, down, x, y) + covered * p.red
      && Upto(image, Green, across, down, x + 1, y) == Upto(image, Green, across, down, x, y) + covered * p.green
      && Upto(image, Blue, across, down, x + 1, y) == Upto(image, Blue, across, down, x, y) + covered * p.blue
  {
    var p := image.rows[y][x];
    var a, b := Weight(down, y), Weight(across, x);
    TimesTimes(a, Dot(across, Parts(image.rows[y], Alpha), x), b, p.alpha, 1);
    TimesTimes(a, Dot(across, Parts(image.rows[y], Red), x), b, p.alpha, p.red);
    TimesTimes(a, Dot(across, Parts(image.rows[y], Green), x), b, p.alpha, p.green);
    TimesTimes(a, Dot(across, Parts(image.rows[y], Blue), x), b, p.alpha, p.blue);
  }

  ghost predicate RowsSummed(sums: Sums, image: Image, across: Span, down: Span, y: nat)
    requires image.Valid() && y <= image.height
  {
    && sums.alpha == Dot(down, RowSums(image, Alpha, across), y)
    && sums.red == Dot(down, RowSums(image, Red, across), y)
    && sums.green == Dot(down, RowSums(image, Green, across), y)
    && sums.blue == Dot(down, RowSums(image, Blue, across), y)
  }

  lemma FirstIsWithin(span: Span)
    requires span.Valid()
    ensures span.First() <= span.source
  {
    MulMonotone(span.at, span.scaled, span.source);
    assert span.scaled * span.source == span.source * span.scaled;
    QuotientMonotone(span.Start(), span.source * span.scaled, span.scaled);
    QuotientUnique(span.source * span.scaled, span.scaled, span.source);
  }

  lemma NothingBeforeFirst(v: seq<nat>, span: Span)
    requires span.Valid() && span.First() <= |v|
    ensures Dot(span, v, span.First()) == 0
  {
    forall k | 0 <= k < span.First() ensures Weight(span, k) == 0 { SkippedBefore(span, k); }
    DotSkips(span, v, 0, span.First());
  }

  lemma NothingAfterLast(v: seq<nat>, span: Span, n: nat)
    requires span.Valid() && span.source == |v| && n <= |v| && !span.Within(n)
    ensures Dot(span, v, |v|) == Dot(span, v, n)
  {
    forall k | n <= k < |v| ensures Weight(span, k) == 0 { SkippedAfter(span, n, k); }
    DotSkips(span, v, n, |v|);
  }

  /** A pixel added with a weight. */
  function Added(sums: Sums, weight: nat, pixel: Pixel): Sums {
    var covered := weight * pixel.alpha;
    Sums(sums.alpha + covered, sums.red + covered * pixel.red,
         sums.green + covered * pixel.green, sums.blue + covered * pixel.blue)
  }

  lemma PixelIsAdded(sums: Sums, image: Image, across: Span, down: Span, x: nat, y: nat)
    requires image.Valid() && y < image.height && x < image.width && SumsAre(sums, image, across, down, x, y)
    ensures SumsAre(Added(sums, Weight(down, y) * Weight(across, x), image.rows[y][x]), image, across, down, x + 1, y)
  {
    UptoNext(image, across, down, x, y);
  }

  lemma RowsBegin(image: Image, across: Span, down: Span)
    requires image.Valid() && Fits(image, across, down) && down.First() <= image.height
    ensures RowsSummed(Sums(0, 0, 0, 0), image, across, down, down.First())
  {
    forall c: Channel ensures Dot(down, RowSums(image, c, across), down.First()) == 0 {
      NothingBeforeFirst(RowSums(image, c, across), down);
    }
  }

  lemma RowsEnd(sums: Sums, image: Image, across: Span, down: Span, y: nat)
    requires image.Valid() && Fits(image, across, down)
    requires y <= image.height && !down.Within(y) && RowsSummed(sums, image, across, down, y)
    ensures RowsSummed(sums, image, across, down, image.height)
  {
    forall c: Channel
      ensures Dot(down, RowSums(image, c, across), y) == Dot(down, RowSums(image, c, across), image.height)
    {
      NothingAfterLast(RowSums(image, c, across), down, y);
    }
  }

  lemma RowBegins(sums: Sums, image: Image, across: Span, down: Span, y: nat)
    requires image.Valid() && Fits(image, across, down) && y < image.height
    requires across.First() <= image.width && RowsSummed(sums, image, across, down, y)
    ensures SumsAre(sums, image, across, down, across.First(), y)
  {
    forall c: Channel ensures Dot(across, Parts(image.rows[y], c), across.First()) == 0 {
      NothingBeforeFirst(Parts(image.rows[y], c), across);
    }
  }

  lemma RowEnds(sums: Sums, image: Image, across: Span, down: Span, x: nat, y: nat)
    requires image.Valid() && Fits(image, across, down) && y < image.height
    requires x <= image.width && !across.Within(x) && SumsAre(sums, image, across, down, x, y)
    ensures RowsSummed(sums, image, across, down, y + 1)
  {
    forall c: Channel
      ensures Dot(across, Parts(image.rows[y], c), x) == Dot(across, Parts(image.rows[y], c), image.width)
    {
      NothingAfterLast(Parts(image.rows[y], c), across, x);
    }
  }

  /** The visited pixels' sums for one scaled pixel are those over the whole image. */
  method SumPixel(image: Image, across: Span, down: Span) returns (sums: Sums)
    requires image.Valid() && Fits(image, across, down)
    ensures RowsSummed(sums, image, across, down, image.height)
  {
    sums := Sums(0, 0, 0, 0);
    FirstIsWithin(across);
    FirstIsWithin(down);
    var sy := down.First();
    RowsBegin(image, across, down);
    while down.Within(sy)
      decreases image.height - sy
      invariant sy <= image.height && RowsSummed(sums, image, across, down, sy)
    {
      sums := AddRow(sums, image, across, down, sy);
      sy := sy + 1;
    }
    RowsEnd(sums, image, across, down, sy);
  }

  method AddPixel(before: Sums, image: Image, across: Span, down: Span, sx: nat, sy: nat) returns (sums: Sums)
    requires image.Valid() && sy < image.height && sx < image.width && SumsAre(before, image, across, down, sx, sy)
    ensures SumsAre(sums, image, across, down, sx + 1, sy)
  {
    PixelIsAdded(before, image, across, down, sx, sy);
    sums := Added(before, Weight(down, sy) * Weight(across, sx), image.rows[sy][sx]);
  }

  method AddRow(before: Sums, image: Image, across: Span, down: Span, sy: nat) returns (sums: Sums)
    requires image.Valid() && Fits(image, across, down) && sy < image.height
    requires RowsSummed(before, image, across, down, sy)
    ensures RowsSummed(sums, image, across, down, sy + 1)
  {
    sums := before;
    FirstIsWithin(across);
    RowBegins(sums, image, across, down, sy);
    var sx := across.First();
    while across.Within(sx)
      decreases image.width - sx
      invariant sx <= image.width && SumsAre(sums, image, across, down, sx, sy)
    {
      sums := AddPixel(sums, image, across, down, sx, sy);
      sx := sx + 1;
    }
    RowEnds(sums, image, across, down, sx, sy);
  }

  /** Nothing for an empty image or size, or when no buffer is available. */
  method Scale(image: Image, width: nat, height: nat, available: bool) returns (result: array2?<Pixel>)
    requires image.Valid()
    ensures result == null <==> image.width * image.height == 0 || width == 0 || height == 0 || !available
    ensures result != null ==> result.Length0 == height && result.Length1 == width
    ensures result != null ==> forall y, x :: 0 <= y < height && 0 <= x < width ==>
      result[y, x] == ScaledPixel(image, Across(image, width, x), Down(image, height, y))
  {
    if image.width * image.height == 0 || width == 0 || height == 0 || !available { return null; }
    var pixels := new Pixel[height, width]((_, _) => Pixel(0, 0, 0, 0));
    for y := 0 to height
      invariant forall v, x :: 0 <= v < y && 0 <= x < width ==>
        pixels[v, x] == ScaledPixel(image, Across(image, width, x), Down(image, height, v))
    {
      for x := 0 to width
        invariant forall v, u :: 0 <= v < y && 0 <= u < width ==>
          pixels[v, u] == ScaledPixel(image, Across(image, width, u), Down(image, height, v))
        invariant forall u :: 0 <= u < x ==>
          pixels[y, u] == ScaledPixel(image, Across(image, width, u), Down(image, height, y))
      {
        pixels[y, x] := PixelAt(image, Across(image, width, x), Down(image, height, y));
      }
    }
    return pixels;
  }

  /** A mask has no colour to average. */
  method PixelAt(image: Image, across: Span, down: Span) returns (pixel: Pixel)
    requires image.Valid() && Fits(image, across, down)
    ensures pixel == ScaledPixel(image, across, down)
  {
    var sums := SumPixel(image, across, down);
    var total := image.width * image.height;
    SumsAreBounded(image, across, down);
    assert IsColour(Red) && IsColour(Green) && IsColour(Blue);
    if image.mask {
      NoColourToAverage(image, across, down);
      pixel := Pixel(Average(sums.alpha, total), 0, 0, 0);
    } else {
      pixel := Pixel(Average(sums.alpha, total), Average(sums.red, sums.alpha),
                     Average(sums.green, sums.alpha), Average(sums.blue, sums.alpha));
    }
  }

  lemma NoColourToAverage(image: Image, across: Span, down: Span)
    requires image.Valid() && image.mask && Fits(image, across, down)
    ensures Colourless(ScaledPixel(image, across, down))
  {
    assert IsColour(Red) && IsColour(Green) && IsColour(Blue);
    forall c | IsColour(c) ensures Average(Sum(image, c, across, down), Sum(image, Alpha, across, down)) == 0 {
      ColourIsBounded(image, c, across, down);
      if Sum(image, Alpha, across, down) > 0 {
        QuotientUnique(Sum(image, Alpha, across, down), 2 * Sum(image, Alpha, across, down), 0);
      }
    }
  }

  // ---- The size

  /** The proportional length: rounded, never nothing, never longer than it was. */
  function Proportional(other: nat, limit: nat, side: nat): nat
    requires side > 0
  {
    var result := (other * limit + side / 2) / side;
    if result < 1 then 1 else if result > other then other else result
  }

  function FitSize(image: (nat, nat), width: nat, height: nat): (nat, nat)
    requires image.0 > 0 && image.1 > 0
  {
    if image.0 <= width && image.1 <= height then image
    else if image.0 * height >= image.1 * width then (width, Proportional(image.1, width, image.0))
    else (Proportional(image.0, height, image.1), height)
  }

  /** The rounded proportional size is within half a pixel, except that it is never 0. */
  lemma ProportionalIsNearest(other: nat, limit: nat, side: nat)
    requires 0 < limit <= side && other > 0
    ensures var r := Proportional(other, limit, side);
      && 1 <= r <= other
      && (2 * (r * side) <= 2 * (other * limit) + side || r == 1)
      && 2 * (other * limit) <= 2 * (r * side) + side
  {
    var q := (other * limit + side / 2) / side;
    QuotientBounds(other * limit + side / 2, side);
    MulMonotone(limit, side, other);
    assert other * side == side * other;
    if q > other {
      MulMonotone(other + 1, q, side);
    }
  }

  /**
   * The fitted size lies in the box and is never larger than the image, so that the filter only
   * scales down; an image that does not fit takes one side of the box exactly.
   */
  lemma FitIsWithinTheBox(image: (nat, nat), width: nat, height: nat)
    requires image.0 > 0 && image.1 > 0 && width > 0 && height > 0
    ensures var fit := FitSize(image, width, height);
      && 0 < fit.0 <= width && 0 < fit.1 <= height && fit.0 <= image.0 && fit.1 <= image.1
      && (fit == image <==> image.0 <= width && image.1 <= height)
      && (fit != image ==> fit.0 == width || fit.1 == height)
  {
    var w, h := image.0, image.1;
    if !(w <= width && h <= height) {
      if w * height >= h * width {
        if w <= width {
          MulMonotone(w, width, height);
          MulLess(height, h, width);
        }
        ProportionalIsNearest(h, width, w);
        ProportionalFits(h, width, w, height);
      } else {
        if h <= height {
          MulMonotone(h, height, width);
          MulLess(width, w, height);
        }
        ProportionalIsNearest(w, height, h);
        ProportionalFits(w, height, h, width);
      }
    }
  }

  lemma ProportionalFits(other: nat, limit: nat, side: nat, most: nat)
    requires side > 0 && other * limit <= side * most && most > 0
    ensures Proportional(other, limit, side) <= most
  {
    QuotientUnique(most * side + side / 2, side, most);
    QuotientMonotone(other * limit + side / 2, most * side + side / 2, side);
  }
}
