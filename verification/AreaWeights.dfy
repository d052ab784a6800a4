/**
 * One side of an image scaled by area: how much of each source pixel one scaled pixel covers, in
 * units in which a source pixel is as long as the scaled side and a scaled pixel as long as the
 * source side.
 */
module AreaWeights {
  import opened Arithmetic

  /** The length both spans share. */
  function Overlap(start: nat, end: nat, from: nat, to: nat): nat {
    var low := Max(start, from);
    var high := Min(end, to);
    if high > low then high - low else 0
  }

  /** The scaled pixel `at` of a side that goes from `source` to `scaled` pixels. */
  datatype Span = Span(source: nat, scaled: nat, at: nat) {
    predicate Valid() { at < scaled }
    function Start(): nat { at * source }
    function End(): nat { Start() + source }
    /** The source pixels that are visited: from First() to before End(). */
    function First(): nat requires Valid() { Start() / scaled }
    predicate Within(k: nat) { k < source && k * scaled < End() }
  }

  function Weight(span: Span, k: nat): nat {
    Overlap(span.Start(), span.End(), k * span.scaled, (k + 1) * span.scaled)
  }

  /** The weights of the source pixels before n. */
  function Weights(span: Span, n: nat): nat {
    if n == 0 then 0 else Weights(span, n - 1) + Weight(span, n - 1)
  }

  lemma OverlapAdds(start: nat, end: nat, from: nat, middle: nat, to: nat)
    requires from <= middle <= to
    ensures Overlap(start, end, from, to) == Overlap(start, end, from, middle) + Overlap(start, end, middle, to)
  {
  }

  lemma {:induction false} WeightsAreAnOverlap(span: Span, n: nat)
    ensures Weights(span, n) == Overlap(span.Start(), span.End(), 0, n * span.scaled)
  {
    if n > 0 {
      WeightsAreAnOverlap(span, n - 1);
      assert n * span.scaled == (n - 1) * span.scaled + span.scaled;
      OverlapAdds(span.Start(), span.End(), 0, (n - 1) * span.scaled, n * span.scaled);
    }
  }

  /** The weights of one scaled pixel make up the source side: its coverage is complete. */
  lemma WeightsSum(span: Span)
    requires span.Valid()
    ensures Weights(span, span.source) == span.source
  {
    WeightsAreAnOverlap(span, span.source);
    LastEndsAtTheEnd(span.at, span.scaled, span.source);
  }

  lemma LastEndsAtTheEnd(at: nat, count: nat, length: nat)
    requires at < count
    ensures at * length + length <= length * count
  {
    MulMonotone(at + 1, count, length);
    assert (at + 1) * length == at * length + length;
  }

  /** A source pixel before the first visited one has no overlap. */
  lemma SkippedBefore(span: Span, k: nat)
    requires span.Valid() && k < span.First()
    ensures Weight(span, k) == 0
  {
    var q := span.First();
    QuotientBounds(span.Start(), span.scaled);
    MulMonotone(k + 1, q, span.scaled);
  }

  /** A source pixel at which the visit ends, or a later one, has no overlap. */
  lemma SkippedAfter(span: Span, end: nat, k: nat)
    requires span.Valid() && end <= k && end * span.scaled >= span.End()
    ensures Weight(span, k) == 0
  {
    MulMonotone(end, k, span.scaled);
  }

  /** Every visited source pixel is covered: none is visited in vain. */
  lemma VisitedOverlaps(span: Span, k: nat)
    requires span.Valid() && span.source > 0 && span.First() <= k && span.Within(k)
    ensures Weight(span, k) > 0
  {
    QuotientBounds(span.Start(), span.scaled);
    MulMonotone(span.First() + 1, k + 1, span.scaled);
    assert (k + 1) * span.scaled == k * span.scaled + span.scaled;
  }

  /** One source pixel's weights in the scaled pixels before n. */
  function Spread(source: nat, scaled: nat, k: nat, n: nat): nat {
    if n == 0 then 0 else Spread(source, scaled, k, n - 1) + Weight(Span(source, scaled, n - 1), k)
  }

  lemma {:induction false} SpreadIsAnOverlap(source: nat, scaled: nat, k: nat, n: nat, end: nat)
    requires end == n * source
    ensures Spread(source, scaled, k, n) == Overlap(k * scaled, (k + 1) * scaled, 0, end)
  {
    if n > 0 {
      var start := (n - 1) * source;
      OneLess(n, source);
      SpreadIsAnOverlap(source, scaled, k, n - 1, start);
      WeightIsOf(Span(source, scaled, n - 1), k, start);
      OverlapOfTheNext(k * scaled, (k + 1) * scaled, start, source);
    }
  }

  lemma OneLess(n: nat, source: nat)
    requires n > 0
    ensures (n - 1) * source + source == n * source
  {
  }

  lemma WeightIsOf(span: Span, k: nat, start: nat)
    requires start == span.at * span.source
    ensures Weight(span, k) == Overlap(start, start + span.source, k * span.scaled, (k + 1) * span.scaled)
  {
  }

  lemma OverlapOfTheNext(lo: nat, hi: nat, start: nat, length: nat)
    ensures Overlap(lo, hi, 0, start) + Overlap(start, start + length, lo, hi) == Overlap(lo, hi, 0, start + length)
  {
  }

  /** A source pixel's weights over all scaled pixels make up the scaled side: nothing is lost. */
  lemma SpreadSums(source: nat, scaled: nat, k: nat)
    requires k < source
    ensures Spread(source, scaled, k, scaled) == scaled
  {
    SpreadIsAnOverlap(source, scaled, k, scaled, scaled * source);
    MulMonotone(k + 1, source, scaled);
    assert (k + 1) * scaled == k * scaled + scaled;
    assert scaled * source == source * scaled;
  }

  // ---- Weighted sums of one value for each source pixel

  function Dot(span: Span, v: seq<nat>, n: nat): nat
    requires n <= |v|
  {
    if n == 0 then 0 else Dot(span, v, n - 1) + Weight(span, n - 1) * v[n - 1]
  }

  function SumTo(v: seq<nat>, n: nat): nat
    requires n <= |v|
  {
    if n == 0 then 0 else SumTo(v, n - 1) + v[n - 1]
  }

  lemma ProportionStep(w: nat, lo: nat, hi: nat, a: nat, b: nat, d: nat, c: nat)
    requires lo * a <= b <= hi * a
    requires w > 0 ==> lo * d <= c <= hi * d
    ensures lo * (a + w * d) <= b + w * c <= hi * (a + w * d)
  {
    assert lo * (a + w * d) == lo * a + w * (lo * d);
    assert hi * (a + w * d) == hi * a + w * (hi * d);
    if w > 0 {
      MulMonotone(lo * d, c, w);
      MulMonotone(c, hi * d, w);
    }
  }

  /** Values that are in proportion wherever there is weight have weighted sums in proportion. */
  lemma {:induction false} DotProportion(span: Span, v: seq<nat>, base: seq<nat>, lo: nat, hi: nat, n: nat)
    requires n <= |v| && n <= |base|
    requires forall k :: 0 <= k < n && Weight(span, k) > 0 ==> lo * base[k] <= v[k] <= hi * base[k]
    ensures lo * Dot(span, base, n) <= Dot(span, v, n) <= hi * Dot(span, base, n)
  {
    if n > 0 {
      DotProportion(span, v, base, lo, hi, n - 1);
      ProportionStep(Weight(span, n - 1), lo, hi, Dot(span, base, n - 1), Dot(span, v, n - 1), base[n - 1], v[n - 1]);
    }
  }

  lemma MulAdd(a: nat, b: nat, c: nat)
    ensures (a + b) * c == a * c + b * c
  {
  }

  /** A constant value's weighted sum is that value for the whole side. */
  lemma {:induction false} DotOfConstant(span: Span, v: seq<nat>, value: nat, n: nat)
    requires n <= |v| && forall k :: 0 <= k < n ==> v[k] == value
    ensures Dot(span, v, n) == Weights(span, n) * value
  {
    if n > 0 {
      DotOfConstant(span, v, value, n - 1);
      MulAdd(Weights(span, n - 1), Weight(span, n - 1), value);
    }
  }

  /** Values that agree wherever there is weight have the same weighted sum. */
  lemma {:induction false} DotAgrees(span: Span, v: seq<nat>, w: seq<nat>, n: nat)
    requires n <= |v| && n <= |w| && forall k :: 0 <= k < n ==> Weight(span, k) == 0 || v[k] == w[k]
    ensures Dot(span, v, n) == Dot(span, w, n)
  {
    if n > 0 { DotAgrees(span, v, w, n - 1); }
  }

  /** Source pixels without weight can be skipped. */
  lemma {:induction false} DotSkips(span: Span, v: seq<nat>, m: nat, n: nat)
    requires m <= n <= |v| && forall k :: m <= k < n ==> Weight(span, k) == 0
    ensures Dot(span, v, n) == Dot(span, v, m)
  {
    if m < n { DotSkips(span, v, m, n - 1); }
  }

  // ---- One side scaled

  /** The weighted sums of all scaled pixels of one side. */
  function Scaled(v: seq<nat>, scaled: nat): (r: seq<nat>)
    ensures |r| == scaled
  {
    seq(scaled, at requires 0 <= at < scaled => Dot(Span(|v|, scaled, at), v, |v|))
  }

  function SpreadDot(v: seq<nat>, scaled: nat, n: nat, m: nat): nat
    requires m <= |v|
  {
    if m == 0 then 0 else SpreadDot(v, scaled, n, m - 1) + Spread(|v|, scaled, m - 1, n) * v[m - 1]
  }

  lemma {:induction false} SpreadDotGrows(v: seq<nat>, scaled: nat, n: nat, m: nat)
    requires m <= |v|
    ensures SpreadDot(v, scaled, n + 1, m) == SpreadDot(v, scaled, n, m) + Dot(Span(|v|, scaled, n), v, m)
  {
    if m > 0 {
      SpreadDotGrows(v, scaled, n, m - 1);
      MulAdd(Spread(|v|, scaled, m - 1, n), Weight(Span(|v|, scaled, n), m - 1), v[m - 1]);
    }
  }

  lemma {:induction false} NothingSpread(v: seq<nat>, scaled: nat, m: nat)
    requires m <= |v|
    ensures SpreadDot(v, scaled, 0, m) == 0
  {
    if m > 0 { NothingSpread(v, scaled, m - 1); }
  }

  lemma {:induction false} ScaledIsSpread(v: seq<nat>, scaled: nat, n: nat)
    requires n <= scaled
    ensures SumTo(Scaled(v, scaled), n) == SpreadDot(v, scaled, n, |v|)
  {
    if n == 0 {
      NothingSpread(v, scaled, |v|);
    } else {
      ScaledIsSpread(v, scaled, n - 1);
      SpreadDotGrows(v, scaled, n - 1, |v|);
    }
  }

  lemma AddTimes(c: nat, a: nat, b: nat)
    ensures c * (a + b) == c * a + c * b
  {
  }

  lemma {:induction false} AllSpread(v: seq<nat>, scaled: nat, m: nat)
    requires m <= |v|
    ensures SpreadDot(v, scaled, scaled, m) == scaled * SumTo(v, m)
  {
    if m > 0 {
      AllSpread(v, scaled, m - 1);
      var each := Spread(|v|, scaled, m - 1, scaled);
      assert each == scaled by { SpreadSums(|v|, scaled, m - 1); }
      AddTimes(scaled, SumTo(v, m - 1), v[m - 1]);
    }
  }

  /** Scaling a side conserves its sum, in the scaled units. */
  lemma ScaledIsConserved(v: seq<nat>, scaled: nat)
    ensures SumTo(Scaled(v, scaled), scaled) == scaled * SumTo(v, |v|)
  {
    ScaledIsSpread(v, scaled, scaled);
    AllSpread(v, scaled, |v|);
  }
}
