/** How far a bar of a number of pixels is filled: a quotient of 64-bit counts without a 128-bit product. */
module StatusScale {
  import opened Arithmetic
  import opened Words

  /** The least count that fills `mid` of `scale` pixels, computed in parts. */
  function Threshold(total: nat, scale: nat, mid: nat): nat
    requires scale > 0
  {
    total / scale * mid + ((total % scale) * mid + scale - 1) / scale
  }

  /** The next search range; the 32-bit sum wraps around. */
  function Narrowed(completed: nat, total: nat, scale: nat, low: nat, high: nat): (nat, nat)
    requires low < high <= scale < WORD
  {
    var mid := low + (high - low + 1) % WORD / 2;
    if completed >= Threshold(total, scale, mid) then (mid, high) else (low, if mid == 0 then WORD - 1 else mid - 1)
  }

  lemma CeilingParts(total: nat, scale: nat, mid: nat)
    requires scale > 0
    ensures var t := Threshold(total, scale, mid);
      total * mid <= t * scale < total * mid + scale
  {
    var q, m := total / scale, total % scale;
    var x := m * mid + scale - 1;
    var c := x / scale;
    QuotientBounds(x, scale);
    Spread(q, c, mid, scale);
    Spread2(q, m, mid, scale);
  }

  lemma Spread(q: nat, c: nat, mid: nat, scale: nat)
    ensures (q * mid + c) * scale == q * mid * scale + c * scale
  {
  }

  lemma Spread2(q: nat, m: nat, mid: nat, scale: nat)
    ensures (q * scale + m) * mid == q * mid * scale + m * mid
  {
    assert q * scale * mid == q * mid * scale;
  }

  /** A count reaches the threshold exactly when it fills that many pixels. */
  lemma ThresholdIsExact(completed: nat, total: nat, scale: nat, mid: nat)
    requires scale > 0
    ensures completed >= Threshold(total, scale, mid) <==> completed * scale >= total * mid
  {
    CeilingParts(total, scale, mid);
    var t := Threshold(total, scale, mid);
    if completed >= t { MulMonotone(t, completed, scale); } else { MulLess(completed, t, scale); }
  }

  /** No intermediate value leaves 64 bits. */
  lemma IntermediatesFit(total: nat, scale: nat, mid: nat)
    requires 0 < scale < WORD && mid <= scale && total < WORD64
    ensures (total % scale) * mid + scale < WORD64
    ensures total / scale * mid <= Threshold(total, scale, mid) <= total
  {
    var t := Threshold(total, scale, mid);
    ProductFits(total % scale, mid);
    CeilingParts(total, scale, mid);
    ThresholdIsWithin(total, scale, mid, t);
    QuotientBounds((total % scale) * mid + scale - 1, scale);
  }

  lemma ProductFits(a: nat, b: nat)
    requires a <= WORD - 2 && b < WORD
    ensures a * b + WORD < WORD64
  {
    MulMonotone(a, WORD - 2, b);
  }

  lemma ThresholdIsWithin(total: nat, scale: nat, mid: nat, t: nat)
    requires mid <= scale && t * scale < total * mid + scale
    ensures t <= total
  {
    MulMonotone(mid, scale, total);
    if t > total { MulLess(total, t, scale); }
  }

  /** The quotient lies between both ends. */
  ghost predicate Brackets(completed: nat, total: nat, scale: nat, low: nat, high: nat) {
    low * total <= completed * scale < high * total + total
  }

  lemma StartBrackets(completed: nat, total: nat, scale: nat)
    requires completed < total
    ensures Brackets(completed, total, scale, 0, scale)
  {
    MulMonotone(completed, total, scale);
  }

  lemma Narrows(completed: nat, total: nat, scale: nat, low: nat, high: nat, mid: nat)
    requires scale > 0 && low < mid <= high && Brackets(completed, total, scale, low, high)
    ensures if completed >= Threshold(total, scale, mid) then Brackets(completed, total, scale, mid, high)
            else Brackets(completed, total, scale, low, mid - 1)
  {
    ThresholdIsExact(completed, total, scale, mid);
    assert (mid - 1) * total + total == mid * total == total * mid;
  }

  lemma MiddleIsWithin(low: nat, high: nat)
    requires low < high && high - low + 1 < WORD
    ensures low < low + (high - low + 1) % WORD / 2 <= high
  {
    QuotientUnique(high - low + 1, WORD, 0);
  }

  lemma EndIsExact(completed: nat, total: nat, scale: nat, low: nat)
    requires total > 0 && Brackets(completed, total, scale, low, low)
    ensures low == completed * scale / total
  {
    QuotientUnique(completed * scale, total, low);
  }

  /** Exactly the quotient, for every scale but the one with which the search does not end. */
  method Scale(completed: nat, total: nat, scale: nat) returns (filled: nat)
    requires completed < WORD64 && total < WORD64 && scale < WORD
    requires scale == WORD - 1 ==> total == 0 || completed >= total
    ensures filled == if total == 0 then 0 else if completed >= total then scale else completed * scale / total
    ensures filled <= scale
  {
    var low: nat, high: nat := 0, scale;
    if total == 0 || scale == 0 {
      ScaleOfNothing(completed, total);
      return 0;
    }
    if completed >= total { return scale; }
    StartBrackets(completed, total, scale);
    while low < high
      invariant low <= high <= scale && Brackets(completed, total, scale, low, high)
    {
      var mid := low + (high - low + 1) % WORD / 2;
      MiddleIsWithin(low, high);
      Narrows(completed, total, scale, low, high, mid);
      if completed >= Threshold(total, scale, mid) { low := mid; } else { high := mid - 1; }
    }
    EndIsExact(completed, total, scale, low);
    filled := low;
  }

  lemma ScaleOfNothing(completed: nat, total: nat)
    ensures total > 0 ==> completed * 0 / total == 0
  {
  }

  /**
   * With the largest scale the search never narrows its first range, so the call does not return;
   * with any other scale every step narrows its range.
   */
  lemma SearchEndsUnlessTheScaleIsLargest(completed: nat, total: nat, scale: nat, low: nat, high: nat)
    requires 0 < scale < WORD && low < high <= scale && completed < total
    ensures var next := Narrowed(completed, total, scale, low, high);
      next == (low, high) <==> low == 0 && high == WORD - 1
  {
    var mid := low + (high - low + 1) % WORD / 2;
    if low == 0 && high == WORD - 1 {
      assert mid == 0;
      ThresholdIsExact(completed, total, scale, 0);
    } else {
      QuotientUnique(high - low + 1, WORD, 0);
    }
  }
}
