/** The soft-key bar: up to three legends share its width, and their boxes lie left, centred and right. */
module SoftkeyLayout {
  import opened Arithmetic

  const KEYS: nat := 3

  datatype Box = Box(x: int, width: int)

  function Positive(width: int): int { if width > 0 then width else 0 }
  function Total(w: seq<int>): int requires |w| == KEYS { w[0] + w[1] + w[2] }
  function Naturals(widths: seq<int>): (r: seq<int>)
    requires |widths| == KEYS
    ensures |r| == KEYS
  {
    [Positive(widths[0]), Positive(widths[1]), Positive(widths[2])]
  }
  function Shown(widths: seq<int>): nat
    requires |widths| == KEYS
  {
    (if widths[0] > 0 then 1 else 0) + (if widths[1] > 0 then 1 else 0) + (if widths[2] > 0 then 1 else 0)
  }
  function Room(barWidth: int, margin: int, gap: int, count: nat): int {
    barWidth - 2 * margin - if count > 1 then (count - 1) * gap else 0
  }

  /**
   * How the room is shared: no legend gets more than it needs, together they get all they need or
   * all there is, and one that gets less than it needs is at most a pixel behind any other.
   */
  ghost predicate Fair(widths: seq<int>, allotted: seq<int>, room: int)
    requires |widths| == |allotted| == KEYS
  {
    && (forall i :: 0 <= i < KEYS ==> 0 <= allotted[i] <= Positive(widths[i]))
    && Total(allotted) == (if Total(Naturals(widths)) < room then Total(Naturals(widths)) else room)
    && (forall i, j :: 0 <= i < KEYS && 0 <= j < KEYS && allotted[i] < widths[i] ==> allotted[j] <= allotted[i] + 1)
  }

  /** The part of the sharing that is done; the rest of the room is for `remaining` legends. */
  ghost predicate Sharing(widths: seq<int>, allotted: seq<int>, placed: seq<bool>, room: int, left: int, remaining: nat)
    requires |widths| == |allotted| == |placed| == KEYS
  {
    && left >= 0 && Total(allotted) + left == room
    && remaining == Shown(widths) - Shown(Marks(placed))
    && Settled(widths, allotted, placed, left, remaining) && Ordered(widths, allotted, placed)
  }

  ghost predicate Settled(widths: seq<int>, allotted: seq<int>, placed: seq<bool>, left: int, remaining: nat)
    requires |widths| == |allotted| == |placed| == KEYS
  {
    forall i :: 0 <= i < KEYS ==> if placed[i] then Done(widths[i], allotted[i], left, remaining) else allotted[i] == 0
  }

  ghost predicate Ordered(widths: seq<int>, allotted: seq<int>, placed: seq<bool>)
    requires |widths| == |allotted| == |placed| == KEYS
  {
    forall i, j :: 0 <= i < KEYS && 0 <= j < KEYS && placed[i] ==>
      && (!placed[j] && widths[j] > 0 ==> widths[i] <= widths[j])
      && (placed[j] && allotted[i] < widths[i] ==> allotted[j] <= allotted[i] + 1)
  }

  function Marks(placed: seq<bool>): (r: seq<int>)
    requires |placed| == KEYS
    ensures |r| == KEYS
  {
    [if placed[0] then 1 else 0, if placed[1] then 1 else 0, if placed[2] then 1 else 0]
  }

  /** A placed legend has at most the current share, and at most a pixel less when it was cut. */
  predicate Done(width: int, allotted: int, left: int, remaining: nat) {
    && width > 0 && 0 <= allotted <= width
    && allotted * remaining <= left
    && (allotted < width ==> left <= (allotted + 1) * remaining)
  }

  lemma DoneStays(width: int, allotted: int, left: int, remaining: nat, next: int)
    requires remaining > 0 && left >= 0 && Done(width, allotted, left, remaining) && width <= next
    ensures var share := left / remaining;
      var taken := if next < share then next else share;
      && Done(width, allotted, left - taken, remaining - 1)
      && (allotted < width ==> taken <= allotted + 1)
      && allotted <= share
  {
    var share := left / remaining;
    var taken := if next < share then next else share;
    QuotientBounds(left, remaining);
    if share < allotted { MulLess(share, allotted, remaining); }
    MulMonotone(allotted, share, remaining - 1);
    assert share * remaining == share * (remaining - 1) + share;
    assert allotted * remaining == allotted * (remaining - 1) + allotted;
    assert (allotted + 1) * remaining == (allotted + 1) * (remaining - 1) + allotted + 1;
    if allotted < width {
      if share > allotted + 1 { MulLess(allotted + 1, share, remaining); }
      assert taken == share;
      if share == allotted { assert left < allotted * remaining + remaining; assert (allotted + 1) * remaining == allotted * remaining + remaining; }
    }
  }

  lemma TakenIsDone(width: int, left: int, remaining: nat)
    requires remaining > 0 && left >= 0 && width > 0
    ensures var share := left / remaining;
      var taken := if width < share then width else share;
      0 <= taken <= left && Done(width, taken, left - taken, remaining - 1)
  {
    var share := left / remaining;
    var taken := if width < share then width else share;
    QuotientBounds(left, remaining);
    MulMonotone(taken, share, remaining - 1);
    assert share * remaining == share * (remaining - 1) + share;
    assert (share + 1) * (remaining - 1) == share * remaining + remaining - share - 1;
  }

  ghost predicate Narrowest(widths: seq<int>, placed: seq<bool>, n: int)
    requires |widths| == |placed| == KEYS
  {
    && 0 <= n < KEYS && widths[n] > 0 && !placed[n]
    && forall i :: 0 <= i < KEYS && widths[i] > 0 && !placed[i] ==> widths[n] <= widths[i]
  }

  function Taken(width: int, left: int, remaining: int): int
    requires remaining > 0
  {
    var share := left / remaining;
    if width < share then width else share
  }

  lemma OneMorePlaced(widths: seq<int>, allotted: seq<int>, placed: seq<bool>, n: int, taken: int)
    requires |widths| == |allotted| == |placed| == KEYS && Narrowest(widths, placed, n) && allotted[n] == 0
    ensures Total(allotted[n := taken]) == Total(allotted) + taken
    ensures Shown(Marks(placed[n := true])) == Shown(Marks(placed)) + 1
  {
  }

  lemma PlacingKeepsSharing(widths: seq<int>, allotted: seq<int>, placed: seq<bool>, room: int, left: int, remaining: nat, n: int)
    requires |widths| == |allotted| == |placed| == KEYS && remaining > 0
    requires Sharing(widths, allotted, placed, room, left, remaining) && Narrowest(widths, placed, n)
    ensures var taken := Taken(widths[n], left, remaining);
      Sharing(widths, allotted[n := taken], placed[n := true], room, left - taken, remaining - 1)
  {
    var taken := Taken(widths[n], left, remaining);
    TakenIsDone(widths[n], left, remaining);
    OneMorePlaced(widths, allotted, placed, n, taken);
    PlacingKeepsSettled(widths, allotted, placed, left, remaining, n);
    PlacingKeepsOrdered(widths, allotted, placed, n, taken);
  }

  lemma PlacingKeepsSettled(widths: seq<int>, allotted: seq<int>, placed: seq<bool>, left: int, remaining: nat, n: int)
    requires |widths| == |allotted| == |placed| == KEYS && remaining > 0 && left >= 0
    requires Settled(widths, allotted, placed, left, remaining) && Ordered(widths, allotted, placed)
    requires Narrowest(widths, placed, n)
    ensures var taken := Taken(widths[n], left, remaining);
      && Settled(widths, allotted[n := taken], placed[n := true], left - taken, remaining - 1)
      && (forall i :: 0 <= i < KEYS && placed[i] ==>
            (allotted[i] < widths[i] ==> taken <= allotted[i] + 1) && (taken < widths[n] ==> allotted[i] <= taken))
  {
    TakenIsDone(widths[n], left, remaining);
    forall i | 0 <= i < KEYS && placed[i]
      ensures var taken := Taken(widths[n], left, remaining);
        && Done(widths[i], allotted[i], left - taken, remaining - 1)
        && (allotted[i] < widths[i] ==> taken <= allotted[i] + 1) && (taken < widths[n] ==> allotted[i] <= taken)
    {
      assert Done(widths[i], allotted[i], left, remaining);
      DoneStays(widths[i], allotted[i], left, remaining, widths[n]);
    }
  }

  lemma PlacingKeepsOrdered(widths: seq<int>, allotted: seq<int>, placed: seq<bool>, n: int, taken: int)
    requires |widths| == |allotted| == |placed| == KEYS && Ordered(widths, allotted, placed)
    requires Narrowest(widths, placed, n) && taken <= widths[n]
    requires forall i :: 0 <= i < KEYS && placed[i] ==>
      (allotted[i] < widths[i] ==> taken <= allotted[i] + 1) && (taken < widths[n] ==> allotted[i] <= taken)
    ensures Ordered(widths, allotted[n := taken], placed[n := true])
  {
  }

  lemma SharedIsFair(widths: seq<int>, allotted: seq<int>, placed: seq<bool>, room: int, left: int)
    requires |widths| == |allotted| == |placed| == KEYS
    requires Sharing(widths, allotted, placed, room, left, 0)
    ensures Fair(widths, allotted, room)
  {
    forall i | 0 <= i < KEYS ensures placed[i] <==> widths[i] > 0 {
      assert placed[0] ==> Done(widths[0], allotted[0], left, 0);
      assert placed[1] ==> Done(widths[1], allotted[1], left, 0);
      assert placed[2] ==> Done(widths[2], allotted[2], left, 0);
    }
  }

  method NarrowestLegend(widths: seq<int>, placed: seq<bool>) returns (narrowest: int)
    requires |widths| == |placed| == KEYS
    ensures narrowest < 0 ==> forall i :: 0 <= i < KEYS ==> widths[i] <= 0 || placed[i]
    ensures narrowest >= 0 ==> Narrowest(widths, placed, narrowest)
  {
    narrowest := -1;
    for i := 0 to KEYS
      invariant narrowest < i
      invariant narrowest < 0 ==> forall k :: 0 <= k < i ==> widths[k] <= 0 || placed[k]
      invariant narrowest >= 0 ==> widths[narrowest] > 0 && !placed[narrowest]
      invariant narrowest >= 0 ==>
        forall k :: 0 <= k < i && widths[k] > 0 && !placed[k] ==> widths[narrowest] <= widths[k]
    {
      if widths[i] > 0 && !placed[i] && (narrowest < 0 || widths[i] < widths[narrowest]) { narrowest := i; }
    }
  }

  /** The widths of the boxes, narrowest legend first. */
  method Share(widths: seq<int>, room: int) returns (allotted: seq<int>)
    requires |widths| == KEYS
    ensures |allotted| == KEYS && (forall i :: 0 <= i < KEYS && widths[i] <= 0 ==> allotted[i] == 0)
    ensures room >= 0 ==> Fair(widths, allotted, room)
  {
    allotted := [0, 0, 0];
    var placed, left := [false, false, false], room;
    var remaining: nat := Shown(widths);
    while remaining > 0
      invariant |allotted| == |placed| == KEYS
      invariant forall i :: 0 <= i < KEYS && widths[i] <= 0 ==> allotted[i] == 0
      invariant room >= 0 ==> Sharing(widths, allotted, placed, room, left, remaining)
    {
      var narrowest := NarrowestLegend(widths, placed);
      if narrowest < 0 { break; }
      var share := Quotient(left, remaining);
      assert room >= 0 ==> share == left / remaining;
      var taken := if widths[narrowest] < share then widths[narrowest] else share;
      if room >= 0 { PlacingKeepsSharing(widths, allotted, placed, room, left, remaining, narrowest); }
      allotted, placed := allotted[narrowest := taken], placed[narrowest := true];
      left, remaining := left - taken, remaining - 1;
    }
    if room >= 0 {
      assert remaining == 0;
      SharedIsFair(widths, allotted, placed, room, left);
    }
  }

  /** Two shown boxes do not touch, and a shown box lies between the margins. */
  ghost predicate Apart(a: Box, b: Box, gap: int) {
    a.width > 0 && b.width > 0 ==> a.x + a.width + gap <= b.x
  }

  ghost predicate Inside(box: Box, barWidth: int, margin: int) {
    box.width > 0 ==> margin <= box.x && box.x + box.width <= barWidth - margin
  }

  /** The boxes for the widths: left, centred as far as the neighbours let it, and right. */
  function Boxes(barWidth: int, margin: int, gap: int, a: seq<int>): (r: seq<Box>)
    requires |a| == KEYS
    ensures |r| == KEYS && [r[0].width, r[1].width, r[2].width] == a
  {
    var ideal := Quotient(barWidth - a[1], 2);
    var lowest := margin + if a[0] != 0 then a[0] + gap else 0;
    var highest := barWidth - margin - a[1] - if a[2] != 0 then a[2] + gap else 0;
    var centre := if a[1] == 0 then ideal else if ideal < lowest then lowest else if ideal > highest then highest else ideal;
    [Box(margin, a[0]), Box(centre, a[1]), Box(barWidth - margin - a[2], a[2])]
  }

  lemma RoomByCount(barWidth: int, margin: int, gap: int, count: nat)
    requires count <= KEYS
    ensures Room(barWidth, margin, gap, count)
            == barWidth - 2 * margin - (if count == 3 then gap + gap else if count == 2 then gap else 0)
  {
  }

  lemma BoxesAreApart(barWidth: int, margin: int, gap: int, widths: seq<int>, a: seq<int>)
    requires |widths| == |a| == KEYS && margin >= 0 && gap >= 0
    requires Room(barWidth, margin, gap, Shown(widths)) >= 0
    requires Fair(widths, a, Room(barWidth, margin, gap, Shown(widths)))
    ensures var b := Boxes(barWidth, margin, gap, a);
      && Apart(b[0], b[1], gap) && Apart(b[1], b[2], gap) && Apart(b[0], b[2], gap)
      && Inside(b[0], barWidth, margin) && Inside(b[1], barWidth, margin) && Inside(b[2], barWidth, margin)
      && b[0].x == margin && b[2].x + b[2].width == barWidth - margin
      && (b[1].x == (barWidth - b[1].width) / 2
            || (b[0].width > 0 && b[1].x == b[0].x + b[0].width + gap)
            || (b[2].width > 0 && b[1].x + b[1].width + gap == b[2].x))
  {
    RoomByCount(barWidth, margin, gap, Shown(widths));
    assert 0 <= a[0] <= Positive(widths[0]) && 0 <= a[1] <= Positive(widths[1]) && 0 <= a[2] <= Positive(widths[2]);
  }

  /**
   * Where there is room for the margins and gaps, the legends share the rest fairly, their boxes lie
   * inside the margins with gaps between them, and the middle one is centred unless a neighbour is
   * in the way.
   */
  method Layout(barWidth: int, margin: int, gap: int, widths: seq<int>) returns (boxes: seq<Box>)
    requires |widths| == KEYS
    ensures |boxes| == KEYS
    ensures Room(barWidth, margin, gap, Shown(widths)) >= 0 && margin >= 0 && gap >= 0 ==>
      && Fair(widths, [boxes[0].width, boxes[1].width, boxes[2].width], Room(barWidth, margin, gap, Shown(widths)))
      && Apart(boxes[0], boxes[1], gap) && Apart(boxes[1], boxes[2], gap) && Apart(boxes[0], boxes[2], gap)
      && (forall i :: 0 <= i < KEYS ==> Inside(boxes[i], barWidth, margin))
      && boxes[0].x == margin && boxes[2].x + boxes[2].width == barWidth - margin
      && (boxes[1].x == (barWidth - boxes[1].width) / 2
            || (boxes[0].width > 0 && boxes[1].x == boxes[0].x + boxes[0].width + gap)
            || (boxes[2].width > 0 && boxes[1].x + boxes[1].width + gap == boxes[2].x))
  {
    var count := CountShown(widths);
    var allotted := Share(widths, Room(barWidth, margin, gap, count));
    var ideal := Quotient(barWidth - allotted[1], 2);
    var lowest, highest := margin, barWidth - margin - allotted[1];
    if allotted[0] != 0 { lowest := lowest + allotted[0] + gap; }
    if allotted[2] != 0 { highest := highest - allotted[2] - gap; }
    var centre := ideal;
    if allotted[1] != 0 { centre := if ideal < lowest then lowest else if ideal > highest then highest else ideal; }
    boxes := [Box(margin, allotted[0]), Box(centre, allotted[1]), Box(barWidth - margin - allotted[2], allotted[2])];
    assert boxes == Boxes(barWidth, margin, gap, allotted);
    if Room(barWidth, margin, gap, Shown(widths)) >= 0 && margin >= 0 && gap >= 0 {
      BoxesAreApart(barWidth, margin, gap, widths, allotted);
    }
  }

  method CountShown(widths: seq<int>) returns (count: nat)
    requires |widths| == KEYS
    ensures count == Shown(widths)
  {
    count := 0;
    for i := 0 to KEYS
      invariant count == (if i > 0 && widths[0] > 0 then 1 else 0) + (if i > 1 && widths[1] > 0 then 1 else 0)
        + (if i > 2 && widths[2] > 0 then 1 else 0)
    {
      if widths[i] > 0 { count := count + 1; }
    }
  }
}
