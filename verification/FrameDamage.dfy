/** A staged frame: the application draws into one buffer and presents the damaged part of it. */
module FrameDamage {
  import opened Arithmetic

  const SIDE_MAX: nat := 4096

  type Colour = c: nat | c < 0x1_0000
  type Colours = seq<Colour>

  /** All four sides are inside. */
  datatype Area = Area(x1: int, y1: int, x2: int, y2: int)
  datatype Region = Clean | Dirty(area: Area)

  /**
   * Besides the fields: the pixels drawn since they were last published, and those that some damage
   * call since the last presentation named. Pixels are numbered row by row.
   */
  datatype Frame = Frame(
    width: nat, height: nat, pixels: Colours, published: Colours, damage: Region,
    drawn: set<nat>, named: set<nat>)

  predicate ValidSize(width: int, height: int) {
    0 < width <= SIDE_MAX && 0 < height <= SIDE_MAX
  }

  function Count(f: Frame): nat { f.width * f.height }

  predicate Contains(area: Area, width: nat, i: nat)
    requires width > 0
  {
    area.x1 <= i % width <= area.x2 && area.y1 <= i / width <= area.y2
  }

  function Clipped(area: Area, width: nat, height: nat): Area {
    Area(if area.x1 < 0 then 0 else area.x1, if area.y1 < 0 then 0 else area.y1,
         if area.x2 >= width then width - 1 else area.x2, if area.y2 >= height then height - 1 else area.y2)
  }

  predicate Empty(area: Area) { area.x1 > area.x2 || area.y1 > area.y2 }

  predicate Within(area: Area, width: nat, height: nat) {
    !Empty(area) && 0 <= area.x1 && area.x2 < width && 0 <= area.y1 && area.y2 < height
  }

  function Joined(a: Area, b: Area): Area {
    Area(if b.x1 < a.x1 then b.x1 else a.x1, if b.y1 < a.y1 then b.y1 else a.y1,
         if b.x2 > a.x2 then b.x2 else a.x2, if b.y2 > a.y2 then b.y2 else a.y2)
  }

  predicate Encloses(a: Area, b: Area) {
    a.x1 <= b.x1 && a.y1 <= b.y1 && b.x2 <= a.x2 && b.y2 <= a.y2
  }

  /** Joining gives the smallest area around both. */
  lemma JoinedIsLeast(a: Area, b: Area, c: Area)
    ensures Encloses(Joined(a, b), a) && Encloses(Joined(a, b), b)
    ensures Encloses(c, a) && Encloses(c, b) ==> Encloses(c, Joined(a, b))
  {
  }

  function InArea(area: Area, width: nat, count: nat): set<nat>
    requires width > 0
  {
    set i | 0 <= i < count && Contains(area, width, i)
  }

  // ---- The steps

  function Drawn(f: Frame, i: nat, colour: Colour): Frame
    requires i < |f.pixels|
  {
    f.(pixels := f.pixels[i := colour], drawn := f.drawn + {i})
  }

  function DamageTaken(f: Frame, area: Area): Frame
    requires f.width > 0
  {
    var clipped := Clipped(area, f.width, f.height);
    if Empty(clipped) then f
    else
      f.(damage := Dirty(if f.damage.Clean? then clipped else Joined(f.damage.area, clipped)),
         named := f.named + InArea(area, f.width, Count(f)))
  }

  /** What the published buffer holds after its damaged part was copied. */
  function Copied(f: Frame): Colours
    requires |f.published| == |f.pixels| && f.width > 0
  {
    seq(|f.pixels|, i requires 0 <= i < |f.pixels| =>
      if f.damage.Dirty? && i < Count(f) && Contains(f.damage.area, f.width, i) then f.pixels[i] else f.published[i])
  }

  /** A frame is presented only while it is visible. */
  function Presented(f: Frame, visible: bool): Frame
    requires |f.published| == |f.pixels| && f.width > 0
  {
    if !visible || f.damage.Clean? then f
    else
      f.(published := Copied(f), damage := Clean, named := {},
         drawn := set i | i in f.drawn && !(i < Count(f) && Contains(f.damage.area, f.width, i)))
  }

  function Zeros(count: nat): (r: Colours)
    ensures |r| == count && forall i :: 0 <= i < count ==> r[i] == 0
  {
    seq(count, _ => 0)
  }

  function Numbers(count: nat): (r: set<nat>)
    ensures forall i :: i in r <==> 0 <= i < count
  {
    if count == 0 then {} else Numbers(count - 1) + {count - 1}
  }

  /** A larger frame gets new buffers; a smaller one keeps its own, with nothing published in them. */
  function Resized(f: Frame, width: int, height: int, available: bool): Frame
    requires |f.published| == |f.pixels|
  {
    if !ValidSize(width, height) || (width == f.width && height == f.height) then f
    else
      var count := width * height;
      var all := Numbers(count);
      if count <= |f.pixels| then
        Frame(width, height, f.pixels, Zeros(count) + f.published[count..], Clean, all, {})
      else if available then Frame(width, height, Zeros(count), Zeros(count), Clean, all, {})
      else f
  }

  datatype Op =
    | Draw(i: nat, colour: Colour)
    | Damage(area: Area)
    | Present(visible: bool)
    | Resize(width: int, height: int, available: bool)

  // ---- What every run keeps

  ghost predicate Inv(f: Frame) {
    && ValidSize(f.width, f.height)
    && |f.pixels| == |f.published| && Count(f) <= |f.pixels|
    && (f.damage.Dirty? ==> Within(f.damage.area, f.width, f.height))
    && (forall i :: 0 <= i < Count(f) && i !in f.drawn ==> f.published[i] == f.pixels[i])
    && (forall i :: i in f.named ==> f.damage.Dirty? && i < Count(f) && Contains(f.damage.area, f.width, i))
  }

  ghost predicate Allowed(f: Frame, op: Op) { op.Draw? ==> op.i < Count(f) }

  function Do(f: Frame, op: Op): Frame
    requires Inv(f) && Allowed(f, op)
  {
    match op
    case Draw(i, colour) => Drawn(f, i, colour)
    case Damage(area) => DamageTaken(f, area)
    case Present(visible) => Presented(f, visible)
    case Resize(width, height, available) => Resized(f, width, height, available)
  }

  lemma PixelInFrame(width: nat, height: nat, i: nat)
    requires 0 < width && i < width * height
    ensures i % width < width && i / width < height
  {
    QuotientBounds(i, width);
    if i / width >= height { MulMonotone(height, i / width, width); }
  }

  /** Clipping loses no pixel of the frame. */
  lemma ClippingKeepsPixels(area: Area, width: nat, height: nat, i: nat)
    requires 0 < width && i < width * height
    ensures Contains(Clipped(area, width, height), width, i) <==> Contains(area, width, i)
  {
    PixelInFrame(width, height, i);
  }

  lemma DamageKeepsInv(f: Frame, area: Area)
    requires Inv(f)
    ensures Inv(DamageTaken(f, area))
  {
    var after := DamageTaken(f, area);
    forall i | i in after.named
      ensures after.damage.Dirty? && i < Count(f) && Contains(after.damage.area, f.width, i)
    {
      if i in InArea(area, f.width, Count(f)) { ClippingKeepsPixels(area, f.width, f.height, i); }
    }
  }

  lemma StepKeepsInv(f: Frame, op: Op)
    requires Inv(f) && Allowed(f, op)
    ensures Inv(Do(f, op))
  {
    match op
    case Damage(area) => DamageKeepsInv(f, area);
    case _ =>
  }

  ghost predicate AllowedRun(f: Frame, ops: seq<Op>)
    requires Inv(f)
    decreases |ops|
  {
    StepsKeepInv();
    ops == [] || (Allowed(f, ops[0]) && AllowedRun(Do(f, ops[0]), ops[1..]))
  }

  lemma StepsKeepInv()
    ensures forall f, op :: Inv(f) && Allowed(f, op) ==> Inv(Do(f, op))
  {
    forall f, op | Inv(f) && Allowed(f, op) ensures Inv(Do(f, op)) { StepKeepsInv(f, op); }
  }

  function Run(f: Frame, ops: seq<Op>): Frame
    requires Inv(f) && AllowedRun(f, ops)
    decreases |ops|
  {
    StepsKeepInv();
    if ops == [] then f else Run(Do(f, ops[0]), ops[1..])
  }

  /**
   * In every run, a presentation leaves the published frame equal to the drawn one if and only if
   * every pixel that is not equal already lies in the damaged rectangle; so it does when every pixel
   * drawn since it was published was named by some damage call.
   */
  lemma {:induction false} PresentationPublishes(f: Frame, ops: seq<Op>)
    requires Inv(f) && AllowedRun(f, ops)
    ensures var last := Run(f, ops);
      Inv(last) &&
      var shown := Presented(last, true);
      && (last.drawn <= last.named ==> shown.published[..Count(last)] == last.pixels[..Count(last)])
      && (shown.published[..Count(last)] == last.pixels[..Count(last)] <==>
            forall i :: 0 <= i < Count(last) && last.published[i] != last.pixels[i] ==>
              last.damage.Dirty? && Contains(last.damage.area, last.width, i))
    decreases |ops|
  {
    if ops != [] {
      StepKeepsInv(f, ops[0]);
      PresentationPublishes(Do(f, ops[0]), ops[1..]);
    } else {
      PresentationIsExact(f);
    }
  }

  lemma PresentationIsExact(f: Frame)
    requires Inv(f)
    ensures var shown := Presented(f, true);
      && (f.drawn <= f.named ==> shown.published[..Count(f)] == f.pixels[..Count(f)])
      && (shown.published[..Count(f)] == f.pixels[..Count(f)] <==>
            forall i :: 0 <= i < Count(f) && f.published[i] != f.pixels[i] ==>
              f.damage.Dirty? && Contains(f.damage.area, f.width, i))
  {
    var shown := Presented(f, true);
    var n := Count(f);
    forall i | 0 <= i < n
      ensures shown.published[i]
        == if f.damage.Dirty? && Contains(f.damage.area, f.width, i) then f.pixels[i] else f.published[i]
    {}
    if shown.published[..n] == f.pixels[..n] {
      forall i | 0 <= i < n && f.published[i] != f.pixels[i]
        ensures f.damage.Dirty? && Contains(f.damage.area, f.width, i)
      {
        assert shown.published[..n][i] == f.pixels[..n][i];
      }
    }
  }

  /** What is published changes only when the frame is presented or gets another size. */
  lemma PublishedChangesRarely(f: Frame, op: Op)
    requires Inv(f) && Allowed(f, op) && Do(f, op).published != f.published
    ensures (op.Present? && op.visible && f.damage.Dirty?)
      || (op.Resize? && (Do(f, op).width, Do(f, op).height) != (f.width, f.height))
  {
  }

  /** After another size nothing of the old frame stays published. */
  lemma ResizePublishesNothing(f: Frame, width: int, height: int, available: bool)
    requires Inv(f)
    ensures var after := Resized(f, width, height, available);
      (after.width, after.height) != (f.width, f.height) ==>
        after.damage.Clean? && forall i :: 0 <= i < Count(after) ==> after.published[i] == 0
  {
  }
}
