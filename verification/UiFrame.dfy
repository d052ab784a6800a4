/** A staged frame's two buffers, copied row by row. */
module UiFrame {
  import opened Arithmetic
  import opened FrameDamage

  /** The pixels of one row from x1 to x2, as numbers of pixels. */
  lemma RowOfArea(width: nat, y: nat, x1: nat, x2: nat, i: nat)
    requires x1 <= x2 < width
    ensures y * width + x1 <= i <= y * width + x2 <==> i / width == y && x1 <= i % width <= x2
  {
    QuotientBounds(i, width);
    if i / width == y { QuotientUnique(i, width, y); }
    if y * width + x1 <= i <= y * width + x2 { QuotientUnique(i, width, y); }
  }

  /** A pixel of the area in a row before y. */
  predicate Above(area: Area, width: nat, y: nat, i: nat)
    requires width > 0
  {
    Contains(area, width, i) && i / width < y
  }

  lemma RowIsNext(area: Area, width: nat, y: nat)
    requires 0 <= area.x1 <= area.x2 < width && area.y1 <= y <= area.y2
    ensures forall i: nat ::
      Above(area, width, y + 1, i) <==> Above(area, width, y, i) || y * width + area.x1 <= i <= y * width + area.x2
  {
    forall i: nat
      ensures Above(area, width, y + 1, i)
        <==> Above(area, width, y, i) || y * width + area.x1 <= i <= y * width + area.x2
    {
      RowOfArea(width, y, area.x1, area.x2, i);
    }
  }

  lemma RowIsInside(area: Area, width: nat, height: nat, y: nat)
    requires Within(area, width, height) && area.y1 <= y <= area.y2
    ensures y * width + area.x2 < width * height
  {
    MulLess(y, height, width);
  }

  class UiFrame {
    var pixels: array<Colour>
    var published: array<Colour>
    var width: nat
    var height: nat
    var capacity: nat
    var damage: Region
    /** Whether the canvas that shows the frame exists. */
    var live: bool
    ghost var drawn: set<nat>
    ghost var named: set<nat>

    ghost function Value(): Frame
      reads this, pixels, published
    {
      Frame(width, height, pixels[..], published[..], damage, drawn, named)
    }

    ghost predicate Good()
      reads this, pixels, published
    {
      pixels != published && pixels.Length == published.Length == capacity && Inv(Value())
    }

    constructor (w: nat, h: nat)
      requires ValidSize(w, h)
      ensures Good() && width == w && height == h && live && damage == Clean && capacity == w * h
      ensures fresh(pixels) && fresh(published)
      ensures forall i :: 0 <= i < w * h ==> published[i] == pixels[i] == 0
    {
      pixels := new Colour[w * h](_ => 0);
      published := new Colour[w * h](_ => 0);
      width, height, capacity, damage, live := w, h, w * h, Clean, true;
      drawn, named := {}, {};
    }

    /** The application writes through the pointer it was given. */
    method Draw(i: nat, colour: Colour)
      requires Good() && i < Count(Value())
      modifies this`drawn, pixels
      ensures Good() && Value() == Drawn(old(Value()), i, colour)
    {
      pixels[i] := colour;
      drawn := drawn + {i};
    }

    method Clip(area: Area) returns (clipped: Area)
      ensures clipped == Clipped(area, width, height)
    {
      clipped := area;
      if clipped.x1 < 0 { clipped := clipped.(x1 := 0); }
      if clipped.y1 < 0 { clipped := clipped.(y1 := 0); }
      if clipped.x2 >= width { clipped := clipped.(x2 := width - 1); }
      if clipped.y2 >= height { clipped := clipped.(y2 := height - 1); }
    }

    method Join(clipped: Area)
      modifies this`damage
      ensures damage == Dirty(if old(damage).Clean? then clipped else Joined(old(damage).area, clipped))
    {
      if damage == Clean {
        damage := Dirty(clipped);
        return;
      }
      var joined := damage.area;
      if clipped.x1 < joined.x1 { joined := joined.(x1 := clipped.x1); }
      if clipped.y1 < joined.y1 { joined := joined.(y1 := clipped.y1); }
      if clipped.x2 > joined.x2 { joined := joined.(x2 := clipped.x2); }
      if clipped.y2 > joined.y2 { joined := joined.(y2 := clipped.y2); }
      damage := Dirty(joined);
    }

    /** Without an area, everything is damaged. */
    method TakeDamage(area: Area, everything: bool) returns (ok: bool)
      requires Good()
      modifies this`damage, this`named
      ensures Good() && ok == live
      ensures Value() == if live
        then DamageTaken(old(Value()), if everything then Area(0, 0, width - 1, height - 1) else area) else old(Value())
    {
      if !live { return false; }
      var whole := if everything then Area(0, 0, width - 1, height - 1) else area;
      DamageKeepsInv(Value(), whole);
      var clipped := Clip(whole);
      ok := true;
      if clipped.x1 > clipped.x2 || clipped.y1 > clipped.y2 { return; }
      Join(clipped);
      named := named + InArea(whole, width, width * height);
    }

    /** Copies the damaged rectangle; the canvas redraws it where it lies. */
    method Present(visible: bool, left: int, top: int) returns (ok: bool, redrawn: Region)
      requires Good()
      modifies this`damage, this`drawn, this`named, published
      ensures Good() && ok == (live && visible)
      ensures Value() == Presented(old(Value()), ok)
      ensures redrawn == if !ok || old(damage).Clean? then Clean
        else var a := old(damage).area; Dirty(Area(a.x1 + left, a.y1 + top, a.x2 + left, a.y2 + top))
      ensures ok && old(drawn <= named) ==> published[..width * height] == pixels[..width * height]
    {
      redrawn := Clean;
      if !live || !visible { return false, Clean; }
      PresentationIsExact(Value());
      StepKeepsInv(Value(), FrameDamage.Present(true));
      ok := true;
      if damage == Clean { return; }
      var area := damage.area;
      CopyArea(area);
      assert published[..] == Copied(old(Value()));
      redrawn := Dirty(Area(area.x1 + left, area.y1 + top, area.x2 + left, area.y2 + top));
      drawn := set i | i in drawn && !(i < width * height && Contains(area, width, i));
      named := {};
      damage := Clean;
    }

    method CopyArea(area: Area)
      requires pixels != published && pixels.Length == published.Length >= width * height
      requires Within(area, width, height)
      modifies published
      ensures forall i :: 0 <= i < published.Length ==>
        published[i] == if i < width * height && Contains(area, width, i) then pixels[i] else old(published[i])
    {
      var y: nat := area.y1;
      while y <= area.y2
        invariant area.y1 <= y <= area.y2 + 1
        invariant forall i :: 0 <= i < published.Length ==>
          published[i] == if i < width * height && Above(area, width, y, i) then pixels[i] else old(published[i])
      {
        RowIsInside(area, width, height, y);
        RowIsNext(area, width, y);
        CopyRow(y * width + area.x1, area.x2 - area.x1 + 1);
        y := y + 1;
      }
    }

    /** memcpy of a stretch of pixels. */
    method CopyRow(offset: nat, count: nat)
      requires pixels != published && offset + count <= pixels.Length == published.Length
      modifies published
      ensures forall i :: 0 <= i < published.Length ==>
        published[i] == if offset <= i < offset + count then pixels[i] else old(published[i])
    {
      for k := 0 to count
        invariant forall i :: 0 <= i < published.Length ==>
          published[i] == if offset <= i < offset + k then pixels[i] else old(published[i])
      {
        published[offset + k] := pixels[offset + k];
      }
    }

    /** memset of the first pixels. */
    method Clear(count: nat)
      requires count <= published.Length
      modifies published
      ensures forall i :: 0 <= i < published.Length ==> published[i] == if i < count then 0 else old(published[i])
    {
      for k := 0 to count
        invariant forall i :: 0 <= i < published.Length ==> published[i] == if i < k then 0 else old(published[i])
      {
        published[k] := 0;
      }
    }

    /** Larger buffers are new ones; otherwise the published pixels are cleared, never shown with another stride. */
    method Rebuffer(count: nat, available: bool) returns (ok: bool)
      requires pixels != published && pixels.Length == published.Length == capacity
      modifies this`pixels, this`published, this`capacity, published
      ensures pixels != published && pixels.Length == published.Length == capacity
      ensures ok <==> count <= old(capacity) || available
      ensures !ok ==> pixels == old(pixels) && published == old(published) && published[..] == old(published[..])
      ensures ok && count > old(capacity) ==> pixels[..] == Zeros(count) == published[..]
      ensures ok && count <= old(capacity) ==> pixels == old(pixels) && pixels[..] == old(pixels[..])
      ensures ok && count <= old(capacity) ==> published[..] == Zeros(count) + old(published[..])[count..]
      ensures pixels == old(pixels) || fresh(pixels)
      ensures published == old(published) || fresh(published)
    {
      ok := true;
      if count > capacity {
        if !available { return false; }
        pixels := new Colour[count](_ => 0);
        published := new Colour[count](_ => 0);
        capacity := count;
        assert pixels[..] == Zeros(count) == published[..];
      } else {
        ghost var was := published[..];
        Clear(count);
        assert published[..] == Zeros(count) + was[count..];
      }
    }

    method Resize(w: int, h: int, available: bool) returns (ok: bool)
      requires Good()
      modifies this, published
      ensures Good() && live == old(live)
      ensures Value() == if live then Resized(old(Value()), w, h, available) else old(Value())
      ensures ok ==> width == w && height == h
      ensures pixels == old(pixels) || fresh(pixels)
      ensures published == old(published) || fresh(published)
    {
      if !live || !ValidSize(w, h) { return false; }
      if width == w && height == h { return true; }
      StepKeepsInv(Value(), FrameDamage.Resize(w, h, available));
      ok := Rebuffer(w * h, available);
      if !ok { return; }
      width, height, damage := w, h, Clean;
      drawn, named := Numbers(w * h), {};
    }
  }
}
