/** The two-pass channel split of apply_glitch_effect.

    The source image and the two layers are two-dimensional pixel arrays
    indexed [x, y], with Length0 the image width and Length1 its height.
    Pass 1 paints, for every strip, a red copy of every opaque in-bounds pixel
    under the strip.  Pass 2 paints, for every strip, a blue value at every
    such pixel whose displaced position (x + offsetX, y + offsetY) is inside
    the image: flat blue when the source is transparent there, the source's
    own colour there otherwise.  Later strips overwrite earlier ones.
 */
module Compositor {
  import opened Strips

  type Byte = b: int | 0 <= b < 256

  /** An RGBA pixel. */
  datatype Color = Color(r: Byte, g: Byte, b: Byte, a: Byte)

  type Image = array2<Color>

  const TRANSPARENT := Color(0, 0, 0, 0)

  /** GLITCH_RED with the alpha of c. */
  function RedCopy(c: Color): Color
  {
    Color(255, 0, 0, c.a)
  }

  /** GLITCH_BLUE with the alpha of c. */
  function BlueCopy(c: Color): Color
  {
    Color(0, 140, 255, c.a)
  }

  predicate SameSize(a: Image, b: Image)
  {
    a.Length0 == b.Length0 && a.Length1 == b.Length1
  }

  predicate InBounds(img: Image, x: int, y: int)
  {
    0 <= x < img.Length0 && 0 <= y < img.Length1
  }

  /** (x, y) lies in the strip's rectangle, [x, x + width) x [y, y + height). */
  predicate Covers(s: GlitchStrip, x: int, y: int)
  {
    s.x <= x < s.x + s.width && s.y <= y < s.y + s.height
  }

  /** Pass 1 writes (x, y) for strip s. */
  predicate RedWrites(img: Image, s: GlitchStrip, x: int, y: int)
    reads img
  {
    InBounds(img, x, y) && Covers(s, x, y) && img[x, y].a > 0
  }

  /** Pass 2 writes (x, y) for strip s: pass 1 does, and the displaced
      position is inside the image. */
  predicate BlueWrites(img: Image, s: GlitchStrip, x: int, y: int)
    reads img
  {
    RedWrites(img, s, x, y) && InBounds(img, x + s.offsetX, y + s.offsetY)
  }

  /** What pass 2 writes at (x, y) for strip s. */
  function BlueValue(img: Image, s: GlitchStrip, x: int, y: int): Color
    reads img
    requires BlueWrites(img, s, x, y)
  {
    var dest := img[x + s.offsetX, y + s.offsetY];
    if dest.a == 0 then BlueCopy(img[x, y]) else dest
  }

  /** The red layer after pass 1: the red copy wherever some strip covers an
      opaque in-bounds pixel, transparent everywhere else. */
  ghost function RedAt(img: Image, strips: seq<GlitchStrip>, x: int, y: int): Color
    reads img
  {
    if InBounds(img, x, y) && img[x, y].a > 0 && exists i :: 0 <= i < |strips| && Covers(strips[i], x, y)
    then RedCopy(img[x, y])
    else TRANSPARENT
  }

  /** The blue layer after pass 2: the value written by the last strip, in
      list order, that writes (x, y); transparent when none does. */
  function BlueAt(img: Image, strips: seq<GlitchStrip>, x: int, y: int): Color
    reads img
  {
    if strips == [] then TRANSPARENT
    else
      var s := strips[|strips| - 1];
      if BlueWrites(img, s, x, y) then BlueValue(img, s, x, y)
      else BlueAt(img, strips[..|strips| - 1], x, y)
  }

  /** The blue value of a pixel is decided by the last strip that writes it. */
  lemma {:induction false} BlueAtLastWriter(img: Image, strips: seq<GlitchStrip>, x: int, y: int, j: int)
    requires 0 <= j < |strips| && BlueWrites(img, strips[j], x, y)
    requires forall i :: j < i < |strips| ==> !BlueWrites(img, strips[i], x, y)
    ensures BlueAt(img, strips, x, y) == BlueValue(img, strips[j], x, y)
  {
    if j < |strips| - 1 {
      BlueAtLastWriter(img, strips[..|strips| - 1], x, y, j);
    }
  }

  /** A blue pixel is transparent exactly when no strip writes it. */
  lemma {:induction false} BlueAtTransparent(img: Image, strips: seq<GlitchStrip>, x: int, y: int)
    ensures BlueAt(img, strips, x, y) == TRANSPARENT <==>
            forall i :: 0 <= i < |strips| ==> !BlueWrites(img, strips[i], x, y)
  {
    if strips != [] {
      var init := strips[..|strips| - 1];
      BlueAtTransparent(img, init, x, y);
      assert forall i :: 0 <= i < |init| ==> init[i] == strips[i];
    }
  }

  /** Every pixel of the blue layer that is not transparent lies over a red
      copy in the red layer. */
  lemma {:induction false} BlueOverRed(img: Image, strips: seq<GlitchStrip>, x: int, y: int)
    requires BlueAt(img, strips, x, y) != TRANSPARENT
    ensures InBounds(img, x, y) && RedAt(img, strips, x, y) == RedCopy(img[x, y])
  {
    BlueAtTransparent(img, strips, x, y);
    var i :| 0 <= i < |strips| && BlueWrites(img, strips[i], x, y);
  }

  /** One strip {x: 0, y: 0, width: 100, height: 20, offset: (10, 0)} over a
      200 x 200 image that is opaque (alpha 255) exactly on that strip.  Every
      covered pixel gets its red copy; columns 0 to 89 get the source colour
      ten columns to the right, and columns 90 to 99, whose destinations
      (100 to 109) are inside the image but transparent, get flat blue. */
  lemma {:induction false} SingleStripOverSquare(img: Image, x: int, y: int)
    requires img.Length0 == 200 && img.Length1 == 200
    requires forall i, j :: InBounds(img, i, j) ==> img[i, j].a == if i < 100 && j < 20 then 255 else 0
    requires 0 <= x < 100 && 0 <= y < 20
    ensures RedAt(img, [GlitchStrip(0, 0, 100, 20, 10, 0)], x, y) == Color(255, 0, 0, 255)
    ensures x < 90 ==> BlueAt(img, [GlitchStrip(0, 0, 100, 20, 10, 0)], x, y) == img[x + 10, y]
    ensures 90 <= x ==> BlueAt(img, [GlitchStrip(0, 0, 100, 20, 10, 0)], x, y) == Color(0, 140, 255, 255)
  {
    var s := GlitchStrip(0, 0, 100, 20, 10, 0);
    assert [s][..0] == [];
    assert img[x, y].a == 255 && BlueWrites(img, s, x, y);
    assert Covers([s][0], x, y);
    assert img[x + 10, y].a == if x < 90 then 255 else 0;
  }

  /** Adding a strip at the end of the list changes the red layer only where
      that strip writes. */
  lemma RedAtSnoc(img: Image, strips: seq<GlitchStrip>, s: GlitchStrip, x: int, y: int)
    ensures RedAt(img, strips + [s], x, y) ==
            if RedWrites(img, s, x, y) then RedCopy(img[x, y]) else RedAt(img, strips, x, y)
  {
    var ss := strips + [s];
    assert ss[|strips|] == s;
    if InBounds(img, x, y) && img[x, y].a > 0 && exists i :: 0 <= i < |strips| && Covers(strips[i], x, y) {
      var i :| 0 <= i < |strips| && Covers(strips[i], x, y);
      assert ss[i] == strips[i];
    }
  }

  /** Surface.fill((0, 0, 0, 0)). */
  method Clear(layer: Image)
    modifies layer
    ensures forall x, y :: InBounds(layer, x, y) ==> layer[x, y] == TRANSPARENT
  {
    forall x, y | 0 <= x < layer.Length0 && 0 <= y < layer.Length1 {
      layer[x, y] := TRANSPARENT;
    }
  }

  /** One strip of pass 1. */
  method PaintRed(img: Image, s: GlitchStrip, red: Image)
    requires red != img && SameSize(red, img)
    modifies red
    ensures forall x, y :: InBounds(img, x, y) ==>
              red[x, y] == if RedWrites(img, s, x, y) then RedCopy(img[x, y]) else old(red[x, y])
  {
    var x := s.x;
    while x < s.x + s.width
      invariant forall i, j :: InBounds(img, i, j) ==>
                  red[i, j] == if i < x && RedWrites(img, s, i, j) then RedCopy(img[i, j]) else old(red[i, j])
    {
      var y := s.y;
      while y < s.y + s.height
        invariant forall i, j :: InBounds(img, i, j) ==>
                    red[i, j] == if (i < x || (i == x && j < y)) && RedWrites(img, s, i, j)
                                 then RedCopy(img[i, j]) else old(red[i, j])
      {
        if 0 <= x < img.Length0 && 0 <= y < img.Length1 {
          var color := img[x, y];
          if color.a > 0 {
            red[x, y] := RedCopy(color);
          }
        }
        y := y + 1;
      }
      x := x + 1;
    }
  }

  /** One strip of pass 2. */
  method PaintBlue(img: Image, s: GlitchStrip, blue: Image)
    requires blue != img && SameSize(blue, img)
    modifies blue
    ensures forall x, y :: InBounds(img, x, y) ==>
              blue[x, y] == if BlueWrites(img, s, x, y) then BlueValue(img, s, x, y) else old(blue[x, y])
  {
    var x := s.x;
    while x < s.x + s.width
      invariant forall i, j :: InBounds(img, i, j) ==>
                  blue[i, j] == if i < x && BlueWrites(img, s, i, j) then BlueValue(img, s, i, j) else old(blue[i, j])
    {
      var y := s.y;
      while y < s.y + s.height
        invariant forall i, j :: InBounds(img, i, j) ==>
                    blue[i, j] == if (i < x || (i == x && j < y)) && BlueWrites(img, s, i, j)
                                  then BlueValue(img, s, i, j) else old(blue[i, j])
      {
        if 0 <= x < img.Length0 && 0 <= y < img.Length1 {
          var color := img[x, y];
          if color.a > 0 {
            var destX := x + s.offsetX;
            var destY := y + s.offsetY;
            if 0 <= destX < img.Length0 && 0 <= destY < img.Length1 {
              var origColor := img[destX, destY];
              if origColor.a == 0 {
                blue[x, y] := BlueCopy(color);
              } else {
                blue[x, y] := origColor;
              }
            }
          }
        }
        y := y + 1;
      }
      x := x + 1;
    }
  }

  /** apply_glitch_effect: clear both layers, run pass 1 over every strip,
      then pass 2 over every strip.  The layers end up determined by the
      source image and the strips alone, and the source image is not changed. */
  method ApplyGlitchEffect(img: Image, strips: seq<GlitchStrip>, red: Image, blue: Image)
    requires red != img && blue != img && red != blue
    requires SameSize(red, img) && SameSize(blue, img)
    modifies red, blue
    ensures forall x, y :: InBounds(img, x, y) ==> red[x, y] == RedAt(img, strips, x, y)
    ensures forall x, y :: InBounds(img, x, y) ==> blue[x, y] == BlueAt(img, strips, x, y)
    ensures forall x, y :: InBounds(img, x, y) ==> img[x, y] == old(img[x, y])
  {
    Clear(red);
    Clear(blue);
    for k := 0 to |strips|
      invariant forall x, y :: InBounds(img, x, y) ==> red[x, y] == RedAt(img, strips[..k], x, y)
      invariant forall x, y :: InBounds(img, x, y) ==> blue[x, y] == TRANSPARENT
    {
      PaintRed(img, strips[k], red);
      assert strips[..k + 1] == strips[..k] + [strips[k]];
      forall x, y | InBounds(img, x, y)
        ensures red[x, y] == RedAt(img, strips[..k + 1], x, y)
      {
        RedAtSnoc(img, strips[..k], strips[k], x, y);
      }
    }
    for k := 0 to |strips|
      invariant forall x, y :: InBounds(img, x, y) ==> red[x, y] == RedAt(img, strips[..|strips|], x, y)
      invariant forall x, y :: InBounds(img, x, y) ==> blue[x, y] == BlueAt(img, strips[..k], x, y)
    {
      PaintBlue(img, strips[k], blue);
      assert strips[..k + 1][..k] == strips[..k];
    }
    assert strips[..|strips|] == strips;
  }
}
