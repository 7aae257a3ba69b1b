/** The glitch engine's mutable state and the per-frame work of the main
    loop: the strip list, the requested strip count, the effect direction and
    intensity, the pause flag, the frame counter, and the two layers that
    apply_glitch_effect rebuilds.  All random draws are parameters.
 */
module Engine {
  import opened Random
  import opened Strips
  import opened Compositor

  /** The periodic replacement runs on every REPLACE_PERIOD-th unpaused frame. */
  const REPLACE_PERIOD := 30

  /** The strip count at start-up. */
  const INITIAL_NUM_GLITCHES := 3

  /** Every random draw one frame of the main loop may consume: the draw of
      num_to_update, one pick per replaced slot, the draws of the strips the
      resize appends, and one offset draw per strip. */
  datatype FrameDraws = FrameDraws(count: nat, picks: seq<Pick>, grow: seq<StripDraws>, offsets: seq<OffsetDraws>)

  function Sign(n: int): int
  {
    if n < 0 then -1 else if n == 0 then 0 else 1
  }

  /** For a drag along one axis, each component divided by the length of
      the drag is that component's sign. */
  lemma SignByDivision(n: int, distance: int)
    requires 0 < distance && (n == 0 || Abs(n) == distance)
    ensures n / distance == Sign(n)
  {
  }

  class GlitchEngine {
    const original: Image
    const red: Image
    const blue: Image
    var strips: seq<GlitchStrip>
    var numGlitches: int
    var intensity: real
    var dirX: int
    var dirY: int
    var paused: bool
    var frameCount: nat

    function Width(): int
    {
      original.Length0
    }

    function Height(): int
    {
      original.Length1
    }

    /** The object invariant: three distinct images of one size, a count in
        the wheel range, an intensity in [0, GLITCH_MAX_OFFSET], an axis
        direction, and strips that fit the image with bounded offsets. */
    ghost predicate Valid()
      reads this
    {
      && red != original && blue != original && red != blue
      && SameSize(red, original) && SameSize(blue, original)
      && Roomy(Width(), Height())
      && CountInRange(numGlitches)
      && 0.0 <= intensity <= GLITCH_MAX_OFFSET as real
      && Axis(dirX, dirY)
      && forall i :: 0 <= i < |strips| ==>
           Fits(Width(), Height(), strips[i]) && Within(strips[i], GLITCH_MAX_OFFSET, MAX_Y_REACH)
    }

    /** Start-up: empty transparent layers of the image's size, no strips,
        three requested, zero intensity, direction (1, 0), running. */
    constructor (image: Image)
      requires Roomy(image.Length0, image.Length1)
      ensures Valid() && original == image && fresh(red) && fresh(blue)
      ensures strips == [] && numGlitches == INITIAL_NUM_GLITCHES
      ensures intensity == 0.0 && dirX == 1 && dirY == 0
      ensures !paused && frameCount == 0
      ensures forall x, y :: InBounds(image, x, y) ==> red[x, y] == TRANSPARENT && blue[x, y] == TRANSPARENT
    {
      original := image;
      red := new Color[image.Length0, image.Length1]((x, y) => TRANSPARENT);
      blue := new Color[image.Length0, image.Length1]((x, y) => TRANSPARENT);
      strips := [];
      numGlitches := INITIAL_NUM_GLITCHES;
      intensity := 0.0;
      dirX, dirY := 1, 0;
      paused := false;
      frameCount := 0;
    }

    /** The mouse-wheel handler. */
    method Wheel(delta: int)
      requires Valid()
      modifies this`numGlitches
      ensures Valid()
      ensures numGlitches == WheelClamp(old(numGlitches), delta)
    {
      numGlitches := WheelClamp(numGlitches, delta);
    }

    /** The pause key. */
    method TogglePause()
      requires Valid()
      modifies this`paused
      ensures Valid() && paused == !old(paused)
    {
      paused := !paused;
    }

    /** Release of a horizontal or vertical left-button drag by (dx, dy): a
        zero-length drag changes nothing; otherwise the direction becomes the
        unit vector of the drag and the intensity min(distance / 5, 50). */
    method EndDrag(dx: int, dy: int)
      requires Valid()
      requires dx == 0 || dy == 0
      modifies this`intensity, this`dirX, this`dirY
      ensures Valid()
      ensures dx == 0 && dy == 0 ==>
                intensity == old(intensity) && dirX == old(dirX) && dirY == old(dirY)
      ensures dx != 0 || dy != 0 ==>
                && dirX == Sign(dx) && dirY == Sign(dy)
                && intensity * 5.0 <= (Abs(dx) + Abs(dy)) as real
                && intensity <= GLITCH_MAX_OFFSET as real
                && (intensity * 5.0 == (Abs(dx) + Abs(dy)) as real || intensity == GLITCH_MAX_OFFSET as real)
    {
      var distance := Abs(dx) + Abs(dy);
      if distance > 0 {
        SignByDivision(dx, distance);
        SignByDivision(dy, distance);
        dirX := dx / distance;
        dirY := dy / distance;
        var scaled := distance as real / 5.0;
        intensity := if scaled < GLITCH_MAX_OFFSET as real then scaled else GLITCH_MAX_OFFSET as real;
      }
    }

    /** update_glitches: resize the list to numGlitches, then redraw every
        strip's offsets. */
    method UpdateGlitches(grow: seq<StripDraws>, offsets: seq<OffsetDraws>)
      requires Valid()
      requires |strips| < numGlitches ==> numGlitches - |strips| <= |grow|
      requires numGlitches <= |offsets|
      modifies this`strips
      ensures Valid()
      ensures strips == Reoffset(Resized(old(strips), numGlitches, Width(), Height(), grow),
                                 intensity, dirX, dirY, offsets)
    {
      Resize(grow);
      RedrawOffsets(offsets);
    }

    /** The two loops that open update_glitches: append fresh strips while
        there are fewer than numGlitches, pop from the tail while there are
        more. */
    method Resize(grow: seq<StripDraws>)
      requires Valid()
      requires |strips| < numGlitches ==> numGlitches - |strips| <= |grow|
      modifies this`strips
      ensures Valid()
      ensures strips == Resized(old(strips), numGlitches, Width(), Height(), grow)
    {
      ghost var before := strips;
      ghost var sized := Resized(before, numGlitches, Width(), Height(), grow);
      var drawn := 0;  // strip draws consumed so far
      while |strips| < numGlitches
        invariant |strips| == |before| + drawn
        invariant |strips| <= if |before| < numGlitches then numGlitches else |before|
        invariant strips[..|before|] == before
        invariant forall i :: |before| <= i < |strips| ==>
                    strips[i] == CreateStrip(Width(), Height(), grow[i - |before|]).value
      {
        strips := strips + [CreateStrip(Width(), Height(), grow[drawn]).value];
        drawn := drawn + 1;
      }
      while |strips| > numGlitches
        invariant |before| < numGlitches ==> strips == sized
        invariant numGlitches <= |before| ==> numGlitches <= |strips| <= |before| && strips == before[..|strips|]
      {
        strips := strips[..|strips| - 1];
      }
      forall i | 0 <= i < |strips|
        ensures Fits(Width(), Height(), strips[i]) && Within(strips[i], GLITCH_MAX_OFFSET, MAX_Y_REACH)
      {
        if i < |before| {
          assert strips[i] == before[i];
        } else {
          assert Created(Width(), Height(), CreateStrip(Width(), Height(), grow[i - |before|]).value);
        }
      }
    }

    /** The offset loop that closes update_glitches. */
    method RedrawOffsets(offsets: seq<OffsetDraws>)
      requires Valid()
      requires |strips| <= |offsets|
      modifies this`strips
      ensures Valid()
      ensures strips == Reoffset(old(strips), intensity, dirX, dirY, offsets)
    {
      ghost var before := strips;
      for i := 0 to |strips|
        invariant |strips| == |before|
        invariant forall k :: 0 <= k < i ==> strips[k] == Redraw(before[k], intensity, dirX, dirY, offsets[k])
        invariant forall k :: i <= k < |strips| ==> strips[k] == before[k]
      {
        var reachX := ReachX(intensity);
        var reachY := ReachY(intensity);
        var drawX := RandInt(-reachX, reachX, offsets[i].x).value;
        var drawY := RandInt(-reachY, reachY, offsets[i].y).value;
        strips := strips[i := strips[i].(offsetX := drawX * dirX, offsetY := drawY * dirY)];
      }
      assert ReachX(intensity) <= GLITCH_MAX_OFFSET && ReachY(intensity) <= MAX_Y_REACH;
      forall i | 0 <= i < |strips|
        ensures Fits(Width(), Height(), strips[i]) && Within(strips[i], GLITCH_MAX_OFFSET, MAX_Y_REACH)
      {
        assert SameRect(before[i], strips[i]);
      }
    }

    /** The periodic replacement: draw num_to_update, then, that many times,
        when the list is not empty, overwrite a randomly drawn slot with a
        freshly created strip. */
    method ReplaceRandom(count: nat, picks: seq<Pick>)
      requires Valid()
      requires NumToUpdate(numGlitches, count) <= |picks|
      modifies this`strips
      ensures Valid()
      ensures strips == Replaced(old(strips), Width(), Height(), picks[..NumToUpdate(numGlitches, count)])
    {
      var numToUpdate := RandInt(1, if numGlitches / 2 < 1 then 1 else numGlitches / 2, count).value;
      ghost var before := strips;
      for t := 0 to numToUpdate
        invariant strips == Replaced(before, Width(), Height(), picks[..t])
      {
        if strips != [] {
          var idx := RandInt(0, |strips| - 1, picks[t].slot).value;
          strips := strips[idx := CreateStrip(Width(), Height(), picks[t].strip).value];
        }
        assert picks[..t + 1][..t] == picks[..t];
      }
    }

    /** apply_glitch_effect on the engine's image and layers. */
    method ApplyEffect()
      requires Valid()
      modifies red, blue
      ensures Valid()
      ensures forall x, y :: InBounds(original, x, y) ==>
                red[x, y] == RedAt(original, strips, x, y) && blue[x, y] == BlueAt(original, strips, x, y)
    {
      ApplyGlitchEffect(original, strips, red, blue);
    }

    /** The effect part of one frame of the main loop: when not paused, count
        the frame, replace some strips on every REPLACE_PERIOD-th frame, and,
        when the intensity is positive, update the strips and rebuild both
        layers.  A paused frame, or one at zero intensity, leaves the layers
        as they were. */
    method Frame(d: FrameDraws)
      requires Valid()
      requires NumToUpdate(numGlitches, d.count) <= |d.picks|
      requires |strips| < numGlitches ==> numGlitches - |strips| <= |d.grow|
      requires numGlitches <= |d.offsets|
      modifies this, red, blue
      ensures Valid()
      ensures unchanged(original)
      ensures numGlitches == old(numGlitches) && intensity == old(intensity)
      ensures dirX == old(dirX) && dirY == old(dirY) && paused == old(paused)
      ensures paused ==> frameCount == old(frameCount) && strips == old(strips)
      ensures !paused ==> frameCount == old(frameCount) + 1
      ensures !paused ==>
                var kept := if frameCount % REPLACE_PERIOD == 0
                            then Replaced(old(strips), Width(), Height(), d.picks[..NumToUpdate(numGlitches, d.count)])
                            else old(strips);
                strips == if intensity > 0.0
                          then Reoffset(Resized(kept, numGlitches, Width(), Height(), d.grow), intensity, dirX, dirY, d.offsets)
                          else kept
      ensures !paused && intensity > 0.0 ==>
                forall x, y :: InBounds(original, x, y) ==>
                  red[x, y] == RedAt(original, strips, x, y) && blue[x, y] == BlueAt(original, strips, x, y)
      ensures paused || intensity <= 0.0 ==> unchanged(red) && unchanged(blue)
    {
      if !paused {
        frameCount := frameCount + 1;
        if frameCount % REPLACE_PERIOD == 0 {
          ReplaceRandom(d.count, d.picks);
        }
        if intensity > 0.0 {
          UpdateGlitches(d.grow, d.offsets);
          ApplyEffect();
        }
      }
    }
  }
}
