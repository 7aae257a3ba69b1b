# Glitch effect engine — a Dafny model

This project models the glitch compositing engine of a small pygame program.
The program lays a few random rectangular *strips* over a static RGBA image.
Under every strip it paints two layers:

- a red copy of every opaque pixel, which stays in place;
- a blue layer that the frame compositor later shifts by the strip's offset.

Where the shifted position lands on the subject itself, the blue layer takes
the subject's own colour instead of blue. The user drags to set the direction
and intensity of the displacement and turns the wheel to set the number of
strips. Every 30 frames, a random handful of strips is replaced.

The model has four modules:

- `Random` (random.dfy): Python's `random.randint(lo, hi)` with the
  generator's output injected as a raw draw `r`. The draw selects
  `lo + r % (hi - lo + 1)`. An empty range gives an error result, as
  randint's ValueError does. Every value of the range is selected by some draw.
- `Strips` (strips.dfy): the `GlitchStrip` record and the pure operations on
  strips and on the strip list. These are strip generation, the result of the
  resize loops, the offset redraw, the wheel clamp and the periodic
  replacement, each as a specification function with its properties.
- `Compositor` (compositor.dfy): the two-pass channel split over
  two-dimensional pixel arrays. It has the in-place methods that clear and
  paint the red and blue layers, and the functions `RedAt` and `BlueAt` that
  give each layer's final pixel.
- `Engine` (engine.dfy): the class `GlitchEngine`. It holds the program's
  mutable state: the strip list, the requested count, the intensity and
  direction, the pause flag, the frame counter and the layers. Its methods run
  the program's loops in place, and each is proved equal to the matching
  `Strips` or `Compositor` specification.

Strips are values. The program creates every strip afresh and never puts one
strip object into two list slots. So a `seq` of strip values, updated by
reassignment, behaves like the program's list of mutable strip objects.

Three behaviours of the code are worth stating outright:

- The periodic replacement draws each slot independently with
  `randint(0, len - 1)`, so a slot may be chosen more than once. `Replaced`
  and `ReplacedLastPick` state this: an unchosen slot keeps its strip, and a
  chosen slot holds the strip of the last pick that chose it.
- For one strip (0, 0, 100, 20) with offset (10, 0) on a 200 x 200 image,
  columns 90 to 99 have their destinations at columns 100 to 109, which are
  inside the image. Where those destinations are transparent, the code writes
  flat blue at the source columns 90 to 99 (`SingleStripOverSquare`).
- On an image narrower than 50 pixels, or lower than the drawn strip height,
  randint raises ValueError. `CreateStrip` returns an error result in exactly
  those cases.

## Model

| member | source | states |
|---|---|---|
| `Random.RandInt` | main.py:83-86 | randint gives a value in [lo, hi] exactly when lo <= hi, and an EmptyRange error otherwise |
| `Random.RandIntReaches` | main.py:83-86 | every value of a non-empty range is the outcome of some draw |
| `Strips.CreateStrip` | main.py:82-95 | a created strip lies inside the image, is 10 to 40 high and 50 to W wide, and has zero offsets; creation never fails on an image at least 50 wide and 40 high, and it fails exactly when the image is narrower than 50 or lower than the drawn height |
| `Strips.CreateStripReaches` | main.py:82-95 | every strip that fits the image with zero offsets can be generated |
| `Strips.Resized` | main.py:100-104 | after the resize loops the list has exactly n strips; when shrinking it is a prefix of the old list (tail popped); when growing the old list is its prefix and the appended strips are the fresh ones in draw order; fitting strips stay fitting |
| `Strips.Redraw` | main.py:107-109 | an offset redraw keeps the strip's rectangle, keeps the horizontal offset within int(I) and the vertical within int(I*0.2), and gives zero on an axis whose direction component is zero |
| `Strips.RedrawReaches` | main.py:107-109 | every displacement (k * dirX, m * dirY) with abs(k) <= int(I) and abs(m) <= int(I*0.2) is produced by some offset draws |
| `Strips.Reoffset` | main.py:106-109 | the offset loop keeps the list length and every rectangle, and bounds every strip's offsets by int(I) and int(I*0.2) |
| `Strips.ReoffsetReaches` | main.py:106-109 | every choice of such displacements for all the strips of the list is produced by some draws of the offset loop |
| `Strips.WheelClamp` | main.py:228 | the strip count after a wheel delta lies in [1, 20], equals count + delta when that is in range, and is the value of the range nearest to count + delta |
| `Strips.NumToUpdate` | main.py:235 | the number of slots a replacement rewrites lies in [1, max(1, n // 2)] |
| `Strips.NumToUpdateReaches` | main.py:235 | every count in [1, max(1, n // 2)] is produced by some draw |
| `Strips.Slot` | main.py:238 | a replacement slot is an index of the list |
| `Strips.SlotReaches` | main.py:238 | every index of a non-empty list is the slot of some pick, whatever strip draws go with it |
| `Strips.Replaced` | main.py:236-239 | periodic replacement keeps the list length, leaves every slot no pick chose unchanged, and leaves every slot either as it was or holding a freshly created strip |
| `Strips.ReplacedLastPick` | main.py:236-239 | a slot chosen by several picks ends up holding the strip created for the last of them |
| `Compositor.BlueAtLastWriter` | main.py:139-158 | a blue pixel holds the value written by the last strip in list order that writes it (covered, opaque, in bounds, destination in bounds): flat blue with the source alpha when the destination is transparent, the destination's colour otherwise |
| `Compositor.BlueAtTransparent` | main.py:139-158 | a blue pixel is transparent exactly when no strip writes it; an out-of-bounds destination writes nothing |
| `Compositor.BlueOverRed` | main.py:121-158 | every non-transparent blue pixel lies over a red copy of the same source pixel |
| `Compositor.SingleStripOverSquare` | main.py:121-158 | for one strip (0, 0, 100, 20) with offset (10, 0) over a 200 x 200 image opaque only on that strip: red copies everywhere under the strip, the source colour from ten columns right for columns 0 to 89, and flat blue for columns 90 to 99 |
| `Compositor.Clear` | main.py:113-114 | filling a layer makes every pixel (0, 0, 0, 0) |
| `Compositor.PaintRed` | main.py:121-133 | one strip of pass 1 writes (255, 0, 0, a) at every covered opaque in-bounds pixel and leaves every other pixel as it was; every access is in bounds |
| `Compositor.PaintBlue` | main.py:139-158 | one strip of pass 2 writes the blue value at every covered opaque in-bounds pixel whose destination is in bounds, and leaves every other pixel as it was; every access, destination reads included, is in bounds |
| `Compositor.ApplyGlitchEffect` | main.py:111-158 | afterwards the red pixel is (255, 0, 0, a) exactly where a strip covers an opaque in-bounds pixel and transparent elsewhere; the blue pixel is the last writer's value; both depend only on the image and the strips, not on the layers' earlier contents; the image is not changed |
| `Engine.GlitchEngine.constructor` | main.py:56-75 | start-up state: transparent layers of the image's size, no strips, three requested, intensity 0, direction (1, 0), not paused |
| `Engine.GlitchEngine.Wheel` | main.py:226-228 | the wheel sets the count to the clamped value and keeps it in [1, 20] |
| `Engine.GlitchEngine.TogglePause` | main.py:188-189 | the pause key flips the pause flag |
| `Engine.GlitchEngine.EndDrag` | main.py:201-216 | a zero-length drag changes nothing; otherwise the direction becomes the drag's unit vector and the intensity min(distance / 5, 50) |
| `Engine.GlitchEngine.UpdateGlitches` | main.py:97-109 | the list becomes the resized list with every offset redrawn, and the engine invariant holds: every strip fits the image and has offsets within 50 and 10 |
| `Engine.GlitchEngine.Resize` | main.py:100-104 | the append and pop loops leave exactly the list `Resized` describes |
| `Engine.GlitchEngine.RedrawOffsets` | main.py:106-109 | the offset loop leaves exactly the list `Reoffset` describes |
| `Engine.GlitchEngine.ReplaceRandom` | main.py:233-239 | the replacement loop leaves exactly the list `Replaced` describes for the first num_to_update picks |
| `Engine.GlitchEngine.ApplyEffect` | main.py:241-244 | the engine's layers become `RedAt` and `BlueAt` of its image and strips |
| `Engine.GlitchEngine.Frame` | main.py:230-244 | a paused frame changes nothing; an unpaused one counts the frame, replaces strips on every 30th frame, and, at positive intensity only, updates the strips and rebuilds both layers; at zero intensity the layers stay as they were |

## Left out

- Window set-up, the checkerboard backdrop, panning, the drag-line overlay, event polling, the quit and escape keys and the frame clock are display and event plumbing (main.py:15-17, 29-53, 183-273 apart from the handlers modelled above).
- Loading `image.png`, the default-circle fallback and `save_glitched_image` are file I/O. The image is a constructor parameter.
- The final compositing is left out: the base image, then the red layer, then each strip's sub-rectangle of the blue layer blitted at (x + offset_x, y + offset_y). It relies on SDL's alpha blending, which is not part of this model.
- `overlap_map` and `affected_pixels` are written but never read, so they are dropped.
- The `random` module's generator and its uniform distribution are replaced by injected raw draws. Only the set of reachable outcomes is modelled: each draw-driven function is bounded by its contract, and `RandIntReaches`, `CreateStripReaches`, `RedrawReaches`, `ReoffsetReaches`, `NumToUpdateReaches` and `SlotReaches` show that every outcome within those bounds is produced by some draw.
- Engine.GlitchEngine.constructor: requires an image at least 50 pixels wide and 40 high. On smaller images `create_glitch_strip` can raise ValueError and stop the program. `Strips.CreateStrip`'s error result states exactly when that happens, but the engine does not model the program stopping.
- Engine.GlitchEngine.EndDrag: models only horizontal and vertical drags. There the drag length is an integer and the direction components are -1, 0 or 1. A diagonal drag produces a floating-point direction, and with it floating-point offsets, float bounds tests and the truncating `int(dest_x)` of main.py:152-154. None of that is modelled. The direction fields are integers on an axis.
- Strips.Redraw: computes int(I * 0.2) as the floor of the exact product. Double rounding of `I * 0.2` could in principle round just past an integer, and that is not modelled.
- The intensity is a `real`. The square root in the drag distance (main.py:210) is not modelled, because only axis drags are.
