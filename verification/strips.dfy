/** Glitch strips: their generation, the resizing of the strip list, the
    redrawing of offsets, the periodic replacement of random list slots, and
    the clamping of the strip count to the wheel range.

    A strip is a value: the program creates each one afresh and never shares
    one between two list slots, so a list of strip values behaves like the
    program's list of strip objects.
 */
module Strips {
  import opened Random

  const GLITCH_MAX_OFFSET := 50
  const MIN_STRIP_HEIGHT := 10
  const MAX_STRIP_HEIGHT := 40
  const MIN_STRIP_WIDTH := 50
  const MAX_NUM_GLITCHES := 20
  const MIN_NUM_GLITCHES := 1

  /** The largest vertical reach the offset update can draw: int(50 * 0.2). */
  const MAX_Y_REACH := 10

  /** A rectangle of the image and the current displacement of its blue copy. */
  datatype GlitchStrip = GlitchStrip(x: int, y: int, width: int, height: int, offsetX: int, offsetY: int)

  /** Raw generator outputs consumed by one strip creation, in draw order. */
  datatype StripDraws = StripDraws(height: nat, width: nat, x: nat, y: nat)

  /** Raw generator outputs consumed by one offset redraw. */
  datatype OffsetDraws = OffsetDraws(x: nat, y: nat)

  /** Raw generator outputs consumed by one periodic replacement step:
      the slot draw and the draws of the strip put there. */
  datatype Pick = Pick(slot: nat, strip: StripDraws)

  function Abs(n: int): nat
  {
    if n < 0 then -n else n
  }

  /** The image is large enough for every strip the generator can draw. */
  predicate Roomy(imgW: int, imgH: int)
  {
    MIN_STRIP_WIDTH <= imgW && MAX_STRIP_HEIGHT <= imgH
  }

  /** The strip's rectangle lies inside an imgW x imgH image and has the
      generator's dimensions. */
  predicate Fits(imgW: int, imgH: int, s: GlitchStrip)
  {
    && 0 <= s.x && s.x + s.width <= imgW
    && 0 <= s.y && s.y + s.height <= imgH
    && MIN_STRIP_HEIGHT <= s.height <= MAX_STRIP_HEIGHT
    && MIN_STRIP_WIDTH <= s.width <= imgW
  }

  /** Both offsets lie within the given reaches. */
  predicate Within(s: GlitchStrip, reachX: int, reachY: int)
  {
    Abs(s.offsetX) <= reachX && Abs(s.offsetY) <= reachY
  }

  /** Same rectangle; only the offsets may differ. */
  predicate SameRect(s: GlitchStrip, t: GlitchStrip)
  {
    s.x == t.x && s.y == t.y && s.width == t.width && s.height == t.height
  }

  /** A strip as create_glitch_strip returns it: fitting, with zero offsets. */
  predicate Created(imgW: int, imgH: int, s: GlitchStrip)
  {
    Fits(imgW, imgH, s) && s.offsetX == 0 && s.offsetY == 0
  }

  /** A unit direction along an axis: (1,0), (-1,0), (0,1) or (0,-1). */
  predicate Axis(dirX: int, dirY: int)
  {
    || (dirY == 0 && (dirX == 1 || dirX == -1))
    || (dirX == 0 && (dirY == 1 || dirY == -1))
  }

  /** create_glitch_strip: height, then width, then x, then y, each by randint. */
  function CreateStrip(imgW: int, imgH: int, d: StripDraws): (r: Result<GlitchStrip>)
    ensures r.Ok? ==> Created(imgW, imgH, r.value)
    ensures Roomy(imgW, imgH) ==> r.Ok?
    ensures imgW < MIN_STRIP_WIDTH || imgH < MIN_STRIP_HEIGHT ==> r.Err?
    ensures r.Err? <==>
              imgW < MIN_STRIP_WIDTH || imgH < RandInt(MIN_STRIP_HEIGHT, MAX_STRIP_HEIGHT, d.height).value
    ensures r.Ok? ==> r.value.height == RandInt(MIN_STRIP_HEIGHT, MAX_STRIP_HEIGHT, d.height).value
  {
    // the height range is constant and never empty
    var height := RandInt(MIN_STRIP_HEIGHT, MAX_STRIP_HEIGHT, d.height).value;
    var width := RandInt(MIN_STRIP_WIDTH, imgW, d.width);
    if width.Err? then Err(width.error)
    else
      // width <= imgW, so the x range is never empty
      var x := RandInt(0, imgW - width.value, d.x).value;
      var y := RandInt(0, imgH - height, d.y);
      if y.Err? then Err(y.error)
      else Ok(GlitchStrip(x, y.value, width.value, height, 0, 0))
  }

  /** Every strip that fits, with zero offsets, can be generated. */
  lemma CreateStripReaches(imgW: int, imgH: int, s: GlitchStrip)
    requires Created(imgW, imgH, s)
    ensures exists d :: CreateStrip(imgW, imgH, d) == Ok(s)
  {
    var d := StripDraws(s.height - MIN_STRIP_HEIGHT, s.width - MIN_STRIP_WIDTH, s.x, s.y);
    RandIntExact(MIN_STRIP_HEIGHT, MAX_STRIP_HEIGHT, s.height);
    RandIntExact(MIN_STRIP_WIDTH, imgW, s.width);
    RandIntExact(0, imgW - s.width, s.x);
    RandIntExact(0, imgH - s.height, s.y);
    assert CreateStrip(imgW, imgH, d) == Ok(s);
  }

  /** The strip list after the two resize loops of update_glitches: append
      fresh strips while it is shorter than n, pop from the tail while it is
      longer. `ds` holds the draws of the strips appended, in order. */
  function Resized(strips: seq<GlitchStrip>, n: nat, imgW: int, imgH: int, ds: seq<StripDraws>): (r: seq<GlitchStrip>)
    requires Roomy(imgW, imgH)
    requires |strips| < n ==> n - |strips| <= |ds|
    ensures |r| == n
    ensures n <= |strips| ==> r <= strips
    ensures |strips| <= n ==> strips <= r
    ensures forall i :: |strips| <= i < n ==> r[i] == CreateStrip(imgW, imgH, ds[i - |strips|]).value
    ensures (forall i :: 0 <= i < |strips| ==> Fits(imgW, imgH, strips[i])) ==>
              forall i :: 0 <= i < n ==> Fits(imgW, imgH, r[i])
  {
    if n <= |strips| then strips[..n]
    else strips + seq(n - |strips|, k requires 0 <= k < n - |strips| => CreateStrip(imgW, imgH, ds[k]).value)
  }

  /** int(I): the horizontal reach of an intensity I >= 0. */
  function ReachX(intensity: real): int
  {
    intensity.Floor
  }

  /** int(I * 0.2): the vertical reach of an intensity I >= 0. */
  function ReachY(intensity: real): int
  {
    (intensity * 0.2).Floor
  }

  /** One iteration of the offset loop of update_glitches: a horizontal draw in
      [-int(I), int(I)] and a vertical draw in [-int(I*0.2), int(I*0.2)], each
      scaled by its direction component. */
  function Redraw(s: GlitchStrip, intensity: real, dirX: int, dirY: int, d: OffsetDraws): (t: GlitchStrip)
    requires 0.0 <= intensity && Axis(dirX, dirY)
    ensures SameRect(s, t)
    ensures Within(t, ReachX(intensity), ReachY(intensity))
    ensures dirX == 0 ==> t.offsetX == 0
    ensures dirY == 0 ==> t.offsetY == 0
  {
    var reachX := ReachX(intensity);
    var reachY := ReachY(intensity);
    var drawX := RandInt(-reachX, reachX, d.x).value;
    var drawY := RandInt(-reachY, reachY, d.y).value;
    s.(offsetX := drawX * dirX, offsetY := drawY * dirY)
  }

  /** Every displacement along the direction within the reaches is the
      outcome of some offset draws. */
  lemma RedrawReaches(s: GlitchStrip, intensity: real, dirX: int, dirY: int, k: int, m: int)
    requires 0.0 <= intensity && Axis(dirX, dirY)
    requires Abs(k) <= ReachX(intensity) && Abs(m) <= ReachY(intensity)
    ensures exists d :: Redraw(s, intensity, dirX, dirY, d) == s.(offsetX := k * dirX, offsetY := m * dirY)
  {
    var reachX := ReachX(intensity);
    var reachY := ReachY(intensity);
    RandIntExact(-reachX, reachX, k);
    RandIntExact(-reachY, reachY, m);
    var d := OffsetDraws(k + reachX, m + reachY);
    assert Redraw(s, intensity, dirX, dirY, d) == s.(offsetX := k * dirX, offsetY := m * dirY);
  }

  /** The strip list after the offset loop of update_glitches: every strip
      redrawn with its own draws. */
  function Reoffset(strips: seq<GlitchStrip>, intensity: real, dirX: int, dirY: int, ds: seq<OffsetDraws>): (r: seq<GlitchStrip>)
    requires 0.0 <= intensity && Axis(dirX, dirY)
    requires |strips| <= |ds|
    ensures |r| == |strips|
    ensures forall i :: 0 <= i < |r| ==> SameRect(strips[i], r[i])
    ensures forall i :: 0 <= i < |r| ==> Within(r[i], ReachX(intensity), ReachY(intensity))
  {
    seq(|strips|, i requires 0 <= i < |strips| => Redraw(strips[i], intensity, dirX, dirY, ds[i]))
  }

  /** Every choice of per-strip displacements along the direction, within
      the reaches, is the outcome of some offset draws for the whole list. */
  lemma ReoffsetReaches(strips: seq<GlitchStrip>, intensity: real, dirX: int, dirY: int, ks: seq<int>, ms: seq<int>)
    requires 0.0 <= intensity && Axis(dirX, dirY)
    requires |ks| == |strips| && |ms| == |strips|
    requires forall i :: 0 <= i < |strips| ==> Abs(ks[i]) <= ReachX(intensity) && Abs(ms[i]) <= ReachY(intensity)
    ensures exists ds :: |strips| <= |ds| &&
              Reoffset(strips, intensity, dirX, dirY, ds) ==
              seq(|strips|, i requires 0 <= i < |strips| => strips[i].(offsetX := ks[i] * dirX, offsetY := ms[i] * dirY))
  {
    var reachX := ReachX(intensity);
    var reachY := ReachY(intensity);
    var ds := seq(|strips|, i requires 0 <= i < |strips| => OffsetDraws(ks[i] + reachX, ms[i] + reachY));
    forall i | 0 <= i < |strips|
      ensures Redraw(strips[i], intensity, dirX, dirY, ds[i]) == strips[i].(offsetX := ks[i] * dirX, offsetY := ms[i] * dirY)
    {
      RandIntExact(-reachX, reachX, ks[i]);
      RandIntExact(-reachY, reachY, ms[i]);
    }
    assert Reoffset(strips, intensity, dirX, dirY, ds) ==
           seq(|strips|, i requires 0 <= i < |strips| => strips[i].(offsetX := ks[i] * dirX, offsetY := ms[i] * dirY));
  }

  /** A strip count the wheel can select. */
  predicate CountInRange(m: int)
  {
    MIN_NUM_GLITCHES <= m <= MAX_NUM_GLITCHES
  }

  /** The wheel handler: the strip count moved by delta and clamped to
      [MIN_NUM_GLITCHES, MAX_NUM_GLITCHES]; the result is the value of that
      range nearest to n + delta. */
  function WheelClamp(n: int, delta: int): (r: int)
    ensures MIN_NUM_GLITCHES <= r <= MAX_NUM_GLITCHES
    ensures MIN_NUM_GLITCHES <= n + delta <= MAX_NUM_GLITCHES ==> r == n + delta
    ensures forall m :: CountInRange(m) ==> Abs(r - (n + delta)) <= Abs(m - (n + delta))
  {
    if n + delta < MIN_NUM_GLITCHES then MIN_NUM_GLITCHES
    else if n + delta > MAX_NUM_GLITCHES then MAX_NUM_GLITCHES
    else n + delta
  }

  /** How many slots one periodic replacement rewrites:
      randint(1, max(1, n // 2)). */
  function NumToUpdate(n: int, r: nat): (k: nat)
    ensures 1 <= k
    ensures k <= if n / 2 < 1 then 1 else n / 2
  {
    RandInt(1, if n / 2 < 1 then 1 else n / 2, r).value
  }

  /** Every count in [1, max(1, n // 2)] is the outcome of some draw. */
  lemma NumToUpdateReaches(n: int, k: int)
    requires 1 <= k <= if n / 2 < 1 then 1 else n / 2
    ensures exists r: nat :: NumToUpdate(n, r) == k
  {
    RandIntExact(1, if n / 2 < 1 then 1 else n / 2, k);
    assert NumToUpdate(n, k - 1) == k;
  }

  /** The list slot a pick rewrites: randint(0, len - 1). */
  function Slot(len: int, p: Pick): (j: int)
    requires 0 < len
    ensures 0 <= j < len
  {
    RandInt(0, len - 1, p.slot).value
  }

  /** Every index of a non-empty list is the slot of some pick. */
  lemma SlotReaches(len: int, j: int, strip: StripDraws)
    requires 0 <= j < len
    ensures exists p: Pick :: p.strip == strip && Slot(len, p) == j
  {
    RandIntExact(0, len - 1, j);
    assert Slot(len, Pick(j, strip)) == j;
  }

  /** No pick of ps rewrites slot j of a list of length len. */
  predicate Untouched(len: int, ps: seq<Pick>, j: int)
    requires 0 < len
  {
    forall t :: 0 <= t < |ps| ==> Slot(len, ps[t]) != j
  }

  /** The strip list after the replacement loop: for each pick in turn, when
      the list is not empty, the slot it names gets a freshly created strip. */
  function Replaced(strips: seq<GlitchStrip>, imgW: int, imgH: int, ps: seq<Pick>): (r: seq<GlitchStrip>)
    requires Roomy(imgW, imgH)
    ensures |r| == |strips|
    ensures forall j :: 0 <= j < |strips| && Untouched(|strips|, ps, j) ==> r[j] == strips[j]
    ensures forall j :: 0 <= j < |r| ==> r[j] == strips[j] || Created(imgW, imgH, r[j])
    decreases |ps|
  {
    if ps == [] || strips == [] then strips
    else
      var before := Replaced(strips, imgW, imgH, ps[..|ps| - 1]);
      var p := ps[|ps| - 1];
      before[Slot(|before|, p) := CreateStrip(imgW, imgH, p.strip).value]
  }

  /** A slot rewritten by several picks holds the strip of the last of them. */
  lemma {:induction false} ReplacedLastPick(strips: seq<GlitchStrip>, imgW: int, imgH: int, ps: seq<Pick>, t: int)
    requires Roomy(imgW, imgH)
    requires strips != [] && 0 <= t < |ps|
    requires forall u :: t < u < |ps| ==> Slot(|strips|, ps[u]) != Slot(|strips|, ps[t])
    ensures Replaced(strips, imgW, imgH, ps)[Slot(|strips|, ps[t])] == CreateStrip(imgW, imgH, ps[t].strip).value
  {
    var init := ps[..|ps| - 1];
    if t < |ps| - 1 {
      ReplacedLastPick(strips, imgW, imgH, init, t);
    }
  }
}
