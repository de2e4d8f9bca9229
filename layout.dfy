/** The per-slide layout formulas of the stack slider: scale, stacking order
    and opacity as functions of a slide's depth in the stack and of the
    vertical drag offset of the front slide. Numbers are exact reals. */
module Layout {

  /** Each layer is drawn this much smaller than the one in front of it. */
  const ScaleFactor: real := 0.85
  /** Drag distance (in pixels) at which a release commits the rotation. */
  const SlideTrigger: int := 80

  /** `base ** n` for a natural exponent. */
  function Pow(base: real, n: nat): real {
    if n == 0 then 1.0 else base * Pow(base, n - 1)
  }

  /** `ScaleFactor ** exponent` for the exponents the layout uses: a slide's
      depth and its depth minus one, so from -1 upward. */
  function ScalePow(exponent: int): real
    requires exponent >= -1
  {
    if exponent == -1 then 1.0 / ScaleFactor else Pow(ScaleFactor, exponent)
  }

  /** Scale of the slide at `depth` while the front slide is dragged down by `position`. */
  function GetScale(depth: nat, position: real): real {
    var coefficient := (1.0 - ScaleFactor) / SlideTrigger as real;
    ScalePow(depth) + position * coefficient * ScalePow(depth - 1)
  }

  /** Stacking order: shallower slides are drawn on top. */
  function GetZIndex(depth: int, totalCount: int): int {
    totalCount - depth
  }

  /** Linear fade over the trigger distance; `reverse` fades in instead of out. */
  function GetOpacity(position: real, reverse: bool): real {
    var coefficient := 1.0 / SlideTrigger as real;
    if reverse then position * coefficient else -coefficient * position + 1.0
  }

  /** What the render loop computes for the item at `index`, given the number
      `total` of slides the widget was created with. */
  datatype SlideStyle = SlideStyle(scale: real, zIndex: int, opacity: real)

  function StyleAt(index: nat, total: nat, y: real): (st: SlideStyle)
    ensures st.opacity == 1.0 || index == 0 || index == total
  {
    SlideStyle(
      GetScale(index, y),
      GetZIndex(index, total),
      if index == 0 then GetOpacity(y, false)
      else if index == total then GetOpacity(y, true)
      else 1.0)
  }

  // ---------------------------------------------------------------------
  // Powers

  lemma ProductPositive(a: real, b: real)
    requires 0.0 < a && 0.0 < b
    ensures 0.0 < a * b
  {
  }

  lemma ProductLess(f: real, x: real)
    requires 0.0 < f < 1.0 && 0.0 < x
    ensures f * x < x
  {
  }

  lemma {:induction false} PowPositive(base: real, n: nat)
    requires 0.0 < base
    ensures 0.0 < Pow(base, n)
  {
    if n > 0 {
      PowPositive(base, n - 1);
      ProductPositive(base, Pow(base, n - 1));
    }
  }

  /** `ScalePow` multiplies by `ScaleFactor` at every step, also from -1 to 0. */
  lemma ScalePowStep(exponent: nat)
    ensures ScalePow(exponent) == ScaleFactor * ScalePow(exponent - 1)
  {
  }

  lemma ScalePowPositive(exponent: int)
    requires exponent >= -1
    ensures 0.0 < ScalePow(exponent)
  {
    if exponent >= 0 {
      PowPositive(ScaleFactor, exponent);
    }
  }

  lemma ScalePowShrinks(exponent: nat)
    ensures ScalePow(exponent) < ScalePow(exponent - 1)
  {
    if exponent > 0 {
      PowPositive(ScaleFactor, exponent - 1);
      ProductLess(ScaleFactor, Pow(ScaleFactor, exponent - 1));
    }
  }

  /** Larger exponents give strictly smaller powers of the scale factor. */
  lemma {:induction false} ScalePowStrictlyDecreasing(lo: int, hi: int)
    requires -1 <= lo < hi
    ensures ScalePow(hi) < ScalePow(lo)
    decreases hi - lo
  {
    ScalePowShrinks(hi);
    if lo < hi - 1 {
      ScalePowStrictlyDecreasing(lo, hi - 1);
    }
  }

  // ---------------------------------------------------------------------
  // Scale

  /** At rest every layer has scale `ScaleFactor ** depth`. */
  lemma ScaleAtRest(depth: nat)
    ensures GetScale(depth, 0.0) == Pow(ScaleFactor, depth)
  {
  }

  /** At the trigger every layer has grown to the resting scale of the layer
      one step nearer the front (`ScaleFactor ** (depth - 1)`). */
  lemma ScaleAtTrigger(depth: nat)
    ensures GetScale(depth, SlideTrigger as real) == ScalePow(depth - 1)
    ensures depth > 0 ==> GetScale(depth, SlideTrigger as real) == GetScale(depth - 1, 0.0)
  {
  }

  /** During a drag a layer's scale moves linearly from its own resting scale
      towards the resting scale of the layer in front of it. */
  lemma ScaleInterpolates(depth: nat, position: real)
    ensures GetScale(depth, position)
         == ScalePow(depth)
            + (position / SlideTrigger as real) * (ScalePow(depth - 1) - ScalePow(depth))
  {
  }

  /** Dragging further strictly enlarges every layer. */
  lemma ScaleGrowsWithPosition(depth: nat, p: real, q: real)
    requires p < q
    ensures GetScale(depth, p) < GetScale(depth, q)
  {
    ScalePowPositive(depth - 1);
    var c := (1.0 - ScaleFactor) / SlideTrigger as real * ScalePow(depth - 1);
    assert 0.0 < c;
    assert GetScale(depth, q) - GetScale(depth, p) == (q - p) * c;
    ProductPositive(q - p, c);
  }

  /** At rest the stack recedes: deeper layers are strictly smaller. */
  lemma RestScaleDecreasesWithDepth(d1: nat, d2: nat)
    requires d1 < d2
    ensures GetScale(d2, 0.0) < GetScale(d1, 0.0)
  {
    ScalePowStrictlyDecreasing(d1, d2);
  }

  /** Anywhere within the drag bounds a layer stays strictly smaller than the
      layer in front of it: the layers never pass each other. */
  lemma LayersNeverCross(depth: nat, position: real)
    requires 0.0 <= position <= SlideTrigger as real
    ensures GetScale(depth + 1, position) < GetScale(depth, position)
  {
    ScaleInterpolates(depth + 1, position);
    ScaleInterpolates(depth, position);
    ScalePowStrictlyDecreasing(depth, depth + 1);
    ScalePowStrictlyDecreasing(depth - 1, depth);
    var f := position / SlideTrigger as real;
    assert 0.0 <= f <= 1.0;
    var a, b, c := ScalePow(depth + 1), ScalePow(depth), ScalePow(depth - 1);
    assert GetScale(depth + 1, position) == a + f * (b - a);
    assert GetScale(depth, position) == b + f * (c - b);
    assert a + f * (b - a) <= b by {
      assert f * (b - a) <= b - a;
    }
    if f == 0.0 {
      assert a + f * (b - a) == a;
    } else {
      ProductPositive(f, c - b);
    }
  }

  // ---------------------------------------------------------------------
  // Stacking order and opacity

  /** The front slide (depth 0) is on top, and order strictly follows depth. */
  lemma ZIndexStacksFrontOnTop(d1: int, d2: int, total: int)
    ensures GetZIndex(0, total) == total
    ensures d1 < d2 <==> GetZIndex(d2, total) < GetZIndex(d1, total)
    ensures 0 <= d1 <= total ==> 0 <= GetZIndex(d1, total) <= total
  {
  }

  /** The fading front slide and the fading-in copy at the back always sum to
      full opacity. */
  lemma OpacitiesSumToOne(position: real)
    ensures GetOpacity(position, false) + GetOpacity(position, true) == 1.0
  {
  }

  lemma OpacityEndpoints()
    ensures GetOpacity(0.0, false) == 1.0 && GetOpacity(SlideTrigger as real, false) == 0.0
    ensures GetOpacity(0.0, true) == 0.0 && GetOpacity(SlideTrigger as real, true) == 1.0
  {
  }

  /** The fade-out is strictly decreasing, the fade-in strictly increasing, and
      within the drag bounds both stay within [0, 1]. */
  lemma OpacityMonotone(p: real, q: real)
    requires p < q
    ensures GetOpacity(q, false) < GetOpacity(p, false)
    ensures GetOpacity(p, true) < GetOpacity(q, true)
    ensures 0.0 <= p && q <= SlideTrigger as real ==>
              0.0 <= GetOpacity(p, false) <= 1.0 && 0.0 <= GetOpacity(q, true) <= 1.0
  {
  }

  // ---------------------------------------------------------------------
  // The rendered stack

  /** While the padded queue (length `total + 1`) is dragged, the front slide
      and the copy at index `total` cross-fade, and every other slide is opaque. */
  lemma CrossFade(total: nat, index: nat, y: real)
    requires 0 < total && index <= total
    ensures StyleAt(0, total, y).opacity + StyleAt(total, total, y).opacity == 1.0
    ensures 0 < index < total ==> StyleAt(index, total, y).opacity == 1.0
  {
  }

  /** A committed release is seamless: the frame at the trigger on the padded
      queue matches, layer for layer, the resting frame on the rotated queue,
      where every slide has moved one step nearer the front. Stacking order
      shifts up by exactly one for every layer, so relative order is kept.
      The front slide itself has faded out completely. */
  lemma CommitIsSeamless(total: nat, index: nat)
    requires 1 <= index <= total
    ensures StyleAt(index, total, SlideTrigger as real).scale == StyleAt(index - 1, total, 0.0).scale
    ensures StyleAt(index, total, SlideTrigger as real).opacity == StyleAt(index - 1, total, 0.0).opacity
    ensures StyleAt(index, total, SlideTrigger as real).zIndex + 1 == StyleAt(index - 1, total, 0.0).zIndex
    ensures StyleAt(0, total, SlideTrigger as real).opacity == 0.0
  {
  }
}
