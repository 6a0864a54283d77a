/**
 * Ambient particles: the 120 glyphs that drift down the canvas, are pushed away
 * by the pointer and wrap around the canvas edges.
 */
module Ambient {
  import opened Glyphs

  /** The pointer record: its coordinates stay unset until the first pointer move. */
  datatype Pointer = Unset | At(x: real, y: real)

  /** The pointer's interaction radius, fixed at 150 pixels. */
  const PointerRadius: real := 150.0

  /** Scale applied to the repulsion nudge. */
  const RepelScale: real := 0.6

  /** The y a particle is reset to once it falls below the bottom edge. */
  const TopReentry: real := -10.0

  /** The eight `Math.random()` draws an ambient particle's constructor makes, in call order. */
  datatype AmbientDraws = AmbientDraws(
    rx: real, ry: real, rvx: real, rvy: real, rText: real, rOpacity: real, rSize: real, rDensity: real)

  predicate ValidAmbientDraws(r: AmbientDraws) {
    IsUnitDraw(r.rx) && IsUnitDraw(r.ry) && IsUnitDraw(r.rvx) && IsUnitDraw(r.rvy) &&
    IsUnitDraw(r.rText) && IsUnitDraw(r.rOpacity) && IsUnitDraw(r.rSize) && IsUnitDraw(r.rDensity)
  }

  /** A snapshot of an ambient particle's fields. */
  datatype AmbientState = AmbientState(
    x: real, y: real, vx: real, vy: real, text: string,
    opacity: real, size: real, color: Color, density: real)

  /**
   * A freshly constructed ambient particle: a random position on the canvas, a slow
   * horizontal drift, a slow fall, a glyph from the table, and size and colour by glyph kind.
   */
  function SpawnAmbient(width: real, height: real, r: AmbientDraws): AmbientState
    requires ValidAmbientDraws(r)
  {
    var text := LoveMessages[GlyphIndex(r.rText)];
    var opacity := r.rOpacity * 0.5 + 0.4;
    var isHeart := text == Heart;
    AmbientState(
      r.rx * width,
      r.ry * height,
      (r.rvx - 0.5) * 0.5,
      r.rvy * 0.5 + 0.2,
      text,
      opacity,
      if isHeart then r.rSize * 20.0 + 10.0 else r.rSize * 10.0 + 8.0,
      if isHeart then HeartColor(opacity) else TextColor(opacity),
      r.rDensity * 20.0 + 1.0)
  }

  /** A fresh ambient particle lies on the canvas, strictly inside along a positive extent. */
  lemma SpawnAmbientOnCanvas(width: real, height: real, r: AmbientDraws)
    requires ValidAmbientDraws(r)
    ensures var a := SpawnAmbient(width, height, r);
            && (0.0 <= width ==> 0.0 <= a.x <= width)
            && (0.0 < width ==> a.x < width)
            && (0.0 <= height ==> 0.0 <= a.y <= height)
            && (0.0 < height ==> a.y < height)
  {
    var a := SpawnAmbient(width, height, r);
    ScaledDrawBounds(r.rx, width, a.x);
    ScaledDrawBounds(r.ry, height, a.y);
  }

  /**
   * A fresh ambient particle drifts by less than 0.25 sideways, falls by 0.2 to 0.7 per
   * frame, and has an opacity in [0.4, 0.9) and a density in [1, 21).
   */
  lemma SpawnAmbientMotion(width: real, height: real, r: AmbientDraws)
    requires ValidAmbientDraws(r)
    ensures var a := SpawnAmbient(width, height, r);
            && -0.25 <= a.vx < 0.25
            && 0.2 <= a.vy < 0.7
            && 0.4 <= a.opacity < 0.9
            && 1.0 <= a.density < 21.0
  {
  }

  /**
   * A fresh ambient particle shows a glyph from the table; it is a heart exactly when the
   * drawn index is 7 or more, and a heart is larger and red while a phrase is smaller and
   * brown, both with the particle's opacity.
   */
  lemma SpawnAmbientGlyph(width: real, height: real, r: AmbientDraws)
    requires ValidAmbientDraws(r)
    ensures var a := SpawnAmbient(width, height, r);
            && a.text in LoveMessages
            && (a.text == Heart <==> GlyphIndex(r.rText) >= 7)
            && (a.text == Heart ==> 10.0 <= a.size < 30.0 && a.color == HeartColor(a.opacity))
            && (a.text != Heart ==> 8.0 <= a.size < 18.0 && a.color == TextColor(a.opacity))
  {
    var k := GlyphIndex(r.rText);
    assert SpawnAmbient(width, height, r).text == LoveMessages[k];
  }

  /** A unit draw scaled by a non-negative extent lands in [0, extent], below it when positive. */
  lemma ScaledDrawBounds(r: real, extent: real, p: real)
    requires IsUnitDraw(r) && p == r * extent
    ensures 0.0 <= extent ==> 0.0 <= p <= extent
    ensures 0.0 < extent ==> p < extent
  {
    if 0.0 < extent {
      assert r * extent < 1.0 * extent;
    }
  }

  /** Magnitude of the repulsion nudge at the given distance from the pointer. */
  function Push(distance: real, density: real): real {
    (PointerRadius - distance) / PointerRadius * density * RepelScale
  }

  /** Distance from (x, y) to the set pointer, as the injected `sqrt` computes it. */
  function PointerDistance(x: real, y: real, mouse: Pointer, sqrt: real -> real): real
    requires mouse.At?
  {
    sqrt((mouse.x - x) * (mouse.x - x) + (mouse.y - y) * (mouse.y - y))
  }

  /**
   * The nudge is defined: the pointer is unset, or its distance is non-zero. At distance
   * zero the source divides 0 by 0 and the particle's coordinates become NaN.
   */
  predicate OffPointer(x: real, y: real, mouse: Pointer, sqrt: real -> real) {
    mouse.At? ==> PointerDistance(x, y, mouse, sqrt) != 0.0
  }

  /**
   * Position after the pointer interaction: untouched while the pointer is unset or
   * at least the radius away, otherwise nudged (see RepelMovesAway).
   */
  function Repel(x: real, y: real, density: real, mouse: Pointer, sqrt: real -> real): (p: (real, real))
    requires OffPointer(x, y, mouse, sqrt)
    ensures mouse.Unset? ==> p == (x, y)
    ensures mouse.At? && PointerDistance(x, y, mouse, sqrt) >= PointerRadius ==> p == (x, y)
  {
    if mouse.Unset? then (x, y)
    else
      var dx := mouse.x - x;
      var dy := mouse.y - y;
      var distance := PointerDistance(x, y, mouse, sqrt);
      if distance < PointerRadius then
        (x - Nudge(dx, distance, density), y - Nudge(dy, distance, density))
      else
        (x, y)
  }

  /**
   * One component of the repulsion nudge: the unit direction component `delta / distance`
   * times the falloff `(150 - distance) / 150`, the density and the 0.6 scale.
   */
  function Nudge(delta: real, distance: real, density: real): real
    requires distance != 0.0
  {
    var forceDirection := delta / distance;
    var force := (PointerRadius - distance) / PointerRadius;
    forceDirection * force * density * RepelScale
  }

  /** A nudge component multiplied back by the distance it was divided by. */
  lemma NudgeScaled(delta: real, distance: real, density: real)
    requires distance != 0.0
    ensures distance * Nudge(delta, distance, density) == delta * Push(distance, density)
  {
    assert delta / distance * distance == delta;
  }

  /** Moving a component by n, where d * n == delta * s, scales it by (d + s) / d. */
  lemma Extend(delta: real, d: real, s: real, n: real)
    requires d * n == delta * s
    ensures d * (delta + n) == delta * (d + s)
  {
  }

  lemma MulEq(a: real, b: real, c: real)
    requires a == b
    ensures a * c == b * c
  {
  }

  lemma CancelSquare(n: real, m: real, d: real)
    requires d > 0.0 && (d * d) * n == (d * d) * m
    ensures n == m
  {
    assert d * d > 0.0;
  }

  /**
   * If d is the length of (dx, dy) and (ex, ey) is (dx, dy) scaled by t / d,
   * then t is the length of (ex, ey).
   */
  lemma ScaledLength(dx: real, dy: real, d: real, t: real, ex: real, ey: real)
    requires d > 0.0 && d * d == dx * dx + dy * dy
    requires d * ex == dx * t && d * ey == dy * t
    ensures ex * ex + ey * ey == t * t
  {
    calc {
      (d * d) * (ex * ex + ey * ey);
      (d * ex) * (d * ex) + (d * ey) * (d * ey);
      (dx * t) * (dx * t) + (dy * t) * (dy * t);
      (dx * dx + dy * dy) * (t * t);
      { MulEq(dx * dx + dy * dy, d * d, t * t); }
      (d * d) * (t * t);
    }
    CancelSquare(ex * ex + ey * ey, t * t, d);
  }

  /**
   * (px, py) is (x, y) moved by s away from (mx, my), which is d away from (x, y): the
   * move is the unit vector from (mx, my) to (x, y) scaled by s, and (px, py) lies on the
   * same ray at distance d + s. Every fact is stated multiplied through by d.
   */
  predicate AwayOnRay(x: real, y: real, mx: real, my: real, d: real, s: real, px: real, py: real) {
    && d * (x - px) == (mx - x) * s
    && d * (y - py) == (my - y) * s
    && d * (mx - px) == (mx - x) * (d + s)
    && d * (my - py) == (my - y) * (d + s)
    && (mx - px) * (mx - px) + (my - py) * (my - py) == (d + s) * (d + s)
  }

  /**
   * A point (x, y) at distance d from (mx, my), moved to (px, py) by (nx, ny) with
   * d * (nx, ny) = s * (mx - x, my - y) pointing away from (mx, my), ends up on the
   * same ray at distance d + s.
   */
  lemma RayFacts(x: real, y: real, mx: real, my: real, d: real, s: real, nx: real, ny: real, px: real, py: real)
    requires d > 0.0 && d * d == (mx - x) * (mx - x) + (my - y) * (my - y)
    requires d * nx == (mx - x) * s && d * ny == (my - y) * s
    requires px == x - nx && py == y - ny
    ensures AwayOnRay(x, y, mx, my, d, s, px, py)
  {
    assert x - px == nx && y - py == ny;
    assert mx - px == (mx - x) + nx && my - py == (my - y) + ny;
    Extend(mx - x, d, s, nx);
    Extend(my - y, d, s, ny);
    ScaledLength(mx - x, my - y, d, d + s, mx - px, my - py);
  }

  /**
   * The repulsion step moves a point at distance d > 0 from (mx, my) to (px, py) along the
   * ray away from it.
   */
  lemma NudgeOnRay(x: real, y: real, mx: real, my: real, d: real, density: real, px: real, py: real)
    requires d > 0.0 && d * d == (mx - x) * (mx - x) + (my - y) * (my - y)
    requires px == x - Nudge(mx - x, d, density) && py == y - Nudge(my - y, d, density)
    ensures AwayOnRay(x, y, mx, my, d, Push(d, density), px, py)
  {
    NudgeScaled(mx - x, d, density);
    NudgeScaled(my - y, d, density);
    RayFacts(x, y, mx, my, d, Push(d, density), Nudge(mx - x, d, density), Nudge(my - y, d, density), px, py);
  }

  /**
   * Inside the radius the nudge has length `Push(d, density)` along the unit vector from
   * the pointer to the particle: the vector from the pointer grows by the factor
   * (d + s) / d, so the particle ends up exactly d + s from the pointer on the same ray.
   * These are stated multiplied through by d; `sqrt` need only be right at this one argument.
   */
  lemma RepelMovesAway(x: real, y: real, density: real, mouse: Pointer, sqrt: real -> real)
    requires mouse.At?
    requires var d := PointerDistance(x, y, mouse, sqrt);
             0.0 < d < PointerRadius && d * d == (mouse.x - x) * (mouse.x - x) + (mouse.y - y) * (mouse.y - y)
    ensures var d := PointerDistance(x, y, mouse, sqrt);
            var p := Repel(x, y, density, mouse, sqrt);
            AwayOnRay(x, y, mouse.x, mouse.y, d, Push(d, density), p.0, p.1)
  {
    var d := PointerDistance(x, y, mouse, sqrt);
    var p := Repel(x, y, density, mouse, sqrt);
    assert p == (x - Nudge(mouse.x - x, d, density), y - Nudge(mouse.y - y, d, density));
    NudgeOnRay(x, y, mouse.x, mouse.y, d, density, p.0, p.1);
  }

  /** Inside the radius the nudge is positive for a positive density and at most `density * 0.6`. */
  lemma PushBounds(distance: real, density: real)
    requires 0.0 <= distance < PointerRadius && 0.0 < density
    ensures 0.0 < Push(distance, density) <= density * RepelScale
  {
    var force := (PointerRadius - distance) / PointerRadius;
    assert 0.0 < force <= 1.0;
    assert force * density <= density;
  }

  /** For a fixed positive density the nudge grows strictly as the pointer gets closer. */
  lemma PushStrictlyDecreasing(d1: real, d2: real, density: real)
    requires d1 < d2 && 0.0 < density
    ensures Push(d1, density) > Push(d2, density)
  {
    var f1 := (PointerRadius - d1) / PointerRadius;
    var f2 := (PointerRadius - d2) / PointerRadius;
    assert f1 > f2;
    assert f1 * density > f2 * density;
  }

  /**
   * The edge checks, in the source's order: below the bottom edge resets y to just above
   * the top; past the right edge resets x to 0, which the left-edge check then leaves alone;
   * past the left edge resets x to the width.
   */
  function Wrap(x: real, y: real, width: real, height: real): (p: (real, real))
    ensures 0.0 <= width ==> 0.0 <= p.0 <= width
    ensures TopReentry <= height ==> p.1 <= height
    ensures y > height ==> p.1 == TopReentry
    ensures y <= height ==> p.1 == y
    ensures x > width ==> p.0 == 0.0
    ensures x <= width && x < 0.0 ==> p.0 == width
    ensures 0.0 <= x <= width ==> p.0 == x
  {
    var y1 := if y > height then TopReentry else y;
    var x1 := if x > width then 0.0 else x;
    var x2 := if x1 < 0.0 then width else x1;
    (x2, y1)
  }

  /**
   * One ambient update: pointer repulsion, then the particle's own drift, then the edge
   * wrap. Only the position changes, and it ends up inside the canvas bounds.
   */
  function AmbientStep(a: AmbientState, mouse: Pointer, width: real, height: real, sqrt: real -> real)
    : (b: AmbientState)
    requires OffPointer(a.x, a.y, mouse, sqrt)
    ensures b == a.(x := b.x, y := b.y)
    ensures 0.0 <= width ==> 0.0 <= b.x <= width
    ensures TopReentry <= height ==> b.y <= height
  {
    var pushed := Repel(a.x, a.y, a.density, mouse, sqrt);
    var wrapped := Wrap(pushed.0 + a.vx, pushed.1 + a.vy, width, height);
    a.(x := wrapped.0, y := wrapped.1)
  }

  /** An ambient particle: its position changes every frame, the rest is fixed at construction. */
  class Particle {
    var x: real
    var y: real
    const vx: real
    const vy: real
    const text: string
    const opacity: real
    const size: real
    const color: Color
    const density: real

    function Value(): AmbientState
      reads this
    {
      AmbientState(x, y, vx, vy, text, opacity, size, color, density)
    }

    constructor (width: real, height: real, r: AmbientDraws)
      requires ValidAmbientDraws(r)
      ensures Value() == SpawnAmbient(width, height, r)
    {
      x := r.rx * width;
      y := r.ry * height;
      vx := (r.rvx - 0.5) * 0.5;
      vy := r.rvy * 0.5 + 0.2;
      var glyph := LoveMessages[GlyphIndex(r.rText)];
      text := glyph;
      var alpha := r.rOpacity * 0.5 + 0.4;
      opacity := alpha;
      if glyph == Heart {
        size := r.rSize * 20.0 + 10.0;
        color := HeartColor(alpha);
      } else {
        size := r.rSize * 10.0 + 8.0;
        color := TextColor(alpha);
      }
      density := r.rDensity * 20.0 + 1.0;
    }

    /** Pointer repulsion, drift and edge wrap, one field assignment at a time. */
    method Update(mouse: Pointer, width: real, height: real, sqrt: real -> real)
      requires OffPointer(x, y, mouse, sqrt)
      modifies this
      ensures Value() == AmbientStep(old(Value()), mouse, width, height, sqrt)
      ensures 0.0 <= width ==> 0.0 <= x <= width
      ensures TopReentry <= height ==> y <= height
    {
      ghost var pushed := Repel(x, y, density, mouse, sqrt);
      if mouse.At? {
        var dx := mouse.x - x;
        var dy := mouse.y - y;
        var distance := PointerDistance(x, y, mouse, sqrt);
        if distance < PointerRadius {
          var directionX := Nudge(dx, distance, density);
          var directionY := Nudge(dy, distance, density);
          x := x - directionX;
          y := y - directionY;
        }
      }
      assert (x, y) == pushed;
      x := x + vx;
      y := y + vy;
      ghost var wrapped := Wrap(x, y, width, height);
      if y > height { y := TopReentry; }
      if x > width { x := 0.0; }
      if x < 0.0 { x := width; }
      assert (x, y) == wrapped;
    }
  }
}
