/**
 * The colour of a particle (`MixColors` and `Interpolate` in particles.h):
 * the gradient is cut into `count - 1` equal stretches of the particle's
 * life, and inside a stretch the two bounding colours are mixed along the
 * configured easing curve.
 */
module Colors {
  import opened CMath
  import opened ParticleTypes
  import opened ParticlePool
  import opened Global

  /** One channel: the eased value, truncated to `int` and clamped to 0..255. */
  function MixChannel(ease: EasingFn, a: Byte, b: Byte, st: real, et: real): (v: Byte) {
    ClampInt(Trunc(ease(st, a as real, (b - a) as real, et)), 0, 255)
  }

  /**
   * `MixColors`: red, green and blue are always eased; alpha keeps the
   * second colour's value unless the two alphas differ.
   */
  function MixColors(ease: EasingFn, a: Color, b: Color, st: real, et: real): (c: Color)
    ensures a.a == b.a ==> c.a == b.a
    ensures a.a != b.a ==> c.a == MixChannel(ease, a.a, b.a, st, et)
    ensures c.r == MixChannel(ease, a.r, b.r, st, et)
    ensures c.g == MixChannel(ease, a.g, b.g, st, et)
    ensures c.b == MixChannel(ease, a.b, b.b, st, et)
  {
    Color(MixChannel(ease, a.r, b.r, st, et),
          MixChannel(ease, a.g, b.g, st, et),
          MixChannel(ease, a.b, b.b, st, et),
          if b.a != a.a then MixChannel(ease, a.a, b.a, st, et) else b.a)
  }

  function MinB(a: Byte, b: Byte): Byte { if a <= b then a else b }
  function MaxB(a: Byte, b: Byte): Byte { if a >= b then a else b }

  lemma LinearChannelBetween(a: Byte, b: Byte, st: real, et: real)
    requires 0.0 <= st <= et && et > 0.0
    ensures MinB(a, b) <= MixChannel(LinearEase, a, b, st, et) <= MaxB(a, b)
    ensures st == 0.0 ==> MixChannel(LinearEase, a, b, st, et) == a
    ensures st == et ==> MixChannel(LinearEase, a, b, st, et) == b
  {
    var c := (b - a) as real;
    var v := LinearEase(st, a as real, c, et);
    LinearValue(a as real, b as real, c, st, et, v);
    ChannelBetween(a, b, v);
  }

  /** Linear easing from `a` by `c = b - a` over `[0, et]` stays between `a` and `b`. */
  lemma LinearValue(a: real, b: real, c: real, st: real, et: real, v: real)
    requires 0.0 <= st <= et && et > 0.0 && c == b - a && v == LinearEase(st, a, c, et)
    ensures (if a <= b then a else b) <= v <= (if a <= b then b else a)
    ensures st == 0.0 ==> v == a
    ensures st == et ==> v == b
  {
    var f := st / et;
    DivBelowOrEqual(st, et);
    assert c * st / et == c * (st / et);
    var w := c * f;
    if a <= b {
      FractionOf(c, f);
    } else {
      FractionOfNegative(c, f);
    }
    if f == 1.0 {
      assert w == c;
    }
  }

  /** A value between the two channels truncates and clamps to a value between them. */
  lemma ChannelBetween(a: Byte, b: Byte, v: real)
    requires MinB(a, b) as real <= v <= MaxB(a, b) as real
    ensures MinB(a, b) <= ClampInt(Trunc(v), 0, 255) <= MaxB(a, b)
    ensures v == a as real ==> ClampInt(Trunc(v), 0, 255) == a
    ensures v == b as real ==> ClampInt(Trunc(v), 0, 255) == b
  {
  }

  lemma DivBelowOrEqual(x: real, y: real)
    requires 0.0 <= x <= y && y > 0.0
    ensures 0.0 <= x / y <= 1.0
    ensures x == 0.0 ==> x / y == 0.0
    ensures x == y ==> x / y == 1.0
  {
    assert (x / y) * y == x;
    DivSign(x, y);
    if x < y {
      DivBelow(x, y);
    }
  }

  lemma FractionOf(c: real, f: real)
    requires c >= 0.0 && 0.0 <= f <= 1.0
    ensures 0.0 <= c * f <= c
  {
    assert c * f <= c * 1.0;
  }

  lemma FractionOfNegative(c: real, f: real)
    requires c <= 0.0 && 0.0 <= f <= 1.0
    ensures c <= c * f <= 0.0
  {
    assert (-c) * f <= (-c) * 1.0;
  }

  /**
   * Under linear easing every channel of the mix lies between the two
   * colours' channels, and the mix starts at the first colour and ends at
   * the second.
   */
  lemma LinearMixBetween(a: Color, b: Color, st: real, et: real)
    requires 0.0 <= st <= et && et > 0.0
    ensures var c := MixColors(LinearEase, a, b, st, et);
      && MinB(a.r, b.r) <= c.r <= MaxB(a.r, b.r)
      && MinB(a.g, b.g) <= c.g <= MaxB(a.g, b.g)
      && MinB(a.b, b.b) <= c.b <= MaxB(a.b, b.b)
      && MinB(a.a, b.a) <= c.a <= MaxB(a.a, b.a)
      && (st == 0.0 ==> c == a)
      && (st == et ==> c == b)
  {
    LinearChannelBetween(a.r, b.r, st, et);
    LinearChannelBetween(a.g, b.g, st, et);
    LinearChannelBetween(a.b, b.b, st, et);
    LinearChannelBetween(a.a, b.a, st, et);
  }

  // ---------------------------------------------------------------------------
  // Choosing the gradient stretch
  // ---------------------------------------------------------------------------

  /** `floorf(time * max / life)`: the stretch of the gradient the age falls in. */
  function SegmentIndex(time: real, life: real, count: int): int
    requires life != 0.0
  {
    (time * (count - 1) as real / life).Floor
  }

  /** The length of one stretch, `life / max`. */
  function SegmentLength(life: real, count: int): real
    requires count >= 2
  {
    life / (count - 1) as real
  }

  /**
   * The gradient as `Interpolate` may read it: the colours in use fit the
   * buffer, and with two or more of them the particle is younger than its
   * life (an older one would select the colour past the last).
   */
  predicate CanInterpolate(g: Gradient, p: Particle) {
    g.colors != [] && g.count >= 2 ==> g.count <= |g.colors| && 0.0 <= p.time < p.life
  }

  /**
   * `fmodf(time, u)`, the age inside its stretch, snapped to `u` when one
   * more frame of `dt` would carry it past the stretch.
   */
  function StretchPosition(time: real, u: real, dt: real): (st: real)
    requires u > 0.0
    ensures time >= 0.0 ==> 0.0 <= st <= u
  {
    var st0 := FMod(time, u);
    if st0 + dt > u then u else st0
  }

  /**
   * `Interpolate`: RED without colours, the single colour when there is one,
   * otherwise the mix of the two colours bounding the particle's stretch at
   * the particle's position inside it. `dt` is the frame time read there.
   */
  function Interpolate(ease: EasingFn, g: Gradient, p: Particle, dt: real): (c: Color)
    requires g.count >= 0 && CanInterpolate(g, p)
    ensures g.colors == [] || g.count == 0 ==> c == RED
    ensures g.colors != [] && g.count == 1 ==> c == g.colors[0]
  {
    if g.colors == [] || g.count == 0 then RED
    else if g.count == 1 then g.colors[0]
    else
      var u := SegmentLength(p.life, g.count);
      var idx := SegmentIndex(p.time, p.life, g.count);
      SegmentIndexInRange(p.time, p.life, g.count);
      MixColors(ease, g.colors[idx], g.colors[idx + 1], StretchPosition(p.time, u, dt), u)
  }

  /**
   * For an age in [0, life) the stretch length is positive, the stretch
   * index is a valid one, 0 up to `count - 2`, and the age lies inside that
   * stretch: `idx * u <= time < idx * u + u`.
   */
  lemma SegmentIndexInRange(time: real, life: real, count: int)
    requires count >= 2 && 0.0 <= time < life
    ensures SegmentLength(life, count) > 0.0
    ensures 0 <= SegmentIndex(time, life, count) <= count - 2
    ensures var idx := SegmentIndex(time, life, count) as real;
      var u := SegmentLength(life, count);
      idx * u <= time < idx * u + u
  {
    var m := (count - 1) as real;
    var z := time * m / life;
    var u := life / m;
    IndexBounds(time, life, m, z);
    var k := z.Floor;
    assert 0 <= k <= count - 2;
    StretchWindow(time, life, m, z, u, k as real);
  }

  /** `time * m / life` lies in [0, m) for an age below the life. */
  lemma IndexBounds(time: real, life: real, m: real, z: real)
    requires 0.0 <= time < life && m >= 1.0 && z == time * m / life
    ensures 0.0 <= z < m
  {
    var f := time / life;
    DivBelow(time, life);
    assert m * time / life == m * (time / life);
    assert z == m * f;
    assert m * f < m * 1.0;
  }

  /** The stretch `k = floor(z)` of length `u = life / m` holds the age. */
  lemma StretchWindow(time: real, life: real, m: real, z: real, u: real, k: real)
    requires 0.0 < life && m >= 1.0 && z == time * m / life && u == life / m
    requires k <= z < k + 1.0
    ensures u > 0.0
    ensures k * u <= time < k * u + u
  {
    DivSign(life, m);
    assert (life / m) * m == life;
    assert z * u == time;
    var p := ScaledBelow(z, k, u);
  }

  /** At the end of its life a particle selects the stretch past the last. */
  lemma SegmentIndexAtEnd(life: real, count: int)
    requires count >= 2 && life > 0.0
    ensures SegmentIndex(life, life, count) == count - 1
  {
    var m := (count - 1) as real;
    var z := life * m / life;
    assert z == m;
    SegmentIndexIs(life, life, count, z);
  }

  /** `SegmentIndex` is the floor of the scaled age, stated apart from other arithmetic. */
  lemma SegmentIndexIs(time: real, life: real, count: int, z: real)
    requires life != 0.0 && z == time * (count - 1) as real / life
    ensures SegmentIndex(time, life, count) == z.Floor
  {
  }

  /**
   * The particle `PassLeavesOverAged` leaves in the pool (age 1.25, life 1)
   * is drawn before the next update reclaims it; with a gradient of three
   * colours it selects stretch 2, whose upper colour `colors[3]` is past the
   * colours in use; with all `MAX_COLORS` colours in use the upper colour it
   * selects lies past the colour buffer itself.
   */
  lemma OverAgedSelectsPastGradient()
    ensures var p := Particle(Zero2, Zero2, Zero2, 1.0, 0.0, 0.75, 1.0, 0.0, 0);
      var r := Pass([p], 0, 1, 0, 0.5, (x: Particle, h: real) => x.position);
      && |r.pool| == 1
      && !IsFree(r.pool[0])
      && SegmentIndex(r.pool[0].time, r.pool[0].life, 3) + 1 == 3
      && SegmentIndex(r.pool[0].time, r.pool[0].life, MAX_COLORS) + 1 > MAX_COLORS
      && !CanInterpolate(Gradient([RED, BLUE, RED], 3), r.pool[0])
  {
    PassLeavesOverAged();
    var p := Particle(Zero2, Zero2, Zero2, 1.0, 0.0, 0.75, 1.0, 0.0, 0);
    var move := (x: Particle, h: real) => x.position;
    assert Visit([p], 0, 0.5, move) == [p.(time := 1.25)];
    var q := Pass([p], 0, 1, 0, 0.5, move).pool[0];
    assert q.time == 1.25 && q.life == 1.0;
    assert q.time * 2.0 / q.life == 2.5;
    assert q.time * 15.0 / q.life == 18.75;
  }

  /**
   * Inside a valid stretch the colour is the mix of that stretch's two
   * colours, at a position between 0 and the stretch length.
   */
  lemma InterpolateStretch(ease: EasingFn, g: Gradient, p: Particle, dt: real)
    requires g.colors != [] && 2 <= g.count <= |g.colors| && 0.0 <= p.time < p.life
    ensures var k := SegmentIndex(p.time, p.life, g.count);
      var u := SegmentLength(p.life, g.count);
      && u > 0.0
      && 0 <= k <= g.count - 2
      && 0.0 <= StretchPosition(p.time, u, dt) <= u
      && Interpolate(ease, g, p, dt)
         == MixColors(ease, g.colors[k], g.colors[k + 1], StretchPosition(p.time, u, dt), u)
  {
    SegmentIndexInRange(p.time, p.life, g.count);
  }

  // ---------------------------------------------------------------------------
  // The stretch index kept inside the gradient
  // ---------------------------------------------------------------------------

  /** The stretch index held to the last stretch, `count - 2`, at and past the end of life. */
  function ClampedSegmentIndex(time: real, life: real, count: int): (k: int)
    requires life != 0.0 && count >= 2
    ensures 0 <= k <= count - 2
    ensures 0 <= SegmentIndex(time, life, count) <= count - 2 ==> k == SegmentIndex(time, life, count)
  {
    ClampInt(SegmentIndex(time, life, count), 0, count - 2)
  }

  /** What a drawn particle offers: the colours in use fit the buffer and its life is positive. */
  predicate CanDraw(g: Gradient, p: Particle) {
    g.colors != [] && g.count >= 2 ==> g.count <= |g.colors| && p.life > 0.0
  }

  /** `Interpolate` with the stretch index clamped, so that an over-aged particle keeps the last colours. */
  function InterpolateClamped(ease: EasingFn, g: Gradient, p: Particle, dt: real): (c: Color)
    requires g.count >= 0 && CanDraw(g, p)
    ensures g.colors == [] || g.count == 0 ==> c == RED
    ensures g.colors != [] && g.count == 1 ==> c == g.colors[0]
  {
    if g.colors == [] || g.count == 0 then RED
    else if g.count == 1 then g.colors[0]
    else
      var u := SegmentLength(p.life, g.count);
      var idx := ClampedSegmentIndex(p.time, p.life, g.count);
      PositiveStretch(p.life, g.count);
      MixColors(ease, g.colors[idx], g.colors[idx + 1], StretchPosition(p.time, u, dt), u)
  }

  lemma PositiveStretch(life: real, count: int)
    requires life > 0.0 && count >= 2
    ensures SegmentLength(life, count) > 0.0
  {
    var m := (count - 1) as real;
    assert (life / m) * m == life;
  }

  /** Wherever `Interpolate` reads inside the colours in use, clamping changes nothing. */
  lemma InterpolateClampedAgrees(ease: EasingFn, g: Gradient, p: Particle, dt: real)
    requires g.count >= 0 && CanInterpolate(g, p)
    ensures CanDraw(g, p) && InterpolateClamped(ease, g, p, dt) == Interpolate(ease, g, p, dt)
  {
    if g.colors != [] && g.count >= 2 {
      SegmentIndexInRange(p.time, p.life, g.count);
    }
  }

  /** At or past the end of its life a particle takes its colour from the last stretch. */
  lemma InterpolateClampedAtEnd(ease: EasingFn, g: Gradient, p: Particle, dt: real)
    requires g.colors != [] && 2 <= g.count <= |g.colors| && 0.0 < p.life <= p.time
    ensures SegmentLength(p.life, g.count) > 0.0
    ensures var u := SegmentLength(p.life, g.count);
      InterpolateClamped(ease, g, p, dt)
      == MixColors(ease, g.colors[g.count - 2], g.colors[g.count - 1], StretchPosition(p.time, u, dt), u)
  {
    PositiveStretch(p.life, g.count);
    SegmentIndexPastEnd(p.time, p.life, g.count);
  }

  /** From the end of life on, the unclamped index is `count - 1` or more. */
  lemma SegmentIndexPastEnd(time: real, life: real, count: int)
    requires count >= 2 && 0.0 < life <= time
    ensures SegmentIndex(time, life, count) >= count - 1
  {
    var m := (count - 1) as real;
    var z := time * m / life;
    assert life * m <= time * m;
    assert (life * m) / life <= (time * m) / life;
    assert life * m / life == m;
    assert z >= m;
    SegmentIndexIs(time, life, count, z);
  }

}
