/**
 * Where a new particle starts and where it heads (`ParticleGenerate` in
 * particles.h), with the angle helpers `NormalizeAngle` and `GetQuadrant` and
 * the eight-octant walk round a rectangle's outline.
 *
 * Randomness is supplied: each `GetRandomFloat()` draw is a field of `Samples`
 * (a value in [0, 1]) and each `GetRandomValue` result an `int` field.
 * Trigonometry and vector normalisation are the parameters of `Trig`; angles
 * are passed to them in degrees, the `DEG2RAD` factor folded in.
 */
module Spawn {
  import opened CMath
  import opened ParticleTypes

  // ---------------------------------------------------------------------------
  // Angles
  // ---------------------------------------------------------------------------

  /** `NormalizeAngle`: `fmodf(angle, 360)`, lifted by 360 when negative. */
  function NormalizeAngle(a: real): (r: real)
    ensures 0.0 <= r < 360.0
  {
    var m := FMod(a, 360.0);
    if m < 0.0 then m + 360.0 else m
  }

  /** `fmodf(x, y)` is `x` minus a whole multiple of `y`. */
  lemma FModMultiple(x: real, y: real) returns (k: int)
    requires y > 0.0
    ensures FMod(x, y) == x - k as real * y
  {
    k := Trunc(x / y);
  }

  /** Below the divisor, `fmodf` of a non-negative value is the value itself. */
  lemma FModSmall(x: real, y: real)
    requires 0.0 <= x < y
    ensures FMod(x, y) == x
  {
    DivBelow(x, y);
    assert Trunc(x / y) == 0;
  }

  /** Two representatives of an angle in [0, 360) that differ by whole turns are equal. */
  lemma SameTurn(a: real, k: int, m: int)
    requires 0.0 <= a - k as real * 360.0 < 360.0
    requires 0.0 <= a - m as real * 360.0 < 360.0
    ensures k == m
  {
    var d := (k - m) as real;
    assert -360.0 < d * 360.0 < 360.0;
    assert -1.0 < d < 1.0;
  }

  /**
   * The result is the one angle in [0, 360) that differs from the input by
   * whole turns: whatever representative `a - 360k` of that range one picks,
   * `NormalizeAngle(a)` is it. In particular it leaves angles already in
   * range alone and is unchanged by adding whole turns.
   */
  lemma NormalizeAngleCanonical(a: real, k: int)
    requires 0.0 <= a - k as real * 360.0 < 360.0
    ensures NormalizeAngle(a) == a - k as real * 360.0
  {
    var q := FModMultiple(a, 360.0);
    var m := if FMod(a, 360.0) < 0.0 then q - 1 else q;
    assert NormalizeAngle(a) == a - m as real * 360.0;
    SameTurn(a, k, m);
  }

  lemma NormalizeAnglePeriodic(a: real, n: int)
    ensures NormalizeAngle(a + n as real * 360.0) == NormalizeAngle(a)
  {
    var q := FModMultiple(a, 360.0);
    var m := if FMod(a, 360.0) < 0.0 then q - 1 else q;
    assert NormalizeAngle(a) == a - m as real * 360.0;
    NormalizeAngleCanonical(a + n as real * 360.0, m + n);
  }

  /** `GetQuadrant`: which of the eight 45-degree sectors the angle falls in. */
  function GetQuadrant(a: real): (q: int)
    ensures 0 <= q < 8
  {
    Trunc(FMod(NormalizeAngle(a) / 45.0, 8.0))
  }

  /** Sector `q` is the one holding the normalised angle: `45q <= angle < 45(q+1)`. */
  lemma GetQuadrantSector(a: real)
    ensures var q := GetQuadrant(a) as real;
      q * 45.0 <= NormalizeAngle(a) < q * 45.0 + 45.0
    ensures GetQuadrant(a) == Trunc(NormalizeAngle(a) / 45.0)
  {
    var x := NormalizeAngle(a) / 45.0;
    assert x * 45.0 == NormalizeAngle(a);
    FModSmall(x, 8.0);
    var q := Trunc(x) as real;
  }

  // ---------------------------------------------------------------------------
  // The rectangle outline
  // ---------------------------------------------------------------------------

  /**
   * The `qw`/`qh` tables: the point `pc` of the way along octant `q` of the
   * outline of a `w` by `h` rectangle centred on the origin, walking
   * anticlockwise from the middle of the right side.
   */
  function Octant(w: real, h: real, q: int, pc: real): Vector2
    requires 0 <= q < 8
  {
    var qw := [w / 2.0, (w / 2.0) * (1.0 - pc), (-w / 2.0) * pc, -w / 2.0,
               -w / 2.0, (-w / 2.0) * (1.0 - pc), (w / 2.0) * pc, w / 2.0];
    var qh := [(h / 2.0) * pc, h / 2.0, h / 2.0, (h / 2.0) * (1.0 - pc),
               (-h / 2.0) * pc, -h / 2.0, -h / 2.0, (-h / 2.0) * (1.0 - pc)];
    Vector2(qw[q], qh[q])
  }

  function Abs(x: real): real { if x < 0.0 then -x else x }

  /** The point lies on the outline of the `w` by `h` rectangle centred on the origin. */
  predicate OnOutline(v: Vector2, w: real, h: real) {
    (Abs(v.x) == w / 2.0 && Abs(v.y) <= h / 2.0) || (Abs(v.y) == h / 2.0 && Abs(v.x) <= w / 2.0)
  }

  lemma ScaleBelow(k: real, pc: real)
    requires k >= 0.0 && 0.0 <= pc <= 1.0
    ensures 0.0 <= k * pc <= k && 0.0 <= k * (1.0 - pc) <= k
  {
  }

  /** Every table entry sits on the outline. */
  lemma OctantOnOutline(w: real, h: real, q: int, pc: real)
    requires 0 <= q < 8 && w >= 0.0 && h >= 0.0 && 0.0 <= pc <= 1.0
    ensures OnOutline(Octant(w, h, q, pc), w, h)
  {
    ScaleBelow(w / 2.0, pc);
    ScaleBelow(h / 2.0, pc);
    assert (-w / 2.0) * pc == -((w / 2.0) * pc);
    assert (-w / 2.0) * (1.0 - pc) == -((w / 2.0) * (1.0 - pc));
    assert (-h / 2.0) * pc == -((h / 2.0) * pc);
    assert (-h / 2.0) * (1.0 - pc) == -((h / 2.0) * (1.0 - pc));
  }

  /** The end of each octant is the start of the next: the walk has no gaps. */
  lemma OctantContinuous(w: real, h: real, q: int)
    requires 0 <= q < 8
    ensures Octant(w, h, q, 1.0) == Octant(w, h, (q + 1) % 8, 0.0)
  {
  }

  /** Where the outside-rectangle case of `ParticleGenerate` puts a particle, relative to its offset. */
  function RectOutline(w: real, h: real, angle: real): Vector2 {
    var pc := FMod(NormalizeAngle(angle), 45.0) / 45.0;
    Octant(w, h, GetQuadrant(angle), pc)
  }

  /**
   * The point is the table entry of the angle's sector, at the fraction of
   * the sector the angle has covered; it lies on the outline.
   */
  lemma RectOutlineSector(w: real, h: real, angle: real)
    ensures var q := GetQuadrant(angle);
      RectOutline(w, h, angle) == Octant(w, h, q, (NormalizeAngle(angle) - q as real * 45.0) / 45.0)
    ensures w >= 0.0 && h >= 0.0 ==> OnOutline(RectOutline(w, h, angle), w, h)
  {
    var a := NormalizeAngle(angle);
    GetQuadrantSector(angle);
    var k := FModMultiple(a, 45.0);
    assert k == Trunc(a / 45.0);
    var pc := FMod(a, 45.0) / 45.0;
    assert 0.0 <= pc < 1.0;
    if w >= 0.0 && h >= 0.0 {
      OctantOnOutline(w, h, GetQuadrant(angle), pc);
    }
  }

  // ---------------------------------------------------------------------------
  // Generating a particle
  // ---------------------------------------------------------------------------

  /** The random draws one `ParticleGenerate` call makes. */
  datatype Samples = Samples(
    offsetX: real, offsetY: real,  // the offset on each axis
    angle: real,                   // the spawn angle
    radius: real,                  // the distance inside a circle or between rings
    side: real,                    // which ring edge, outside spawning
    size: real, speed: real, life: real,
    tidx: int,                     // GetRandomValue(0, frames - 1)
    insideX: int, insideY: int)    // GetRandomValue over the rectangle

  /** Every `GetRandomFloat()` draw lies in [0, 1]. */
  predicate UnitSamples(s: Samples) {
    && 0.0 <= s.offsetX <= 1.0 && 0.0 <= s.offsetY <= 1.0 && 0.0 <= s.angle <= 1.0
    && 0.0 <= s.radius <= 1.0 && 0.0 <= s.side <= 1.0
    && 0.0 <= s.size <= 1.0 && 0.0 <= s.speed <= 1.0 && 0.0 <= s.life <= 1.0
  }

  /** The trigonometry the code calls: cosine and sine of degrees, and `Vector2Normalize`. */
  datatype Trig = Trig(cos: real -> real, sin: real -> real, normalize: Vector2 -> Vector2)

  /** `GetRandomFloatBetween(lo, hi)` for the draw `u`. */
  function Between(lo: real, hi: real, u: real): real {
    lo + (hi - lo) * u
  }

  lemma BetweenBounds(lo: real, hi: real, u: real)
    requires lo <= hi && 0.0 <= u <= 1.0
    ensures lo <= Between(lo, hi, u) <= hi
    ensures u == 0.0 ==> Between(lo, hi, u) == lo
    ensures u == 1.0 ==> Between(lo, hi, u) == hi
  {
    ScaleBelow(hi - lo, u);
  }

  /** The ring radii in ascending order: `ra` and `rb` are swapped when `ra > rb`. */
  function RingRadii(ra: real, rb: real): (r: (real, real))
    ensures r.0 <= r.1
    ensures {r.0, r.1} == {ra, rb}
  {
    if ra > rb then (rb, ra) else (ra, rb)
  }

  /** Origin (relative to the emitter), direction and angle, by container shape. */
  datatype Placement = Placement(origin: Vector2, direction: Vector2, angle: real)

  /** `Vector2Normalize((Vector2){kx*cosf(angle), ky*sinf(angle)})`. */
  function Heading(t: Trig, kx: real, ky: real, angle: real): Vector2 {
    t.normalize(Vector2(kx * t.cos(angle), ky * t.sin(angle)))
  }

  function Place(c: Container, inside: bool, angle: real, offset: Vector2,
                 s: Samples, t: Trig): Placement
  {
    match c.kind
    case EmitterPoint =>
      Placement(offset, t.normalize(Vector2(t.cos(angle), t.sin(angle))), angle)
    case EmitterRect =>
      var w := c.opt1;
      var h := c.opt2;
      var o := if !inside then RectOutline(w, h, angle)
               else Vector2(s.insideX as real, s.insideY as real);
      Placement(Add(o, offset), Heading(t, w, h, angle), angle)
    case EmitterCircle =>
      var r := c.opt1;
      var d := Heading(t, r, r, angle);
      var o := if !inside then Scale(d, r) else Scale(d, Between(0.0, r, s.radius));
      Placement(Add(o, offset), d, angle)
    case EmitterRing =>
      var radii := RingRadii(c.opt1, c.opt2);
      var ra := radii.0;
      var rb := radii.1;
      var d := Heading(t, rb, rb, angle);
      if inside then Placement(Add(Scale(d, Between(ra, rb, s.radius)), offset), d, angle)
      else if s.side >= 0.5 then Placement(Add(Scale(d, rb), offset), d, angle)
      else Placement(Add(Scale(d, ra), offset), Negate(d), -angle)
  }

  /** Number of cells in the texture atlas. */
  function Frames(cfg: EmitterConfig): int {
    cfg.atlas.hframes * cfg.atlas.vframes
  }

  /**
   * `ParticleGenerate`. A local emitter places the origin relative to its
   * position. The texture index is only drawn for an atlas with more than
   * one cell (the C code leaves it unset otherwise; here it is 0).
   */
  function Generate(cfg: EmitterConfig, flags: bv32, position: Vector2,
                    s: Samples, t: Trig): Particle
  {
    var offset := Vector2(Between(cfg.offset.min, cfg.offset.max, s.offsetX),
                          Between(cfg.offset.min, cfg.offset.max, s.offsetY));
    var angle := Between(cfg.angle.min, cfg.angle.max, s.angle);
    var pl := Place(cfg.container, HasFlag(flags, FLAG_SPAWN_INSIDE), angle, offset, s, t);
    var origin := if !HasFlag(flags, FLAG_WORLD_SPACE) then Add(pl.origin, position) else pl.origin;
    Particle(origin, pl.direction, origin,
             Between(cfg.size.min, cfg.size.max, s.size),
             Between(cfg.speed.min, cfg.speed.max, s.speed),
             0.0,
             Between(cfg.age.min, cfg.age.max, s.life),
             pl.angle,
             if Frames(cfg) > 1 then s.tidx else 0)
  }

  /** The emitter's own position, unless the emitter works in world space. */
  function Anchor(flags: bv32, position: Vector2): Vector2 {
    if HasFlag(flags, FLAG_WORLD_SPACE) then Zero2 else position
  }

  /**
   * A new particle starts at its origin with age 0; its size, speed and life
   * are drawn from the configured ranges, so its life is non-zero (the slot
   * counts as taken) whenever the minimum age is positive.
   */
  lemma GenerateFresh(cfg: EmitterConfig, flags: bv32, position: Vector2, s: Samples, t: Trig)
    requires UnitSamples(s)
    requires cfg.size.min <= cfg.size.max && cfg.speed.min <= cfg.speed.max
    requires cfg.age.min <= cfg.age.max
    ensures var p := Generate(cfg, flags, position, s, t);
      && p.position == p.origin && p.time == 0.0
      && cfg.size.min <= p.size <= cfg.size.max
      && cfg.speed.min <= p.speed <= cfg.speed.max
      && cfg.age.min <= p.life <= cfg.age.max
      && (cfg.age.min > 0.0 ==> !IsFree(p))
  {
    BetweenBounds(cfg.size.min, cfg.size.max, s.size);
    BetweenBounds(cfg.speed.min, cfg.speed.max, s.speed);
    BetweenBounds(cfg.age.min, cfg.age.max, s.life);
  }

  /** The texture index is a cell of the atlas, when the draw is. */
  lemma GenerateTextureIndex(cfg: EmitterConfig, flags: bv32, position: Vector2, s: Samples, t: Trig)
    requires Frames(cfg) > 1 ==> 0 <= s.tidx <= Frames(cfg) - 1
    ensures var p := Generate(cfg, flags, position, s, t);
      0 <= p.tidx && (Frames(cfg) > 1 ==> p.tidx < Frames(cfg)) && (Frames(cfg) <= 1 ==> p.tidx == 0)
  {
  }

  /** The offset added to every origin, as `Generate` draws it. */
  function Offset(cfg: EmitterConfig, s: Samples): Vector2 {
    Vector2(Between(cfg.offset.min, cfg.offset.max, s.offsetX),
            Between(cfg.offset.min, cfg.offset.max, s.offsetY))
  }

  /** The spawn angle, as `Generate` draws it. */
  function SpawnAngle(cfg: EmitterConfig, s: Samples): real {
    Between(cfg.angle.min, cfg.angle.max, s.angle)
  }

  lemma SubAdd(o: Vector2, v: Vector2)
    ensures Sub(Add(o, v), v) == o
  {
  }

  /** The particle's origin is the placement's, moved to the anchor. */
  lemma GeneratePlacement(cfg: EmitterConfig, flags: bv32, position: Vector2, s: Samples, t: Trig)
    ensures var p := Generate(cfg, flags, position, s, t);
      var pl := Place(cfg.container, HasFlag(flags, FLAG_SPAWN_INSIDE), SpawnAngle(cfg, s), Offset(cfg, s), s, t);
      p.direction == pl.direction && p.angle == pl.angle && Sub(p.origin, Anchor(flags, position)) == pl.origin
  {
    var pl := Place(cfg.container, HasFlag(flags, FLAG_SPAWN_INSIDE), SpawnAngle(cfg, s), Offset(cfg, s), s, t);
    SubAdd(pl.origin, position);
  }

  /**
   * Spawning outside a rectangle puts the particle on the rectangle's outline
   * at the spot the angle's octant table gives, shifted by the offset and the
   * anchor.
   */
  lemma GenerateRectOutside(cfg: EmitterConfig, flags: bv32, position: Vector2, s: Samples, t: Trig)
    requires cfg.container.kind == EmitterRect && !HasFlag(flags, FLAG_SPAWN_INSIDE)
    requires cfg.container.opt1 >= 0.0 && cfg.container.opt2 >= 0.0
    ensures var p := Generate(cfg, flags, position, s, t);
      var rel := Sub(Sub(p.origin, Anchor(flags, position)), Offset(cfg, s));
      && rel == RectOutline(cfg.container.opt1, cfg.container.opt2, SpawnAngle(cfg, s))
      && OnOutline(rel, cfg.container.opt1, cfg.container.opt2)
  {
    var o := RectOutline(cfg.container.opt1, cfg.container.opt2, SpawnAngle(cfg, s));
    RectOutlineSector(cfg.container.opt1, cfg.container.opt2, SpawnAngle(cfg, s));
    GeneratePlacement(cfg, flags, position, s, t);
    SubAdd(o, Offset(cfg, s));
  }

  /**
   * Spawning inside a rectangle draws integer coordinates; when the draws lie
   * in the ranges `GetRandomValue` was given, the particle is within the
   * rectangle.
   */
  lemma GenerateRectInside(cfg: EmitterConfig, flags: bv32, position: Vector2, s: Samples, t: Trig)
    requires cfg.container.kind == EmitterRect && HasFlag(flags, FLAG_SPAWN_INSIDE)
    requires cfg.container.opt1 >= 0.0 && cfg.container.opt2 >= 0.0
    requires var w := cfg.container.opt1; var h := cfg.container.opt2;
      Trunc(-w / 2.0) <= s.insideX <= Trunc(w / 2.0) && Trunc(-h / 2.0) <= s.insideY <= Trunc(h / 2.0)
    ensures var p := Generate(cfg, flags, position, s, t);
      var rel := Sub(Sub(p.origin, Anchor(flags, position)), Offset(cfg, s));
      Abs(rel.x) <= cfg.container.opt1 / 2.0 && Abs(rel.y) <= cfg.container.opt2 / 2.0
  {
    GeneratePlacement(cfg, flags, position, s, t);
    SubAdd(Vector2(s.insideX as real, s.insideY as real), Offset(cfg, s));
  }

  /**
   * Circle: the direction is the normalised spawn direction and the particle
   * starts along it at the radius (outside) or at a drawn fraction of it
   * (inside).
   */
  lemma GenerateCircle(cfg: EmitterConfig, flags: bv32, position: Vector2, s: Samples, t: Trig)
    requires cfg.container.kind == EmitterCircle
    ensures var p := Generate(cfg, flags, position, s, t);
      var r := cfg.container.opt1;
      var a := SpawnAngle(cfg, s);
      var rel := Sub(Sub(p.origin, Anchor(flags, position)), Offset(cfg, s));
      && p.direction == Heading(t, r, r, a)
      && p.angle == a
      && rel == Scale(p.direction, if HasFlag(flags, FLAG_SPAWN_INSIDE) then Between(0.0, r, s.radius) else r)
  {
    var r := cfg.container.opt1;
    var a := SpawnAngle(cfg, s);
    var d := Heading(t, r, r, a);
    var k := if HasFlag(flags, FLAG_SPAWN_INSIDE) then Between(0.0, r, s.radius) else r;
    var pl := Place(cfg.container, HasFlag(flags, FLAG_SPAWN_INSIDE), a, Offset(cfg, s), s, t);
    assert pl == Placement(Add(Scale(d, k), Offset(cfg, s)), d, a);
    GeneratePlacement(cfg, flags, position, s, t);
    SubAdd(Scale(d, k), Offset(cfg, s));
  }

  /**
   * Ring, outside spawning: whichever order the radii are configured in, a
   * draw of at least 0.5 starts the particle on the outer radius heading out;
   * a smaller one starts it on the inner radius with direction and angle
   * reversed.
   */
  lemma GenerateRingOutside(cfg: EmitterConfig, flags: bv32, position: Vector2, s: Samples, t: Trig)
    requires cfg.container.kind == EmitterRing && !HasFlag(flags, FLAG_SPAWN_INSIDE)
    ensures var p := Generate(cfg, flags, position, s, t);
      var inner := Min2(cfg.container.opt1, cfg.container.opt2);
      var outer := Max2(cfg.container.opt1, cfg.container.opt2);
      var a := SpawnAngle(cfg, s);
      var d := Heading(t, outer, outer, a);
      var rel := Sub(Sub(p.origin, Anchor(flags, position)), Offset(cfg, s));
      && (s.side >= 0.5 ==> rel == Scale(d, outer) && p.direction == d && p.angle == a)
      && (s.side < 0.5 ==> rel == Scale(d, inner) && p.direction == Negate(d) && p.angle == -a)
  {
    var inner := Min2(cfg.container.opt1, cfg.container.opt2);
    var outer := Max2(cfg.container.opt1, cfg.container.opt2);
    var a := SpawnAngle(cfg, s);
    var d := Heading(t, outer, outer, a);
    assert RingRadii(cfg.container.opt1, cfg.container.opt2) == (inner, outer);
    var pl := Place(cfg.container, false, a, Offset(cfg, s), s, t);
    if s.side >= 0.5 {
      assert pl == Placement(Add(Scale(d, outer), Offset(cfg, s)), d, a);
      SubAdd(Scale(d, outer), Offset(cfg, s));
    } else {
      assert pl == Placement(Add(Scale(d, inner), Offset(cfg, s)), Negate(d), -a);
      SubAdd(Scale(d, inner), Offset(cfg, s));
    }
    GeneratePlacement(cfg, flags, position, s, t);
  }

  /** Ring, inside spawning: the particle starts between the two radii. */
  lemma GenerateRingInside(cfg: EmitterConfig, flags: bv32, position: Vector2, s: Samples, t: Trig)
    requires cfg.container.kind == EmitterRing && HasFlag(flags, FLAG_SPAWN_INSIDE)
    requires 0.0 <= s.radius <= 1.0
    ensures var p := Generate(cfg, flags, position, s, t);
      var inner := Min2(cfg.container.opt1, cfg.container.opt2);
      var outer := Max2(cfg.container.opt1, cfg.container.opt2);
      var rel := Sub(Sub(p.origin, Anchor(flags, position)), Offset(cfg, s));
      exists k :: inner <= k <= outer && rel == Scale(p.direction, k)
  {
    var p := Generate(cfg, flags, position, s, t);
    var inner := Min2(cfg.container.opt1, cfg.container.opt2);
    var outer := Max2(cfg.container.opt1, cfg.container.opt2);
    assert RingRadii(cfg.container.opt1, cfg.container.opt2) == (inner, outer);
    var k := Between(inner, outer, s.radius);
    BetweenBounds(inner, outer, s.radius);
    GeneratePlacement(cfg, flags, position, s, t);
    SubAdd(Scale(p.direction, k), Offset(cfg, s));
  }

  function Min2(a: real, b: real): real { if a <= b then a else b }
  function Max2(a: real, b: real): real { if a >= b then a else b }
}
