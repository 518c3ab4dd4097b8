/**
 * How `ParticleUpdate` moves one particle during one frame step `h`:
 * a speed eased along the acceleration curve, a tangential push turned by
 * plus or minus 90 degrees around the new position, and the sum of the
 * emitter's forces. The easing curve and the trigonometry are parameters.
 */
module Motion {
  import opened CMath
  import opened ParticleTypes
  import opened Spawn

  /** `RotatePointOnCircle(o, p, a)`: `p` turned `a` degrees around `o`. */
  function Rotate(t: Trig, o: Vector2, p: Vector2, a: real): Vector2 {
    var c := t.cos(a);
    var s := t.sin(a);
    Vector2(o.x + (p.x - o.x) * c - (p.y - o.y) * s, o.y + (p.x - o.x) * s + (p.y - o.y) * c)
  }

  function Dist2(a: Vector2, b: Vector2): real {
    (a.x - b.x) * (a.x - b.x) + (a.y - b.y) * (a.y - b.y)
  }

  /** The centre of a rotation stays where it is. */
  lemma RotateCentre(t: Trig, o: Vector2, a: real)
    ensures Rotate(t, o, o, a) == o
  {
  }

  lemma RotateTerms(dx: real, dy: real, c: real, s: real)
    ensures (dx * c - dy * s) * (dx * c - dy * s) + (dx * s + dy * c) * (dx * s + dy * c)
         == (dx * dx + dy * dy) * (c * c + s * s)
  {
  }

  /** With a consistent cosine and sine, rotating keeps the distance to the centre. */
  lemma RotateKeepsDistance(t: Trig, o: Vector2, p: Vector2, a: real)
    requires t.cos(a) * t.cos(a) + t.sin(a) * t.sin(a) == 1.0
    ensures Dist2(Rotate(t, o, p, a), o) == Dist2(p, o)
  {
    RotateTerms(p.x - o.x, p.y - o.y, t.cos(a), t.sin(a));
  }

  /** Trigonometry that is exact at the quarter turns the tangential push uses. */
  predicate QuarterTurns(t: Trig) {
    t.cos(90.0) == 0.0 && t.sin(90.0) == 1.0 && t.cos(-90.0) == 0.0 && t.sin(-90.0) == -1.0
  }

  /**
   * The tangential part of `ParticleUpdate`: for a non-zero push `tacc` the
   * new position `npos` is moved `tacc` along the (normalised) radial
   * direction and that point is turned a quarter turn around `npos`,
   * anticlockwise for a positive push, clockwise (with the radial direction
   * reversed) for a negative one.
   */
  function Tangential(t: Trig, origin: Vector2, npos: Vector2, tacc: real): Vector2 {
    if tacc == 0.0 then npos
    else
      var n := if tacc < 0.0 then Sub(origin, npos) else Sub(npos, origin);
      var angle := if tacc < 0.0 then -90.0 else 90.0;
      Rotate(t, npos, Add(npos, Scale(t.normalize(n), tacc)), angle)
  }

  function Perp(v: Vector2): Vector2 { Vector2(-v.y, v.x) }

  /**
   * The push is sideways: at exact quarter turns the displacement is the
   * pushed radial direction turned by 90 degrees, so it is perpendicular to
   * the radial direction.
   */
  lemma TangentialIsSideways(t: Trig, origin: Vector2, npos: Vector2, tacc: real)
    requires QuarterTurns(t) && tacc != 0.0
    ensures var n := t.normalize(if tacc < 0.0 then Sub(origin, npos) else Sub(npos, origin));
      var d := Sub(Tangential(t, origin, npos, tacc), npos);
      && d == (if tacc < 0.0 then Negate(Perp(Scale(n, tacc))) else Perp(Scale(n, tacc)))
      && Dot(d, n) == 0.0
  {
    var n := t.normalize(if tacc < 0.0 then Sub(origin, npos) else Sub(npos, origin));
    var v := Scale(n, tacc);
    var d := Sub(Tangential(t, origin, npos, tacc), npos);
    assert d == (if tacc < 0.0 then Negate(Perp(v)) else Perp(v));
    PerpDot(n, tacc);
  }

  lemma PerpDot(n: Vector2, k: real)
    ensures Dot(Perp(Scale(n, k)), n) == 0.0 && Dot(Negate(Perp(Scale(n, k))), n) == 0.0
  {
  }

  /** The forces in use: the first `count` of the buffer (clipped to the buffer). */
  function ActiveForces(f: Forces): seq<Force> {
    f.data[..ClampInt(f.count, 0, |f.data|)]
  }

  /** One force's step: its unit direction scaled by `strength * h`. */
  function ForceStep(t: Trig, f: Force, h: real): Vector2 {
    Scale(t.normalize(Vector2(t.cos(f.direction), t.sin(f.direction))), f.strength * h)
  }

  /** The forces added one after another, from the first. */
  function ForcesTotal(t: Trig, fs: seq<Force>, h: real): Vector2 {
    if fs == [] then Zero2 else Add(ForcesTotal(t, fs[..|fs| - 1], h), ForceStep(t, fs[|fs| - 1], h))
  }

  /** Forces combine additively: splitting the list splits the total. */
  lemma {:induction false} ForcesTotalAppend(t: Trig, a: seq<Force>, b: seq<Force>, h: real)
    ensures ForcesTotal(t, a + b, h) == Add(ForcesTotal(t, a, h), ForcesTotal(t, b, h))
    decreases |b|
  {
    if b == [] {
      assert a + b == a;
    } else {
      var b' := b[..|b| - 1];
      assert (a + b)[..|a + b| - 1] == a + b';
      ForcesTotalAppend(t, a, b', h);
    }
  }

  /** Forces of zero strength push nothing. */
  lemma {:induction false} ForcesTotalZero(t: Trig, fs: seq<Force>, h: real)
    requires forall i :: 0 <= i < |fs| ==> fs[i].strength == 0.0
    ensures ForcesTotal(t, fs, h) == Zero2
    decreases |fs|
  {
    if fs != [] {
      ForcesTotalZero(t, fs[..|fs| - 1], h);
    }
  }

  /** The accumulation loop of `ParticleUpdate`, over the forces in use. */
  method SumForces(t: Trig, f: Forces, h: real) returns (total: Vector2)
    ensures total == ForcesTotal(t, ActiveForces(f), h)
  {
    var fs := ActiveForces(f);
    total := Zero2;
    var i := 0;
    while i < |fs|
      invariant 0 <= i <= |fs|
      invariant total == ForcesTotal(t, fs[..i], h)
    {
      assert fs[..i + 1][..i] == fs[..i];
      total := Add(total, ForceStep(t, fs[i], h));
      i := i + 1;
    }
    assert fs[..i] == fs;
  }

  /**
   * The new position `ParticleUpdate` computes for `p`: the speed plus the
   * eased acceleration, times `h`, along the direction; then the tangential
   * push; then the forces.
   */
  function Move(cfg: EmitterConfig, ease: EasingFn, t: Trig, p: Particle, h: real): Vector2 {
    var speed := (p.speed + ease(p.time, cfg.acc.start, cfg.acc.end - cfg.acc.start, p.life)) * h;
    var npos := Add(p.position, Scale(p.direction, speed));
    var tacc := ease(p.time, cfg.tacc.start, cfg.tacc.end - cfg.tacc.start, p.life) * h;
    Add(Tangential(t, p.origin, npos, tacc), ForcesTotal(t, ActiveForces(cfg.forces), h))
  }

  /**
   * With no tangential push and no forces the particle travels in a straight
   * line along its direction, by its speed plus the eased acceleration.
   */
  lemma MoveStraight(cfg: EmitterConfig, ease: EasingFn, t: Trig, p: Particle, h: real)
    requires ease(p.time, cfg.tacc.start, cfg.tacc.end - cfg.tacc.start, p.life) == 0.0
    requires ClampInt(cfg.forces.count, 0, |cfg.forces.data|) == 0
    ensures exists k :: Move(cfg, ease, t, p, h) == Add(p.position, Scale(p.direction, k))
  {
    var k := (p.speed + ease(p.time, cfg.acc.start, cfg.acc.end - cfg.acc.start, p.life)) * h;
    var npos := Add(p.position, Scale(p.direction, k));
    assert ActiveForces(cfg.forces) == [];
    assert Tangential(t, p.origin, npos, 0.0) == npos;
    assert Move(cfg, ease, t, p, h) == Add(npos, Zero2);
  }
}
