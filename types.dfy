/**
 * The data of particles.h: vectors, colours, the particle record, the emitter
 * configuration and the emitter flag bits. Floats are `real`s; a C `int` that
 * the code only compares and counts is an `int`; the flag word is a `bv32`.
 */
module ParticleTypes {

  datatype Vector2 = Vector2(x: real, y: real)

  function Add(a: Vector2, b: Vector2): Vector2 { Vector2(a.x + b.x, a.y + b.y) }
  function Sub(a: Vector2, b: Vector2): Vector2 { Vector2(a.x - b.x, a.y - b.y) }
  function Scale(v: Vector2, k: real): Vector2 { Vector2(v.x * k, v.y * k) }
  function Negate(v: Vector2): Vector2 { Vector2(-v.x, -v.y) }
  function Dot(a: Vector2, b: Vector2): real { a.x * b.x + a.y * b.y }

  const Zero2: Vector2 := Vector2(0.0, 0.0)

  /** A colour channel: raylib's `unsigned char`. */
  type Byte = x: int | 0 <= x < 256

  datatype Color = Color(r: Byte, g: Byte, b: Byte, a: Byte)

  /** raylib's RED and BLUE. */
  const RED: Color := Color(230, 41, 55, 255)
  const BLUE: Color := Color(0, 121, 241, 255)
  const BLANK: Color := Color(0, 0, 0, 0)

  /** One slot of an emitter's pool; `life == 0` marks the slot free. */
  datatype Particle = Particle(
    origin: Vector2,      // position when spawned
    direction: Vector2,   // normalised direction of travel
    position: Vector2,    // current position
    size: real,           // initial size
    speed: real,          // initial speed
    time: real,           // current age
    life: real,           // total life; 0 means the slot is free
    angle: real,          // spawn angle in degrees
    tidx: int)            // multitexture index

  predicate IsFree(p: Particle) { p.life == 0.0 }

  /** A slot cleared by `memset(.., 0, ..)`. */
  const ZeroParticle: Particle :=
    Particle(Zero2, Zero2, Zero2, 0.0, 0.0, 0.0, 0.0, 0.0, 0)

  /**
   * An easing function `f(t, b, c, d)`: elapsed time, start value, change and
   * duration. The curves themselves come from easings.h and stay abstract.
   */
  type EasingFn = (real, real, real, real) -> real

  /** easings.h's `EaseLinearNone`, `c*t/d + b`, used by the lemmas as a concrete curve. */
  function LinearEase(t: real, b: real, c: real, d: real): real {
    if d == 0.0 then b else c * t / d + b
  }

  /**
   * The identity of the easing function `config.easing` refers to.
   * `NoEasing` is the NULL of a zeroed configuration.
   */
  datatype Ease =
    | NoEasing
    | EaseLinearNone | EaseSineIn | EaseSineOut | EaseSineInOut
    | EaseCircIn | EaseCircOut | EaseCircInOut
    | EaseCubicIn | EaseCubicOut | EaseCubicInOut
    | EaseQuadIn | EaseQuadOut | EaseQuadInOut
    | EaseExpoIn | EaseExpoOut | EaseExpoInOut
    | EaseBackIn | EaseBackOut | EaseBackInOut
    | EaseBounceIn | EaseBounceOut | EaseBounceInOut
    | EaseElasticIn | EaseElasticOut | EaseElasticInOut

  datatype Range = Range(min: real, max: real)
  datatype Curve = Curve(start: real, end: real)

  datatype Force = Force(direction: real, strength: real)
  /** The force buffer and the number of forces in use. */
  datatype Forces = Forces(data: seq<Force>, count: int)

  datatype Texture = Texture(id: int, width: int, height: int)
  datatype Atlas = Atlas(texture: Texture, hframes: int, vframes: int, loop: int)

  /** The colour buffer and the number of colours in use; a NULL buffer is `[]`. */
  datatype Gradient = Gradient(colors: seq<Color>, count: int)

  datatype ContainerType = EmitterPoint | EmitterRect | EmitterCircle | EmitterRing
  datatype Container = Container(kind: ContainerType, opt1: real, opt2: real)

  datatype EmitterConfig = EmitterConfig(
    emission: int,        // most particles alive at once
    pulses: int,          // 0: continuous, otherwise bursts per life
    size: Range,
    angle: Range,
    age: Range,
    offset: Range,
    speed: Range,
    scale: Curve,
    acc: Curve,
    tacc: Curve,
    rotation: Curve,
    forces: Forces,
    atlas: Atlas,
    gradient: Gradient,
    easing: Ease,
    container: Container)

  const ZeroRange: Range := Range(0.0, 0.0)
  const ZeroCurve: Curve := Curve(0.0, 0.0)

  /** The configuration of a zeroed `Emitter`, with no colour or force buffer. */
  const ZeroConfig: EmitterConfig := EmitterConfig(
    0, 0, ZeroRange, ZeroRange, ZeroRange, ZeroRange, ZeroRange,
    ZeroCurve, ZeroCurve, ZeroCurve, ZeroCurve,
    Forces([], 0), Atlas(Texture(0, 0, 0), 0, 0, 0), Gradient([], 0),
    NoEasing, Container(EmitterPoint, 0.0, 0.0))

  // Emitter flag bits, in the order of the EmitterFlags enum.
  const FLAG_DISABLED: bv32 := 1 << 0
  const FLAG_PAUSED: bv32 := 1 << 1
  const FLAG_SPAWN_INSIDE: bv32 := 1 << 2
  const FLAG_REVERSE_DRAW_ORDER: bv32 := 1 << 3
  const FLAG_WORLD_SPACE: bv32 := 1 << 4
  const FLAG_DRAW_TRIANGLES: bv32 := 1 << 5
  const FLAG_DRAW_OUTLINE: bv32 := 1 << 6
  const FLAG_DIRECTIONAL_ROTATION: bv32 := 1 << 7
  const FLAG_LOOP: bv32 := 1 << 8
  const FLAG_MULTITEXTURE: bv32 := 1 << 9

  /** `FLAG_CHECK(flags, f)` read as a boolean. */
  predicate HasFlag(flags: bv32, f: bv32) { flags & f != 0 }
}
