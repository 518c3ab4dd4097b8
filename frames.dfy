/**
 * The integer and angle arithmetic of `EmitterDraw` in particles.h: which
 * slots are drawn and in what order, the rotation of a particle's quad, and
 * the cell of an animated atlas a particle shows. The raylib drawing calls
 * themselves are not part of this model.
 */
module Drawing {
  import opened CMath
  import opened ParticleTypes
  import opened ParticlePool

  // ---------------------------------------------------------------------------
  // Draw order
  // ---------------------------------------------------------------------------

  /** The live slots below `n`, lowest first: the forward draw order. */
  function LiveBelow(s: seq<Particle>, n: nat): seq<nat>
    requires n <= |s|
  {
    if n == 0 then [] else LiveBelow(s, n - 1) + (if IsFree(s[n - 1]) then [] else [n - 1])
  }

  /** The live slots from `k` up, highest first: the reverse draw order. */
  function LiveAbove(s: seq<Particle>, k: nat): seq<nat>
    requires k <= |s|
    decreases |s| - k
  {
    if k == |s| then [] else LiveAbove(s, k + 1) + (if IsFree(s[k]) then [] else [k])
  }

  /** `EmitterDraw` draws nothing when the emitter is disabled or its pool is empty. */
  predicate DrawsAnything(flags: bv32, count: int) {
    !HasFlag(flags, FLAG_DISABLED) && count > 0
  }

  /**
   * The slot loop of `EmitterDraw` (`for(i = start; i != end; i += step)`),
   * recording the slots whose particle is drawn. Without a screen rectangle
   * every live slot is drawn; the reverse-order flag walks from the last slot.
   */
  method DrawnSlots(s: seq<Particle>, flags: bv32, count: int) returns (drawn: seq<nat>)
    ensures !DrawsAnything(flags, count) ==> drawn == []
    ensures DrawsAnything(flags, count) && !HasFlag(flags, FLAG_REVERSE_DRAW_ORDER) ==>
      drawn == LiveBelow(s, |s|)
    ensures DrawsAnything(flags, count) && HasFlag(flags, FLAG_REVERSE_DRAW_ORDER) ==>
      drawn == LiveAbove(s, 0)
  {
    drawn := [];
    if !DrawsAnything(flags, count) {
      return;
    }
    if !HasFlag(flags, FLAG_REVERSE_DRAW_ORDER) {
      var i := 0;
      while i != |s|
        invariant 0 <= i <= |s|
        invariant drawn == LiveBelow(s, i)
        decreases |s| - i
      {
        if !IsFree(s[i]) {
          drawn := drawn + [i];
        }
        i := i + 1;
      }
    } else {
      var i := |s| - 1;
      while i != -1
        invariant -1 <= i <= |s| - 1
        invariant drawn == LiveAbove(s, i + 1)
        decreases i + 1
      {
        if !IsFree(s[i]) {
          drawn := drawn + [i];
        }
        i := i - 1;
      }
    }
  }

  /** The forward order lists exactly the live slots below `n`. */
  lemma {:induction false} LiveBelowMembers(s: seq<Particle>, n: nat)
    requires n <= |s|
    ensures forall j: nat :: j in LiveBelow(s, n) <==> j < n && !IsFree(s[j])
  {
    if n > 0 {
      LiveBelowMembers(s, n - 1);
    }
  }

  /** The forward order is increasing, so no slot is drawn twice. */
  lemma {:induction false} LiveBelowIncreasing(s: seq<Particle>, n: nat)
    requires n <= |s|
    ensures forall a, b :: 0 <= a < b < |LiveBelow(s, n)| ==> LiveBelow(s, n)[a] < LiveBelow(s, n)[b]
  {
    if n > 0 {
      LiveBelowIncreasing(s, n - 1);
      LiveBelowMembers(s, n - 1);
      var prev := LiveBelow(s, n - 1);
      assert forall a :: 0 <= a < |prev| ==> prev[a] in prev && prev[a] < n - 1;
    }
  }

  /** The forward order holds as many slots as the prefix has live particles. */
  lemma {:induction false} LiveBelowCount(s: seq<Particle>, n: nat)
    requires n <= |s|
    ensures |LiveBelow(s, n)| == LiveCount(s[..n])
  {
    if n > 0 {
      LiveBelowCount(s, n - 1);
      assert s[..n][..n - 1] == s[..n - 1];
    }
  }

  /** The reverse order lists exactly the live slots from `k` on. */
  lemma {:induction false} LiveAboveMembers(s: seq<Particle>, k: nat)
    requires k <= |s|
    ensures forall j: nat :: j in LiveAbove(s, k) <==> k <= j < |s| && !IsFree(s[j])
    decreases |s| - k
  {
    if k < |s| {
      LiveAboveMembers(s, k + 1);
    }
  }

  /** The reverse order is decreasing, so no slot is drawn twice. */
  lemma {:induction false} LiveAboveDecreasing(s: seq<Particle>, k: nat)
    requires k <= |s|
    ensures forall a, b :: 0 <= a < b < |LiveAbove(s, k)| ==> LiveAbove(s, k)[a] > LiveAbove(s, k)[b]
    decreases |s| - k
  {
    if k < |s| {
      LiveAboveDecreasing(s, k + 1);
      LiveAboveMembers(s, k + 1);
      var prev := LiveAbove(s, k + 1);
      forall a | 0 <= a < |prev|
        ensures prev[a] > k
      {
        assert prev[a] in LiveAbove(s, k + 1);
      }
      if !IsFree(s[k]) {
        var r := LiveAbove(s, k);
        assert r == prev + [k];
        assert forall a :: 0 <= a < |prev| ==> r[a] == prev[a];
        assert r[|prev|] == k;
      }
    }
  }

  /** What the reverse order from `k` holds and the forward order below `k` holds make up the pool's live slots. */
  lemma {:induction false} LiveAboveCount(s: seq<Particle>, k: nat)
    requires k <= |s|
    ensures |LiveAbove(s, k)| + |LiveBelow(s, k)| == |LiveBelow(s, |s|)|
    decreases |s| - k
  {
    if k < |s| {
      LiveAboveCount(s, k + 1);
    }
  }

  /**
   * Either way round, every live particle is drawn exactly once: the drawn
   * slots are the live ones, without repetition, as many as the pool holds.
   */
  lemma DrawOrderCoversPool(s: seq<Particle>)
    ensures |LiveBelow(s, |s|)| == LiveCount(s) && |LiveAbove(s, 0)| == LiveCount(s)
    ensures forall j: nat :: j in LiveAbove(s, 0) <==> j in LiveBelow(s, |s|)
  {
    LiveBelowCount(s, |s|);
    LiveAboveCount(s, 0);
    LiveBelowMembers(s, |s|);
    LiveAboveMembers(s, 0);
    assert s[..|s|] == s;
  }

  // ---------------------------------------------------------------------------
  // Rotation of a particle's quad
  // ---------------------------------------------------------------------------

  /** The start angle of a textured particle: the particle's angle is added for directional rotation. */
  function RotationStart(cfg: EmitterConfig, flags: bv32, p: Particle): real {
    cfg.rotation.start + (if HasFlag(flags, FLAG_DIRECTIONAL_ROTATION) then p.angle else 0.0)
  }

  /** The rotation of an untextured particle: eased from `rotation.start` to `rotation.end`. */
  function UntexturedRotation(ease: EasingFn, cfg: EmitterConfig, p: Particle): (r: real)
    ensures p.time == 0.0 && ease == LinearEase ==> r == cfg.rotation.start
  {
    ease(p.time, cfg.rotation.start, cfg.rotation.end - cfg.rotation.start, p.life)
  }

  /**
   * The rotation of a textured particle as the code computes it: the change
   * passed to the easing is `rotation.end - scale.start`.
   */
  function TexturedRotation(ease: EasingFn, cfg: EmitterConfig, flags: bv32, p: Particle): real {
    ease(p.time, RotationStart(cfg, flags, p), cfg.rotation.end - cfg.scale.start, p.life)
  }

  /**
   * The textured rotation with the change `rotation.end - rotation.start`
   * used for untextured particles.
   */
  function IntendedTexturedRotation(ease: EasingFn, cfg: EmitterConfig, flags: bv32, p: Particle): real {
    ease(p.time, RotationStart(cfg, flags, p), cfg.rotation.end - cfg.rotation.start, p.life)
  }

  /** Under linear easing an untextured particle turns from `rotation.start` to `rotation.end`. */
  lemma UntexturedRotationSweep(cfg: EmitterConfig, p: Particle)
    requires p.life != 0.0
    ensures p.time == 0.0 ==> UntexturedRotation(LinearEase, cfg, p) == cfg.rotation.start
    ensures p.time == p.life ==> UntexturedRotation(LinearEase, cfg, p) == cfg.rotation.end
  {
  }

  /**
   * Under linear easing a textured particle ends its life at
   * `rotation.end - scale.start` past its start angle instead of at
   * `rotation.end`: with the editor's defaults (rotation 0 to 0, scale
   * starting at 1) a textured particle turns from 0 to -1 degrees.
   */
  lemma TexturedRotationQuirk(cfg: EmitterConfig, flags: bv32, p: Particle)
    requires p.life != 0.0 && p.time == p.life
    ensures TexturedRotation(LinearEase, cfg, flags, p)
         == RotationStart(cfg, flags, p) + cfg.rotation.end - cfg.scale.start
    ensures cfg.rotation == Curve(0.0, 0.0) && cfg.scale.start == 1.0 &&
            !HasFlag(flags, FLAG_DIRECTIONAL_ROTATION) ==>
      TexturedRotation(LinearEase, cfg, flags, p) == -1.0 &&
      UntexturedRotation(LinearEase, cfg, p) == 0.0
  {
  }

  /**
   * The intended textured rotation agrees with the untextured one without
   * directional rotation, and is offset by the particle's angle with it;
   * under linear easing it ends at `rotation.end` plus that offset.
   */
  lemma IntendedTexturedRotationAgrees(ease: EasingFn, cfg: EmitterConfig, flags: bv32, p: Particle)
    ensures !HasFlag(flags, FLAG_DIRECTIONAL_ROTATION) ==>
      IntendedTexturedRotation(ease, cfg, flags, p) == UntexturedRotation(ease, cfg, p)
    ensures p.life != 0.0 && p.time == p.life ==>
      IntendedTexturedRotation(LinearEase, cfg, flags, p)
        == cfg.rotation.end + RotationStart(cfg, flags, p) - cfg.rotation.start
  {
  }

  // ---------------------------------------------------------------------------
  // Atlas frames
  // ---------------------------------------------------------------------------

  /** The number of frames an animation runs through: cells times loops. */
  function AnimationLength(a: Atlas): int {
    a.vframes * a.hframes * a.loop
  }

  /**
   * The frame a particle shows: its texture index for a multitexture
   * emitter, otherwise the eased age truncated to `int` and clamped to the
   * animation's frames.
   */
  function AnimationFrame(ease: EasingFn, a: Atlas, flags: bv32, p: Particle): (frame: int)
    ensures HasFlag(flags, FLAG_MULTITEXTURE) ==> frame == p.tidx
    ensures !HasFlag(flags, FLAG_MULTITEXTURE) && AnimationLength(a) >= 1 ==>
      0 <= frame < AnimationLength(a)
  {
    if HasFlag(flags, FLAG_MULTITEXTURE) then p.tidx
    else
      var last := AnimationLength(a) - 1;
      ClampInt(Trunc(ease(p.time, 0.0, last as real, p.life)), 0, last)
  }

  /** Under linear easing the animation starts at frame 0 and reaches the last frame at the end of life. */
  lemma LinearAnimationEnds(a: Atlas, flags: bv32, p: Particle)
    requires !HasFlag(flags, FLAG_MULTITEXTURE) && AnimationLength(a) >= 1 && p.life != 0.0
    ensures p.time == 0.0 ==> AnimationFrame(LinearEase, a, flags, p) == 0
    ensures p.time == p.life ==> AnimationFrame(LinearEase, a, flags, p) == AnimationLength(a) - 1
  {
    var last := AnimationLength(a) - 1;
    var v := LinearEase(p.time, 0.0, last as real, p.life);
    if p.time == p.life {
      assert (last as real) * p.life / p.life == (last as real);
      assert v == last as real;
    } else if p.time == 0.0 {
      assert v == 0.0;
    }
  }

  /**
   * The atlas cell of a frame: column `frame % hframes` and row
   * `(frame / hframes) % vframes`, in C's truncating arithmetic.
   */
  function FrameCell(frame: int, hframes: int, vframes: int): (cell: (int, int))
    requires hframes != 0 && vframes != 0
  {
    (CMod(frame, hframes), CMod(CDiv(frame, hframes), vframes))
  }

  /**
   * For a non-negative frame the cell is inside the atlas, and cells are
   * numbered row by row: the cell is frame number `frame % (hframes * vframes)`,
   * so the animation wraps around the atlas.
   */
  lemma FrameCellInAtlas(frame: int, hframes: int, vframes: int)
    requires frame >= 0 && hframes > 0 && vframes > 0
    ensures var cell := FrameCell(frame, hframes, vframes);
      && 0 <= cell.0 < hframes && 0 <= cell.1 < vframes
      && cell.1 * hframes + cell.0 == frame % (hframes * vframes)
  {
    var q := frame / hframes;
    var col := frame % hframes;
    var row := q % vframes;
    FrameCellEuclidean(frame, hframes, vframes);
    DivMod(frame, hframes, q, col);
    DivMod(q, vframes, q / vframes, row);
    RowMajor(frame, hframes, vframes, q, col, q / vframes, row);
  }

  /** For non-negative frames C's truncating operators agree with Dafny's. */
  lemma FrameCellEuclidean(frame: int, hframes: int, vframes: int)
    requires frame >= 0 && hframes > 0 && vframes > 0
    ensures FrameCell(frame, hframes, vframes) == (frame % hframes, (frame / hframes) % vframes)
  {
    var q := frame / hframes;
    assert frame / hframes >= 0;
    CDivEuclidean(frame, hframes);
    CModEuclidean(frame, hframes);
    CModEuclidean(q, vframes);
  }

  lemma CDivEuclidean(a: int, b: int)
    requires a >= 0 && b > 0
    ensures CDiv(a, b) == a / b
  {
  }

  lemma CModEuclidean(a: int, b: int)
    requires a >= 0 && b > 0
    ensures CMod(a, b) == a % b
  {
  }

  lemma DivMod(a: int, b: int, q: int, r: int)
    requires b > 0 && q == a / b && r == a % b
    ensures a == q * b + r && 0 <= r < b
  {
  }

  /** `frame = (k * v + row) * h + col` with `col < h` and `row < v` is `k * (h * v) + (row * h + col)`. */
  lemma RowMajor(frame: int, h: int, v: int, q: int, col: int, k: int, row: int)
    requires h > 0 && v > 0 && 0 <= col < h && 0 <= row < v
    requires frame == q * h + col && q == k * v + row
    ensures 0 <= row * h + col < h * v
    ensures frame % (h * v) == row * h + col
  {
    var m := h * v;
    var kv := k * v;
    var rh := row * h;
    assert q * h == kv * h + row * h;
    assert (k * v) * h == k * m;
    CellBelow(row, v, h, rh, m);
    ModOf(frame, m, k, rh + col);
  }

  /** A row below `v` starts before the last row ends: `row * h + h <= v * h`. */
  lemma CellBelow(row: int, v: int, h: int, rh: int, m: int)
    requires 0 <= row < v && h > 0 && rh == row * h && m == h * v
    ensures 0 <= rh && rh + h <= m
  {
    var r1 := row + 1;
    assert r1 * h <= v * h;
    assert r1 * h == row * h + 1 * h;
  }

  /** Euclidean remainder is unique: `a = k * m + r` with `0 <= r < m` gives `a % m == r`. */
  lemma ModOf(a: int, m: int, k: int, r: int)
    requires m > 0 && 0 <= r < m && a == k * m + r
    ensures a % m == r
  {
    var k' := a / m;
    var r' := a % m;
    assert (k - (k')) * m == k * m - (k') * m;
    var d := k - k';
    assert d * m == r' - r;
    LargeMultiple(d, m);
  }

  /** A non-zero multiple of `m` is at least `m` away from 0. */
  lemma LargeMultiple(d: int, m: int)
    requires m > 0
    ensures d > 0 ==> d * m >= m
    ensures d < 0 ==> d * m <= -m
  {
    if d > 0 {
      assert (d - 1) * m >= 0;
    } else if d < 0 {
      assert (-d - 1) * m >= 0;
    }
  }

  /**
   * The source rectangle of a cell, `(col * cw, row * ch)` with
   * `cw = width / hframes` and `ch = height / vframes`, lies inside the
   * texture.
   */
  lemma CellInsideTexture(t: Texture, hframes: int, vframes: int, col: int, row: int)
    requires hframes > 0 && vframes > 0 && t.width >= 0 && t.height >= 0
    requires 0 <= col < hframes && 0 <= row < vframes
    ensures var cw := t.width as real / hframes as real;
      0.0 <= col as real * cw && col as real * cw + cw <= t.width as real
    ensures var ch := t.height as real / vframes as real;
      0.0 <= row as real * ch && row as real * ch + ch <= t.height as real
  {
    CellInside(col as real, hframes as real, t.width as real, t.width as real / hframes as real);
    CellInside(row as real, vframes as real, t.height as real, t.height as real / vframes as real);
  }

  lemma CellInside(i: real, n: real, total: real, w: real)
    requires n > 0.0 && total >= 0.0 && w == total / n && 0.0 <= i && i + 1.0 <= n
    ensures 0.0 <= i * w && i * w + w <= total
  {
    assert (total / n) * n == total;
    DivSign(total, n);
    var j := i + 1.0;
    assert j * w <= n * w;
    assert i * w == j * w - 1.0 * w;
  }
}
