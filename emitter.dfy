/**
 * `EmitterUpdate` of particles.h: one frame of an emitter. Inside its
 * emission window the emitter fills free slots of its pool with new
 * particles, continuously or in pulses; then one pass reclaims expired
 * particles, advances the others and swaps neighbours toward ascending total
 * life; finally the emission timer moves on, once or in a loop.
 *
 * The scheduling rules are functions; the class `Emitter` runs the loops of
 * the C code on its particle array and is proved to compute those functions
 * together with `Filled` and `Pass` of ParticlePool.
 */
module Emitters {
  import opened CMath
  import opened ParticleTypes
  import opened ParticlePool
  import opened Spawn
  import opened Motion

  // ---------------------------------------------------------------------------
  // Scheduling
  // ---------------------------------------------------------------------------

  /** A disabled or paused emitter is not updated at all. */
  predicate Halted(flags: bv32) {
    HasFlag(flags, FLAG_DISABLED) || HasFlag(flags, FLAG_PAUSED)
  }

  /**
   * The emission window: room below `emission`, a non-zero emitter life and
   * the emission timer strictly between `delay` and `delay + life`.
   */
  predicate Emitting(count: int, emission: int, life: real, delay: real, emitTimer: real) {
    count < emission && life != 0.0 && emitTimer > delay && emitTimer < delay + life
  }

  /**
   * Particles per spawn: `emission / life * dt` truncated to `int` when
   * continuous, `emission / pulses` in C integer division when pulsed.
   */
  function SpawnRate(emission: int, pulses: int, life: real, dt: real): int
    requires life != 0.0
  {
    if pulses != 0 then CDiv(emission, pulses) else ContinuousRate(emission, life, dt)
  }

  /** `(float)emission / life * dt`, converted to `int`. */
  function ContinuousRate(emission: int, life: real, dt: real): int
    requires life != 0.0
  {
    Trunc(emission as real / life * dt)
  }

  /** The length of one pulse, `life / pulses`. */
  function PulseTick(life: real, pulses: int): real
    requires pulses != 0
  {
    life / pulses as real
  }

  /**
   * The spawn interval: the frame time when continuous, `life / pulses` when
   * pulsed, and the spawn timer itself when the pool is empty.
   */
  function SpawnTick(pulses: int, life: real, dt: real, count: int, spawnTimer: real): real {
    if count == 0 then spawnTimer else if pulses != 0 then PulseTick(life, pulses) else dt
  }

  /** The rate, cut down so that the count cannot pass `emission`. */
  function ClampRate(rate: int, count: int, emission: int): int {
    if rate + count > emission then emission - count else rate
  }

  /**
   * How many free slots the fill loop takes at most: it fills one slot before
   * it compares the number filled with the rate, so a rate of 0 or less still
   * asks for one.
   */
  function SlotsWanted(rate: int): (n: nat)
    ensures n >= 1 && (rate >= 1 ==> n == rate)
  {
    if rate <= 1 then 1 else rate
  }

  /** The pool, count and spawn timer after the emission step. */
  datatype SpawnState = SpawnState(pool: seq<Particle>, count: int, spawnTimer: real)

  /** The emission step of `EmitterUpdate`, with `gen(r)` the `r`-th particle generated. */
  function SpawnPhase(s: seq<Particle>, count: int, cfg: EmitterConfig, life: real, delay: real,
                      emitTimer: real, spawnTimer: real, dt: real, gen: nat -> Particle): (r: SpawnState)
    ensures |r.pool| == |s|
  {
    if !Emitting(count, cfg.emission, life, delay, emitTimer) then SpawnState(s, count, spawnTimer)
    else
      var rate := ClampRate(SpawnRate(cfg.emission, cfg.pulses, life, dt), count, cfg.emission);
      var tick := SpawnTick(cfg.pulses, life, dt, count, spawnTimer);
      if spawnTimer >= tick then
        var n := SlotsWanted(rate);
        SpawnState(Filled(s, gen, n), count + Min(n, FreeCount(s)), spawnTimer - tick + dt)
      else SpawnState(s, count, spawnTimer + dt)
  }

  /** Whether the emission step fills slots this frame. */
  predicate Fires(count: int, cfg: EmitterConfig, life: real, delay: real,
                  emitTimer: real, spawnTimer: real, dt: real) {
    Emitting(count, cfg.emission, life, delay, emitTimer) &&
    spawnTimer >= SpawnTick(cfg.pulses, life, dt, count, spawnTimer)
  }

  /** The emission timer after one frame, looping back to `delay` or stopping at `2 * delay + life`. */
  function NextEmitTimer(looping: bool, t: real, delay: real, life: real, dt: real): real {
    if looping then (if t > 2.0 * delay + life then delay else t + dt)
    else if t < 2.0 * delay + life then t + dt else t
  }

  /**
   * Outside the emission window nothing is spawned and the spawn timer is
   * left alone. Inside it the count rises by exactly the number of slots
   * filled, never above `emission`, and the spawn timer loses one tick when
   * a spawn fires and then grows by the frame time.
   */
  lemma SpawnPhaseCounts(s: seq<Particle>, count: int, cfg: EmitterConfig, life: real, delay: real,
                         emitTimer: real, spawnTimer: real, dt: real, gen: nat -> Particle)
    ensures var r := SpawnPhase(s, count, cfg, life, delay, emitTimer, spawnTimer, dt, gen);
      var tick := SpawnTick(cfg.pulses, life, dt, count, spawnTimer);
      && (!Emitting(count, cfg.emission, life, delay, emitTimer) ==> r == SpawnState(s, count, spawnTimer))
      && (Emitting(count, cfg.emission, life, delay, emitTimer) ==>
            && count <= r.count <= cfg.emission
            && r.spawnTimer == (if spawnTimer >= tick then spawnTimer - tick else spawnTimer) + dt)
      && (Fires(count, cfg, life, delay, emitTimer, spawnTimer, dt) ==>
            exists n: nat :: 1 <= n <= cfg.emission - count &&
              r.pool == Filled(s, gen, n) && r.count == count + Min(n, FreeCount(s)))
      && (!Fires(count, cfg, life, delay, emitTimer, spawnTimer, dt) ==> r.pool == s && r.count == count)
  {
    if Fires(count, cfg, life, delay, emitTimer, spawnTimer, dt) {
      var rate := ClampRate(SpawnRate(cfg.emission, cfg.pulses, life, dt), count, cfg.emission);
      var n := SlotsWanted(rate);
      assert n <= cfg.emission - count;
      var r := SpawnPhase(s, count, cfg, life, delay, emitTimer, spawnTimer, dt, gen);
      assert r.pool == Filled(s, gen, n) && r.count == count + Min(n, FreeCount(s));
    }
  }

  /**
   * Pulsed emission spawns `emission / pulses` particles (C division) every
   * `life / pulses` seconds while the pool is not empty; an empty pool makes
   * the tick the spawn timer itself, so inside the window a spawn always
   * fires and the timer restarts at the frame time.
   */
  lemma SpawnSchedule(count: int, cfg: EmitterConfig, life: real, delay: real,
                      emitTimer: real, spawnTimer: real, dt: real)
    requires life != 0.0
    ensures cfg.pulses != 0 ==> SpawnRate(cfg.emission, cfg.pulses, life, dt) == CDiv(cfg.emission, cfg.pulses)
    ensures cfg.pulses != 0 && count != 0 ==>
      SpawnTick(cfg.pulses, life, dt, count, spawnTimer) == life / cfg.pulses as real
    ensures cfg.pulses == 0 ==>
      SpawnRate(cfg.emission, cfg.pulses, life, dt) == Trunc(cfg.emission as real / life * dt)
    ensures cfg.pulses == 0 && count != 0 ==> SpawnTick(cfg.pulses, life, dt, count, spawnTimer) == dt
    ensures count == 0 && Emitting(count, cfg.emission, life, delay, emitTimer) ==>
      Fires(count, cfg, life, delay, emitTimer, spawnTimer, dt) &&
      forall gen: nat -> Particle ::
        SpawnPhase([], count, cfg, life, delay, emitTimer, spawnTimer, dt, gen).spawnTimer == dt
  {
  }

  /** A spawn fills the lowest free slots: a free slot below a filled one is filled too. */
  lemma SpawnFillsLowestFree(s: seq<Particle>, count: int, cfg: EmitterConfig, life: real, delay: real,
                             emitTimer: real, spawnTimer: real, dt: real, gen: nat -> Particle,
                             k: nat, j: nat)
    requires k < j < |s| && IsFree(s[k])
    requires var r := SpawnPhase(s, count, cfg, life, delay, emitTimer, spawnTimer, dt, gen);
      r.pool[j] != s[j]
    ensures var r := SpawnPhase(s, count, cfg, life, delay, emitTimer, spawnTimer, dt, gen);
      IsFree(s[j]) && r.pool[k] == gen(FreeCount(s[..k]))
  {
    var rate := ClampRate(SpawnRate(cfg.emission, cfg.pulses, life, dt), count, cfg.emission);
    var n := SlotsWanted(rate);
    FilledAt(s, gen, n, j);
    FilledAt(s, gen, n, k);
    FilledLowestFirst(s, n, k, j);
  }

  /**
   * When the count matches the occupied slots and every generated particle
   * is alive, it still matches after the emission step.
   */
  lemma SpawnKeepsLiveCount(s: seq<Particle>, count: int, cfg: EmitterConfig, life: real, delay: real,
                            emitTimer: real, spawnTimer: real, dt: real, gen: nat -> Particle)
    requires count == LiveCount(s)
    requires forall r: nat :: gen(r).life != 0.0
    ensures var r := SpawnPhase(s, count, cfg, life, delay, emitTimer, spawnTimer, dt, gen);
      r.count == LiveCount(r.pool)
  {
    if Fires(count, cfg, life, delay, emitTimer, spawnTimer, dt) {
      var rate := ClampRate(SpawnRate(cfg.emission, cfg.pulses, life, dt), count, cfg.emission);
      FilledFreeCount(s, gen, SlotsWanted(rate));
    }
  }

  /**
   * Without the loop flag the emission timer never goes back and, once at
   * most `2 * delay + life + dt`, stays so: it stops growing at the bound.
   */
  lemma OneShotTimer(t: real, delay: real, life: real, dt: real)
    requires dt >= 0.0
    ensures t <= NextEmitTimer(false, t, delay, life, dt)
    ensures t <= 2.0 * delay + life + dt ==> NextEmitTimer(false, t, delay, life, dt) <= 2.0 * delay + life + dt
    ensures t >= 2.0 * delay + life ==> NextEmitTimer(false, t, delay, life, dt) == t
  {
  }

  /**
   * With the loop flag the timer restarts at `delay` once past
   * `2 * delay + life`, and otherwise grows by the frame time; it then stays
   * between 0 and `2 * delay + life + dt`.
   */
  lemma LoopingTimer(t: real, delay: real, life: real, dt: real)
    requires dt >= 0.0 && delay >= 0.0 && life >= 0.0
    ensures t > 2.0 * delay + life ==> NextEmitTimer(true, t, delay, life, dt) == delay
    ensures t <= 2.0 * delay + life ==> NextEmitTimer(true, t, delay, life, dt) == t + dt
    ensures 0.0 <= t <= 2.0 * delay + life + dt ==>
      0.0 <= NextEmitTimer(true, t, delay, life, dt) <= 2.0 * delay + life + dt
  {
  }

  /** The particle generator of an emitter: the `r`-th call draws the `r`-th samples. */
  function Generator(cfg: EmitterConfig, flags: bv32, position: Vector2,
                     samples: nat -> Samples, t: Trig): nat -> Particle {
    (r: nat) => Generate(cfg, flags, position, samples(r), t)
  }

  /** The motion of `ParticleUpdate` under the emitter's configuration. */
  function Kinematics(cfg: EmitterConfig, ease: EasingFn, t: Trig): (Particle, real) -> Vector2 {
    (p: Particle, h: real) => Move(cfg, ease, t, p, h)
  }

  /** With unit samples and a positive minimum age every generated particle is alive. */
  lemma GeneratorAlive(cfg: EmitterConfig, flags: bv32, position: Vector2,
                       samples: nat -> Samples, t: Trig)
    requires 0.0 < cfg.age.min <= cfg.age.max
    requires forall r: nat :: 0.0 <= samples(r).life <= 1.0
    ensures forall r: nat :: Generator(cfg, flags, position, samples, t)(r).life != 0.0
  {
    forall r: nat ensures Generator(cfg, flags, position, samples, t)(r).life != 0.0 {
      BetweenBounds(cfg.age.min, cfg.age.max, samples(r).life);
    }
  }

  /**
   * One whole update (emission step, then the update pass) keeps the count
   * equal to the number of occupied slots, provided the generated particles
   * are alive: unit samples and a positive minimum age.
   */
  lemma UpdateKeepsLiveCount(s: seq<Particle>, count: int, cfg: EmitterConfig, flags: bv32,
                             position: Vector2, life: real, delay: real, emitTimer: real,
                             spawnTimer: real, dt: real, ease: EasingFn,
                             samples: nat -> Samples, t: Trig)
    requires count == LiveCount(s)
    requires 0.0 < cfg.age.min <= cfg.age.max
    requires forall r: nat :: 0.0 <= samples(r).life <= 1.0
    ensures var sp := SpawnPhase(s, count, cfg, life, delay, emitTimer, spawnTimer, dt,
                                 Generator(cfg, flags, position, samples, t));
      var r := Pass(sp.pool, 0, sp.count, 0, dt, Kinematics(cfg, ease, t));
      r.count == LiveCount(r.pool)
  {
    var gen := Generator(cfg, flags, position, samples, t);
    GeneratorAlive(cfg, flags, position, samples, t);
    SpawnKeepsLiveCount(s, count, cfg, life, delay, emitTimer, spawnTimer, dt, gen);
    var sp := SpawnPhase(s, count, cfg, life, delay, emitTimer, spawnTimer, dt, gen);
    PassLiveCount(sp.pool, 0, sp.count, 0, dt, Kinematics(cfg, ease, t));
  }

  // ---------------------------------------------------------------------------
  // The emitter
  // ---------------------------------------------------------------------------

  class Emitter {
    var position: Vector2
    var config: EmitterConfig
    /** The particle pool; its length is `particles.max`. */
    const data: array<Particle>
    /** `particles.count`: the number of live particles. */
    var count: int
    var life: real
    var delay: real
    /** The blend mode, raylib's `BlendMode`. */
    var mode: int
    var flags: bv32
    var spawnTimer: real
    var emitTimer: real

    /** `(Emitter){0}` with a zeroed pool of `n` slots. */
    constructor Zeroed(n: nat)
      ensures fresh(data) && data.Length == n
      ensures forall i :: 0 <= i < n ==> data[i] == ZeroParticle
      ensures position == Zero2 && config == ZeroConfig && count == 0
      ensures life == 0.0 && delay == 0.0 && mode == 0 && flags == 0
      ensures spawnTimer == 0.0 && emitTimer == 0.0
    {
      position := Zero2;
      config := ZeroConfig;
      data := new Particle[n](_ => ZeroParticle);
      count := 0;
      life := 0.0;
      delay := 0.0;
      mode := 0;
      flags := 0;
      spawnTimer := 0.0;
      emitTimer := 0.0;
    }

    /** The particle count agrees with the occupied slots. */
    ghost predicate CountsLive()
      reads this, data
    {
      count == LiveCount(data[..])
    }

    /**
     * The fill loop: walk the pool from slot 0, put the next generated
     * particle into each free slot and count it, and stop once `rate`
     * particles were placed (after the first one at least).
     */
    method Fill(rate: int, gen: nat -> Particle)
      modifies this`count, data
      ensures data[..] == Filled(old(data[..]), gen, SlotsWanted(rate))
      ensures count == old(count) + Min(SlotsWanted(rate), FreeCount(old(data[..])))
    {
      ghost var s0 := data[..];
      ghost var n := SlotsWanted(rate);
      FilledNone(s0, gen);
      var i := 0;
      var r := 0;
      var done := false;
      while i < data.Length && !done
        invariant 0 <= i <= data.Length
        invariant r == FreeCount(s0[..i])
        invariant done ==> r == n
        invariant !done ==> r < n
        invariant data[..] == Filled(s0, gen, r)
        invariant count == old(count) + r
        decreases data.Length - i
      {
        assert s0[..i + 1] == s0[..i] + [s0[i]];
        FreeCountAppend(s0[..i], s0[i]);
        FilledAt(s0, gen, r, i);
        if data[i].life == 0.0 {
          FilledStep(s0, gen, i);
          data[i] := gen(r);
          count := count + 1;
          r := r + 1;
          if r >= rate {
            done := true;
          }
        }
        i := i + 1;
      }
      FreeCountPrefix(s0, i, |s0|);
      assert s0[..|s0|] == s0;
      if !done {
        FilledSaturated(s0, gen, r, n);
      }
    }

    /**
     * The update loop: from slot 0 while slots remain and the count is
     * positive, reclaim an expired particle (count down, floored at 0),
     * otherwise advance a live one, swap it with its predecessor when that
     * one has the larger total life, and count it as updated.
     */
    method Advance(dt: real, move: (Particle, real) -> Vector2) returns (updated: int)
      modifies this`count, data
      ensures var r := Pass(old(data[..]), 0, old(count), 0, dt, move);
        data[..] == r.pool && count == r.count && updated == r.updated
    {
      updated := 0;
      var i := 0;
      while i < data.Length && count > 0
        invariant 0 <= i <= data.Length
        invariant Pass(data[..], i, count, updated, dt, move) == Pass(old(data[..]), 0, old(count), 0, dt, move)
        decreases data.Length - i
      {
        ghost var s := data[..];
        if data[i].life != 0.0 {
          if data[i].time >= data[i].life {
            count := Reclaimed(count);
            data[i] := data[i].(life := 0.0);
          } else {
            data[i] := ParticleStep(data[i], dt, move);
            if i > 0 && data[i - 1].life > data[i].life {
              var tmp := data[i];
              data[i] := data[i - 1];
              data[i - 1] := tmp;
            }
            updated := updated + 1;
          }
        }
        assert data[..] == Visit(s, i, dt, move);
        i := i + 1;
      }
    }

    /**
     * The emission step: inside the window, work out the rate and the tick,
     * fill slots when the spawn timer has reached the tick, and let the spawn
     * timer grow by the frame time.
     */
    method Emit(dt: real, gen: nat -> Particle)
      modifies this`count, this`spawnTimer, data
      ensures var sp := SpawnPhase(old(data[..]), old(count), config, life, delay, emitTimer,
                                   old(spawnTimer), dt, gen);
        data[..] == sp.pool && count == sp.count && spawnTimer == sp.spawnTimer
    {
      ghost var s0 := data[..];
      ghost var c0 := count;
      ghost var t0 := spawnTimer;
      if count < config.emission && life != 0.0 && emitTimer > delay && emitTimer < delay + life {
        var duration := life;
        var tick := dt;
        var rate := ContinuousRate(config.emission, duration, dt);
        if config.pulses != 0 {
          rate := CDiv(config.emission, config.pulses);
          tick := PulseTick(duration, config.pulses);
        }
        if count == 0 {
          tick := spawnTimer;
        }
        if rate + count > config.emission {
          rate := config.emission - count;
        }
        assert rate == ClampRate(SpawnRate(config.emission, config.pulses, life, dt), c0, config.emission);
        assert tick == SpawnTick(config.pulses, life, dt, c0, t0);
        if spawnTimer >= tick {
          spawnTimer := spawnTimer - tick;
          Fill(rate, gen);
        }
        spawnTimer := spawnTimer + dt;
      }
    }

    /**
     * `EmitterUpdate`. The frame time `dt` stands for every `GetFrameTime`
     * read of the frame; `samples` and `trig` stand for the random draws and
     * the trigonometry of `ParticleGenerate`, `ease` for `config.easing`.
     * Returns the number of particles advanced; `UpdateKeepsLiveCount`
     * shows when the count stays equal to the occupied slots.
     */
    method Update(dt: real, ease: EasingFn, samples: nat -> Samples, trig: Trig) returns (updated: int)
      modifies this`count, this`spawnTimer, this`emitTimer, data
      ensures Halted(flags) ==>
        && updated == 0 && data[..] == old(data[..]) && count == old(count)
        && spawnTimer == old(spawnTimer) && emitTimer == old(emitTimer)
      ensures !Halted(flags) ==>
        var sp := SpawnPhase(old(data[..]), old(count), config, life, delay, old(emitTimer),
                             old(spawnTimer), dt, Generator(config, flags, position, samples, trig));
        var r := Pass(sp.pool, 0, sp.count, 0, dt, Kinematics(config, ease, trig));
        && data[..] == r.pool && count == r.count && updated == r.updated
        && spawnTimer == sp.spawnTimer
        && emitTimer == NextEmitTimer(HasFlag(flags, FLAG_LOOP), old(emitTimer), delay, life, dt)
    {
      if HasFlag(flags, FLAG_DISABLED) || HasFlag(flags, FLAG_PAUSED) {
        return 0;
      }
      var gen := Generator(config, flags, position, samples, trig);
      var move := Kinematics(config, ease, trig);
      Emit(dt, gen);
      updated := Advance(dt, move);
      StepEmitTimer(dt);
    }

    /** The emission timer at the end of `EmitterUpdate`: looping or one-shot. */
    method StepEmitTimer(dt: real)
      modifies this`emitTimer
      ensures emitTimer == NextEmitTimer(HasFlag(flags, FLAG_LOOP), old(emitTimer), delay, life, dt)
    {
      if HasFlag(flags, FLAG_LOOP) {
        if emitTimer > 2.0 * delay + life {
          emitTimer := delay;
        } else {
          emitTimer := emitTimer + dt;
        }
      } else {
        if emitTimer < 2.0 * delay + life {
          emitTimer := emitTimer + dt;
        }
      }
    }

    /** The reset `EditorSyncEmitters` applies: zeroed pool, count and timers. */
    method Reset()
      modifies this`count, this`spawnTimer, this`emitTimer, data
      ensures forall i :: 0 <= i < data.Length ==> data[i] == ZeroParticle
      ensures count == 0 && spawnTimer == 0.0 && emitTimer == 0.0
    {
      ClearParticles();
      spawnTimer := 0.0;
      emitTimer := 0.0;
    }

    /** `memset` of the pool and `particles.count = 0`. */
    method ClearParticles()
      modifies this`count, data
      ensures forall i :: 0 <= i < data.Length ==> data[i] == ZeroParticle
      ensures count == 0
    {
      var i := 0;
      while i < data.Length
        invariant 0 <= i <= data.Length
        invariant forall k :: 0 <= k < i ==> data[k] == ZeroParticle
      {
        data[i] := ZeroParticle;
        i := i + 1;
      }
      count := 0;
    }
  }

  /** A cleared pool holds no particle, so the count agrees with it. */
  lemma ClearedCountsLive(s: seq<Particle>)
    requires forall i :: 0 <= i < |s| ==> s[i] == ZeroParticle
    ensures LiveCount(s) == 0
  {
    FreeCountAll(s);
  }

  lemma {:induction false} FreeCountAll(s: seq<Particle>)
    requires forall i :: 0 <= i < |s| ==> IsFree(s[i])
    ensures FreeCount(s) == |s|
  {
    if s != [] {
      FreeCountAll(s[..|s| - 1]);
    }
  }
}
