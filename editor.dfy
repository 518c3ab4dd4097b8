/**
 * The editor's list of emitters (editor.c): adding an emitter with the
 * default configuration, removing the last one, moving the active one up or
 * down the list together with its id, and resetting every pool so that all
 * emitters restart together.
 */
module EditorState {
  import opened CMath
  import opened Global
  import opened ParticleTypes
  import opened ParticlePool
  import opened Spawn
  import opened Emitters

  /** `0, 1, ..., n - 1`: the ids the editor starts with. */
  function Identity(n: nat): (ids: seq<int>)
    ensures |ids| == n && forall i :: 0 <= i < n ==> ids[i] == i
  {
    seq(n, i => i)
  }

  /** The emitter ids are a rearrangement of `0 .. MAX_EMITTERS - 1`. */
  predicate IsIdPermutation(ids: seq<int>) {
    multiset(ids) == multiset(Identity(MAX_EMITTERS))
  }

  /** Exchange entries `i` and `j`. */
  function Swap<T>(s: seq<T>, i: nat, j: nat): (t: seq<T>)
    requires i < |s| && j < |s|
    ensures |t| == |s| && t[i] == s[j] && t[j] == s[i]
    ensures forall k :: 0 <= k < |s| && k != i && k != j ==> t[k] == s[k]
  {
    s[i := s[j]][j := s[i]]
  }

  /** A swap only rearranges. */
  lemma SwapPermutes<T>(s: seq<T>, i: nat, j: nat)
    requires i < |s| && j < |s|
    ensures multiset(Swap(s, i, j)) == multiset(s)
  {
    if i != j {
      var t := s[i := s[j]];
      assert multiset(t) == multiset(s) - multiset{s[i]} + multiset{s[j]};
      assert multiset(t[j := s[i]]) == multiset(t) - multiset{t[j]} + multiset{s[i]};
    }
  }

  /** Moving an entry up and then down again (the same pair swapped twice) restores the list. */
  lemma MoveUpThenDownRestores<T>(s: seq<T>, a: nat)
    requires 0 < a < |s|
    ensures Swap(Swap(s, a, a - 1), a - 1, a) == s
  {
  }

  /** The colour buffer of a new emitter: `MAX_COLORS` zeroed colours, the first one set. */
  function DefaultColors(first: Color): (colors: seq<Color>)
    ensures |colors| == MAX_COLORS && colors[0] == first
  {
    [first] + seq(MAX_COLORS - 1, _ => BLANK)
  }

  /** The force buffer of a new emitter: `MAX_FORCES` zeroed forces. */
  function DefaultForces(): (forces: seq<Force>)
    ensures |forces| == MAX_FORCES
  {
    seq(MAX_FORCES, _ => Force(0.0, 0.0))
  }

  /**
   * The configuration `EditorAddEmitter` gives a new emitter: a zeroed one
   * with `SetDefaultEmitterConfig` applied, one colour in use and no force.
   */
  function DefaultConfig(first: Color): EmitterConfig {
    ZeroConfig.(emission := 10, pulses := 0, size := Range(1.0, 2.0), scale := Curve(1.0, 1.0),
                age := Range(4.0, 4.0), speed := Range(80.0, 80.0),
                angle := ZeroConfig.angle.(max := 360.0), easing := EaseLinearNone,
                gradient := Gradient(DefaultColors(first), 1),
                forces := Forces(DefaultForces(), 0))
  }

  /**
   * A default emitter makes particles that live exactly 4 seconds with a
   * size from 1 to 2 and speed 80, so the count invariant of `EmitterUpdate`
   * holds for it.
   */
  lemma DefaultParticles(first: Color, flags: bv32, position: Vector2, s: Samples, t: Trig)
    requires UnitSamples(s)
    ensures var p := Generate(DefaultConfig(first), flags, position, s, t);
      p.life == 4.0 && 1.0 <= p.size <= 2.0 && p.speed == 80.0 && !IsFree(p)
  {
    GenerateFresh(DefaultConfig(first), flags, position, s, t);
  }

  /**
   * Its emission timer starts at the delay 0, outside the window
   * `0 < emit_timer < 4`: the first update of a new emitter spawns nothing.
   */
  lemma DefaultFirstFrame(first: Color, s: seq<Particle>, dt: real, gen: nat -> Particle)
    ensures SpawnPhase(s, 0, DefaultConfig(first), 4.0, 0.0, 0.0, 0.0, dt, gen) == SpawnState(s, 0, 0.0)
    ensures dt > 0.0 ==> Emitting(0, DefaultConfig(first).emission, 4.0, 0.0, NextEmitTimer(false, 0.0, 0.0, 4.0, dt))
                         == (dt < 4.0)
  {
  }

  /** `SetDefaultEmitterConfig`. */
  method SetDefaultEmitterConfig(e: Emitter)
    modifies e`config, e`delay, e`life
    ensures e.config == old(e.config).(emission := 10, pulses := 0, size := Range(1.0, 2.0),
                                       scale := Curve(1.0, 1.0), age := Range(4.0, 4.0),
                                       speed := Range(80.0, 80.0),
                                       angle := old(e.config).angle.(max := 360.0),
                                       easing := EaseLinearNone)
    ensures e.delay == 0.0 && e.life == 4.0
  {
    e.config := e.config.(emission := 10, pulses := 0);
    e.config := e.config.(size := Range(1.0, 2.0));
    e.config := e.config.(scale := Curve(1.0, 1.0));
    e.config := e.config.(age := Range(4.0, 4.0));
    e.config := e.config.(speed := Range(80.0, 80.0));
    e.config := e.config.(angle := e.config.angle.(max := 360.0));
    e.config := e.config.(easing := EaseLinearNone);
    e.delay := 0.0;
    e.life := 4.0;
  }

  class Editor {
    /** The emitters in list order; slots from `emitterCount` on are NULL. */
    const emitters: array<Emitter?>
    /** The id of each list position, used when saving. */
    const emitterId: array<int>
    var emitterCount: int
    /** The selected emitter, -1 for none. */
    var activeEmitter: int
    /** The selected colour of the active emitter's gradient. */
    var activeColor: int
    /** The name of the effect, `MAX_NAME_LEN` characters. */
    const name: array<char>

    ghost predicate Valid()
      reads this, emitters, emitterId
    {
      && emitters.Length == MAX_EMITTERS && emitterId.Length == MAX_EMITTERS
      && name.Length == MAX_NAME_LEN
      && 0 <= emitterCount <= MAX_EMITTERS
      && -1 <= activeEmitter < emitterCount
      && (forall i :: 0 <= i < MAX_EMITTERS ==> (emitters[i] != null <==> i < emitterCount))
      && (forall i :: 0 <= i < emitterCount ==> emitters[i].data.Length == MAX_PARTICLES)
      && IsIdPermutation(emitterId[..])
    }

    /** `InitializeEditor`'s state: no emitter, none active, ids `0 .. MAX_EMITTERS - 1`. */
    constructor ()
      ensures Valid() && fresh(emitters) && fresh(emitterId) && fresh(name)
      ensures emitterCount == 0 && activeEmitter == -1 && activeColor == 0
      ensures emitterId[..] == Identity(MAX_EMITTERS)
      ensures forall i :: 0 <= i < MAX_NAME_LEN ==> name[i] == '\0'
    {
      emitters := new Emitter?[MAX_EMITTERS](_ => null);
      emitterId := new int[MAX_EMITTERS];
      name := new char[MAX_NAME_LEN](_ => '\0');
      emitterCount := 0;
      activeEmitter := -1;
      activeColor := 0;
      new;
      var i := 0;
      while i < MAX_EMITTERS
        invariant 0 <= i <= MAX_EMITTERS
        invariant forall k :: 0 <= k < i ==> emitterId[k] == k
        modifies emitterId
      {
        emitterId[i] := i;
        i := i + 1;
      }
      assert emitterId[..] == Identity(MAX_EMITTERS);
    }

    /**
     * `EditorAddEmitter`: below `MAX_EMITTERS` a new emitter with the
     * default configuration and an empty pool of `MAX_PARTICLES` slots,
     * placed at `loc`, is appended to the list. `first` is the random colour
     * (`GenerateRandomColor`) given to its gradient.
     */
    method Add(loc: Vector2, first: Color)
      requires Valid()
      modifies this`emitterCount, emitters
      ensures Valid()
      ensures old(emitterCount) == MAX_EMITTERS ==>
        emitterCount == MAX_EMITTERS && emitters[..] == old(emitters[..])
      ensures old(emitterCount) < MAX_EMITTERS ==>
        var e := emitters[old(emitterCount)];
        && emitterCount == old(emitterCount) + 1
        && emitters[..] == old(emitters[..])[old(emitterCount) := e]
        && e != null && fresh(e) && fresh(e.data)
        && e.config == DefaultConfig(first) && e.position == loc
        && e.count == 0 && e.life == 4.0 && e.delay == 0.0 && e.flags == 0 && e.mode == 0
        && e.spawnTimer == 0.0 && e.emitTimer == 0.0
        && (forall i :: 0 <= i < e.data.Length ==> e.data[i] == ZeroParticle)
    {
      if emitterCount < MAX_EMITTERS {
        var pos := emitterCount;
        var e := new Emitter.Zeroed(MAX_PARTICLES);
        SetDefaultEmitterConfig(e);
        e.config := e.config.(gradient := Gradient(DefaultColors(first), 1));
        e.config := e.config.(forces := Forces(DefaultForces(), 0));
        e.position := loc;
        emitters[pos] := e;
        emitterCount := emitterCount + 1;
      }
    }

    /**
     * `EditorRemoveEmitter`: the last emitter is dropped from the list; when
     * it was the active one, the emitter before it becomes active (none, -1,
     * when it was the only one).
     */
    method Remove()
      requires Valid()
      modifies this`emitterCount, this`activeEmitter, emitters
      ensures Valid()
      ensures old(emitterCount) == 0 ==>
        emitterCount == 0 && activeEmitter == old(activeEmitter) && emitters[..] == old(emitters[..])
      ensures old(emitterCount) > 0 ==>
        && emitterCount == old(emitterCount) - 1
        && emitters[..] == old(emitters[..])[emitterCount := null]
        && activeEmitter == (if old(activeEmitter) == emitterCount then emitterCount - 1
                             else old(activeEmitter))
    {
      if emitterCount > 0 {
        var pos := emitterCount - 1;
        if activeEmitter == pos {
          activeEmitter := pos - 1;
        }
        emitters[pos] := null;
        emitterCount := emitterCount - 1;
      }
    }

    /**
     * `EditorMoveUpEmitter`: the active emitter and the one above it change
     * places, in the list and in the ids, and the selection follows it.
     */
    method MoveUp()
      requires Valid()
      modifies this`activeEmitter, emitters, emitterId
      ensures Valid() && emitterCount == old(emitterCount)
      ensures old(activeEmitter) <= 0 ==>
        activeEmitter == old(activeEmitter) && emitters[..] == old(emitters[..])
        && emitterId[..] == old(emitterId[..])
      ensures old(activeEmitter) > 0 ==>
        var a := old(activeEmitter);
        && activeEmitter == a - 1
        && emitters[..] == Swap(old(emitters[..]), a, a - 1)
        && emitterId[..] == Swap(old(emitterId[..]), a, a - 1)
    {
      if activeEmitter > 0 {
        var a := activeEmitter;
        ghost var ids := emitterId[..];
        var tmp := emitters[a];
        emitters[a] := emitters[a - 1];
        emitters[a - 1] := tmp;
        var tid := emitterId[a];
        emitterId[a] := emitterId[a - 1];
        emitterId[a - 1] := tid;
        activeEmitter := activeEmitter - 1;
        assert emitterId[..] == Swap(ids, a, a - 1);
        SwapPermutes(ids, a, a - 1);
      }
    }

    /**
     * `EditorMoveDownEmitter`: the active emitter and the one below it change
     * places, when there is one below.
     */
    method MoveDown()
      requires Valid()
      modifies this`activeEmitter, emitters, emitterId
      ensures Valid() && emitterCount == old(emitterCount)
      ensures !(old(activeEmitter) != -1 && old(activeEmitter) + 1 < emitterCount) ==>
        activeEmitter == old(activeEmitter) && emitters[..] == old(emitters[..])
        && emitterId[..] == old(emitterId[..])
      ensures old(activeEmitter) != -1 && old(activeEmitter) + 1 < emitterCount ==>
        var a := old(activeEmitter);
        && activeEmitter == a + 1
        && emitters[..] == Swap(old(emitters[..]), a, a + 1)
        && emitterId[..] == Swap(old(emitterId[..]), a, a + 1)
    {
      if activeEmitter != -1 && activeEmitter + 1 < emitterCount {
        var a := activeEmitter;
        ghost var ids := emitterId[..];
        var tmp := emitters[a];
        emitters[a] := emitters[a + 1];
        emitters[a + 1] := tmp;
        var tid := emitterId[a];
        emitterId[a] := emitterId[a + 1];
        emitterId[a + 1] := tid;
        activeEmitter := activeEmitter + 1;
        assert emitterId[..] == Swap(ids, a, a + 1);
        SwapPermutes(ids, a, a + 1);
      }
    }

    /**
     * Moving the active emitter up and then down again is undone: after a
     * successful `MoveUp` the guard of `MoveDown` holds, and both arrays and
     * the selection come back to what they were.
     */
    method MoveUpThenDown()
      requires Valid() && activeEmitter > 0
      modifies this`activeEmitter, emitters, emitterId
      ensures Valid() && emitterCount == old(emitterCount)
      ensures emitters[..] == old(emitters[..]) && emitterId[..] == old(emitterId[..])
      ensures activeEmitter == old(activeEmitter)
    {
      ghost var es, ids, a := emitters[..], emitterId[..], activeEmitter;
      MoveUp();
      MoveDown();
      MoveUpThenDownRestores(es, a);
      MoveUpThenDownRestores(ids, a);
    }

    /**
     * `EditorSyncEmitters`: every emitter in the list gets an empty pool and
     * zero timers; its configuration and everything else stay.
     */
    method Sync()
      requires Valid()
      modifies set i | 0 <= i < emitterCount :: emitters[i]
      modifies set i | 0 <= i < emitterCount && emitters[i] != null :: emitters[i].data
      ensures Valid()
      ensures forall i :: 0 <= i < emitterCount ==>
        && emitters[i].count == 0 && emitters[i].spawnTimer == 0.0 && emitters[i].emitTimer == 0.0
        && (forall k :: 0 <= k < emitters[i].data.Length ==> emitters[i].data[k] == ZeroParticle)
        && emitters[i].config == old(emitters[i].config) && emitters[i].position == old(emitters[i].position)
        && emitters[i].flags == old(emitters[i].flags) && emitters[i].life == old(emitters[i].life)
        && emitters[i].delay == old(emitters[i].delay) && emitters[i].mode == old(emitters[i].mode)
    {
      var i := 0;
      while i < emitterCount
        invariant 0 <= i <= emitterCount
        invariant forall j :: 0 <= j < i ==>
          && emitters[j].count == 0 && emitters[j].spawnTimer == 0.0 && emitters[j].emitTimer == 0.0
          && (forall k :: 0 <= k < emitters[j].data.Length ==> emitters[j].data[k] == ZeroParticle)
        invariant forall j :: 0 <= j < emitterCount ==>
          && emitters[j].config == old(emitters[j].config) && emitters[j].position == old(emitters[j].position)
          && emitters[j].flags == old(emitters[j].flags) && emitters[j].life == old(emitters[j].life)
          && emitters[j].delay == old(emitters[j].delay) && emitters[j].mode == old(emitters[j].mode)
      {
        emitters[i].Reset();
        i := i + 1;
      }
    }
  }
}
