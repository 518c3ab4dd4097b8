/**
 * The rules of gui.c that change or query the editor's state: what the
 * emitter window writes back (easing, flags, the pool reset when `pulses`
 * changed), gradient and force editing, the effect-name sanitisation, the
 * unit scaler of the statistics line and the two first-match searches.
 */
module Gui {
  import opened CMath
  import opened Global
  import opened ParticleTypes
  import opened ParticlePool
  import opened Emitters
  import opened EditorState

  // ---------------------------------------------------------------------------
  // Easing selector
  // ---------------------------------------------------------------------------

  /** The `Easings` table, in the order of the selector's names. */
  const Easings: seq<Ease> := [
    EaseLinearNone, EaseSineIn, EaseSineOut, EaseSineInOut,
    EaseCircIn, EaseCircOut, EaseCircInOut,
    EaseCubicIn, EaseCubicOut, EaseCubicInOut,
    EaseQuadIn, EaseQuadOut, EaseQuadInOut,
    EaseExpoIn, EaseExpoOut, EaseExpoInOut,
    EaseBackIn, EaseBackOut, EaseBackInOut,
    EaseBounceIn, EaseBounceOut, EaseBounceInOut,
    EaseElasticIn, EaseElasticOut, EaseElasticInOut]

  /**
   * The selector index of an easing: the first entry of `Easings` equal to
   * it, or 0 when there is none (a NULL easing of a zeroed configuration).
   */
  method EasingIndex(easing: Ease) returns (idx: int)
    ensures 0 <= idx < |Easings|
    ensures forall j :: 0 <= j < idx ==> Easings[j] != easing
    ensures Easings[idx] == easing || (idx == 0 && forall j :: 0 <= j < |Easings| ==> Easings[j] != easing)
  {
    idx := 0;
    var i := 0;
    while i < |Easings|
      invariant 0 <= i <= |Easings|
      invariant forall j :: 0 <= j < i ==> Easings[j] != easing
    {
      if Easings[i] == easing {
        idx := i;
        return;
      }
      i := i + 1;
    }
  }

  /**
   * Every easing but NULL is in the table, so the round trip through the
   * selector keeps it; NULL comes back as the first entry, linear easing.
   */
  lemma EasingSelectorRoundTrip(easing: Ease)
    ensures easing != NoEasing <==> easing in Easings
    ensures Easings[0] == EaseLinearNone
  {
    if easing != NoEasing {
      match easing
      case EaseLinearNone => assert Easings[0] == easing;
      case EaseSineIn => assert Easings[1] == easing;
      case EaseSineOut => assert Easings[2] == easing;
      case EaseSineInOut => assert Easings[3] == easing;
      case EaseCircIn => assert Easings[4] == easing;
      case EaseCircOut => assert Easings[5] == easing;
      case EaseCircInOut => assert Easings[6] == easing;
      case EaseCubicIn => assert Easings[7] == easing;
      case EaseCubicOut => assert Easings[8] == easing;
      case EaseCubicInOut => assert Easings[9] == easing;
      case EaseQuadIn => assert Easings[10] == easing;
      case EaseQuadOut => assert Easings[11] == easing;
      case EaseQuadInOut => assert Easings[12] == easing;
      case EaseExpoIn => assert Easings[13] == easing;
      case EaseExpoOut => assert Easings[14] == easing;
      case EaseExpoInOut => assert Easings[15] == easing;
      case EaseBackIn => assert Easings[16] == easing;
      case EaseBackOut => assert Easings[17] == easing;
      case EaseBackInOut => assert Easings[18] == easing;
      case EaseBounceIn => assert Easings[19] == easing;
      case EaseBounceOut => assert Easings[20] == easing;
      case EaseBounceInOut => assert Easings[21] == easing;
      case EaseElasticIn => assert Easings[22] == easing;
      case EaseElasticOut => assert Easings[23] == easing;
      case EaseElasticInOut => assert Easings[24] == easing;
    }
  }

  // ---------------------------------------------------------------------------
  // Flags
  // ---------------------------------------------------------------------------

  /** The number of flag check boxes. */
  const FlagCount: nat := 10

  /** The flag bit `1 << i` (the shift amount taken as the 5 bits it needs). */
  function Bit(i: nat): bv32
    requires i < 32
  {
    1 << (i as bv5)
  }

  /** The check boxes the window starts from: bit `i` of the flags, for each flag in enum order. */
  function ReadFlags(f: bv32): (r: seq<bool>)
    ensures |r| == FlagCount && forall i :: 0 <= i < FlagCount ==> r[i] == HasFlag(f, Bit(i))
    ensures r[0] == HasFlag(f, FLAG_DISABLED) && r[1] == HasFlag(f, FLAG_PAUSED)
    ensures r[2] == HasFlag(f, FLAG_SPAWN_INSIDE) && r[3] == HasFlag(f, FLAG_REVERSE_DRAW_ORDER)
    ensures r[4] == HasFlag(f, FLAG_WORLD_SPACE) && r[5] == HasFlag(f, FLAG_DRAW_TRIANGLES)
    ensures r[6] == HasFlag(f, FLAG_DRAW_OUTLINE) && r[7] == HasFlag(f, FLAG_DIRECTIONAL_ROTATION)
    ensures r[8] == HasFlag(f, FLAG_LOOP) && r[9] == HasFlag(f, FLAG_MULTITEXTURE)
  {
    seq(FlagCount, i requires 0 <= i < FlagCount => HasFlag(f, Bit(i)))
  }

  /** One turn of the flag loop: bit `i` is toggled when it differs from box `i`. */
  function FlagStep(f: bv32, wanted: seq<bool>, i: nat): bv32
    requires i < |wanted| && i < 32
  {
    if wanted[i] != HasFlag(f, Bit(i)) then f ^ Bit(i) else f
  }

  /** The flags after the first `n` turns of the flag loop. */
  function WrittenBack(f: bv32, wanted: seq<bool>, n: nat): bv32
    requires n <= |wanted| && n <= 32
  {
    if n == 0 then f else FlagStep(WrittenBack(f, wanted, n - 1), wanted, n - 1)
  }

  lemma ToggleBit(g: bv32, i: nat, j: nat)
    requires i < 32 && j < 32
    ensures HasFlag(g ^ Bit(i), Bit(j)) == if i == j then !HasFlag(g, Bit(j)) else HasFlag(g, Bit(j))
  {
  }

  /** A turn of the loop sets bit `i` to box `i` and leaves every other bit. */
  lemma FlagStepBits(g: bv32, wanted: seq<bool>, i: nat, j: nat)
    requires i < |wanted| && i < 32 && j < 32
    ensures HasFlag(FlagStep(g, wanted, i), Bit(j)) == if i == j then wanted[i] else HasFlag(g, Bit(j))
  {
    if wanted[i] != HasFlag(g, Bit(i)) {
      ToggleBit(g, i, j);
    }
  }

  /** After `n` turns, bit `j` is box `j` below `n` and the old bit from `n` on. */
  lemma {:induction false} WrittenBackBits(f: bv32, wanted: seq<bool>, n: nat, j: nat)
    requires n <= |wanted| && n <= 32 && j < 32
    ensures HasFlag(WrittenBack(f, wanted, n), Bit(j)) == if j < n then wanted[j] else HasFlag(f, Bit(j))
  {
    if n > 0 {
      WrittenBackBits(f, wanted, n - 1, j);
      FlagStepBits(WrittenBack(f, wanted, n - 1), wanted, n - 1, j);
    }
  }

  /** Boxes that agree with the flags they were read from change nothing. */
  lemma {:induction false} WrittenBackUnchanged(f: bv32, wanted: seq<bool>, n: nat)
    requires n <= |wanted| && n <= 32
    requires forall i :: 0 <= i < n ==> wanted[i] == HasFlag(f, Bit(i))
    ensures WrittenBack(f, wanted, n) == f
  {
    if n > 0 {
      WrittenBackUnchanged(f, wanted, n - 1);
    }
  }

  /**
   * Writing back the check boxes exactly as they were read leaves the
   * flags as they were: the write-back only changes what was edited.
   */
  lemma ReadThenWriteBack(f: bv32)
    ensures WrittenBack(f, ReadFlags(f), |ReadFlags(f)|) == f
  {
    WrittenBackUnchanged(f, ReadFlags(f), |ReadFlags(f)|);
  }

  /**
   * The flag loop of the emitter window: afterwards bit `i` is check box
   * `i` for the ten flags and every higher bit is as it was.
   */
  method WriteBackFlags(e: Emitter, wanted: seq<bool>)
    requires |wanted| == FlagCount
    modifies e`flags
    ensures e.flags == WrittenBack(old(e.flags), wanted, |wanted|)
    ensures forall j :: 0 <= j < FlagCount ==> HasFlag(e.flags, Bit(j)) == wanted[j]
    ensures forall j :: FlagCount <= j < 32 ==> HasFlag(e.flags, Bit(j)) == HasFlag(old(e.flags), Bit(j))
  {
    var i := 0;
    while i < |wanted|
      invariant 0 <= i <= |wanted|
      invariant e.flags == WrittenBack(old(e.flags), wanted, i)
    {
      e.flags := FlagStep(e.flags, wanted, i);
      i := i + 1;
    }
    forall j | 0 <= j < 32
      ensures HasFlag(e.flags, Bit(j)) == if j < i then wanted[j] else HasFlag(old(e.flags), Bit(j))
    {
      WrittenBackBits(old(e.flags), wanted, i, j);
    }
  }

  /**
   * The end of the emitter window: the selected easing, blend mode and
   * container type are stored, the flag boxes are written back, and when
   * `pulses` (its value when the window opened) differs from the edited
   * one the whole pool is emptied.
   */
  method CommitEmitterWindow(e: Emitter, pulses: int, easingIdx: int, mode: int,
                             kind: ContainerType, wanted: seq<bool>)
    requires 0 <= easingIdx < |Easings| && |wanted| == FlagCount
    modifies e`config, e`mode, e`flags, e`count, e.data
    ensures e.config == old(e.config).(easing := Easings[easingIdx],
                                       container := old(e.config).container.(kind := kind))
    ensures e.mode == mode
    ensures e.flags == WrittenBack(old(e.flags), wanted, |wanted|)
    ensures forall j :: 0 <= j < FlagCount ==> HasFlag(e.flags, Bit(j)) == wanted[j]
    ensures forall j :: FlagCount <= j < 32 ==> HasFlag(e.flags, Bit(j)) == HasFlag(old(e.flags), Bit(j))
    ensures pulses != e.config.pulses ==>
      e.count == 0 && (forall i :: 0 <= i < e.data.Length ==> e.data[i] == ZeroParticle) && e.CountsLive()
    ensures pulses == e.config.pulses ==> e.count == old(e.count) && e.data[..] == old(e.data[..])
  {
    e.config := e.config.(easing := Easings[easingIdx]);
    e.mode := mode;
    e.config := e.config.(container := e.config.container.(kind := kind));
    WriteBackFlags(e, wanted);
    if pulses != e.config.pulses {
      e.ClearParticles();
      ClearedCountsLive(e.data[..]);
    }
  }

  // ---------------------------------------------------------------------------
  // Gradient and forces
  // ---------------------------------------------------------------------------

  /** A gradient as the editor keeps it: a `MAX_COLORS` buffer with 1 to `MAX_COLORS` colours in use. */
  predicate GradientOk(g: Gradient) {
    |g.colors| == MAX_COLORS && 1 <= g.count <= MAX_COLORS
  }

  /** The selected colour is one in use. */
  predicate ActiveColorOk(active: int, g: Gradient) {
    0 <= active < g.count
  }

  /** Opening the colour window: a selection past the colours in use goes back to 0. */
  method ClampActiveColor(ed: Editor, e: Emitter)
    modifies ed`activeColor
    ensures ed.activeColor == if old(ed.activeColor) >= e.config.gradient.count then 0 else old(ed.activeColor)
    ensures old(ed.activeColor) >= 0 && e.config.gradient.count >= 1 ==>
      ActiveColorOk(ed.activeColor, e.config.gradient)
  {
    if ed.activeColor >= e.config.gradient.count {
      ed.activeColor := 0;
    }
  }

  /**
   * "Add": below `MAX_COLORS` colour `c` (`GenerateRandomColor`) is put in
   * the next slot, selected, and counted.
   */
  method AddColor(ed: Editor, e: Emitter, c: Color)
    requires |e.config.gradient.colors| == MAX_COLORS && 0 <= e.config.gradient.count
    modifies ed`activeColor, e`config
    ensures var g := old(e.config.gradient);
      if g.count < MAX_COLORS then
        e.config == old(e.config).(gradient := Gradient(g.colors[g.count := c], g.count + 1))
        && ed.activeColor == g.count
      else e.config == old(e.config) && ed.activeColor == old(ed.activeColor)
    ensures GradientOk(old(e.config.gradient)) && ActiveColorOk(old(ed.activeColor), old(e.config.gradient)) ==>
      GradientOk(e.config.gradient) && ActiveColorOk(ed.activeColor, e.config.gradient)
  {
    var g := e.config.gradient;
    if g.count < MAX_COLORS {
      e.config := e.config.(gradient := g.(colors := g.colors[g.count := c]));
      ed.activeColor := g.count;
      e.config := e.config.(gradient := e.config.gradient.(count := g.count + 1));
    }
  }

  /**
   * "Remove": the last colour is dropped while more than one is in use, and
   * a selection past the colours in use moves to the last one.
   */
  method RemoveColor(ed: Editor, e: Emitter)
    modifies ed`activeColor, e`config
    ensures var n := old(e.config.gradient.count);
      var m := if n > 1 then n - 1 else n;
      && e.config == old(e.config).(gradient := old(e.config.gradient).(count := m))
      && ed.activeColor == if old(ed.activeColor) >= m then m - 1 else old(ed.activeColor)
    ensures old(e.config.gradient.count) >= 1 ==> e.config.gradient.count >= 1
    ensures ed.activeColor <= e.config.gradient.count - 1
    ensures GradientOk(old(e.config.gradient)) && ActiveColorOk(old(ed.activeColor), old(e.config.gradient)) ==>
      GradientOk(e.config.gradient) && ActiveColorOk(ed.activeColor, e.config.gradient)
  {
    if e.config.gradient.count > 1 {
      e.config := e.config.(gradient := e.config.gradient.(count := e.config.gradient.count - 1));
    }
    if ed.activeColor >= e.config.gradient.count {
      ed.activeColor := e.config.gradient.count - 1;
    }
  }

  /** "Add Force": one more force in use, up to `MAX_FORCES`. */
  method AddForce(e: Emitter)
    modifies e`config
    ensures var n := old(e.config.forces.count);
      e.config == old(e.config).(forces := old(e.config.forces).(count := if n < MAX_FORCES then n + 1 else n))
    ensures 0 <= old(e.config.forces.count) <= MAX_FORCES ==> 0 <= e.config.forces.count <= MAX_FORCES
  {
    if e.config.forces.count < MAX_FORCES {
      e.config := e.config.(forces := e.config.forces.(count := e.config.forces.count + 1));
    }
  }

  /** "Remove Force": one force fewer, down to none. */
  method RemoveForce(e: Emitter)
    modifies e`config
    ensures var n := old(e.config.forces.count);
      e.config == old(e.config).(forces := old(e.config.forces).(count := if n > 0 then n - 1 else n))
    ensures 0 <= old(e.config.forces.count) <= MAX_FORCES ==> 0 <= e.config.forces.count <= MAX_FORCES
  {
    if e.config.forces.count > 0 {
      e.config := e.config.(forces := e.config.forces.(count := e.config.forces.count - 1));
    }
  }

  // ---------------------------------------------------------------------------
  // Effect name
  // ---------------------------------------------------------------------------

  /** The index of the first `'\0'`, or `|s|` when there is none. */
  function FirstNul(s: seq<char>): (z: nat)
    ensures z <= |s| && (z < |s| ==> s[z] == '\0')
    ensures forall k :: 0 <= k < z ==> s[k] != '\0'
  {
    if s == [] then 0 else if s[0] == '\0' then 0 else 1 + FirstNul(s[1..])
  }

  /** The name with every space before the terminator replaced by `'_'`. */
  function Sanitized(s: seq<char>): (r: seq<char>)
    ensures |r| == |s|
  {
    if s == [] then []
    else if s[0] == '\0' then s
    else [Fixed(s[0])] + Sanitized(s[1..])
  }

  /** A space becomes `'_'`; every other character stays. */
  function Fixed(c: char): char {
    if c == ' ' then '_' else c
  }

  lemma SanitizedUnfold(s: seq<char>, i: nat)
    requires i < |s| && s[i] != '\0'
    ensures Sanitized(s[i..]) == [Fixed(s[i])] + Sanitized(s[i + 1..])
  {
    assert s[i..][1..] == s[i + 1..];
  }

  /**
   * Before the first terminator a space becomes `'_'` and any other
   * character stays; from the terminator on nothing changes.
   */
  lemma {:induction false} SanitizedChars(s: seq<char>)
    ensures var r := Sanitized(s); var z := FirstNul(s);
      && (forall k :: 0 <= k < z ==> r[k] == Fixed(s[k]))
      && (forall k :: z <= k < |s| ==> r[k] == s[k])
  {
    if s != [] && s[0] != '\0' {
      SanitizedChars(s[1..]);
      var r := Sanitized(s);
      assert r[1..] == Sanitized(s[1..]);
      forall k | 1 <= k < |s|
        ensures r[k] == Sanitized(s[1..])[k - 1] && s[k] == s[1..][k - 1]
      {
      }
    }
  }

  /** The terminator stays where it was and no space is left before it. */
  lemma {:induction false} SanitizedHasNoSpaces(s: seq<char>)
    ensures var r := Sanitized(s);
      FirstNul(r) == FirstNul(s) && forall k :: 0 <= k < FirstNul(r) ==> r[k] != ' '
  {
    if s != [] && s[0] != '\0' {
      SanitizedHasNoSpaces(s[1..]);
      var r := Sanitized(s);
      assert r[1..] == Sanitized(s[1..]);
      forall k | 1 <= k < FirstNul(r)
        ensures r[k] == r[1..][k - 1]
      {
      }
    }
  }

  /** Sanitising twice is sanitising once. */
  lemma {:induction false} SanitizedIdempotent(s: seq<char>)
    ensures Sanitized(Sanitized(s)) == Sanitized(s)
  {
    if s != [] && s[0] != '\0' {
      SanitizedIdempotent(s[1..]);
      var r := Sanitized(s);
      assert r[1..] == Sanitized(s[1..]);
    }
  }

  /** The name loop's invariant: the first `i` characters are done, the rest are untouched. */
  ghost predicate SanitizedUpTo(s0: seq<char>, cur: seq<char>, i: nat) {
    i <= |s0| == |cur| && cur[i..] == s0[i..] && Sanitized(s0) == cur[..i] + Sanitized(s0[i..])
  }

  /** Fixing character `i` (not the terminator) moves the invariant one place on. */
  lemma SanitizeStep(s0: seq<char>, cur: seq<char>, i: nat)
    requires SanitizedUpTo(s0, cur, i) && i < |s0| && s0[i] != '\0'
    ensures SanitizedUpTo(s0, cur[i := Fixed(s0[i])], i + 1)
  {
    var next := cur[i := Fixed(s0[i])];
    SanitizedUnfold(s0, i);
    assert next[..i + 1] == cur[..i] + [Fixed(s0[i])];
    assert next[i + 1..] == cur[i + 1..];
    assert cur[i + 1..] == cur[i..][1..];
    assert s0[i + 1..] == s0[i..][1..];
  }

  /** At the terminator, or at the end, the name is completely sanitised. */
  lemma SanitizeDone(s0: seq<char>, cur: seq<char>, i: nat)
    requires SanitizedUpTo(s0, cur, i) && (i == |s0| || s0[i] == '\0')
    ensures cur == Sanitized(s0)
  {
    if i == |s0| {
      assert cur[..i] == cur;
      assert s0[i..] == [];
    } else {
      assert Sanitized(s0[i..]) == s0[i..];
      assert cur == cur[..i] + cur[i..];
    }
  }

  /** The name loop of `EditorNameInput`, over the `MAX_NAME_LEN` characters of `Editor.name`. */
  method SanitizeName(ed: Editor)
    requires ed.name.Length == MAX_NAME_LEN
    modifies ed.name
    ensures ed.name[..] == Sanitized(old(ed.name[..]))
  {
    ghost var s0 := ed.name[..];
    var i := 0;
    while i < MAX_NAME_LEN
      invariant 0 <= i <= MAX_NAME_LEN
      invariant SanitizedUpTo(s0, ed.name[..], i)
    {
      assert ed.name[i] == s0[i];
      if ed.name[i] == ' ' {
        SanitizeStep(s0, ed.name[..], i);
        ed.name[i] := '_';
      } else if ed.name[i] == '\0' {
        SanitizeDone(s0, ed.name[..], i);
        break;
      } else {
        SanitizeStep(s0, ed.name[..], i);
        assert ed.name[..] == ed.name[..][i := Fixed(s0[i])];
      }
      i := i + 1;
    }
    if i == MAX_NAME_LEN {
      SanitizeDone(s0, ed.name[..], i);
    }
  }

  // ---------------------------------------------------------------------------
  // Statistics
  // ---------------------------------------------------------------------------

  /** A scaled quantity and its unit: "M", "K" or none. */
  datatype Measurement<T> = Measurement(value: T, unit: string)

  /** The factor a unit stands for, with `s` the step between units. */
  function UnitFactor(unit: string, s: real): real {
    if unit == "M" then s * s else if unit == "K" then s else 1.0
  }

  /**
   * `FORMAT_MEASUREMENT` with the scale `1000.0`: the pixel counter, an
   * `unsigned long long`, is compared and divided as a `double`.
   */
  function FormatReal(x: real, s: real): (m: Measurement<real>)
    requires s != 0.0
    ensures m.unit in {"M", "K", ""}
  {
    if x > s * s then Measurement(x / (s * s), "M")
    else if x > s then Measurement(x / s, "K")
    else Measurement(x, "")
  }

  /**
   * The value times its unit is the input again, and the value lies in the
   * band its unit stands for: above 1 for "M", in (1, s] for "K", at most s
   * with no unit.
   */
  lemma FormatRealScales(x: real, s: real)
    requires s > 1.0
    ensures var m := FormatReal(x, s);
      && m.value * UnitFactor(m.unit, s) == x
      && (m.unit == "M" <==> x > s * s)
      && (m.unit == "K" <==> s < x <= s * s)
      && (m.unit == "M" ==> m.value > 1.0)
      && (m.unit == "K" ==> 1.0 < m.value <= s)
      && (m.unit == "" ==> m.value <= s)
  {
    var m := FormatReal(x, s);
    assert s * s > 0.0;
    if x > s * s {
      assert m.value * (s * s) == x;
      assert x / (s * s) > 1.0;
    } else if x > s {
      assert m.value * s == x;
      assert x / s > 1.0;
      DivAtMost(x, s, s * s);
    }
  }

  /** `x <= d * d` gives `x / d <= d`, stated apart from other arithmetic. */
  lemma DivAtMost(x: real, d: real, b: real)
    requires d > 0.0 && x <= b && b == d * d
    ensures x / d <= d
  {
  }

  /** `FORMAT_MEASUREMENT` on an `int` (memory sizes, step 1024), with C's truncating division. */
  function FormatInt(x: int, s: int): (m: Measurement<int>)
    requires s != 0
    ensures m.unit in {"M", "K", ""}
  {
    if x > s * s then Measurement(CDiv(x, s * s), "M")
    else if x > s then Measurement(CDiv(x, s), "K")
    else Measurement(x, "")
  }

  /** The factor a unit stands for in whole numbers. */
  function UnitFactorInt(unit: string, s: int): int {
    if unit == "M" then s * s else if unit == "K" then s else 1
  }

  /**
   * The integer value is the input divided by the unit's factor and
   * rounded down: the input lies in `[v * f, (v + 1) * f)`, and the units
   * are chosen by the same thresholds as in `FormatReal`.
   */
  lemma FormatIntScales(x: int, s: int)
    requires s > 1
    ensures var m := FormatInt(x, s); var f := UnitFactorInt(m.unit, s);
      && m.value * f <= x < m.value * f + f
      && (m.unit == "M" <==> x > s * s)
      && (m.unit == "K" <==> s < x <= s * s)
      && (m.unit == "M" ==> m.value >= 1)
      && (m.unit == "K" ==> 1 <= m.value <= s)
  {
    var m := FormatInt(x, s);
    var ss := s * s;
    assert ss > s by { assert s * s > s; }
    if x > ss {
      ScaledBelowInt(x, ss);
    } else if x > s {
      ScaledBelowInt(x, s);
      QuotientAtMost(x, s, ss);
    }
  }

  lemma ScaledBelowInt(x: int, d: int)
    requires d > 0 && x > d
    ensures CDiv(x, d) * d <= x < CDiv(x, d) * d + d && CDiv(x, d) >= 1
  {
    var q := x / d;
    assert q * d + x % d == x;
  }

  lemma QuotientAtMost(x: int, d: int, b: int)
    requires d > 0 && 0 < x <= b && b == d * d
    ensures CDiv(x, d) <= d
  {
    var q := x / d;
    assert q * d + x % d == x;
    if q > d {
      assert q * d >= (d + 1) * d;
    }
  }

  // ---------------------------------------------------------------------------
  // Texture export
  // ---------------------------------------------------------------------------

  /**
   * `WasTextureExported(tidx, id)`: the first emitter before list position
   * `id` that uses texture `tidx` (its texture was saved with that one), or
   * `id` when none does.
   */
  method WasTextureExported(ed: Editor, tidx: int, id: int) returns (i: int)
    requires ed.Valid() && 0 <= id <= ed.emitterCount
    ensures 0 <= i <= id
    ensures i < id ==> ed.emitters[i].config.atlas.texture.id == tidx
    ensures forall j :: 0 <= j < i ==> ed.emitters[j].config.atlas.texture.id != tidx
  {
    i := 0;
    while i < id
      invariant 0 <= i <= id
      invariant forall j :: 0 <= j < i ==> ed.emitters[j].config.atlas.texture.id != tidx
    {
      if ed.emitters[i].config.atlas.texture.id == tidx {
        return;
      }
      i := i + 1;
    }
  }
}
