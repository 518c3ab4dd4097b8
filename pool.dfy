/**
 * The particle pool of EmitterUpdate as values: which slots a spawn pass fills
 * (`Filled`), what one reclaim/advance/swap pass does (`Pass`), and what those
 * two functions preserve. The class in emitter.dfy runs the same loops on an
 * array and is proved equal to these functions.
 */
module ParticlePool {
  import opened CMath
  import opened ParticleTypes

  // ---------------------------------------------------------------------------
  // Free slots
  // ---------------------------------------------------------------------------

  /** Number of free slots (`life == 0`) in `s`. */
  function FreeCount(s: seq<Particle>): (n: nat)
    ensures n <= |s|
  {
    if s == [] then 0 else FreeCount(s[..|s| - 1]) + (if IsFree(s[|s| - 1]) then 1 else 0)
  }

  /** Number of slots holding a particle. */
  function LiveCount(s: seq<Particle>): nat {
    |s| - FreeCount(s)
  }

  lemma FreeCountAppend(s: seq<Particle>, x: Particle)
    ensures FreeCount(s + [x]) == FreeCount(s) + (if IsFree(x) then 1 else 0)
  {
    assert (s + [x])[..|s|] == s;
  }

  /** Growing a prefix never loses free slots, and passing a free slot gains one. */
  lemma {:induction false} FreeCountPrefix(s: seq<Particle>, k: nat, j: nat)
    requires k <= j <= |s|
    ensures FreeCount(s[..k]) <= FreeCount(s[..j])
    ensures k < j && IsFree(s[k]) ==> FreeCount(s[..k]) < FreeCount(s[..j])
    decreases j - k
  {
    if k < j {
      FreeCountPrefix(s, k + 1, j);
      assert s[..k + 1] == s[..k] + [s[k]];
      FreeCountAppend(s[..k], s[k]);
    }
  }

  /** Overwriting one slot changes the free count by what left and what arrived. */
  lemma {:induction false} FreeCountUpdate(s: seq<Particle>, i: nat, x: Particle)
    requires i < |s|
    ensures FreeCount(s[i := x]) + (if IsFree(s[i]) then 1 else 0)
         == FreeCount(s) + (if IsFree(x) then 1 else 0)
    decreases |s|
  {
    var n := |s| - 1;
    var t := s[i := x];
    assert t[..n] == if i < n then s[..n][i := x] else s[..n];
    if i < n {
      FreeCountUpdate(s[..n], i, x);
    }
  }

  // ---------------------------------------------------------------------------
  // Spawning
  // ---------------------------------------------------------------------------

  /** Slot `j` is among the first `n` free slots of `s`. */
  predicate TakenBySpawn(s: seq<Particle>, n: nat, j: nat)
    requires j < |s|
  {
    IsFree(s[j]) && FreeCount(s[..j]) < n
  }

  /**
   * `s` after the first `n` free slots, from index 0 upward, received the
   * particles `gen(0)`, `gen(1)`, ... in order.
   */
  function Filled(s: seq<Particle>, gen: nat -> Particle, n: nat): (t: seq<Particle>)
    ensures |t| == |s|
  {
    seq(|s|, j requires 0 <= j < |s| =>
      if TakenBySpawn(s, n, j) then gen(FreeCount(s[..j])) else s[j])
  }

  lemma FilledAt(s: seq<Particle>, gen: nat -> Particle, n: nat, j: nat)
    requires j < |s|
    ensures Filled(s, gen, n)[j] == if TakenBySpawn(s, n, j) then gen(FreeCount(s[..j])) else s[j]
  {
  }

  /** Filling one more free slot: the next one is the slot at the scan position. */
  lemma FilledStep(s: seq<Particle>, gen: nat -> Particle, i: nat)
    requires i < |s| && IsFree(s[i])
    ensures Filled(s, gen, FreeCount(s[..i]) + 1)
         == Filled(s, gen, FreeCount(s[..i]))[i := gen(FreeCount(s[..i]))]
  {
    var r := FreeCount(s[..i]);
    var after := Filled(s, gen, r + 1);
    var before := Filled(s, gen, r)[i := gen(r)];
    forall j | 0 <= j < |s|
      ensures after[j] == before[j]
    {
      FilledAt(s, gen, r + 1, j);
      FilledAt(s, gen, r, j);
      if j < i {
        FreeCountPrefix(s, j, i);
      } else if j > i {
        FreeCountPrefix(s, i, j);
      }
    }
  }

  /** Nothing is filled when `n` is 0. */
  lemma FilledNone(s: seq<Particle>, gen: nat -> Particle)
    ensures Filled(s, gen, 0) == s
  {
    var t := Filled(s, gen, 0);
    forall j | 0 <= j < |s| ensures t[j] == s[j] {
      FilledAt(s, gen, 0, j);
    }
  }

  /** The filled slots are the lowest-indexed free ones: no free slot is skipped. */
  lemma FilledLowestFirst(s: seq<Particle>, n: nat, k: nat, j: nat)
    requires k < j < |s|
    requires TakenBySpawn(s, n, j) && IsFree(s[k])
    ensures TakenBySpawn(s, n, k)
  {
    FreeCountPrefix(s, k, j);
  }

  /** Asking for at least as many slots as are free fills every free slot. */
  lemma FilledSaturated(s: seq<Particle>, gen: nat -> Particle, n: nat, m: nat)
    requires FreeCount(s) <= n && FreeCount(s) <= m
    ensures Filled(s, gen, n) == Filled(s, gen, m)
  {
    var a := Filled(s, gen, n);
    var b := Filled(s, gen, m);
    forall j | 0 <= j < |s| ensures a[j] == b[j] {
      FilledAt(s, gen, n, j);
      FilledAt(s, gen, m, j);
      FreeCountPrefix(s, j, |s|);
      assert s[..|s|] == s;
    }
  }

  /**
   * When every generated particle is alive, filling takes exactly
   * `min(n, FreeCount(s))` free slots.
   */
  lemma {:induction false} FilledFreeCount(s: seq<Particle>, gen: nat -> Particle, n: nat)
    requires forall r: nat :: gen(r).life != 0.0
    ensures FreeCount(Filled(s, gen, n)) == FreeCount(s) - Min(n, FreeCount(s))
    ensures LiveCount(Filled(s, gen, n)) == LiveCount(s) + Min(n, FreeCount(s))
    decreases |s|
  {
    if s != [] {
      var m := |s| - 1;
      var t := Filled(s, gen, n);
      var front := s[..m];
      assert t[..m] == Filled(front, gen, n) by {
        var a := t[..m];
        var b := Filled(front, gen, n);
        forall j | 0 <= j < m ensures a[j] == b[j] {
          assert front[..j] == s[..j];
          FilledAt(s, gen, n, j);
          FilledAt(front, gen, n, j);
        }
      }
      FilledAt(s, gen, n, m);
      FilledFreeCount(front, gen, n);
      assert s == front + [s[m]];
      assert t == t[..m] + [t[m]];
      FreeCountAppend(front, s[m]);
      FreeCountAppend(t[..m], t[m]);
    }
  }

  // ---------------------------------------------------------------------------
  // The update pass
  // ---------------------------------------------------------------------------

  /** The time step of `ParticleUpdate`: a zero frame time is replaced by 0.0016. */
  function FrameStep(dt: real): (h: real)
    ensures h != 0.0
    ensures dt != 0.0 ==> h == dt
    ensures dt == 0.0 ==> h == 0.0016
  {
    if dt == 0.0 then 0.0016 else dt
  }

  /**
   * `ParticleUpdate`: the position comes from the (abstract) kinematics `move`,
   * evaluated on the particle before ageing; the age grows by one step.
   */
  function ParticleStep(p: Particle, dt: real, move: (Particle, real) -> Vector2): (q: Particle)
    ensures q.time == p.time + FrameStep(dt)
    ensures q.position == move(p, FrameStep(dt))
    ensures q.(position := p.position, time := p.time) == p
  {
    p.(position := move(p, FrameStep(dt)), time := p.time + FrameStep(dt))
  }

  predicate Expired(p: Particle) { p.life != 0.0 && p.time >= p.life }
  predicate Active(p: Particle) { p.life != 0.0 && p.time < p.life }

  /** What the pass does to one visited slot, before any swap. */
  function Aged(p: Particle, dt: real, move: (Particle, real) -> Vector2): Particle {
    if IsFree(p) then p
    else if Expired(p) then p.(life := 0.0)
    else ParticleStep(p, dt, move)
  }

  function AgeAll(s: seq<Particle>, dt: real, move: (Particle, real) -> Vector2): (t: seq<Particle>)
    ensures |t| == |s|
  {
    if s == [] then [] else [Aged(s[0], dt, move)] + AgeAll(s[1..], dt, move)
  }

  function ExpiredCount(s: seq<Particle>): nat {
    if s == [] then 0 else (if Expired(s[0]) then 1 else 0) + ExpiredCount(s[1..])
  }

  function ActiveCount(s: seq<Particle>): nat {
    if s == [] then 0 else (if Active(s[0]) then 1 else 0) + ActiveCount(s[1..])
  }

  /** Exchange slot `i` with the one before it. */
  function SwapBack(s: seq<Particle>, i: nat): (t: seq<Particle>)
    requires 0 < i < |s|
    ensures |t| == |s| && t[i - 1] == s[i] && t[i] == s[i - 1]
    ensures forall k :: 0 <= k < |s| && k != i && k != i - 1 ==> t[k] == s[k]
  {
    s[i - 1 := s[i]][i := s[i - 1]]
  }

  /**
   * What the loop body does at slot `i`: an expired particle is reclaimed; a
   * live one is advanced and then swapped with its predecessor when that one
   * has the larger total life; a free slot is left alone.
   */
  function Visit(s: seq<Particle>, i: nat, dt: real, move: (Particle, real) -> Vector2): (t: seq<Particle>)
    requires i < |s|
    ensures |t| == |s| && t[i + 1..] == s[i + 1..]
  {
    if IsFree(s[i]) then s
    else if Expired(s[i]) then s[i := s[i].(life := 0.0)]
    else
      var s1 := s[i := ParticleStep(s[i], dt, move)];
      if i > 0 && s1[i - 1].life > s1[i].life then SwapBack(s1, i) else s1
  }

  /** `count -= 1`, floored at 0. */
  function Reclaimed(c: int): (c': int)
    ensures c' >= 0
    ensures c > 0 ==> c' == c - 1
  {
    if c - 1 < 0 then 0 else c - 1
  }

  /** The state of the update loop when it stops. */
  datatype PassResult = PassResult(pool: seq<Particle>, count: int, updated: int, stop: nat)

  /**
   * The update loop of EmitterUpdate from slot `i`, with live count `c` and
   * `u` particles advanced so far. It stops at the end of the pool or as soon
   * as the count reaches 0.
   */
  function Pass(s: seq<Particle>, i: nat, c: int, u: int,
                dt: real, move: (Particle, real) -> Vector2): (r: PassResult)
    requires i <= |s|
    decreases |s| - i
  {
    if i >= |s| || c <= 0 then PassResult(s, c, u, i)
    else
      Pass(Visit(s, i, dt, move), i + 1,
           if Expired(s[i]) then Reclaimed(c) else c,
           if Active(s[i]) then u + 1 else u, dt, move)
  }

  lemma AgeAllCons(s: seq<Particle>, i: nat, k: nat, dt: real, move: (Particle, real) -> Vector2)
    requires i < k <= |s|
    ensures AgeAll(s[i..k], dt, move) == [Aged(s[i], dt, move)] + AgeAll(s[i + 1..k], dt, move)
  {
    assert s[i..k][1..] == s[i + 1..k];
  }

  lemma CountsCons(s: seq<Particle>, i: nat, k: nat)
    requires i < k <= |s|
    ensures ExpiredCount(s[i..k]) == (if Expired(s[i]) then 1 else 0) + ExpiredCount(s[i + 1..k])
    ensures ActiveCount(s[i..k]) == (if Active(s[i]) then 1 else 0) + ActiveCount(s[i + 1..k])
  {
    assert s[i..k][1..] == s[i + 1..k];
  }

  /** Two pools that agree from `i + 1` on agree on every slice starting there. */
  lemma SameTail(s: seq<Particle>, t: seq<Particle>, i: nat, k: nat)
    requires |s| == |t| && i < k <= |s| && t[i + 1..] == s[i + 1..]
    ensures t[i + 1..k] == s[i + 1..k] && t[k..] == s[k..]
  {
    assert t[i + 1..k] == t[i + 1..][..k - (i + 1)];
    assert s[i + 1..k] == s[i + 1..][..k - (i + 1)];
    assert t[k..] == t[i + 1..][k - (i + 1)..];
    assert s[k..] == s[i + 1..][k - (i + 1)..];
  }

  /**
   * Where the pass stops: slots from `stop` on are untouched, and the loop ran
   * to the end of the pool or the count reached 0.
   */
  lemma {:induction false} PassShape(s: seq<Particle>, i: nat, c: int, u: int,
                                     dt: real, move: (Particle, real) -> Vector2)
    requires i <= |s|
    ensures var r := Pass(s, i, c, u, dt, move);
      && |r.pool| == |s|
      && i <= r.stop <= |s|
      && r.pool[r.stop..] == s[r.stop..]
      && (r.stop == |s| || r.count <= 0)
      && (c <= 0 ==> r == PassResult(s, c, u, i))
    decreases |s| - i
  {
    if i < |s| && c > 0 {
      var t := Visit(s, i, dt, move);
      var c' := if Expired(s[i]) then Reclaimed(c) else c;
      var u' := if Active(s[i]) then u + 1 else u;
      PassShape(t, i + 1, c', u', dt, move);
      SameTail(s, t, i, Pass(t, i + 1, c', u', dt, move).stop);
    }
  }

  /**
   * What the pass counts: `updated` grows by the number of visited particles
   * that were alive and unexpired, and a positive count falls by the number of
   * expired ones visited, never below 0.
   */
  lemma {:induction false} PassTally(s: seq<Particle>, i: nat, c: int, u: int,
                                     dt: real, move: (Particle, real) -> Vector2)
    requires i <= |s|
    ensures var r := Pass(s, i, c, u, dt, move);
      && i <= r.stop <= |s|
      && r.updated == u + ActiveCount(s[i..r.stop])
      && (c > 0 ==> r.count == c - ExpiredCount(s[i..r.stop]) && r.count >= 0)
    decreases |s| - i
  {
    PassShape(s, i, c, u, dt, move);
    if i < |s| && c > 0 {
      var t := Visit(s, i, dt, move);
      var c' := if Expired(s[i]) then Reclaimed(c) else c;
      var u' := if Active(s[i]) then u + 1 else u;
      PassTally(t, i + 1, c', u', dt, move);
      PassShape(t, i + 1, c', u', dt, move);
      var k := Pass(t, i + 1, c', u', dt, move).stop;
      SameTail(s, t, i, k);
      CountsCons(s, i, k);
    }
  }

  /** Visiting slot `i` replaces it by its aged value, within the first `i + 1` slots. */
  lemma VisitMultiset(s: seq<Particle>, i: nat, dt: real, move: (Particle, real) -> Vector2)
    requires i < |s|
    ensures multiset(Visit(s, i, dt, move)[..i + 1]) == multiset(s[..i]) + multiset{Aged(s[i], dt, move)}
  {
    var x := Aged(s[i], dt, move);
    var s1 := s[i := x];
    assert s1[..i + 1] == s[..i] + [x];
    if !IsFree(s[i]) && !Expired(s[i]) && i > 0 && s1[i - 1].life > s1[i].life {
      assert Visit(s, i, dt, move) == SwapBack(s1, i);
      SwapBackMultiset(s1, i);
    } else if IsFree(s[i]) {
      assert s1 == s;
    } else {
      assert Visit(s, i, dt, move) == s1;
    }
  }

  /** Swapping a slot with its predecessor keeps the multiset of the prefix up to it. */
  lemma SwapBackMultiset(s: seq<Particle>, i: nat)
    requires 0 < i < |s|
    ensures multiset(SwapBack(s, i)[..i + 1]) == multiset(s[..i + 1])
  {
    var t := SwapBack(s, i);
    var a := s[..i - 1];
    assert s[..i + 1] == a + [s[i - 1]] + [s[i]];
    assert t[..i + 1] == a + [s[i]] + [s[i - 1]];
  }

  /**
   * The pass moves particles only by swaps: the pool after it holds the
   * already-visited prefix, every visited slot aged once (reclaimed or
   * advanced by exactly one frame step), and the untouched rest.
   */
  lemma {:induction false} PassMultiset(s: seq<Particle>, i: nat, c: int, u: int,
                                        dt: real, move: (Particle, real) -> Vector2)
    requires i <= |s|
    ensures var r := Pass(s, i, c, u, dt, move);
      i <= r.stop <= |s| &&
      multiset(r.pool) == multiset(s[..i]) + multiset(AgeAll(s[i..r.stop], dt, move))
                          + multiset(s[r.stop..])
    decreases |s| - i
  {
    var r := Pass(s, i, c, u, dt, move);
    if i >= |s| || c <= 0 {
      assert r == PassResult(s, c, u, i);
      MultisetBase(s, i, dt, move);
    } else {
      var t := Visit(s, i, dt, move);
      var c' := if Expired(s[i]) then Reclaimed(c) else c;
      var u' := if Active(s[i]) then u + 1 else u;
      assert r == Pass(t, i + 1, c', u', dt, move);
      PassMultiset(t, i + 1, c', u', dt, move);
      var k := r.stop;
      VisitMultiset(s, i, dt, move);
      MultisetStep(s, t, i, k, r.pool, dt, move);
    }
  }

  lemma MultisetBase(s: seq<Particle>, i: nat, dt: real, move: (Particle, real) -> Vector2)
    requires i <= |s|
    ensures multiset(s) == multiset(s[..i]) + multiset(AgeAll(s[i..i], dt, move)) + multiset(s[i..])
  {
    assert s[i..i] == [];
    assert s == s[..i] + s[i..];
  }

  lemma MultisetStep(s: seq<Particle>, t: seq<Particle>, i: nat, k: nat, pool: seq<Particle>,
                     dt: real, move: (Particle, real) -> Vector2)
    requires i < k <= |s| == |t| && t[i + 1..] == s[i + 1..]
    requires multiset(t[..i + 1]) == multiset(s[..i]) + multiset{Aged(s[i], dt, move)}
    requires multiset(pool) == multiset(t[..i + 1]) + multiset(AgeAll(t[i + 1..k], dt, move))
                               + multiset(t[k..])
    ensures multiset(pool) == multiset(s[..i]) + multiset(AgeAll(s[i..k], dt, move))
                              + multiset(s[k..])
  {
    SameTail(s, t, i, k);
    AgeAllCons(s, i, k, dt, move);
    assert multiset(AgeAll(s[i..k], dt, move))
        == multiset{Aged(s[i], dt, move)} + multiset(AgeAll(s[i + 1..k], dt, move));
  }

  /** Visiting a slot frees it exactly when its particle had expired. */
  lemma VisitFreeCount(s: seq<Particle>, i: nat, dt: real, move: (Particle, real) -> Vector2)
    requires i < |s|
    ensures FreeCount(Visit(s, i, dt, move)) == FreeCount(s) + (if Expired(s[i]) then 1 else 0)
  {
    if Expired(s[i]) {
      FreeCountUpdate(s, i, s[i].(life := 0.0));
    } else if !IsFree(s[i]) {
      var s1 := s[i := ParticleStep(s[i], dt, move)];
      FreeCountUpdate(s, i, s1[i]);
      if i > 0 && s1[i - 1].life > s1[i].life {
        FreeCountUpdate(s1, i - 1, s1[i]);
        FreeCountUpdate(s1[i - 1 := s1[i]], i, s1[i - 1]);
      }
    }
  }

  /**
   * When the count agrees with the number of occupied slots before the pass,
   * it still does afterwards.
   */
  lemma {:induction false} PassLiveCount(s: seq<Particle>, i: nat, c: int, u: int,
                                         dt: real, move: (Particle, real) -> Vector2)
    requires i <= |s|
    requires c == LiveCount(s)
    ensures Pass(s, i, c, u, dt, move).count == LiveCount(Pass(s, i, c, u, dt, move).pool)
    decreases |s| - i
  {
    if i < |s| && c > 0 {
      VisitFreeCount(s, i, dt, move);
      PassLiveCount(Visit(s, i, dt, move), i + 1, if Expired(s[i]) then Reclaimed(c) else c,
                    if Active(s[i]) then u + 1 else u, dt, move);
    }
  }

  // ---------------------------------------------------------------------------
  // Ordering by total life
  // ---------------------------------------------------------------------------

  predicate AllActive(s: seq<Particle>) {
    forall k :: 0 <= k < |s| ==> Active(s[k])
  }

  predicate SortedByLife(s: seq<Particle>) {
    forall j, k :: 0 <= j < k < |s| ==> s[j].life <= s[k].life
  }

  /**
   * A pool already ordered by ascending total life, all alive and unexpired,
   * is advanced in place: no swap happens.
   */
  lemma {:induction false} PassKeepsSorted(s: seq<Particle>, i: nat, c: int, u: int,
                                           dt: real, move: (Particle, real) -> Vector2)
    requires i <= |s| && c > 0
    requires SortedByLife(s) && AllActive(s[i..])
    ensures Pass(s, i, c, u, dt, move).pool == s[..i] + AgeAll(s[i..], dt, move)
    decreases |s| - i
  {
    if i == |s| {
      assert s[..i] == s;
    } else {
      var s1 := SortedStep(s, i, dt, move);
      assert Pass(s, i, c, u, dt, move) == Pass(s1, i + 1, c, u + 1, dt, move);
      PassKeepsSorted(s1, i + 1, c, u + 1, dt, move);
      AgeAllCons(s, i, |s|, dt, move);
      assert s[i..|s|] == s[i..] && s[i + 1..|s|] == s[i + 1..];
      JoinAged(s[..i], Aged(s[i], dt, move), s1[..i + 1], AgeAll(s1[i + 1..], dt, move),
               AgeAll(s[i..], dt, move));
    }
  }

  lemma JoinAged(a: seq<Particle>, x: Particle, p: seq<Particle>, b: seq<Particle>, whole: seq<Particle>)
    requires p == a + [x] && whole == [x] + b
    ensures p + b == a + whole
  {
  }

  /** One visit on a sorted, active pool: the slot is advanced in place and the pool stays sorted. */
  lemma SortedStep(s: seq<Particle>, i: nat, dt: real, move: (Particle, real) -> Vector2)
      returns (s1: seq<Particle>)
    requires i < |s| && SortedByLife(s) && AllActive(s[i..])
    ensures Active(s[i]) && s1 == Visit(s, i, dt, move) && |s1| == |s|
    ensures SortedByLife(s1) && AllActive(s1[i + 1..])
    ensures s1[..i + 1] == s[..i] + [Aged(s[i], dt, move)]
    ensures s1[i + 1..] == s[i + 1..]
  {
    var rest := s[i..];
    assert Active(rest[0]);
    s1 := s[i := ParticleStep(s[i], dt, move)];
    var tail := s1[i + 1..];
    assert tail == rest[1..];
  }

  /** Slot `i` holds the largest total life of the first `i + 1` slots. */
  predicate LongestUpTo(s: seq<Particle>, i: nat)
    requires i < |s|
  {
    forall k :: 0 <= k <= i ==> s[k].life <= s[i].life
  }

  /**
   * On a pool of live, unexpired particles one pass carries the largest total
   * life to the last slot, like one round of bubble sort.
   */
  lemma {:induction false} PassCarriesLongestLast(s: seq<Particle>, i: nat, c: int, u: int,
                                                  dt: real, move: (Particle, real) -> Vector2)
    requires 0 < i <= |s| && c > 0
    requires AllActive(s[i..]) && LongestUpTo(s, i - 1)
    ensures var t := Pass(s, i, c, u, dt, move).pool;
      |t| == |s| && LongestUpTo(t, |t| - 1)
    decreases |s| - i
  {
    if i < |s| {
      var rest := s[i..];
      assert Active(rest[0]);
      var s2 := Visit(s, i, dt, move);
      assert LongestUpTo(s2, i);
      var tail := s2[i + 1..];
      assert tail == rest[1..];
      PassCarriesLongestLast(s2, i + 1, c, u + 1, dt, move);
    }
  }

  /** The same from slot 0: the first slot is advanced without a swap. */
  lemma PassLongestLast(s: seq<Particle>, c: int, dt: real, move: (Particle, real) -> Vector2)
    requires |s| > 0 && c > 0 && AllActive(s)
    ensures var t := Pass(s, 0, c, 0, dt, move).pool;
      |t| == |s| && LongestUpTo(t, |t| - 1)
  {
    assert Active(s[0]);
    var s1 := Visit(s, 0, dt, move);
    var tail := s1[1..];
    assert tail == s[1..];
    PassCarriesLongestLast(s1, 1, c, 1, dt, move);
  }

  /** A particle advanced past its life stays in the pool, alive, until the next pass. */
  lemma PassLeavesOverAged()
    ensures var p := Particle(Zero2, Zero2, Zero2, 1.0, 0.0, 0.75, 1.0, 0.0, 0);
      var r := Pass([p], 0, 1, 0, 0.5, (q: Particle, h: real) => q.position);
      |r.pool| == 1 && r.pool[0].life != 0.0 && r.pool[0].time >= r.pool[0].life
  {
    var p := Particle(Zero2, Zero2, Zero2, 1.0, 0.0, 0.75, 1.0, 0.0, 0);
    var move := (q: Particle, h: real) => q.position;
    assert Visit([p], 0, 0.5, move) == [p.(time := 1.25)];
  }
}
