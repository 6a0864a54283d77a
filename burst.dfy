/**
 * Burst particles: the hearts a click throws out. Each flies off along a random angle,
 * falls under gravity, fades by its decay rate and is removed once its life is used up.
 */
module Burst {
  import opened Glyphs

  /** `Math.PI`, taken as the nearest double written out as a real. */
  const MathPi: real := 3.141592653589793

  /** The downward acceleration added to vy on every update. */
  const Gravity: real := 0.1

  /** The life a burst starts with. */
  const FullLife: real := 1.0

  /** The decays a burst's constructor can draw lie in [MinDecay, MaxDecay). */
  const MinDecay: real := 0.01
  const MaxDecay: real := 0.03

  /**
   * The four `Math.random()` draws a burst's constructor makes, in call order, with the
   * values `Math.cos` and `Math.sin` return at the angle drawn from `rAngle`.
   */
  datatype BurstDraws = BurstDraws(rSize: real, rAngle: real, rSpeed: real, rDecay: real, cos: real, sin: real)

  predicate ValidBurstDraws(r: BurstDraws) {
    IsUnitDraw(r.rSize) && IsUnitDraw(r.rAngle) && IsUnitDraw(r.rSpeed) && IsUnitDraw(r.rDecay)
  }

  /** A snapshot of a burst particle's fields. */
  datatype BurstState = BurstState(
    x: real, y: real, size: real, angle: real, speed: real,
    vx: real, vy: real, life: real, decay: real, color: Color, text: string)

  /** A fresh burst at the click point, from one draw record. */
  function SpawnBurst(cx: real, cy: real, r: BurstDraws): BurstState
    requires ValidBurstDraws(r)
  {
    var angle := r.rAngle * MathPi * 2.0;
    var speed := r.rSpeed * 3.0 + 2.0;
    BurstState(
      cx, cy,
      r.rSize * 15.0 + 5.0,
      angle,
      speed,
      r.cos * speed,
      r.sin * speed,
      FullLife,
      r.rDecay * 0.02 + 0.01,
      HeartColor(1.0),
      Heart)
  }

  /**
   * A fresh burst starts at the click point with full life, a decay in [0.01, 0.03), a size
   * in [5, 20), an angle in [0, 2 pi), a speed in [2, 5) and a velocity of that speed along
   * the drawn direction, drawn as a heart.
   */
  lemma SpawnBurstRanges(cx: real, cy: real, r: BurstDraws)
    requires ValidBurstDraws(r)
    ensures var b := SpawnBurst(cx, cy, r);
            && b.x == cx && b.y == cy
            && b.life == FullLife
            && MinDecay <= b.decay < MaxDecay
            && 5.0 <= b.size < 20.0
            && 0.0 <= b.angle < MathPi * 2.0
            && 2.0 <= b.speed < 5.0
            && b.vx == r.cos * b.speed && b.vy == r.sin * b.speed
            && b.color == HeartColor(1.0) && b.text == Heart
  {
  }

  /**
   * A fresh burst flies off at exactly its drawn speed whenever the cosine and sine it
   * was given lie on the unit circle.
   */
  lemma SpawnedSpeed(cx: real, cy: real, r: BurstDraws)
    requires ValidBurstDraws(r)
    ensures var b := SpawnBurst(cx, cy, r);
            r.cos * r.cos + r.sin * r.sin == 1.0 ==> b.vx * b.vx + b.vy * b.vy == b.speed * b.speed
  {
    var b := SpawnBurst(cx, cy, r);
    UnitVelocity(r.cos, r.sin, b.speed);
  }

  /** Scaling a unit vector by `speed` gives a vector of length `speed`. */
  lemma UnitVelocity(c: real, s: real, speed: real)
    ensures c * c + s * s == 1.0 ==> (c * speed) * (c * speed) + (s * speed) * (s * speed) == speed * speed
  {
    calc {
      (c * speed) * (c * speed) + (s * speed) * (s * speed);
      (c * c + s * s) * (speed * speed);
    }
  }

  /**
   * One burst update. Gravity is added to vy last, so the move uses the velocity from
   * before the update.
   */
  function BurstStep(b: BurstState): BurstState
  {
    b.(x := b.x + b.vx, y := b.y + b.vy, life := b.life - b.decay, vy := b.vy + Gravity)
  }

  /**
   * What one update changes: the position moves by the velocity from before the update
   * (gravity is applied after the move), life drops by the decay, vy grows by 0.1, and
   * nothing else changes.
   */
  lemma StepEffect(b: BurstState)
    ensures var c := BurstStep(b);
            && c == b.(x := c.x, y := c.y, vy := c.vy, life := c.life)
            && c.x - b.x == b.vx && c.y - b.y == b.vy
            && c.life == b.life - b.decay
            && c.vy - b.vy == Gravity
  {
  }

  /** A burst after n updates. */
  function BurstRun(b: BurstState, n: nat): BurstState
  {
    if n == 0 then b else BurstStep(BurstRun(b, n - 1))
  }

  /** 0 + 1 + ... + (n - 1). */
  function Triangle(n: nat): nat
  {
    if n == 0 then 0 else Triangle(n - 1) + (n - 1)
  }

  /** Only the position, vy and life change over a run. */
  lemma {:induction false} RunKeeps(b: BurstState, n: nat)
    ensures var c := BurstRun(b, n); c == b.(x := c.x, y := c.y, vy := c.vy, life := c.life)
  {
    if n > 0 {
      RunKeeps(b, n - 1);
    }
  }

  /** Life falls linearly: n decays are gone after n updates. */
  lemma {:induction false} RunLife(b: BurstState, n: nat)
    ensures BurstRun(b, n).life == b.life - n as real * b.decay
  {
    if n > 0 {
      RunLife(b, n - 1);
      RunKeeps(b, n - 1);
    }
  }

  /** Gravity accumulates: vy has grown by n times 0.1 after n updates. */
  lemma {:induction false} RunVy(b: BurstState, n: nat)
    ensures BurstRun(b, n).vy == b.vy + n as real * Gravity
  {
    if n > 0 {
      RunVy(b, n - 1);
    }
  }

  /** Uniform motion in x. */
  lemma {:induction false} RunX(b: BurstState, n: nat)
    ensures BurstRun(b, n).x == b.x + n as real * b.vx
  {
    if n > 0 {
      RunX(b, n - 1);
      RunKeeps(b, n - 1);
    }
  }

  /** Uniformly accelerated motion in y: each update adds the vy of the update before. */
  lemma {:induction false} RunY(b: BurstState, n: nat)
    ensures BurstRun(b, n).y == b.y + n as real * b.vy + Gravity * Triangle(n) as real
  {
    if n > 0 {
      var m := (n - 1) as real;
      RunY(b, n - 1);
      RunVy(b, n - 1);
      assert BurstRun(b, n).y == b.y + m * b.vy + Gravity * Triangle(n - 1) as real + (b.vy + m * Gravity);
      assert m * b.vy + b.vy == n as real * b.vy;
    }
  }

  /**
   * Closed form of n updates: uniform motion in x, uniformly accelerated motion in y,
   * and life falling linearly by the decay.
   */
  lemma BurstRunClosedForm(b: BurstState, n: nat)
    ensures BurstRun(b, n) == b.(
      x := b.x + n as real * b.vx,
      y := b.y + n as real * b.vy + Gravity * Triangle(n) as real,
      vy := b.vy + n as real * Gravity,
      life := b.life - n as real * b.decay)
  {
    RunKeeps(b, n);
    RunX(b, n);
    RunY(b, n);
    RunVy(b, n);
    RunLife(b, n);
  }

  /** `Math.ceil` on reals. */
  function Ceil(x: real): (k: int)
    ensures x <= k as real < x + 1.0
  {
    -((-x).Floor)
  }

  /** An integer lies below a real exactly when it lies below the real's ceiling. */
  lemma BelowCeil(n: int, x: real)
    ensures n < Ceil(x) <==> (n as real) < x
  {
  }

  /** For a positive decay, n decays fit into a full life exactly when n < 1 / d. */
  lemma DecaysFit(n: nat, d: real)
    requires 0.0 < d
    ensures FullLife - n as real * d > 0.0 <==> (n as real) < 1.0 / d
  {
    assert (1.0 / d) * d == 1.0;
    if (n as real) < 1.0 / d {
      assert (n as real) * d < (1.0 / d) * d;
    } else {
      assert (n as real) * d >= (1.0 / d) * d;
    }
  }

  /**
   * A fresh burst with decay d > 0 is still alive after n updates exactly when
   * n < ⌈1/d⌉: the update that first leaves its life at or below zero is update ⌈1/d⌉.
   */
  lemma AliveUntilCeil(b: BurstState, n: nat)
    requires b.life == FullLife && 0.0 < b.decay
    ensures BurstRun(b, n).life > 0.0 <==> n < Ceil(1.0 / b.decay)
  {
    RunLife(b, n);
    DecaysFit(n, b.decay);
    BelowCeil(n, 1.0 / b.decay);
  }

  /** A decay the constructor can draw keeps a burst alive for 34 to 100 updates. */
  lemma LifetimeBounds(d: real)
    requires MinDecay <= d < MaxDecay
    ensures 34 <= Ceil(1.0 / d) <= 100
  {
    assert (1.0 / d) * d == 1.0;
  }

  /** The bursts whose life is still positive, in their original order. */
  function Survivors(s: seq<BurstState>): (t: seq<BurstState>)
    ensures |t| <= |s|
  {
    if s == [] then []
    else if s[0].life > 0.0 then [s[0]] + Survivors(s[1..])
    else Survivors(s[1..])
  }

  /** The survivors are exactly the live bursts of the collection. */
  lemma {:induction false} SurvivorsMembers(s: seq<BurstState>)
    ensures forall b {:trigger b in Survivors(s)} {:trigger b in s} :: b in Survivors(s) <==> b in s && b.life > 0.0
  {
    if s != [] {
      SurvivorsMembers(s[1..]);
      assert s == [s[0]] + s[1..];
    }
  }

  /** No burst in the collection gains life on an update. */
  predicate DecaysNonNegative(s: seq<BurstState>) {
    forall i :: 0 <= i < |s| ==> 0.0 <= s[i].decay
  }

  /** Filtering keeps non-negative decays non-negative. */
  lemma {:induction false} SurvivorsKeepDecays(s: seq<BurstState>)
    requires DecaysNonNegative(s)
    ensures DecaysNonNegative(Survivors(s))
  {
    if s != [] {
      assert DecaysNonNegative(s[1..]) by {
        assert forall i :: 0 <= i < |s[1..]| ==> s[1..][i] == s[i + 1];
      }
      SurvivorsKeepDecays(s[1..]);
    }
  }

  /** Updating keeps every decay as it was. */
  lemma StepAllKeepsDecays(s: seq<BurstState>)
    requires DecaysNonNegative(s)
    ensures DecaysNonNegative(StepAll(s))
  {
    var t := StepAll(s);
    forall i | 0 <= i < |t|
      ensures 0.0 <= t[i].decay
    {
      StepEffect(s[i]);
    }
  }

  /** Every burst updated once. */
  function StepAll(s: seq<BurstState>): (t: seq<BurstState>)
    ensures |t| == |s|
    ensures forall i {:trigger t[i]} :: 0 <= i < |s| ==> t[i] == BurstStep(s[i])
  {
    if s == [] then [] else [BurstStep(s[0])] + StepAll(s[1..])
  }

  /** The burst half of a frame: update every burst, drop those whose life is used up. */
  function TickBursts(s: seq<BurstState>): seq<BurstState>
  {
    Survivors(StepAll(s))
  }

  /** The burst collection after n frames with no clicks in between. */
  function TickBurstsN(s: seq<BurstState>, n: nat): seq<BurstState>
    decreases n
  {
    if n == 0 then s else TickBurstsN(TickBursts(s), n - 1)
  }

  /** Every burst updated n times, none removed. */
  function RunAll(s: seq<BurstState>, n: nat): (t: seq<BurstState>)
    ensures |t| == |s|
    ensures forall i {:trigger t[i]} :: 0 <= i < |s| ==> t[i] == BurstRun(s[i], n)
  {
    if s == [] then [] else [BurstRun(s[0], n)] + RunAll(s[1..], n)
  }

  /** Filtering distributes over concatenation. */
  lemma {:induction false} SurvivorsAppend(s: seq<BurstState>, t: seq<BurstState>)
    ensures Survivors(s + t) == Survivors(s) + Survivors(t)
  {
    if s == [] {
      assert s + t == t;
    } else {
      assert (s + t)[1..] == s[1..] + t;
      SurvivorsAppend(s[1..], t);
    }
  }

  /** A collection with no live burst filters to nothing; one with only live bursts is kept whole. */
  lemma {:induction false} SurvivorsExtremes(s: seq<BurstState>)
    ensures (forall i :: 0 <= i < |s| ==> s[i].life <= 0.0) ==> Survivors(s) == []
    ensures (forall i :: 0 <= i < |s| ==> s[i].life > 0.0) ==> Survivors(s) == s
  {
    if s != [] {
      SurvivorsExtremes(s[1..]);
      assert forall i :: 0 <= i < |s[1..]| ==> s[1..][i] == s[i + 1];
      if forall i :: 0 <= i < |s| ==> s[i].life > 0.0 {
        assert s == [s[0]] + s[1..];
      }
    }
  }

  /** A burst that survives update n was alive after every earlier update too (non-negative decay). */
  lemma {:induction false} RunLifeMonotone(b: BurstState, m: nat, n: nat)
    requires 0.0 <= b.decay && m <= n
    ensures BurstRun(b, n).life <= BurstRun(b, m).life
    ensures BurstRun(b, n).decay == b.decay
  {
    if m < n {
      RunLifeMonotone(b, m, n - 1);
    } else {
      if n > 0 { RunLifeMonotone(b, n - 1, n - 1); }
    }
  }

  /** Updating first and then running k times is running k + 1 times. */
  lemma {:induction false} RunAfterStep(b: BurstState, k: nat)
    ensures BurstRun(BurstStep(b), k) == BurstRun(b, k + 1)
  {
    if k > 0 {
      RunAfterStep(b, k - 1);
    }
  }

  /** Running every updated burst k times is running every burst k + 1 times. */
  lemma {:induction false} RunAllAfterStepAll(s: seq<BurstState>, k: nat)
    ensures RunAll(StepAll(s), k) == RunAll(s, k + 1)
  {
    var t := StepAll(s);
    forall i | 0 <= i < |s|
      ensures RunAll(t, k)[i] == RunAll(s, k + 1)[i]
    {
      RunAfterStep(s[i], k);
    }
  }

  /**
   * Dropping expired bursts before running the rest k more times changes nothing after a
   * final filter, because with a non-negative decay an expired burst stays expired.
   */
  lemma {:induction false} SurvivorsBeforeRun(s: seq<BurstState>, k: nat)
    requires DecaysNonNegative(s)
    ensures Survivors(RunAll(Survivors(s), k)) == Survivors(RunAll(s, k))
  {
    if s != [] {
      assert forall i :: 0 <= i < |s[1..]| ==> s[1..][i] == s[i + 1];
      SurvivorsBeforeRun(s[1..], k);
      assert RunAll(s, k) == [BurstRun(s[0], k)] + RunAll(s[1..], k);
      if s[0].life > 0.0 {
        assert Survivors(s) == [s[0]] + Survivors(s[1..]);
        assert RunAll(Survivors(s), k) == [BurstRun(s[0], k)] + RunAll(Survivors(s[1..]), k);
      } else {
        RunLifeMonotone(s[0], 0, k);
      }
    }
  }

  /**
   * Removing expired bursts every frame leaves the same collection as running every burst
   * n times and filtering once at the end: a removed burst would never have come back.
   */
  lemma {:induction false} TickBurstsNAsRun(s: seq<BurstState>, n: nat)
    requires 1 <= n
    requires DecaysNonNegative(s)
    ensures TickBurstsN(s, n) == Survivors(RunAll(s, n))
    decreases n
  {
    var stepped := StepAll(s);
    if n == 1 {
      RunAllAfterStepAll(s, 0);
      assert RunAll(stepped, 0) == stepped;
    } else {
      StepAllKeepsDecays(s);
      SurvivorsKeepDecays(stepped);
      TickBurstsNAsRun(TickBursts(s), n - 1);
      TickThenRun(s, n);
    }
  }

  /**
   * The inductive step: when the claim holds for the frames after the first, it holds
   * from the first frame on.
   */
  lemma TickThenRun(s: seq<BurstState>, n: nat)
    requires 2 <= n
    requires DecaysNonNegative(s)
    requires TickBurstsN(TickBursts(s), n - 1) == Survivors(RunAll(TickBursts(s), n - 1))
    ensures TickBurstsN(s, n) == Survivors(RunAll(s, n))
  {
    var stepped := StepAll(s);
    StepAllKeepsDecays(s);
    RunAllAfterStepAll(s, n - 1);
    SurvivorsBeforeRun(stepped, n - 1);
  }

  /**
   * A batch of fresh bursts sharing one decay d > 0 is still whole after n frames when
   * n < ⌈1/d⌉ and empty from frame ⌈1/d⌉ on.
   */
  lemma UniformBatchLifetime(s: seq<BurstState>, d: real, n: nat)
    requires 1 <= n && 0.0 < d
    requires forall i :: 0 <= i < |s| ==> s[i].life == FullLife && s[i].decay == d
    ensures n < Ceil(1.0 / d) ==> TickBurstsN(s, n) == RunAll(s, n)
    ensures n >= Ceil(1.0 / d) ==> TickBurstsN(s, n) == []
  {
    TickBurstsNAsRun(s, n);
    var r := RunAll(s, n);
    forall i | 0 <= i < |s|
      ensures r[i].life > 0.0 <==> n < Ceil(1.0 / d)
    {
      AliveUntilCeil(s[i], n);
    }
    SurvivorsExtremes(r);
  }

  /** A uniform batch whose lifetime is k + 1 frames is whole after frame k and gone after frame k + 1. */
  lemma LastFrame(s: seq<BurstState>, d: real, k: nat)
    requires 1 <= k && 0.0 < d && Ceil(1.0 / d) == k + 1
    requires forall i :: 0 <= i < |s| ==> s[i].life == FullLife && s[i].decay == d
    ensures |TickBurstsN(s, k)| == |s|
    ensures TickBurstsN(s, k + 1) == []
  {
    UniformBatchLifetime(s, d, k);
    UniformBatchLifetime(s, d, k + 1);
  }

  /** With decay 0.05 a fresh batch survives frame 19 and is gone on frame 20. */
  lemma Decay005Batch(s: seq<BurstState>)
    requires forall i :: 0 <= i < |s| ==> s[i].life == FullLife && s[i].decay == 0.05
    ensures |TickBurstsN(s, 19)| == |s|
    ensures TickBurstsN(s, 20) == []
  {
    assert Ceil(1.0 / 0.05) == 20;
    LastFrame(s, 0.05, 19);
  }

  /** A burst particle: position, vertical velocity and life change every frame. */
  class BurstParticle {
    var x: real
    var y: real
    const size: real
    const angle: real
    const speed: real
    const vx: real
    var vy: real
    var life: real
    const decay: real
    const color: Color
    const text: string

    function Value(): BurstState
      reads this
    {
      BurstState(x, y, size, angle, speed, vx, vy, life, decay, color, text)
    }

    constructor (cx: real, cy: real, r: BurstDraws)
      requires ValidBurstDraws(r)
      ensures Value() == SpawnBurst(cx, cy, r)
    {
      x := cx;
      y := cy;
      size := r.rSize * 15.0 + 5.0;
      var a := r.rAngle * MathPi * 2.0;
      angle := a;
      var v := r.rSpeed * 3.0 + 2.0;
      speed := v;
      vx := r.cos * v;
      vy := r.sin * v;
      life := FullLife;
      decay := r.rDecay * 0.02 + 0.01;
      color := HeartColor(1.0);
      text := Heart;
    }

    /** Move, fade, then fall faster. */
    method Update()
      modifies this
      ensures Value() == BurstStep(old(Value()))
    {
      x := x + vx;
      y := y + vy;
      life := life - decay;
      vy := vy + Gravity;
    }
  }

  /** Snapshots of a sequence of burst particles. */
  ghost function Values(bs: seq<BurstParticle>): (v: seq<BurstState>)
    reads bs
    ensures |v| == |bs|
    ensures forall i {:trigger v[i]} :: 0 <= i < |bs| ==> v[i] == bs[i].Value()
  {
    if bs == [] then [] else Values(bs[..|bs| - 1]) + [bs[|bs| - 1].Value()]
  }

  /** Snapshots of an extended sequence extend the snapshots. */
  lemma ValuesAppend(bs: seq<BurstParticle>, b: BurstParticle)
    ensures Values(bs + [b]) == Values(bs) + [b.Value()]
  {
    assert (bs + [b])[..|bs|] == bs;
  }

  /** Snapshots of a concatenation are the concatenated snapshots. */
  lemma ValuesConcat(s: seq<BurstParticle>, t: seq<BurstParticle>)
    ensures Values(s + t) == Values(s) + Values(t)
  {
    var u := Values(s + t);
    var w := Values(s) + Values(t);
    forall i | 0 <= i < |u|
      ensures u[i] == w[i]
    {
      if i < |s| {
        assert (s + t)[i] == s[i];
      } else {
        assert (s + t)[i] == t[i - |s|];
      }
    }
  }

  /** The burst particles whose life is still positive, in their original order. */
  ghost function Alive(bs: seq<BurstParticle>): seq<BurstParticle>
    reads bs
  {
    if bs == [] then []
    else
      var last := bs[|bs| - 1];
      Alive(bs[..|bs| - 1]) + (if last.life > 0.0 then [last] else [])
  }

  /** Keeping the live objects and keeping the live snapshots agree. */
  lemma {:induction false} ValuesOfAlive(bs: seq<BurstParticle>)
    ensures Values(Alive(bs)) == Survivors(Values(bs))
  {
    if bs != [] {
      var init := bs[..|bs| - 1];
      var last := bs[|bs| - 1];
      var tail := if last.life > 0.0 then [last] else [];
      ValuesOfAlive(init);
      ValuesConcat(Alive(init), tail);
      SurvivorsAppend(Values(init), [last.Value()]);
      assert Survivors([last.Value()]) == Values(tail);
    }
  }

  /** Each object of Alive(bs) comes from bs and is alive. */
  lemma {:induction false} AliveIsSubsequence(bs: seq<BurstParticle>)
    ensures |Alive(bs)| <= |bs|
    ensures forall p {:trigger p in Alive(bs)} :: p in Alive(bs) ==> p in bs && p.life > 0.0
  {
    if bs != [] {
      var init := bs[..|bs| - 1];
      AliveIsSubsequence(init);
      assert forall p {:trigger p in init} :: p in init ==> p in bs;
    }
  }

  /**
   * The entries at positions i and j differ. Named only so that the quantifier in
   * `Distinct` has a term to trigger on.
   */
  predicate Apart<T(==)>(s: seq<T>, i: int, j: int)
    requires 0 <= i < |s| && 0 <= j < |s|
  {
    s[i] != s[j]
  }

  /** No object appears twice. */
  predicate Distinct<T(==)>(s: seq<T>) {
    forall i, j :: 0 <= i < j < |s| ==> Apart(s, i, j)
  }

  /** In a distinct sequence, the entry at i differs from every other entry. */
  lemma DistinctAt<T>(s: seq<T>, i: int)
    requires Distinct(s) && 0 <= i < |s|
    ensures forall j :: 0 <= j < |s| && j != i ==> s[j] != s[i]
  {
    forall j | 0 <= j < |s| && j != i
      ensures s[j] != s[i]
    {
      if j < i {
        assert Apart(s, j, i);
      } else {
        assert Apart(s, i, j);
      }
    }
  }


  /** Appending an object not yet present keeps a sequence free of repeats. */
  lemma DistinctAppend<T>(s: seq<T>, x: T)
    requires Distinct(s) && x !in s
    ensures Distinct(s + [x])
  {
    forall i, j | 0 <= i < j < |s + [x]|
      ensures Apart(s + [x], i, j)
    {
      if j < |s| {
        assert Apart(s, i, j);
      } else {
        assert (s + [x])[i] == s[i];
      }
    }
  }

  /** A filter of distinct objects is distinct. */
  lemma {:induction false} AliveDistinct(bs: seq<BurstParticle>)
    requires Distinct(bs)
    ensures Distinct(Alive(bs))
  {
    if bs != [] {
      var init := bs[..|bs| - 1];
      var last := bs[|bs| - 1];
      assert Distinct(init) by {
        forall i, j | 0 <= i < j < |init|
          ensures Apart(init, i, j)
        {
          assert Apart(bs, i, j);
        }
      }
      AliveDistinct(init);
      AliveIsSubsequence(init);
      if last.life > 0.0 {
        DistinctAt(bs, |bs| - 1);
        assert last !in init;
        assert last !in Alive(init);
        DistinctAppend(Alive(init), last);
        assert Alive(bs) == Alive(init) + [last];
      } else {
        assert Alive(bs) == Alive(init);
      }
    }
  }

  /** Filtering distributes over concatenation. */
  lemma {:induction false} AliveAppend(s: seq<BurstParticle>, t: seq<BurstParticle>)
    ensures Alive(s + t) == Alive(s) + Alive(t)
  {
    if t == [] {
      assert s + t == s;
    } else {
      var init := t[..|t| - 1];
      assert (s + t)[..|s + t| - 1] == s + init;
      assert (s + t)[|s + t| - 1] == t[|t| - 1];
      AliveAppend(s, init);
    }
  }
}
