/**
 * The particle field as a whole: the canvas size, the pointer record, the 120 ambient
 * particles and the growing and shrinking collection of burst particles, with the
 * event handlers and the frame tick that change them.
 */
module Field {
  import opened Glyphs
  import opened Ambient
  import opened Burst

  /** The number of ambient particles created at startup. */
  const AmbientCount: nat := 120

  /** The number of bursts one click spawns. */
  const BurstsPerClick: nat := 12

  /** Snapshots of a sequence of ambient particles: the ambient counterpart of Burst.Values. */
  ghost function AmbientValues(ps: seq<Particle>): (v: seq<AmbientState>)
    reads ps
    ensures |v| == |ps|
    ensures forall i {:trigger v[i]} :: 0 <= i < |ps| ==> v[i] == ps[i].Value()
  {
    if ps == [] then [] else AmbientValues(ps[..|ps| - 1]) + [ps[|ps| - 1].Value()]
  }

  /** Every ambient snapshot after one update, in order. */
  function StepAmbients(s: seq<AmbientState>, mouse: Pointer, width: real, height: real, sqrt: real -> real)
    : (t: seq<AmbientState>)
    requires forall k :: 0 <= k < |s| ==> OffPointer(s[k].x, s[k].y, mouse, sqrt)
    ensures |t| == |s|
    ensures forall k {:trigger t[k]} :: 0 <= k < |t| ==> t[k] == AmbientStep(s[k], mouse, width, height, sqrt)
  {
    if s == [] then []
    else StepAmbients(s[..|s| - 1], mouse, width, height, sqrt) + [AmbientStep(s[|s| - 1], mouse, width, height, sqrt)]
  }

  /** After an update every ambient particle is inside the canvas horizontally and not below it. */
  lemma StepAmbientsInBounds(s: seq<AmbientState>, mouse: Pointer, width: real, height: real, sqrt: real -> real)
    requires forall k :: 0 <= k < |s| ==> OffPointer(s[k].x, s[k].y, mouse, sqrt)
    requires 0.0 <= width
    ensures var t := StepAmbients(s, mouse, width, height, sqrt);
            forall k :: 0 <= k < |t| ==> 0.0 <= t[k].x <= width && (t[k].y <= height || height < TopReentry)
  {
  }

  /** The bursts one click spawns at (cx, cy), one per draw record, in order. */
  function SpawnBatch(cx: real, cy: real, draws: seq<BurstDraws>)
    : (t: seq<BurstState>)
    requires forall k :: 0 <= k < |draws| ==> ValidBurstDraws(draws[k])
    ensures |t| == |draws|
    ensures forall k {:trigger t[k]} :: 0 <= k < |t| ==> t[k] == SpawnBurst(cx, cy, draws[k])
  {
    if draws == [] then []
    else SpawnBatch(cx, cy, draws[..|draws| - 1]) + [SpawnBurst(cx, cy, draws[|draws| - 1])]
  }

  /** A burst as it can exist between frames: a positive life of at most 1 and a drawn decay. */
  predicate LiveBurst(b: BurstState) {
    0.0 < b.life <= FullLife && MinDecay <= b.decay < MaxDecay
  }

  /** Every burst object holds a live snapshot. */
  ghost predicate LiveObjects(bs: seq<BurstParticle>)
    reads bs
  {
    forall i :: 0 <= i < |bs| ==> LiveBurst(bs[i].Value())
  }

  /** One tick keeps every remaining burst live. */
  lemma {:induction false} TickKeepsLive(s: seq<BurstState>)
    requires forall i :: 0 <= i < |s| ==> LiveBurst(s[i])
    ensures forall i :: 0 <= i < |TickBursts(s)| ==> LiveBurst(TickBursts(s)[i])
  {
    var stepped := StepAll(s);
    SurvivorsMembers(stepped);
    forall i | 0 <= i < |TickBursts(s)|
      ensures LiveBurst(TickBursts(s)[i])
    {
      var b := TickBursts(s)[i];
      assert b in Survivors(stepped);
      var j :| 0 <= j < |stepped| && stepped[j] == b;
      assert b == BurstStep(s[j]);
    }
  }

  /** A freshly spawned burst is live. */
  lemma SpawnedIsLive(cx: real, cy: real, r: BurstDraws)
    requires ValidBurstDraws(r)
    ensures LiveBurst(SpawnBurst(cx, cy, r))
  {
    SpawnBurstRanges(cx, cy, r);
  }

  /** Filtering a sequence that starts with p keeps p exactly when it is alive. */
  lemma AliveCons(p: BurstParticle, rest: seq<BurstParticle>)
    ensures Alive([p] + rest) == (if p.life > 0.0 then [p] else []) + Alive(rest)
  {
    AliveAppend([p], rest);
    AliveSingle(p);
  }

  /** A single object is kept exactly when it is alive. */
  lemma AliveSingle(p: BurstParticle)
    ensures Alive([p]) == (if p.life > 0.0 then [p] else [])
  {
    assert [p][..0] == [];
  }

  /**
   * Once every burst object has been updated once, keeping the live objects keeps
   * exactly the tick's survivors.
   */
  lemma AliveAfterStep(all: seq<BurstParticle>, v0: seq<BurstState>)
    requires |v0| == |all|
    requires forall j :: 0 <= j < |all| ==> all[j].Value() == BurstStep(v0[j])
    ensures Values(Alive(all)) == TickBursts(v0)
  {
    ValuesOfAlive(all);
    assert Values(all) == StepAll(v0);
  }

  /** The objects a tick keeps are live again: positive life, at most full, drawn decay. */
  lemma AliveStaysLive(all: seq<BurstParticle>, v0: seq<BurstState>)
    requires |v0| == |all|
    requires forall j :: 0 <= j < |all| ==> all[j].Value() == BurstStep(v0[j])
    requires forall j :: 0 <= j < |v0| ==> LiveBurst(v0[j])
    ensures LiveObjects(Alive(all))
  {
    var kept := Alive(all);
    AliveIsSubsequence(all);
    forall i | 0 <= i < |kept|
      ensures LiveBurst(kept[i].Value())
    {
      var p := kept[i];
      assert p in kept;
      var j :| 0 <= j < |all| && all[j] == p;
      assert p.Value() == BurstStep(v0[j]);
    }
  }

  /** The objects a filter keeps come from the filtered list, so they stay inside any set holding it. */
  lemma AliveWithin(all: seq<BurstParticle>, r: set<object>)
    requires forall k :: 0 <= k < |all| ==> all[k] in r
    ensures forall b :: b in Alive(all) ==> b in all
    ensures forall k :: 0 <= k < |Alive(all)| ==> Alive(all)[k] in r
  {
    AliveIsSubsequence(all);
    forall k | 0 <= k < |Alive(all)|
      ensures Alive(all)[k] in r
    {
      assert Alive(all)[k] in Alive(all);
    }
  }

  /** The snapshots of live objects are live bursts. */
  lemma LiveValues(bs: seq<BurstParticle>)
    requires LiveObjects(bs)
    ensures forall j :: 0 <= j < |bs| ==> LiveBurst(Values(bs)[j])
  {
  }

  /** How the walked collection splits around index i. */
  lemma SpliceShape(all: seq<BurstParticle>, i: int, kept: seq<BurstParticle>)
    requires 0 <= i < |all|
    ensures (all[..i + 1] + kept)[i] == all[i]
    ensures (all[..i + 1] + kept)[..i] == all[..i]
    ensures (all[..i + 1] + kept)[i + 1..] == kept
    ensures all[..i + 1] + kept == all[..i] + [all[i]] + kept
    ensures all[..i] + ([all[i]] + kept) == all[..i + 1] + kept
  {
    assert all[..i + 1] == all[..i] + [all[i]];
  }

  /** The part already walked holds only entries after i, so not the one at i. */
  lemma WalkedAvoids(all: seq<BurstParticle>, i: int, walked: seq<BurstParticle>)
    requires 0 <= i < |all|
    requires all[..i + 1] + walked == all
    requires forall j :: 0 <= j < |all| && j != i ==> all[j] != all[i]
    ensures all[i] !in walked
  {
    forall k | 0 <= k < |walked|
      ensures walked[k] != all[i]
    {
      assert walked[k] == (all[..i + 1] + walked)[i + 1 + k];
    }
  }

  /**
   * The splice of one walk step: with the walked part filtered to `kept`, dropping index i
   * when its life is used up leaves the prefix before i followed by the filter of the
   * walked part extended by the entry at i.
   */
  lemma SpliceStep(all: seq<BurstParticle>, i: int, kept: seq<BurstParticle>,
                   before: seq<BurstParticle>, after: seq<BurstParticle>)
    requires 0 <= i < |all|
    requires before == all[..i + 1] + kept
    requires after == if before[i].life <= 0.0 then before[..i] + before[i + 1..] else before
    ensures after == all[..i] + ((if all[i].life > 0.0 then [all[i]] else []) + kept)
  {
    SpliceShape(all, i, kept);
    if all[i].life <= 0.0 {
      assert [] + kept == kept;
    } else {
      AppendAssoc(all[..i], [all[i]], kept);
    }
  }

  /**
   * The filter of the walked part grows by the entry at i exactly when that entry is alive,
   * and the collection after the splice is the prefix before i followed by that filter.
   */
  lemma KeptStep(all: seq<BurstParticle>, i: int, walked: seq<BurstParticle>, kept: seq<BurstParticle>,
                 before: seq<BurstParticle>, after: seq<BurstParticle>)
    returns (kept': seq<BurstParticle>)
    requires 0 <= i < |all|
    requires kept == Alive(walked)
    requires before == all[..i + 1] + kept
    requires after == if before[i].life <= 0.0 then before[..i] + before[i + 1..] else before
    ensures kept' == Alive([all[i]] + walked)
    ensures after == all[..i] + kept'
  {
    AliveCons(all[i], walked);
    SpliceStep(all, i, kept, before, after);
    kept' := (if all[i].life > 0.0 then [all[i]] else []) + kept;
  }

  /** A prefix one longer is the prefix extended by the next entry. */
  lemma PrefixStep<T>(s: seq<T>, k: int)
    requires 0 <= k < |s|
    ensures s[..k + 1] == s[..k] + [s[k]]
  {
  }

  /** Concatenation is associative. */
  lemma AppendAssoc<T>(a: seq<T>, b: seq<T>, c: seq<T>)
    ensures a + b + c == a + (b + c)
  {
  }

  /** The canvas renderer: the shared globals of the particle field and their handlers. */
  class Renderer {
    var width: real
    var height: real
    var mouse: Pointer
    const particles: seq<Particle>
    var bursts: seq<BurstParticle>
    /** Every particle object the renderer has created: the objects its methods may change. */
    ghost var Repr: set<object>

    /**
     * The renderer's invariant: every particle it holds is in its footprint, there are 120
     * distinct ambient particles, the bursts are distinct and live, and the canvas size is
     * non-negative.
     */
    ghost predicate Valid()
      reads this, particles, bursts
    {
      && (forall k :: 0 <= k < |particles| ==> particles[k] in Repr)
      && (forall k :: 0 <= k < |bursts| ==> bursts[k] in Repr)
      && |particles| == AmbientCount
      && Distinct(particles)
      && Distinct(bursts)
      && 0.0 <= width && 0.0 <= height
      && LiveObjects(bursts)
    }

    /** Startup: size the canvas, then create the ambient particles, one per draw record. */
    constructor (w: nat, h: nat, draws: seq<AmbientDraws>)
      requires |draws| == AmbientCount
      requires forall k :: 0 <= k < |draws| ==> ValidAmbientDraws(draws[k])
      ensures Valid()
      ensures width == w as real && height == h as real
      ensures mouse == Unset
      ensures bursts == []
      ensures forall k :: 0 <= k < |particles| ==> particles[k].Value() == SpawnAmbient(w as real, h as real, draws[k])
      ensures fresh(particles) && fresh(Repr)
    {
      width := w as real;
      height := h as real;
      mouse := Unset;
      var ps: seq<Particle> := [];
      for k := 0 to |draws|
        invariant |ps| == k
        invariant Distinct(ps)
        invariant forall j :: 0 <= j < k ==> fresh(ps[j])
        invariant forall j :: 0 <= j < k ==> ps[j].Value() == SpawnAmbient(w as real, h as real, draws[j])
      {
        var p := new Particle(w as real, h as real, draws[k]);
        DistinctAppend(ps, p);
        ps := ps + [p];
      }
      particles := ps;
      bursts := [];
      Repr := set k | 0 <= k < |ps| :: ps[k];
    }

    /** The pointer moved to (x, y). */
    method MouseMove(x: real, y: real)
      requires Valid()
      modifies this
      ensures Valid()
      ensures mouse == At(x, y)
      ensures width == old(width) && height == old(height) && bursts == old(bursts)
      ensures Repr == old(Repr)
    {
      mouse := At(x, y);
    }

    /** The window was resized: only the canvas size changes, no particle moves. */
    method Resize(w: nat, h: nat)
      requires Valid()
      modifies this
      ensures Valid()
      ensures width == w as real && height == h as real
      ensures mouse == old(mouse) && bursts == old(bursts)
      ensures Repr == old(Repr)
    {
      width := w as real;
      height := h as real;
    }

    /** A click at (cx, cy): twelve new bursts are appended, nothing else changes. */
    method Click(cx: real, cy: real, draws: seq<BurstDraws>)
      requires Valid()
      requires |draws| == BurstsPerClick
      requires forall k :: 0 <= k < |draws| ==> ValidBurstDraws(draws[k])
      modifies this
      ensures Valid()
      ensures |bursts| == |old(bursts)| + BurstsPerClick
      ensures bursts[..|old(bursts)|] == old(bursts)
      ensures forall k :: |old(bursts)| <= k < |bursts| ==> fresh(bursts[k])
      ensures fresh(Repr - old(Repr))
      ensures Values(bursts) == old(Values(bursts)) + SpawnBatch(cx, cy, draws)
      ensures width == old(width) && height == old(height) && mouse == old(mouse)
    {
      ghost var before := bursts;
      ghost var added: seq<BurstParticle> := [];
      ghost var batch := SpawnBatch(cx, cy, draws);
      ghost var v0 := Values(bursts);
      for k := 0 to BurstsPerClick
        invariant Appending(k, before, added, v0, batch)
        invariant forall j :: |before| <= j < |bursts| ==> fresh(bursts[j])
        invariant fresh(Repr - old(Repr))
        invariant width == old(width) && height == old(height) && mouse == old(mouse)
      {
        added := ClickStep(cx, cy, draws[k], k, before, added, v0, batch);
      }
      assert batch[..BurstsPerClick] == batch;
      assert (before + added)[..|before|] == before;
    }

    /**
     * The state of the click loop after k pushes: the renderer is valid, and the bursts
     * are the old ones followed by k new objects whose snapshots are the first k of the batch.
     */
    ghost predicate Appending(k: int, before: seq<BurstParticle>, added: seq<BurstParticle>,
                              v0: seq<BurstState>, batch: seq<BurstState>)
      reads this, particles, bursts
    {
      && Valid()
      && 0 <= k <= |batch|
      && |added| == k
      && bursts == before + added
      && Values(bursts) == v0 + batch[..k]
    }

    /** One iteration of the click loop: push the burst for draw record k. */
    method ClickStep(cx: real, cy: real, r: BurstDraws, k: int, ghost before: seq<BurstParticle>,
                     ghost added: seq<BurstParticle>, ghost v0: seq<BurstState>, ghost batch: seq<BurstState>)
      returns (ghost added': seq<BurstParticle>)
      requires ValidBurstDraws(r)
      requires Appending(k, before, added, v0, batch)
      requires k < |batch| && batch[k] == SpawnBurst(cx, cy, r)
      modifies this
      ensures Appending(k + 1, before, added', v0, batch)
      ensures bursts == old(bursts) + [bursts[|bursts| - 1]] && fresh(bursts[|bursts| - 1])
      ensures Repr == old(Repr) + {bursts[|bursts| - 1]}
      ensures width == old(width) && height == old(height) && mouse == old(mouse)
    {
      var b := PushBurst(cx, cy, r);
      PrefixStep(batch, k);
      AppendAssoc(v0, batch[..k], [batch[k]]);
      AppendAssoc(before, added, [b]);
      added' := added + [b];
    }

    /** One new burst at (cx, cy), appended to the bursts. */
    method PushBurst(cx: real, cy: real, r: BurstDraws) returns (b: BurstParticle)
      requires Valid()
      requires ValidBurstDraws(r)
      modifies this
      ensures Valid()
      ensures fresh(b)
      ensures Repr == old(Repr) + {b}
      ensures bursts == old(bursts) + [b]
      ensures Values(bursts) == old(Values(bursts)) + [SpawnBurst(cx, cy, r)]
      ensures width == old(width) && height == old(height) && mouse == old(mouse)
    {
      b := new BurstParticle(cx, cy, r);
      SpawnedIsLive(cx, cy, r);
      DistinctAppend(bursts, b);
      ValuesAppend(bursts, b);
      bursts, Repr := bursts + [b], Repr + {b};
    }

    /**
     * One frame: every ambient particle updates once, in order; then the bursts are walked
     * from the back, each updated once and spliced out when its life is used up.
     */
    method Tick(sqrt: real -> real)
      requires Valid()
      requires forall k :: 0 <= k < |particles| ==> OffPointer(particles[k].x, particles[k].y, mouse, sqrt)
      modifies this, Repr
      ensures width == old(width) && height == old(height) && mouse == old(mouse)
      ensures Repr == old(Repr)
      ensures Valid()
      ensures AmbientValues(particles) == StepAmbients(old(AmbientValues(particles)), mouse, width, height, sqrt)
      ensures bursts == Alive(old(bursts))
      ensures forall b :: b in bursts ==> b in old(bursts)
      ensures Values(bursts) == TickBursts(old(Values(bursts)))
    {
      UpdateParticles(sqrt);
      UpdateBursts();
    }

    /** The first half of a frame: every ambient particle updates once, in order. */
    method UpdateParticles(sqrt: real -> real)
      requires Distinct(particles)
      requires forall k :: 0 <= k < |particles| ==> OffPointer(particles[k].x, particles[k].y, mouse, sqrt)
      modifies particles
      ensures AmbientValues(particles) == StepAmbients(old(AmbientValues(particles)), mouse, width, height, sqrt)
      ensures unchanged(bursts)
    {
      ghost var v0 := AmbientValues(particles);
      for k := 0 to |particles|
        invariant forall j {:trigger particles[j].Value()} :: 0 <= j < k ==>
                    particles[j].Value() == AmbientStep(v0[j], mouse, width, height, sqrt)
        invariant forall j {:trigger particles[j].Value()} :: k <= j < |particles| ==> particles[j].Value() == v0[j]
      {
        DistinctAt(particles, k);
        assert particles[k].Value() == v0[k];
        particles[k].Update(mouse, width, height, sqrt);
      }
      assert AmbientValues(particles) == StepAmbients(v0, mouse, width, height, sqrt);
    }

    /**
     * The second half of a frame: each burst is updated once and the expired ones are
     * removed, which leaves exactly the tick's survivors, still distinct and live.
     */
    method UpdateBursts()
      requires Distinct(bursts)
      requires LiveObjects(bursts)
      requires forall k :: 0 <= k < |bursts| ==> bursts[k] in Repr
      modifies bursts, this
      ensures bursts == Alive(old(bursts))
      ensures forall b :: b in bursts ==> b in old(bursts)
      ensures Values(bursts) == TickBursts(old(Values(bursts)))
      ensures Distinct(bursts)
      ensures forall k :: 0 <= k < |bursts| ==> bursts[k] in Repr
      ensures LiveObjects(bursts)
      ensures width == old(width) && height == old(height) && mouse == old(mouse) && Repr == old(Repr)
      ensures unchanged(particles)
    {
      ghost var all := bursts;
      ghost var v0 := Values(all);
      LiveValues(all);
      BurstLoop(v0);
      AliveAfterStep(all, v0);
      AliveStaysLive(all, v0);
      AliveDistinct(all);
      AliveWithin(all, Repr);
    }

    /**
     * The reverse walk over the bursts with in-place removal: every burst object is updated
     * once and exactly the ones whose life is still positive stay, in their order.
     */
    method BurstLoop(ghost v0: seq<BurstState>)
      requires Distinct(bursts)
      requires |v0| == |bursts| && forall j {:trigger bursts[j].Value()} :: 0 <= j < |v0| ==> bursts[j].Value() == v0[j]
      modifies bursts, this
      ensures bursts == Alive(old(bursts))
      ensures forall j {:trigger old(bursts)[j].Value()} :: 0 <= j < |v0| ==> old(bursts)[j].Value() == BurstStep(v0[j])
      ensures width == old(width) && height == old(height) && mouse == old(mouse) && Repr == old(Repr)
    {
      ghost var all := bursts;
      ghost var walked: seq<BurstParticle> := [];
      ghost var kept: seq<BurstParticle> := [];
      var i := |bursts| - 1;
      assert all[..i + 1] == all;
      while i >= 0
        invariant Walk(i, all, v0, walked, kept)
        invariant width == old(width) && height == old(height) && mouse == old(mouse) && Repr == old(Repr)
      {
        kept := WalkStep(i, all, v0, walked, kept);
        walked := [all[i]] + walked;
        i := i - 1;
      }
      assert all[..0] == [];
      assert all[..0] + walked == walked;
      assert all[..0] + kept == kept;
    }

    /**
     * The state of the reverse walk before index i is visited: the entries after i have
     * been walked and updated, `kept` holds the live ones among them, and the list is the
     * unvisited prefix followed by `kept`.
     */
    ghost predicate Walk(i: int, all: seq<BurstParticle>, v0: seq<BurstState>,
                         walked: seq<BurstParticle>, kept: seq<BurstParticle>)
      reads this, all, walked
    {
      && -1 <= i < |all| == |v0|
      && Distinct(all)
      && all[..i + 1] + walked == all
      && kept == Alive(walked)
      && bursts == all[..i + 1] + kept
      && (forall j {:trigger all[j].Value()} :: 0 <= j <= i ==> all[j].Value() == v0[j])
      && (forall j {:trigger all[j].Value()} :: i < j < |all| ==> all[j].Value() == BurstStep(v0[j]))
    }

    /**
     * One step of the reverse walk, with the ghost bookkeeping: the entries after i have
     * been walked already, and `kept` holds the live ones among them.
     */
    method WalkStep(i: int, ghost all: seq<BurstParticle>, ghost v0: seq<BurstState>,
                    ghost walked: seq<BurstParticle>, ghost kept: seq<BurstParticle>)
      returns (ghost kept': seq<BurstParticle>)
      requires 0 <= i && Walk(i, all, v0, walked, kept)
      modifies this, all[i]
      ensures Walk(i - 1, all, v0, [all[i]] + walked, kept')
      ensures width == old(width) && height == old(height) && mouse == old(mouse) && Repr == old(Repr)
    {
      ghost var before := bursts;
      DistinctAt(all, i);
      SpliceShape(all, i, kept);
      SpliceShape(all, i, walked);
      WalkedAvoids(all, i, walked);
      VisitBurst(i);
      assert Alive(walked) == kept;
      kept' := KeptStep(all, i, walked, kept, before, bursts);
    }

    /**
     * One step of the reverse walk: update the burst at index i, then splice it out when
     * its life is used up.
     */
    method VisitBurst(i: int)
      requires 0 <= i < |bursts|
      modifies this, bursts[i]
      ensures old(bursts)[i].Value() == BurstStep(old(bursts[i].Value()))
      ensures bursts == if old(bursts)[i].life <= 0.0 then old(bursts)[..i] + old(bursts)[i + 1..] else old(bursts)
      ensures width == old(width) && height == old(height) && mouse == old(mouse) && Repr == old(Repr)
    {
      var p := bursts[i];
      p.Update();
      if p.life <= 0.0 {
        bursts := bursts[..i] + bursts[i + 1..];
      }
    }
  }
}
