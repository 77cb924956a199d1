/**
 * The particle bursts of the Heart Catcher game.
 *
 * Every successful tap releases a burst of eight particles at the centre of the consumed
 * object; each tick moves every particle by its velocity and shortens its life by one, and a
 * particle whose life reaches zero disappears.
 */
module Particles {

  /** Colours of the bursts of a heart and of a bomb. */
  const HeartColour: string := "#ff4757"
  const BombColour: string := "#2d3436"

  /** Number of particles in a burst and the life (in ticks) each one starts with. */
  const BurstSize: nat := 8
  const ParticleLife: int := 25

  datatype Particle = Particle(x: real, y: real, vx: real, vy: real, size: real, colour: string, life: int)

  /** The three `Math.random()` draws made for one particle of a burst. */
  datatype Draw = Draw(vx: real, vy: real, size: real)

  predicate ValidDraws(draws: seq<Draw>) {
    |draws| == BurstSize &&
    forall k :: 0 <= k < |draws| ==>
      0.0 <= draws[k].vx < 1.0 && 0.0 <= draws[k].vy < 1.0 && 0.0 <= draws[k].size < 1.0
  }

  /** Every particle is alive, with at most a full life. */
  predicate AllAlive(ps: seq<Particle>) {
    forall j :: 0 <= j < |ps| ==> 0 < ps[j].life <= ParticleLife
  }

  /** A fresh particle at (cx, cy) made from one draw. */
  function Spark(cx: real, cy: real, colour: string, d: Draw): Particle {
    Particle(cx, cy, (d.vx - 0.5) * 6.0, (d.vy - 0.5) * 6.0, d.size * 3.0 + 1.0, colour, ParticleLife)
  }

  /** The burst released at (cx, cy): eight particles, all starting at the centre with the
      full life, each with a velocity in [-3, 3) on both axes and a size in [1, 4). */
  function Burst(cx: real, cy: real, colour: string, draws: seq<Draw>): (ps: seq<Particle>)
    requires ValidDraws(draws)
    ensures |ps| == BurstSize
    ensures forall k :: 0 <= k < |ps| ==>
      ps[k].x == cx && ps[k].y == cy && ps[k].colour == colour && ps[k].life == ParticleLife
    ensures forall k :: 0 <= k < |ps| ==>
      -3.0 <= ps[k].vx < 3.0 && -3.0 <= ps[k].vy < 3.0 && 1.0 <= ps[k].size < 4.0
  {
    seq(BurstSize, k requires 0 <= k < BurstSize => Spark(cx, cy, colour, draws[k]))
  }

  /** One tick of one particle: it moves by its velocity and loses one unit of life. */
  function Tick(p: Particle): Particle {
    p.(x := p.x + p.vx, y := p.y + p.vy, life := p.life - 1)
  }

  /** The particles after one tick: each one moves and ages, and those whose life has run out
      are dropped. */
  function Age(ps: seq<Particle>): seq<Particle>
  {
    if ps == [] then []
    else
      var p := Tick(ps[0]);
      (if p.life <= 0 then [] else [p]) + Age(ps[1..])
  }

  /** One step of the tick's scan: the outcome for the particles from `i` on is the outcome
      for particle `i` followed by the outcome for the particles after it. */
  lemma AgeStep(ps: seq<Particle>, i: nat)
    requires i < |ps|
    ensures Age(ps[i..]) == (if Tick(ps[i]).life <= 0 then [] else [Tick(ps[i])]) + Age(ps[i + 1..])
  {
    assert ps[i..][1..] == ps[i + 1..];
  }

  /** The indices, from `i` on, of the particles that are still alive after one tick. */
  function AliveFrom(ps: seq<Particle>, i: nat): seq<nat>
    requires i <= |ps|
    decreases |ps| - i
  {
    if i == |ps| then []
    else (if ps[i].life - 1 <= 0 then [] else [i]) + AliveFrom(ps, i + 1)
  }

  /** The indices from `i` on are in range and increasing. */
  lemma {:induction false} AliveFromOrdered(ps: seq<Particle>, i: nat)
    requires i <= |ps|
    ensures |AliveFrom(ps, i)| <= |ps| - i
    ensures forall k :: 0 <= k < |AliveFrom(ps, i)| ==> i <= AliveFrom(ps, i)[k] < |ps|
    ensures forall k :: 0 < k < |AliveFrom(ps, i)| ==> AliveFrom(ps, i)[k - 1] < AliveFrom(ps, i)[k]
    decreases |ps| - i
  {
    if i < |ps| {
      AliveFromOrdered(ps, i + 1);
      var ks, ks' := AliveFrom(ps, i), AliveFrom(ps, i + 1);
      if ps[i].life - 1 > 0 {
        assert ks == [i] + ks';
      } else {
        assert ks == ks';
      }
    }
  }

  /** An index from `i` on is listed exactly when that particle outlives the tick. */
  lemma {:induction false} AliveFromMembers(ps: seq<Particle>, i: nat)
    requires i <= |ps|
    ensures forall j :: i <= j < |ps| ==> (j in AliveFrom(ps, i) <==> ps[j].life > 1)
    decreases |ps| - i
  {
    if i < |ps| {
      AliveFromMembers(ps, i + 1);
      AliveFromOrdered(ps, i + 1);
      var ks, ks' := AliveFrom(ps, i), AliveFrom(ps, i + 1);
      assert i !in ks';
      if ps[i].life - 1 > 0 {
        assert ks == [i] + ks';
      } else {
        assert ks == ks';
      }
    }
  }

  /** The survivors of the particles from `i` on are the ticked particles at the listed indices. */
  lemma {:induction false} AgeFrom(ps: seq<Particle>, i: nat)
    requires i <= |ps|
    ensures |Age(ps[i..])| == |AliveFrom(ps, i)|
    ensures forall k :: 0 <= k < |AliveFrom(ps, i)| ==>
      AliveFrom(ps, i)[k] < |ps| && Age(ps[i..])[k] == Tick(ps[AliveFrom(ps, i)[k]])
    decreases |ps| - i
  {
    if i < |ps| {
      AgeFrom(ps, i + 1);
      AliveFromOrdered(ps, i);
      AgeStep(ps, i);
      var r, ks := Age(ps[i..]), AliveFrom(ps, i);
      var r', ks' := Age(ps[i + 1..]), AliveFrom(ps, i + 1);
      if ps[i].life - 1 > 0 {
        assert r == [Tick(ps[i])] + r' && ks == [i] + ks';
        assert forall k :: 0 < k < |ks| ==> ks[k] == ks'[k - 1] && r[k] == r'[k - 1];
      } else {
        assert r == r' && ks == ks';
      }
    }
  }

  /** After one tick the particles left are exactly those whose life was above one, each moved
      by its velocity with one unit of life less, in their original order; so every survivor
      is still alive and there are never more particles than before. */
  lemma AgeKeepsLiveParticles(ps: seq<Particle>)
    ensures |Age(ps)| == |AliveFrom(ps, 0)| <= |ps|
    ensures forall k :: 0 <= k < |Age(ps)| ==>
      AliveFrom(ps, 0)[k] < |ps| && Age(ps)[k] == Tick(ps[AliveFrom(ps, 0)[k]])
    ensures forall k :: 0 <= k < |Age(ps)| ==>
      Age(ps)[k].life == ps[AliveFrom(ps, 0)[k]].life - 1 && Age(ps)[k].life > 0
    ensures forall k :: 0 < k < |AliveFrom(ps, 0)| ==> AliveFrom(ps, 0)[k - 1] < AliveFrom(ps, 0)[k]
    ensures forall j :: 0 <= j < |ps| ==> (j in AliveFrom(ps, 0) <==> ps[j].life > 1)
  {
    AgeFrom(ps, 0);
    AliveFromOrdered(ps, 0);
    AliveFromMembers(ps, 0);
    assert ps[0..] == ps;
  }

}
