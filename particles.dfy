/**
 * The particle field of the hero animation: three flat buffers of 3 * count
 * numbers (positions, velocities, targets), allocated once and then only
 * overwritten in place. Particle i owns entries 3i, 3i + 1 and 3i + 2 of each.
 *
 * The field is built with random positions and velocities, receives targets
 * sampled from the drawn text whenever the layout changes, and advances one
 * frame at a time, seeking its targets while the text is forming and
 * wandering otherwise.
 */
module Particles {
  import opened Motion
  import TextSampler
  import Layout

  /** The number of particles the source allocates. */
  const ParticleCount: nat := 6000

  /** n triples of random draws, one triple per particle. */
  predicate RandomTriples(rs: seq<real>, n: nat)
  {
    |rs| == 3 * n && forall j :: 0 <= j < |rs| ==> IsRandom(rs[j])
  }

  /** The draws of particle i. */
  function Triple(rs: seq<real>, i: nat): (r: Vec3)
    requires 3 * i + 2 < |rs|
    requires forall j :: 0 <= j < |rs| ==> IsRandom(rs[j])
    ensures IsRandom3(r)
  {
    Vec3(rs[3 * i], rs[3 * i + 1], rs[3 * i + 2])
  }

  class ParticleField {
    const count: nat
    const pos: array<real>
    const vels: array<real>
    const targets: array<real>

    /** Three distinct buffers of three numbers per particle. */
    ghost predicate Valid()
    {
      pos.Length == 3 * count && vels.Length == 3 * count && targets.Length == 3 * count
      && pos != vels && pos != targets && vels != targets
    }

    function PositionOf(i: nat): Vec3
      requires Valid() && i < count
      reads pos
    {
      Vec3(pos[3 * i], pos[3 * i + 1], pos[3 * i + 2])
    }

    function VelocityOf(i: nat): Vec3
      requires Valid() && i < count
      reads vels
    {
      Vec3(vels[3 * i], vels[3 * i + 1], vels[3 * i + 2])
    }

    function TargetOf(i: nat): Vec3
      requires Valid() && i < count
      reads targets
    {
      Vec3(targets[3 * i], targets[3 * i + 1], targets[3 * i + 2])
    }

    /**
     * The initial field: every particle somewhere in the box, moving at most
     * Speed along each axis, with its target at its own x and y and at z = 0.
     * posRand and velRand hold the position and velocity draws.
     */
    constructor (n: nat, posRand: seq<real>, velRand: seq<real>)
      requires RandomTriples(posRand, n) && RandomTriples(velRand, n)
      ensures Valid() && count == n
      ensures fresh(pos) && fresh(vels) && fresh(targets)
      ensures forall i :: 0 <= i < n ==>
        PositionOf(i) == InitialPosition(Triple(posRand, i))
        && VelocityOf(i) == InitialVelocity(Triple(velRand, i))
        && TargetOf(i) == Vec3(PositionOf(i).x, PositionOf(i).y, 0.0)
      ensures forall i :: 0 <= i < n ==> InBox(PositionOf(i))
    {
      count := n;
      pos := new real[3 * n];
      vels := new real[3 * n];
      targets := new real[3 * n];
      new;
      var i := 0;
      while i < n
        invariant 0 <= i <= n
        invariant forall m :: 0 <= m < i ==>
          PositionOf(m) == InitialPosition(Triple(posRand, m))
          && VelocityOf(m) == InitialVelocity(Triple(velRand, m))
          && TargetOf(m) == Vec3(PositionOf(m).x, PositionOf(m).y, 0.0)
      {
        InitParticle(i, posRand, velRand);
        i := i + 1;
      }
    }

    /** The body of the set-up loop for particle i. */
    method InitParticle(i: nat, posRand: seq<real>, velRand: seq<real>)
      requires Valid() && i < count && RandomTriples(posRand, count) && RandomTriples(velRand, count)
      modifies pos, vels, targets
      ensures PositionOf(i) == InitialPosition(Triple(posRand, i))
      ensures VelocityOf(i) == InitialVelocity(Triple(velRand, i))
      ensures TargetOf(i) == Vec3(PositionOf(i).x, PositionOf(i).y, 0.0)
      ensures forall m :: 0 <= m < count && m != i ==>
        PositionOf(m) == old(PositionOf(m)) && VelocityOf(m) == old(VelocityOf(m)) && TargetOf(m) == old(TargetOf(m))
    {
      var i3 := i * 3;
      pos[i3 + 0] := Spread(posRand[i3 + 0], Bounds);
      pos[i3 + 1] := Spread(posRand[i3 + 1], Bounds) * VerticalShrink;
      pos[i3 + 2] := Spread(posRand[i3 + 2], Bounds);

      vels[i3 + 0] := Spread(velRand[i3 + 0], Speed);
      vels[i3 + 1] := Spread(velRand[i3 + 1], Speed);
      vels[i3 + 2] := Spread(velRand[i3 + 2], Speed);

      targets[i3 + 0] := pos[i3 + 0];
      targets[i3 + 1] := pos[i3 + 1];
      targets[i3 + 2] := 0.0;
    }

    /**
     * Point the particles at the sampled text: particle i takes sample
     * i mod |pts|, so samples are reused in turn when there are fewer than
     * particles and the later ones go unused when there are more, and gets a
     * random depth within DepthJitter of the text's plane. Positions and
     * velocities are untouched.
     */
    method SetTextTargets(pts: seq<TextSampler.Point>, depthRand: seq<real>)
      requires Valid() && |pts| > 0
      requires |depthRand| == count && forall j :: 0 <= j < |depthRand| ==> IsRandom(depthRand[j])
      modifies targets
      ensures forall i :: 0 <= i < count ==>
        TargetOf(i) == Vec3(pts[i % |pts|].x, pts[i % |pts|].y, Spread(depthRand[i], DepthJitter))
      ensures forall i :: 0 <= i < count ==> -DepthJitter <= TargetOf(i).z <= DepthJitter
    {
      var i := 0;
      while i < count
        invariant 0 <= i <= count
        invariant forall m :: 0 <= m < i ==>
          TargetOf(m) == Vec3(pts[m % |pts|].x, pts[m % |pts|].y, Spread(depthRand[m], DepthJitter))
      {
        var src := pts[i % |pts|];
        var i3 := i * 3;
        targets[i3 + 0] := src.x;
        targets[i3 + 1] := src.y;
        targets[i3 + 2] := Spread(depthRand[i], DepthJitter);
        i := i + 1;
      }
    }

    /**
     * Recompute the targets for a hero element of clientWidth x clientHeight
     * px: derive the canvas size and stride, scan the text's pixels `data`
     * (drawn by the browser on a canvas of that size) and spread the samples
     * over the particles. The sampler never returns an empty list, so every
     * particle gets a target. A hero narrower than 2 px gives a canvas of
     * width 0, whose read-back throws: the targets then stay as they were.
     */
    method Retarget(clientWidth: nat, clientHeight: nat, data: seq<TextSampler.byte>, depthRand: seq<real>)
      requires Valid()
      requires var p := Layout.Layout(clientWidth, clientHeight);
        TextSampler.IsImage(data, p.width, p.height)
      requires |depthRand| == count && forall j :: 0 <= j < |depthRand| ==> IsRandom(depthRand[j])
      modifies targets
      ensures Layout.Layout(clientWidth, clientHeight).width == 0 ==> unchanged(targets)
      ensures var p := Layout.Layout(clientWidth, clientHeight);
        var pts := TextSampler.Sampled(data, p.width, p.height, p.gap);
        p.width > 0 ==> forall i :: 0 <= i < count ==>
          TargetOf(i) == Vec3(pts[i % |pts|].x, pts[i % |pts|].y, Spread(depthRand[i], DepthJitter))
    {
      var p := Layout.Layout(clientWidth, clientHeight);
      var sampled := TextSampler.SampleTextToPoints(data, p.width, p.height, p.gap);
      if sampled.Some? {
        SetTextTargets(sampled.value, depthRand);
      }
    }

    /** One frame while the text is forming: every particle takes a seek step; velocities are frozen. */
    method Seek(rs: seq<real>)
      requires Valid() && RandomTriples(rs, count)
      modifies pos
      ensures forall i :: 0 <= i < count ==>
        PositionOf(i) == SeekStep(old(PositionOf(i)), TargetOf(i), Triple(rs, i))
    {
      var i := 0;
      while i < count
        invariant 0 <= i <= count
        invariant forall m :: 0 <= m < i ==>
          PositionOf(m) == SeekStep(old(PositionOf(m)), TargetOf(m), Triple(rs, m))
        invariant forall m :: i <= m < count ==> PositionOf(m) == old(PositionOf(m))
      {
        SeekParticle(i, rs);
        i := i + 1;
      }
    }

    /** The body of the seek loop for particle i: move toward the target, then jitter. */
    method SeekParticle(i: nat, rs: seq<real>)
      requires Valid() && RandomTriples(rs, count) && i < count
      modifies pos
      ensures PositionOf(i) == SeekStep(old(PositionOf(i)), TargetOf(i), Triple(rs, i))
      ensures forall m :: 0 <= m < count && m != i ==> PositionOf(m) == old(PositionOf(m))
    {
      var i3 := i * 3;
      pos[i3 + 0] := pos[i3 + 0] + (targets[i3 + 0] - pos[i3 + 0]) * ArriveStrength;
      pos[i3 + 1] := pos[i3 + 1] + (targets[i3 + 1] - pos[i3 + 1]) * ArriveStrength;
      pos[i3 + 2] := pos[i3 + 2] + (targets[i3 + 2] - pos[i3 + 2]) * ArriveStrength;
      pos[i3 + 0] := pos[i3 + 0] + (rs[i3 + 0] - 0.5) * 0.06;
      pos[i3 + 1] := pos[i3 + 1] + (rs[i3 + 1] - 0.5) * 0.06;
      pos[i3 + 2] := pos[i3 + 2] + (rs[i3 + 2] - 0.5) * 0.02;
    }

    /**
     * One frame while the text is not forming: every particle's velocity is
     * nudged at random, its position moves by the new velocity, and each
     * velocity component whose coordinate is now beyond the box is reversed
     * and damped.
     */
    method Wander(rs: seq<real>)
      requires Valid() && RandomTriples(rs, count)
      modifies pos, vels
      ensures forall i :: 0 <= i < count ==>
        PositionOf(i) == WanderPosition(old(PositionOf(i)), old(VelocityOf(i)), Triple(rs, i))
        && VelocityOf(i) == WanderVelocity(old(PositionOf(i)), old(VelocityOf(i)), Triple(rs, i))
    {
      var i := 0;
      while i < count
        invariant 0 <= i <= count
        invariant forall m :: 0 <= m < i ==>
          PositionOf(m) == WanderPosition(old(PositionOf(m)), old(VelocityOf(m)), Triple(rs, m))
          && VelocityOf(m) == WanderVelocity(old(PositionOf(m)), old(VelocityOf(m)), Triple(rs, m))
        invariant forall m :: i <= m < count ==>
          PositionOf(m) == old(PositionOf(m)) && VelocityOf(m) == old(VelocityOf(m))
      {
        WanderParticle(i, rs);
        i := i + 1;
      }
    }

    /** The body of the wander loop for particle i: nudge, move, then bounce. */
    method WanderParticle(i: nat, rs: seq<real>)
      requires Valid() && RandomTriples(rs, count) && i < count
      modifies pos, vels
      ensures PositionOf(i) == WanderPosition(old(PositionOf(i)), old(VelocityOf(i)), Triple(rs, i))
      ensures VelocityOf(i) == WanderVelocity(old(PositionOf(i)), old(VelocityOf(i)), Triple(rs, i))
      ensures forall m :: 0 <= m < count && m != i ==>
        PositionOf(m) == old(PositionOf(m)) && VelocityOf(m) == old(VelocityOf(m))
    {
      var i3 := i * 3;
      vels[i3 + 0] := vels[i3 + 0] + (rs[i3 + 0] - 0.5) * 0.01;
      vels[i3 + 1] := vels[i3 + 1] + (rs[i3 + 1] - 0.5) * 0.01;
      vels[i3 + 2] := vels[i3 + 2] + (rs[i3 + 2] - 0.5) * 0.005;

      pos[i3 + 0] := pos[i3 + 0] + vels[i3 + 0];
      pos[i3 + 1] := pos[i3 + 1] + vels[i3 + 1];
      pos[i3 + 2] := pos[i3 + 2] + vels[i3 + 2];
      assert VelocityOf(i) == Nudge(old(VelocityOf(i)), Triple(rs, i));
      assert PositionOf(i) == WanderPosition(old(PositionOf(i)), old(VelocityOf(i)), Triple(rs, i));

      Bounce(i);
    }

    /** The soft bounds of particle i: each axis beyond its face reverses and damps that velocity. */
    method Bounce(i: nat)
      requires Valid() && i < count
      modifies vels
      ensures VelocityOf(i) == BounceFirst(PositionOf(i), old(VelocityOf(i)), 3)
      ensures forall m :: 0 <= m < count && m != i ==> VelocityOf(m) == old(VelocityOf(m))
    {
      var i3 := i * 3;
      var k := 0;
      while k < 3
        invariant 0 <= k <= 3
        invariant VelocityOf(i) == BounceFirst(PositionOf(i), old(VelocityOf(i)), k)
        invariant forall m :: 0 <= m < count && m != i ==> VelocityOf(m) == old(VelocityOf(m))
      {
        ghost var v0 := VelocityOf(i);
        BounceFirstStep(PositionOf(i), old(VelocityOf(i)), k);
        var limit := Limit(k);
        if pos[i3 + k] > limit || pos[i3 + k] < -limit {
          vels[i3 + k] := vels[i3 + k] * BounceFactor;
        }
        assert VelocityOf(i) == With(v0, k, BounceAxis(Get(PositionOf(i), k), Get(v0, k), k));
        k := k + 1;
      }
    }

    /** One animation frame: seek while forming, wander otherwise. Targets never change here. */
    method Animate(forming: bool, rs: seq<real>)
      requires Valid() && RandomTriples(rs, count)
      modifies pos, vels
      ensures forming ==> forall i :: 0 <= i < count ==>
        PositionOf(i) == SeekStep(old(PositionOf(i)), TargetOf(i), Triple(rs, i))
        && VelocityOf(i) == old(VelocityOf(i))
      ensures !forming ==> forall i :: 0 <= i < count ==>
        PositionOf(i) == WanderPosition(old(PositionOf(i)), old(VelocityOf(i)), Triple(rs, i))
        && VelocityOf(i) == WanderVelocity(old(PositionOf(i)), old(VelocityOf(i)), Triple(rs, i))
    {
      if forming {
        Seek(rs);
      } else {
        Wander(rs);
      }
    }
  }
}
