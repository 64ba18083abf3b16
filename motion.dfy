/**
 * The per-particle motion rules of the hero animation, one particle at a time.
 *
 * A particle is a position, a velocity and a target, each a point in 3D.
 * Its starting state is spread at random over a box; each frame it either
 * seeks its target (the text is forming) or wanders with a random walk on
 * its velocity and a soft bounce at the box's faces. Every value the source
 * draws from Math.random() is a parameter in [0, 1) here.
 */
module Motion {

  /** Half-width of the wander box along x and z. */
  const Bounds: real := 180.0

  /** The wander box is this much flatter along y. */
  const VerticalShrink: real := 0.6

  /** Largest initial speed along each axis. */
  const Speed: real := 0.25

  /** Fraction of the remaining distance covered per frame while seeking. */
  const ArriveStrength: real := 0.08

  /** Half the thickness of the formed text along z. */
  const DepthJitter: real := 6.0

  /** Velocity factor applied by a bounce: reversed, with 2% loss. */
  const BounceFactor: real := -0.98

  datatype Vec3 = Vec3(x: real, y: real, z: real)

  /** Axis k of v: 0 is x, 1 is y, 2 is z. */
  function Get(v: Vec3, k: nat): real
    requires k < 3
  {
    if k == 0 then v.x else if k == 1 then v.y else v.z
  }

  function Abs(a: real): real { if a < 0.0 then -a else a }

  /** A value Math.random() can return. */
  predicate IsRandom(r: real) { 0.0 <= r < 1.0 }

  predicate IsRandom3(r: Vec3) { IsRandom(r.x) && IsRandom(r.y) && IsRandom(r.z) }

  /** The half-extent of the box along axis k: flatter along y. */
  function Limit(k: nat): real
    requires k < 3
  {
    if k == 1 then Bounds * VerticalShrink else Bounds
  }

  /** The position lies inside the box, faces included. */
  predicate InBox(p: Vec3)
  {
    forall k :: 0 <= k < 3 ==> -Limit(k) <= Get(p, k) <= Limit(k)
  }

  /** A coordinate beyond the face of the box along axis k. */
  predicate Outside(q: real, k: nat)
    requires k < 3
  {
    q > Limit(k) || q < -Limit(k)
  }

  // ---------------------------------------------------------------------
  // Random draws
  // ---------------------------------------------------------------------

  /** A random value spread evenly over [-extent, extent). */
  function Spread(r: real, extent: real): (s: real)
    requires IsRandom(r) && extent >= 0.0
    ensures -extent <= s <= extent
    ensures extent > 0.0 ==> s < extent
  {
    MulNonNeg(r, extent);
    MulNonNeg(1.0 - r, extent);
    (r * 2.0 - 1.0) * extent
  }

  /** A product of non-negative reals is non-negative (a hint the solver needs for nonlinear terms). */
  lemma MulNonNeg(a: real, b: real)
    requires a >= 0.0 && b >= 0.0
    ensures a * b >= 0.0
  {
  }

  /** A random offset of total width amp centred on zero. */
  function Jitter(r: real, amp: real): (j: real)
    requires IsRandom(r) && amp >= 0.0
    ensures -amp / 2.0 <= j <= amp / 2.0
    ensures amp > 0.0 ==> j < amp / 2.0
  {
    MulNonNeg(r, amp);
    MulNonNeg(1.0 - r, amp);
    (r - 0.5) * amp
  }

  // ---------------------------------------------------------------------
  // Initial state
  // ---------------------------------------------------------------------

  /** A starting position: anywhere in the box. */
  function InitialPosition(r: Vec3): (p: Vec3)
    requires IsRandom3(r)
    ensures InBox(p)
  {
    Vec3(Spread(r.x, Bounds), Spread(r.y, Bounds) * VerticalShrink, Spread(r.z, Bounds))
  }

  /** A starting velocity: at most Speed along each axis. */
  function InitialVelocity(r: Vec3): (v: Vec3)
    requires IsRandom3(r)
    ensures forall k :: 0 <= k < 3 ==> Abs(Get(v, k)) <= Speed
  {
    Vec3(Spread(r.x, Speed), Spread(r.y, Speed), Spread(r.z, Speed))
  }

  // ---------------------------------------------------------------------
  // Seeking the text
  // ---------------------------------------------------------------------

  /**
   * One frame of approach along one axis, without jitter: the remaining
   * distance to the target shrinks by the factor 1 - ArriveStrength, and the
   * new coordinate lies between the old one and the target.
   */
  function Arrive(p: real, t: real): (q: real)
    ensures Abs(t - q) == (1.0 - ArriveStrength) * Abs(t - p)
    ensures p <= t ==> p <= q <= t
    ensures t <= p ==> t <= q <= p
  {
    p + (t - p) * ArriveStrength
  }

  /** The jitter amplitude added while seeking: x and y move more than z. */
  function SeekAmp(k: nat): real
    requires k < 3
  {
    if k == 2 then 0.02 else 0.06
  }

  /** One frame of seeking: approach the target along every axis, then jitter. */
  function SeekStep(p: Vec3, t: Vec3, r: Vec3): (q: Vec3)
    requires IsRandom3(r)
    ensures forall k :: 0 <= k < 3 ==> Abs(Get(q, k) - Arrive(Get(p, k), Get(t, k))) <= SeekAmp(k) / 2.0
  {
    Vec3(Arrive(p.x, t.x) + Jitter(r.x, SeekAmp(0)),
         Arrive(p.y, t.y) + Jitter(r.y, SeekAmp(1)),
         Arrive(p.z, t.z) + Jitter(r.z, SeekAmp(2)))
  }

  /**
   * A seek step lands within SeekAmp(k) / 2 of the jitter-free approach:
   * at most 0.03 along x and y, 0.01 along z.
   */
  lemma SeekJitterBounded(p: Vec3, t: Vec3, r: Vec3, k: nat)
    requires IsRandom3(r) && k < 3
    ensures Abs(Get(SeekStep(p, t, r), k) - Arrive(Get(p, k), Get(t, k))) <= SeekAmp(k) / 2.0
  {
    var j := Get(SeekStep(p, t, r), k) - Arrive(Get(p, k), Get(t, k));
    if k == 0 {
      assert j == Jitter(r.x, SeekAmp(0));
    } else if k == 1 {
      assert j == Jitter(r.y, SeekAmp(1));
    } else {
      assert j == Jitter(r.z, SeekAmp(2));
    }
  }

  /**
   * With the draws at their midpoint (no jitter), every coordinate's distance
   * to its target shrinks by the factor 1 - ArriveStrength, and strictly
   * unless it is already on target.
   */
  lemma SeekWithoutJitterContracts(p: Vec3, t: Vec3, k: nat)
    requires k < 3
    ensures var q := SeekStep(p, t, Vec3(0.5, 0.5, 0.5));
      Abs(Get(t, k) - Get(q, k)) == (1.0 - ArriveStrength) * Abs(Get(t, k) - Get(p, k))
      && (Get(p, k) != Get(t, k) ==> Abs(Get(t, k) - Get(q, k)) < Abs(Get(t, k) - Get(p, k)))
  {
    var q := SeekStep(p, t, Vec3(0.5, 0.5, 0.5));
    assert Get(q, k) == Arrive(Get(p, k), Get(t, k));
  }

  /** n frames of jitter-free approach along one axis. */
  function Approach(p: real, t: real, n: nat): real
  {
    if n == 0 then p else Arrive(Approach(p, t, n - 1), t)
  }

  function Pow(b: real, n: nat): real
  {
    if n == 0 then 1.0 else b * Pow(b, n - 1)
  }

  /** d shrunk by the factor 1 - ArriveStrength n times over. */
  function Shrunk(d: real, n: nat): real
  {
    if n == 0 then d else (1.0 - ArriveStrength) * Shrunk(d, n - 1)
  }

  lemma {:induction false} ShrunkIsPow(d: real, n: nat)
    ensures Shrunk(d, n) == Pow(1.0 - ArriveStrength, n) * d
  {
    if n > 0 {
      ShrunkIsPow(d, n - 1);
      var c, e := 1.0 - ArriveStrength, Pow(1.0 - ArriveStrength, n - 1);
      assert c * (e * d) == (c * e) * d;
    }
  }

  lemma {:induction false} ApproachShrinks(p: real, t: real, n: nat)
    ensures Abs(t - Approach(p, t, n)) == Shrunk(Abs(t - p), n)
  {
    if n > 0 {
      ApproachShrinks(p, t, n - 1);
    }
  }

  /** After n jitter-free frames the distance to the target is (1 - ArriveStrength)^n of the start. */
  lemma ApproachDistance(p: real, t: real, n: nat)
    ensures Abs(t - Approach(p, t, n)) == Pow(1.0 - ArriveStrength, n) * Abs(t - p)
  {
    ApproachShrinks(p, t, n);
    ShrunkIsPow(Abs(t - p), n);
  }

  /** Jitter-free approach never reaches nor overshoots the target, and each frame gets strictly closer. */
  lemma {:induction false} ApproachMonotone(p: real, t: real, n: nat)
    requires p != t
    ensures Approach(p, t, n) != t
    ensures Abs(t - Approach(p, t, n + 1)) < Abs(t - Approach(p, t, n))
  {
    if n > 0 {
      ApproachMonotone(p, t, n - 1);
    }
  }

  // ---------------------------------------------------------------------
  // Wandering
  // ---------------------------------------------------------------------

  /** The random acceleration amplitude while wandering: z drifts less. */
  function NudgeAmp(k: nat): real
    requires k < 3
  {
    if k == 2 then 0.005 else 0.01
  }

  /** The velocity after this frame's random acceleration. */
  function Nudge(v: Vec3, r: Vec3): (u: Vec3)
    requires IsRandom3(r)
    ensures forall k :: 0 <= k < 3 ==> Abs(Get(u, k) - Get(v, k)) <= NudgeAmp(k) / 2.0
  {
    Vec3(v.x + Jitter(r.x, NudgeAmp(0)), v.y + Jitter(r.y, NudgeAmp(1)), v.z + Jitter(r.z, NudgeAmp(2)))
  }

  /** Along one axis: a coordinate beyond the face reverses and damps the velocity; no clamping. */
  function BounceAxis(q: real, u: real, k: nat): real
    requires k < 3
  {
    if q > Limit(k) || q < -Limit(k) then u * BounceFactor else u
  }

  /** The bounce applied to the first k axes only (the rest as they are). */
  function BounceFirst(p: Vec3, v: Vec3, k: nat): Vec3
  {
    Vec3(if k > 0 then BounceAxis(p.x, v.x, 0) else v.x,
         if k > 1 then BounceAxis(p.y, v.y, 1) else v.y,
         if k > 2 then BounceAxis(p.z, v.z, 2) else v.z)
  }

  /** v with its axis k replaced by a. */
  function With(v: Vec3, k: nat, a: real): Vec3
    requires k < 3
  {
    if k == 0 then Vec3(a, v.y, v.z) else if k == 1 then Vec3(v.x, a, v.z) else Vec3(v.x, v.y, a)
  }

  /** Bouncing one more axis changes that axis only. */
  lemma BounceFirstStep(p: Vec3, v: Vec3, k: nat)
    requires k < 3
    ensures Get(BounceFirst(p, v, k), k) == Get(v, k)
    ensures BounceFirst(p, v, k + 1) == With(BounceFirst(p, v, k), k, BounceAxis(Get(p, k), Get(v, k), k))
  {
  }

  /**
   * The position after a wander frame: moved by the nudged velocity, so
   * within NudgeAmp(k) / 2 of where the old velocity would have taken it.
   */
  function WanderPosition(p: Vec3, v: Vec3, r: Vec3): (q: Vec3)
    requires IsRandom3(r)
    ensures forall k :: 0 <= k < 3 ==> Abs(Get(q, k) - (Get(p, k) + Get(v, k))) <= NudgeAmp(k) / 2.0
  {
    var u := Nudge(v, r);
    Vec3(p.x + u.x, p.y + u.y, p.z + u.z)
  }

  /**
   * The velocity after a wander frame: nudged, then reversed and damped along
   * exactly the axes whose new coordinate is beyond the box, never faster
   * than the nudged velocity.
   */
  function WanderVelocity(p: Vec3, v: Vec3, r: Vec3): (w: Vec3)
    requires IsRandom3(r)
    ensures forall k :: 0 <= k < 3 ==>
      Abs(Get(w, k)) <= Abs(Get(Nudge(v, r), k))
      && (Outside(Get(WanderPosition(p, v, r), k), k) ==> Get(w, k) == BounceFactor * Get(Nudge(v, r), k))
      && (!Outside(Get(WanderPosition(p, v, r), k), k) ==> Get(w, k) == Get(Nudge(v, r), k))
  {
    BounceFirst(WanderPosition(p, v, r), Nudge(v, r), 3)
  }

  /** The random acceleration changes each velocity component by at most NudgeAmp(k) / 2. */
  lemma NudgeBounded(v: Vec3, r: Vec3, k: nat)
    requires IsRandom3(r) && k < 3
    ensures Abs(Get(Nudge(v, r), k) - Get(v, k)) <= NudgeAmp(k) / 2.0
  {
    var u := Nudge(v, r);
    if k == 0 {
      assert u.x - v.x == Jitter(r.x, NudgeAmp(0));
    } else if k == 1 {
      assert u.y - v.y == Jitter(r.y, NudgeAmp(1));
    } else {
      assert u.z - v.z == Jitter(r.z, NudgeAmp(2));
    }
  }

  /**
   * After a wander frame, velocity component k is the nudged one times
   * BounceFactor when the new coordinate k is beyond the face of the box
   * (y's face being the nearer one), and the nudged one otherwise. The
   * bounce never speeds a particle up.
   */
  lemma WanderBounce(p: Vec3, v: Vec3, r: Vec3, k: nat)
    requires IsRandom3(r) && k < 3
    ensures var q, u, w := WanderPosition(p, v, r), Nudge(v, r), WanderVelocity(p, v, r);
      Get(q, k) == Get(p, k) + Get(u, k)
      && (Outside(Get(q, k), k) ==> Get(w, k) == BounceFactor * Get(u, k))
      && (!Outside(Get(q, k), k) ==> Get(w, k) == Get(u, k))
      && Abs(Get(w, k)) <= Abs(Get(u, k))
  {
  }

  /**
   * The bounce does not keep positions inside the box. Along x, without random
   * acceleration: a particle beyond the face and moving outwards is turned
   * back, and if the return move leaves it still beyond the face, the next
   * frame's bounce turns it outwards again.
   */
  lemma BounceCanRecrossOutward(q: real, u: real)
    requires q > Limit(0) && u > 0.0 && q + u * BounceFactor > Limit(0)
    ensures var u1 := BounceAxis(q, u, 0);
      var q2 := q + u1;
      u1 < 0.0 && Outside(q2, 0) && BounceAxis(q2, u1, 0) > 0.0
  {
  }
}
