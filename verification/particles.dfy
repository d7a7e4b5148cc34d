/** The hit burst and the per-frame particle update: each frame every particle
    moves by its velocity and fades by a fixed step, and the ones that have
    faded out are dropped. */
module Particles {
  import opened Types

  /** Sparks created by one hit. */
  const BurstSize: nat := 20
  /** Opacity lost per frame. */
  const FadePerFrame: real := 0.02
  const SparkColor: string := "#67e8f9"

  /** The five random draws one spark consumes, in the order it draws them:
      the radius, then the spread and speed factors of `vx`, then those of `vy`. */
  datatype SparkDraw = SparkDraw(size: real, vxSpread: real, vxSpeed: real, vySpread: real, vySpeed: real)

  predicate ValidDraw(d: SparkDraw) {
    UnitDraw(d.size) && UnitDraw(d.vxSpread) && UnitDraw(d.vxSpeed) && UnitDraw(d.vySpread) && UnitDraw(d.vySpeed)
  }

  /** A velocity component: a spread in [-1/2, 1/2) times a speed in [0, 8). */
  function Velocity(spread: real, speed: real): (v: real)
    requires UnitDraw(spread) && UnitDraw(speed)
    ensures -4.0 < v < 4.0
  {
    var s, m := spread - 0.5, speed * 8.0;
    assert -0.5 <= s < 0.5 && 0.0 <= m < 8.0;
    if s >= 0.0 then
      assert s * m <= s * 8.0;
      s * m
    else
      assert s * m >= s * 8.0;
      s * m
  }

  /** One spark of a burst at (x, y). */
  function Spark(x: real, y: real, d: SparkDraw): (p: Particle)
    requires ValidDraw(d)
    ensures p.x == x && p.y == y && p.alpha == 1.0 && p.color == SparkColor
    ensures 1.0 <= p.radius < 4.0
    ensures -4.0 < p.vx < 4.0 && -4.0 < p.vy < 4.0
  {
    Particle(x, y, d.size * 3.0 + 1.0,
             Velocity(d.vxSpread, d.vxSpeed), Velocity(d.vySpread, d.vySpeed),
             1.0, SparkColor)
  }

  /** One spark per draw, all centred on (x, y), in draw order. */
  function Burst(x: real, y: real, draws: seq<SparkDraw>): (ps: seq<Particle>)
    requires forall i :: 0 <= i < |draws| ==> ValidDraw(draws[i])
    ensures |ps| == |draws|
    ensures forall i :: 0 <= i < |ps| ==> ps[i] == Spark(x, y, draws[i])
  {
    seq(|draws|, i requires 0 <= i < |draws| => Spark(x, y, draws[i]))
  }

  /** A particle as the game keeps it: visible, not above full opacity, and
      with a spark's radius. */
  predicate WellFormed(p: Particle) {
    0.0 < p.alpha <= 1.0 && 1.0 <= p.radius < 4.0
  }

  /** One frame of motion and fading for one particle. */
  function Advance(p: Particle): (q: Particle)
    ensures q.alpha == p.alpha - FadePerFrame
    ensures q.x == p.x + p.vx && q.y == p.y + p.vy
    ensures q.radius == p.radius && q.vx == p.vx && q.vy == p.vy && q.color == p.color
  {
    p.(x := p.x + p.vx, y := p.y + p.vy, alpha := p.alpha - FadePerFrame)
  }

  function Moved(ps: seq<Particle>): (qs: seq<Particle>)
    ensures |qs| == |ps|
    ensures forall i :: 0 <= i < |ps| ==> qs[i] == Advance(ps[i])
  {
    seq(|ps|, i requires 0 <= i < |ps| => Advance(ps[i]))
  }

  /** The particles that are still visible, in their original order. */
  function Survivors(ps: seq<Particle>): (r: seq<Particle>)
    ensures |r| <= |ps|
    ensures forall q :: q in r <==> q in ps && q.alpha > 0.0
  {
    if ps == [] then []
    else (if ps[0].alpha > 0.0 then [ps[0]] else []) + Survivors(ps[1..])
  }

  /** The particle update of one frame: move and fade everything, then drop what
      faded out. */
  function Step(ps: seq<Particle>): (r: seq<Particle>)
    ensures |r| <= |ps|
    ensures forall q :: q in r ==> q.alpha > 0.0
    ensures forall q :: q in r <==> q in Moved(ps) && q.alpha > 0.0
  {
    Survivors(Moved(ps))
  }

  /** `a` is `b` with some elements left out and the rest in the same order. */
  predicate Subsequence<T(==)>(a: seq<T>, b: seq<T>)
    decreases |b|
  {
    if a == [] then true
    else if b == [] then false
    else (a[0] == b[0] && Subsequence(a[1..], b[1..])) || Subsequence(a, b[1..])
  }

  /** Dropping faded particles keeps the survivors in their relative order. */
  lemma {:induction false} SurvivorsKeepOrder(ps: seq<Particle>)
    ensures Subsequence(Survivors(ps), ps)
  {
    if ps != [] {
      SurvivorsKeepOrder(ps[1..]);
      if ps[0].alpha > 0.0 {
        assert Survivors(ps) == [ps[0]] + Survivors(ps[1..]);
        assert Survivors(ps)[1..] == Survivors(ps[1..]);
      } else {
        assert Survivors(ps) == Survivors(ps[1..]);
      }
    }
  }

  /** The frame update keeps the order of the particles it keeps. */
  lemma StepKeepsOrder(ps: seq<Particle>)
    ensures Subsequence(Step(ps), Moved(ps))
  {
    SurvivorsKeepOrder(Moved(ps));
  }

  lemma {:induction false} SurvivorsAppend(a: seq<Particle>, b: seq<Particle>)
    ensures Survivors(a + b) == Survivors(a) + Survivors(b)
  {
    if a != [] {
      assert (a + b)[1..] == a[1..] + b;
      SurvivorsAppend(a[1..], b);
    } else {
      assert a + b == b;
    }
  }

  /** The frame update treats the particles independently: updating a list
      made of two parts updates each part on its own. In particular a burst
      appended after the existing particles leaves their update unchanged. */
  lemma StepAppend(a: seq<Particle>, b: seq<Particle>)
    ensures Step(a + b) == Step(a) + Step(b)
  {
    assert Moved(a + b) == Moved(a) + Moved(b);
    SurvivorsAppend(Moved(a), Moved(b));
  }

  /** The frame update keeps particles well formed. */
  lemma StepKeepsWellFormed(ps: seq<Particle>)
    requires forall i :: 0 <= i < |ps| ==> WellFormed(ps[i])
    ensures forall i :: 0 <= i < |Step(ps)| ==> WellFormed(Step(ps)[i])
  {
    var r := Step(ps);
    forall i | 0 <= i < |r|
      ensures WellFormed(r[i])
    {
      assert r[i] in Moved(ps);
    }
  }

  /** The particles after `k` frames. */
  function Frames(ps: seq<Particle>, k: nat): seq<Particle>
    decreases k
  {
    if k == 0 then ps else Frames(Step(ps), k - 1)
  }

  /** One particle after `k` frames, ignoring whether it faded out. */
  function AdvanceBy(p: Particle, k: nat): Particle
    decreases k
  {
    if k == 0 then p else AdvanceBy(Advance(p), k - 1)
  }

  /** After `k` frames every remaining particle has lost at least `k` fade steps. */
  lemma {:induction false} FadeBound(ps: seq<Particle>, top: real, k: nat)
    requires forall i :: 0 <= i < |ps| ==> ps[i].alpha <= top
    ensures forall q :: q in Frames(ps, k) ==> q.alpha <= top - k as real * FadePerFrame
    decreases k
  {
    if k > 0 {
      var r := Step(ps);
      forall i | 0 <= i < |r|
        ensures r[i].alpha <= top - FadePerFrame
      {
        assert r[i] in Moved(ps);
      }
      FadeBound(r, top - FadePerFrame, k - 1);
    }
  }

  /** Nothing survives a list in which everything has faded out. */
  lemma {:induction false} NoneSurvive(ps: seq<Particle>)
    requires forall i :: 0 <= i < |ps| ==> ps[i].alpha <= 0.0
    ensures Survivors(ps) == []
  {
    if ps != [] {
      NoneSurvive(ps[1..]);
    }
  }

  /** The frame count can be peeled off at the end as well as at the start. */
  lemma {:induction false} FramesLast(ps: seq<Particle>, k: nat)
    requires k > 0
    ensures Frames(ps, k) == Step(Frames(ps, k - 1))
    decreases k
  {
    if k > 1 {
      FramesLast(Step(ps), k - 1);
    }
  }

  /** Particles at most fully opaque are all gone after 50 frames. */
  lemma AllGoneAfterFifty(ps: seq<Particle>, k: nat)
    requires forall i :: 0 <= i < |ps| ==> ps[i].alpha <= 1.0
    requires k >= 50
    ensures Frames(ps, k) == []
  {
    var before := Frames(ps, k - 1);
    FadeBound(ps, 1.0, k - 1);
    FramesLast(ps, k);
    assert forall i :: 0 <= i < |before| ==> before[i] in before;
    NoneSurvive(Moved(before));
  }

  /** A single particle with more than `k` fade steps of opacity is still there
      after `k` frames, advanced `k` times. */
  lemma {:induction false} SurvivesWhileVisible(p: Particle, k: nat)
    requires p.alpha > k as real * FadePerFrame
    ensures Frames([p], k) == [AdvanceBy(p, k)]
    ensures AdvanceBy(p, k).alpha == p.alpha - k as real * FadePerFrame
    decreases k
  {
    if k > 0 {
      var q := Advance(p);
      assert Moved([p]) == [q];
      assert Step([p]) == [q];
      SurvivesWhileVisible(q, k - 1);
    }
  }

  /** A fresh spark is visible for exactly 49 frames: it is still there after
      `k` frames when `k < 50`, and gone from the 50th frame on. */
  lemma SparkLifetime(p: Particle, k: nat)
    requires p.alpha == 1.0
    ensures k < 50 ==> Frames([p], k) == [AdvanceBy(p, k)]
    ensures k >= 50 ==> Frames([p], k) == []
  {
    if k < 50 {
      SurvivesWhileVisible(p, k);
    } else {
      AllGoneAfterFifty([p], k);
    }
  }
}
