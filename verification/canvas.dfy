/** The update half of the canvas game loop and its pointer handling: the hot
    state (live target, particles, pointer, shake) and the pure steps that
    change it. Random draws and clock readings are parameters; the number of
    spawn timeouts scheduled but not yet fired stands in for the timer queue. */
module Canvas {
  import opened Types
  import Particles

  const TargetRadius: real := 25.0
  const SpawnDelayMin: real := 800.0
  const SpawnDelayMax: real := 1500.0
  /** Shake magnitude set by every miss. */
  const MissShake: real := 15.0
  /** Per-frame factor applied to a positive shake. */
  const ShakeDecay: real := 0.9
  /** Shake at or below this is not drawn. */
  const ShakeVisible: real := 0.5
  const PrimaryButton: int := 0

  datatype Point = Point(x: real, y: real)

  /** The loop's hot state. `pendingSpawns` counts spawn timeouts that are
      scheduled and have not fired yet. */
  datatype HotState = HotState(target: Option<Target>, particles: seq<Particle>,
                               pointer: Point, shake: real, pendingSpawns: nat)

  /** Right after mount: no target, no particles, pointer at the origin, no
      shake, and the first spawn scheduled. */
  const Mounted: HotState := HotState(None, [], Point(0.0, 0.0), 0.0, 1)

  // ---------------------------------------------------------------- spawning

  /** Milliseconds between a spawn request and the target appearing. */
  function SpawnDelay(draw: real): (ms: real)
    requires UnitDraw(draw)
    ensures SpawnDelayMin <= ms < SpawnDelayMax
  {
    draw * (SpawnDelayMax - SpawnDelayMin) + SpawnDelayMin
  }

  /** A draw scales a non-negative span into [0, span], and a positive one
      into [0, span). */
  lemma ScaleNonNegative(draw: real, span: real)
    requires UnitDraw(draw) && span >= 0.0
    ensures 0.0 <= draw * span <= span
    ensures span > 0.0 ==> draw * span < span
  {
    assert (1.0 - draw) * span >= 0.0;
    if span > 0.0 {
      assert (1.0 - draw) * span > 0.0;
    }
  }

  /** A draw shifted down by one half and scaled by a positive magnitude lies in
      [-m/2, m/2). */
  lemma ScaleCentred(draw: real, m: real, o: real)
    requires UnitDraw(draw) && m > 0.0
    requires o == (draw - 0.5) * m
    ensures -m / 2.0 <= o < m / 2.0
  {
    ScaleNonNegative(draw, m);
    var scaled := draw * m;
    assert 0.0 <= scaled < m;
    assert o == scaled - m / 2.0;
  }

  /** A draw scales a negative span into (span, 0]. */
  lemma ScaleNegative(draw: real, span: real)
    requires UnitDraw(draw) && span < 0.0
    ensures span < draw * span <= 0.0
  {
    var m := -span;
    ScaleNonNegative(draw, m);
    var scaled := draw * m;
    assert draw * span == -scaled;
  }

  /** Where `draw * (extent - 2R) + R` falls relative to the inset band [R, extent - R]. */
  lemma InsetBounds(draw: real, extent: real, c: real)
    requires UnitDraw(draw)
    requires c == draw * (extent - 2.0 * TargetRadius) + TargetRadius
    ensures extent >= 2.0 * TargetRadius ==> TargetRadius <= c <= extent - TargetRadius
    ensures extent > 2.0 * TargetRadius ==> c < extent - TargetRadius
    ensures extent < 2.0 * TargetRadius ==> extent - TargetRadius < c <= TargetRadius
  {
    var span := extent - 2.0 * TargetRadius;
    assert c == draw * span + TargetRadius;
    if span >= 0.0 {
      ScaleNonNegative(draw, span);
      assert 0.0 <= draw * span <= span;
      assert span > 0.0 ==> draw * span < span;
    } else {
      ScaleNegative(draw, span);
      assert span < draw * span <= 0.0;
    }
  }

  /** A centre coordinate along a canvas side of `extent` pixels, inset by the
      radius. A side shorter than a diameter puts the centre outside the inset
      band, so the target overlaps both edges. */
  function SpawnCoordinate(draw: real, extent: nat): (c: real)
    requires UnitDraw(draw)
    ensures extent as real >= 2.0 * TargetRadius ==> TargetRadius <= c <= extent as real - TargetRadius
    ensures extent as real > 2.0 * TargetRadius ==> c < extent as real - TargetRadius
    ensures extent as real < 2.0 * TargetRadius ==> extent as real - TargetRadius < c <= TargetRadius
  {
    var c := draw * (extent as real - 2.0 * TargetRadius) + TargetRadius;
    InsetBounds(draw, extent as real, c);
    c
  }

  /** The target a spawn timeout creates on a `width` x `height` canvas. */
  function SpawnedTarget(dx: real, dy: real, width: nat, height: nat, id: int, now: real): (t: Target)
    requires UnitDraw(dx) && UnitDraw(dy)
    ensures t.id == id && t.spawnTime == now && t.radius == TargetRadius
    ensures t.x == SpawnCoordinate(dx, width) && t.y == SpawnCoordinate(dy, height)
    ensures width as real > 2.0 * TargetRadius && height as real > 2.0 * TargetRadius ==>
      TargetRadius <= t.x < width as real - TargetRadius && TargetRadius <= t.y < height as real - TargetRadius
  {
    Target(id, SpawnCoordinate(dx, width), SpawnCoordinate(dy, height), TargetRadius, now)
  }

  /** A scheduled spawn fires: the new target becomes the live one. */
  function PlaceTarget(s: HotState, t: Target): (r: HotState)
    requires s.pendingSpawns > 0
    ensures r.target == Some(t) && r.pendingSpawns + 1 == s.pendingSpawns
    ensures r.particles == s.particles && r.pointer == s.pointer && r.shake == s.shake
  {
    s.(target := Some(t), pendingSpawns := s.pendingSpawns - 1)
  }

  // ----------------------------------------------------------------- pointer

  /** The pointer moved: its viewport position less the canvas's top-left corner. */
  function PointerMove(s: HotState, clientX: real, clientY: real, left: real, top: real): (r: HotState)
    ensures r.pointer.x + left == clientX && r.pointer.y + top == clientY
    ensures r.target == s.target && r.particles == s.particles
    ensures r.shake == s.shake && r.pendingSpawns == s.pendingSpawns
  {
    s.(pointer := Point(clientX - left, clientY - top))
  }

  /** An offset whose squared length is at most `r * r` lies in the square of
      half-side `r`. */
  lemma WithinSquare(dx: real, dy: real, r: real)
    requires r >= 0.0 && dx * dx + dy * dy <= r * r
    ensures -r <= dx <= r && -r <= dy <= r
  {
    var ax, ay := if dx >= 0.0 then dx else -dx, if dy >= 0.0 then dy else -dy;
    assert ax * ax == dx * dx && ay * ay == dy * dy;
    assert ax * ax <= r * r && ay * ay <= r * r;
    SquaresOrdered(ax, r);
    SquaresOrdered(ay, r);
  }

  /** The hit test, without square roots: the squared distance from the pointer
      to the centre is at most the squared radius, for a non-negative radius.
      Pressing on the centre always hits, and a hit is never further than the
      radius from the centre along either axis. */
  predicate Hits(p: Point, t: Target): (hit: bool)
    ensures p == Point(t.x, t.y) ==> (hit <==> t.radius >= 0.0)
    ensures hit ==> -t.radius <= p.x - t.x <= t.radius && -t.radius <= p.y - t.y <= t.radius
  {
    var dx, dy := p.x - t.x, p.y - t.y;
    if t.radius >= 0.0 && dx * dx + dy * dy <= t.radius * t.radius then
      WithinSquare(dx, dy, t.radius);
      true
    else
      false
  }

  /** For non-negative reals, order agrees with the order of squares. */
  lemma SquaresOrdered(d: real, r: real)
    requires d >= 0.0 && r >= 0.0
    ensures d <= r <==> d * d <= r * r
  {
    var dd, dr, rr := d * d, d * r, r * r;
    if d <= r {
      assert dd <= dr;
      assert dr <= rr;
    } else {
      assert rr <= dr;
      assert dd - dr > 0.0;
      assert rr < dd;
    }
  }

  /** `Hits` is the game's test: with `d` the Euclidean distance from pointer to
      centre, a hit is exactly `d <= radius`, the boundary included. */
  lemma HitsIsDistanceTest(p: Point, t: Target, d: real)
    requires d >= 0.0
    requires d * d == (p.x - t.x) * (p.x - t.x) + (p.y - t.y) * (p.y - t.y)
    ensures Hits(p, t) <==> d <= t.radius
  {
    if t.radius >= 0.0 {
      SquaresOrdered(d, t.radius);
    }
  }

  /** The state after a pointer-down and the shot it reports, if any. */
  datatype Reaction = Reaction(state: HotState, signal: Option<Shot>)

  predicate BurstDraws(draws: seq<Particles.SparkDraw>) {
    |draws| == Particles.BurstSize && forall i :: 0 <= i < |draws| ==> Particles.ValidDraw(draws[i])
  }

  /** A pointer-down with button `button` at monotonic time `now`; `draws` are
      the random draws a burst would consume. */
  function PointerDown(s: HotState, button: int, now: real, draws: seq<Particles.SparkDraw>): (r: Reaction)
    requires BurstDraws(draws)
    ensures button != PrimaryButton ==> r == Reaction(s, None)
    ensures button == PrimaryButton ==> r.signal.Some?
    ensures button == PrimaryButton && (s.target.None? || !Hits(s.pointer, s.target.value)) ==>
      r == Reaction(s.(shake := MissShake), Some(Miss))
    ensures button == PrimaryButton && s.target.Some? && Hits(s.pointer, s.target.value) ==>
      var t, n, ps := s.target.value, |s.particles|, r.state.particles;
      && r.signal == Some(Hit(now - t.spawnTime))
      && r.state.target == None && r.state.pendingSpawns == s.pendingSpawns + 1
      && r.state.shake == s.shake && r.state.pointer == s.pointer
      && |ps| == n + Particles.BurstSize && ps[..n] == s.particles
      && forall i :: n <= i < |ps| ==>
           ps[i].x == t.x && ps[i].y == t.y && ps[i].alpha == 1.0 && 1.0 <= ps[i].radius < 4.0
  {
    if button != PrimaryButton then Reaction(s, None)
    else if s.target.None? then Reaction(s.(shake := MissShake), Some(Miss))
    else
      var t := s.target.value;
      if Hits(s.pointer, t) then
        var burst := Particles.Burst(t.x, t.y, draws);
        assert (s.particles + burst)[..|s.particles|] == s.particles;
        var ps := s.particles + burst;
        assert forall i :: |s.particles| <= i < |ps| ==> ps[i] == burst[i - |s.particles|];
        Reaction(s.(target := None, particles := ps, pendingSpawns := s.pendingSpawns + 1),
                 Some(Hit(now - t.spawnTime)))
      else
        Reaction(s.(shake := MissShake), Some(Miss))
  }

  // ------------------------------------------------------------------- frame

  /** One frame of shake decay: a positive shake shrinks by a tenth. */
  function DecayShake(shake: real): (r: real)
    ensures shake > 0.0 ==> 0.0 < r < shake
    ensures shake <= 0.0 ==> r == shake
  {
    if shake > 0.0 then shake * ShakeDecay else shake
  }

  /** The camera offset drawn in a frame: none unless the shake is visible,
      otherwise up to half the shake in each direction. */
  function ShakeOffset(shake: real, drawX: real, drawY: real): (o: Option<Point>)
    requires UnitDraw(drawX) && UnitDraw(drawY)
    ensures o.Some? <==> shake > ShakeVisible
    ensures o.Some? ==> -shake / 2.0 <= o.value.x < shake / 2.0 && -shake / 2.0 <= o.value.y < shake / 2.0
  {
    if shake > ShakeVisible then
      var ox, oy := (drawX - 0.5) * shake, (drawY - 0.5) * shake;
      ScaleCentred(drawX, shake, ox);
      ScaleCentred(drawY, shake, oy);
      Some(Point(ox, oy))
    else None
  }

  /** The update half of one animation frame. */
  function Frame(s: HotState): (r: HotState)
    ensures r.target == s.target && r.pointer == s.pointer && r.pendingSpawns == s.pendingSpawns
    ensures s.shake >= 0.0 ==> 0.0 <= r.shake <= s.shake
    ensures r.particles == Particles.Step(s.particles)
  {
    s.(shake := DecayShake(s.shake), particles := Particles.Step(s.particles))
  }

  function Power(b: real, k: nat): real {
    if k == 0 then 1.0 else b * Power(b, k - 1)
  }

  lemma {:induction false} PowerAdd(b: real, m: nat, n: nat)
    ensures Power(b, m + n) == Power(b, m) * Power(b, n)
    decreases m
  {
    if m > 0 {
      PowerAdd(b, m - 1, n);
    }
  }

  lemma {:induction false} PowerShrinks(m: nat, n: nat)
    requires m <= n
    ensures 0.0 < Power(ShakeDecay, n) <= Power(ShakeDecay, m)
    decreases n
  {
    if n > m {
      PowerShrinks(m, n - 1);
    } else if n > 0 {
      PowerShrinks(0, n - 1);
    }
  }

  /** The shake after `k` frames. */
  function DecayBy(shake: real, k: nat): real
    decreases k
  {
    if k == 0 then shake else DecayBy(DecayShake(shake), k - 1)
  }

  /** A non-negative shake decays geometrically. */
  lemma {:induction false} DecayByIsGeometric(shake: real, k: nat)
    requires shake >= 0.0
    ensures DecayBy(shake, k) == shake * Power(ShakeDecay, k)
    decreases k
  {
    if k > 0 {
      DecayByIsGeometric(DecayShake(shake), k - 1);
      assert DecayShake(shake) == shake * ShakeDecay;
    }
  }

  /** After a miss and no further miss, the camera shakes in exactly the first
      32 frames: the `k`-th frame's shake is visible iff `k < 33`. */
  lemma MissShakeLasts(k: nat)
    ensures DecayBy(MissShake, k) > ShakeVisible <==> k < 33
  {
    DecayByIsGeometric(MissShake, k);
    var p11, p10 := Power(ShakeDecay, 11), Power(ShakeDecay, 10);
    assert 0.3138 < p11 < 0.3139;
    assert 0.3486 < p10;
    PowerAdd(ShakeDecay, 11, 11);
    PowerAdd(ShakeDecay, 22, 11);
    PowerAdd(ShakeDecay, 22, 10);
    if k < 33 {
      PowerShrinks(k, 32);
      assert Power(ShakeDecay, 32) == p11 * p11 * p10;
    } else {
      PowerShrinks(33, k);
      assert Power(ShakeDecay, 33) == p11 * p11 * p11;
    }
  }

  // -------------------------------------------------------------- event runs

  /** What reaches the hot state: pointer moves and presses, animation frames,
      and scheduled spawns firing. Presses and spawns carry the monotonic-clock
      reading they take. */
  datatype CanvasEvent =
    | PointerMoved(clientX: real, clientY: real, left: real, top: real)
    | PointerPressed(button: int, now: real, draws: seq<Particles.SparkDraw>)
    | AnimationFrame
    | SpawnTimeout(dx: real, dy: real, width: nat, height: nat, id: int, now: real)

  /** Random draws lie in [0, 1), and a spawn fires only if one was scheduled. */
  predicate Enabled(s: HotState, e: CanvasEvent) {
    match e
    case PointerMoved(_, _, _, _) => true
    case PointerPressed(_, _, draws) => BurstDraws(draws)
    case AnimationFrame => true
    case SpawnTimeout(dx, dy, _, _, _, _) => s.pendingSpawns > 0 && UnitDraw(dx) && UnitDraw(dy)
  }

  function Apply(s: HotState, e: CanvasEvent): Reaction
    requires Enabled(s, e)
  {
    match e
    case PointerMoved(cx, cy, left, top) => Reaction(PointerMove(s, cx, cy, left, top), None)
    case PointerPressed(button, now, draws) => PointerDown(s, button, now, draws)
    case AnimationFrame => Reaction(Frame(s), None)
    case SpawnTimeout(dx, dy, w, h, id, now) => Reaction(PlaceTarget(s, SpawnedTarget(dx, dy, w, h, id, now)), None)
  }

  /** What every reachable hot state satisfies: the shake is never negative;
      there is either a live target or exactly one scheduled spawn, never both;
      a live target has the fixed radius; every particle is well formed. */
  predicate Inv(s: HotState) {
    && s.shake >= 0.0
    && s.pendingSpawns <= 1
    && (s.target.Some? <==> s.pendingSpawns == 0)
    && (s.target.Some? ==> s.target.value.radius == TargetRadius)
    && forall i :: 0 <= i < |s.particles| ==> Particles.WellFormed(s.particles[i])
  }

  lemma MountedInv()
    ensures Inv(Mounted)
  {
  }

  lemma ApplyKeepsInv(s: HotState, e: CanvasEvent)
    requires Inv(s) && Enabled(s, e)
    ensures Inv(Apply(s, e).state)
  {
    match e
    case PointerMoved(_, _, _, _) =>
    case PointerPressed(button, now, draws) =>
      var r := PointerDown(s, button, now, draws);
      if button == PrimaryButton && s.target.Some? && Hits(s.pointer, s.target.value) {
        var n := |s.particles|;
        forall i | 0 <= i < |r.state.particles|
          ensures Particles.WellFormed(r.state.particles[i])
        {
          if i < n {
            assert r.state.particles[i] == r.state.particles[..n][i];
          }
        }
      }
    case AnimationFrame =>
      Particles.StepKeepsWellFormed(s.particles);
    case SpawnTimeout(_, _, _, _, _, _) =>
  }

  predicate EnabledRun(s: HotState, es: seq<CanvasEvent>)
    decreases |es|
  {
    es == [] || (Enabled(s, es[0]) && EnabledRun(Apply(s, es[0]).state, es[1..]))
  }

  /** The final state of a run and the shots it reported, in order. */
  datatype Outcome = Outcome(state: HotState, shots: seq<Shot>)

  function Run(s: HotState, es: seq<CanvasEvent>): Outcome
    requires EnabledRun(s, es)
    decreases |es|
  {
    if es == [] then Outcome(s, [])
    else
      var r := Apply(s, es[0]);
      var rest := Run(r.state, es[1..]);
      Outcome(rest.state, (if r.signal.Some? then [r.signal.value] else []) + rest.shots)
  }

  function PrimaryPresses(es: seq<CanvasEvent>): nat {
    if es == [] then 0
    else (if es[0].PointerPressed? && es[0].button == PrimaryButton then 1 else 0) + PrimaryPresses(es[1..])
  }

  /** Every run keeps the invariant and reports exactly one shot per
      primary-button press. */
  lemma {:induction false} RunKeepsInv(s: HotState, es: seq<CanvasEvent>)
    requires Inv(s) && EnabledRun(s, es)
    ensures Inv(Run(s, es).state)
    ensures |Run(s, es).shots| == PrimaryPresses(es)
    decreases |es|
  {
    if es != [] {
      ApplyKeepsInv(s, es[0]);
      RunKeepsInv(Apply(s, es[0]).state, es[1..]);
    }
  }

  /** Clock readings never go backwards: each press and spawn reads at least
      `since` and at least every earlier reading. */
  predicate ClockMonotone(es: seq<CanvasEvent>, since: real)
    decreases |es|
  {
    if es == [] then true
    else match es[0]
      case PointerPressed(_, now, _) => since <= now && ClockMonotone(es[1..], now)
      case SpawnTimeout(_, _, _, _, _, now) => since <= now && ClockMonotone(es[1..], now)
      case _ => ClockMonotone(es[1..], since)
  }

  /** With a monotonic clock every reported reaction time is non-negative. */
  lemma {:induction false} ReactionTimesNonNegative(s: HotState, es: seq<CanvasEvent>, since: real)
    requires EnabledRun(s, es) && ClockMonotone(es, since)
    requires s.target.Some? ==> s.target.value.spawnTime <= since
    ensures forall i :: 0 <= i < |Run(s, es).shots| && Run(s, es).shots[i].Hit? ==>
      Run(s, es).shots[i].reactionTime >= 0.0
    decreases |es|
  {
    if es != [] {
      var r := Apply(s, es[0]);
      var next := match es[0]
        case PointerPressed(_, now, _) => now
        case SpawnTimeout(_, _, _, _, _, now) => now
        case _ => since;
      assert r.state.target.Some? ==> r.state.target.value.spawnTime <= next;
      ReactionTimesNonNegative(r.state, es[1..], next);
      var head := if r.signal.Some? then [r.signal.value] else [];
      assert forall i :: 0 <= i < |head| && head[i].Hit? ==> head[i].reactionTime >= 0.0;
      var shots := Run(s, es).shots;
      var tail := Run(r.state, es[1..]).shots;
      assert shots == head + tail;
      forall i | 0 <= i < |shots| && shots[i].Hit?
        ensures shots[i].reactionTime >= 0.0
      {
        if i >= |head| {
          assert shots[i] == tail[i - |head|];
        }
      }
    }
  }
}
