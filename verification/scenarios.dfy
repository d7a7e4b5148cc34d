/** The worked session examples: the statistics and the derived display values
    after short, concrete sequences of shots. */
module Scenarios {
  import opened Types
  import opened Rounding
  import opened Stats
  import Particles
  import Canvas

  function Misses(k: nat): seq<Shot> {
    seq(k, _ => Miss)
  }

  /** A run of `k` misses only adds `k` to the miss and shot counters. */
  lemma {:induction false} MissesFirst(s: GameStats, k: nat, rest: seq<Shot>)
    ensures RecordAll(s, Misses(k) + rest)
         == RecordAll(s.(misses := s.misses + k, totalShots := s.totalShots + k), rest)
    decreases k
  {
    if k == 0 {
      assert Misses(0) + rest == rest;
    } else {
      var shots := Misses(k) + rest;
      assert shots[0] == Miss;
      assert shots[1..] == Misses(k - 1) + rest;
      MissesFirst(RecordMiss(s), k - 1, rest);
    }
  }

  /** `k` misses and then a hit: one hit, `k` misses, `k + 1` shots, one sample. */
  lemma {:induction false} MissesThenHit(k: nat, t: real)
    ensures RecordAll(Fresh, Misses(k) + [Hit(t)]) == GameStats(1, k, k + 1, [t])
  {
    MissesFirst(Fresh, k, [Hit(t)]);
    assert [Hit(t)][1..] == [];
  }

  /** One hit in four shots shows 25 percent. */
  lemma OneHitInFour(t: real)
    ensures Accuracy(GameStats(1, 3, 4, [t])) == 25
  {
    RoundInteger(25);
  }

  /** Three misses then a hit: 25 percent accuracy. */
  lemma ThreeMissesThenHit(t: real)
    ensures RecordAll(Fresh, Misses(3) + [Hit(t)]) == GameStats(1, 3, 4, [t])
    ensures Accuracy(RecordAll(Fresh, Misses(3) + [Hit(t)])) == 25
  {
    MissesThenHit(3, t);
    OneHitInFour(t);
  }

  /** A single hit: one hit in one shot, its reaction time the only sample. */
  lemma SingleHit(t: real)
    ensures RecordAll(Fresh, [Hit(t)]) == GameStats(1, 0, 1, [t])
  {
    assert [Hit(t)][1..] == [];
  }

  /** A primary press at 500 ms on a target spawned at time 0 reports a hit
      with a 500 ms reaction time. */
  lemma PressAt500(s: Canvas.HotState, draws: seq<Particles.SparkDraw>)
    requires Canvas.BurstDraws(draws)
    requires s.target.Some? && s.target.value.spawnTime == 0.0
    requires Canvas.Hits(s.pointer, s.target.value)
    ensures Canvas.PointerDown(s, Canvas.PrimaryButton, 500.0, draws).signal == Some(Hit(500.0))
  {
  }

  /** Statistics holding one hit of 500 ms show 100 percent and 500 ms. */
  lemma OneSampleDisplay()
    ensures Accuracy(GameStats(1, 0, 1, [500.0])) == 100
    ensures AvgReactionTime(GameStats(1, 0, 1, [500.0])) == 500
  {
    assert [500.0][..0] == [];
    RoundInteger(100);
    RoundInteger(500);
  }

  /** A primary press that hits a target spawned at time 0, pressed at 500 ms,
      reports a 500 ms hit; fed to the reset statistics it shows one hit in one
      shot, 100 percent and a 500 ms average. */
  lemma SingleHitDisplay(s: Canvas.HotState, draws: seq<Particles.SparkDraw>)
    requires Canvas.BurstDraws(draws)
    requires s.target.Some? && s.target.value.spawnTime == 0.0
    requires Canvas.Hits(s.pointer, s.target.value)
    ensures var shot := Canvas.PointerDown(s, Canvas.PrimaryButton, 500.0, draws).signal;
      && shot == Some(Hit(500.0))
      && RecordAll(Fresh, [shot.value]) == GameStats(1, 0, 1, [500.0])
      && Accuracy(RecordAll(Fresh, [shot.value])) == 100
      && AvgReactionTime(RecordAll(Fresh, [shot.value])) == 500
  {
    PressAt500(s, draws);
    SingleHit(500.0);
    OneSampleDisplay();
  }
}
