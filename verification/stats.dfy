/** The session statistics kept by the game container: the two reducer updates
    applied on a hit and on a miss, the reset applied when a session starts, and
    the two values derived for display, accuracy and average reaction time. */
module Stats {
  import opened Types
  import opened Rounding

  /** The statistics a session starts from. */
  const Fresh: GameStats := GameStats(0, 0, 0, [])

  /** The counters agree: every shot is a hit or a miss, and every hit left one sample. */
  predicate Consistent(s: GameStats) {
    s.totalShots == s.hits + s.misses && |s.reactionTimes| == s.hits
  }

  /** The reducer update for a hit with the given reaction time. */
  function RecordHit(s: GameStats, reactionTime: real): (r: GameStats)
    ensures r.hits == s.hits + 1 && r.totalShots == s.totalShots + 1
    ensures r.misses == s.misses
    ensures r.reactionTimes == s.reactionTimes + [reactionTime]
    ensures Consistent(s) ==> Consistent(r)
  {
    s.(hits := s.hits + 1, totalShots := s.totalShots + 1,
       reactionTimes := s.reactionTimes + [reactionTime])
  }

  /** The reducer update for a miss. */
  function RecordMiss(s: GameStats): (r: GameStats)
    ensures r.misses == s.misses + 1 && r.totalShots == s.totalShots + 1
    ensures r.hits == s.hits && r.reactionTimes == s.reactionTimes
    ensures Consistent(s) ==> Consistent(r)
  {
    s.(misses := s.misses + 1, totalShots := s.totalShots + 1)
  }

  /** The reducer update for one reported shot: one more shot, counted as a hit
      or a miss, and a sample exactly when it is a hit. */
  function Record(s: GameStats, shot: Shot): (r: GameStats)
    ensures r.totalShots == s.totalShots + 1
    ensures r.hits == s.hits + (if shot.Hit? then 1 else 0)
    ensures r.misses == s.misses + (if shot.Miss? then 1 else 0)
    ensures shot.Hit? ==> r.reactionTimes == s.reactionTimes + [shot.reactionTime]
    ensures shot.Miss? ==> r.reactionTimes == s.reactionTimes
  {
    match shot
    case Hit(t) => RecordHit(s, t)
    case Miss => RecordMiss(s)
  }

  /** The statistics after the shots are applied one after another, first shot first. */
  function RecordAll(s: GameStats, shots: seq<Shot>): GameStats
    decreases |shots|
  {
    if shots == [] then s else RecordAll(Record(s, shots[0]), shots[1..])
  }

  function HitCount(shots: seq<Shot>): nat {
    if shots == [] then 0 else (if shots[0].Hit? then 1 else 0) + HitCount(shots[1..])
  }

  function MissCount(shots: seq<Shot>): nat {
    if shots == [] then 0 else (if shots[0].Miss? then 1 else 0) + MissCount(shots[1..])
  }

  /** The reaction times the hits among `shots` carry, in shot order. */
  function TimesOf(shots: seq<Shot>): seq<real> {
    if shots == [] then []
    else (if shots[0].Hit? then [shots[0].reactionTime] else []) + TimesOf(shots[1..])
  }

  lemma {:induction false} CountsCoverShots(shots: seq<Shot>)
    ensures HitCount(shots) + MissCount(shots) == |shots|
    ensures |TimesOf(shots)| == HitCount(shots)
  {
    if shots != [] {
      CountsCoverShots(shots[1..]);
    }
  }

  /** Applying a run of shots adds exactly its hit count, miss count and length to
      the three counters, and appends exactly its hits' reaction times, in order. */
  lemma {:induction false} RecordAllCounts(s: GameStats, shots: seq<Shot>)
    ensures RecordAll(s, shots) ==
      GameStats(s.hits + HitCount(shots), s.misses + MissCount(shots),
                s.totalShots + |shots|, s.reactionTimes + TimesOf(shots))
    decreases |shots|
  {
    if shots != [] {
      var rest := shots[1..];
      RecordAllCounts(Record(s, shots[0]), rest);
      match shots[0]
      case Hit(t) =>
        assert TimesOf(shots) == [t] + TimesOf(rest);
        assert s.reactionTimes + TimesOf(shots) == (s.reactionTimes + [t]) + TimesOf(rest);
      case Miss =>
        assert TimesOf(shots) == TimesOf(rest);
    }
  }

  /** Starting from the reset state, any sequence of hits and misses keeps the
      counters consistent. */
  lemma {:induction false} SessionStaysConsistent(shots: seq<Shot>)
    ensures Consistent(RecordAll(Fresh, shots))
    ensures RecordAll(Fresh, shots).reactionTimes == TimesOf(shots)
  {
    RecordAllCounts(Fresh, shots);
    CountsCoverShots(shots);
  }

  /** `n / d` computed over the reals and floored is integer division. */
  lemma FloorOfQuotient(n: int, d: int)
    requires d > 0
    ensures (n as real / d as real).Floor == n / d
  {
    var q, m := n / d, n % d;
    assert n == q * d + m && 0 <= m < d;
    assert n as real / d as real == q as real + m as real / d as real;
    assert 0.0 <= m as real / d as real < 1.0;
  }

  /** `a / c <= b / d` follows from cross-multiplying with positive denominators. */
  lemma QuotientsOrdered(a: real, c: real, b: real, d: real)
    requires c > 0.0 && d > 0.0 && a * d <= b * c
    ensures a / c <= b / d
  {
    var e := c * d;
    assert a / c == (a * d) / e;
    assert b / d == (b * c) / e;
  }

  /** The percentage before rounding, shifted by one half, is the integer ratio
      (200*hits + shots) / (2*shots) taken over the reals. */
  lemma PercentAsRatio(h: real, t: real)
    requires t > 0.0
    ensures (h / t) * 100.0 + 0.5 == (200.0 * h + t) / (2.0 * t)
  {
    var x := (h / t) * 100.0;
    var y, n, d := x + 0.5, 200.0 * h + t, 2.0 * t;
    assert x * t == 100.0 * h;
    assert y * d == n;
    assert y == (y * d) / d;
  }

  /** Rounded percentage of `h` out of `t`: the integer formula, and within
      [0, 100] when `h` does not exceed `t`. */
  lemma {:induction false} RoundedPercent(h: nat, t: nat)
    requires t > 0
    ensures Round((h as real / t as real) * 100.0) == (200 * h + t) / (2 * t)
    ensures h <= t ==> 0 <= Round((h as real / t as real) * 100.0) <= 100
  {
    var hr, tr := h as real, t as real;
    PercentAsRatio(hr, tr);
    FloorOfQuotient(200 * h + t, 2 * t);
    QuotientsOrdered(0.0, 1.0, hr, tr);
    if h <= t {
      QuotientsOrdered(hr, tr, 1.0, 1.0);
      RoundMonotone(0.0, (hr / tr) * 100.0);
      RoundMonotone((hr / tr) * 100.0, 100.0);
      RoundInteger(0);
      RoundInteger(100);
    }
  }

  /** Accuracy in whole percent: 0 before the first shot, otherwise hits over
      shots times 100, rounded; within [0, 100] whenever hits do not outnumber shots. */
  function Accuracy(s: GameStats): (r: int)
    ensures s.totalShots == 0 ==> r == 0
    ensures s.hits <= s.totalShots ==> 0 <= r <= 100
  {
    if s.totalShots == 0 then 0
    else
      RoundedPercent(s.hits, s.totalShots);
      Round((s.hits as real / s.totalShots as real) * 100.0)
  }

  /** Accuracy agrees with an all-integer reference: the rounded percentage is
      (200*hits + shots) div (2*shots). */
  lemma {:induction false} AccuracyIsIntegerRatio(s: GameStats)
    requires s.totalShots > 0
    ensures Accuracy(s) == (200 * s.hits + s.totalShots) / (2 * s.totalShots)
  {
    RoundedPercent(s.hits, s.totalShots);
  }

  /** A hit never lowers accuracy and a miss never raises it. */
  lemma AccuracyMoves(s: GameStats, reactionTime: real)
    requires Consistent(s)
    ensures Accuracy(RecordHit(s, reactionTime)) >= Accuracy(s)
    ensures Accuracy(RecordMiss(s)) <= Accuracy(s)
  {
    if s.totalShots > 0 {
      var h, t := s.hits as real, s.totalShots as real;
      assert h <= t && h * (t + 1.0) == h * t + h && (h + 1.0) * t == h * t + t;
      QuotientsOrdered(h, t, h + 1.0, t + 1.0);
      QuotientsOrdered(h, t + 1.0, h, t);
      RoundMonotone((h / t) * 100.0, ((h + 1.0) / (t + 1.0)) * 100.0);
      RoundMonotone((h / (t + 1.0)) * 100.0, (h / t) * 100.0);
    }
  }

  /** The total of the samples, added left to right from 0; a single sample is
      its own total. */
  function Sum(xs: seq<real>): (total: real)
    ensures |xs| == 1 ==> total == xs[0]
  {
    if xs == [] then 0.0 else Sum(xs[..|xs| - 1]) + xs[|xs| - 1]
  }

  /** The total of two runs of samples is the sum of their totals, so the order
      in which the reduction groups the additions does not matter. */
  lemma {:induction false} SumAppend(xs: seq<real>, ys: seq<real>)
    ensures Sum(xs + ys) == Sum(xs) + Sum(ys)
    decreases |ys|
  {
    if ys == [] {
      assert xs + ys == xs;
    } else {
      var init := ys[..|ys| - 1];
      assert (xs + ys)[..|xs + ys| - 1] == xs + init;
      SumAppend(xs, init);
    }
  }

  /** Samples that are all at least `lo` add up to at least n*lo. */
  lemma {:induction false} SumAtLeast(xs: seq<real>, lo: real)
    requires forall i :: 0 <= i < |xs| ==> lo <= xs[i]
    ensures |xs| as real * lo <= Sum(xs)
  {
    if xs != [] {
      var init := xs[..|xs| - 1];
      assert forall i :: 0 <= i < |init| ==> init[i] == xs[i];
      SumAtLeast(init, lo);
      assert |xs| as real * lo == |init| as real * lo + lo;
    }
  }

  /** Samples that are all at most `hi` add up to at most n*hi. */
  lemma {:induction false} SumAtMost(xs: seq<real>, hi: real)
    requires forall i :: 0 <= i < |xs| ==> xs[i] <= hi
    ensures Sum(xs) <= |xs| as real * hi
  {
    if xs != [] {
      var init := xs[..|xs| - 1];
      assert forall i :: 0 <= i < |init| ==> init[i] == xs[i];
      SumAtMost(init, hi);
      assert |xs| as real * hi == |init| as real * hi + hi;
    }
  }

  /** The mean of a total over a positive count, rounded to `r`: the total lies
      within half a unit per count of `r` times the count, and a non-negative
      total has a non-negative mean. */
  lemma RoundedMean(total: real, n: real, mean: real, r: int)
    requires n > 0.0 && mean == total / n
    requires r as real - 0.5 <= mean < r as real + 0.5
    ensures (r as real - 0.5) * n <= total < (r as real + 0.5) * n
    ensures total >= 0.0 ==> mean >= 0.0
  {
    assert mean * n == total;
    ScaleInterval(r as real - 0.5, mean, r as real + 0.5, n, total);
    if mean < 0.0 {
      ScaleInterval(mean, mean, 0.0, n, total);
    }
  }

  /** Multiplying by a positive factor keeps `lo <= x < hi` in order: the
      product `p` of `x` and `n` lies in [lo * n, hi * n). */
  lemma ScaleInterval(lo: real, x: real, hi: real, n: real, p: real)
    requires n > 0.0 && lo <= x < hi && p == x * n
    ensures lo * n <= p < hi * n
  {
    var d, e := x - lo, hi - x;
    assert d >= 0.0 && e > 0.0;
    assert d * n >= 0.0 && e * n > 0.0;
  }

  /** The mean reaction time in whole milliseconds: 0 with no samples,
      otherwise the integer nearest the mean, so that the total lies within half
      a millisecond per sample of the average times the count. */
  function AvgReactionTime(s: GameStats): (r: int)
    ensures s.reactionTimes == [] ==> r == 0
    ensures |s.reactionTimes| > 0 ==>
      (r as real - 0.5) * |s.reactionTimes| as real <= Sum(s.reactionTimes)
      < (r as real + 0.5) * |s.reactionTimes| as real
    ensures (forall i :: 0 <= i < |s.reactionTimes| ==> s.reactionTimes[i] >= 0.0) ==> r >= 0
  {
    var xs := s.reactionTimes;
    if |xs| == 0 then 0
    else
      var n, total := |xs| as real, Sum(xs);
      var mean := total / n;
      var r := Round(mean);
      RoundedMean(total, n, mean, r);
      assert (forall i :: 0 <= i < |xs| ==> xs[i] >= 0.0) ==> total >= 0.0 by {
        if forall i :: 0 <= i < |xs| ==> xs[i] >= 0.0 {
          SumAtLeast(xs, 0.0);
        }
      }
      r
  }

  /** With every sample in [lo, hi], the average lies between the rounded bounds:
      in particular it is never negative when no sample is. */
  lemma AvgWithinSampleRange(s: GameStats, lo: real, hi: real)
    requires s.reactionTimes != []
    requires forall i :: 0 <= i < |s.reactionTimes| ==> lo <= s.reactionTimes[i] <= hi
    ensures Round(lo) <= AvgReactionTime(s) <= Round(hi)
  {
    var xs := s.reactionTimes;
    var n := |xs| as real;
    SumAtLeast(xs, lo);
    SumAtMost(xs, hi);
    QuotientsOrdered(lo, 1.0, Sum(xs), n);
    QuotientsOrdered(Sum(xs), n, hi, 1.0);
    RoundMonotone(lo, Sum(xs) / n);
    RoundMonotone(Sum(xs) / n, hi);
  }
}
