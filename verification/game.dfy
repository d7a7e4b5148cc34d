/** The canvas and the container together: the shots a canvas run reports,
    fed through the container's reducers from the reset statistics. */
module Game {
  import opened Types
  import Stats
  import Canvas

  /** The samples of non-negative hits are non-negative. */
  lemma {:induction false} TimesOfNonNegative(shots: seq<Shot>)
    requires forall i :: 0 <= i < |shots| && shots[i].Hit? ==> shots[i].reactionTime >= 0.0
    ensures forall j :: 0 <= j < |Stats.TimesOf(shots)| ==> Stats.TimesOf(shots)[j] >= 0.0
  {
    if shots != [] {
      var rest := shots[1..];
      assert forall i :: 0 <= i < |rest| && rest[i].Hit? ==> rest[i].reactionTime >= 0.0 by {
        forall i | 0 <= i < |rest| && rest[i].Hit?
          ensures rest[i].reactionTime >= 0.0
        {
          assert rest[i] == shots[i + 1];
        }
      }
      TimesOfNonNegative(rest);
    }
  }

  /** A session played on a freshly mounted canvas with a monotonic clock: the
      statistics stay consistent, count one shot per primary-button press, and
      give an accuracy in [0, 100] and a non-negative average reaction time. */
  lemma {:induction false} SessionStatistics(es: seq<Canvas.CanvasEvent>, since: real)
    requires Canvas.EnabledRun(Canvas.Mounted, es) && Canvas.ClockMonotone(es, since)
    ensures var st := Stats.RecordAll(Stats.Fresh, Canvas.Run(Canvas.Mounted, es).shots);
      && Stats.Consistent(st)
      && st.totalShots == Canvas.PrimaryPresses(es)
      && 0 <= Stats.Accuracy(st) <= 100
      && Stats.AvgReactionTime(st) >= 0
  {
    var shots := Canvas.Run(Canvas.Mounted, es).shots;
    var st := Stats.RecordAll(Stats.Fresh, shots);
    Canvas.MountedInv();
    Canvas.RunKeepsInv(Canvas.Mounted, es);
    Stats.RecordAllCounts(Stats.Fresh, shots);
    assert st.totalShots == Canvas.PrimaryPresses(es);
    Stats.SessionStaysConsistent(shots);
    assert Stats.Consistent(st);
    Canvas.ReactionTimesNonNegative(Canvas.Mounted, es, since);
    TimesOfNonNegative(shots);
    assert forall j :: 0 <= j < |st.reactionTimes| ==> st.reactionTimes[j] >= 0.0;
    assert Stats.AvgReactionTime(st) >= 0;
  }
}
