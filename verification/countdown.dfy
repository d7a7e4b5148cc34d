/** The session countdown: the updater the canvas hands to the container's timer
    setter once a second, and the interval that keeps firing it until it signals
    the end of the session and cancels itself. */
module Countdown {

  /** What one call of the updater produces: the new remaining seconds, and
      whether it cancelled the interval and reported the end of the session. */
  datatype TickResult = TickResult(remaining: int, ended: bool)

  /** One call of the updater on the previous remaining time. */
  function Tick(prev: int): (r: TickResult)
    ensures r.ended <==> prev <= 1
    ensures r.ended ==> r.remaining == 0
    ensures !r.ended ==> r.remaining >= 1 && r.remaining + 1 == prev
  {
    if prev <= 1 then TickResult(0, true) else TickResult(prev - 1, false)
  }

  /** The one-second interval: the remaining time and whether it still fires. */
  datatype Ticker = Ticker(remaining: int, live: bool)

  /** One interval period: a cancelled interval does nothing and signals
      nothing; a live one signals the end exactly when at most one second was
      left, and then cancels itself at 0; otherwise it stays live, one second
      lower. */
  function Second(t: Ticker): (r: (Ticker, bool))
    ensures !t.live ==> r == (t, false)
    ensures t.live ==> (r.1 <==> t.remaining <= 1)
    ensures r.1 ==> r.0 == Ticker(0, false)
    ensures t.live && !r.1 ==> r.0 == Ticker(t.remaining - 1, true)
  {
    if !t.live then (t, false)
    else
      var r := Tick(t.remaining);
      (Ticker(r.remaining, !r.ended), r.ended)
  }

  /** The end signals raised over `k` periods, one entry per period. */
  function Signals(t: Ticker, k: nat): seq<bool>
    decreases k
  {
    if k == 0 then [] else [Second(t).1] + Signals(Second(t).0, k - 1)
  }

  /** The interval after `k` periods. */
  function After(t: Ticker, k: nat): Ticker
    decreases k
  {
    if k == 0 then t else After(Second(t).0, k - 1)
  }

  /** Once cancelled, the interval signals nothing more and stays as it is. */
  lemma {:induction false} CancelledStaysSilent(t: Ticker, k: nat)
    requires !t.live
    ensures |Signals(t, k)| == k
    ensures forall i :: 0 <= i < k ==> !Signals(t, k)[i]
    ensures After(t, k) == t
  {
    if k > 0 {
      CancelledStaysSilent(t, k - 1);
    }
  }

  /** Started from `d >= 1` seconds, the end is signalled exactly once, in
      period number `d`; before that the remaining time counts down by one per
      period, and afterwards the interval is cancelled at 0. */
  lemma {:induction false} EndSignalledOnce(d: int, k: nat)
    requires d >= 1
    ensures |Signals(Ticker(d, true), k)| == k
    ensures forall i :: 0 <= i < k ==> (Signals(Ticker(d, true), k)[i] <==> i == d - 1)
    ensures After(Ticker(d, true), k) == if k < d then Ticker(d - k, true) else Ticker(0, false)
  {
    if k > 0 {
      var t := Ticker(d, true);
      var tail := Signals(Second(t).0, k - 1);
      assert Signals(t, k) == [d <= 1] + tail;
      if d == 1 {
        CancelledStaysSilent(Ticker(0, false), k - 1);
      } else {
        EndSignalledOnce(d - 1, k - 1);
        assert forall i :: 1 <= i < k ==> Signals(t, k)[i] == tail[i - 1];
      }
    }
  }
}
