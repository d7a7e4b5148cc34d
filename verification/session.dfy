/** The game container's screen state machine: `start -> playing -> summary ->
    playing ...`, with the statistics and the remaining seconds it holds. The
    screens decide which actions the player can take: the start screen offers
    start, the summary screen offers restart, and while playing the canvas
    reports shots and the countdown fires once a second. */
module Session {
  import opened Types
  import Stats
  import Countdown

  /** Length of a session in seconds. */
  const GameDuration: int := 60

  /** The container's state: mounted screen, statistics, remaining seconds. */
  datatype App = App(status: GameStatus, stats: GameStats, timer: int)

  /** The container as first rendered. */
  const Boot: App := App(Start, Stats.Fresh, GameDuration)

  /** Start a session: statistics reset, full time, canvas mounted, whatever came before. */
  function StartGame(a: App): (r: App)
    ensures r.status == Playing && r.stats == Stats.Fresh && r.timer == GameDuration
  {
    App(Playing, Stats.Fresh, GameDuration)
  }

  /** Restart from the summary: exactly what starting does. */
  function Restart(a: App): (r: App)
    ensures r.status == Playing && r.stats == Stats.Fresh && r.timer == GameDuration
  {
    StartGame(a)
  }

  /** End the session: the summary is shown over untouched statistics. */
  function EndGame(a: App): (r: App)
    ensures r.status == Summary && r.stats == a.stats && r.timer == a.timer
  {
    a.(status := Summary)
  }

  /** The canvas reported a shot: only the statistics change. */
  function OnShot(a: App, shot: Shot): (r: App)
    ensures r.status == a.status && r.timer == a.timer
    ensures r.stats == Stats.Record(a.stats, shot)
  {
    a.(stats := Stats.Record(a.stats, shot))
  }

  /** One second elapsed: the countdown updater runs on the timer, and its end
      signal ends the session. */
  function OnSecond(a: App): (r: App)
    ensures r.stats == a.stats
    ensures r.status == (if a.timer <= 1 then Summary else a.status)
    ensures r.timer == (if a.timer <= 1 then 0 else a.timer - 1)
  {
    var t := Countdown.Tick(a.timer);
    var b := a.(timer := t.remaining);
    if t.ended then EndGame(b) else b
  }

  datatype UiEvent = StartClicked | RestartClicked | ShotReported(shot: Shot) | SecondElapsed

  /** The events the mounted screen can produce. */
  predicate Offered(a: App, e: UiEvent) {
    match e
    case StartClicked => a.status == Start
    case RestartClicked => a.status == Summary
    case ShotReported(_) => a.status == Playing
    case SecondElapsed => a.status == Playing
  }

  function Step(a: App, e: UiEvent): App {
    match e
    case StartClicked => StartGame(a)
    case RestartClicked => Restart(a)
    case ShotReported(s) => OnShot(a, s)
    case SecondElapsed => OnSecond(a)
  }

  function Run(a: App, es: seq<UiEvent>): App
    decreases |es|
  {
    if es == [] then a else Run(Step(a, es[0]), es[1..])
  }

  /** Every event of `es` is offered by the screen mounted when it happens. */
  predicate OfferedRun(a: App, es: seq<UiEvent>)
    decreases |es|
  {
    if es == [] then true else Offered(a, es[0]) && OfferedRun(Step(a, es[0]), es[1..])
  }

  /** The only status changes: start to playing, playing to summary, summary to playing. */
  predicate Edge(from: GameStatus, to: GameStatus) {
    from == to
    || (from == Start && to == Playing)
    || (from == Playing && to == Summary)
    || (from == Summary && to == Playing)
  }

  /** What holds on every screen: consistent statistics; the start screen shows
      no shots and the full time; while playing between 1 and 60 seconds remain;
      the summary follows a countdown that reached 0. */
  predicate Inv(a: App) {
    && Stats.Consistent(a.stats)
    && (a.status == Start ==> a.stats.totalShots == 0 && a.timer == GameDuration)
    && (a.status == Playing ==> 1 <= a.timer <= GameDuration)
    && (a.status == Summary ==> a.timer == 0)
  }

  /** An offered event keeps the invariant and takes one of the allowed edges;
      the summary is reached only by the second that ran the countdown out,
      and playing is entered only with reset statistics and full time. */
  lemma StepKeepsInv(a: App, e: UiEvent)
    requires Inv(a) && Offered(a, e)
    ensures Inv(Step(a, e))
    ensures Edge(a.status, Step(a, e).status)
    ensures a.status != Summary && Step(a, e).status == Summary ==> e == SecondElapsed && a.timer == 1
    ensures a.status != Playing && Step(a, e).status == Playing ==>
      Step(a, e).stats == Stats.Fresh && Step(a, e).timer == GameDuration
  {
    match e
    case StartClicked =>
    case RestartClicked =>
    case ShotReported(s) =>
      if s.Hit? {
        assert Step(a, e).stats == Stats.RecordHit(a.stats, s.reactionTime);
      } else {
        assert Step(a, e).stats == Stats.RecordMiss(a.stats);
      }
    case SecondElapsed =>
  }

  /** A state on which the invariant holds, with a run of offered events ahead. */
  predicate Ready(a: App, es: seq<UiEvent>) {
    Inv(a) && OfferedRun(a, es)
  }

  /** Taking the first offered event of a run leaves a ready state with the rest
      of the run ahead, and the same final state. */
  lemma ReadyAdvances(a: App, es: seq<UiEvent>)
    requires es != [] && Ready(a, es)
    ensures Ready(Step(a, es[0]), es[1..])
    ensures Run(a, es) == Run(Step(a, es[0]), es[1..])
  {
    StepKeepsInv(a, es[0]);
  }

  /** Every run of offered events keeps the invariant. */
  lemma {:induction false} RunKeepsInv(a: App, es: seq<UiEvent>)
    requires Ready(a, es)
    ensures Inv(Run(a, es))
    decreases |es|
  {
    if es != [] {
      ReadyAdvances(a, es);
      RunKeepsInv(Step(a, es[0]), es[1..]);
    }
  }

  /** From the first render, every run of offered events keeps the invariant. */
  lemma BootRunsKeepInv(es: seq<UiEvent>)
    requires OfferedRun(Boot, es)
    ensures Inv(Run(Boot, es))
  {
    RunKeepsInv(Boot, es);
  }

  function Seconds(k: nat): seq<UiEvent> {
    seq(k, _ => SecondElapsed)
  }

  /** A session lasts exactly its remaining seconds: after `k` seconds with
      `k < timer` it is still playing with `timer - k` left, and the second
      number `timer` shows the summary at 0 with the statistics untouched. */
  lemma {:induction false} PlayingLastsTimer(a: App, k: nat)
    requires a.status == Playing && 1 <= a.timer && k <= a.timer
    ensures OfferedRun(a, Seconds(k))
    ensures k < a.timer ==> Run(a, Seconds(k)) == a.(timer := a.timer - k)
    ensures k == a.timer ==> Run(a, Seconds(k)) == App(Summary, a.stats, 0)
    decreases k
  {
    if k > 0 {
      assert Seconds(k)[1..] == Seconds(k - 1);
      if a.timer == 1 {
        assert Run(a, Seconds(k)) == Run(App(Summary, a.stats, 0), Seconds(0));
      } else {
        PlayingLastsTimer(OnSecond(a), k - 1);
      }
    }
  }
}
