/** The records shared by the game container and the canvas: targets, particles,
    session statistics, the screen status and the shot events the canvas reports.
    Numbers that are fractional in the game (positions, times, opacity) are ideal
    reals; counters are naturals. */
module Types {

  datatype Option<+T> = None | Some(value: T)

  /** A value `Math.random()` can return. */
  predicate UnitDraw(r: real) {
    0.0 <= r < 1.0
  }

  /** A clickable circle. `id` is the wall-clock reading at spawn and `spawnTime`
      the monotonic-clock reading reaction times are measured from. */
  datatype Target = Target(id: int, x: real, y: real, radius: real, spawnTime: real)

  /** Which screen is mounted. */
  datatype GameStatus = Start | Playing | Summary

  /** Cumulative counters of one session and its reaction-time samples, oldest first. */
  datatype GameStats = GameStats(hits: nat, misses: nat, totalShots: nat, reactionTimes: seq<real>)

  /** One spark of a hit burst: position, velocity, radius, opacity and fill colour. */
  datatype Particle = Particle(x: real, y: real, radius: real, vx: real, vy: real, alpha: real, color: string)

  /** What the canvas reports to its host for one primary-button press:
      a hit carrying its reaction time in milliseconds, or a miss. */
  datatype Shot = Hit(reactionTime: real) | Miss
}
