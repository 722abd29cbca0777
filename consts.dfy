/** Game constants (src/consts.rs). Every `f32`/`u32` constant is an exact real here. */
module Consts {
  /** Edge length L of the square playfield. */
  const FieldEdgeLength: real := 500.0

  const PlayerSpeed: real := 5.0
  const PlayerSlowmoFactor: real := 2.2
  const CollectorEdgeLength: real := 80.0

  /** Ticks the pre-spawn warning line needs to reach across the field. */
  const ObstacleWarningDrawTime: real := 20.0
  /** Ticks the full warning line stays before the obstacle enters. */
  const ObstacleWarningFinishWaitTime: real := 20.0
  const ObstaclePreSpawnWarnTime: real := ObstacleWarningDrawTime + ObstacleWarningFinishWaitTime
  const ObstacleHideDelay: real := 20.0
  const ObstacleWarningMoveSpeed: real := FieldEdgeLength / ObstacleWarningDrawTime
  const ObstacleWarningWidth: real := 1.0

  /** Size of the ring buffer of frame-rate samples. */
  const FpsGraphSampleCount: nat := 64
}
