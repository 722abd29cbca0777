/**
 * Obstacles (src/main.rs:36-151) and the warning line drawn for each of them
 * (src/main.rs:212-243).
 *
 * An obstacle enters the field from a fixed rixel and is driven by one scalar,
 * its `lifetime`, which the game advances by one per tick: negative lifetimes
 * are the warning phase, [0, TotalLifetime] the time it crosses the field,
 * and beyond that only its receding warning line remains.
 */
module Obstacles {
  import opened Consts
  import opened Geometry
  import opened Perimeter

  datatype Obstacle = Obstacle(rixel: real, speed: real, width: real, length: real, lifetime: real)

  /** The random draws of a spawn: a width in [6, 14), a side index in 0..3, and an
      offset along that side that keeps the whole width on the edge. */
  datatype SpawnDraw = SpawnDraw(width: real, side: int, offset: real)

  predicate DrawInRange(d: SpawnDraw) {
    && 6.0 <= d.width < 14.0
    && 0 <= d.side < 4
    && d.width / 2.0 <= d.offset < FieldEdgeLength - d.width / 2.0
  }

  /** The shape every spawned obstacle keeps for its whole life. */
  predicate WellFormed(o: Obstacle) {
    && o.speed == 3.0
    && o.length == 300.0
    && 6.0 <= o.width < 14.0
    && 0.0 <= o.rixel < 4.0 * FieldEdgeLength
    && o.width / 2.0 <= SideOffset(o.rixel) < FieldEdgeLength - o.width / 2.0
    && o.lifetime >= -ObstaclePreSpawnWarnTime
  }

  /** A new obstacle, waiting in its warning phase on side `d.side`. */
  function Spawn(d: SpawnDraw): (o: Obstacle)
    requires DrawInRange(d)
    ensures WellFormed(o)
    ensures RixelToDirection(o.rixel) == Ok(SideOf(d.side))
    ensures o.width == d.width
    ensures o.lifetime == -ObstaclePreSpawnWarnTime
  {
    var corner := FieldEdgeLength * (d.side as real);
    var rixel := corner + d.offset;
    DirectionInSide(rixel, d.side);
    Obstacle(rixel, 3.0, d.width, 300.0, -ObstaclePreSpawnWarnTime)
  }

  /** A well-formed obstacle sits strictly inside one side, away from the corners. */
  lemma WellFormedSide(o: Obstacle) returns (k: int)
    requires WellFormed(o)
    ensures 0 <= k < 4 && InSide(o.rixel, k) && !OnCorner(o.rixel)
    ensures RixelToDirection(o.rixel) == Ok(SideOf(k))
    ensures FRem(o.rixel, FieldEdgeLength) == o.rixel - (k as real) * FieldEdgeLength
  {
    SideOffsetIsFRem(o.rixel);
    k := SideIndexOf(o.rixel);
    DirectionInSide(o.rixel, k);
  }

  /** The lifetime at which the obstacle's trailing edge leaves the field. */
  function TotalLifetime(o: Obstacle): (t: real)
    requires o.speed > 0.0
    ensures t * o.speed == FieldEdgeLength + o.length
  {
    (FieldEdgeLength + o.length) / o.speed
  }

  /** How far the leading edge has travelled into the field: the travelled
      distance, capped at the far edge. */
  function Distance(o: Obstacle): (d: real)
    ensures d <= FieldEdgeLength && d <= o.lifetime * o.speed
    ensures d == FieldEdgeLength || d == o.lifetime * o.speed
  {
    if o.lifetime * o.speed > FieldEdgeLength then FieldEdgeLength else o.lifetime * o.speed
  }

  /** The length of the part of the obstacle that is inside the field. */
  function VisibleLength(o: Obstacle): (r: real)
    requires o.speed > 0.0
    ensures 0.0 <= o.length ==> r <= o.length
    ensures o.lifetime < 0.0 || o.lifetime > TotalLifetime(o) ==> r == 0.0
  {
    if o.lifetime < 0.0 || o.lifetime > TotalLifetime(o) then 0.0
    else if o.lifetime * o.speed < o.length then o.lifetime * o.speed
    else if o.lifetime * o.speed > FieldEdgeLength then o.length - (o.lifetime * o.speed - FieldEdgeLength)
    else o.length
  }

  /** Comparisons of the lifetime are comparisons of the travelled distance. */
  lemma TravelBounds(o: Obstacle)
    requires o.speed > 0.0
    ensures 0.0 <= o.lifetime <==> 0.0 <= o.lifetime * o.speed
    ensures 0.0 < o.lifetime <==> 0.0 < o.lifetime * o.speed
    ensures o.lifetime <= TotalLifetime(o) <==> o.lifetime * o.speed <= FieldEdgeLength + o.length
    ensures o.lifetime < TotalLifetime(o) <==> o.lifetime * o.speed < FieldEdgeLength + o.length
  {
    DivBounds(0.0, o.speed, o.lifetime);
    DivBounds(FieldEdgeLength + o.length, o.speed, o.lifetime);
  }

  /**
   * The visible length grows, stays, then shrinks: inside [0, TotalLifetime] it is
   * the least of the travelled distance, the nominal length and what is left to
   * travel, so it is continuous, stays within [0, length] and is 0 at both ends.
   */
  lemma VisibleLengthPhases(o: Obstacle)
    requires o.speed > 0.0 && 0.0 <= o.length <= FieldEdgeLength
    ensures 0.0 <= VisibleLength(o) <= o.length
    ensures o.lifetime < 0.0 || o.lifetime > TotalLifetime(o) ==> VisibleLength(o) == 0.0
    ensures 0.0 <= o.lifetime <= TotalLifetime(o) ==>
      VisibleLength(o) == Min(Min(o.lifetime * o.speed, o.length),
                              FieldEdgeLength + o.length - o.lifetime * o.speed)
    ensures o.lifetime == 0.0 || o.lifetime == TotalLifetime(o) ==> VisibleLength(o) == 0.0
    ensures 0.0 < o.lifetime < TotalLifetime(o) && 0.0 < o.length ==> 0.0 < VisibleLength(o)
  {
    TravelBounds(o);
  }

  /** The obstacle's current rectangle. An out-of-bounds rixel makes the source
      panic here, so the model requires it away. */
  function Body(o: Obstacle): Rect
    requires o.rixel < 4.0 * FieldEdgeLength && o.speed > 0.0
  {
    PositioningToRectangle(o.rixel, Distance(o), VisibleLength(o), o.width).value
  }

  /** Read back through the obstacle's side, its body has travelled Distance
      inwards and extends VisibleLength inwards. */
  lemma BodyReach(o: Obstacle)
    requires o.rixel < 4.0 * FieldEdgeLength && o.speed > 0.0
    ensures var dir := RixelToDirection(o.rixel).value;
            LeadingEdge(Body(o), dir) == Distance(o) && InwardExtent(Body(o), dir) == VisibleLength(o)
  {
    PositioningReach(o.rixel, Distance(o), VisibleLength(o), o.width);
  }

  /** While it crosses the field, an obstacle's body lies inside the field. */
  lemma BodyInsideField(o: Obstacle)
    requires WellFormed(o) && 0.0 <= o.lifetime <= TotalLifetime(o)
    ensures Field.Contains(Body(o))
  {
    var k := WellFormedSide(o);
    VisibleLengthPhases(o);
    TravelBounds(o);
    BodyReach(o);
  }

  /** How far the warning line reaches into the field: it grows from the spawn
      side, stays at full length while the obstacle crosses, then recedes. */
  function WarningReach(o: Obstacle): (r: real)
    requires o.speed > 0.0
    ensures r <= FieldEdgeLength
  {
    if o.lifetime < 0.0 then
      Min(FieldEdgeLength, ObstacleWarningMoveSpeed * (o.lifetime + ObstaclePreSpawnWarnTime))
    else if o.lifetime - TotalLifetime(o) < ObstacleHideDelay then
      FieldEdgeLength
    else
      FieldEdgeLength - Max((o.lifetime - ObstacleHideDelay - TotalLifetime(o)) * ObstacleWarningMoveSpeed, 0.0)
  }

  /** The perimeter point the warning line starts from: the obstacle's own rixel,
      and its mirror once the line recedes. */
  function WarningRixel(o: Obstacle): (r: real)
    requires o.speed > 0.0
    ensures 0.0 <= o.rixel < 4.0 * FieldEdgeLength ==> 0.0 <= r < 4.0 * FieldEdgeLength
  {
    if o.lifetime < 0.0 || o.lifetime - TotalLifetime(o) < ObstacleHideDelay then o.rixel
    else Opposite(o.rixel)
  }

  /** The warning line drawn for an obstacle. */
  function WarningLine(o: Obstacle): (r: Result<Rect>)
    requires o.speed > 0.0
    ensures r.Ok? <==> WarningRixel(o) < 4.0 * FieldEdgeLength
  {
    PositioningToRectangle(WarningRixel(o), WarningReach(o), WarningReach(o), ObstacleWarningWidth)
  }

  /** For a spawned obstacle the warning line always exists; it enters from the
      obstacle's side, and from the opposite side once it recedes. */
  lemma WarningLineSide(o: Obstacle)
    requires WellFormed(o)
    ensures WarningLine(o).Ok?
    ensures RixelToDirection(WarningRixel(o)) ==
      if o.lifetime < 0.0 || o.lifetime - TotalLifetime(o) < ObstacleHideDelay
      then RixelToDirection(o.rixel)
      else Ok(OppositeDirection(RixelToDirection(o.rixel).value))
  {
    var k := WellFormedSide(o);
    OppositeInSide(o.rixel, k);
  }

  /** The warning line starts on the perimeter and reaches as far as WarningReach. */
  lemma WarningLineFromPerimeter(o: Obstacle)
    requires WellFormed(o)
    ensures WarningLine(o).Ok?
    ensures var dir := RixelToDirection(WarningRixel(o)).value;
            var w := WarningLine(o).value;
            LeadingEdge(w, dir) == WarningReach(o) && InwardExtent(w, dir) == WarningReach(o)
  {
    WarningLineSide(o);
    PositioningReach(WarningRixel(o), WarningReach(o), WarningReach(o), ObstacleWarningWidth);
  }

  /** The warning line is centred on the obstacle's track, in every phase. */
  lemma WarningLineAligned(o: Obstacle)
    requires WellFormed(o)
    ensures WarningLine(o).Ok?
    ensures CrossCentre(WarningLine(o).value, RixelToDirection(WarningRixel(o)).value)
         == CrossCentre(Body(o), RixelToDirection(o.rixel).value)
  {
    WarningLineSide(o);
    var k := WellFormedSide(o);
    OppositeAligned(o.rixel, Distance(o), VisibleLength(o), WarningReach(o), WarningReach(o), o.width);
  }

  /** The lifetime below which the despawn step keeps an obstacle: its crossing,
      the hide delay and the time the warning line needs to recede. */
  predicate Retained(o: Obstacle): (b: bool)
    requires o.speed > 0.0
    ensures o.lifetime <= TotalLifetime(o) + ObstacleHideDelay ==> b
  {
    o.lifetime < TotalLifetime(o) + FieldEdgeLength / ObstacleWarningMoveSpeed + ObstacleHideDelay
  }

  /** A spawned obstacle crosses the field in 800/3 ticks. */
  lemma WellFormedTotalLifetime(o: Obstacle)
    requires WellFormed(o)
    ensures TotalLifetime(o) == 800.0 / 3.0
  {
    assert TotalLifetime(o) * 3.0 == 800.0;
  }

  /**
   * The warning line's timeline: empty at spawn, full length from the end of the
   * draw time until the hide delay has passed, and receded to nothing exactly
   * when the despawn step stops retaining the obstacle.
   */
  lemma WarningReachTimeline(o: Obstacle)
    requires WellFormed(o)
    ensures Retained(o) ==> 0.0 <= WarningReach(o) <= FieldEdgeLength
    ensures Retained(o) ==> (WarningReach(o) == 0.0 <==> o.lifetime == -ObstaclePreSpawnWarnTime)
    ensures -ObstacleWarningFinishWaitTime <= o.lifetime <= TotalLifetime(o) + ObstacleHideDelay ==>
      WarningReach(o) == FieldEdgeLength
    ensures !Retained(o) ==> WarningReach(o) <= 0.0
    ensures o.lifetime == TotalLifetime(o) + ObstacleHideDelay + FieldEdgeLength / ObstacleWarningMoveSpeed ==>
      WarningReach(o) == 0.0
  {
    WellFormedTotalLifetime(o);
  }
}
