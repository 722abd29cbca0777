/**
 * Perimeter geometry (src/main.rs:62-145).
 *
 * A rixel is a position along the playfield's perimeter, measured clockwise
 * from the top-left corner: [0, L) is the North edge, [L, 2L) East,
 * [2L, 3L) South and [3L, 4L) West, where L is the field's edge length.
 */
module Perimeter {
  import opened Consts
  import opened Geometry

  datatype Direction = North | East | South | West

  datatype Error = ObstacleRixelOutOfBounds(rixel: real)

  datatype Result<T> = Ok(value: T) | Err(error: Error)

  /** The side with index k, counting clockwise from North = 0. */
  function SideOf(k: int): Direction
    requires 0 <= k < 4
  {
    if k == 0 then North else if k == 1 then East else if k == 2 then South else West
  }

  function OppositeDirection(d: Direction): Direction {
    match d
    case North => South
    case East => West
    case South => North
    case West => East
  }

  /** Rounds towards zero. */
  function Trunc(x: real): int {
    if x >= 0.0 then x.Floor else -((-x).Floor)
  }

  /** Comparing a quotient with q is comparing the dividend with q * m. */
  lemma DivBounds(x: real, m: real, q: real)
    requires m > 0.0
    ensures q <= x / m <==> q * m <= x
    ensures q < x / m <==> q * m < x
    ensures x / m < q <==> x < q * m
    ensures x / m <= q <==> x <= q * m
  {
    assert (x / m) * m == x;
    if q <= x / m {
      MulNonnegative(x / m - q, m);
    } else {
      MulNonnegative(q - x / m, m);
    }
  }

  lemma MulNonnegative(a: real, b: real)
    requires 0.0 <= a && 0.0 <= b
    ensures 0.0 <= a * b
  {
  }

  /** The remainder of the float `%` operator: truncated division, the sign follows `x`. */
  function FRem(x: real, m: real): (r: real)
    requires m > 0.0
    ensures 0.0 <= x ==> 0.0 <= r < m
    ensures x < 0.0 ==> -m < r <= 0.0
  {
    var q := Trunc(x / m) as real;
    DivBounds(x, m, q);
    DivBounds(x, m, q + 1.0);
    DivBounds(x, m, q - 1.0);
    x - q * m
  }

  /** On [k*m, (k+1)*m) the remainder is the offset from k*m. */
  lemma FRemOnSide(x: real, m: real, k: int)
    requires m > 0.0 && 0 <= k
    requires (k as real) * m <= x < (k as real + 1.0) * m
    ensures FRem(x, m) == x - (k as real) * m
  {
    DivBounds(x, m, k as real);
    DivBounds(x, m, k as real + 1.0);
    assert 0.0 <= k as real <= x / m < k as real + 1.0;
    assert (x / m).Floor == k;
    assert Trunc(x / m) == k;
  }

  /** `rixel` lies strictly inside side k, away from both of its corners. */
  predicate InSide(rixel: real, k: int) {
    (k as real) * FieldEdgeLength < rixel < (k as real + 1.0) * FieldEdgeLength
  }

  /** A rixel on a corner of the field. */
  predicate OnCorner(rixel: real) {
    FRem(rixel, FieldEdgeLength) == 0.0
  }

  function RixelsToNextCorner(rixel: real): (r: real)
    ensures 0.0 <= rixel ==> 0.0 < r <= FieldEdgeLength
    ensures 0.0 <= rixel && !OnCorner(rixel) ==> r < FieldEdgeLength
    ensures OnCorner(rixel) ==> r == FieldEdgeLength
  {
    FieldEdgeLength - FRem(rixel, FieldEdgeLength)
  }

  /** From a rixel on side `k` (counted clockwise from North), the distance to the
      next corner lands exactly on the corner that ends that side. */
  lemma NextCornerOnSide(rixel: real, k: int)
    requires 0 <= k && (k as real) * FieldEdgeLength <= rixel < (k as real + 1.0) * FieldEdgeLength
    ensures rixel + RixelsToNextCorner(rixel) == (k as real + 1.0) * FieldEdgeLength
  {
    FRemOnSide(rixel, FieldEdgeLength, k);
  }

  /** The side of the field a rixel is on. Only the North test has a lower bound,
      so 0 and every negative rixel are classified as East. */
  function RixelToDirection(rixel: real): (r: Result<Direction>)
    ensures r == Ok(North) <==> 0.0 < rixel < FieldEdgeLength
    ensures r == Ok(East) <==> rixel <= 0.0 || FieldEdgeLength <= rixel < 2.0 * FieldEdgeLength
    ensures r == Ok(South) <==> 2.0 * FieldEdgeLength <= rixel < 3.0 * FieldEdgeLength
    ensures r == Ok(West) <==> 3.0 * FieldEdgeLength <= rixel < 4.0 * FieldEdgeLength
    ensures r.Err? <==> 4.0 * FieldEdgeLength <= rixel
    ensures r.Err? ==> r.error == ObstacleRixelOutOfBounds(rixel)
  {
    if rixel > 0.0 && rixel < FieldEdgeLength then Ok(North)
    else if rixel < FieldEdgeLength * 2.0 then Ok(East)
    else if rixel < FieldEdgeLength * 3.0 then Ok(South)
    else if rixel < FieldEdgeLength * 4.0 then Ok(West)
    else Err(ObstacleRixelOutOfBounds(rixel))
  }

  /** Every point strictly inside side k is classified as side k. */
  lemma DirectionInSide(rixel: real, k: int)
    requires 0 <= k < 4 && InSide(rixel, k)
    ensures RixelToDirection(rixel) == Ok(SideOf(k))
    ensures FRem(rixel, FieldEdgeLength) == rixel - (k as real) * FieldEdgeLength
  {
    FRemOnSide(rixel, FieldEdgeLength, k);
  }

  /**
   * The rectangle of a shape entering the field from `rixel`: its long axis
   * (`length`) points inwards and its inward edge has travelled `distance`
   * from the perimeter; `width` runs along the perimeter, centred on the rixel.
   */
  function PositioningToRectangle(rixel: real, distance: real, length: real, width: real): (r: Result<Rect>)
    ensures r.Err? <==> rixel >= 4.0 * FieldEdgeLength
    ensures r.Err? ==> r.error == ObstacleRixelOutOfBounds(rixel)
  {
    match RixelToDirection(rixel)
    case Err(e) => Err(e)
    case Ok(dir) =>
      var distanceBack := FieldEdgeLength - RixelsToNextCorner(rixel);
      var pos := match dir
        case North => Vec2(rixel - width / 2.0, -length + distance)
        case East => Vec2(FieldEdgeLength - distance, rixel - FieldEdgeLength - width / 2.0)
        case South => Vec2(rixel - distanceBack * 2.0 - FieldEdgeLength - width / 2.0, FieldEdgeLength - distance)
        case West => Vec2(-length + distance, FieldEdgeLength * 4.0 - rixel - width / 2.0);
      var size := match dir
        case North => Vec2(width, length)
        case South => Vec2(width, length)
        case East => Vec2(length, width)
        case West => Vec2(length, width);
      Ok(Rect(pos, size))
  }

  /** Where the positioned shape lies, side by side: its size, the edge facing
      the field's interior, and its centre along the side. */
  lemma PositioningShape(rixel: real, distance: real, length: real, width: real)
    ensures var r := PositioningToRectangle(rixel, distance, length, width);
      RixelToDirection(rixel) == Ok(North) ==>
      r.Ok? && r.value.size == Vec2(width, length) &&
      r.value.Bottom() == distance && r.value.Center().x == rixel
    ensures var r := PositioningToRectangle(rixel, distance, length, width);
      RixelToDirection(rixel) == Ok(East) ==>
      r.Ok? && r.value.size == Vec2(length, width) &&
      r.value.pos.x == FieldEdgeLength - distance && r.value.Center().y == rixel - FieldEdgeLength
    ensures var r := PositioningToRectangle(rixel, distance, length, width);
      RixelToDirection(rixel) == Ok(South) ==>
      r.Ok? && r.value.size == Vec2(width, length) &&
      r.value.pos.y == FieldEdgeLength - distance && r.value.Center().x == 3.0 * FieldEdgeLength - rixel
    ensures var r := PositioningToRectangle(rixel, distance, length, width);
      RixelToDirection(rixel) == Ok(West) ==>
      r.Ok? && r.value.size == Vec2(length, width) &&
      r.value.Right() == distance && r.value.Center().y == 4.0 * FieldEdgeLength - rixel
  {
    if RixelToDirection(rixel) == Ok(South) {
      FRemOnSide(rixel, FieldEdgeLength, 2);
    }
  }

  /** The playfield in its own coordinates. */
  const Field: Rect := Rect(Vec2(0.0, 0.0), Vec2(FieldEdgeLength, FieldEdgeLength))

  /** How far the inward edge of a shape entering from side `d` is from that side. */
  function LeadingEdge(r: Rect, d: Direction): real {
    match d
    case North => r.Bottom()
    case East => FieldEdgeLength - r.pos.x
    case South => FieldEdgeLength - r.pos.y
    case West => r.Right()
  }

  /** The extent of a shape entering from side `d`, measured inwards. */
  function InwardExtent(r: Rect, d: Direction): real {
    match d
    case North => r.size.y
    case South => r.size.y
    case East => r.size.x
    case West => r.size.x
  }

  /** The centre of a shape entering from side `d`, measured along that side's axis. */
  function CrossCentre(r: Rect, d: Direction): real {
    match d
    case North => r.Center().x
    case South => r.Center().x
    case East => r.Center().y
    case West => r.Center().y
  }

  /** Read back through the side it enters from, a positioned shape has travelled
      `distance` inwards and extends `length` inwards. */
  lemma PositioningReach(rixel: real, distance: real, length: real, width: real)
    requires rixel < 4.0 * FieldEdgeLength
    ensures var d := RixelToDirection(rixel).value;
            var r := PositioningToRectangle(rixel, distance, length, width).value;
            LeadingEdge(r, d) == distance && InwardExtent(r, d) == length
  {
    PositioningShape(rixel, distance, length, width);
  }

  /** The mirrored perimeter point: North <-> South keeping x, East <-> West keeping y. */
  function Opposite(rixel: real): (r: real)
    ensures 0.0 <= rixel ==> 0.0 <= r < 4.0 * FieldEdgeLength
  {
    var toNextCorner := RixelsToNextCorner(rixel);
    FRem(rixel + toNextCorner + FieldEdgeLength + toNextCorner, FieldEdgeLength * 4.0)
  }

  /** Away from the corners, the opposite of a point on side k lies on side k+2,
      at the mirrored offset. */
  lemma OppositeInSide(rixel: real, k: int)
    requires 0 <= k < 4 && InSide(rixel, k)
    ensures Opposite(rixel) == (((k + 2) % 4) as real) * FieldEdgeLength + ((k as real + 1.0) * FieldEdgeLength - rixel)
    ensures InSide(Opposite(rixel), (k + 2) % 4)
    ensures RixelToDirection(Opposite(rixel)) == Ok(OppositeDirection(SideOf(k)))
  {
    var L := FieldEdgeLength;
    DirectionInSide(rixel, k);
    var mirrored := (k as real + 1.0) * L - rixel;
    assert RixelsToNextCorner(rixel) == mirrored;
    var arg := rixel + mirrored + L + mirrored;
    assert arg == (k as real + 2.0) * L + mirrored;
    var o := (((k + 2) % 4) as real) * L + mirrored;
    if k < 2 {
      FRemOnSide(arg, 4.0 * L, 0);
      assert Opposite(rixel) == o;
    } else {
      FRemOnSide(arg, 4.0 * L, 1);
      assert Opposite(rixel) == o;
    }
    DirectionInSide(o, (k + 2) % 4);
  }

  /** The distance from the corner that starts the rixel's side, for a rixel in
      [0, 4L): the float remainder by L, written out side by side. */
  function SideOffset(rixel: real): real {
    if rixel < FieldEdgeLength then rixel
    else if rixel < 2.0 * FieldEdgeLength then rixel - FieldEdgeLength
    else if rixel < 3.0 * FieldEdgeLength then rixel - 2.0 * FieldEdgeLength
    else rixel - 3.0 * FieldEdgeLength
  }

  lemma SideOffsetIsFRem(rixel: real)
    requires 0.0 <= rixel < 4.0 * FieldEdgeLength
    ensures SideOffset(rixel) == FRem(rixel, FieldEdgeLength)
  {
    var k := if rixel < FieldEdgeLength then 0 else if rixel < 2.0 * FieldEdgeLength then 1
             else if rixel < 3.0 * FieldEdgeLength then 2 else 3;
    FRemOnSide(rixel, FieldEdgeLength, k);
  }

  /** A rixel in [0, 4L) that is not a corner lies strictly inside exactly the side
      its integer part names. */
  lemma SideIndexOf(rixel: real) returns (k: int)
    requires 0.0 <= rixel < 4.0 * FieldEdgeLength && !OnCorner(rixel)
    ensures 0 <= k < 4 && InSide(rixel, k)
  {
    k := (rixel / FieldEdgeLength).Floor;
    FRemOnSide(rixel, FieldEdgeLength, k);
  }

  /** Mirroring twice returns the original point (away from the corners). */
  lemma OppositeInvolutive(rixel: real)
    requires 0.0 <= rixel < 4.0 * FieldEdgeLength && !OnCorner(rixel)
    ensures Opposite(Opposite(rixel)) == rixel
  {
    var k := SideIndexOf(rixel);
    OppositeInSide(rixel, k);
    OppositeInSide(Opposite(rixel), (k + 2) % 4);
  }

  /** The mirrored point lines up with the original one: shapes positioned at the
      two points share their centre on the axis running along the two sides. */
  lemma OppositeAligned(rixel: real, d1: real, l1: real, d2: real, l2: real, width: real)
    requires 0.0 <= rixel < 4.0 * FieldEdgeLength && !OnCorner(rixel)
    ensures var a := PositioningToRectangle(rixel, d1, l1, width);
            var b := PositioningToRectangle(Opposite(rixel), d2, l2, width);
            && a.Ok? && b.Ok?
            && (RixelToDirection(rixel) == Ok(North) || RixelToDirection(rixel) == Ok(South) ==>
                  a.value.Center().x == b.value.Center().x)
            && (RixelToDirection(rixel) == Ok(East) || RixelToDirection(rixel) == Ok(West) ==>
                  a.value.Center().y == b.value.Center().y)
  {
    var k := SideIndexOf(rixel);
    OppositeInSide(rixel, k);
    DirectionInSide(rixel, k);
    PositioningShape(rixel, d1, l1, width);
    PositioningShape(Opposite(rixel), d2, l2, width);
  }

  /** On a corner the mirror is not an involution: corner k maps to corner k+3,
      so applying it twice moves the point by half the perimeter. */
  lemma OppositeOfCorner(k: int)
    requires 0 <= k < 4
    ensures Opposite((k as real) * FieldEdgeLength) == (((k + 3) % 4) as real) * FieldEdgeLength
  {
    var r := (k as real) * FieldEdgeLength;
    FRemOnSide(r, FieldEdgeLength, k);
    assert RixelsToNextCorner(r) == FieldEdgeLength;
    if k < 1 {
      FRemOnSide(r + 3.0 * FieldEdgeLength, 4.0 * FieldEdgeLength, 0);
    } else {
      FRemOnSide(r + 3.0 * FieldEdgeLength, 4.0 * FieldEdgeLength, 1);
    }
  }

  /** The top-left corner is mirrored to the bottom-left one and back to the
      bottom-right one, not to itself. */
  lemma OppositeTwiceAtOrigin()
    ensures Opposite(0.0) == 3.0 * FieldEdgeLength
    ensures Opposite(Opposite(0.0)) == 2.0 * FieldEdgeLength
  {
    OppositeOfCorner(0);
    OppositeOfCorner(3);
  }
}
