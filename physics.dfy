/**
 * Rocket motion: speed easing, damping, clamping and the integration of speed into
 * a position that stays on the canvas. The cosine the easing uses is a parameter,
 * so every property below holds whatever value it takes.
 */
module Physics {
  import opened Wrappers
  import opened Grid

  /** Speeds whose magnitude drops below this after an acceleration are cut to zero. */
  const StopThreshold: real := 0.1
  /** Scale of the cosine-shaped speed increment. */
  const AccelerationScale: real := 0.75
  /** The speed limits and damping `calculate_rocket_move` uses. */
  const DefaultSpeedLimit: real := 2.0
  const DefaultFading: real := 0.8

  /** `_limit`: the value clamped into [minValue, maxValue], the lower bound checked first. */
  function Limit(value: real, minValue: real, maxValue: real): (r: real)
    ensures r == value || r == minValue || r == maxValue
    ensures minValue <= maxValue ==> minValue <= r <= maxValue
    ensures minValue <= value <= maxValue ==> r == value
  {
    if value < minValue then minValue
    else if value > maxValue then maxValue
    else value
  }

  /** Clamping twice is clamping once. */
  lemma LimitIsIdempotent(value: real, minValue: real, maxValue: real)
    requires minValue <= maxValue
    ensures Limit(Limit(value, minValue, maxValue), minValue, maxValue) == Limit(value, minValue, maxValue)
  {
  }

  /** Clamping preserves order. */
  lemma LimitIsMonotone(v: real, w: real, minValue: real, maxValue: real)
    requires minValue <= maxValue && v <= w
    ensures Limit(v, minValue, maxValue) <= Limit(w, minValue, maxValue)
  {
  }

  /**
   * `_apply_acceleration`: add (or subtract, when braking) `cos(speed / |limit|) * 0.75`,
   * clamp to [-|limit|, |limit|] and cut magnitudes below the threshold to zero.
   */
  function ApplyAcceleration(speed: real, speedLimit: real, forward: bool, cos: real -> real): (r: real)
    requires speedLimit != 0.0
    ensures Abs(r) <= Abs(speedLimit)
    ensures r == 0.0 || Abs(r) >= StopThreshold
  {
    var limit := Abs(speedLimit);
    var delta := cos(speed / limit) * AccelerationScale;
    var resultSpeed := if forward then speed + delta else speed - delta;
    var clamped := Limit(resultSpeed, -limit, limit);
    if Abs(clamped) < StopThreshold then 0.0 else clamped
  }

  /**
   * While the cosine is non-negative (as the real cosine is on [-1, 1], where the speed
   * fraction lies for a speed within the limit), a force never pushes the speed against
   * its own direction; the only loss is a creep below the threshold, which stops.
   */
  lemma AccelerationFollowsForce(speed: real, speedLimit: real, forward: bool, cos: real -> real)
    requires speedLimit != 0.0
    requires -Abs(speedLimit) <= speed <= Abs(speedLimit)
    requires cos(speed / Abs(speedLimit)) >= 0.0
    ensures forward ==> ApplyAcceleration(speed, speedLimit, forward, cos) >= speed || 0.0 < speed < StopThreshold
    ensures !forward ==> ApplyAcceleration(speed, speedLimit, forward, cos) <= speed || -StopThreshold < speed < 0.0
  {
  }

  /** A force direction on one axis: -1, 0 or 1. */
  predicate IsDirection(d: int) {
    d == -1 || d == 0 || d == 1
  }

  /** The exceptions `update_speed` raises. */
  datatype SpeedError =
    | WrongRowsDirection(rowsDirection: int)
    | WrongColumnsDirection(columnsDirection: int)
    | WrongFading(fading: real)
    | ZeroSpeedLimit  // division by a zero limit on an axis that is accelerated

  /** The rocket's speed along rows and along columns. */
  datatype Speed = Speed(row: real, column: real)

  /**
   * `update_speed`: check the arguments, damp both speeds by `fading`, then accelerate
   * the axes that carry a force. An axis without force is only damped.
   */
  function UpdateSpeed(rowSpeed: real, columnSpeed: real, rowsDirection: int, columnsDirection: int,
                       cos: real -> real,
                       rowSpeedLimit: real := DefaultSpeedLimit, columnSpeedLimit: real := DefaultSpeedLimit,
                       fading: real := DefaultFading): (r: Result<Speed, SpeedError>)
    ensures !IsDirection(rowsDirection) ==> r == Err(WrongRowsDirection(rowsDirection))
    ensures IsDirection(rowsDirection) && !IsDirection(columnsDirection) ==>
      r == Err(WrongColumnsDirection(columnsDirection))
    ensures IsDirection(rowsDirection) && IsDirection(columnsDirection) && !(0.0 <= fading <= 1.0) ==>
      r == Err(WrongFading(fading))
    ensures r.Ok? <==>
      IsDirection(rowsDirection) && IsDirection(columnsDirection) && 0.0 <= fading <= 1.0 &&
      (rowsDirection != 0 ==> rowSpeedLimit != 0.0) && (columnsDirection != 0 ==> columnSpeedLimit != 0.0)
    ensures IsDirection(rowsDirection) && IsDirection(columnsDirection) && 0.0 <= fading <= 1.0 && r.Err? ==>
      r.error == ZeroSpeedLimit
    ensures r.Ok? && rowsDirection == 0 ==> r.value.row == rowSpeed * fading
    ensures r.Ok? && columnsDirection == 0 ==> r.value.column == columnSpeed * fading
    ensures r.Ok? && rowsDirection != 0 ==>
      r.value.row == ApplyAcceleration(rowSpeed * fading, rowSpeedLimit, rowsDirection > 0, cos) &&
      Abs(r.value.row) <= Abs(rowSpeedLimit) && (r.value.row == 0.0 || Abs(r.value.row) >= StopThreshold)
    ensures r.Ok? && columnsDirection != 0 ==>
      r.value.column == ApplyAcceleration(columnSpeed * fading, columnSpeedLimit, columnsDirection > 0, cos) &&
      Abs(r.value.column) <= Abs(columnSpeedLimit) && (r.value.column == 0.0 || Abs(r.value.column) >= StopThreshold)
  {
    if !IsDirection(rowsDirection) then Err(WrongRowsDirection(rowsDirection))
    else if !IsDirection(columnsDirection) then Err(WrongColumnsDirection(columnsDirection))
    else if fading < 0.0 || fading > 1.0 then Err(WrongFading(fading))
    else
      var rowDamped, columnDamped := rowSpeed * fading, columnSpeed * fading;
      var rowLimit, columnLimit := Abs(rowSpeedLimit), Abs(columnSpeedLimit);
      if rowsDirection != 0 && rowLimit == 0.0 then Err(ZeroSpeedLimit)
      else
        var newRow := if rowsDirection != 0 then ApplyAcceleration(rowDamped, rowLimit, rowsDirection > 0, cos) else rowDamped;
        if columnsDirection != 0 && columnLimit == 0.0 then Err(ZeroSpeedLimit)
        else
          var newColumn := if columnsDirection != 0 then ApplyAcceleration(columnDamped, columnLimit, columnsDirection > 0, cos) else columnDamped;
          Ok(Speed(newRow, newColumn))
  }

  /** Damping by a factor in [0, 1] never increases a magnitude. */
  lemma DampingShrinks(x: real, fading: real)
    requires 0.0 <= fading <= 1.0
    ensures Abs(x * fading) <= Abs(x)
  {
    var m := Abs(x);
    ProductIsNonNegative(m, fading);
    ProductIsNonNegative(m, 1.0 - fading);
    assert m * fading + m * (1.0 - fading) == m;
    assert x * fading == m * fading || x * fading == -(m * fading);
  }

  lemma ProductIsNonNegative(a: real, b: real)
    requires a >= 0.0 && b >= 0.0
    ensures a * b >= 0.0
  {
  }

  /** Speeds within their limits stay within them after one update, whatever the forces. */
  lemma UpdateSpeedKeepsLimits(rowSpeed: real, columnSpeed: real, rowsDirection: int, columnsDirection: int,
                               cos: real -> real, rowSpeedLimit: real, columnSpeedLimit: real, fading: real)
    requires Abs(rowSpeed) <= Abs(rowSpeedLimit) && Abs(columnSpeed) <= Abs(columnSpeedLimit)
    requires IsDirection(rowsDirection) && IsDirection(columnsDirection) && 0.0 <= fading <= 1.0
    requires rowSpeedLimit != 0.0 && columnSpeedLimit != 0.0
    ensures var r := UpdateSpeed(rowSpeed, columnSpeed, rowsDirection, columnsDirection, cos, rowSpeedLimit, columnSpeedLimit, fading);
      r.Ok? && Abs(r.value.row) <= Abs(rowSpeedLimit) && Abs(r.value.column) <= Abs(columnSpeedLimit)
  {
    DampingShrinks(rowSpeed, fading);
    DampingShrinks(columnSpeed, fading);
  }

  /**
   * The rocket's speed over successive ticks: `animate_spaceship` feeds each tick's
   * force directions and the previous speed to `update_speed` with its default limits.
   */
  function SpeedAfter(speed: Speed, forces: seq<(int, int)>, cos: real -> real): (r: Result<Speed, SpeedError>)
    ensures (forall k :: 0 <= k < |forces| ==> IsDirection(forces[k].0) && IsDirection(forces[k].1)) ==> r.Ok?
    ensures r.Err? ==> r.error.WrongRowsDirection? || r.error.WrongColumnsDirection?
    decreases |forces|
  {
    if forces == [] then Ok(speed)
    else
      match UpdateSpeed(speed.row, speed.column, forces[0].0, forces[0].1, cos)
      case Err(e) => Err(e)
      case Ok(next) => SpeedAfter(next, forces[1..], cos)
  }

  /** However the player steers, a rocket starting within the limits never exceeds them. */
  lemma {:induction false} SpeedStaysWithinLimits(speed: Speed, forces: seq<(int, int)>, cos: real -> real)
    requires Abs(speed.row) <= DefaultSpeedLimit && Abs(speed.column) <= DefaultSpeedLimit
    requires forall k :: 0 <= k < |forces| ==> IsDirection(forces[k].0) && IsDirection(forces[k].1)
    ensures SpeedAfter(speed, forces, cos).Ok?
    ensures Abs(SpeedAfter(speed, forces, cos).value.row) <= DefaultSpeedLimit
    ensures Abs(SpeedAfter(speed, forces, cos).value.column) <= DefaultSpeedLimit
    decreases |forces|
  {
    if forces != [] {
      var next := UpdateSpeed(speed.row, speed.column, forces[0].0, forces[0].1, cos);
      UpdateSpeedKeepsLimits(speed.row, speed.column, forces[0].0, forces[0].1, cos,
                             DefaultSpeedLimit, DefaultSpeedLimit, DefaultFading);
      assert forall k :: 0 <= k < |forces[1..]| ==> forces[1..][k] == forces[k + 1];
      SpeedStaysWithinLimits(next.value, forces[1..], cos);
    }
  }

  /** `fading` raised to the n-th power. */
  function Power(x: real, n: nat): real {
    if n == 0 then 1.0 else x * Power(x, n - 1)
  }

  lemma {:induction false} PowerIsPositive(x: real, n: nat)
    requires x > 0.0
    ensures Power(x, n) > 0.0
  {
    if n > 0 {
      PowerIsPositive(x, n - 1);
    }
  }

  /** n ticks without any key pressed. */
  function NoForces(n: nat): (forces: seq<(int, int)>)
    ensures |forces| == n
  {
    if n == 0 then [] else [(0, 0)] + NoForces(n - 1)
  }

  /** With no force the rocket only coasts: after n ticks each speed is scaled by 0.8^n. */
  lemma {:induction false} CoastingScalesSpeed(speed: Speed, n: nat, cos: real -> real)
    ensures SpeedAfter(speed, NoForces(n), cos).Ok?
    ensures SpeedAfter(speed, NoForces(n), cos).value ==
      Speed(speed.row * Power(DefaultFading, n), speed.column * Power(DefaultFading, n))
    decreases n
  {
    if n > 0 {
      var next := Speed(speed.row * DefaultFading, speed.column * DefaultFading);
      var forces := NoForces(n);
      assert forces[0] == (0, 0) && forces[1..] == NoForces(n - 1);
      assert UpdateSpeed(speed.row, speed.column, 0, 0, cos) == Ok(next);
      CoastingScalesSpeed(next, n - 1, cos);
    }
  }

  /** Damping alone never brings a moving rocket exactly to rest. */
  lemma CoastingNeverStops(speed: Speed, n: nat, cos: real -> real)
    ensures SpeedAfter(speed, NoForces(n), cos).Ok?
    ensures speed.row != 0.0 ==> SpeedAfter(speed, NoForces(n), cos).value.row != 0.0
    ensures speed.column != 0.0 ==> SpeedAfter(speed, NoForces(n), cos).value.column != 0.0
  {
    CoastingScalesSpeed(speed, n, cos);
    PowerIsPositive(DefaultFading, n);
  }

  /** `clip_rocket_position`: `max(min(maxPosition, position), minPosition)`. */
  function ClipRocketPosition(position: real, minPosition: real, maxPosition: real): (r: real)
    ensures r >= minPosition
    ensures minPosition <= maxPosition ==> r <= maxPosition
    ensures minPosition <= position <= maxPosition ==> r == position
  {
    Max(Min(maxPosition, position), minPosition)
  }

  /** On a proper interval clipping and `_limit` agree. */
  lemma ClipAgreesWithLimit(position: real, minPosition: real, maxPosition: real)
    requires minPosition <= maxPosition
    ensures ClipRocketPosition(position, minPosition, maxPosition) == Limit(position, minPosition, maxPosition)
  {
  }

  /** On an empty interval (a rocket larger than the canvas) clipping pins to the lower bound. */
  lemma ClipOnEmptyIntervalPinsToMinimum(position: real, minPosition: real, maxPosition: real)
    requires minPosition > maxPosition
    ensures ClipRocketPosition(position, minPosition, maxPosition) == minPosition
  {
  }

  /** A rocket's new position and speeds. */
  datatype Move = Move(position: Point, rowSpeed: real, columnSpeed: real)

  /**
   * `calculate_rocket_move`: update the speed with the default limits and damping, add it
   * to the position, and clip each coordinate so the rocket's frame stays on the canvas.
   */
  function CalculateRocketMove(rocketPosition: Point, rocketSize: Size, canvasSize: Size,
                               rowSpeed: real, columnSpeed: real, rowsDirection: int, columnsDirection: int,
                               cos: real -> real): (r: Result<Move, SpeedError>)
    ensures r.Err? <==> !IsDirection(rowsDirection) || !IsDirection(columnsDirection)
    ensures r.Err? ==> r.error == UpdateSpeed(rowSpeed, columnSpeed, rowsDirection, columnsDirection, cos).error
    ensures r.Ok? ==>
      Speed(r.value.rowSpeed, r.value.columnSpeed) == UpdateSpeed(rowSpeed, columnSpeed, rowsDirection, columnsDirection, cos).value
    ensures r.Ok? ==> r.value.position.row >= 0.0 && r.value.position.column >= 0.0
    ensures r.Ok? && rocketSize.rows <= canvasSize.rows ==>
      r.value.position.row <= (canvasSize.rows - rocketSize.rows) as real
    ensures r.Ok? && rocketSize.columns <= canvasSize.columns ==>
      r.value.position.column <= (canvasSize.columns - rocketSize.columns) as real
    ensures r.Ok? ==> var moved := rocketPosition.row + r.value.rowSpeed;
      0.0 <= moved <= (canvasSize.rows - rocketSize.rows) as real ==> r.value.position.row == moved
    ensures r.Ok? ==> var moved := rocketPosition.column + r.value.columnSpeed;
      0.0 <= moved <= (canvasSize.columns - rocketSize.columns) as real ==> r.value.position.column == moved
    ensures r.Ok? ==> var moved, wall := rocketPosition.row + r.value.rowSpeed, (canvasSize.rows - rocketSize.rows) as real;
      (moved < 0.0 || wall < 0.0 ==> r.value.position.row == 0.0) &&
      (0.0 <= wall < moved ==> r.value.position.row == wall)
    ensures r.Ok? ==> var moved, wall := rocketPosition.column + r.value.columnSpeed, (canvasSize.columns - rocketSize.columns) as real;
      (moved < 0.0 || wall < 0.0 ==> r.value.position.column == 0.0) &&
      (0.0 <= wall < moved ==> r.value.position.column == wall)
  {
    match UpdateSpeed(rowSpeed, columnSpeed, rowsDirection, columnsDirection, cos)
    case Err(e) => Err(e)
    case Ok(speed) =>
      var row := rocketPosition.row + speed.row;
      var column := rocketPosition.column + speed.column;
      var clippedColumn := ClipRocketPosition(column, 0.0, (canvasSize.columns - rocketSize.columns) as real);
      var clippedRow := ClipRocketPosition(row, 0.0, (canvasSize.rows - rocketSize.rows) as real);
      Ok(Move(Point(clippedRow, clippedColumn), speed.row, speed.column))
  }

  /** A rocket at rest on the canvas with no input stays where it is, at rest. */
  lemma RestingRocketStaysPut(rocketPosition: Point, rocketSize: Size, canvasSize: Size, cos: real -> real)
    requires 0.0 <= rocketPosition.row <= (canvasSize.rows - rocketSize.rows) as real
    requires 0.0 <= rocketPosition.column <= (canvasSize.columns - rocketSize.columns) as real
    ensures CalculateRocketMove(rocketPosition, rocketSize, canvasSize, 0.0, 0.0, 0, 0, cos) ==
      Ok(Move(rocketPosition, 0.0, 0.0))
  {
  }
}
