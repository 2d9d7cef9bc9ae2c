/** The node's shared globals, as one value, and the fixed-width integer types they use. */
module RobotState {

  /** An unsigned 8-bit integer, the type of the bumper event's `state` field. */
  newtype uint8 = x: int | 0 <= x < 0x100

  /** An unsigned 16-bit integer, the type of `state` and `goal_blob_area`. */
  newtype uint16 = x: int | 0 <= x < 0x1_0000

  /** Conversion of an integer into a 16-bit unsigned field: the value modulo 2^16. */
  function Wrap16(x: int): (r: uint16)
    ensures r as int == x % 0x1_0000
  {
    (x % 0x1_0000) as uint16
  }

  /** Wrapping after each addition is wrapping once at the end. */
  lemma WrapAccumulates(x: int, a: int)
    ensures Wrap16(x % 0x1_0000 + a) == Wrap16(x + a)
  {
    var q := x / 0x1_0000;
    assert x == q * 0x1_0000 + x % 0x1_0000;
    assert x + a == q * 0x1_0000 + (x % 0x1_0000 + a);
  }

  /** Image size in pixels, as the node's float constants. */
  const ImageWidth: real := 640.0
  const ImageHeight: real := 480.0

  /** The six globals the handlers and the control loop share. */
  datatype CoreState = CoreState(
    state: uint16,
    goalFoundFlag: bool,
    obstacleFoundFlag: bool,
    bumperFlag: bool,
    goalBlobArea: uint16,
    goalX: real)

  /** Values at process start: searching, nothing seen, nothing touched. */
  const Initial: CoreState := CoreState(0, false, false, false, 0, 0.0)

  /** A latched bumper always counts as an obstacle. */
  predicate BumperImpliesObstacle(c: CoreState)
  {
    c.bumperFlag ==> c.obstacleFoundFlag
  }

  /** The states the control loop ever assigns: searching, approaching, avoiding, arrived. */
  predicate KnownState(c: CoreState)
  {
    c.state <= 3
  }
}
