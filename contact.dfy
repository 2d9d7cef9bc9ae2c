/** Contact monitor: the bumper's press and release events. */
module Contact {
  import opened RobotState

  /** The event's `state` value for a pressed bumper. */
  const Pressed: uint8 := 1

  /** A press latches the bumper and raises the obstacle flag; any other value only unlatches the bumper. */
  function AfterBumper(c: CoreState, bumperState: uint8): (r: CoreState)
    ensures r.(bumperFlag := c.bumperFlag, obstacleFoundFlag := c.obstacleFoundFlag) == c
    ensures BumperImpliesObstacle(r)
  {
    if bumperState == Pressed then c.(bumperFlag := true, obstacleFoundFlag := true)
    else c.(bumperFlag := false)
  }

  lemma BumperVerdict(c: CoreState, bumperState: uint8)
    ensures bumperState == 1 ==> AfterBumper(c, bumperState).bumperFlag && AfterBumper(c, bumperState).obstacleFoundFlag
    ensures bumperState != 1 ==> !AfterBumper(c, bumperState).bumperFlag
    ensures bumperState != 1 ==> AfterBumper(c, bumperState).obstacleFoundFlag == c.obstacleFoundFlag
  {
  }
}
