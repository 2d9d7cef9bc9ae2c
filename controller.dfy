/** The control loop's state machine: which state follows and which commands one tick publishes. */
module Controller {
  import opened RobotState
  import opened Motion

  const Searching: uint16 := 0
  const Approaching: uint16 := 1
  const Avoiding: uint16 := 2
  const Arrived: uint16 := 3

  /** Iterations of each phase of the bumper escape. */
  const EscapeLength: nat := 40000
  /** Iterations of the forward escape once the depth obstacle has cleared. */
  const ForwardEscapeLength: nat := 100000

  /** Goal area above which the obstacle in view is taken to be the goal itself: a tenth of the image. */
  const ArrivalArea: real := ImageWidth * ImageHeight * 0.1

  /** The outcome of one tick: the next state and the commands published, oldest first. */
  datatype Decision = Decision(next: uint16, out: seq<Twist>)

  /** Back off, turn, drive on. */
  function EscapeBurst(): seq<Twist>
  {
    Repeat(Retreat(), EscapeLength) + Repeat(Rotate(), EscapeLength) + Repeat(Advance(), EscapeLength)
  }

  function ForwardBurst(): seq<Twist>
  {
    Repeat(Advance(), ForwardEscapeLength)
  }

  /** One pass through the body of the control loop's `switch`; a state outside 0..3 matches no case. */
  function Decide(c: CoreState): (d: Decision)
    ensures KnownState(c) ==> d.next <= 3
    ensures !KnownState(c) ==> d == Decision(c.state, [])
  {
    if c.state == Searching then
      if c.obstacleFoundFlag then Decision(Avoiding, [])
      else if c.goalFoundFlag then Decision(Approaching, [])
      else Decision(Searching, [Rotate()])
    else if c.state == Approaching then
      if c.obstacleFoundFlag then Decision(Avoiding, [])
      else if !c.goalFoundFlag then Decision(Searching, [])
      else Decision(Approaching, [Seek(c.goalX)])
    else if c.state == Avoiding then
      if c.goalBlobArea as real > ArrivalArea then Decision(Arrived, [])
      else if c.bumperFlag then Decision(Searching, EscapeBurst())
      else if c.obstacleFoundFlag then Decision(Avoiding, [Rotate()])
      else Decision(Searching, ForwardBurst())
    else if c.state == Arrived then Decision(Arrived, [])
    else Decision(c.state, [])
  }

  /** Searching and approaching: an obstacle wins over any goal check and moves to avoiding silently. */
  lemma ObstacleFirst(c: CoreState)
    requires c.state == Searching || c.state == Approaching
    requires c.obstacleFoundFlag
    ensures Decide(c) == Decision(Avoiding, [])
  {
  }

  /**
   * Without an obstacle: searching moves to approaching exactly when the goal is seen, approaching
   * moves back exactly when it is lost; a tick that changes state publishes nothing, one that stays
   * publishes one command (rotate while searching, seek while approaching).
   */
  lemma SearchAndApproach(c: CoreState)
    requires c.state == Searching || c.state == Approaching
    requires !c.obstacleFoundFlag
    ensures c.state == Searching ==> (Decide(c).next == Approaching <==> c.goalFoundFlag)
    ensures c.state == Approaching ==> (Decide(c).next == Searching <==> !c.goalFoundFlag)
    ensures Decide(c).next != c.state <==> Decide(c).out == []
    ensures Decide(c).next == c.state && c.state == Searching ==> Decide(c).out == [Rotate()]
    ensures Decide(c).next == c.state && c.state == Approaching ==> Decide(c).out == [Seek(c.goalX)]
  {
  }

  /** The four cases of avoiding, in priority order: arrival, bumper escape, turning away, forward escape. */
  lemma AvoidingCases(c: CoreState)
    requires c.state == Avoiding
    ensures c.goalBlobArea > 30720 ==> Decide(c) == Decision(Arrived, [])
    ensures c.goalBlobArea <= 30720 && c.bumperFlag ==> Decide(c) == Decision(Searching, EscapeBurst())
    ensures c.goalBlobArea <= 30720 && !c.bumperFlag && c.obstacleFoundFlag ==> Decide(c) == Decision(Avoiding, [Rotate()])
    ensures c.goalBlobArea <= 30720 && !c.bumperFlag && !c.obstacleFoundFlag ==> Decide(c) == Decision(Searching, ForwardBurst())
  {
  }

  /** The bumper escape is exactly 40000 retreats, then 40000 rotations, then 40000 advances. */
  lemma EscapeBurstShape()
    ensures |EscapeBurst()| == 120000
    ensures forall j :: 0 <= j < 40000 ==> EscapeBurst()[j] == Retreat()
    ensures forall j :: 40000 <= j < 80000 ==> EscapeBurst()[j] == Rotate()
    ensures forall j :: 80000 <= j < 120000 ==> EscapeBurst()[j] == Advance()
  {
  }

  /** The forward escape is exactly 100000 advances. */
  lemma ForwardBurstShape()
    ensures |ForwardBurst()| == 100000
    ensures forall j :: 0 <= j < 100000 ==> ForwardBurst()[j] == Advance()
  {
  }

  /** Arrived is absorbing and silent. */
  lemma ArrivedAbsorbing(c: CoreState)
    requires c.state == Arrived
    ensures Decide(c) == Decision(Arrived, [])
  {
  }

  /** The commands a tick can publish: one of the four primitives, the seek steering toward the current offset. */
  predicate IsPrimitive(t: Twist, goalX: real)
  {
    t == Rotate() || t == Advance() || t == Retreat() || t == Seek(goalX)
  }

  /**
   * A tick publishes at most one command unless it runs one of the two escapes, which happens only
   * from avoiding and always returns to searching. Every command is a primitive, and the robot backs
   * up only in the bumper escape.
   */
  lemma TickOutputShape(c: CoreState)
    requires KnownState(c)
    ensures |Decide(c).out| <= 1 ||
      (c.state == Avoiding && Decide(c).next == Searching &&
       (Decide(c).out == EscapeBurst() || Decide(c).out == ForwardBurst()))
    ensures forall j :: 0 <= j < |Decide(c).out| ==> IsPrimitive(Decide(c).out[j], c.goalX)
    ensures forall j :: 0 <= j < |Decide(c).out| && Decide(c).out[j].linear < 0.0 ==> c.bumperFlag
  {
  }

  /** No primitive exceeds the base speeds: |linear| <= 0.15 and |yaw rate| <= 0.7. */
  lemma PrimitiveWithinSpeedLimits(t: Twist, goalX: real)
    requires IsPrimitive(t, goalX)
    ensures Abs(t.linear) <= LinearSpeed && Abs(t.angular) <= AngularSpeed
  {
  }
}
