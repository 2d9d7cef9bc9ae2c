/** The four velocity commands the node publishes. */
module Motion {

  /** The two twist components the node sets to anything but zero: forward speed (linear.x) and yaw rate (angular.z). */
  datatype Twist = Twist(linear: real, angular: real)

  const LinearSpeed: real := 0.15
  const AngularSpeed: real := 0.7
  const AngularSpeedThresh: real := 0.3

  /** The factor applied to the forward speed and to the steering gain while seeking. */
  const SeekScale: real := 0.7

  function Abs(x: real): real
  {
    if x < 0.0 then -x else x
  }

  /** Turn in place. */
  function Rotate(): Twist
  {
    Twist(0.0, AngularSpeed)
  }

  /** Drive straight ahead. */
  function Advance(): Twist
  {
    Twist(LinearSpeed, 0.0)
  }

  /** Drive straight back. */
  function Retreat(): Twist
  {
    Twist(-LinearSpeed, 0.0)
  }

  /** The proportional steering term for a centroid offset, before it is limited. */
  function SeekControl(goalX: real): real
  {
    -goalX * AngularSpeed * SeekScale
  }

  /** Drive slowly ahead while steering toward the goal; the yaw rate is rescaled onto the threshold when it is too large. */
  function Seek(goalX: real): (t: Twist)
    ensures t.linear == LinearSpeed * SeekScale
    ensures Abs(t.angular) <= AngularSpeedThresh
    ensures Abs(SeekControl(goalX)) <= AngularSpeedThresh ==> t.angular == SeekControl(goalX)
    ensures SeekControl(goalX) > AngularSpeedThresh ==> t.angular == AngularSpeedThresh
    ensures SeekControl(goalX) < -AngularSpeedThresh ==> t.angular == -AngularSpeedThresh
    ensures (t.angular > 0.0 <==> SeekControl(goalX) > 0.0) && (t.angular < 0.0 <==> SeekControl(goalX) < 0.0)
  {
    var control := SeekControl(goalX);
    RescaledOntoThreshold(control);
    var angular := if Abs(control) > AngularSpeedThresh then control * AngularSpeedThresh / Abs(control) else control;
    Twist(LinearSpeed * SeekScale, angular)
  }

  /** Rescaling a too-large control onto the threshold keeps its direction and fixes its magnitude. */
  lemma RescaledOntoThreshold(control: real)
    ensures control > AngularSpeedThresh ==> control * AngularSpeedThresh / Abs(control) == AngularSpeedThresh
    ensures control < -AngularSpeedThresh ==> control * AngularSpeedThresh / Abs(control) == -AngularSpeedThresh
  {
    if control > AngularSpeedThresh {
      assert control * AngularSpeedThresh == AngularSpeedThresh * Abs(control);
    } else if control < -AngularSpeedThresh {
      assert control * AngularSpeedThresh == -AngularSpeedThresh * Abs(control);
    }
  }

  /** The fixed commands: turning in place, and driving straight at the base speed either way. */
  lemma PrimitiveCommands()
    ensures Rotate() == Twist(0.0, 0.7)
    ensures Advance() == Twist(0.15, 0.0)
    ensures Retreat() == Twist(-Advance().linear, Advance().angular)
    ensures Retreat() == Twist(-0.15, 0.0)
    ensures Rotate() != Advance() && Advance() != Retreat() && Retreat() != Rotate()
  {
  }

  /** `n` copies of one command, as published by a burst of identical calls. */
  function Repeat(t: Twist, n: nat): seq<Twist>
  {
    seq(n, _ => t)
  }
}
