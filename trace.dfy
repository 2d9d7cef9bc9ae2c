/**
 * The main loop as a sequence of events: each iteration runs one control tick, after which
 * `spinOnce` delivers whatever handler calls are pending, all on one thread.
 */
module Trace {
  import opened RobotState
  import opened Motion
  import opened Blobs
  import opened DepthScan
  import opened Contact
  import opened Controller

  datatype Event =
    | BlobFrame(blobs: seq<Blob>)
    | DepthFrame(cloud: seq<Depth>)
    | BumperEvent(bumperState: uint8)
    | ControlTick

  /** A depth frame must cover the scanned band; the other events are always usable. */
  predicate WellFormed(e: Event)
  {
    e.DepthFrame? ==> |e.cloud| >= WindowEnd
  }

  predicate AllWellFormed(es: seq<Event>)
  {
    forall i :: 0 <= i < |es| ==> WellFormed(es[i])
  }

  /** The shared state after some events, and every command they published, oldest first. */
  datatype Outcome = Outcome(final: CoreState, published: seq<Twist>)

  function Apply(c: CoreState, e: Event): Outcome
    requires WellFormed(e)
  {
    match e
    case BlobFrame(blobs) => Outcome(AfterBlobs(c, blobs), [])
    case DepthFrame(cloud) => Outcome(AfterCloud(c, cloud), [])
    case BumperEvent(s) => Outcome(AfterBumper(c, s), [])
    case ControlTick =>
      var d := Decide(c);
      Outcome(c.(state := d.next), d.out)
  }

  function Run(c: CoreState, es: seq<Event>): (r: Outcome)
    requires AllWellFormed(es)
    ensures (forall i :: 0 <= i < |es| ==> !es[i].ControlTick?) ==> r.final.state == c.state && r.published == []
    decreases |es|
  {
    if es == [] then Outcome(c, [])
    else
      var first := Apply(c, es[0]);
      var rest := Run(first.final, es[1..]);
      Outcome(rest.final, first.published + rest.published)
  }

  /** `n` control ticks with no sensor event between them. */
  function Ticks(n: nat): seq<Event>
  {
    seq(n, _ => ControlTick)
  }

  /** Each handler and the tick keep the bumper-implies-obstacle invariant and the state range. */
  lemma ApplyPreservesInvariant(c: CoreState, e: Event)
    requires WellFormed(e)
    requires BumperImpliesObstacle(c) && KnownState(c)
    ensures BumperImpliesObstacle(Apply(c, e).final) && KnownState(Apply(c, e).final)
  {
  }

  lemma {:induction false} RunPreservesInvariant(c: CoreState, es: seq<Event>)
    requires AllWellFormed(es)
    requires BumperImpliesObstacle(c) && KnownState(c)
    ensures BumperImpliesObstacle(Run(c, es).final) && KnownState(Run(c, es).final)
    decreases |es|
  {
    if es != [] {
      ApplyPreservesInvariant(c, es[0]);
      RunPreservesInvariant(Apply(c, es[0]).final, es[1..]);
    }
  }

  /** Every reachable state keeps the invariant. */
  lemma ReachableStatesKeepInvariant(es: seq<Event>)
    requires AllWellFormed(es)
    ensures BumperImpliesObstacle(Run(Initial, es).final) && KnownState(Run(Initial, es).final)
  {
    RunPreservesInvariant(Initial, es);
  }

  /** Once arrived, no sequence of events leaves the state or publishes anything. */
  lemma {:induction false} ArrivedForever(c: CoreState, es: seq<Event>)
    requires AllWellFormed(es)
    requires c.state == Arrived
    ensures Run(c, es).final.state == Arrived
    ensures Run(c, es).published == []
    decreases |es|
  {
    if es != [] {
      ArrivedForever(Apply(c, es[0]).final, es[1..]);
    }
  }

  /** Searching with nothing in sight and no obstacle: every tick publishes one rotation and nothing else changes. */
  lemma {:induction false} IdleSearchRotates(c: CoreState, n: nat)
    requires c.state == Searching && !c.obstacleFoundFlag && !c.goalFoundFlag
    ensures Run(c, Ticks(n)) == Outcome(c, Repeat(Rotate(), n))
  {
    if n > 0 {
      assert Ticks(n)[1..] == Ticks(n - 1);
      IdleSearchRotates(c, n - 1);
      assert [Rotate()] + Repeat(Rotate(), n - 1) == Repeat(Rotate(), n);
    }
  }

  /**
   * A press while searching or approaching, then two ticks: the first moves to avoiding without a
   * command, the second (with the goal area below the arrival threshold) runs the whole bumper
   * escape without looking at the sensors again and returns to searching.
   */
  lemma BumperPressEscapes(c: CoreState)
    requires c.state == Searching || c.state == Approaching
    requires c.goalBlobArea <= 30720
    ensures Run(c, [BumperEvent(1), ControlTick, ControlTick]) ==
      Outcome(c.(bumperFlag := true, obstacleFoundFlag := true, state := Searching), EscapeBurst())
  {
  }

  /**
   * A press forces the obstacle flag even when the next depth frame has no near point; after a
   * release, the next such frame clears it.
   */
  lemma ContactOverridesDepth(c: CoreState, cloud: seq<Depth>)
    requires |cloud| >= WindowEnd
    requires WindowHits(cloud) <= NearPointThreshold
    ensures Run(c, [BumperEvent(1), DepthFrame(cloud)]).final.obstacleFoundFlag
    ensures Run(c, [BumperEvent(1), BumperEvent(0)]).final.obstacleFoundFlag
    ensures !Run(c, [BumperEvent(1), BumperEvent(0), DepthFrame(cloud)]).final.obstacleFoundFlag
  {
    var pressed := AfterBumper(c, 1);
    var released := AfterBumper(pressed, 0);
    assert Run(pressed, [DepthFrame(cloud)]).final == AfterCloud(pressed, cloud) by {
      assert [DepthFrame(cloud)][1..] == [];
    }
    assert Run(released, [DepthFrame(cloud)]).final == AfterCloud(released, cloud) by {
      assert [DepthFrame(cloud)][1..] == [];
    }
    assert Run(pressed, [BumperEvent(0)]).final == released by {
      assert [BumperEvent(0)][1..] == [];
    }
    var a := [BumperEvent(1), DepthFrame(cloud)];
    var b := [BumperEvent(1), BumperEvent(0)];
    var d := [BumperEvent(1), BumperEvent(0), DepthFrame(cloud)];
    assert a[1..] == [DepthFrame(cloud)];
    assert b[1..] == [BumperEvent(0)];
    assert d[1..] == [BumperEvent(0), DepthFrame(cloud)] && d[1..][1..] == [DepthFrame(cloud)];
  }

  /** Whatever the events, every command ever published stays within the base linear and angular speeds. */
  lemma {:induction false} PublishedWithinSpeedLimits(c: CoreState, es: seq<Event>)
    requires AllWellFormed(es)
    requires KnownState(c)
    ensures forall j :: 0 <= j < |Run(c, es).published| ==>
      Abs(Run(c, es).published[j].linear) <= LinearSpeed && Abs(Run(c, es).published[j].angular) <= AngularSpeed
    decreases |es|
  {
    if es != [] {
      var first := Apply(c, es[0]);
      PublishedWithinSpeedLimits(first.final, es[1..]);
      if es[0].ControlTick? {
        TickOutputShape(c);
        forall j | 0 <= j < |first.published|
          ensures Abs(first.published[j].linear) <= LinearSpeed && Abs(first.published[j].angular) <= AngularSpeed
        {
          PrimitiveWithinSpeedLimits(first.published[j], c.goalX);
        }
      }
    }
  }

}
