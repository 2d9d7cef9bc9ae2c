/** The node's globals as one object, with the three sensor handlers and the control tick as its methods. */
module Robot {
  import opened RobotState
  import opened Motion
  import opened Blobs
  import opened DepthScan
  import opened Contact
  import opened Controller

  class RobotCore {
    var state: uint16
    var goalFoundFlag: bool
    var obstacleFoundFlag: bool
    var bumperFlag: bool
    var goalBlobArea: uint16
    var goalX: real
    /** Every velocity command published so far, oldest first. */
    var published: seq<Twist>

    function View(): CoreState
      reads this
    {
      CoreState(state, goalFoundFlag, obstacleFoundFlag, bumperFlag, goalBlobArea, goalX)
    }

    constructor ()
      ensures View() == Initial && published == []
      ensures BumperImpliesObstacle(View()) && KnownState(View())
    {
      state := Searching;
      goalFoundFlag, obstacleFoundFlag, bumperFlag := false, false, false;
      goalBlobArea := 0;
      goalX := 0.0;
      published := [];
    }

    /** Blob frame handler: sums the goal blobs' area (in the 16-bit field) and area-weighted x. */
    method BlobsCallback(blobs: seq<Blob>)
      modifies this`goalBlobArea, this`goalFoundFlag, this`goalX
      ensures View() == AfterBlobs(old(View()), blobs)
      ensures BumperImpliesObstacle(old(View())) ==> BumperImpliesObstacle(View())
    {
      if |blobs| > 0 {
        var goalSumX: real := 0.0;
        goalBlobArea := 0;
        var i := 0;
        while i < |blobs|
          invariant 0 <= i <= |blobs|
          invariant goalBlobArea as int == MatchedArea(blobs[..i]) % 0x1_0000
          invariant goalSumX == MatchedMomentX(blobs[..i]) as real
          invariant goalFoundFlag == old(goalFoundFlag) && goalX == old(goalX)
        {
          assert blobs[..i + 1][..i] == blobs[..i];
          WrapAccumulates(MatchedArea(blobs[..i]), if IsGoal(blobs[i]) then blobs[i].area else 0);
          var c := SelectedSignature;
          if Matches(blobs[i], Signatures[c]) {
            var area := blobs[i].area;
            goalSumX := goalSumX + (area * blobs[i].x) as real;
            goalBlobArea := Wrap16(goalBlobArea as int + area);
          }
          i := i + 1;
        }
        assert blobs[..i] == blobs;
        assert goalBlobArea == Wrap16(MatchedArea(blobs));
        if goalBlobArea as int > GoalAreaThreshold {
          goalX := goalSumX / goalBlobArea as real;
          goalX := goalX - ImageWidth / 2.0;
          if !goalFoundFlag {
            goalFoundFlag := true;
          }
        } else {
          goalFoundFlag := false;
        }
      }
    }

    /** Depth frame handler; the cloud is indexed without a bounds check, so it must cover the band. */
    method PointCloudCallback(cloud: seq<Depth>)
      requires |cloud| >= WindowEnd
      modifies this`obstacleFoundFlag
      ensures View() == AfterCloud(old(View()), cloud)
      ensures BumperImpliesObstacle(old(View())) ==> BumperImpliesObstacle(View())
    {
      var closest := ScanWindow(cloud);
      if |closest| > NearPointThreshold {
        obstacleFoundFlag := true;
      } else {
        if !bumperFlag {
          obstacleFoundFlag := false;
        }
      }
    }

    /** Bumper event handler. */
    method BumperCallback(bumperState: uint8)
      modifies this`bumperFlag, this`obstacleFoundFlag
      ensures View() == AfterBumper(old(View()), bumperState)
      ensures BumperImpliesObstacle(View())
    {
      if bumperState == Pressed {
        bumperFlag := true;
        obstacleFoundFlag := true;
      } else {
        bumperFlag := false;
      }
    }

    /** Publishes one command `n` times in a row. */
    method PublishRepeatedly(t: Twist, n: nat)
      modifies this`published
      ensures published == old(published) + Repeat(t, n)
    {
      for i := 0 to n
        invariant published == old(published) + Repeat(t, i)
      {
        published := published + [t];
        assert Repeat(t, i + 1) == Repeat(t, i) + [t];
      }
    }

    /** One pass of the control loop's `switch`: only the state and the published commands change. */
    method Tick()
      modifies this`state, this`published
      ensures state == Decide(old(View())).next
      ensures published == old(published) + Decide(old(View())).out
      ensures KnownState(old(View())) ==> KnownState(View())
    {
      if state == Searching {
        if obstacleFoundFlag {
          state := Avoiding;
        } else if goalFoundFlag {
          state := Approaching;
        } else {
          published := published + [Rotate()];
        }
      } else if state == Approaching {
        if obstacleFoundFlag {
          state := Avoiding;
        } else if !goalFoundFlag {
          state := Searching;
        } else {
          published := published + [Seek(goalX)];
        }
      } else if state == Avoiding {
        if goalBlobArea as real > ArrivalArea {
          state := Arrived;
        } else if bumperFlag {
          PublishRepeatedly(Retreat(), EscapeLength);
          PublishRepeatedly(Rotate(), EscapeLength);
          PublishRepeatedly(Advance(), EscapeLength);
          state := Searching;
        } else if obstacleFoundFlag {
          published := published + [Rotate()];
        } else {
          PublishRepeatedly(Advance(), ForwardEscapeLength);
          state := Searching;
        }
      } else if state == Arrived {
        state := Arrived;
      }
    }
  }
}
