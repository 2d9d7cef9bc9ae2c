# Blob-following TurtleBot controller, modelled in Dafny

This project models the decision layer of the `alpha_pkg` node (`src/alpha_pkg/src/alpha_pkg_node.cpp`).
The node drives a TurtleBot toward a pink target. What it does:

- It aggregates colour blobs from the segmenter into a goal area, a goal flag and a centroid offset.
- It scans a band of the depth cloud for near points and sets an obstacle flag.
- It latches the bumper.
- On every control tick it runs a four-state machine: searching, approaching, avoiding, arrived.
  Each tick picks the next state and publishes zero, one or a fixed burst of velocity commands.

All handlers run on the main thread, between ticks, when `ros::spinOnce` is called. The model is therefore sequential:

- `Robot.RobotCore` is a class. Its fields are the node's globals, and one more field, `published`, logs every velocity command in order.
- Its methods `BlobsCallback`, `PointCloudCallback`, `BumperCallback` and `Tick` are the three callbacks and the body of the `switch` in `main`.
- Each method is proved against a pure specification function of the old state: `AfterBlobs`, `AfterCloud`, `AfterBumper` or `Decide`.
- The lemmas about the source's properties are stated over those functions.
- `Trace.Run` models the main loop as any interleaving of ticks and handler calls. The lemmas over it cover invariants that hold along every run, and scenarios.

Modelling choices:

- `state`, `goal_blob_area` and the bumper event's `state` are fixed-width unsigned integers (`uint16`, `uint8` newtypes).
- The area accumulates modulo 2^16, one blob at a time, as the C++ `+=` on a `uint16_t` does. The loop is proved equal to the total matching area taken mod 65536.
- The centroid divides by this stored, wrapped area, as the code does. `Blobs.WrappedAreaHidesLargeGoal` shows one consequence: a single goal blob of 65636 pixels is stored as 100 and reads as "goal not seen".
- Speeds, ranges and `goal_x` are exact reals.
- A depth point is `Finite(z)` or `NaN`. An invalid (NaN) point is never a hit, because an IEEE comparison with NaN is false.
- The cloud is indexed at `640*(180+k)+i` with no bounds check, so `PointCloudCallback` requires at least 640·420 points. Bounding the index defensively would skip the missing points; that is not what the code does. The model proves that exactly the contiguous range [115200, 268800) of the cloud is inspected.
- The escape bursts are loops of 40000 and 100000 publishes. They are proved to append exactly `EscapeBurst()` and `ForwardBurst()`.

## Model

| member | source | states |
|---|---|---|
| Motion.Seek | src/alpha_pkg/src/alpha_pkg_node.cpp:204-217 | forward speed is 0.7 of the base speed; the yaw rate never exceeds 0.3 in magnitude, equals the raw proportional term -goal_x·0.7·0.7 when that is within ±0.3, is exactly +0.3 or -0.3 beyond, and always has the sign of the raw term |
| Motion.RescaledOntoThreshold | src/alpha_pkg/src/alpha_pkg_node.cpp:208-210 | rescaling `control*0.3/|control|` of an over-threshold control gives exactly ±0.3 with the control's sign |
| Motion.PrimitiveCommands | src/alpha_pkg/src/alpha_pkg_node.cpp:190-244 | rotate is (0, 0.7), advance is (0.15, 0), retreat is advance reversed, (-0.15, 0); the three are distinct |
| RobotState.WrapAccumulates | src/alpha_pkg/src/alpha_pkg_node.cpp:92-104 | wrapping the 16-bit area after every addition gives the same value as wrapping the total once |
| Blobs.AfterBlobs | src/alpha_pkg/src/alpha_pkg_node.cpp:89-122 | a blob frame can change only goal_blob_area, goal_found_flag and goal_x, and leaves goal_x as it was whenever the flag ends up false; its full behaviour is stated by GoalStateAfterFrame, EmptyFrameChangesNothing, BlobsIdempotent, NonGoalBlobIgnored and FrameOrderIrrelevant |
| Blobs.GoalStateAfterFrame | src/alpha_pkg/src/alpha_pkg_node.cpp:89-122 | after a non-empty frame the stored area is the goal blobs' total area mod 65536; the goal flag is set iff that exceeds 3000; only then is goal_x set to (Σ area·x)/area − 320; otherwise goal_x keeps its value |
| Blobs.EmptyFrameChangesNothing | src/alpha_pkg/src/alpha_pkg_node.cpp:89 | a frame with no blob leaves every field unchanged, including the stale goal area |
| Blobs.BlobsIdempotent | src/alpha_pkg/src/alpha_pkg_node.cpp:89-122 | handling the same frame twice gives the same state as handling it once |
| Blobs.MatchedAreaAppend | src/alpha_pkg/src/alpha_pkg_node.cpp:98-107 | the matching area of a concatenation of frames is the sum of their matching areas |
| Blobs.MatchedMomentXAppend | src/alpha_pkg/src/alpha_pkg_node.cpp:98-107 | the area-weighted x sum of a concatenation is the sum of the parts' sums |
| Blobs.NonGoalBlobIgnored | src/alpha_pkg/src/alpha_pkg_node.cpp:99-106 | a blob whose (r,g,b) is not exactly (185,66,36) has no effect wherever it stands, provided the frame still holds at least one blob without it (a frame holding only non-goal blobs is non-empty and resets the area to 0 and clears the flag) |
| Blobs.IndoorSignatureIgnored | src/alpha_pkg/src/alpha_pkg_node.cpp:94-100 | a blob of the indoor colour (238,114,76) has no effect, since the filter always selects entry 1 of the colour table, provided the frame still holds at least one blob without it |
| Blobs.PermutationKeepsSums | src/alpha_pkg/src/alpha_pkg_node.cpp:98-107 | two frames holding the same blobs (equal multisets) have the same matching area and the same Σ area·x |
| Blobs.FrameOrderIrrelevant | src/alpha_pkg/src/alpha_pkg_node.cpp:98-114 | any reordering of a frame's blobs (equal multisets) gives the same resulting state |
| Blobs.MomentBounds | src/alpha_pkg/src/alpha_pkg_node.cpp:102-104 | when every goal blob has lo ≤ x ≤ hi, lo·area ≤ Σ area·x ≤ hi·area |
| Blobs.UnwrappedCentroid | src/alpha_pkg/src/alpha_pkg_node.cpp:112-117 | when the true goal area is between 3000 and 65536, the goal is found and goal_x is the true weighted mean x minus 320 |
| Blobs.CentroidWithinBounds | src/alpha_pkg/src/alpha_pkg_node.cpp:112-114 | when the true goal area is above 3000 and below 65536 (so the goal is found and the area is not wrapped), goal_x lies between the smallest and the largest goal-blob x, each minus 320 |
| Blobs.AlignedBlobsCentroid | src/alpha_pkg/src/alpha_pkg_node.cpp:112-114 | when the true goal area is above 3000 and below 65536 (so it is not wrapped), goal blobs that all sit at column x0 give goal_x = x0 − 320 |
| Blobs.WrappedAreaHidesLargeGoal | src/alpha_pkg/src/alpha_pkg_node.cpp:104-120 | one goal blob of 65636 pixels is stored as area 100, and the goal flag is cleared |
| DepthScan.ScanWindow | src/alpha_pkg/src/alpha_pkg_node.cpp:142-149 | the nested loop over k < 240, i < 640 at index 640·(180+k)+i records one column (< 640) per near point (z < 0.7) of the contiguous band [115200, 268800), and no other point |
| DepthScan.HitsCountsPositions | src/alpha_pkg/src/alpha_pkg_node.cpp:145-146 | the recursive hit count is the number of positions holding a finite range below 0.7 m |
| DepthScan.WindowHitsBounded | src/alpha_pkg/src/alpha_pkg_node.cpp:142-149 | the scan records at most 240·640 points |
| DepthScan.AfterCloud | src/alpha_pkg/src/alpha_pkg_node.cpp:142-160 | a depth frame can change only the obstacle flag, never the bumper flag, and keeps bumper ⇒ obstacle; its verdict is stated by CloudVerdict and OnlyWindowMatters |
| DepthScan.CloudVerdict | src/alpha_pkg/src/alpha_pkg_node.cpp:153-160 | more than 10 hits raises the obstacle flag; 10 or fewer lowers it when the bumper is not latched and changes nothing when it is |
| DepthScan.OnlyWindowMatters | src/alpha_pkg/src/alpha_pkg_node.cpp:142-144 | two clouds that agree on the scanned band give the same state |
| Contact.AfterBumper | src/alpha_pkg/src/alpha_pkg_node.cpp:174-180 | a bumper event can change only the bumper and obstacle flags, and bumper ⇒ obstacle holds afterwards whatever held before; the two cases are stated by BumperVerdict |
| Contact.BumperVerdict | src/alpha_pkg/src/alpha_pkg_node.cpp:174-180 | state 1 sets both the bumper and the obstacle flag; any other value clears only the bumper flag and leaves the obstacle flag as it was |
| Controller.ObstacleFirst | src/alpha_pkg/src/alpha_pkg_node.cpp:268-292 | while searching or approaching, an obstacle sends the machine to avoiding, before any goal check and without any command |
| Controller.SearchAndApproach | src/alpha_pkg/src/alpha_pkg_node.cpp:268-303 | with no obstacle: searching → approaching iff the goal is seen; approaching → searching iff it is lost; a tick that changes state publishes nothing; one that stays publishes exactly one rotate (searching) or one seek (approaching) |
| Controller.AvoidingCases | src/alpha_pkg/src/alpha_pkg_node.cpp:306-341 | in avoiding: area > 30720 → arrived, silently; else bumper → the bumper escape and searching; else obstacle → one rotate and stay; else the forward escape and searching |
| Controller.EscapeBurstShape | src/alpha_pkg/src/alpha_pkg_node.cpp:315-327 | the bumper escape is exactly 40000 retreats, then 40000 rotations, then 40000 advances |
| Controller.ForwardBurstShape | src/alpha_pkg/src/alpha_pkg_node.cpp:334-339 | the forward escape is exactly 100000 advances |
| Controller.ArrivedAbsorbing | src/alpha_pkg/src/alpha_pkg_node.cpp:344-348 | arrived stays arrived and publishes nothing |
| Controller.Decide | src/alpha_pkg/src/alpha_pkg_node.cpp:266-349 | a tick from a state in {0,1,2,3} leads to a state in {0,1,2,3}; a state outside that range matches no case, so it stays and nothing is published; the transitions are stated by ObstacleFirst, SearchAndApproach, AvoidingCases, ArrivedAbsorbing and TickOutputShape |
| Controller.TickOutputShape | src/alpha_pkg/src/alpha_pkg_node.cpp:266-349 | from a known state a tick publishes at most one command, unless it is in avoiding and runs one of the two escapes and returns to searching; every command is rotate, advance, retreat or seek of the current offset; a backward command appears only when the bumper is latched |
| Controller.PrimitiveWithinSpeedLimits | src/alpha_pkg/src/alpha_pkg_node.cpp:190-244 | no primitive exceeds 0.15 in forward speed or 0.7 in yaw rate |
| Robot.RobotCore.constructor | src/alpha_pkg/src/alpha_pkg_node.cpp:52-57 | the globals start searching, with every flag false, area 0 and goal_x 0; the invariant holds |
| Robot.RobotCore.BlobsCallback | src/alpha_pkg/src/alpha_pkg_node.cpp:71-123 | the accumulation loop wraps at each addition, and the new state is `AfterBlobs` of the old one; only the goal fields can change; the bumper invariant is kept |
| Robot.RobotCore.PointCloudCallback | src/alpha_pkg/src/alpha_pkg_node.cpp:135-161 | the new state is `AfterCloud` of the old one; only the obstacle flag can change; the bumper invariant is kept |
| Robot.RobotCore.BumperCallback | src/alpha_pkg/src/alpha_pkg_node.cpp:172-181 | the new state is `AfterBumper` of the old one; only the two contact-related flags can change; the bumper invariant holds afterwards |
| Robot.RobotCore.PublishRepeatedly | src/alpha_pkg/src/alpha_pkg_node.cpp:316-324 | a burst loop appends exactly n copies of its command to the published log |
| Robot.RobotCore.Tick | src/alpha_pkg/src/alpha_pkg_node.cpp:266-349 | the new state and the appended commands are those given by `Decide`; the perception fields are outside its frame, so a tick never writes them; the state stays in {0,1,2,3} |
| Trace.Run | src/alpha_pkg/src/alpha_pkg_node.cpp:262-353 | handler calls alone, with no tick between them, never change the state and never publish; its behaviour over runs is stated by RunPreservesInvariant, ArrivedForever, IdleSearchRotates and PublishedWithinSpeedLimits |
| Trace.ApplyPreservesInvariant | src/alpha_pkg/src/alpha_pkg_node.cpp:262-353 | every handler and every tick keep bumper ⇒ obstacle and the state range |
| Trace.RunPreservesInvariant | src/alpha_pkg/src/alpha_pkg_node.cpp:262-353 | any interleaving of ticks and handler calls keeps bumper ⇒ obstacle and the state range |
| Trace.ReachableStatesKeepInvariant | src/alpha_pkg/src/alpha_pkg_node.cpp:52-59 | every state reachable from the initial globals satisfies bumper ⇒ obstacle and has state in {0,1,2,3} |
| Trace.ArrivedForever | src/alpha_pkg/src/alpha_pkg_node.cpp:344-348 | once arrived, no sequence of events changes the state or publishes anything |
| Trace.IdleSearchRotates | src/alpha_pkg/src/alpha_pkg_node.cpp:276-283 | searching with no goal and no obstacle, n ticks publish exactly n rotations and change nothing else |
| Trace.BumperPressEscapes | src/alpha_pkg/src/alpha_pkg_node.cpp:306-327 | a press, then two ticks from searching or approaching (goal area ≤ 30720): avoiding, then the complete bumper escape, then back to searching with the flags still latched |
| Trace.PublishedWithinSpeedLimits | src/alpha_pkg/src/alpha_pkg_node.cpp:262-353 | over any interleaving of events from a known state, every published command stays within |linear| ≤ 0.15 and |angular| ≤ 0.7 |
| Trace.ContactOverridesDepth | src/alpha_pkg/src/alpha_pkg_node.cpp:153-180 | after a press, a depth frame with at most 10 hits leaves the obstacle flag set; a release alone does not clear it; the next such frame does |

## Left out

- ROS plumbing is not modelled: `ros::init`, topic advertisement and subscription, message transport, and `ros::ok()`. Publishing is appending a command to `published`.
- Timing is not modelled: the 10 Hz `ros::Rate`, `loop_rate.sleep()` and the console print of each iteration. `spinOnce` becomes the freedom of `Trace.Run` to interleave handler calls between ticks in any order.
- Floating point is not modelled: `goal_sum_x`, the division, the seek gain and the clamp use exact reals, so float rounding is not captured. The arrival threshold 640·480·0.1 is compared as exactly 30720. For an integer area this gives the same verdict as the double computation.
- Integer widths of the blob message are not modelled. Blob fields are unbounded naturals, so the `uint32`→`int` conversion of the area and the 32-bit product area·x are not captured. The area's residue mod 2^16 is the same either way. The product cannot overflow for a blob that fits in a 640×480 image.
- `goal_sum_y` and `num_goal_blobs` are computed by the source and never read, so they are not modelled.
- The unused twist components (linear.y/z, angular.x/y, always 0) are not modelled.
- DepthScan.ScanWindow: its contract states how many columns it records (the number of near points in the band) and that each is below 640, but not which column each entry holds or in what order.
- The cloud's x and y coordinates and the point-cloud and blob message types themselves are not modelled. A cloud is its sequence of z values in row-major order; a frame is its sequence of blobs, with `blob_count` as the sequence length.
- A depth frame with fewer than 640·420 points is outside the model (`PointCloudCallback` requires it). The code reads past the end of such a cloud without a check.
- Concurrency is not modelled: all handlers run on the main thread, so there is no race.
