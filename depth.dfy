/** Depth obstacle scan: counting near points in a fixed band of the depth cloud. */
module DepthScan {
  import opened RobotState

  /** One point's range along the optical axis; invalid points carry NaN, which compares false with everything. */
  datatype Depth = Finite(z: real) | NaN

  /** Range in metres below which a point is near. */
  const MinZ: real := 0.7
  /** Number of near points above which an obstacle is reported. */
  const NearPointThreshold: nat := 10

  const CloudWidth: nat := 640
  const ScanFirstRow: nat := 180
  const ScanRows: nat := 240
  const ScanColumns: nat := 640

  /** The scanned band is one contiguous range of the row-major cloud. */
  const WindowStart: nat := CloudWidth * ScanFirstRow
  const WindowEnd: nat := CloudWidth * (ScanFirstRow + ScanRows)

  predicate IsHit(p: Depth)
  {
    p.Finite? && p.z < MinZ
  }

  /** Number of near points in a run of points. */
  function Hits(s: seq<Depth>): nat
  {
    if s == [] then 0
    else Hits(s[..|s| - 1]) + (if IsHit(s[|s| - 1]) then 1 else 0)
  }

  /** Number of near points of the scanned band. */
  function WindowHits(cloud: seq<Depth>): nat
    requires |cloud| >= WindowEnd
  {
    Hits(cloud[WindowStart..WindowEnd])
  }

  /**
   * The obstacle flag after one depth frame: raised on more than ten near points, lowered on
   * ten or fewer unless the bumper is latched, in which case it is left alone.
   */
  function AfterCloud(c: CoreState, cloud: seq<Depth>): (r: CoreState)
    requires |cloud| >= WindowEnd
    ensures r.(obstacleFoundFlag := c.obstacleFoundFlag) == c
    ensures BumperImpliesObstacle(c) ==> BumperImpliesObstacle(r)
  {
    if WindowHits(cloud) > NearPointThreshold then c.(obstacleFoundFlag := true)
    else if !c.bumperFlag then c.(obstacleFoundFlag := false)
    else c
  }

  lemma HitsSnoc(s: seq<Depth>, a: nat, b: nat)
    requires a <= b < |s|
    ensures Hits(s[a..b + 1]) == Hits(s[a..b]) + (if IsHit(s[b]) then 1 else 0)
  {
    assert s[a..b + 1][..b - a] == s[a..b];
  }

  /**
   * The nested row/column loop: visits the points at 640 * (180 + k) + i for k < 240 and
   * i < 640 and records the column of every near one.
   */
  method ScanWindow(cloud: seq<Depth>) returns (closest: seq<nat>)
    requires |cloud| >= WindowEnd
    ensures |closest| == WindowHits(cloud)
    ensures forall j :: 0 <= j < |closest| ==> closest[j] < ScanColumns
  {
    closest := [];
    for k := 0 to ScanRows
      invariant |closest| == Hits(cloud[WindowStart..WindowStart + CloudWidth * k])
      invariant forall j :: 0 <= j < |closest| ==> closest[j] < ScanColumns
    {
      for i := 0 to ScanColumns
        invariant |closest| == Hits(cloud[WindowStart..WindowStart + CloudWidth * k + i])
        invariant forall j :: 0 <= j < |closest| ==> closest[j] < ScanColumns
      {
        var p := CloudWidth * (ScanFirstRow + k) + i;
        HitsSnoc(cloud, WindowStart, p);
        if IsHit(cloud[p]) {
          closest := closest + [i];
        }
      }
    }
  }

  /** The recursive count is the number of positions holding a near point. */
  lemma {:induction false} HitsCountsPositions(s: seq<Depth>)
    ensures Hits(s) == |set j | 0 <= j < |s| && IsHit(s[j])|
  {
    if s != [] {
      var init := s[..|s| - 1];
      var n := |s| - 1;
      HitsCountsPositions(init);
      var before := set j | 0 <= j < |init| && IsHit(init[j]);
      var after := set j | 0 <= j < |s| && IsHit(s[j]);
      if IsHit(s[n]) {
        assert after == before + {n};
      } else {
        assert after == before;
      }
    }
  }

  lemma {:induction false} HitsAtMostLength(s: seq<Depth>)
    ensures Hits(s) <= |s|
  {
    if s != [] {
      HitsAtMostLength(s[..|s| - 1]);
    }
  }

  /** What one depth frame does: only the obstacle flag can change, as the near-point count decides. */
  lemma CloudVerdict(c: CoreState, cloud: seq<Depth>)
    requires |cloud| >= WindowEnd
    ensures WindowHits(cloud) > 10 ==> AfterCloud(c, cloud).obstacleFoundFlag
    ensures WindowHits(cloud) <= 10 && !c.bumperFlag ==> !AfterCloud(c, cloud).obstacleFoundFlag
    ensures WindowHits(cloud) <= 10 && c.bumperFlag ==> AfterCloud(c, cloud) == c
  {
  }

  /** Points outside the band never matter. */
  lemma OnlyWindowMatters(c: CoreState, cloud: seq<Depth>, other: seq<Depth>)
    requires |cloud| >= WindowEnd && |other| >= WindowEnd
    requires forall p :: WindowStart <= p < WindowEnd ==> cloud[p] == other[p]
    ensures AfterCloud(c, cloud) == AfterCloud(c, other)
  {
    assert cloud[WindowStart..WindowEnd] == other[WindowStart..WindowEnd];
  }

  /** Ranges at or beyond 0.7 m and invalid points are never hits; the band can hold at most its size of them. */
  lemma WindowHitsBounded(cloud: seq<Depth>)
    requires |cloud| >= WindowEnd
    ensures WindowHits(cloud) <= ScanRows * ScanColumns
  {
    HitsAtMostLength(cloud[WindowStart..WindowEnd]);
  }
}
