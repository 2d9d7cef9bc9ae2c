/** Blob perception: filtering a frame of colour blobs to the goal colour and aggregating area and centroid. */
module Blobs {
  import opened RobotState

  /** A colour signature as the segmenter reports it. */
  datatype Rgb = Rgb(red: nat, green: nat, blue: nat)

  /** One detected blob: its colour signature, its centroid in pixels and its area in pixels. */
  datatype Blob = Blob(red: nat, green: nat, blue: nat, x: nat, y: nat, area: nat)

  /** The calibrated goal colours: pink indoors (entry 0) and pink outdoors (entry 1). */
  const Signatures: seq<Rgb> := [Rgb(238, 114, 76), Rgb(185, 66, 36)]

  /** The filter always uses the outdoor calibration; the indoor entry is never selected. */
  const SelectedSignature: nat := 1

  /** Matching area above which the goal counts as seen. */
  const GoalAreaThreshold: int := 3000

  predicate Matches(b: Blob, sig: Rgb)
  {
    b.red == sig.red && b.green == sig.green && b.blue == sig.blue
  }

  predicate IsGoal(b: Blob)
  {
    Matches(b, Signatures[SelectedSignature])
  }

  /** Total area of the goal-coloured blobs, as an unbounded integer. */
  function MatchedArea(blobs: seq<Blob>): nat
  {
    if blobs == [] then 0
    else
      var last := blobs[|blobs| - 1];
      MatchedArea(blobs[..|blobs| - 1]) + (if IsGoal(last) then last.area else 0)
  }

  /** Area-weighted sum of the goal-coloured blobs' x coordinates. */
  function MatchedMomentX(blobs: seq<Blob>): nat
  {
    if blobs == [] then 0
    else
      var last := blobs[|blobs| - 1];
      MatchedMomentX(blobs[..|blobs| - 1]) + (if IsGoal(last) then last.area * last.x else 0)
  }

  /**
   * The goal state after one frame. An empty frame changes nothing; otherwise the area field
   * holds the matching total modulo 2^16, the goal flag says whether that stored area exceeds the
   * threshold, and only then is the centroid offset recomputed (dividing by the stored area).
   */
  function AfterBlobs(c: CoreState, blobs: seq<Blob>): (r: CoreState)
    ensures r.(goalBlobArea := c.goalBlobArea, goalFoundFlag := c.goalFoundFlag, goalX := c.goalX) == c
    ensures !r.goalFoundFlag ==> r.goalX == c.goalX
  {
    if |blobs| == 0 then c
    else
      var area := Wrap16(MatchedArea(blobs));
      if area as int > GoalAreaThreshold then
        c.(goalBlobArea := area, goalFoundFlag := true,
           goalX := MatchedMomentX(blobs) as real / area as real - ImageWidth / 2.0)
      else
        c.(goalBlobArea := area, goalFoundFlag := false)
  }

  lemma {:induction false} MatchedAreaAppend(p: seq<Blob>, q: seq<Blob>)
    ensures MatchedArea(p + q) == MatchedArea(p) + MatchedArea(q)
  {
    if q == [] {
      assert p + q == p;
    } else {
      var q' := q[..|q| - 1];
      assert (p + q)[..|p + q| - 1] == p + q';
      MatchedAreaAppend(p, q');
    }
  }

  lemma {:induction false} MatchedMomentXAppend(p: seq<Blob>, q: seq<Blob>)
    ensures MatchedMomentX(p + q) == MatchedMomentX(p) + MatchedMomentX(q)
  {
    if q == [] {
      assert p + q == p;
    } else {
      var q' := q[..|q| - 1];
      assert (p + q)[..|p + q| - 1] == p + q';
      MatchedMomentXAppend(p, q');
    }
  }

  /** What one non-empty frame does to the goal state, field by field. */
  lemma {:induction false} GoalStateAfterFrame(c: CoreState, blobs: seq<Blob>)
    requires |blobs| > 0
    ensures AfterBlobs(c, blobs).goalBlobArea as int == MatchedArea(blobs) % 0x1_0000
    ensures AfterBlobs(c, blobs).goalFoundFlag <==> MatchedArea(blobs) % 0x1_0000 > GoalAreaThreshold
    ensures AfterBlobs(c, blobs).goalFoundFlag ==>
      AfterBlobs(c, blobs).goalX == MatchedMomentX(blobs) as real / (MatchedArea(blobs) % 0x1_0000) as real - 320.0
  {
  }

  /** A frame without any blob leaves every field as it was. */
  lemma EmptyFrameChangesNothing(c: CoreState)
    ensures AfterBlobs(c, []) == c
  {
  }

  /** The goal state is recomputed from the frame alone, so seeing the same frame again changes nothing. */
  lemma {:induction false} BlobsIdempotent(c: CoreState, blobs: seq<Blob>)
    ensures AfterBlobs(AfterBlobs(c, blobs), blobs) == AfterBlobs(c, blobs)
  {
  }

  /** A blob of any other colour, wherever it stands in a non-empty frame, has no effect. */
  lemma {:induction false} NonGoalBlobIgnored(c: CoreState, p: seq<Blob>, b: Blob, q: seq<Blob>)
    requires !IsGoal(b)
    requires |p + q| > 0
    ensures AfterBlobs(c, p + [b] + q) == AfterBlobs(c, p + q)
  {
    MatchedAreaAppend(p + [b], q);
    MatchedAreaAppend(p, [b]);
    MatchedAreaAppend(p, q);
    MatchedMomentXAppend(p + [b], q);
    MatchedMomentXAppend(p, [b]);
    MatchedMomentXAppend(p, q);
    assert [b][..0] == [];
  }

  /** The indoor calibration is defined but not used: a blob of exactly that colour is ignored. */
  lemma {:induction false} IndoorSignatureIgnored(c: CoreState, p: seq<Blob>, b: Blob, q: seq<Blob>)
    requires Matches(b, Signatures[0])
    requires |p + q| > 0
    ensures AfterBlobs(c, p + [b] + q) == AfterBlobs(c, p + q)
  {
    NonGoalBlobIgnored(c, p, b, q);
  }

  /** Reordering a frame in any way preserves both sums. */
  lemma {:induction false} PermutationKeepsSums(s: seq<Blob>, t: seq<Blob>)
    requires multiset(s) == multiset(t)
    ensures MatchedArea(s) == MatchedArea(t) && MatchedMomentX(s) == MatchedMomentX(t)
    decreases |s|
  {
    if s == [] {
      assert |t| == |multiset(t)| == 0;
    } else {
      var x := s[|s| - 1];
      var s' := s[..|s| - 1];
      assert s == s' + [x];
      assert multiset(s') == multiset(s) - multiset{x};
      assert x in multiset(t);
      var j :| 0 <= j < |t| && t[j] == x;
      var t' := t[..j] + t[j + 1..];
      assert t == t[..j] + [x] + t[j + 1..];
      assert multiset(t') == multiset(t) - multiset{x};
      PermutationKeepsSums(s', t');
      MatchedAreaAppend(s', [x]);
      MatchedMomentXAppend(s', [x]);
      MatchedAreaAppend(t[..j] + [x], t[j + 1..]);
      MatchedAreaAppend(t[..j], [x]);
      MatchedAreaAppend(t[..j], t[j + 1..]);
      MatchedMomentXAppend(t[..j] + [x], t[j + 1..]);
      MatchedMomentXAppend(t[..j], [x]);
      MatchedMomentXAppend(t[..j], t[j + 1..]);
    }
  }

  /** The order in which the segmenter lists the blobs does not matter: any reordering gives the same state. */
  lemma {:induction false} FrameOrderIrrelevant(c: CoreState, s: seq<Blob>, t: seq<Blob>)
    requires multiset(s) == multiset(t)
    ensures AfterBlobs(c, s) == AfterBlobs(c, t)
  {
    PermutationKeepsSums(s, t);
    assert |s| == |multiset(s)| == |multiset(t)| == |t|;
  }

  lemma {:induction false} MomentBounds(blobs: seq<Blob>, lo: nat, hi: nat)
    requires forall i :: 0 <= i < |blobs| && IsGoal(blobs[i]) ==> lo <= blobs[i].x <= hi
    ensures lo * MatchedArea(blobs) <= MatchedMomentX(blobs) <= hi * MatchedArea(blobs)
  {
    if blobs != [] {
      var init := blobs[..|blobs| - 1];
      var last := blobs[|blobs| - 1];
      assert forall i :: 0 <= i < |init| && IsGoal(init[i]) ==> lo <= init[i].x <= hi by {
        forall i | 0 <= i < |init| && IsGoal(init[i]) ensures lo <= init[i].x <= hi {
          assert init[i] == blobs[i];
        }
      }
      MomentBounds(init, lo, hi);
      var a := if IsGoal(last) then last.area else 0;
      var m := if IsGoal(last) then last.area * last.x else 0;
      assert lo * a <= m <= hi * a by {
        if IsGoal(last) {
          MulMonotone(last.area, lo, last.x);
          MulMonotone(last.area, last.x, hi);
        }
      }
      Distribute(lo, MatchedArea(init), a);
      Distribute(hi, MatchedArea(init), a);
    }
  }

  lemma MulMonotone(a: nat, x: nat, y: nat)
    requires x <= y
    ensures a * x <= a * y && x * a <= y * a
  {
  }

  lemma Distribute(k: nat, x: nat, y: nat)
    ensures k * (x + y) == k * x + k * y
  {
  }

  /**
   * When the stored area has not wrapped, the centroid offset is a weighted average: it lies
   * between the smallest and the largest x of the goal blobs, re-centred on the image.
   */
  lemma {:induction false} CentroidWithinBounds(c: CoreState, blobs: seq<Blob>, lo: nat, hi: nat)
    requires forall i :: 0 <= i < |blobs| && IsGoal(blobs[i]) ==> lo <= blobs[i].x <= hi
    requires GoalAreaThreshold < MatchedArea(blobs) < 0x1_0000
    ensures AfterBlobs(c, blobs).goalFoundFlag
    ensures lo as real - 320.0 <= AfterBlobs(c, blobs).goalX <= hi as real - 320.0
  {
    MomentBounds(blobs, lo, hi);
    var area := MatchedArea(blobs);
    var m := MatchedMomentX(blobs);
    IntProductAsReal(lo, area);
    IntProductAsReal(hi, area);
    assert lo as real * area as real <= m as real <= hi as real * area as real;
    QuotientBounds(m as real, area as real, lo as real, hi as real);
    UnwrappedCentroid(c, blobs);
    assert AfterBlobs(c, blobs).goalX == m as real / area as real - 320.0;
  }

  /** Below 2^16 the stored area is the true one, so the offset is the true weighted mean minus the centre. */
  lemma {:induction false} UnwrappedCentroid(c: CoreState, blobs: seq<Blob>)
    requires GoalAreaThreshold < MatchedArea(blobs) < 0x1_0000
    ensures AfterBlobs(c, blobs).goalFoundFlag
    ensures AfterBlobs(c, blobs).goalX == MatchedMomentX(blobs) as real / MatchedArea(blobs) as real - 320.0
  {
  }

  lemma IntProductAsReal(x: nat, y: nat)
    ensures (x * y) as real == x as real * y as real
  {
  }

  /** Dividing bounds of the form lo * a <= m <= hi * a by a positive divisor. */
  lemma QuotientBounds(m: real, a: real, lo: real, hi: real)
    requires a > 0.0
    requires lo * a <= m <= hi * a
    ensures lo <= m / a <= hi
  {
  }

  /** All goal blobs at one column: the offset is that column minus the image centre. */
  lemma {:induction false} AlignedBlobsCentroid(c: CoreState, blobs: seq<Blob>, x0: nat)
    requires forall i :: 0 <= i < |blobs| && IsGoal(blobs[i]) ==> blobs[i].x == x0
    requires GoalAreaThreshold < MatchedArea(blobs) < 0x1_0000
    ensures AfterBlobs(c, blobs).goalX == x0 as real - 320.0
  {
    CentroidWithinBounds(c, blobs, x0, x0);
  }

  /**
   * The stored area is 16 bits wide: one goal blob of 65636 pixels (about a fifth of the image)
   * is stored as 100 and the goal counts as not seen.
   */
  lemma WrappedAreaHidesLargeGoal(c: CoreState)
    ensures AfterBlobs(c, [Blob(185, 66, 36, 320, 240, 65636)]).goalBlobArea == 100
    ensures !AfterBlobs(c, [Blob(185, 66, 36, 320, 240, 65636)]).goalFoundFlag
  {
  }
}
