/**
 * From k-nearest-neighbour candidates to a frame-pair similarity score
 * (find_obj_my.py, `filter_matches` and the scoring part of
 * `match_and_draw`).  Keypoint detection, `knnMatch` and RANSAC homography
 * estimation are foreign: their outputs are inputs here.
 */
module Matching {
  /** A 2-D image location, `KeyPoint.pt`. */
  datatype Point = Point(x: real, y: real)

  /** A detected keypoint; only its location is used by the core. */
  datatype KeyPoint = KeyPoint(pt: Point)

  /** One candidate of `knnMatch`: indices into the two keypoint lists and a descriptor distance. */
  datatype DMatch = DMatch(queryIdx: int, trainIdx: int, distance: real)

  /** The default ratio of the ratio test. */
  const DefaultRatio: real := 0.75

  /** The reprojection threshold passed to RANSAC. */
  const RansacThreshold: real := 5.0

  /** Fewer correspondences than this leave the homography undetermined. */
  const MinCorrespondences: nat := 4

  /** The ratio test: exactly two candidates, the best clearly closer than the second. */
  predicate Kept(m: seq<DMatch>, ratio: real) {
    |m| == 2 && m[0].distance < m[1].distance * ratio
  }

  /** The best candidate of `m` indexes into both keypoint lists. */
  predicate InRange(kp1: seq<KeyPoint>, kp2: seq<KeyPoint>, m: seq<DMatch>) {
    |m| > 0 && 0 <= m[0].queryIdx < |kp1| && 0 <= m[0].trainIdx < |kp2|
  }

  /**
   * What `knnMatch` guarantees: the candidates that pass the ratio test
   * point at existing keypoints.
   */
  predicate IndicesValid(kp1: seq<KeyPoint>, kp2: seq<KeyPoint>, matches: seq<seq<DMatch>>, ratio: real) {
    forall m :: m in matches && Kept(m, ratio) ==> InRange(kp1, kp2, m)
  }

  /** The keypoint pair of the best candidate. */
  function PairOf(kp1: seq<KeyPoint>, kp2: seq<KeyPoint>, m: seq<DMatch>): (KeyPoint, KeyPoint)
    requires InRange(kp1, kp2, m)
  {
    (kp1[m[0].queryIdx], kp2[m[0].trainIdx])
  }

  /** The pairs kept by the ratio test, in the order of their candidates. */
  function KeptPairs(kp1: seq<KeyPoint>, kp2: seq<KeyPoint>, matches: seq<seq<DMatch>>, ratio: real)
    : (pairs: seq<(KeyPoint, KeyPoint)>)
    requires IndicesValid(kp1, kp2, matches, ratio)
    ensures |pairs| <= |matches|
    decreases |matches|
  {
    if matches == [] then []
    else
      var init, m := matches[..|matches| - 1], matches[|matches| - 1];
      assert forall x :: x in init ==> x in matches;
      KeptPairs(kp1, kp2, init, ratio) + (if Kept(m, ratio) then [PairOf(kp1, kp2, m)] else [])
  }

  /** The positions of the candidates that pass the ratio test, in increasing order. */
  function KeptIndices(matches: seq<seq<DMatch>>, ratio: real): (idx: seq<nat>)
    ensures forall k :: 0 <= k < |idx| ==> idx[k] < |matches| && Kept(matches[idx[k]], ratio)
    ensures forall k, l :: 0 <= k < l < |idx| ==> idx[k] < idx[l]
    ensures forall j :: 0 <= j < |matches| && Kept(matches[j], ratio) ==> j in idx
    decreases |matches|
  {
    if matches == [] then []
    else
      var n := |matches| - 1;
      var init := KeptIndices(matches[..n], ratio);
      assert forall j :: 0 <= j < n ==> matches[..n][j] == matches[j];
      init + (if Kept(matches[n], ratio) then [n] else [])
  }

  /**
   * The k-th kept pair comes from the k-th candidate that passes the ratio
   * test, and there is one kept pair per such candidate.
   */
  lemma {:induction false} KeptPairsInOrder(kp1: seq<KeyPoint>, kp2: seq<KeyPoint>,
                                            matches: seq<seq<DMatch>>, ratio: real)
    requires IndicesValid(kp1, kp2, matches, ratio)
    ensures |KeptPairs(kp1, kp2, matches, ratio)| == |KeptIndices(matches, ratio)| <= |matches|
    ensures forall k :: 0 <= k < |KeptIndices(matches, ratio)| ==>
              InRange(kp1, kp2, matches[KeptIndices(matches, ratio)[k]])
    ensures forall k :: 0 <= k < |KeptIndices(matches, ratio)| ==>
              KeptPairs(kp1, kp2, matches, ratio)[k] == PairOf(kp1, kp2, matches[KeptIndices(matches, ratio)[k]])
    decreases |matches|
  {
    var idx := KeptIndices(matches, ratio);
    forall k | 0 <= k < |idx| ensures InRange(kp1, kp2, matches[idx[k]]) {
      assert matches[idx[k]] in matches;
    }
    if matches != [] {
      var n := |matches| - 1;
      var init := matches[..n];
      assert forall x :: x in init ==> x in matches;
      KeptPairsInOrder(kp1, kp2, init, ratio);
      var pairs, pairs0, idx0 := KeptPairs(kp1, kp2, matches, ratio), KeptPairs(kp1, kp2, init, ratio), KeptIndices(init, ratio);
      forall k | 0 <= k < |idx| ensures pairs[k] == PairOf(kp1, kp2, matches[idx[k]]) {
        if k < |idx0| {
          assert idx[k] == idx0[k] && pairs[k] == pairs0[k];
          assert init[idx0[k]] == matches[idx0[k]];
        }
      }
    }
  }

  /** The points `p1` (or `p2`) of a list of keypoint pairs. */
  function FirstPoints(pairs: seq<(KeyPoint, KeyPoint)>): (ps: seq<Point>)
    ensures |ps| == |pairs| && forall k :: 0 <= k < |ps| ==> ps[k] == pairs[k].0.pt
  {
    seq(|pairs|, k requires 0 <= k < |pairs| => pairs[k].0.pt)
  }

  function SecondPoints(pairs: seq<(KeyPoint, KeyPoint)>): (ps: seq<Point>)
    ensures |ps| == |pairs| && forall k :: 0 <= k < |ps| ==> ps[k] == pairs[k].1.pt
  {
    seq(|pairs|, k requires 0 <= k < |pairs| => pairs[k].1.pt)
  }

  /**
   * `filter_matches`: keep the best candidate of each query that passes
   * the ratio test; return the two point lists and the keypoint pairs.
   */
  method FilterMatches(kp1: seq<KeyPoint>, kp2: seq<KeyPoint>, matches: seq<seq<DMatch>>, ratio: real)
    returns (p1: seq<Point>, p2: seq<Point>, kpPairs: seq<(KeyPoint, KeyPoint)>)
    requires IndicesValid(kp1, kp2, matches, ratio)
    ensures kpPairs == KeptPairs(kp1, kp2, matches, ratio)
    ensures |p1| == |p2| == |kpPairs| <= |matches|
    ensures forall k :: 0 <= k < |kpPairs| ==> p1[k] == kpPairs[k].0.pt && p2[k] == kpPairs[k].1.pt
  {
    var mkp1: seq<KeyPoint>, mkp2: seq<KeyPoint> := [], [];
    for i := 0 to |matches|
      invariant |mkp1| == |mkp2| == |KeptPairs(kp1, kp2, matches[..i], ratio)| <= i
      invariant forall k :: 0 <= k < |mkp1| ==> KeptPairs(kp1, kp2, matches[..i], ratio)[k] == (mkp1[k], mkp2[k])
    {
      assert matches[..i + 1][..i] == matches[..i];
      var m := matches[i];
      assert m in matches;
      if |m| == 2 && m[0].distance < m[1].distance * ratio {
        mkp1 := mkp1 + [kp1[m[0].queryIdx]];
        mkp2 := mkp2 + [kp2[m[0].trainIdx]];
      }
    }
    assert matches[..|matches|] == matches;
    kpPairs := seq(|mkp1|, k requires 0 <= k < |mkp1| => (mkp1[k], mkp2[k]));
    p1 := seq(|mkp1|, k requires 0 <= k < |mkp1| => mkp1[k].pt);
    p2 := seq(|mkp2|, k requires 0 <= k < |mkp2| => mkp2[k].pt);
  }

  /** `np.sum(status)`: the number of inliers in a RANSAC mask. */
  function Inliers(status: seq<bool>): (n: nat)
    ensures n <= |status|
    decreases |status|
  {
    if status == [] then 0
    else Inliers(status[..|status| - 1]) + (if status[|status| - 1] then 1 else 0)
  }

  /** The inlier count is the number of `true` entries of the mask. */
  lemma {:induction false} InliersCountsTrue(status: seq<bool>)
    ensures Inliers(status) == multiset(status)[true]
    decreases |status|
  {
    if status != [] {
      var n := |status| - 1;
      InliersCountsTrue(status[..n]);
      assert status == status[..n] + [status[n]];
      assert multiset(status) == multiset(status[..n]) + multiset{status[n]};
    }
  }

  /** Every correspondence is an inlier exactly when the count reaches the length. */
  lemma {:induction false} InliersAll(status: seq<bool>)
    ensures Inliers(status) == |status| <==> forall k :: 0 <= k < |status| ==> status[k]
    decreases |status|
  {
    if status != [] {
      var n := |status| - 1;
      InliersAll(status[..n]);
      assert forall k :: 0 <= k < n ==> status[..n][k] == status[k];
    }
  }

  /** No inlier exactly when the count is zero. */
  lemma {:induction false} InliersNone(status: seq<bool>)
    ensures Inliers(status) == 0 <==> forall k :: 0 <= k < |status| ==> !status[k]
    decreases |status|
  {
    if status != [] {
      var n := |status| - 1;
      InliersNone(status[..n]);
      assert forall k :: 0 <= k < n ==> status[..n][k] == status[k];
    }
  }

  /**
   * The similarity of a frame pair from `matched` correspondences and the
   * RANSAC mask over them: 0.0 below four correspondences, otherwise the
   * fraction of inliers.  The mask has one entry per correspondence.
   */
  function MatchRatio(matched: nat, status: seq<bool>): (r: real)
    requires matched >= MinCorrespondences ==> |status| == matched
    ensures 0.0 <= r <= 1.0
    ensures matched < MinCorrespondences ==> r == 0.0
  {
    if matched >= MinCorrespondences then 1.0 * (Inliers(status) as real) / (|status| as real)
    else 0.0
  }

  /** The score is 1.0 exactly when there are enough correspondences and all are inliers. */
  lemma MatchRatioOne(matched: nat, status: seq<bool>)
    requires matched >= MinCorrespondences ==> |status| == matched
    ensures MatchRatio(matched, status) == 1.0 <==>
              matched >= MinCorrespondences && forall k :: 0 <= k < |status| ==> status[k]
  {
    InliersAll(status);
  }

  /** The score is 0.0 exactly when correspondences are too few or none is an inlier. */
  lemma MatchRatioZero(matched: nat, status: seq<bool>)
    requires matched >= MinCorrespondences ==> |status| == matched
    ensures MatchRatio(matched, status) == 0.0 <==>
              matched < MinCorrespondences || forall k :: 0 <= k < |status| ==> !status[k]
  {
    InliersNone(status);
  }

  /** The contract of `cv.findHomography`: one mask entry per correspondence. */
  ghost predicate MaskPerPoint(findHomography: (seq<Point>, seq<Point>, real) -> seq<bool>) {
    forall a, b :: |a| == |b| ==> |findHomography(a, b, RansacThreshold)| == |a|
  }

  /** The similarity score of one frame pair, as a function of the foreign outputs. */
  function PairScore(kp1: seq<KeyPoint>, kp2: seq<KeyPoint>, rawMatches: seq<seq<DMatch>>,
                     findHomography: (seq<Point>, seq<Point>, real) -> seq<bool>): (r: real)
    requires IndicesValid(kp1, kp2, rawMatches, DefaultRatio) && MaskPerPoint(findHomography)
    ensures 0.0 <= r <= 1.0
  {
    var pairs := KeptPairs(kp1, kp2, rawMatches, DefaultRatio);
    if |pairs| >= MinCorrespondences then
      MatchRatio(|pairs|, findHomography(FirstPoints(pairs), SecondPoints(pairs), RansacThreshold))
    else 0.0
  }

  /**
   * `match_and_draw` without the drawing: filter the candidates, estimate a
   * homography when there are at least four correspondences, and return
   * the inlier fraction.  `kp1`, `kp2` and the `knnMatch` result over
   * `desc1`, `desc2` are parameters instead of globals.
   */
  method MatchAndDraw(kp1: seq<KeyPoint>, kp2: seq<KeyPoint>, rawMatches: seq<seq<DMatch>>,
                      findHomography: (seq<Point>, seq<Point>, real) -> seq<bool>)
    returns (matchRatio: real)
    requires IndicesValid(kp1, kp2, rawMatches, DefaultRatio) && MaskPerPoint(findHomography)
    ensures matchRatio == PairScore(kp1, kp2, rawMatches, findHomography)
    ensures 0.0 <= matchRatio <= 1.0
    ensures |KeptPairs(kp1, kp2, rawMatches, DefaultRatio)| < MinCorrespondences ==> matchRatio == 0.0
  {
    var p1, p2, kpPairs := FilterMatches(kp1, kp2, rawMatches, DefaultRatio);
    if |p1| >= 4 {
      assert p1 == FirstPoints(kpPairs) && p2 == SecondPoints(kpPairs);
      var status := findHomography(p1, p2, RansacThreshold);
      matchRatio := 1.0 * (Inliers(status) as real) / (|status| as real);
    } else {
      matchRatio := 0.0;
    }
  }

  /** The ratio-test boundary: kept at 7.4 against 10 at ratio 0.75, dropped at 7.5 and 7.6. */
  lemma RatioTestBoundary()
    ensures Kept([DMatch(0, 0, 7.4), DMatch(0, 1, 10.0)], DefaultRatio)
    ensures !Kept([DMatch(0, 0, 7.5), DMatch(0, 1, 10.0)], DefaultRatio)
    ensures !Kept([DMatch(0, 0, 7.6), DMatch(0, 1, 10.0)], DefaultRatio)
    ensures !Kept([DMatch(0, 0, 1.0)], DefaultRatio)
  {
  }
}
