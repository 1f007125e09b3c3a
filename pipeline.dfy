/**
 * The driver around the core (find_obj_my.py, the capture loop and the
 * call of the classifier): one similarity score per pair of consecutive
 * frames, in frame order, then the classifier over the score sequence.
 * Frame capture and keypoint detection are foreign: the keypoints of every
 * frame and the `knnMatch` candidates of every pair are inputs.
 */
module Pipeline {
  import opened Matching
  import ShotBoundary

  /** What the collaborators guarantee for the candidates of every pair. */
  predicate PairsValid(keypoints: seq<seq<KeyPoint>>, rawMatches: seq<seq<seq<DMatch>>>) {
    && |keypoints| >= 1
    && |rawMatches| == |keypoints| - 1
    && forall i :: 0 <= i < |rawMatches| ==>
         IndicesValid(keypoints[i], keypoints[i + 1], rawMatches[i], DefaultRatio)
  }

  /** The score sequence: entry `i` scores frames `i` and `i + 1`. */
  function FrameScores(keypoints: seq<seq<KeyPoint>>, rawMatches: seq<seq<seq<DMatch>>>,
                       findHomography: (seq<Point>, seq<Point>, real) -> seq<bool>): (scores: seq<real>)
    requires PairsValid(keypoints, rawMatches) && MaskPerPoint(findHomography)
    ensures |scores| == |keypoints| - 1
    ensures forall i :: 0 <= i < |scores| ==> 0.0 <= scores[i] <= 1.0
  {
    seq(|rawMatches|, i requires 0 <= i < |rawMatches| =>
      PairScore(keypoints[i], keypoints[i + 1], rawMatches[i], findHomography))
  }

  /** The capture loop: score each new frame against the previous one. */
  method ScoreFrames(keypoints: seq<seq<KeyPoint>>, rawMatches: seq<seq<seq<DMatch>>>,
                     findHomography: (seq<Point>, seq<Point>, real) -> seq<bool>)
    returns (matchRatios: seq<real>)
    requires PairsValid(keypoints, rawMatches) && MaskPerPoint(findHomography)
    ensures matchRatios == FrameScores(keypoints, rawMatches, findHomography)
  {
    matchRatios := [];
    for i := 1 to |keypoints|
      invariant |matchRatios| == i - 1
      invariant forall j :: 0 <= j < i - 1 ==>
                  matchRatios[j] == PairScore(keypoints[j], keypoints[j + 1], rawMatches[j], findHomography)
    {
      var matchRatio := MatchAndDraw(keypoints[i - 1], keypoints[i], rawMatches[i - 1], findHomography);
      matchRatios := matchRatios + [matchRatio];
    }
  }

  /** The whole run: scores, then the CUT and GRADUAL boundary lists. */
  method DetectShots(keypoints: seq<seq<KeyPoint>>, rawMatches: seq<seq<seq<DMatch>>>,
                     findHomography: (seq<Point>, seq<Point>, real) -> seq<bool>)
    returns (cuts: seq<ShotBoundary.Interval>, graduals: seq<ShotBoundary.Interval>)
    requires PairsValid(keypoints, rawMatches) && MaskPerPoint(findHomography)
    ensures var d := ShotBoundary.Detect(FrameScores(keypoints, rawMatches, findHomography));
      cuts == d.cuts && graduals == d.graduals
    ensures ShotBoundary.Within(cuts, |keypoints| - 1) && ShotBoundary.Within(graduals, |keypoints| - 1)
  {
    var matchRatios := ScoreFrames(keypoints, rawMatches, findHomography);
    cuts, graduals := ShotBoundary.Classify(matchRatios);
  }
}
