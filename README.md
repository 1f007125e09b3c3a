# Shot-boundary detection: a Dafny model

This project models the core of `find_obj_my.py`, a shot-boundary detector
for videos. Every pair of consecutive frames gets a similarity score: the
fraction of feature correspondences that a RANSAC homography accepts as
inliers. A sliding-window classifier then turns the score sequence into two
lists of `[start, end]` intervals, one for abrupt CUTs and one for GRADUAL
transitions.

Modules:

- `Wrappers` (`wrappers.dfy`): the `Option` type, for Python's `None`.
- `Features` (`features.dfy`): `init_feature`. It picks a detector and a
  matcher from a feature name such as `orb` or `sift-flann`. Python's
  `str.split` is modelled as `Split`, with `Join` as its inverse.
- `Matching` (`matching.dfy`): `filter_matches` (the ratio test), modelled
  as a method with the source's loop. The inlier-fraction score and the
  scoring part of `match_and_draw` are here too.
- `ShotBoundary` (`shot_boundary.dfy`): the classifier. There are two
  renditions. `DetectPrefix` is the specification: it recomputes every
  window average from the scores. `Classify` is the source's `for` loop
  over local state, with a running sum and in-place updates of the last
  interval of a list. `Classify` is proved equal to the specification.
  The lemmas state the invariants and the transition table.
- `Pipeline` (`pipeline.dfy`): the driver. It makes one score per pair of
  consecutive frames, in order, then runs the classifier.

Foreign calls become parameters or inputs:

- `detectAndCompute`: its result (the keypoints of every frame) is an input.
- `knnMatch` over `desc1`/`desc2`: its candidate lists are an input.
- `cv.findHomography`: a function parameter `findHomography`, which returns
  the inlier mask. The only thing assumed about it is one mask entry per
  correspondence (`MaskPerPoint`).

The globals `kp1`, `kp2`, `desc1` and `desc2` that `match_and_draw` reads
are parameters. Scores, averages and thresholds are `real`.

Interval indices are score indices: index `i` stands for the frame pair
`(i, i + 1)`.

Take a step down from five scores of 0.9 to three scores of 0.6. The code
opens no interval for it. The valuations at indices 5, 6 and 7 (line 243)
are 0.24, 0.18 and 0.12. All of them are below `LOWER_DELTA` (0.28), so
neither the CUT test (line 245) nor the GRADUAL test (line 252) fires.
`StepDownIsNoBoundary` proves this.

## Model

| member | source | states |
|---|---|---|
| Features.Split | find_obj_my.py:32 | `name.split('-')` gives at least one chunk, and no chunk contains the separator |
| Features.JoinSplit | find_obj_my.py:32 | joining the chunks of a split with the separator gives back the original name |
| Features.SplitJoin | find_obj_my.py:32 | splitting a join of separator-free chunks gives back the chunks, so `Split` and `Join` are inverses |
| Features.InitFeature | find_obj_my.py:31-61 | the result is `None` (the source's `(None, None)`) exactly when the first chunk is not sift, surf, orb, akaze or brisk. Otherwise the detector is the one the first chunk names. The matcher is FLANN exactly when some chunk equals `flann`; its index is KD-tree (algorithm 1) for float descriptors (SIFT, SURF) and LSH (algorithm 6) for binary ones. The FLANN index is exactly KdTree(5) or Lsh(6, 12, 1). SURF gets the hessian threshold 800 and ORB 400 features. A brute-force matcher uses L2 exactly for float descriptors and Hamming otherwise |
| Features.Build | find_obj_my.py:50-60 | keeps the detector. The matcher is FLANN exactly when some chunk equals `flann`, with a KD-tree of 5 trees for L2 and LSH(6, 12, 1) otherwise; the brute-force matcher uses the given norm |
| Features.DefaultFeature | find_obj_my.py:149 | the default feature `brisk` gives BRISK with a brute-force Hamming matcher |
| Features.SiftFlann | find_obj_my.py:50-52 | `sift-flann` gives SIFT with a FLANN KD-tree index of 5 trees |
| Features.OrbFlann | find_obj_my.py:53-58 | `orb-flann` gives ORB(400) with a FLANN LSH index (table_number 6, key_size 12, multi_probe_level 1) |
| Features.FlannFirstUnknown | find_obj_my.py:33-49 | only the first chunk selects the detector, so `flann-sift` is unknown |
| Matching.KeptPairs | find_obj_my.py:66-70 | the pairs kept by the ratio test, in input order, are at most as many as the candidates |
| Matching.FirstPoints | find_obj_my.py:71 | `p1` has one point per pair, the `pt` of the pair's first keypoint |
| Matching.SecondPoints | find_obj_my.py:72 | `p2` has one point per pair, the `pt` of the pair's second keypoint |
| Matching.KeptIndices | find_obj_my.py:66-67 | lists, in increasing order, exactly the positions whose candidates pass the ratio test (exactly two candidates and `m[0].distance < m[1].distance * ratio`) |
| Matching.KeptPairsInOrder | find_obj_my.py:66-70 | the k-th kept pair is `(kp1[m[0].queryIdx], kp2[m[0].trainIdx])` of the k-th candidate that passes the test. There is one pair per such candidate, and at most as many as there are candidates |
| Matching.FilterMatches | find_obj_my.py:64-74 | the loop returns the kept pairs in input order. `p1` and `p2` are their points, and all three lists have the same length, at most the number of candidates |
| Matching.RatioTestBoundary | find_obj_my.py:67 | at ratio 0.75 against a second distance of 10, 7.4 is kept, while 7.5 (the strict bound) and 7.6 are dropped; a query with one candidate is dropped |
| Matching.Inliers | find_obj_my.py:184 | `np.sum(status)` is at most the length of the mask |
| Matching.InliersCountsTrue | find_obj_my.py:184 | the inlier count is the number of `true` entries of the mask |
| Matching.InliersAll | find_obj_my.py:184 | the count equals the mask length exactly when every entry is an inlier |
| Matching.InliersNone | find_obj_my.py:184 | the count is zero exactly when no entry is an inlier |
| Matching.MatchRatio | find_obj_my.py:182-188 | the score lies in [0, 1], and it is 0.0 when there are fewer than 4 correspondences |
| Matching.MatchRatioOne | find_obj_my.py:182-188 | the score is 1.0 exactly when there are at least 4 correspondences and all of them are inliers |
| Matching.MatchRatioZero | find_obj_my.py:182-188 | the score is 0.0 exactly when there are fewer than 4 correspondences or none is an inlier |
| Matching.PairScore | find_obj_my.py:180-188 | the score of a frame pair, from filtering to the RANSAC mask, lies in [0, 1] |
| Matching.MatchAndDraw | find_obj_my.py:178-192 | filters with ratio 0.75 and calls the homography estimator with threshold 5.0 only when there are at least 4 points. Returns the pair's score, which lies in [0, 1] and is 0.0 below 4 correspondences |
| ShotBoundary.SumRangeDropFirst | find_obj_my.py:235-237 | subtracting the score that leaves the window gives the sum of the shifted window |
| ShotBoundary.AverageInUnitInterval | find_obj_my.py:242 | the average of the K scores ending at `i`, the current score included, lies in [0, 1] when those scores do |
| ShotBoundary.Valuation | find_obj_my.py:243 | the deviation is never negative, and it is zero exactly when the score equals the window average |
| ShotBoundary.ValuationAtMostOne | find_obj_my.py:243 | with the window's scores in [0, 1], the deviation is at most 1 |
| ShotBoundary.CloseLast | find_obj_my.py:259 | `[-1][1] = i` keeps the length and every earlier interval, keeps the last start, and sets the last end to `i` |
| ShotBoundary.Transition | find_obj_my.py:245-270 | the if/elif/else of one index: from a state with at most one open interval, it yields a state with at most one open interval, the last of the list `boundary_type` names |
| ShotBoundary.ExtendsAfterTransition | find_obj_my.py:247-268 | one decision removes no interval, moves no start and changes no closed interval |
| ShotBoundary.TransitionKeepsInvariants | find_obj_my.py:245-270 | one decision keeps at most one interval open and keeps the lists ordered: proper intervals, each over before the next starts in its own list and in the other list, all indices between K-1 and the current index |
| ShotBoundary.DetectPrefix | find_obj_my.py:233-270 | after any number of scores: at most one interval is open, only the last of the list that `boundary_type` names, and none when `begin` is false. Closed intervals end after they start. Starts strictly increase within each list. Every interval, of either kind, starts after the previous one ended |
| ShotBoundary.Classify | find_obj_my.py:225-270 | the source loop returns exactly the specification's two lists: its running sum always equals the sum of the last K scores. With fewer than K scores both lists are empty. The lists are ordered and separated, and at most one interval is open, the last of its list |
| ShotBoundary.ShortStreamNoDecision | find_obj_my.py:238-240 | fewer than K = 5 scores: no decision is made and both lists stay empty |
| ShotBoundary.BeginIffOpenInterval | find_obj_my.py:229-270 | `begin` is false exactly when every interval of both lists has an end. When it is true, the open interval is the last of the list that `boundary_type` names |
| ShotBoundary.TransitionTable | find_obj_my.py:245-270 | the full transition table, stated on the three states. A valuation of at least 0.3 opens a CUT only when idle, and does nothing otherwise. A valuation in [0.28, 0.3) opens a GRADUAL when idle, closes an open CUT, and does nothing while a GRADUAL is open. A lower valuation closes whichever interval is open. Closing sets the end of the last interval only, and leaves the other list unchanged |
| ShotBoundary.AtMostOneEventPerIndex | find_obj_my.py:245-270 | each index opens or closes at most one interval: openings plus closings grow by at most one |
| ShotBoundary.DecisionsAreFinal | find_obj_my.py:247-268 | later states extend earlier ones. No interval is removed, no start moves, and a closed interval never changes again |
| ShotBoundary.Causal | find_obj_my.py:233-243 | the state after n scores depends only on those n scores |
| ShotBoundary.PrefixRun | find_obj_my.py:233-270 | running on the first n scores gives the state reached after n scores of a longer stream, so a run stopped early gives a prefix of the result |
| ShotBoundary.SingleDropIsCut | find_obj_my.py:225-270 | scores `[0.9,0.9,0.9,0.9,0.9,0.1,0.9,0.9]` give the single CUT `[5, 6]` and no GRADUAL |
| ShotBoundary.StepDownIsNoBoundary | find_obj_my.py:225-270 | scores `[0.9,0.9,0.9,0.9,0.9,0.6,0.6,0.6]` give no interval at all |
| ShotBoundary.UnterminatedCut | find_obj_my.py:245-270 | a stream that ends with a CUT open reports it with end `None`: nothing after the loop touches the cut list |
| ShotBoundary.UnterminatedGradual | find_obj_my.py:252-257 | a stream that ends with a GRADUAL open (valuation 0.29 at index 5) reports it with end `None` and no CUT. The fix-up for an open GRADUAL (lines 271-272) is commented out |
| Pipeline.FrameScores | find_obj_my.py:203-218 | one score per pair of consecutive frames, each in [0, 1] |
| Pipeline.ScoreFrames | find_obj_my.py:203-223 | the capture loop appends, in frame order, the score of each frame against the previous one |
| Pipeline.DetectShots | find_obj_my.py:203-270 | the boundary lists are those of the classifier over the frame scores, and every index is a valid score index |

## Left out

- `explore_match` and its mouse callback `onmouse` (find_obj_my.py:76-140) are drawing and UI only. They do not affect the score.
- Video capture and feature detection (`video.create_capture`, `cap.read`, `cv.cvtColor`, `detectAndCompute`) are foreign I/O. Their results are inputs.
- Stopping on the ESC key (`waitKey`, line 219-221) is not modelled. A run stopped early yields the classifier over a prefix of the scores (`PrefixRun`).
- The internals of SIFT, SURF, ORB, AKAZE and BRISK, of `knnMatch` and of RANSAC are foreign. The OpenCV constructors are recorded as values with their arguments.
- A homography estimation that fails and returns no mask is not modelled. The mask is assumed to hold one entry per correspondence (`MaskPerPoint`).
- Keypoint fields other than `pt` are not modelled, because the core reads only `pt`.
- The `print` diagnostics are output only and are not modelled. So are the exit on an unknown feature (lines 172-174) and the `pickle` dumps (lines 273-278).
- The commented-out lines within 150-170, and lines 271-272 and 279-295, are dead code. The live argument handling at lines 155-159 (the video source from `sys.argv[2]`) is I/O.
- find_obj_test.py is not part of this model. It only loads the saved results and paints and shows frames.
- The model assumes Python 2 semantics. The classifier loop uses `xrange` (line 233), which Python 3 does not have; there the loop raises NameError before its first decision, despite the compatibility import at lines 17-18.
- Floating point is not modelled: scores, averages and the thresholds 0.3 and 0.28 are exact reals, and the `np.float32` conversion of points is the identity. Near a threshold, IEEE rounding could decide differently.
- Matching.FilterMatches: requires that every candidate passing the ratio test has non-negative, in-range indices, as `knnMatch` guarantees. Python's negative indexing is not modelled.
