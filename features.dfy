/**
 * Choice of feature detector and descriptor matcher from a feature name such
 * as "orb" or "sift-flann" (find_obj_my.py, `init_feature`).  The OpenCV
 * constructors are foreign; the model records which one is called and with
 * which arguments.
 */
module Features {
  import opened Wrappers

  /** The detectors the source can construct, with their constructor arguments. */
  datatype Detector =
    | Sift
    | Surf(hessianThreshold: int)
    | Orb(nFeatures: int)
    | Akaze
    | Brisk

  /** Distance norm used to compare descriptors. */
  datatype Norm = L2 | Hamming

  /** FLANN index parameters (`flann_params`). */
  datatype FlannIndex =
    | KdTree(trees: nat)
    | Lsh(tableNumber: nat, keySize: nat, multiProbeLevel: nat)

  /** The descriptor matcher: FLANN-based or brute force with a norm. */
  datatype Matcher = Flann(index: FlannIndex) | BruteForce(norm: Norm)

  datatype FeatureSetup = FeatureSetup(detector: Detector, matcher: Matcher)

  /** FLANN_INDEX_KDTREE and FLANN_INDEX_LSH as the source numbers them. */
  const FlannIndexKdTree: nat := 1
  const FlannIndexLsh: nat := 6

  function AlgorithmId(index: FlannIndex): nat {
    match index
    case KdTree(_) => FlannIndexKdTree
    case Lsh(_, _, _) => FlannIndexLsh
  }

  /** The feature names the source recognises, in the order it tests them. */
  const KnownNames: seq<string> := ["sift", "surf", "orb", "akaze", "brisk"]

  /** The name under which each detector is selected. */
  function NameOf(d: Detector): string {
    match d
    case Sift => "sift"
    case Surf(_) => "surf"
    case Orb(_) => "orb"
    case Akaze => "akaze"
    case Brisk => "brisk"
  }

  /**
   * SIFT and SURF produce floating-point descriptors, compared with the
   * Euclidean norm; ORB, AKAZE and BRISK produce binary descriptors,
   * compared with the Hamming norm.
   */
  predicate FloatDescriptors(d: Detector) {
    d.Sift? || d.Surf?
  }

  /** Python's `str.split(sep)`: the maximal runs between separators, empty ones included. */
  function Split(s: string, sep: char): (chunks: seq<string>)
    ensures |chunks| >= 1
    ensures forall k :: 0 <= k < |chunks| ==> sep !in chunks[k]
    decreases |s|
  {
    if s == [] then [[]]
    else
      var rest := Split(s[1..], sep);
      if s[0] == sep then [[]] + rest
      else [[s[0]] + rest[0]] + rest[1..]
  }

  /** A string free of the separator is a single chunk. */
  lemma {:induction false} SplitNoSeparator(s: string, sep: char)
    requires sep !in s
    ensures Split(s, sep) == [s]
    decreases |s|
  {
    if s != [] {
      assert sep !in s[1..] by { assert forall x :: x in s[1..] ==> x in s; }
      SplitNoSeparator(s[1..], sep);
      assert s[0] != sep by { assert s[0] in s; }
      assert [s[0]] + s[1..] == s;
    }
  }

  /** The first separator ends the first chunk; the rest is split on its own. */
  lemma {:induction false} SplitAtFirst(s: string, sep: char, k: nat)
    requires k < |s| && s[k] == sep && sep !in s[..k]
    ensures Split(s, sep) == [s[..k]] + Split(s[k + 1..], sep)
    decreases k
  {
    if k == 0 {
      assert s[1..] == s[k + 1..];
    } else {
      assert s[0] != sep by { assert s[..k][0] == s[0]; }
      assert s[1..][..k - 1] == s[1..k];
      assert sep !in s[1..k] by { assert forall x :: x in s[1..k] ==> x in s[..k]; }
      SplitAtFirst(s[1..], sep, k - 1);
      assert s[1..][k..] == s[k + 1..];
      assert [s[0]] + s[1..k] == s[..k];
    }
  }

  /** Python's `sep.join(chunks)`, the inverse of `Split`. */
  function Join(chunks: seq<string>, sep: char): string
    requires |chunks| >= 1
    decreases |chunks|
  {
    if |chunks| == 1 then chunks[0] else chunks[0] + [sep] + Join(chunks[1..], sep)
  }

  /** Joining the chunks of a split gives back the original string. */
  lemma {:induction false} JoinSplit(s: string, sep: char)
    ensures Join(Split(s, sep), sep) == s
    decreases |s|
  {
    if s != [] {
      JoinSplit(s[1..], sep);
      var rest := Split(s[1..], sep);
      if s[0] != sep {
        if |rest| == 1 {
          assert Split(s, sep) == [[s[0]] + rest[0]];
        } else {
          var chunks := Split(s, sep);
          assert chunks[1..] == rest[1..];
          assert Join(chunks, sep) == [s[0]] + rest[0] + [sep] + Join(rest[1..], sep);
        }
        assert s == [s[0]] + s[1..];
      } else {
        assert Split(s, sep)[1..] == rest;
        assert s == [sep] + s[1..];
      }
    }
  }

  /** Splitting a join of separator-free chunks gives back the chunks. */
  lemma {:induction false} SplitJoin(chunks: seq<string>, sep: char)
    requires |chunks| >= 1
    requires forall k :: 0 <= k < |chunks| ==> sep !in chunks[k]
    ensures Split(Join(chunks, sep), sep) == chunks
    decreases |chunks|
  {
    var c := chunks[0];
    assert sep !in c;
    if |chunks| == 1 {
      SplitNoSeparator(c, sep);
    } else {
      var rest := chunks[1..];
      assert forall k :: 0 <= k < |rest| ==> sep !in rest[k] by {
        forall k | 0 <= k < |rest| ensures sep !in rest[k] { assert rest[k] == chunks[k + 1]; }
      }
      SplitJoin(rest, sep);
      var j := Join(chunks, sep);
      assert j == c + [sep] + Join(rest, sep);
      assert j[..|c|] == c && j[|c|] == sep && j[|c| + 1..] == Join(rest, sep);
      SplitAtFirst(j, sep, |c|);
      assert [c] + rest == chunks;
    }
  }

  /**
   * `init_feature`: choose a detector from the first `-`-separated chunk of
   * the name, and a FLANN matcher when some chunk is exactly "flann", a
   * brute-force matcher otherwise.  An unknown first chunk gives `None`
   * (the source's `(None, None)`).
   */
  function InitFeature(name: string): (r: Option<FeatureSetup>)
    ensures r.None? <==> Split(name, '-')[0] !in KnownNames
    ensures r.Some? ==> NameOf(r.value.detector) == Split(name, '-')[0]
    ensures r.Some? ==> (r.value.matcher.Flann? <==> "flann" in Split(name, '-'))
    ensures r.Some? && r.value.matcher.Flann? ==>
              AlgorithmId(r.value.matcher.index) ==
                (if FloatDescriptors(r.value.detector) then FlannIndexKdTree else FlannIndexLsh)
    ensures r.Some? && r.value.matcher.Flann? ==>
              r.value.matcher.index == (if FloatDescriptors(r.value.detector) then KdTree(5) else Lsh(6, 12, 1))
    ensures r.Some? && r.value.detector.Surf? ==> r.value.detector.hessianThreshold == 800
    ensures r.Some? && r.value.detector.Orb? ==> r.value.detector.nFeatures == 400
    ensures r.Some? && r.value.matcher.BruteForce? ==>
              (r.value.matcher.norm == L2 <==> FloatDescriptors(r.value.detector))
  {
    var chunks := Split(name, '-');
    if chunks[0] == "sift" then Some(Build(Sift, L2, chunks))
    else if chunks[0] == "surf" then Some(Build(Surf(800), L2, chunks))
    else if chunks[0] == "orb" then Some(Build(Orb(400), Hamming, chunks))
    else if chunks[0] == "akaze" then Some(Build(Akaze, Hamming, chunks))
    else if chunks[0] == "brisk" then Some(Build(Brisk, Hamming, chunks))
    else None
  }

  /** The matcher half of `init_feature`, once the detector and its norm are known. */
  function Build(detector: Detector, norm: Norm, chunks: seq<string>): (r: FeatureSetup)
    ensures r.detector == detector
    ensures r.matcher.Flann? <==> "flann" in chunks
    ensures r.matcher.Flann? ==> r.matcher.index == (if norm == L2 then KdTree(5) else Lsh(6, 12, 1))
    ensures r.matcher.BruteForce? ==> r.matcher.norm == norm
  {
    var matcher :=
      if "flann" in chunks then
        if norm == L2 then Flann(KdTree(5)) else Flann(Lsh(6, 12, 1))
      else BruteForce(norm);
    FeatureSetup(detector, matcher)
  }

  /** The default feature, "brisk", uses BRISK with a brute-force Hamming matcher. */
  lemma DefaultFeature()
    ensures InitFeature("brisk") == Some(FeatureSetup(Brisk, BruteForce(Hamming)))
  {
    SplitNoSeparator("brisk", '-');
  }

  /** "sift-flann" builds a KD-tree FLANN index with five trees. */
  lemma SiftFlann()
    ensures InitFeature("sift-flann") == Some(FeatureSetup(Sift, Flann(KdTree(5))))
  {
    assert Split("sift-flann", '-') == ["sift", "flann"] by {
      SplitTwo("sift", "flann");
      assert "sift" + "-" + "flann" == "sift-flann";
    }
  }

  /** "orb-flann" builds an LSH FLANN index. */
  lemma OrbFlann()
    ensures InitFeature("orb-flann") == Some(FeatureSetup(Orb(400), Flann(Lsh(6, 12, 1))))
  {
    assert Split("orb-flann", '-') == ["orb", "flann"] by {
      SplitTwo("orb", "flann");
      assert "orb" + "-" + "flann" == "orb-flann";
    }
  }

  /** The detector must come first: "flann-sift" is not a known feature. */
  lemma FlannFirstUnknown()
    ensures InitFeature("flann-sift").None?
  {
    assert Split("flann-sift", '-') == ["flann", "sift"] by {
      SplitTwo("flann", "sift");
      assert "flann" + "-" + "sift" == "flann-sift";
    }
  }

  lemma SplitTwo(a: string, b: string)
    requires '-' !in a && '-' !in b
    ensures Split(a + "-" + b, '-') == [a, b]
  {
    var s := a + "-" + b;
    assert s[..|a|] == a && s[|a| + 1..] == b;
    SplitAtFirst(s, '-', |a|);
    SplitNoSeparator(b, '-');
  }
}
