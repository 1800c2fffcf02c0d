/**
 * `convert_measure_score_to_ranges` (elastic_availability_generator.py,
 * lines 37-39): an aggregate score becomes the greatest threshold of a fixed
 * ladder that does not exceed it.
 */
module Buckets {
  import opened Wrappers

  /** The visibility thresholds, ascending. */
  const Thresholds: seq<int> := [0, 10, 100, 1000, 10000, 100000, 1000000]

  /**
   * Python's `max(b for b in xs if v >= b)`: the greatest element of `xs` not
   * exceeding `v`; `None` where `max` of an empty sequence raises ValueError.
   * What it computes is stated by `GreatestAtMostIsGreatest`.
   */
  function GreatestAtMost(xs: seq<int>, v: int): (r: Option<int>)
    ensures r.Some? ==> r.value <= v
  {
    if xs == [] then None
    else
      var rest := GreatestAtMost(xs[1..], v);
      if v < xs[0] then rest
      else if rest.Some? && xs[0] < rest.value then rest
      else Some(xs[0])
  }

  /** `None` exactly when every element exceeds `v`; otherwise an element, at most `v`, and the greatest such. */
  lemma {:induction false} GreatestAtMostIsGreatest(xs: seq<int>, v: int)
    ensures var r := GreatestAtMost(xs, v);
            && (r.None? <==> forall i :: 0 <= i < |xs| ==> v < xs[i])
            && (r.Some? ==> r.value in xs)
            && (r.Some? ==> forall i :: 0 <= i < |xs| && xs[i] <= v ==> xs[i] <= r.value)
    decreases |xs|
  {
    if xs != [] {
      GreatestAtMostIsGreatest(xs[1..], v);
      assert forall i :: 1 <= i < |xs| ==> xs[i] == xs[1..][i - 1];
    }
  }

  /** The bucket of `score`; `None` (a ValueError in the source) exactly for a negative score. */
  function Bucket(score: int): (r: Option<int>)
    ensures r.None? <==> score < 0
    ensures r.Some? ==> r.value <= score
  {
    GreatestAtMostIsGreatest(Thresholds, score);
    assert Thresholds[0] == 0;
    GreatestAtMost(Thresholds, score)
  }

  /** The bucket of a non-negative score is the greatest threshold that does not exceed it. */
  lemma BucketIsGreatestThreshold(score: int)
    requires score >= 0
    ensures Bucket(score).Some? && Bucket(score).value in Thresholds
    ensures forall t :: t in Thresholds && t <= score ==> t <= Bucket(score).value
  {
    GreatestAtMostIsGreatest(Thresholds, score);
  }

  /** The bucket is monotone in the score. */
  lemma BucketMonotone(v1: int, v2: int)
    requires 0 <= v1 <= v2
    ensures Bucket(v1).Some? && Bucket(v2).Some?
    ensures Bucket(v1).value <= Bucket(v2).value
  {
    BucketIsGreatestThreshold(v1);
    BucketIsGreatestThreshold(v2);
  }

  /** The thresholds ascend strictly. */
  lemma ThresholdsAscend(j: int, k: int)
    requires 0 <= j < k < |Thresholds|
    ensures Thresholds[j] < Thresholds[k]
  {
  }

  /**
   * The bucket ranges: a score from the i-th threshold up to, but not
   * including, the next one falls in the i-th bucket; from the last
   * threshold on, every score falls in the last bucket.
   */
  lemma BucketRange(i: nat, v: int)
    requires i < |Thresholds| && Thresholds[i] <= v
    requires i + 1 < |Thresholds| ==> v < Thresholds[i + 1]
    ensures Bucket(v) == Some(Thresholds[i])
  {
    BucketIsGreatestThreshold(v);
    var b := Bucket(v).value;
    var j :| 0 <= j < |Thresholds| && Thresholds[j] == b;
    assert Thresholds[i] in Thresholds;
    if j < i {
      ThresholdsAscend(j, i);
    } else if j > i {
      ThresholdsAscend(i + 1, j);
    }
  }

  /** The ladder at its edges: 0 and 9 fall in bucket 0, 10 in 10, 999999 in 100000, 1000000 in 1000000. */
  lemma BucketEdges()
    ensures Bucket(0) == Some(0) && Bucket(9) == Some(0) && Bucket(10) == Some(10)
    ensures Bucket(999999) == Some(100000) && Bucket(1000000) == Some(1000000)
  {
    BucketRange(0, 0);
    BucketRange(0, 9);
    BucketRange(1, 10);
    BucketRange(5, 999999);
    BucketRange(6, 1000000);
  }
}
