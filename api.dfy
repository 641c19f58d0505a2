/**
 * The pure helpers of the service layer: the primary (highest-scoring)
 * classification of a document and the low-confidence test built on it.
 */
module Api {
  import opened Records

  /** A primary score strictly below this is low confidence. */
  const LowConfidenceThreshold: real := 0.7

  /**
   * The `reduce` of getPrimaryClassification, with the accumulator kept as
   * an index: `best` is the winner among the entries before `i`, and an
   * entry replaces it only when its score is strictly greater.
   */
  function ReduceMax(cs: seq<Classification>, best: nat, i: nat): (k: nat)
    requires best < i <= |cs|
    requires forall j :: 0 <= j < i ==> cs[j].score <= cs[best].score
    requires forall j :: 0 <= j < best ==> cs[j].score < cs[best].score
    ensures k < |cs|
    ensures forall j :: 0 <= j < |cs| ==> cs[j].score <= cs[k].score
    ensures forall j :: 0 <= j < k ==> cs[j].score < cs[k].score
    decreases |cs| - i
  {
    if i == |cs| then best
    else ReduceMax(cs, if cs[i].score > cs[best].score then i else best, i + 1)
  }

  /** Position of the primary classification: the first entry with the maximum score. */
  function PrimaryIndex(cs: seq<Classification>): (k: nat)
    requires |cs| > 0
    ensures k < |cs|
    ensures forall j :: 0 <= j < |cs| ==> cs[j].score <= cs[k].score
    ensures forall j :: 0 <= j < k ==> cs[j].score < cs[k].score
  {
    ReduceMax(cs, 0, 1)
  }

  function GetPrimaryClassification(cs: seq<Classification>): (r: Option<Classification>)
    ensures r.None? <==> |cs| == 0
    ensures r.Some? ==> r.value in cs
    ensures r.Some? ==> forall j :: 0 <= j < |cs| ==> cs[j].score <= r.value.score
  {
    if |cs| == 0 then None else Some(cs[PrimaryIndex(cs)])
  }

  /**
   * Ties go to the first occurrence: the entry at the smallest index that
   * holds the maximum score is the primary one.
   */
  lemma PrimaryIsFirstMaximum(cs: seq<Classification>, k: nat)
    requires k < |cs|
    requires forall j :: 0 <= j < |cs| ==> cs[j].score <= cs[k].score
    requires forall j :: 0 <= j < k ==> cs[j].score < cs[k].score
    ensures PrimaryIndex(cs) == k
    ensures GetPrimaryClassification(cs) == Some(cs[k])
  {
  }

  function IsLowConfidence(cs: seq<Classification>): (r: bool)
    ensures |cs| == 0 ==> !r
    ensures |cs| > 0 ==> (r <==> GetPrimaryClassification(cs).value.score < LowConfidenceThreshold)
  {
    match GetPrimaryClassification(cs)
    case Some(primary) => primary.score < LowConfidenceThreshold
    case None => false
  }

  /** On a non-empty list, low confidence means every entry scores below 0.7. */
  lemma LowConfidenceIffAllBelow(cs: seq<Classification>)
    requires |cs| > 0
    ensures IsLowConfidence(cs) <==> forall j :: 0 <= j < |cs| ==> cs[j].score < LowConfidenceThreshold
  {
    var k := PrimaryIndex(cs);
    assert cs[k].score == GetPrimaryClassification(cs).value.score;
  }

  /** The threshold itself is not low confidence. */
  lemma ThresholdIsNotLow(name: string)
    ensures !IsLowConfidence([Classification(name, 0.7)])
  {
  }

  /** The worked example of the service's callers: Medical wins with 0.9. */
  lemma PrimaryExample()
    ensures GetPrimaryClassification([Classification("Medical", 0.9), Classification("Legal", 0.1)])
            == Some(Classification("Medical", 0.9))
  {
    PrimaryIsFirstMaximum([Classification("Medical", 0.9), Classification("Legal", 0.1)], 0);
  }
}
