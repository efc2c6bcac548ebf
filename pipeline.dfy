/** The pipeline controller: extraction, validation, transformation and
    aggregation chained in that fixed order. The extracted records are a
    parameter instead of a random draw; reporting the summary is not modelled. */
module Pipeline {
  import opened Stages

  /** Number of records the extractor draws. */
  const RecordCount: nat := 20
  /** Smallest value the extractor draws. */
  const LowestRecord: int := 10
  /** Largest value the extractor draws. */
  const HighestRecord: int := 100

  /** What the extractor can produce: twenty values, each in [10, 100]. */
  predicate IsExtracted(s: seq<int>) {
    |s| == RecordCount && forall k :: 0 <= k < |s| ==> LowestRecord <= s[k] <= HighestRecord
  }

  /** The pipeline as one value: validate, transform, aggregate. A failure of
      aggregation is the result of the whole run. */
  function Run(extracted: seq<int>): (r: Result<Summary, PipelineError>)
    ensures r.Failure? <==> forall k :: 0 <= k < |extracted| ==> extracted[k] <= 0
    ensures r.Success? ==> r.value.count == |Positives(extracted)| <= |extracted|
  {
    PositivesEmpty(extracted);
    PositivesNoLonger(extracted);
    DoubledAt(Positives(extracted));
    Aggregate(Doubled(Positives(extracted)))
  }

  /** Runs the stages one after another on the extracted records, as the
      controller does; the outcome is exactly `Run(extracted)`, so a run on the
      same extracted records always yields the same summary. */
  method RunPipeline(extracted: seq<int>) returns (r: Result<Summary, PipelineError>)
    ensures r == Run(extracted)
    ensures r.Failure? <==> forall k :: 0 <= k < |extracted| ==> extracted[k] <= 0
  {
    var valid := ValidateData(extracted);
    var transformed := TransformData(valid);
    r := Aggregate(transformed);
  }

  /** Validation keeps every record the extractor can produce. */
  lemma ExtractedAllKept(s: seq<int>)
    requires IsExtracted(s)
    ensures Positives(s) == s
  {
    PositivesIdentity(s);
  }

  /** The transformed records of an extraction lie within [20, 200]. */
  lemma ExtractedTransformedRange(s: seq<int>)
    requires IsExtracted(s)
    ensures |Doubled(Positives(s))| == RecordCount
    ensures forall k :: 0 <= k < |Doubled(Positives(s))| ==> 20 <= Doubled(Positives(s))[k] <= 200
  {
    ExtractedAllKept(s);
    DoubledAt(s);
    DoubledRange(s, LowestRecord, HighestRecord);
  }

  /** On any extraction the run never reaches the empty-input failure, and
      the summary describes twenty values in [20, 200]. */
  lemma ExtractedRunSucceeds(s: seq<int>)
    requires IsExtracted(s)
    ensures Run(s).Success?
    ensures Run(s).value.count == RecordCount
    ensures 20 <= Run(s).value.min <= Run(s).value.max <= 200
    ensures 400 <= Run(s).value.sum <= 4000
  {
    ExtractedTransformedRange(s);
    var t := Doubled(Positives(s));
    assert t[0] in t;
    SumBetween(t, 20, 200);
  }

  /** Validation of a mixed input keeps [1, 3, 5]. */
  lemma ValidateMixedExample()
    ensures Positives([1, -2, 3, 0, 5]) == [1, 3, 5]
  {
    assert [1, -2, 3, 0, 5][..4] == [1, -2, 3, 0];
    assert [1, -2, 3, 0][..3] == [1, -2, 3];
    assert [1, -2, 3][..2] == [1, -2];
    assert [1, -2][..1] == [1];
    assert [1][..0] == [];
  }

  /** Transformation of [1, 3, 5] gives [2, 6, 10]. */
  lemma TransformMixedExample()
    ensures Doubled([1, 3, 5]) == [2, 6, 10]
  {
    assert [1, 3, 5][..2] == [1, 3];
    assert [1, 3][..1] == [1];
    assert [1][..0] == [];
  }

  /** Aggregation of [2, 6, 10] gives count 3, min 2, max 10 and sum 18. */
  lemma AggregateMixedExample()
    ensures Aggregate([2, 6, 10]) == Success(Summary(3, 2, 10, 18))
  {
    var t: seq<int> := [2, 6, 10];
    assert t[1..] == [6, 10];
    assert t[1..][1..] == [10];
    assert Sum(t) == 18;
    assert Min(t) == 2 && Max(t) == 10;
  }

  /** A run on a mixed input summarises to count 3, min 2, max 10, mean 6. */
  lemma RunMixedExample()
    ensures Run([1, -2, 3, 0, 5]) == Success(Summary(3, 2, 10, 18))
    ensures Run([1, -2, 3, 0, 5]).value.Average() == 6.0
  {
    ValidateMixedExample();
    TransformMixedExample();
    AggregateMixedExample();
  }

  /** A run on records that are all non-positive fails with the empty-input error. */
  lemma RunAllRejectedExample()
    ensures Positives([-1, -2, 0]) == []
    ensures Run([-1, -2, 0]) == Failure(EmptyInput)
  {
    assert [-1, -2, 0][..2] == [-1, -2];
    assert [-1, -2][..1] == [-1];
    assert [-1][..0] == [];
  }
}
