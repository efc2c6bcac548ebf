/** The three data stages of the batch pipeline: validation (an order-preserving
    filter), transformation (an element-wise doubling map) and aggregation (a
    reduction to count, minimum, maximum and an exact mean).

    Validation and transformation build their output list with a loop and an
    append, so they are methods; each is proved equal to a specification
    function (Positives, Doubled) whose properties are lemmas below.
    Aggregation is a single record expression over built-in reductions, so it
    is a function. */
module Stages {

  /** Outcome of a stage that can fail. */
  datatype Result<+T, +E> = Success(value: T) | Failure(error: E)

  /** The one failure of the pipeline: min, max and mean of an empty list raise. */
  datatype PipelineError = EmptyInput

  // ---------------------------------------------------------------------------
  // Validation
  // ---------------------------------------------------------------------------

  /** The validation test applied to each record. */
  predicate IsValid(x: int) {
    x > 0
  }

  /** The records of `s` that pass validation, in their original order.
      Defined from the end of the sequence, following the append loop. */
  function Positives(s: seq<int>): seq<int>
  {
    if s == [] then []
    else Positives(s[..|s| - 1]) + (if IsValid(s[|s| - 1]) then [s[|s| - 1]] else [])
  }

  /** Keeps the strictly positive records of `data`, in order, appending each
      one to a fresh list. Never fails. */
  method ValidateData(data: seq<int>) returns (valid: seq<int>)
    ensures valid == Positives(data)
    ensures forall k :: 0 <= k < |valid| ==> valid[k] > 0
    ensures |valid| <= |data|
  {
    valid := [];
    for i := 0 to |data|
      invariant valid == Positives(data[..i])
    {
      assert data[..i + 1][..i] == data[..i];
      if data[i] > 0 {
        valid := valid + [data[i]];
      }
    }
    assert data[..|data|] == data;
    PositivesAllValid(data);
    PositivesNoLonger(data);
  }

  /** Every record that survives validation is strictly positive. */
  lemma {:induction false} PositivesAllValid(s: seq<int>)
    ensures forall k :: 0 <= k < |Positives(s)| ==> Positives(s)[k] > 0
  {
    if s != [] {
      PositivesAllValid(s[..|s| - 1]);
    }
  }

  /** Validation never lengthens its input. */
  lemma {:induction false} PositivesNoLonger(s: seq<int>)
    ensures |Positives(s)| <= |s|
  {
    if s != [] {
      PositivesNoLonger(s[..|s| - 1]);
    }
  }

  /** Validation of a single record keeps it exactly when it is positive. */
  lemma PositivesSingleton(x: int)
    ensures Positives([x]) == if x > 0 then [x] else []
  {
    assert [x][..0] == [];
  }

  /** Validation distributes over concatenation: filtering keeps the relative
      order of the records of each part and of the parts themselves. */
  lemma {:induction false} PositivesAppend(a: seq<int>, b: seq<int>)
    ensures Positives(a + b) == Positives(a) + Positives(b)
  {
    if b == [] {
      assert a + b == a;
    } else {
      var b' := b[..|b| - 1];
      assert (a + b)[..|a + b| - 1] == a + b';
      PositivesAppend(a, b');
    }
  }

  /** Validation drops exactly the non-positive records: every positive value
      keeps its multiplicity and every other value disappears. */
  lemma {:induction false} PositivesCount(s: seq<int>, x: int)
    ensures multiset(Positives(s))[x] == if x > 0 then multiset(s)[x] else 0
  {
    if s != [] {
      var init := s[..|s| - 1];
      PositivesCount(init, x);
      assert s == init + [s[|s| - 1]];
    }
  }

  /** The increasing list of the positions of `s` whose record passes validation. */
  function PositiveIndices(s: seq<int>): seq<nat>
  {
    if s == [] then []
    else PositiveIndices(s[..|s| - 1]) + (if IsValid(s[|s| - 1]) then [|s| - 1] else [])
  }

  /** The selected positions are positions of `s`, and validation returns
      the records found at them. */
  lemma {:induction false} PositiveIndicesPick(s: seq<int>)
    ensures |PositiveIndices(s)| == |Positives(s)|
    ensures forall k :: 0 <= k < |PositiveIndices(s)| ==>
      PositiveIndices(s)[k] < |s| && Positives(s)[k] == s[PositiveIndices(s)[k]]
  {
    if s != [] {
      var init := s[..|s| - 1];
      PositiveIndicesPick(init);
      var idx0 := PositiveIndices(init);
      assert forall k :: 0 <= k < |idx0| ==> s[idx0[k]] == init[idx0[k]];
    }
  }

  /** The selected positions are strictly increasing. */
  lemma {:induction false} PositiveIndicesIncreasing(s: seq<int>)
    ensures forall k :: 0 <= k < |PositiveIndices(s)| ==> PositiveIndices(s)[k] < |s|
    ensures forall k, l :: 0 <= k < l < |PositiveIndices(s)| ==>
      PositiveIndices(s)[k] < PositiveIndices(s)[l]
  {
    if s != [] {
      PositiveIndicesIncreasing(s[..|s| - 1]);
    }
  }

  /** A position is selected exactly when its record is positive. */
  lemma {:induction false} PositiveIndicesExact(s: seq<int>)
    ensures forall j :: 0 <= j < |s| ==> (s[j] > 0 <==> j in PositiveIndices(s))
  {
    if s != [] {
      var init := s[..|s| - 1];
      PositiveIndicesExact(init);
      PositiveIndicesIncreasing(init);
      assert forall j :: 0 <= j < |init| ==> s[j] == init[j];
    }
  }

  /** Validation selects the records at exactly the positive positions, in
      increasing order of position: `Positives(s)[k] == s[idx[k]]` where `idx`
      is strictly increasing and holds every `j` with `s[j] > 0` and no other. */
  lemma {:induction false} PositivesSelects(s: seq<int>)
    ensures var idx := PositiveIndices(s);
      |idx| == |Positives(s)|
      && (forall k :: 0 <= k < |idx| ==> idx[k] < |s| && Positives(s)[k] == s[idx[k]])
      && (forall k, l :: 0 <= k < l < |idx| ==> idx[k] < idx[l])
      && (forall j :: 0 <= j < |s| ==> (s[j] > 0 <==> j in idx))
  {
    PositiveIndicesPick(s);
    PositiveIndicesIncreasing(s);
    PositiveIndicesExact(s);
  }

  /** Validation changes nothing exactly when every record is positive. */
  lemma {:induction false} PositivesIdentity(s: seq<int>)
    ensures Positives(s) == s <==> forall k :: 0 <= k < |s| ==> s[k] > 0
  {
    PositivesAllValid(s);
    if forall k :: 0 <= k < |s| ==> s[k] > 0 {
      if s != [] {
        PositivesIdentity(s[..|s| - 1]);
        assert s == s[..|s| - 1] + [s[|s| - 1]];
      }
    }
  }

  /** Validation yields nothing exactly when no record is positive. */
  lemma {:induction false} PositivesEmpty(s: seq<int>)
    ensures Positives(s) == [] <==> forall k :: 0 <= k < |s| ==> s[k] <= 0
  {
    if s != [] {
      var init := s[..|s| - 1];
      PositivesEmpty(init);
      assert forall k :: 0 <= k < |init| ==> init[k] == s[k];
    }
  }

  /** Validating twice is the same as validating once. */
  lemma {:induction false} PositivesIdempotent(s: seq<int>)
    ensures Positives(Positives(s)) == Positives(s)
  {
    PositivesAllValid(s);
    PositivesIdentity(Positives(s));
  }

  // ---------------------------------------------------------------------------
  // Transformation
  // ---------------------------------------------------------------------------

  /** Each record multiplied by two, in order. Defined from the end of the
      sequence, following the append loop. */
  function Doubled(s: seq<int>): seq<int>
  {
    if s == [] then [] else Doubled(s[..|s| - 1]) + [s[|s| - 1] * 2]
  }

  /** Doubles every record of `data`, appending each product to a fresh list. */
  method TransformData(data: seq<int>) returns (transformed: seq<int>)
    ensures transformed == Doubled(data)
    ensures |transformed| == |data|
    ensures forall k :: 0 <= k < |data| ==> transformed[k] == 2 * data[k]
  {
    transformed := [];
    for i := 0 to |data|
      invariant transformed == Doubled(data[..i])
    {
      assert data[..i + 1][..i] == data[..i];
      transformed := transformed + [data[i] * 2];
    }
    assert data[..|data|] == data;
    DoubledAt(data);
  }

  /** Transformation preserves the length and doubles each position. */
  lemma {:induction false} DoubledAt(s: seq<int>)
    ensures |Doubled(s)| == |s|
    ensures forall k :: 0 <= k < |s| ==> Doubled(s)[k] == 2 * s[k]
  {
    if s != [] {
      DoubledAt(s[..|s| - 1]);
    }
  }

  /** Transformation loses nothing: the input can be recovered from the output. */
  lemma DoubledInjective(s: seq<int>, t: seq<int>)
    requires Doubled(s) == Doubled(t)
    ensures s == t
  {
    DoubledAt(s);
    DoubledAt(t);
    assert forall k :: 0 <= k < |s| ==> 2 * s[k] == 2 * t[k];
  }

  /** Positive records become even values of at least two. */
  lemma {:induction false} DoubledOfPositives(s: seq<int>)
    requires forall k :: 0 <= k < |s| ==> s[k] > 0
    ensures forall k :: 0 <= k < |Doubled(s)| ==> Doubled(s)[k] % 2 == 0 && Doubled(s)[k] >= 2
  {
    DoubledAt(s);
  }

  /** Records within `[lo, hi]` become values within `[2 * lo, 2 * hi]`. */
  lemma {:induction false} DoubledRange(s: seq<int>, lo: int, hi: int)
    requires forall k :: 0 <= k < |s| ==> lo <= s[k] <= hi
    ensures forall k :: 0 <= k < |Doubled(s)| ==> 2 * lo <= Doubled(s)[k] <= 2 * hi
  {
    DoubledAt(s);
  }

  // ---------------------------------------------------------------------------
  // Aggregation
  // ---------------------------------------------------------------------------

  /** The summary record. The mean is kept exactly, as `sum` over `count`. */
  datatype Summary = Summary(count: nat, min: int, max: int, sum: int)
  {
    /** The exact mean of the aggregated records. */
    function Average(): real
      requires count > 0
    {
      sum as real / count as real
    }
  }

  /** The smallest record of a non-empty sequence. */
  function Min(s: seq<int>): (m: int)
    requires |s| > 0
    ensures m in s
    ensures forall k :: 0 <= k < |s| ==> m <= s[k]
  {
    if |s| == 1 then s[0]
    else
      var rest := Min(s[1..]);
      assert forall k :: 1 <= k < |s| ==> s[k] == s[1..][k - 1];
      if s[0] <= rest then s[0] else rest
  }

  /** The largest record of a non-empty sequence. */
  function Max(s: seq<int>): (m: int)
    requires |s| > 0
    ensures m in s
    ensures forall k :: 0 <= k < |s| ==> s[k] <= m
  {
    if |s| == 1 then s[0]
    else
      var rest := Max(s[1..]);
      assert forall k :: 1 <= k < |s| ==> s[k] == s[1..][k - 1];
      if s[0] >= rest then s[0] else rest
  }

  /** The sum of the records. */
  function Sum(s: seq<int>): int
  {
    if s == [] then 0 else s[0] + Sum(s[1..])
  }

  /** The sum of records that all lie within `[lo, hi]` lies within
      `[lo * |s|, hi * |s|]`. */
  lemma {:induction false} SumBetween(s: seq<int>, lo: int, hi: int)
    requires forall k :: 0 <= k < |s| ==> lo <= s[k] <= hi
    ensures lo * |s| <= Sum(s) <= hi * |s|
  {
    if s != [] {
      assert forall k :: 0 <= k < |s[1..]| ==> s[1..][k] == s[k + 1];
      SumBetween(s[1..], lo, hi);
      assert lo * |s| == lo + lo * |s[1..]|;
      assert hi * |s| == hi + hi * |s[1..]|;
    }
  }

  /** Summarises the records: their number, smallest, largest and sum.
      An empty input fails, as `min`, `max` and `mean` of an empty list raise. */
  function Aggregate(data: seq<int>): (r: Result<Summary, PipelineError>)
    ensures r.Failure? <==> |data| == 0
    ensures r.Failure? ==> r.error == EmptyInput
    ensures r.Success? ==>
      && r.value.count == |data|
      && r.value.min in data
      && r.value.max in data
      && (forall k :: 0 <= k < |data| ==> r.value.min <= data[k] <= r.value.max)
      && r.value.sum == Sum(data)
      && r.value.min * r.value.count <= r.value.sum <= r.value.max * r.value.count
  {
    if |data| == 0 then Failure(EmptyInput)
    else
      var lo, hi := Min(data), Max(data);
      SumBetween(data, lo, hi);
      Success(Summary(|data|, lo, hi, Sum(data)))
  }

  /** The exact mean lies between the minimum and the maximum. */
  lemma AverageBetween(data: seq<int>)
    requires |data| > 0
    ensures Aggregate(data).Success?
    ensures var sm := Aggregate(data).value;
      sm.count > 0 && sm.min as real <= sm.Average() <= sm.max as real
  {
    var sm := Aggregate(data).value;
    DivideBounds(sm.min, sm.sum, sm.max, sm.count);
  }

  /** `lo * n <= x <= hi * n` with `n > 0` gives `lo <= x / n <= hi` over the reals. */
  lemma DivideBounds(lo: int, x: int, hi: int, n: nat)
    requires n > 0
    requires lo * n <= x <= hi * n
    ensures lo as real <= x as real / n as real <= hi as real
  {
    assert (lo * n) as real == lo as real * n as real;
    assert (hi * n) as real == hi as real * n as real;
  }
}
