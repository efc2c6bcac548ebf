# Batch pipeline simulation, modelled in Dafny

The program simulates a sequential batch pipeline. It extracts twenty random
integers in [10, 100], validates them (keeps the strictly positive ones),
transforms them (doubles each), aggregates them into a summary of count,
minimum, maximum and mean, and prints a report. This project models the three
data stages and the controller that chains them, and proves their contracts.

- `stages.dfy`, module `Stages`: the stages.
  - Validation and transformation build a new list with a loop and `append`.
    They are the methods `ValidateData` and `TransformData`, each proved equal
    to a specification function (`Positives`, `Doubled`).
  - The lemmas characterise those functions. `Positives` is an
    order-preserving filter that selects exactly the positive positions.
    `Doubled` preserves length and doubles each position.
  - Aggregation is the function `Aggregate`. It returns a `Summary` holding
    `count`, `min`, `max` and the exact `sum`; `Average()` is `sum / count`
    as a real. On an empty list it returns `Failure(EmptyInput)`. This is
    where the program's `min([])` raises.
- `pipeline.dfy`, module `Pipeline`: the controller.
  - `Run` is the composition as a function of the extracted records.
  - `RunPipeline` calls the stage methods in order and is proved to return
    `Run(extracted)`. So a run is determined by its extracted records.
  - The lemmas cover what the extractor can produce (`IsExtracted`: twenty
    values in [10, 100]), plus a mixed example and an all-rejected example.

## Model

| member | source | states |
|---|---|---|
| `Stages.ValidateData` | long_batch_pipeline_simulation.py:49-59 | the loop's output is exactly `Positives(data)`: every element is > 0 and the output is no longer than the input |
| `Stages.PositivesAllValid` | long_batch_pipeline_simulation.py:55-56 | every element kept by validation is strictly positive |
| `Stages.PositivesNoLonger` | long_batch_pipeline_simulation.py:53-56 | validation never returns more records than it was given |
| `Stages.PositivesSingleton` | long_batch_pipeline_simulation.py:55-56 | one record is kept if and only if it is positive |
| `Stages.PositivesAppend` | long_batch_pipeline_simulation.py:54-56 | filtering a concatenation is the concatenation of the filtered parts (relative order is kept) |
| `Stages.PositivesCount` | long_batch_pipeline_simulation.py:54-56 | each positive value keeps its multiplicity and each non-positive value is dropped, so nothing else is dropped |
| `Stages.PositiveIndicesPick` | long_batch_pipeline_simulation.py:54-56 | the k-th kept record is the input record at the k-th selected position |
| `Stages.PositiveIndicesIncreasing` | long_batch_pipeline_simulation.py:54 | the selected positions are strictly increasing positions of the input |
| `Stages.PositiveIndicesExact` | long_batch_pipeline_simulation.py:55 | a position is selected if and only if its record is positive |
| `Stages.PositivesSelects` | long_batch_pipeline_simulation.py:53-59 | validation returns the records at exactly the positive positions, in increasing position order |
| `Stages.PositivesIdentity` | long_batch_pipeline_simulation.py:54-56 | validation returns its input unchanged if and only if every record is positive |
| `Stages.PositivesEmpty` | long_batch_pipeline_simulation.py:54-56 | validation returns an empty list if and only if no record is positive |
| `Stages.PositivesIdempotent` | long_batch_pipeline_simulation.py:49-59 | validating an already validated list changes nothing |
| `Stages.TransformData` | long_batch_pipeline_simulation.py:66-75 | the loop's output is `Doubled(data)`: same length, and `2 * data[k]` at every position k |
| `Stages.DoubledAt` | long_batch_pipeline_simulation.py:70-72 | the transformation preserves length, and position k holds twice input k |
| `Stages.DoubledInjective` | long_batch_pipeline_simulation.py:70-72 | two inputs with the same transformed output are equal (no information is lost) |
| `Stages.DoubledOfPositives` | long_batch_pipeline_simulation.py:72 | positive inputs give even outputs of at least 2 |
| `Stages.DoubledRange` | long_batch_pipeline_simulation.py:72 | inputs in [lo, hi] give outputs in [2lo, 2hi] |
| `Stages.Min` | long_batch_pipeline_simulation.py:88 | the minimum is an element of the list and no element is smaller |
| `Stages.Max` | long_batch_pipeline_simulation.py:89 | the maximum is an element of the list and no element is larger |
| `Stages.SumBetween` | long_batch_pipeline_simulation.py:90 | a sum of n values in [lo, hi] lies in [lo*n, hi*n] |
| `Stages.Aggregate` | long_batch_pipeline_simulation.py:82-94 | fails with `EmptyInput` if and only if the input is empty; otherwise count is the length, min and max are members bounding every element, and `min*count <= sum <= max*count` |
| `Stages.AverageBetween` | long_batch_pipeline_simulation.py:86-91 | the exact mean of a non-empty input lies between its min and its max |
| `Pipeline.Run` | long_batch_pipeline_simulation.py:117-124 | the run fails if and only if no extracted record is positive; otherwise the count is the number of positive records |
| `Pipeline.RunPipeline` | long_batch_pipeline_simulation.py:117-126 | chaining the stage methods yields exactly `Run(extracted)` (deterministic for fixed extracted data), failing if and only if no record is positive |
| `Pipeline.ExtractedAllKept` | long_batch_pipeline_simulation.py:39-55 | validation keeps every record of an extraction (twenty values in [10, 100]) |
| `Pipeline.ExtractedTransformedRange` | long_batch_pipeline_simulation.py:39-72 | the transformed records of an extraction are twenty values in [20, 200] |
| `Pipeline.ExtractedRunSucceeds` | long_batch_pipeline_simulation.py:117-124 | a run on an extraction never fails; count is 20, 20 <= min <= max <= 200, and the sum lies in [400, 4000] |
| `Pipeline.ValidateMixedExample` | long_batch_pipeline_simulation.py:53-56 | validating [1, -2, 3, 0, 5] gives [1, 3, 5] |
| `Pipeline.TransformMixedExample` | long_batch_pipeline_simulation.py:70-72 | transforming [1, 3, 5] gives [2, 6, 10] |
| `Pipeline.AggregateMixedExample` | long_batch_pipeline_simulation.py:86-91 | aggregating [2, 6, 10] gives count 3, min 2, max 10 and sum 18 |
| `Pipeline.RunMixedExample` | long_batch_pipeline_simulation.py:117-123 | a run on [1, -2, 3, 0, 5] summarises to count 3, min 2, max 10, mean 6 |
| `Pipeline.RunAllRejectedExample` | long_batch_pipeline_simulation.py:117-123 | [-1, -2, 0] validates to [] and the run fails with `EmptyInput` |

## Left out

- Logging with timestamps, the half-second sleeps and the timing block of the
  entry point (long_batch_pipeline_simulation.py:22-27, 133-139): console
  output and wall-clock time.
- The random draw of `extract_data` (line 39). The extracted records are a
  parameter of `Run` and `RunPipeline`. `IsExtracted` states what the draw
  can produce: twenty values, each in [10, 100].
- `save_results` (lines 101-110): it only formats and prints the summary. A
  successful `Run` result is what it would receive. A failing run never
  reaches it.
- The rounding of the mean to two decimals, a float (line 90). The summary
  keeps the exact `sum`, and `Average()` is `sum / count` as a real.
- The `isinstance(value, int)` test (line 55). Records are `int`, so only
  the positivity test remains. Python's `bool` passing as `int` is not
  modelled.
- Python's `min` returns the first smallest element, and `max` the first
  largest. For integers only the value matters, and `Min`/`Max` state that
  value.
