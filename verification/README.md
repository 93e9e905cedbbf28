# Symptom-severity data preparation, modelled in Dafny

This project models the data-preparation front end of the symptom-severity
classifier in `tensorflow/predict.js`. That front end has two parts:

- `processData` turns every CSV row into a sample. The sample holds a
  14-entry feature vector, made of the indicator columns in a fixed order
  and each passed through `Number`. It also holds a 4-entry one-hot label
  built from the `Severity` column.
- `splitData` rejects an absent or empty input. Otherwise it shuffles a copy
  of the samples and cuts it at `Math.floor(n * 0.8)` into `trainData` and
  `testData`.

Modules:

- `Wrappers`: `Option` (an argument that may be `null`/`undefined`) and
  `Result` (a call that may throw).
- `Records`: a raw row as a map from column name to cell text. For the fifteen
  columns the code reads, `Get` returns `Undefined` when the row lacks the
  column, as JavaScript property access does for these names (none of them
  is inherited from `Object.prototype`).
  The module also holds the fixed column names.
- `Encoding`: the label switch, the feature vector, and `processData`.
- `Splitting`: the split index, the cut, and `splitData`.
- `Pipeline`: `processData` followed by `splitData`, as `trainAndPredict`
  calls them.

`Number` is a parameter `toNumber: Field -> N` over an abstract number type
`N`. The model does not fix how JavaScript converts strings to numbers. The
shuffle (`sort` with a random comparator) is a nondeterministic choice of any
sequence with the same multiset as the input. `Math.floor(n * 0.8)` is the
integer `(4 * n) / 5`. `FloorOfScaledLength` proves that every real within 1/5
of 4n/5, and not below 4n/5 when 5 divides n, rounds down to that integer.
The double-precision product `n * 0.8` is such a real. It can fall slightly
below 4n/5: for 43 rows it is 34.39999999999999857..., under 34.4, and
`FloorOfProductBelowFourFifths` shows it still rounds down to 34. When 5
divides n, 4n/5 is a whole number held exactly by a double, the double
nearest 0.8 is above 4/5, and rounding is monotone, so the product is not
below 4n/5.

Three consequences of the code that a reader might not expect:

- The encoding validates nothing. An indicator cell reaches the feature
  vector as whatever `Number` makes of it: an absent column or non-numeric
  text becomes `NaN`; an empty or blank cell becomes `0`, so it reads as
  "symptom absent". The model has no validation error.
- The two parts are disjoint as positions only. With repeated rows, equal
  samples can appear in both parts (`RepeatedSampleInBothParts`). Only the
  multiset partition holds.
- The comparator shuffle is not uniform. The model promises only some
  permutation.

## Model

| member | source | states |
|---|---|---|
| Records.RawRecord.Get | tensorflow/predict.js:20-40 | property access on a row (`item.Severity` at line 20, `item.Fever` … `item.ContactYes` at lines 37-40): a column the row has yields its cell text, and a column it lacks yields undefined |
| Encoding.Label | tensorflow/predict.js:19-33 | the label is always one-hot of length 4; position 0, 1, 2 is hot exactly for "Mild", "Moderate", "Severe", and position 3 exactly for every other value, including "None" and a missing column |
| Encoding.LabelSeparatesOnlyNamedClasses | tensorflow/predict.js:20-32 | two severities get equal labels if and only if they are the same named class or both fall into the default bucket |
| Encoding.NoneIsTheCatchAll | tensorflow/predict.js:30-32 | a severity gets the label of "None" if and only if it is not "Mild", "Moderate" or "Severe" |
| Encoding.Features | tensorflow/predict.js:36-41 | the feature vector has 14 entries: the coerced cells of Fever, Tiredness, DryCough, DifficultyinBreathing, SoreThroat, NoneSymptom, Pains, NasalCongestion, RunnyNose, Diarrhea, NoneExperiencing, ContactDontKnow, ContactNo, ContactYes, in that order |
| Encoding.FeaturesReadOnlyIndicatorColumns | tensorflow/predict.js:36-41 | rows that agree on the fourteen indicator columns get equal feature vectors, whatever their other cells hold |
| Encoding.Encode | tensorflow/predict.js:35-43 | each sample is well formed (14 features, one-hot label); its features come from the indicator cells and its label from the Severity cell |
| Encoding.SeverityOnlyAffectsLabel | tensorflow/predict.js:19-43 | rewriting a row's Severity cell leaves its features unchanged and gives it the label of the new value |
| Encoding.ProcessData | tensorflow/predict.js:17-45 | one sample per row, same length and order: sample i is the encoding of row i alone, and every sample is well formed |
| Encoding.ProcessDataDistributes | tensorflow/predict.js:18 | encoding a concatenation of row lists equals concatenating their encodings |
| Encoding.EncodedSamplesWellFormed | tensorflow/predict.js:17-45 | every sample in the multiset of an encoded data set has 14 features and a one-hot label |
| Splitting.SplitIndex | tensorflow/predict.js:53 | the cut index k is floor(4n/5); it never exceeds n, leaves at least one test sample when n > 0, and is 0 exactly when n <= 1 |
| Splitting.FloorOfScaledLength | tensorflow/predict.js:53 | any real within 1/5 of 4n/5, and not below 4n/5 when 5 divides n, rounds down to the integer cut index; the double product n * 0.8 is such a real |
| Splitting.FloorOfProductBelowFourFifths | tensorflow/predict.js:53 | the double product 43 * 0.8 lies below 172/5, yet its floor is still the integer cut index 34 |
| Splitting.SplitIndexIsFloorOfFourFifths | tensorflow/predict.js:53 | the exact product n * 0.8 rounds down to the integer cut index |
| Splitting.Cut | tensorflow/predict.js:55-58 | the two slices concatenate back to the shuffled sequence, and the first has the cut-index length |
| Splitting.SplitData | tensorflow/predict.js:47-59 | fails exactly when the input is absent or empty; otherwise trainData has floor(0.8n) samples, testData has the remaining n - floor(0.8n), and together they are a permutation of the input (equal multisets) |
| Splitting.SplitsAreCutsOfPermutations | tensorflow/predict.js:52-58 | a pair of parts has the split's sizes and multiset if and only if it is the cut of some permutation of the input |
| Splitting.RepeatedSampleInBothParts | tensorflow/predict.js:52-58 | with five equal samples, the sample lands in both parts, so the parts are disjoint by position but not by value |
| Pipeline.PrepareData | tensorflow/predict.js:104-110 | encoding then splitting fails exactly when there are no rows; otherwise the parts have the split sizes, together are the encoded rows as a multiset, and hold only well-formed samples |

## Left out

- CSV loading through `csvtojson` (tensorflow/predict.js:7-15) is file I/O through a foreign library. Its output is the `seq<RawRecord>` the model starts from.
- `createModel`, `trainModel`, `evaluateModel` and `model.predict` (tensorflow/predict.js:61-99, 136-137) are TensorFlow.js calls with floating-point numerics, a stochastic optimiser and library-defined layers, none of which is visible here.
- `trainAndPredict` (tensorflow/predict.js:101-145) is otherwise Express request/response handling and async orchestration. Only its encode-then-split steps are modelled. The duplicated `evaluateModel` call at lines 119-120 has no effect the model could observe.
- The fixed demonstration feature vector (tensorflow/predict.js:126-134) is prediction input and is not modelled.
- Splitting.SplitData: does not model the distribution of the shuffle. `sort(() => Math.random() - 0.5)` is neither uniform nor seedable, so the model states only that the result is some permutation.
- Encoding.Features: does not model JavaScript's `Number` conversion of strings, where an absent column or non-numeric text becomes `NaN` and an empty or blank cell becomes `0`. The conversion is the `toNumber` parameter.
- Splitting.FloorOfScaledLength: does not model IEEE-754 multiplication. It takes as given that the double product `n * 0.8` lies within 1/5 of 4n/5, and not below 4n/5 when 5 divides n. Both hold for any row count a data file can have.
- app.js (GraphQL schema, Mongo resolvers, server start-up), utility/utils.js (JWT helpers) and models/vitalsign.js (a declarative schema) have no algorithmic content and are not part of this model.
