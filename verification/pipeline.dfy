/** The data-preparation steps of `trainAndPredict`: the loaded rows are
    encoded and then split. Loading, training, evaluation and prediction are
    not part of this model. */
module Pipeline {
  import opened Wrappers
  import opened Records
  import opened Encoding
  import opened Splitting

  /** `processData(rawData)` followed by `splitData(processedData)`. The loader
      always hands over an array, so the split fails exactly when the file has
      no data rows. Every sample that reaches either part is well formed, and
      together the parts are the encoded rows, each exactly once. */
  method PrepareData<N(==)>(rows: seq<RawRecord>, toNumber: Field -> N)
    returns (result: Result<Split<Sample<N>>, SplitError>)
    ensures result.Failure? <==> |rows| == 0
    ensures result.Success? ==> IsSplitOf(result.value, ProcessData(rows, toNumber))
    ensures result.Success? ==>
      && (forall s :: s in result.value.trainData ==> s.WellFormed())
      && (forall s :: s in result.value.testData ==> s.WellFormed())
  {
    var processed := ProcessData(rows, toNumber);
    result := SplitData(Some(processed));
    if result.Success? {
      var split := result.value;
      forall s | s in split.trainData
        ensures s.WellFormed()
      {
        assert s in multiset(split.trainData);
        EncodedSamplesWellFormed(rows, toNumber, s);
      }
      forall s | s in split.testData
        ensures s.WellFormed()
      {
        assert s in multiset(split.testData);
        EncodedSamplesWellFormed(rows, toNumber, s);
      }
    }
  }
}
