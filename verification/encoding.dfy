/** `processData`: turns every raw row into a training sample made of a
    feature vector and a one-hot severity label. */
module Encoding {
  import opened Records

  /** Number of severity classes, and so the length of a label. */
  const LabelCount: nat := 4

  /** A vector of length `LabelCount` with a single 1 and all other entries 0. */
  predicate IsOneHot(v: seq<int>) {
    |v| == LabelCount && multiset(v)[1] == 1 && multiset(v)[0] == LabelCount - 1
  }

  /** One encoded sample; `N` is the type of JavaScript numbers, left abstract. */
  datatype Sample<N> = Sample(features: seq<N>, labels: seq<int>) {
    predicate WellFormed() {
      |features| == FeatureCount && IsOneHot(labels)
    }
  }

  /** The severities with a class of their own; `"None"` is not one of them. */
  predicate IsNamedSeverity(severity: Field) {
    severity == Text("Mild") || severity == Text("Moderate") || severity == Text("Severe")
  }

  /** The `switch (item.Severity)` statement. The `'None'` case falls through to
      `default`, so it shares the last bucket with every unrecognised text and
      with a missing column. */
  function Label(severity: Field): (onehot: seq<int>)
    ensures IsOneHot(onehot)
    ensures onehot[0] == 1 <==> severity == Text("Mild")
    ensures onehot[1] == 1 <==> severity == Text("Moderate")
    ensures onehot[2] == 1 <==> severity == Text("Severe")
    ensures onehot[3] == 1 <==> !IsNamedSeverity(severity)
  {
    if severity == Text("Mild") then [1, 0, 0, 0]
    else if severity == Text("Moderate") then [0, 1, 0, 0]
    else if severity == Text("Severe") then [0, 0, 1, 0]
    else [0, 0, 0, 1]
  }

  /** Two severities get the same label exactly when both are the same named
      class or both fall into the catch-all bucket. */
  lemma LabelSeparatesOnlyNamedClasses(a: Field, b: Field)
    ensures Label(a) == Label(b) <==> (a == b || (!IsNamedSeverity(a) && !IsNamedSeverity(b)))
  {
  }

  /** `"None"`, any other text and a missing column all share the label of `"None"`. */
  lemma NoneIsTheCatchAll(severity: Field)
    ensures Label(severity) == Label(Text("None")) <==> !IsNamedSeverity(severity)
  {
  }

  /** The fourteen indicator cells of a row, each passed through `Number`,
      which is the `toNumber` parameter here. */
  function Features<N>(record: RawRecord, toNumber: Field -> N): (features: seq<N>)
    ensures features == [
      toNumber(record.Get("Fever")), toNumber(record.Get("Tiredness")),
      toNumber(record.Get("DryCough")), toNumber(record.Get("DifficultyinBreathing")),
      toNumber(record.Get("SoreThroat")), toNumber(record.Get("NoneSymptom")),
      toNumber(record.Get("Pains")), toNumber(record.Get("NasalCongestion")),
      toNumber(record.Get("RunnyNose")), toNumber(record.Get("Diarrhea")),
      toNumber(record.Get("NoneExperiencing")), toNumber(record.Get("ContactDontKnow")),
      toNumber(record.Get("ContactNo")), toNumber(record.Get("ContactYes"))
    ]
  {
    seq(FeatureCount, i requires 0 <= i < FeatureCount => toNumber(record.Get(FeatureColumns[i])))
  }

  /** The feature vector reads the indicator columns and nothing else: rows
      that agree on those fourteen cells get the same features. */
  lemma FeaturesReadOnlyIndicatorColumns<N>(a: RawRecord, b: RawRecord, toNumber: Field -> N)
    requires forall i :: 0 <= i < |FeatureColumns| ==> a.Get(FeatureColumns[i]) == b.Get(FeatureColumns[i])
    ensures Features(a, toNumber) == Features(b, toNumber)
  {
  }

  /** One row of the `data.map` callback. */
  function Encode<N>(record: RawRecord, toNumber: Field -> N): (sample: Sample<N>)
    ensures sample.WellFormed()
    ensures sample.features == Features(record, toNumber)
    ensures sample.labels == Label(record.Get(SeverityColumn))
  {
    Sample(Features(record, toNumber), Label(record.Get(SeverityColumn)))
  }

  /** Changing a row's severity changes its label only, never its features. */
  lemma SeverityOnlyAffectsLabel<N>(record: RawRecord, severity: string, toNumber: Field -> N)
    ensures Encode(RawRecord(record.cells[SeverityColumn := severity]), toNumber).features
         == Encode(record, toNumber).features
    ensures Encode(RawRecord(record.cells[SeverityColumn := severity]), toNumber).labels
         == Label(Text(severity))
  {
  }

  /** `processData`: `data.map(...)`, one sample per row, in row order. */
  function ProcessData<N>(data: seq<RawRecord>, toNumber: Field -> N): (samples: seq<Sample<N>>)
    ensures |samples| == |data|
    ensures forall i :: 0 <= i < |data| ==> samples[i] == Encode(data[i], toNumber)
    ensures forall i :: 0 <= i < |samples| ==> samples[i].WellFormed()
  {
    if |data| == 0 then [] else [Encode(data[0], toNumber)] + ProcessData(data[1..], toNumber)
  }

  /** Encoding a concatenation encodes each part: each sample depends on its
      own row alone. */
  lemma {:induction false} ProcessDataDistributes<N>(a: seq<RawRecord>, b: seq<RawRecord>, toNumber: Field -> N)
    ensures ProcessData(a + b, toNumber) == ProcessData(a, toNumber) + ProcessData(b, toNumber)
  {
    if |a| == 0 {
      assert a + b == b;
    } else {
      assert (a + b)[1..] == a[1..] + b;
      ProcessDataDistributes(a[1..], b, toNumber);
      assert ProcessData(a + b, toNumber) == [Encode(a[0], toNumber)] + ProcessData(a[1..] + b, toNumber);
      ConcatAssociative([Encode(a[0], toNumber)], ProcessData(a[1..], toNumber), ProcessData(b, toNumber));
    }
  }

  /** Regrouping a concatenation of three sequences. */
  lemma ConcatAssociative<T>(x: seq<T>, y: seq<T>, z: seq<T>)
    ensures x + (y + z) == (x + y) + z
  {
  }

  /** Every sample in the multiset of an encoded data set is well formed. */
  lemma EncodedSamplesWellFormed<N>(data: seq<RawRecord>, toNumber: Field -> N, s: Sample<N>)
    requires s in multiset(ProcessData(data, toNumber))
    ensures s.WellFormed()
  {
  }
}
