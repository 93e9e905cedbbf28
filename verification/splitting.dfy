/** `splitData`: shuffles a copy of the encoded samples and cuts it into a
    training part (the first 80%, rounded down) and a test part (the rest). */
module Splitting {
  import opened Wrappers

  /** The error `splitData` throws: "Processed data is invalid or empty." */
  datatype SplitError = InvalidOrEmpty

  datatype Split<T> = Split(trainData: seq<T>, testData: seq<T>)

  /** `Math.floor(n * 0.8)`, computed on integers (see `FloorOfScaledLength`). */
  function SplitIndex(n: nat): (k: nat)
    ensures 5 * k <= 4 * n < 5 * k + 5
    ensures k <= n
    ensures n > 0 ==> k < n
    ensures k == 0 <==> n <= 1
  {
    (4 * n) / 5
  }

  /** Any real number within 1/5 of 4n/5, and not below it when 5 divides n,
      rounds down to `SplitIndex(n)`. The double-precision product `n * 0.8`
      is such a number: its distance from 4n/5 is far below 1/5, although it
      may fall on either side (see `FloorOfProductBelowFourFifths`). When 5
      divides n, 4n/5 is a whole number that a double holds exactly, the double
      nearest 0.8 is above 4/5, and rounding is monotone, so the product is not
      below 4n/5. Hence `Math.floor` agrees with the integer division. */
  lemma FloorOfScaledLength(n: nat, product: real)
    requires (4 * n) as real / 5.0 - 0.2 < product < (4 * n) as real / 5.0 + 0.2
    requires n % 5 == 0 ==> (4 * n) as real / 5.0 <= product
    ensures product.Floor == SplitIndex(n)
  {
  }

  /** For 43 rows the double product `43 * 0.8` is slightly below 172/5 = 34.4,
      and it still rounds down to the cut index 34. */
  lemma FloorOfProductBelowFourFifths()
    ensures 34.39999999999999857891452847979962825775146484375 < (4 * 43) as real / 5.0
    ensures (34.39999999999999857891452847979962825775146484375).Floor == SplitIndex(43)
  {
    FloorOfScaledLength(43, 34.39999999999999857891452847979962825775146484375);
  }

  /** The exact product `n * 4/5` rounds down to `SplitIndex(n)`. */
  lemma SplitIndexIsFloorOfFourFifths(n: nat)
    ensures (n as real * 0.8).Floor == SplitIndex(n)
  {
  }

  /** `shuffled.slice(0, splitIdx)` and `shuffled.slice(splitIdx)`. */
  function Cut<T>(shuffled: seq<T>): (split: Split<T>)
    ensures split.trainData + split.testData == shuffled
    ensures |split.trainData| == SplitIndex(|shuffled|)
  {
    var k := SplitIndex(|shuffled|);
    Split(shuffled[..k], shuffled[k..])
  }

  /** `split` has the sizes `splitData` produces for `data`, and its two parts
      hold together exactly the elements of `data`, with their multiplicities. */
  ghost predicate IsSplitOf<T>(split: Split<T>, data: seq<T>) {
    && |split.trainData| == SplitIndex(|data|)
    && |split.testData| == |data| - SplitIndex(|data|)
    && multiset(split.trainData) + multiset(split.testData) == multiset(data)
  }

  /** `splitData`. An absent or empty input throws. Otherwise the input is
      copied and the copy is put into some order: `sort` with a random
      comparator, modelled as an arbitrary permutation. The caller's sequence
      is a value and stays as it was. */
  method SplitData<T(==)>(processed: Option<seq<T>>) returns (result: Result<Split<T>, SplitError>)
    ensures result.Failure? <==> processed.None? || |processed.value| == 0
    ensures result.Success? ==> IsSplitOf(result.value, processed.value)
  {
    if processed.None? || |processed.value| == 0 {
      return Failure(InvalidOrEmpty);
    }
    var copy := processed.value;
    var shuffled :| multiset(shuffled) == multiset(copy);
    var split := Cut(shuffled);
    result := Success(split);
  }

  /** The splits `splitData` can return are exactly the cuts of the
      permutations of its input. */
  lemma SplitsAreCutsOfPermutations<T>(split: Split<T>, data: seq<T>)
    ensures IsSplitOf(split, data) <==> exists shuffled :: multiset(shuffled) == multiset(data) && Cut(shuffled) == split
  {
    if IsSplitOf(split, data) {
      var shuffled := split.trainData + split.testData;
      assert multiset(shuffled) == multiset(data);
      assert Cut(shuffled) == split;
    }
    if exists shuffled :: multiset(shuffled) == multiset(data) && Cut(shuffled) == split {
      var shuffled :| multiset(shuffled) == multiset(data) && Cut(shuffled) == split;
      assert |shuffled| == |data| by {
        assert |multiset(shuffled)| == |multiset(data)|;
      }
      assert multiset(split.trainData + split.testData) == multiset(shuffled);
    }
  }

  /** The two parts are disjoint as positions, not as values: when rows repeat,
      the same sample can land in both. Five copies of one sample always
      put that sample in the training part and in the test part. */
  lemma RepeatedSampleInBothParts<T>(x: T, split: Split<T>)
    requires IsSplitOf(split, [x, x, x, x, x])
    ensures x in split.trainData && x in split.testData
  {
  }
}
