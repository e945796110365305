/** The integer cases of the library's tests, as clients that rely only on the
    contracts of module Functools. */
module FunctoolsTests {
  import opened Functools

  /** Equal on the five table cases: two empty slices, empty against
      non-empty, equal singletons, equal triples, triples differing last. */
  method TestEqual() returns (results: seq<bool>)
    ensures results == [true, false, true, true, false]
  {
    var a := Equal<int>([], []);
    var b := Equal<int>([], [1]);
    var c := Equal([1], [1]);
    var d := Equal([1, 2, 3], [1, 2, 3]);
    var e := Equal([1, 2, 3], [1, 2, 9]);
    results := [a, b, c, d, e];
  }

  /** Applying a storing effect to [1, 2, 3, 4, 5] from an empty storage
      leaves the storage equal to the input. */
  method TestEffect() returns (storage: seq<int>, same: bool)
    ensures storage == [1, 2, 3, 4, 5]
    ensures same
  {
    var xs := [1, 2, 3, 4, 5];
    var calls;
    storage, calls := Apply(xs, Store, []);
    StoreRecordsEach([], xs);
    same := Equal(xs, storage);
  }

  /** The predicate of the filter test: x >= 0. */
  function NonNegative(x: int): bool
  {
    x >= 0
  }

  /** Filtering [-3, 2, -1, 0, 1, 3, -2] by x >= 0 keeps [2, 0, 1, 3]. */
  method TestFilter() returns (ys: seq<int>)
    ensures ys == [2, 0, 1, 3]
  {
    ys := Filter([-3, 2, -1, 0, 1, 3, -2], NonNegative);
  }

  /** Summing [1, 2, 3, 4, 5, 6] from 0 gives 21. */
  method TestReduce() returns (sum: int)
    ensures sum == 21
  {
    sum := Reduce([1, 2, 3, 4, 5, 6], 0, Plus);
    ReduceWithPlusSums([1, 2, 3, 4, 5, 6], 0);
  }
}
