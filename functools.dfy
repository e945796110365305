/** A generic sequence toolkit: element-wise equality, running an effect on
    every element, filtering by a predicate, mapping a transform and a left
    fold whose combiner takes the element first and the accumulator second.

    Every operation is one pass over its input, written here as a method with
    a loop, and is proved to agree with a recursive specification function
    (Effects, Filtered, Mapped, Reduced). The lemmas below state what those
    specifications promise. Slices are values of type seq<T>; the caller's
    callbacks are total Dafny functions. */
module Functools {

  // ---------------------------------------------------------------- Equal

  /** Whether xs and ys hold the same values in the same order: the length is
      compared first, then the elements index by index, stopping at the first
      pair that differs. */
  method Equal<T(==)>(xs: seq<T>, ys: seq<T>) returns (eq: bool)
    ensures |xs| != |ys| ==> !eq
    ensures eq <==> |xs| == |ys| && forall i :: 0 <= i < |xs| ==> xs[i] == ys[i]
    ensures eq <==> xs == ys
  {
    var n := |xs|;
    if n != |ys| {
      return false;
    }
    var i := 0;
    while i < n
      invariant 0 <= i <= n
      invariant forall k :: 0 <= k < i ==> xs[k] == ys[k]
    {
      if xs[i] != ys[i] {
        return false;
      }
      i := i + 1;
    }
    return true;
  }

  // ---------------------------------------------------------------- Apply

  /** The state an effect leaves behind when it is run on each element of xs,
      first to last, starting from `world`. An effect is a function from the
      state it can observe and the element it is given to the new state. */
  ghost function Effects<W, T>(effect: (W, T) -> W, world: W, xs: seq<T>): W
  {
    if xs == [] then world else Effects(effect, effect(world, xs[0]), xs[1..])
  }

  /** Running the effects of a + b is running those of a, then those of b. */
  lemma {:induction false} EffectsAppend<W, T>(effect: (W, T) -> W, world: W, a: seq<T>, b: seq<T>)
    ensures Effects(effect, world, a + b) == Effects(effect, Effects(effect, world, a), b)
  {
    if a == [] {
      assert a + b == b;
    } else {
      assert (a + b)[1..] == a[1..] + b;
      EffectsAppend(effect, effect(world, a[0]), a[1..], b);
    }
  }

  /** An effect that appends its argument to a storage slice. */
  function Store<T>(storage: seq<T>, x: T): seq<T>
  {
    storage + [x]
  }

  /** Applying Store to every element stores exactly xs, in order, after what
      the storage held before. */
  lemma {:induction false} StoreRecordsEach<T>(storage: seq<T>, xs: seq<T>)
    ensures Effects(Store, storage, xs) == storage + xs
    decreases xs
  {
    if xs != [] {
      StoreRecordsEach(storage + [xs[0]], xs[1..]);
      assert storage + [xs[0]] + xs[1..] == storage + xs;
    }
  }

  /** Runs the effect on every element of xs in ascending index order.
      `calls` lists the arguments the effect received, one entry per call;
      `world'` is the state the effects leave behind. */
  method Apply<W, T>(xs: seq<T>, effect: (W, T) -> W, world: W) returns (world': W, calls: seq<T>)
    ensures calls == xs
    ensures world' == Effects(effect, world, xs)
  {
    world', calls := world, [];
    for i := 0 to |xs|
      invariant calls == xs[..i]
      invariant Effects(effect, world', xs[i..]) == Effects(effect, world, xs)
    {
      assert xs[i..][1..] == xs[i + 1..];
      world' := effect(world', xs[i]);
      calls := calls + [xs[i]];
    }
  }

  // --------------------------------------------------------------- Filter

  /** The elements of xs that satisfy p, in their original order. */
  ghost function Filtered<T>(xs: seq<T>, p: T -> bool): (r: seq<T>)
    ensures |r| <= |xs|
    ensures forall k :: 0 <= k < |r| ==> p(r[k])
  {
    if xs == [] then []
    else if p(xs[0]) then [xs[0]] + Filtered(xs[1..], p)
    else Filtered(xs[1..], p)
  }

  /** The ascending indices i, lo <= i < |xs|, whose element satisfies p. */
  ghost function Selected<T>(xs: seq<T>, p: T -> bool, lo: nat): seq<nat>
    decreases |xs| - lo
  {
    if lo >= |xs| then []
    else if p(xs[lo]) then [lo] + Selected(xs, p, lo + 1)
    else Selected(xs, p, lo + 1)
  }

  /** Filtering a suffix xs[lo..] picks exactly the elements at the indices
      Selected(xs, p, lo): ascending, in range, and covering every index
      whose element satisfies p. */
  lemma {:induction false} FilterSelectsFrom<T>(xs: seq<T>, p: T -> bool, lo: nat)
    requires lo <= |xs|
    ensures |Filtered(xs[lo..], p)| == |Selected(xs, p, lo)|
    ensures forall k :: 0 <= k < |Selected(xs, p, lo)| ==>
      lo <= Selected(xs, p, lo)[k] < |xs| && Filtered(xs[lo..], p)[k] == xs[Selected(xs, p, lo)[k]]
    ensures forall k, m :: 0 <= k < m < |Selected(xs, p, lo)| ==>
      Selected(xs, p, lo)[k] < Selected(xs, p, lo)[m]
    ensures forall i :: lo <= i < |xs| && p(xs[i]) ==> i in Selected(xs, p, lo)
    decreases |xs| - lo
  {
    if lo < |xs| {
      FilterSelectsFrom(xs, p, lo + 1);
      assert xs[lo..][0] == xs[lo];
      assert xs[lo..][1..] == xs[lo + 1..];
    }
  }

  /** Filter keeps an element exactly when it satisfies p, and keeps the kept
      ones in their original relative order: the result is xs read at the
      ascending indices of the elements that satisfy p. */
  lemma FilterIsOrderedSelection<T>(xs: seq<T>, p: T -> bool)
    ensures |Filtered(xs, p)| == |Selected(xs, p, 0)|
    ensures forall k :: 0 <= k < |Selected(xs, p, 0)| ==>
      Selected(xs, p, 0)[k] < |xs| && Filtered(xs, p)[k] == xs[Selected(xs, p, 0)[k]]
    ensures forall k, m :: 0 <= k < m < |Selected(xs, p, 0)| ==>
      Selected(xs, p, 0)[k] < Selected(xs, p, 0)[m]
    ensures forall i :: 0 <= i < |xs| ==> (i in Selected(xs, p, 0) <==> p(xs[i]))
  {
    FilterSelectsFrom(xs, p, 0);
    assert xs[0..] == xs;
  }

  /** Filtering distributes over concatenation. */
  lemma {:induction false} FilterAppend<T>(a: seq<T>, b: seq<T>, p: T -> bool)
    ensures Filtered(a + b, p) == Filtered(a, p) + Filtered(b, p)
  {
    if a == [] {
      assert a + b == b;
    } else {
      assert (a + b)[1..] == a[1..] + b;
      FilterAppend(a[1..], b, p);
    }
  }

  /** The result is empty exactly when no element satisfies p (in particular
      when xs is empty). */
  lemma {:induction false} FilterEmptyIffNoneSatisfy<T>(xs: seq<T>, p: T -> bool)
    ensures Filtered(xs, p) == [] <==> forall i :: 0 <= i < |xs| ==> !p(xs[i])
  {
    if xs != [] {
      FilterEmptyIffNoneSatisfy(xs[1..], p);
      assert forall i :: 1 <= i < |xs| ==> xs[i] == xs[1..][i - 1];
    }
  }

  /** When every element satisfies p, nothing is removed. */
  lemma {:induction false} FilterKeepsAll<T>(xs: seq<T>, p: T -> bool)
    requires forall i :: 0 <= i < |xs| ==> p(xs[i])
    ensures Filtered(xs, p) == xs
  {
    if xs != [] {
      FilterKeepsAll(xs[1..], p);
    }
  }

  /** Filtering twice by the same predicate is filtering once. */
  lemma {:induction false} FilterIdempotent<T>(xs: seq<T>, p: T -> bool)
    ensures Filtered(Filtered(xs, p), p) == Filtered(xs, p)
  {
    FilterKeepsAll(Filtered(xs, p), p);
  }

  /** Returns a fresh sequence of the elements of xs that satisfy p, in order. */
  method Filter<T>(xs: seq<T>, p: T -> bool) returns (ys: seq<T>)
    ensures ys == Filtered(xs, p)
  {
    ys := [];
    for i := 0 to |xs|
      invariant ys == Filtered(xs[..i], p)
    {
      assert xs[..i + 1] == xs[..i] + [xs[i]];
      FilterAppend(xs[..i], [xs[i]], p);
      if p(xs[i]) {
        ys := ys + [xs[i]];
      }
    }
    assert xs[..|xs|] == xs;
  }

  // ------------------------------------------------------------------ Map

  /** The transform f applied to each element of xs, index by index. */
  ghost function Mapped<S, T>(xs: seq<S>, f: S -> T): (r: seq<T>)
    ensures |r| == |xs|
    ensures forall i :: 0 <= i < |xs| ==> r[i] == f(xs[i])
  {
    if xs == [] then [] else [f(xs[0])] + Mapped(xs[1..], f)
  }

  /** Returns a fresh sequence holding f(x) for every x of xs, in order. */
  method Map<S, T>(xs: seq<S>, f: S -> T) returns (ys: seq<T>)
    ensures ys == Mapped(xs, f)
  {
    ys := [];
    for i := 0 to |xs|
      invariant |ys| == i
      invariant forall k :: 0 <= k < i ==> ys[k] == f(xs[k])
    {
      var y := f(xs[i]);
      ys := ys + [y];
    }
  }

  // --------------------------------------------------------------- Reduce

  /** The left fold of xs from the accumulator acc, where each step replaces
      the accumulator by c(element, accumulator). */
  ghost function Reduced<T>(xs: seq<T>, acc: T, c: (T, T) -> T): T
  {
    if xs == [] then acc else Reduced(xs[1..], c(xs[0], acc), c)
  }

  /** Folding a + b folds a first and continues from its result over b. */
  lemma {:induction false} ReduceAppend<T>(a: seq<T>, b: seq<T>, init: T, c: (T, T) -> T)
    ensures Reduced(a + b, init, c) == Reduced(b, Reduced(a, init, c), c)
  {
    if a == [] {
      assert a + b == b;
    } else {
      assert (a + b)[1..] == a[1..] + b;
      ReduceAppend(a[1..], b, c(a[0], init), c);
    }
  }

  /** The last element is combined last, with the fold of everything before
      it as the accumulator. */
  lemma ReduceLast<T>(xs: seq<T>, init: T, c: (T, T) -> T)
    requires xs != []
    ensures Reduced(xs, init, c) == c(xs[|xs| - 1], Reduced(xs[..|xs| - 1], init, c))
  {
    var n := |xs| - 1;
    assert xs == xs[..n] + [xs[n]];
    ReduceAppend(xs[..n], [xs[n]], init, c);
  }

  /** The combiner receives the element first and the accumulator second:
      on [x, y] the result is c(y, c(x, init)), which differs from the
      accumulator-first fold for a combiner that is not commutative. */
  lemma ReduceElementFirst<T>(x: T, y: T, init: T, c: (T, T) -> T)
    ensures Reduced([x, y], init, c) == c(y, c(x, init))
  {
    assert [x, y][1..] == [y];
    assert Reduced([y], c(x, init), c) == Reduced([], c(y, c(x, init)), c);
  }

  /** Integer addition as a combiner: element plus accumulator. */
  function Plus(x: int, acc: int): int
  {
    x + acc
  }

  /** The sum of the elements of xs. */
  function Sum(xs: seq<int>): int
  {
    if xs == [] then 0 else xs[0] + Sum(xs[1..])
  }

  /** Reducing with Plus adds the sum of xs to the initial value. */
  lemma {:induction false} ReduceWithPlusSums(xs: seq<int>, init: int)
    ensures Reduced(xs, init, Plus) == init + Sum(xs)
  {
    if xs != [] {
      ReduceWithPlusSums(xs[1..], xs[0] + init);
    }
  }

  /** Folds xs from init with c, element first and accumulator second;
      an empty xs gives back init unchanged. */
  method Reduce<T>(xs: seq<T>, init: T, c: (T, T) -> T) returns (acc: T)
    ensures xs == [] ==> acc == init
    ensures acc == Reduced(xs, init, c)
  {
    acc := init;
    for i := 0 to |xs|
      invariant Reduced(xs[i..], acc, c) == Reduced(xs, init, c)
    {
      assert xs[i..][1..] == xs[i + 1..];
      acc := c(xs[i], acc);
    }
  }
}
