/**
 * The game's `utils` helpers (src/App.js:13-36): summing, integer ranges,
 * the random draw, and the solvable-target generator `randomSumIn`.
 *
 * The generator enumerates, by subset-sum, the subsequences of the pool whose
 * sum stays within a bound, keeps the sum of every one of them (duplicates
 * included), and draws one of those sums. `Sets` and `CollectedSums` below are
 * the specification of what its two growing arrays hold; `RandomSumIn` is the
 * loop itself, proved to compute them.
 *
 * `utils.random(min, max)` as written yields `[min, min + max - 1]`, so the
 * draw `random(0, sums.length - 1)` never reaches the last collected sum
 * (`Random`, `Pick`, `LastSumNeverDrawn`). `RandomSumIn` and the session
 * draw as written; the evidently intended inclusive formula and the coverage
 * it restores are stated beside it (`RandomInclusive`, `PickInclusive`,
 * `GeneratorCovers`).
 */
module Utils {

  /** A JavaScript value that may be `undefined`: `None` stands for `undefined`. */
  datatype Option<T> = None | Some(value: T)

  // ---------------------------------------------------------------------------
  // utils.sum
  // ---------------------------------------------------------------------------

  /** `arr.reduce((acc, curr) => acc + curr, 0)`: a left fold starting at 0. */
  function Sum(s: seq<int>): int
  {
    if s == [] then 0 else Sum(s[..|s| - 1]) + s[|s| - 1]
  }

  lemma {:induction false} SumAppend(a: seq<int>, b: seq<int>)
    ensures Sum(a + b) == Sum(a) + Sum(b)
  {
    if b == [] {
      assert a + b == a;
    } else {
      assert (a + b)[..|a + b| - 1] == a + b[..|b| - 1];
      SumAppend(a, b[..|b| - 1]);
    }
  }

  /**
   * The fold read from the front: the first element plus the sum of the rest.
   * With `SumAppend`, the order in which `reduce` adds does not matter.
   */
  lemma {:induction false} SumFirst(s: seq<int>)
    requires s != []
    ensures Sum(s) == s[0] + Sum(s[1..])
  {
    if |s| > 1 {
      SumFirst(s[..|s| - 1]);
      assert s[..|s| - 1][1..] == s[1..][..|s[1..]| - 1];
    }
  }

  /** A non-empty sequence of positive numbers has a positive sum. */
  lemma {:induction false} SumOfPositives(s: seq<int>)
    requires forall k :: 0 <= k < |s| ==> s[k] >= 1
    ensures Sum(s) >= |s|
  {
    if s != [] {
      SumOfPositives(s[..|s| - 1]);
    }
  }

  // ---------------------------------------------------------------------------
  // utils.range
  // ---------------------------------------------------------------------------

  /**
   * `Array.from({ length: max - min + 1 }, (_, i) => min + i)`. A negative
   * length is clamped to 0 by `Array.from`, so an empty range results.
   */
  function Range(min: int, max: int): (r: seq<int>)
    decreases max - min
    ensures |r| == if min <= max then max - min + 1 else 0
    ensures forall k :: 0 <= k < |r| ==> r[k] == min + k
  {
    if max < min then [] else Range(min, max - 1) + [max]
  }

  // ---------------------------------------------------------------------------
  // utils.random
  // ---------------------------------------------------------------------------

  /**
   * `min + Math.floor(max * Math.random())`, where `u` is the value that
   * `Math.random()` returned, so `0 <= u < 1`. For a positive `max` the draw
   * lies in `[min, min + max - 1]`: `max` itself is never reached.
   */
  function Random(min: int, max: int, u: real): (r: int)
    requires 0.0 <= u < 1.0
    ensures 0 < max ==> min <= r < min + max
    ensures max == 0 ==> r == min
    ensures max < 0 ==> min + max <= r <= min
  {
    ScaledBounds(max, u);
    min + (max as real * u).Floor
  }

  /** `max * u` lies between 0 and `max`, reaching 0 but never `max` unless both are 0. */
  lemma ScaledBounds(max: int, u: real)
    requires 0.0 <= u < 1.0
    ensures 0 < max ==> 0.0 <= max as real * u < max as real
    ensures max < 0 ==> max as real < max as real * u <= 0.0
    ensures max == 0 ==> max as real * u == 0.0
  {
    var m := max as real;
    if 0 < max {
      assert m * u < m * 1.0 by {
        assert m * (1.0 - u) > 0.0;
      }
    } else if max < 0 {
      assert m * u > m * 1.0 by {
        assert (-m) * (1.0 - u) > 0.0;
      }
    }
  }

  /**
   * The draw evidently intended, `min + Math.floor((max - min + 1) * u)`:
   * every integer of `[min, max]` inclusive. It agrees with `Random` when
   * `min` is 1 (the initial target), and differs when `min` is 0.
   */
  function RandomInclusive(min: int, max: int, u: real): (r: int)
    requires 0.0 <= u < 1.0
    ensures min <= max ==> min <= r <= max
    ensures max == min - 1 ==> r == min
  {
    ScaledBounds(max - min + 1, u);
    min + ((max - min + 1) as real * u).Floor
  }

  /** The initial target is drawn alike by both formulas. */
  lemma RandomOneToNine(u: real)
    requires 0.0 <= u < 1.0
    ensures Random(1, 9, u) == RandomInclusive(1, 9, u)
    ensures 1 <= Random(1, 9, u) <= 9
  {
  }

  // ---------------------------------------------------------------------------
  // Subsequences: what a subset of the pool is
  // ---------------------------------------------------------------------------

  /**
   * `s` is `t` with some of its elements left out and the others kept in
   * their original order; each position of `t` is used at most once.
   */
  predicate IsSubsequence(s: seq<int>, t: seq<int>)
    decreases |t|
  {
    if t == [] then s == []
    else
      (s != [] && s[|s| - 1] == t[|t| - 1] && IsSubsequence(s[..|s| - 1], t[..|t| - 1]))
      || IsSubsequence(s, t[..|t| - 1])
  }

  lemma {:induction false} EmptySubsequence(t: seq<int>)
    ensures IsSubsequence([], t)
  {
    if t != [] {
      EmptySubsequence(t[..|t| - 1]);
    }
  }

  lemma {:induction false} SingletonSubsequence(t: seq<int>, k: int)
    requires 0 <= k < |t|
    ensures IsSubsequence([t[k]], t)
  {
    if k == |t| - 1 {
      EmptySubsequence(t[..|t| - 1]);
      assert [t[k]][..0] == [];
    } else {
      SingletonSubsequence(t[..|t| - 1], k);
    }
  }

  /** Extending both sides by the same last element keeps a subsequence one. */
  lemma SubsequenceSnoc(s: seq<int>, t: seq<int>, x: int)
    requires IsSubsequence(s, t)
    ensures IsSubsequence(s + [x], t + [x])
  {
    assert (s + [x])[..|s|] == s;
    assert (t + [x])[..|t|] == t;
  }

  /** A subsequence of `t` is also one of `t` with an element appended. */
  lemma SubsequenceOfSnoc(s: seq<int>, t: seq<int>, x: int)
    requires IsSubsequence(s, t)
    ensures IsSubsequence(s, t + [x])
  {
    assert (t + [x])[..|t|] == t;
  }

  lemma {:induction false} SubsequenceMembers(s: seq<int>, t: seq<int>)
    requires IsSubsequence(s, t)
    ensures forall x :: x in s ==> x in t
    decreases |t|
  {
    if t != [] {
      if s != [] && s[|s| - 1] == t[|t| - 1] && IsSubsequence(s[..|s| - 1], t[..|t| - 1]) {
        SubsequenceMembers(s[..|s| - 1], t[..|t| - 1]);
        assert s == s[..|s| - 1] + [s[|s| - 1]];
      } else {
        SubsequenceMembers(s, t[..|t| - 1]);
      }
    }
  }

  /** `v` is the sum of some non-empty subsequence of `arr`. */
  ghost predicate Achievable(arr: seq<int>, v: int)
  {
    exists s :: s != [] && IsSubsequence(s, arr) && Sum(s) == v
  }

  /** With positive elements, every achievable sum is positive. */
  lemma AchievablePositive(arr: seq<int>, v: int)
    requires forall k :: 0 <= k < |arr| ==> arr[k] >= 1
    requires Achievable(arr, v)
    ensures v >= 1
  {
    var s :| s != [] && IsSubsequence(s, arr) && Sum(s) == v;
    SubsequenceMembers(s, arr);
    forall k | 0 <= k < |s| ensures s[k] >= 1 {
      assert s[k] in s;
    }
    SumOfPositives(s);
  }

  // ---------------------------------------------------------------------------
  // utils.randomSumIn: the specification of the two arrays it grows
  // ---------------------------------------------------------------------------

  /**
   * One pass of the inner loop for element `x`: every set of `sets`, in order,
   * extended by `x`, kept only when its sum stays within `max`.
   */
  function Extend(sets: seq<seq<int>>, x: int, max: int): seq<seq<int>>
  {
    if sets == [] then []
    else
      var candidate := sets[|sets| - 1] + [x];
      Extend(sets[..|sets| - 1], x, max) + (if Sum(candidate) <= max then [candidate] else [])
  }

  /** Every kept set is a set of `sets` extended by `x`, and stays within `max`. */
  lemma {:induction false} ExtendSound(sets: seq<seq<int>>, x: int, max: int, y: seq<int>)
    requires y in Extend(sets, x, max)
    ensures |y| > 0 && y[|y| - 1] == x && y[..|y| - 1] in sets && Sum(y) <= max
  {
    var last := sets[|sets| - 1];
    if y in Extend(sets[..|sets| - 1], x, max) {
      ExtendSound(sets[..|sets| - 1], x, max, y);
    } else {
      assert y == last + [x];
      assert y[..|y| - 1] == last;
    }
  }

  /** One more step of the inner loop appends at most the next candidate. */
  lemma ExtendStep(sets: seq<seq<int>>, x: int, max: int, j: int)
    requires 0 <= j < |sets|
    ensures Extend(sets[..j + 1], x, max)
      == Extend(sets[..j], x, max) + (if Sum(sets[j] + [x]) <= max then [sets[j] + [x]] else [])
  {
    assert sets[..j + 1][..j] == sets[..j];
  }

  /** Every extension of a set of `sets` that stays within `max` is kept. */
  lemma {:induction false} ExtendComplete(sets: seq<seq<int>>, x: int, max: int, e: seq<int>)
    requires e in sets && Sum(e + [x]) <= max
    ensures e + [x] in Extend(sets, x, max)
  {
    var last := sets[|sets| - 1];
    if e != last {
      assert e in sets[..|sets| - 1];
      ExtendComplete(sets[..|sets| - 1], x, max, e);
    }
  }

  /**
   * The contents of `sets` once the first `|arr|` elements have been
   * processed: the empty set first, then every accepted extension.
   */
  function Sets(arr: seq<int>, max: int): (r: seq<seq<int>>)
    ensures |r| >= 1 && r[0] == []
  {
    if arr == [] then [[]]
    else
      var before := Sets(arr[..|arr| - 1], max);
      before + Extend(before, arr[|arr| - 1], max)
  }

  /** Only the first enumerated set is empty. */
  lemma {:induction false} SetsNonEmpty(arr: seq<int>, max: int, t: int)
    requires 1 <= t < |Sets(arr, max)|
    ensures Sets(arr, max)[t] != []
  {
    var before := Sets(arr[..|arr| - 1], max);
    if t >= |before| {
      var ext := Extend(before, arr[|arr| - 1], max);
      assert Sets(arr, max)[t] == ext[t - |before|];
      ExtendSound(before, arr[|arr| - 1], max, ext[t - |before|]);
    } else {
      SetsNonEmpty(arr[..|arr| - 1], max, t);
    }
  }

  /** One more step of the outer loop appends the extensions by the next element. */
  lemma SetsStep(arr: seq<int>, max: int, i: int)
    requires 0 <= i < |arr|
    ensures Sets(arr[..i + 1], max) == Sets(arr[..i], max) + Extend(Sets(arr[..i], max), arr[i], max)
  {
    assert arr[..i + 1][..i] == arr[..i];
  }

  /** The sum of each set, position by position. */
  function SumsOf(sets: seq<seq<int>>): seq<int>
  {
    seq(|sets|, k requires 0 <= k < |sets| => Sum(sets[k]))
  }

  /** Pushing a set onto `sets` and its sum onto `sums` keeps one sum per non-empty set. */
  lemma SumsOfPush(sets: seq<seq<int>>, sums: seq<int>, c: seq<int>)
    requires |sets| >= 1 && sums == SumsOf(sets[1..])
    ensures sums + [Sum(c)] == SumsOf((sets + [c])[1..])
  {
    assert (sets + [c])[1..] == sets[1..] + [c];
  }

  /** The contents of `sums`: one entry per accepted non-empty set, duplicates kept. */
  function CollectedSums(arr: seq<int>, max: int): seq<int>
  {
    SumsOf(Sets(arr, max)[1..])
  }

  /**
   * `sums[utils.random(0, sums.length - 1)]` as written, with `undefined`
   * as `None`: with two or more sums the index stops one short of the last.
   */
  function Pick(sums: seq<int>, u: real): (r: Option<int>)
    requires 0.0 <= u < 1.0
    ensures r.Some? <==> |sums| > 0
    ensures r.Some? ==> r.value in sums
    ensures |sums| >= 2 ==> r.Some? && r.value in sums[..|sums| - 1]
  {
    var k := Random(0, |sums| - 1, u);
    if 0 <= k < |sums| then Some(sums[k]) else None
  }

  /** `sums[...]` at the evidently intended index, any of `0 .. sums.length - 1`. */
  function PickInclusive(sums: seq<int>, u: real): (r: Option<int>)
    requires 0.0 <= u < 1.0
    ensures r.Some? <==> |sums| > 0
    ensures r.Some? ==> r.value in sums
  {
    var k := RandomInclusive(0, |sums| - 1, u);
    if 0 <= k < |sums| then Some(sums[k]) else None
  }

  /** Every position, the last one included, is drawn for some value of `Math.random()`. */
  lemma PickInclusiveCovers(sums: seq<int>, k: int)
    requires 0 <= k < |sums|
    ensures 0.0 <= k as real / |sums| as real < 1.0
    ensures PickInclusive(sums, k as real / |sums| as real) == Some(sums[k])
  {
    ScaledIndex(k, |sums|);
    var u := k as real / |sums| as real;
    assert RandomInclusive(0, |sums| - 1, u) == k;
  }

  /** `k / n` is a valid value of `Math.random()` that `n` scales back to `k`. */
  lemma ScaledIndex(k: int, n: int)
    requires 0 <= k < n
    ensures 0.0 <= k as real / n as real < 1.0
    ensures n as real * (k as real / n as real) == k as real
  {
    var q := k as real / n as real;
    assert q * n as real == k as real;
    assert (1.0 - q) * n as real == (n - k) as real;
  }

  // ---------------------------------------------------------------------------
  // Soundness and completeness of the enumeration
  // ---------------------------------------------------------------------------

  /** Every enumerated set is a subsequence of `arr`; a non-empty one stays within `max`. */
  lemma {:induction false} SetsSound(arr: seq<int>, max: int, y: seq<int>)
    requires y in Sets(arr, max)
    ensures IsSubsequence(y, arr)
    ensures y != [] ==> Sum(y) <= max
    decreases |arr|
  {
    if arr == [] {
      EmptySubsequence(arr);
    } else {
      var p, x := arr[..|arr| - 1], arr[|arr| - 1];
      assert arr == p + [x];
      var before := Sets(p, max);
      if y in before {
        SetsSound(p, max, y);
        SubsequenceOfSnoc(y, p, x);
      } else {
        ExtendSound(before, x, max, y);
        var e := y[..|y| - 1];
        assert y == e + [x];
        SetsSound(p, max, e);
        SubsequenceSnoc(e, p, x);
      }
    }
  }

  /** With non-negative elements, every subsequence within `max` is enumerated. */
  lemma {:induction false} SetsComplete(arr: seq<int>, max: int, s: seq<int>)
    requires forall k :: 0 <= k < |arr| ==> arr[k] >= 0
    requires IsSubsequence(s, arr) && Sum(s) <= max
    ensures s in Sets(arr, max)
    decreases |arr|
  {
    if arr == [] {
      assert s == [];
    } else {
      var p, x := arr[..|arr| - 1], arr[|arr| - 1];
      var before := Sets(p, max);
      if s != [] && s[|s| - 1] == x && IsSubsequence(s[..|s| - 1], p) {
        var e := s[..|s| - 1];
        assert s == e + [x];
        SumAppend(e, [x]);
        assert Sum([x]) == x by {
          assert [x][..0] == [];
        }
        SetsComplete(p, max, e);
        ExtendComplete(before, x, max, e);
      } else {
        SetsComplete(p, max, s);
      }
    }
  }

  /** Every collected sum is within `max` and is the sum of a non-empty subsequence. */
  lemma SumsSound(arr: seq<int>, max: int, v: int)
    requires v in CollectedSums(arr, max)
    ensures v <= max && Achievable(arr, v)
  {
    var sets := Sets(arr, max);
    var t :| 0 <= t < |sets| - 1 && CollectedSums(arr, max)[t] == v;
    var y := sets[t + 1];
    assert y in sets;
    SetsNonEmpty(arr, max, t + 1);
    SetsSound(arr, max, y);
    assert Sum(y) == v;
  }

  /** With non-negative elements, the sum of every non-empty subsequence within `max` is collected. */
  lemma SumsComplete(arr: seq<int>, max: int, s: seq<int>)
    requires forall k :: 0 <= k < |arr| ==> arr[k] >= 0
    requires s != [] && IsSubsequence(s, arr) && Sum(s) <= max
    ensures Sum(s) in CollectedSums(arr, max)
  {
    SetsComplete(arr, max, s);
    var sets := Sets(arr, max);
    var t :| 0 <= t < |sets| && sets[t] == s;
    assert t != 0;
    var sums := CollectedSums(arr, max);
    assert |sums| == |sets| - 1;
    assert sets[1..][t - 1] == s;
    assert sums[t - 1] == Sum(s);
  }

  /**
   * For non-negative elements, the collected sums are exactly the achievable
   * sums within `max`.
   */
  lemma CollectedSumsExact(arr: seq<int>, max: int, v: int)
    requires forall k :: 0 <= k < |arr| ==> arr[k] >= 0
    ensures v in CollectedSums(arr, max) <==> v <= max && Achievable(arr, v)
  {
    if v in CollectedSums(arr, max) {
      SumsSound(arr, max, v);
    }
    if v <= max && Achievable(arr, v) {
      var s :| s != [] && IsSubsequence(s, arr) && Sum(s) == v;
      SumsComplete(arr, max, s);
    }
  }

  /** A pool with an element in `[0, max]` always yields at least one sum. */
  lemma CollectedSumsNonEmpty(arr: seq<int>, max: int, k: int)
    requires forall i :: 0 <= i < |arr| ==> arr[i] >= 0
    requires 0 <= k < |arr| && arr[k] <= max
    ensures |CollectedSums(arr, max)| > 0
  {
    SingletonSubsequence(arr, k);
    assert Sum([arr[k]]) == arr[k] by {
      assert [arr[k]][..0] == [];
    }
    SumsComplete(arr, max, [arr[k]]);
  }

  /** The pool `[1, 2]` collects the sums of `[1]`, `[2]` and `[1, 2]`, in that order. */
  lemma CollectedSumsOneTwo()
    ensures CollectedSums([1, 2], 9) == [1, 2, 3]
  {
    assert [1, 2][..1] == [1];
    assert [1][..0] == [] && [2][..0] == [];
    var none: seq<int> := [];
    assert [none][..0] == [] && [none, [1]][..1] == [none];
    assert Sum([1]) == 1 && Sum([2]) == 2 && Sum([1, 2]) == 3;
    assert none + [1] == [1] && none + [2] == [2] && [1] + [2] == [1, 2];
    assert Extend([[]], 1, 9) == [[1]];
    assert Sets([1], 9) == [[], [1]];
    assert Extend([[]], 2, 9) == [[2]];
    assert Extend([[], [1]], 2, 9) == [[2], [1, 2]];
    assert Sets([1, 2], 9) == [[], [1], [2], [1, 2]];
  }

  /**
   * As written, the draw never reaches the last collected sum: on the pool
   * `[1, 2]` the target 3 is achievable (only by `[1, 2]`, the last set
   * enumerated) and within the bound, yet no value of `Math.random()` draws it.
   */
  lemma LastSumNeverDrawn(u: real)
    requires 0.0 <= u < 1.0
    ensures Achievable([1, 2], 3)
    ensures Pick(CollectedSums([1, 2], 9), u) != Some(3)
  {
    CollectedSumsOneTwo();
    EmptySubsequence([]);
    SubsequenceSnoc([], [], 1);
    SubsequenceSnoc([1], [1], 2);
    assert [1] + [2] == [1, 2];
    assert Sum([1, 2]) == 3 by {
      assert [1, 2][..1] == [1];
    }
  }

  /**
   * With the intended draw, every achievable sum within the bound is a
   * possible target: some value of `Math.random()` yields it.
   */
  lemma GeneratorCovers(arr: seq<int>, max: int, s: seq<int>)
    requires forall k :: 0 <= k < |arr| ==> arr[k] >= 0
    requires s != [] && IsSubsequence(s, arr) && Sum(s) <= max
    ensures exists u :: 0.0 <= u < 1.0 && PickInclusive(CollectedSums(arr, max), u) == Some(Sum(s))
  {
    var sums := CollectedSums(arr, max);
    SumsComplete(arr, max, s);
    var k :| 0 <= k < |sums| && sums[k] == Sum(s);
    PickInclusiveCovers(sums, k);
  }

  /**
   * For a pool of digits 1 to 9, the draw with bound 9 is `undefined`
   * exactly when the pool is empty, and otherwise an achievable sum in 1 to 9;
   * this holds for the draw as written and for the corrected one alike.
   */
  lemma DrawnTarget(pool: seq<int>, u: real)
    requires forall k :: 0 <= k < |pool| ==> 1 <= pool[k] <= 9
    requires 0.0 <= u < 1.0
    ensures var r := Pick(CollectedSums(pool, 9), u);
      && (r.Some? <==> pool != [])
      && (r.Some? ==> 1 <= r.value <= 9 && Achievable(pool, r.value))
    ensures var r := PickInclusive(CollectedSums(pool, 9), u);
      && (r.Some? <==> pool != [])
      && (r.Some? ==> 1 <= r.value <= 9 && Achievable(pool, r.value))
  {
    var sums := CollectedSums(pool, 9);
    if pool != [] {
      CollectedSumsNonEmpty(pool, 9, 0);
    }
    var r := Pick(sums, u);
    if r.Some? {
      SumsSound(pool, 9, r.value);
      AchievablePositive(pool, r.value);
    }
    var r' := PickInclusive(sums, u);
    if r'.Some? {
      SumsSound(pool, 9, r'.value);
      AchievablePositive(pool, r'.value);
    }
  }

  // ---------------------------------------------------------------------------
  // utils.randomSumIn
  // ---------------------------------------------------------------------------

  /**
   * Grows `sets` (starting from the empty set) and `sums` in nested loops,
   * the inner one bounded by the length `sets` had before it, then returns
   * `sums[random(0, sums.length - 1)]` as written (`Pick`). `u` is the value
   * `Math.random()` returned.
   */
  method RandomSumIn(arr: seq<int>, max: int, u: real) returns (r: Option<int>)
    requires 0.0 <= u < 1.0
    ensures r == Pick(CollectedSums(arr, max), u)
    ensures r.Some? ==> r.value <= max && Achievable(arr, r.value)
  {
    var sets: seq<seq<int>> := [[]];
    var sums: seq<int> := [];
    for i := 0 to |arr|
      invariant sets == Sets(arr[..i], max)
      invariant |sums| == |sets| - 1
      invariant sums == SumsOf(sets[1..])
    {
      ghost var before := sets;
      var len := |sets|;
      for j := 0 to len
        invariant sets == before + Extend(before[..j], arr[i], max)
        invariant |sums| == |sets| - 1
        invariant sums == SumsOf(sets[1..])
      {
        ExtendStep(before, arr[i], max, j);
        var candidateSet := sets[j] + [arr[i]];
        var candidateSum := Sum(candidateSet);
        if candidateSum <= max {
          SumsOfPush(sets, sums, candidateSet);
          sets := sets + [candidateSet];
          sums := sums + [candidateSum];
        }
      }
      assert before[..len] == before;
      SetsStep(arr, max, i);
    }
    assert arr[..|arr|] == arr;
    r := Pick(sums, u);
    if r.Some? {
      SumsSound(arr, max, r.value);
    }
  }
}
