/**
 * `partitions(value, positions, depth=0)`: every list of `positions - depth`
 * non-negative integers whose sum is at most `value`, built by recursion on
 * the last element. The function appears twice in the library, with the
 * same body, in partitions.py and in system_identification/partitions.py.
 */
module Partitions {

  /** `sum(s)`, accumulated from the first element to the last. */
  function Total(s: seq<int>): int
  {
    if |s| == 0 then 0 else Total(s[..|s| - 1]) + s[|s| - 1]
  }

  predicate NonNegative(s: seq<int>)
  {
    forall k :: 0 <= k < |s| ==> s[k] >= 0
  }

  /** The lists the function is meant to produce: `n` entries, none negative, summing to at most `value`. */
  predicate Admissible(s: seq<int>, n: int, value: int)
  {
    |s| == n && NonNegative(s) && Total(s) <= value
  }

  /** The number of recursion levels left; zero once `depth` has passed `positions`. */
  function Levels(positions: int, depth: int): nat
  {
    if depth <= positions then positions - depth else 0
  }

  /**
   * The recursion ends when `depth` reaches `positions`. A call with
   * `depth` beyond `positions` (a negative `positions` at the default
   * `depth = 0`, or an explicit larger `depth`) returns only when
   * `range(value + 1)` is empty, that is when `value < 0`: with
   * `value >= 0`, e.g. `partitions(3, -1)`, Python recurses until it raises
   * RecursionError, and the requires clause leaves those calls out.
   */
  function Partitions(value: int, positions: int, depth: int): (r: seq<seq<int>>)
    requires depth <= positions || value < 0
    ensures value < 0 && positions != depth ==> r == []
    decreases Levels(positions, depth), 1, 0
  {
    if positions == depth then [[]] else Sweep(value, positions, depth, 0)
  }

  /** The comprehension from `i` on: the lists ending in `i`, then those ending in `i + 1`, … up to `value`. */
  function Sweep(value: int, positions: int, depth: int, i: int): (r: seq<seq<int>>)
    requires positions != depth && (depth <= positions || value < 0) && 0 <= i
    ensures value < i ==> r == []
    decreases Levels(positions, depth), 0, if i <= value then value - i + 1 else 0
  {
    if i > value then []
    else Extend(Partitions(value - i, positions, depth + 1), i) + Sweep(value, positions, depth, i + 1)
  }

  /** `[item + [i] for item in items]`. */
  function Extend(items: seq<seq<int>>, i: int): (r: seq<seq<int>>)
    ensures |r| == |items|
    ensures forall j :: 0 <= j < |items| ==> r[j] == items[j] + [i]
  {
    seq(|items|, j requires 0 <= j < |items| => items[j] + [i])
  }

  function Last(s: seq<int>): int
    requires |s| > 0
  {
    s[|s| - 1]
  }

  // ---------------------------------------------------------------------
  // Soundness and completeness

  lemma ExtendMembership(items: seq<seq<int>>, i: int, s: seq<int>)
    ensures s in Extend(items, i) <==> |s| > 0 && Last(s) == i && s[..|s| - 1] in items
  {
    var r := Extend(items, i);
    if s in r {
      var j :| 0 <= j < |r| && r[j] == s;
      assert s[..|s| - 1] == items[j];
    }
    if |s| > 0 && Last(s) == i && s[..|s| - 1] in items {
      var j :| 0 <= j < |items| && items[j] == s[..|s| - 1];
      assert r[j] == s;
    }
  }

  lemma {:induction false} TotalNonNegative(s: seq<int>)
    requires NonNegative(s)
    ensures Total(s) >= 0
  {
    if |s| > 0 {
      TotalNonNegative(s[..|s| - 1]);
    }
  }

  /** A list is admissible exactly when its prefix is admissible for what its last entry leaves over. */
  lemma AdmissibleSnoc(s: seq<int>, n: int, value: int)
    requires |s| == n > 0
    ensures Admissible(s, n, value) <==> Last(s) >= 0 && Admissible(s[..n - 1], n - 1, value - Last(s))
  {
    var p := s[..n - 1];
    assert NonNegative(s) <==> NonNegative(p) && Last(s) >= 0 by {
      assert forall k :: 0 <= k < |p| ==> p[k] == s[k];
    }
  }

  /**
   * With `depth ≤ positions`, the result holds exactly the admissible
   * lists of `positions - depth` entries. The requires leaves out
   * `value < 0` at `depth == positions`: there the result is `[[]]`, whose
   * sum 0 exceeds `value`, so that one list is not admissible.
   */
  lemma {:induction false} PartitionsMembership(value: int, positions: int, depth: int, s: seq<int>)
    requires depth <= positions && (0 <= value || depth < positions)
    ensures s in Partitions(value, positions, depth) <==> Admissible(s, positions - depth, value)
    decreases Levels(positions, depth), 1, 0, 0
  {
    if positions == depth {
      if s == [] {
        assert Total(s) == 0;
      }
    } else {
      SweepMembership(value, positions, depth, 0, s);
      if Admissible(s, positions - depth, value) {
        assert s[|s| - 1] >= 0;
      }
    }
  }

  lemma {:induction false} SweepMembership(value: int, positions: int, depth: int, i: int, s: seq<int>)
    requires depth < positions && 0 <= i
    ensures s in Sweep(value, positions, depth, i) <==> Admissible(s, positions - depth, value) && Last(s) >= i
    decreases Levels(positions, depth), 0, if i <= value then value - i + 1 else 0, 1
  {
    var n := positions - depth;
    if i > value {
      if Admissible(s, n, value) && Last(s) >= i {
        AdmissibleSnoc(s, n, value);
        TotalNonNegative(s[..n - 1]);
      }
    } else {
      var rest := Sweep(value, positions, depth, i + 1);
      assert Sweep(value, positions, depth, i) == Extend(Partitions(value - i, positions, depth + 1), i) + rest;
      BlockMembership(value, positions, depth, i, s);
      SweepMembership(value, positions, depth, i + 1, s);
    }
  }

  /** The lists built for `i` are exactly the admissible lists ending in `i`. */
  lemma {:induction false} BlockMembership(value: int, positions: int, depth: int, i: int, s: seq<int>)
    requires depth < positions && 0 <= i <= value
    ensures s in Extend(Partitions(value - i, positions, depth + 1), i) <==> Admissible(s, positions - depth, value) && Last(s) == i
    decreases Levels(positions, depth), 0, value - i + 1, 0
  {
    var n := positions - depth;
    ExtendMembership(Partitions(value - i, positions, depth + 1), i, s);
    if |s| > 0 {
      PartitionsMembership(value - i, positions, depth + 1, s[..|s| - 1]);
    }
    if |s| == n {
      AdmissibleSnoc(s, n, value);
    }
  }

  // ---------------------------------------------------------------------
  // Order and uniqueness

  /** Lists come grouped by their last entry in increasing order, and no list comes twice. */
  predicate OrderedDistinct(r: seq<seq<int>>)
  {
    && (forall a :: 0 <= a < |r| ==> |r[a]| > 0)
    && forall a, b :: 0 <= a < b < |r| ==> r[a] != r[b] && Last(r[a]) <= Last(r[b])
  }

  predicate Distinct(r: seq<seq<int>>)
  {
    forall a, b :: 0 <= a < b < |r| ==> r[a] != r[b]
  }

  lemma ExtendDistinct(items: seq<seq<int>>, i: int)
    requires Distinct(items)
    ensures Distinct(Extend(items, i))
  {
    var r := Extend(items, i);
    forall a, b | 0 <= a < b < |r| ensures r[a] != r[b] {
      assert r[a][..|r[a]| - 1] == items[a];
      assert r[b][..|r[b]| - 1] == items[b];
    }
  }

  /** No list appears twice in the result. */
  lemma {:induction false} PartitionsDistinct(value: int, positions: int, depth: int)
    requires depth <= positions || value < 0
    ensures Distinct(Partitions(value, positions, depth))
    decreases Levels(positions, depth), 1, 0
  {
    if positions != depth {
      SweepOrdered(value, positions, depth, 0);
    }
  }

  /** Below the last level the lists run through their last entries in increasing order, without repeats. */
  lemma {:induction false} SweepOrdered(value: int, positions: int, depth: int, i: int)
    requires positions != depth && (depth <= positions || value < 0) && 0 <= i
    ensures forall a :: 0 <= a < |Sweep(value, positions, depth, i)| ==>
      |Sweep(value, positions, depth, i)[a]| > 0 && Last(Sweep(value, positions, depth, i)[a]) >= i
    ensures OrderedDistinct(Sweep(value, positions, depth, i))
    decreases Levels(positions, depth), 0, if i <= value then value - i + 1 else 0
  {
    if i <= value {
      var items := Partitions(value - i, positions, depth + 1);
      PartitionsDistinct(value - i, positions, depth + 1);
      ExtendDistinct(items, i);
      var rest := Sweep(value, positions, depth, i + 1);
      SweepOrdered(value, positions, depth, i + 1);
      assert Sweep(value, positions, depth, i) == Extend(items, i) + rest;
      ConcatOrdered(Extend(items, i), rest, i);
    }
  }

  /** A block of distinct lists ending in `i`, followed by ordered lists ending after `i`, is ordered. */
  lemma ConcatOrdered(block: seq<seq<int>>, rest: seq<seq<int>>, i: int)
    requires forall a :: 0 <= a < |block| ==> |block[a]| > 0 && Last(block[a]) == i
    requires forall b :: 0 <= b < |rest| ==> |rest[b]| > 0 && Last(rest[b]) > i
    requires Distinct(block) && OrderedDistinct(rest)
    ensures forall a :: 0 <= a < |block + rest| ==> |(block + rest)[a]| > 0 && Last((block + rest)[a]) >= i
    ensures OrderedDistinct(block + rest)
  {
    var r := block + rest;
    forall a, b | 0 <= a < b < |r| ensures r[a] != r[b] && Last(r[a]) <= Last(r[b]) {
      if b < |block| {
        assert r[a] == block[a] && r[b] == block[b];
      } else if a < |block| {
        assert r[a] == block[a] && r[b] == rest[b - |block|];
      } else {
        assert r[a] == rest[a - |block|] && r[b] == rest[b - |block|];
      }
    }
  }

  /** The top-level call lists its results by increasing last entry. */
  lemma PartitionsOrdered(value: int, positions: int, depth: int)
    requires positions != depth && (depth <= positions || value < 0)
    ensures OrderedDistinct(Partitions(value, positions, depth))
  {
    SweepOrdered(value, positions, depth, 0);
  }
}
