/**
 * Diff and patch of a field classified `Unordered`: the collection is a
 * sequence compared by element equality, and a change is the pair of
 * multiset surpluses `add` (in `after`, unmatched in `before`) and `remove`
 * (in `before`, unmatched in `after`).
 */
module Unordered {
  import opened FirstMatch

  /** The `_add` / `_remove` pair a delta carries for one unordered field. */
  datatype Changes<T> = Changes(add: seq<T>, remove: seq<T>) {
    /** The field counts as changed exactly when either list is non-empty. */
    predicate IsChange() {
      |add| > 0 || |remove| > 0
    }
  }

  /**
   * The generated diff: `add` starts as all of `after`; each element of `before`
   * consumes its first equal element of `add`, or, finding none, is pushed to
   * `remove`.
   */
  function Diff<T(==)>(before: seq<T>, after: seq<T>): (c: Changes<T>)
    ensures multiset(c.remove) == multiset(before) - multiset(after)
    ensures multiset(c.add) == multiset(after) - multiset(before)
    ensures IsSubsequence(c.remove, before)
    ensures IsSubsequence(c.add, after)
  {
    var m := Consume(before, after);
    ConsumeCounts(before, after);
    Changes(m.leftover, m.kept)
  }

  /**
   * The generated patch: drop each element of `target` that matches a not yet
   * consumed entry of `c.remove` (consuming it), keep the rest in order, then
   * append `c.add`.
   */
  function Patch<T(==)>(target: seq<T>, c: Changes<T>): (r: seq<T>)
    ensures |c.add| <= |r| && r[|r| - |c.add|..] == c.add
    ensures IsSubsequence(r[..|r| - |c.add|], target)
    ensures multiset(r) == (multiset(target) - multiset(c.remove)) + multiset(c.add)
  {
    var kept := Consume(target, c.remove).kept;
    ConsumeCounts(target, c.remove);
    assert (kept + c.add)[..|kept|] == kept;
    kept + c.add
  }

  /** A diff is a change exactly when the two collections differ as multisets. */
  lemma DiffIsChangeIff<T>(before: seq<T>, after: seq<T>)
    ensures Diff(before, after).IsChange() <==> multiset(before) != multiset(after)
  {
    var c := Diff(before, after);
    var O, N := multiset(before), multiset(after);
    if O != N {
      var y :| O[y] != N[y];
      assert (O - N)[y] > 0 || (N - O)[y] > 0;
      assert multiset(c.remove) != multiset{} || multiset(c.add) != multiset{};
    } else {
      assert O - N == multiset{};
    }
  }

  /** Diffing a collection against itself yields two empty lists. */
  lemma DiffSelf<T>(xs: seq<T>)
    ensures Diff(xs, xs) == Changes([], [])
  {
    DiffIsChangeIff(xs, xs);
  }

  /** Swapping the arguments swaps the roles of `add` and `remove`. */
  lemma DiffSwap<T>(a: seq<T>, b: seq<T>)
    ensures multiset(Diff(b, a).add) == multiset(Diff(a, b).remove)
    ensures multiset(Diff(b, a).remove) == multiset(Diff(a, b).add)
  {
  }

  /**
   * Patch inverts diff: applying the changes computed from `(before, after)` to
   * `before` gives a collection multiset-equal to `after`, made of a subsequence of
   * `before` followed by the added elements.
   */
  lemma PatchInvertsDiff<T>(before: seq<T>, after: seq<T>)
    ensures multiset(Patch(before, Diff(before, after))) == multiset(after)
  {
    var O, N := multiset(before), multiset(after);
    assert (O - (O - N)) + (N - O) == N by {
      assert forall y :: ((O - (O - N)) + (N - O))[y] == N[y];
    }
  }

  /**
   * Unmatched removals are tolerated: the result loses exactly the removals
   * that found a partner in `target`, and the removals that found none are
   * `multiset(c.remove) - multiset(target)`.
   */
  lemma PatchLength<T>(target: seq<T>, c: Changes<T>)
    ensures |Patch(target, c)|
         == |target| - (|c.remove| - |multiset(c.remove) - multiset(target)|) + |c.add|
  {
    var m := Consume(target, c.remove);
    ConsumeCounts(target, c.remove);
    assert |m.leftover| == |multiset(m.leftover)|;
  }

  /**
   * Patching depends on `remove` only through how many copies it holds of
   * each element of the target: its order, and entries equal to nothing in
   * the target, make no difference.
   */
  lemma PatchIgnoresIrrelevantRemovals<T>(target: seq<T>, add: seq<T>, r1: seq<T>, r2: seq<T>)
    requires forall y :: y in target ==> multiset(r1)[y] == multiset(r2)[y]
    ensures Patch(target, Changes(add, r1)) == Patch(target, Changes(add, r2))
  {
    KeptDependsOnRelevantCounts(target, r1, r2);
  }

  /** A removal entry equal to no element of the target is simply left unconsumed. */
  lemma PatchIgnoresUnmatchedRemoval<T>(target: seq<T>, add: seq<T>, remove: seq<T>, x: T)
    requires x !in target
    ensures Patch(target, Changes(add, remove + [x])) == Patch(target, Changes(add, remove))
  {
    PatchIgnoresIrrelevantRemovals(target, add, remove + [x], remove);
  }

  /** Applying no change leaves the collection as it was. */
  lemma PatchNothing<T>(target: seq<T>)
    ensures Patch(target, Changes([], [])) == target
  {
    ConsumeCounts(target, []);
    var kept := Consume(target, []).kept;
    SubsequenceSameLength(kept, target);
  }
}
