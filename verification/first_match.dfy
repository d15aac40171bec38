/**
 * The first-match consumption loop that both the diff and the patch of an
 * unordered field run: walk a sequence `xs`, and for each element look for the
 * first equal element still in a `pool`; if there is one, remove it from the
 * pool and drop the element, otherwise keep the element. What is kept and what
 * is left of the pool are the two outcomes.
 */
module FirstMatch {
  import opened Wrappers

  /** The index of the first element of `xs` equal to `x` (`Iterator::position`). */
  function Position<T(==)>(xs: seq<T>, x: T): (r: Option<nat>)
    ensures r.None? <==> x !in xs
    ensures r.Some? ==> r.value < |xs| && xs[r.value] == x && x !in xs[..r.value]
  {
    if |xs| == 0 then None
    else if xs[0] == x then Some(0)
    else
      match Position(xs[1..], x)
      case None => None
      case Some(i) =>
        assert xs[1..][..i] == xs[1..i + 1];
        Some(i + 1)
  }

  /** `xs` without its element at index `i` (`Vec::remove`). */
  function RemoveAt<T>(xs: seq<T>, i: nat): (r: seq<T>)
    requires i < |xs|
    ensures |r| == |xs| - 1
    ensures multiset(r) == multiset(xs) - multiset{xs[i]}
    ensures forall j :: 0 <= j < i ==> r[j] == xs[j]
    ensures forall j :: i <= j < |r| ==> r[j] == xs[j + 1]
  {
    assert xs == xs[..i] + [xs[i]] + xs[i + 1..];
    xs[..i] + xs[i + 1..]
  }

  /**
   * `a` can be obtained from `b` by deleting elements, so the elements of `a`
   * appear in `b` in the same relative order. Greedy matching decides it.
   */
  predicate IsSubsequence<T(==)>(a: seq<T>, b: seq<T>)
    decreases |b|
  {
    if |a| == 0 then true
    else if |b| == 0 then false
    else if a[0] == b[0] then IsSubsequence(a[1..], b[1..])
    else IsSubsequence(a, b[1..])
  }

  /** The outcome of one consumption walk. */
  datatype Matched<T> = Matched(kept: seq<T>, leftover: seq<T>)

  /**
   * Walk `xs` left to right against `pool`: an element equal to some element
   * still in the pool consumes the first such pool element and is dropped;
   * any other element is kept. The pool is threaded through the walk, so an
   * element of `xs` consumes at most one pool entry and a pool entry is
   * consumed at most once.
   */
  function Consume<T(==)>(xs: seq<T>, pool: seq<T>): (r: Matched<T>)
    ensures IsSubsequence(r.kept, xs)
    ensures IsSubsequence(r.leftover, pool)
    ensures |r.kept| + (|pool| - |r.leftover|) == |xs|
    decreases |xs|
  {
    if |xs| == 0 then
      SubsequenceRefl(pool);
      Matched([], pool)
    else
      match Position(pool, xs[0])
      case Some(i) =>
        var rest := Consume(xs[1..], RemoveAt(pool, i));
        SubsequenceDropHead(rest.kept, xs[1..], xs[0]);
        RemoveAtIsSubsequence(pool, i);
        SubsequenceTrans(rest.leftover, RemoveAt(pool, i), pool);
        rest
      case None =>
        var rest := Consume(xs[1..], pool);
        assert xs == [xs[0]] + xs[1..];
        assert ([xs[0]] + rest.kept)[1..] == rest.kept;
        Matched([xs[0]] + rest.kept, rest.leftover)
  }

  lemma {:induction false} SubsequenceRefl<T>(a: seq<T>)
    ensures IsSubsequence(a, a)
    decreases |a|
  {
    if |a| > 0 {
      SubsequenceRefl(a[1..]);
    }
  }

  /** Dropping the first element of a subsequence keeps it a subsequence. */
  lemma {:induction false} SubsequenceTail<T>(a: seq<T>, b: seq<T>)
    requires |a| > 0 && IsSubsequence(a, b)
    ensures IsSubsequence(a[1..], b)
    decreases |b|, 1
  {
    if a[0] != b[0] {
      SubsequenceTail(a, b[1..]);
    }
    SubsequenceDropHead(a[1..], b[1..], b[0]);
    assert [b[0]] + b[1..] == b;
  }

  /** Prepending an element to the longer sequence preserves the relation. */
  lemma {:induction false} SubsequenceDropHead<T>(a: seq<T>, b: seq<T>, x: T)
    requires IsSubsequence(a, b)
    ensures IsSubsequence(a, [x] + b)
    ensures ([x] + b)[1..] == b
    decreases |b| + 1, 0
  {
    assert ([x] + b)[1..] == b;
    if |a| > 0 && a[0] == x {
      SubsequenceTail(a, b);
    }
  }

  lemma SubsequenceCons<T>(a: seq<T>, b: seq<T>, x: T)
    requires IsSubsequence(a, b)
    ensures IsSubsequence([x] + a, [x] + b)
  {
    assert ([x] + a)[1..] == a && ([x] + b)[1..] == b;
  }

  lemma {:induction false} SubsequenceTrans<T>(a: seq<T>, b: seq<T>, c: seq<T>)
    requires IsSubsequence(a, b) && IsSubsequence(b, c)
    ensures IsSubsequence(a, c)
    decreases |c|
  {
    if |a| == 0 {
    } else if b[0] == c[0] {
      if a[0] == b[0] {
        SubsequenceTrans(a[1..], b[1..], c[1..]);
      } else {
        SubsequenceTrans(a, b[1..], c[1..]);
      }
    } else {
      SubsequenceTrans(a, b, c[1..]);
      if a[0] == c[0] {
        SubsequenceTail(a, c[1..]);
      }
    }
  }

  lemma {:induction false} RemoveAtIsSubsequence<T>(xs: seq<T>, i: nat)
    requires i < |xs|
    ensures IsSubsequence(xs[..i] + xs[i + 1..], xs)
    decreases i
  {
    var t := xs[1..];
    assert [xs[0]] + t == xs;
    if i == 0 {
      assert xs[..i] + xs[i + 1..] == t;
      SubsequenceRefl(t);
      SubsequenceDropHead(t, t, xs[0]);
    } else {
      RemoveAtIsSubsequence(t, i - 1);
      assert xs[..i] + xs[i + 1..] == [xs[0]] + (t[..i - 1] + t[i..]);
      SubsequenceCons(t[..i - 1] + t[i..], t, xs[0]);
    }
  }

  /**
   * Counting: what is kept is the surplus of `xs` over `pool`, and what is
   * left of the pool is the surplus of `pool` over `xs`, element by element.
   */
  lemma {:induction false} ConsumeCounts<T>(xs: seq<T>, pool: seq<T>)
    ensures multiset(Consume(xs, pool).kept) == multiset(xs) - multiset(pool)
    ensures multiset(Consume(xs, pool).leftover) == multiset(pool) - multiset(xs)
    decreases |xs|
  {
    if |xs| > 0 {
      var x := xs[0];
      assert xs == [x] + xs[1..];
      assert multiset(xs) == multiset(xs[1..]) + multiset{x};
      match Position(pool, x)
      case Some(i) =>
        ConsumeCounts(xs[1..], RemoveAt(pool, i));
        MatchedCounts(multiset(xs[1..]), multiset(pool), x);
      case None =>
        ConsumeCounts(xs[1..], pool);
        assert multiset([x] + Consume(xs[1..], pool).kept)
            == multiset{x} + multiset(Consume(xs[1..], pool).kept);
        UnmatchedCounts(multiset(xs[1..]), multiset(pool), x);
    }
  }

  /** One step of ConsumeCounts where `x` finds a partner in the pool. */
  lemma MatchedCounts<T>(rest: multiset<T>, pool: multiset<T>, x: T)
    requires x in pool
    ensures rest - (pool - multiset{x}) == (rest + multiset{x}) - pool
    ensures (pool - multiset{x}) - rest == pool - (rest + multiset{x})
  {
    assert forall y :: (rest - (pool - multiset{x}))[y] == ((rest + multiset{x}) - pool)[y];
    assert forall y :: ((pool - multiset{x}) - rest)[y] == (pool - (rest + multiset{x}))[y];
  }

  /** One step of ConsumeCounts where `x` finds no partner in the pool. */
  lemma UnmatchedCounts<T>(rest: multiset<T>, pool: multiset<T>, x: T)
    requires x !in pool
    ensures multiset{x} + (rest - pool) == (rest + multiset{x}) - pool
    ensures pool - rest == pool - (rest + multiset{x})
  {
    assert forall y :: (multiset{x} + (rest - pool))[y] == ((rest + multiset{x}) - pool)[y];
    assert forall y :: (pool - rest)[y] == (pool - (rest + multiset{x}))[y];
  }

  /**
   * Which elements are kept depends only on how many copies of each element
   * of `xs` the pool holds, not on the pool's order or on entries that match
   * nothing in `xs`.
   */
  lemma {:induction false} KeptDependsOnRelevantCounts<T>(xs: seq<T>, p: seq<T>, q: seq<T>)
    requires forall y :: y in xs ==> multiset(p)[y] == multiset(q)[y]
    ensures Consume(xs, p).kept == Consume(xs, q).kept
    decreases |xs|
  {
    if |xs| > 0 {
      var x := xs[0];
      assert x in xs;
      assert forall y :: y in xs[1..] ==> y in xs;
      match Position(p, x)
      case Some(i) =>
        assert x in multiset(q);
        var j := Position(q, x).value;
        KeptDependsOnRelevantCounts(xs[1..], RemoveAt(p, i), RemoveAt(q, j));
      case None =>
        assert x !in multiset(q);
        KeptDependsOnRelevantCounts(xs[1..], p, q);
    }
  }

  /** A subsequence as long as the whole sequence is the sequence itself. */
  lemma {:induction false} SubsequenceSameLength<T>(a: seq<T>, b: seq<T>)
    requires IsSubsequence(a, b) && |a| == |b|
    ensures a == b
    decreases |b|
  {
    if |b| > 0 {
      if a[0] != b[0] {
        SubsequenceLength(a, b[1..]);
      } else {
        SubsequenceSameLength(a[1..], b[1..]);
        assert a == [a[0]] + a[1..] && b == [b[0]] + b[1..];
      }
    }
  }

  lemma {:induction false} SubsequenceLength<T>(a: seq<T>, b: seq<T>)
    requires IsSubsequence(a, b)
    ensures |a| <= |b|
    decreases |b|
  {
    if |a| > 0 {
      if a[0] == b[0] {
        SubsequenceLength(a[1..], b[1..]);
      } else {
        SubsequenceLength(a, b[1..]);
      }
    }
  }
}
