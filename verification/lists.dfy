/**
 * The two list patches the client applies to its local copies of remote
 * collections: `array.filter` with a predicate, and `array.map` that rewrites
 * only the selected elements.
 */
module Lists {

  /** `s.filter(x => !drop(x))`: the elements not dropped, in their order. */
  function RemoveWhere<T>(s: seq<T>, drop: T -> bool): (r: seq<T>)
    ensures |r| <= |s|
    ensures forall i :: 0 <= i < |r| ==> r[i] in s && !drop(r[i])
    ensures forall i :: 0 <= i < |s| && !drop(s[i]) ==> s[i] in r
    decreases |s|
  {
    if s == [] then []
    else if drop(s[0]) then RemoveWhere(s[1..], drop)
    else [s[0]] + RemoveWhere(s[1..], drop)
  }

  /** Filtering distributes over concatenation, so it keeps relative order. */
  lemma {:induction false} RemoveWhereAppend<T>(a: seq<T>, b: seq<T>, drop: T -> bool)
    ensures RemoveWhere(a + b, drop) == RemoveWhere(a, drop) + RemoveWhere(b, drop)
    decreases |a|
  {
    if a == [] {
      assert a + b == b;
    } else {
      assert (a + b)[0] == a[0];
      assert (a + b)[1..] == a[1..] + b;
      RemoveWhereAppend(a[1..], b, drop);
    }
  }

  /** A filter that drops nothing is the identity. */
  lemma {:induction false} RemoveWhereNone<T>(s: seq<T>, drop: T -> bool)
    requires forall i :: 0 <= i < |s| ==> !drop(s[i])
    ensures RemoveWhere(s, drop) == s
    decreases |s|
  {
    if s != [] {
      RemoveWhereNone(s[1..], drop);
    }
  }

  /** Dropping the only selected element at index k removes exactly that slot. */
  lemma {:induction false} RemoveWhereUnique<T>(s: seq<T>, drop: T -> bool, k: int)
    requires 0 <= k < |s| && drop(s[k])
    requires forall i :: 0 <= i < |s| && i != k ==> !drop(s[i])
    ensures RemoveWhere(s, drop) == s[..k] + s[k + 1..]
  {
    var pre, post := s[..k], s[k + 1..];
    assert s == pre + ([s[k]] + post);
    RemoveWhereAppend(pre, [s[k]] + post, drop);
    RemoveWhereAppend([s[k]], post, drop);
    assert RemoveWhere([s[k]], drop) == [] by {
      assert [s[k]][1..] == [];
    }
    assert forall i :: 0 <= i < |pre| ==> !drop(pre[i]) by {
      forall i | 0 <= i < |pre| ensures !drop(pre[i]) {
        assert pre[i] == s[i];
      }
    }
    assert forall i :: 0 <= i < |post| ==> !drop(post[i]) by {
      forall i | 0 <= i < |post| ensures !drop(post[i]) {
        assert post[i] == s[k + 1 + i];
      }
    }
    RemoveWhereNone(pre, drop);
    RemoveWhereNone(post, drop);
  }

  /** `s.map(x => pick(x) ? f(x) : x)`: same length, only picked slots rewritten. */
  function MapWhere<T>(s: seq<T>, pick: T -> bool, f: T -> T): (r: seq<T>)
    ensures |r| == |s|
    ensures forall i :: 0 <= i < |s| && pick(s[i]) ==> r[i] == f(s[i])
    ensures forall i :: 0 <= i < |s| && !pick(s[i]) ==> r[i] == s[i]
  {
    seq(|s|, i requires 0 <= i < |s| => if pick(s[i]) then f(s[i]) else s[i])
  }

  /** Filtering after a selective map that rewrites only dropped elements, and keeps
      them dropped, is the same as filtering the original. */
  lemma {:induction false} RemoveWhereAfterMapWhere<T>(s: seq<T>, drop: T -> bool, f: T -> T)
    requires forall i :: 0 <= i < |s| && drop(s[i]) ==> drop(f(s[i]))
    ensures RemoveWhere(MapWhere(s, drop, f), drop) == RemoveWhere(s, drop)
    decreases |s|
  {
    if s != [] {
      var m := MapWhere(s, drop, f);
      assert m[1..] == MapWhere(s[1..], drop, f);
      assert drop(m[0]) == drop(s[0]);
      RemoveWhereAfterMapWhere(s[1..], drop, f);
    }
  }

  /** `s.reduce((acc, x) => acc + f(x), 0)`: the sum of `f` over `s`, left to right. */
  function SumBy<T>(s: seq<T>, f: T -> int): int
    decreases |s|
  {
    if s == [] then 0 else SumBy(s[..|s| - 1], f) + f(s[|s| - 1])
  }

  /** The sum over a concatenation is the sum of the sums. */
  lemma {:induction false} SumByAppend<T>(a: seq<T>, b: seq<T>, f: T -> int)
    ensures SumBy(a + b, f) == SumBy(a, f) + SumBy(b, f)
    decreases |b|
  {
    if b == [] {
      assert a + b == a;
    } else {
      var b' := b[..|b| - 1];
      assert (a + b)[..|a + b| - 1] == a + b';
      SumByAppend(a, b', f);
    }
  }

  /** An element contributes to the sum once, wherever it sits. */
  lemma SumBySplit<T>(pre: seq<T>, x: T, post: seq<T>, f: T -> int)
    ensures SumBy(pre + [x] + post, f) == SumBy(pre, f) + f(x) + SumBy(post, f)
  {
    SumByAppend(pre + [x], post, f);
    SumByAppend(pre, [x], f);
    assert [x][..0] == [];
  }

  /** Replacing the element at k changes the sum by the difference of the two terms. */
  lemma SumByReplaceAt<T>(s: seq<T>, k: int, y: T, f: T -> int)
    requires 0 <= k < |s|
    ensures SumBy(s[..k] + [y] + s[k + 1..], f) == SumBy(s, f) - f(s[k]) + f(y)
  {
    assert s == s[..k] + [s[k]] + s[k + 1..];
    SumBySplit(s[..k], s[k], s[k + 1..], f);
    SumBySplit(s[..k], y, s[k + 1..], f);
  }

  /** A sum of non-negative terms is non-negative. */
  lemma {:induction false} SumByNonNegative<T>(s: seq<T>, f: T -> int)
    ensures (forall i :: 0 <= i < |s| ==> f(s[i]) >= 0) ==> SumBy(s, f) >= 0
    decreases |s|
  {
    if s != [] && forall i :: 0 <= i < |s| ==> f(s[i]) >= 0 {
      var s' := s[..|s| - 1];
      assert forall i :: 0 <= i < |s'| ==> s'[i] == s[i];
      SumByNonNegative(s', f);
    }
  }

  /** `s.flatMap((x, index) => f(x, index))` with indices counted from `start`. */
  function FlatMapFrom<A, B>(s: seq<A>, start: nat, f: (A, nat) -> seq<B>): seq<B>
    decreases |s|
  {
    if s == [] then [] else f(s[0], start) + FlatMapFrom(s[1..], start + 1, f)
  }

  /** Element j of block k lands right after the blocks before it. */
  lemma {:induction false} FlatMapFromAt<A, B>(s: seq<A>, start: nat, f: (A, nat) -> seq<B>, k: nat, j: nat)
    requires k < |s| && j < |f(s[k], start + k)|
    ensures |FlatMapFrom(s[..k], start, f)| + j < |FlatMapFrom(s, start, f)|
    ensures FlatMapFrom(s, start, f)[|FlatMapFrom(s[..k], start, f)| + j] == f(s[k], start + k)[j]
    decreases k
  {
    var head := f(s[0], start);
    var rest := FlatMapFrom(s[1..], start + 1, f);
    assert FlatMapFrom(s, start, f) == head + rest;
    if k == 0 {
      assert s[..0] == [];
    } else {
      var pre := s[..k];
      assert pre[0] == s[0] && pre[1..] == s[1..][..k - 1];
      assert FlatMapFrom(pre, start, f) == head + FlatMapFrom(s[1..][..k - 1], start + 1, f);
      FlatMapFromAt(s[1..], start + 1, f, k - 1, j);
      assert s[1..][k - 1] == s[k];
      assert start + 1 + (k - 1) == start + k;
    }
  }
}
