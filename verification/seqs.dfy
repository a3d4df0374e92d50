/** The array operations the records screen is built from, on immutable
    sequences: `filter`, `find`, removal by position and `slice`. */
module Seqs {
  import opened Options

  // ---------------------------------------------------------------------------
  // Order-preserving subsequences
  // ---------------------------------------------------------------------------

  /** `r` can be obtained from `s` by deleting elements, without reordering. */
  predicate IsSubsequence<T(==)>(r: seq<T>, s: seq<T>)
    decreases |s|
  {
    if r == [] then true
    else if s == [] then false
    else (r[0] == s[0] && IsSubsequence(r[1..], s[1..])) || IsSubsequence(r, s[1..])
  }

  lemma {:induction false} SubsequenceReflexive<T>(s: seq<T>)
    ensures IsSubsequence(s, s)
    decreases |s|
  {
    if s != [] {
      SubsequenceReflexive(s[1..]);
    }
  }

  // ---------------------------------------------------------------------------
  // filter
  // ---------------------------------------------------------------------------

  /** `s.filter(p)`: the elements satisfying `p`, in their original order. */
  function Filter<T(==)>(s: seq<T>, p: T -> bool): (r: seq<T>)
    ensures |r| <= |s|
    ensures forall i :: 0 <= i < |r| ==> p(r[i]) && r[i] in s
    ensures forall i :: 0 <= i < |s| && p(s[i]) ==> s[i] in r
    ensures IsSubsequence(r, s)
    decreases |s|
  {
    if s == [] then []
    else
      var rest := Filter(s[1..], p);
      if p(s[0]) then [s[0]] + rest else rest
  }

  /** A filter keeps every passing element as often as it occurs, and
      nothing else. */
  lemma {:induction false} FilterMultiset<T(!new)>(s: seq<T>, p: T -> bool)
    ensures forall x :: multiset(Filter(s, p))[x] == if p(x) then multiset(s)[x] else 0
    decreases |s|
  {
    if s != [] {
      FilterMultiset(s[1..], p);
      assert s == [s[0]] + s[1..];
    }
  }

  /** Filtering distributes over concatenation. */
  lemma {:induction false} FilterConcat<T>(a: seq<T>, b: seq<T>, p: T -> bool)
    ensures Filter(a + b, p) == Filter(a, p) + Filter(b, p)
    decreases |a|
  {
    if a == [] {
      assert a + b == b;
    } else {
      assert (a + b)[0] == a[0];
      assert (a + b)[1..] == a[1..] + b;
      FilterConcat(a[1..], b, p);
    }
  }

  /** A filter every element passes keeps the whole sequence. */
  lemma {:induction false} FilterAll<T>(s: seq<T>, p: T -> bool)
    requires forall i :: 0 <= i < |s| ==> p(s[i])
    ensures Filter(s, p) == s
    decreases |s|
  {
    if s != [] {
      FilterAll(s[1..], p);
    }
  }

  /** A filter no element passes keeps nothing. */
  lemma {:induction false} FilterNone<T>(s: seq<T>, p: T -> bool)
    requires forall i :: 0 <= i < |s| ==> !p(s[i])
    ensures Filter(s, p) == []
    decreases |s|
  {
    if s != [] {
      FilterNone(s[1..], p);
    }
  }

  /** Two filters in a row are one filter by the conjunction, so the order of
      two filtering stages does not change the result. */
  lemma {:induction false} FilterFilter<T>(s: seq<T>, p: T -> bool, q: T -> bool)
    ensures Filter(Filter(s, p), q) == Filter(s, x => p(x) && q(x))
    ensures Filter(Filter(s, p), q) == Filter(Filter(s, q), p)
    decreases |s|
  {
    if s != [] {
      FilterFilter(s[1..], p, q);
    }
  }

  /** Two filters in a row are one filter by a test that holds exactly when
      both do. */
  lemma {:induction false} FilterBoth<T>(s: seq<T>, p: T -> bool, q: T -> bool, both: T -> bool)
    requires forall i :: 0 <= i < |s| ==> both(s[i]) == (p(s[i]) && q(s[i]))
    ensures Filter(Filter(s, p), q) == Filter(s, both)
    decreases |s|
  {
    if s != [] {
      FilterBoth(s[1..], p, q, both);
    }
  }

  // ---------------------------------------------------------------------------
  // find
  // ---------------------------------------------------------------------------

  /** The index `s.find(p)` would stop at: the first element satisfying `p`. */
  function FindFirst<T>(s: seq<T>, p: T -> bool): (r: Option<nat>)
    ensures r.Some? ==> r.value < |s| && p(s[r.value])
    ensures r.Some? ==> forall j :: 0 <= j < r.value ==> !p(s[j])
    ensures r.None? <==> forall j :: 0 <= j < |s| ==> !p(s[j])
    decreases |s|
  {
    if s == [] then None
    else if p(s[0]) then Some(0)
    else
      match FindFirst(s[1..], p)
      case None => None
      case Some(i) => Some(i + 1)
  }

  // ---------------------------------------------------------------------------
  // Removal by position
  // ---------------------------------------------------------------------------

  /** `s.filter((_, j) => j !== i)`: drops the element at position `i`; a
      position outside the sequence drops nothing. */
  function RemoveIndex<T>(s: seq<T>, i: int): (r: seq<T>)
    ensures 0 <= i < |s| ==> |r| == |s| - 1
    ensures 0 <= i < |s| ==> forall j :: 0 <= j < i ==> r[j] == s[j]
    ensures 0 <= i < |s| ==> forall j :: i <= j < |r| ==> r[j] == s[j + 1]
    ensures !(0 <= i < |s|) ==> r == s
  {
    if 0 <= i < |s| then s[..i] + s[i + 1..] else s
  }

  /** Removing the element just appended gives back the original sequence. */
  lemma RemoveLastAppended<T>(s: seq<T>, x: T)
    ensures RemoveIndex(s + [x], |s|) == s
  {
  }

  /** Removing a position loses exactly the element that was there. */
  lemma RemoveIndexMultiset<T>(s: seq<T>, i: int)
    requires 0 <= i < |s|
    ensures multiset(RemoveIndex(s, i)) + multiset{s[i]} == multiset(s)
  {
    assert s == s[..i] + [s[i]] + s[i + 1..];
  }

  /** Removing a position keeps the other elements in their order. */
  lemma {:induction false} RemoveIndexSubsequence<T>(s: seq<T>, i: int)
    requires 0 <= i < |s|
    ensures IsSubsequence(RemoveIndex(s, i), s)
    decreases |s|
  {
    if i == 0 {
      assert RemoveIndex(s, i) == s[1..];
      SubsequenceReflexive(s[1..]);
      SubsequenceSkipHead(s[1..], s);
    } else {
      RemoveIndexSubsequence(s[1..], i - 1);
      assert RemoveIndex(s, i) == [s[0]] + RemoveIndex(s[1..], i - 1);
    }
  }

  /** A subsequence of the tail is a subsequence of the whole. */
  lemma SubsequenceSkipHead<T>(r: seq<T>, s: seq<T>)
    requires s != [] && IsSubsequence(r, s[1..])
    ensures IsSubsequence(r, s)
  {
  }

  // ---------------------------------------------------------------------------
  // slice
  // ---------------------------------------------------------------------------

  /** How `Array.prototype.slice` turns a relative index into a position:
      a negative index counts back from the end, and the result is clamped
      into `[0, len]`. */
  function RelativeIndex(rel: int, len: nat): (r: nat)
    ensures r <= len
    ensures 0 <= rel ==> r == if rel < len then rel else len
    ensures rel < 0 ==> r == if len + rel < 0 then 0 else len + rel
  {
    if rel < 0 then (if len + rel < 0 then 0 else len + rel)
    else if rel < len then rel
    else len
  }

  /** `n` capped at `len`. */
  function ClampTo(n: nat, len: nat): nat {
    if n < len then n else len
  }

  /** How far `to` lies beyond `from`, or 0 when it does not. */
  function Gap(from: int, to: int): nat {
    if from < to then to - from else 0
  }

  /** `s.slice(start, end)`: the window between the two positions the
      relative indices denote, or nothing when they cross. */
  function Slice<T>(s: seq<T>, start: int, end: int): (r: seq<T>)
    ensures |r| <= |s|
    ensures start <= end ==> |r| <= end - start
    ensures |r| == Gap(RelativeIndex(start, |s|), RelativeIndex(end, |s|))
    ensures forall k :: 0 <= k < |r| ==> r[k] == s[RelativeIndex(start, |s|) + k]
    ensures 0 <= start <= end ==> |r| == ClampTo(end, |s|) - ClampTo(start, |s|)
    ensures 0 <= start ==>
      forall k :: 0 <= k < |r| ==> start + k < |s| && r[k] == s[start + k]
  {
    var from := RelativeIndex(start, |s|);
    var to := RelativeIndex(end, |s|);
    if from < to then s[from..to] else []
  }

  /** Two adjacent windows make up the window spanning both. */
  lemma SliceAdjacent<T>(s: seq<T>, a: nat, b: nat, c: nat)
    requires a <= b <= c
    ensures Slice(s, a, b) + Slice(s, b, c) == Slice(s, a, c)
  {
    var x, y, z := ClampTo(a, |s|), ClampTo(b, |s|), ClampTo(c, |s|);
    assert Slice(s, a, b) == s[x..y] && Slice(s, b, c) == s[y..z];
    assert s[x..z] == s[x..y] + s[y..z];
  }
}
