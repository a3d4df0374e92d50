/** The table's sort: `Array.prototype.sort` with a comparator that orders two
    elements by one string key, ascending or descending. `Array.prototype.sort`
    is stable (ECMA-262, since the 2019 edition; section 23.1.3.30 of the 2023
    edition), so elements with equal keys keep their input order. The sort is
    modelled as an insertion sort, which is stable by construction, and the
    three properties that make a stable sort unique are proved about it:
    permutation, order, stability. */
module Sorting {
  import opened Text
  import opened Seqs

  datatype Direction = Asc | Desc

  /** The comparator: negative when `a` goes first, positive when `b` does,
      zero for equal keys. Any direction other than ascending sorts
      descending. */
  function Compare(ka: string, kb: string, dir: Direction): (r: int)
    ensures r == 0 <==> ka == kb
    ensures r == -1 || r == 0 || r == 1
    ensures dir == Asc ==> (r < 0 <==> Less(ka, kb))
    ensures dir == Desc ==> (r < 0 <==> Less(kb, ka))
  {
    LessIrreflexive(ka);
    LessTrichotomy(ka, kb);
    LessAsymmetric(ka, kb);
    if Less(ka, kb) then (if dir == Asc then -1 else 1)
    else if Less(kb, ka) then (if dir == Asc then 1 else -1)
    else 0
  }

  /** `a` must come before `b` in the sorted output. */
  predicate Precedes<T>(a: T, b: T, key: T -> string, dir: Direction) {
    Compare(key(a), key(b), dir) < 0
  }

  lemma PrecedesAsymmetric<T>(a: T, b: T, key: T -> string, dir: Direction)
    ensures Precedes(a, b, key, dir) ==> !Precedes(b, a, key, dir)
  {
    LessAsymmetric(key(a), key(b));
  }

  /** Neither of two elements precedes the other exactly when their keys
      are equal. */
  lemma PrecedesTotal<T>(a: T, b: T, key: T -> string, dir: Direction)
    ensures !Precedes(a, b, key, dir) && !Precedes(b, a, key, dir) <==> key(a) == key(b)
  {
    LessTrichotomy(key(a), key(b));
    LessIrreflexive(key(a));
  }

  /** "Does not come after" is transitive. */
  lemma NotPrecedesTransitive<T>(a: T, b: T, c: T, key: T -> string, dir: Direction)
    requires !Precedes(b, a, key, dir) && !Precedes(c, b, key, dir)
    ensures !Precedes(c, a, key, dir)
  {
    var ka, kb, kc := key(a), key(b), key(c);
    LessTrichotomy(ka, kb);
    LessTrichotomy(kb, kc);
    LessAsymmetric(ka, kc);
    if ka != kb && kb != kc {
      if dir == Asc { LessTransitive(ka, kb, kc); } else { LessTransitive(kc, kb, ka); }
    }
  }

  /** No element is followed by one that should precede it. */
  ghost predicate Sorted<T>(t: seq<T>, key: T -> string, dir: Direction) {
    forall i :: 0 < i < |t| ==> !Precedes(t[i], t[i - 1], key, dir)
  }

  /** The elements of `s` whose key is `k`, in order. */
  function WithKey<T(==)>(s: seq<T>, key: T -> string, k: string): (r: seq<T>)
    ensures forall i :: 0 <= i < |r| ==> key(r[i]) == k
  {
    Filter(s, x => key(x) == k)
  }

  /** Places `x` in front of the first element of the sorted `t` that it does
      not have to follow, i.e. before every element with an equal key. */
  function InsertFront<T>(x: T, t: seq<T>, key: T -> string, dir: Direction): (r: seq<T>)
    requires Sorted(t, key, dir)
    ensures |r| == |t| + 1
    ensures multiset(r) == multiset(t) + multiset{x}
    ensures Sorted(r, key, dir)
    ensures r[0] == x || (t != [] && r[0] == t[0])
    decreases |t|
  {
    if t == [] || !Precedes(t[0], x, key, dir) then
      SortedCons(x, t, key, dir);
      [x] + t
    else
      PrecedesAsymmetric(t[0], x, key, dir);
      SortedTail(t, key, dir);
      var rest := InsertFront(x, t[1..], key, dir);
      SortedCons(t[0], rest, key, dir);
      assert t == [t[0]] + t[1..];
      [t[0]] + rest
  }

  /** A sorted sequence stays sorted when an element that does not have to
      follow its head is put in front. */
  lemma SortedCons<T>(h: T, t: seq<T>, key: T -> string, dir: Direction)
    requires Sorted(t, key, dir)
    requires t == [] || !Precedes(t[0], h, key, dir)
    ensures Sorted([h] + t, key, dir)
  {
    var r := [h] + t;
    forall i | 0 < i < |r|
      ensures !Precedes(r[i], r[i - 1], key, dir)
    {
      if i > 1 {
        assert r[i] == t[i - 1] && r[i - 1] == t[i - 2];
      }
    }
  }

  lemma SortedTail<T>(t: seq<T>, key: T -> string, dir: Direction)
    requires Sorted(t, key, dir) && t != []
    ensures Sorted(t[1..], key, dir)
  {
    forall i | 0 < i < |t| - 1
      ensures !Precedes(t[1..][i], t[1..][i - 1], key, dir)
    {
      assert t[1..][i] == t[i + 1] && t[1..][i - 1] == t[i];
    }
  }

  /** The stable sort of `s`: each element, last to first, is inserted into
      the already sorted remainder. */
  function SortBy<T>(s: seq<T>, key: T -> string, dir: Direction): (r: seq<T>)
    ensures |r| == |s|
    ensures multiset(r) == multiset(s)
    ensures Sorted(r, key, dir)
    decreases |s|
  {
    if s == [] then []
    else
      assert s == [s[0]] + s[1..];
      InsertFront(s[0], SortBy(s[1..], key, dir), key, dir)
  }

  /** Inserting `x` adds it at the head of the elements sharing its key and
      leaves every other key's elements as they were. */
  lemma {:induction false} InsertFrontWithKey<T>(x: T, t: seq<T>, key: T -> string, dir: Direction, k: string)
    requires Sorted(t, key, dir)
    ensures WithKey(InsertFront(x, t, key, dir), key, k) == (if key(x) == k then [x] else []) + WithKey(t, key, k)
    decreases |t|
  {
    if t == [] || !Precedes(t[0], x, key, dir) {
      assert InsertFront(x, t, key, dir) == [x] + t;
      assert ([x] + t)[1..] == t;
    } else {
      var rest := InsertFront(x, t[1..], key, dir);
      assert InsertFront(x, t, key, dir) == [t[0]] + rest;
      InsertFrontWithKey(x, t[1..], key, dir, k);
      // t[0] must precede x, so their keys differ.
      PrecedesTotal(t[0], x, key, dir);
      assert ([t[0]] + rest)[1..] == rest;
    }
  }

  /** Stability: for every key value, the elements carrying it appear in the
      output in exactly their input order. */
  lemma {:induction false} SortStable<T>(s: seq<T>, key: T -> string, dir: Direction, k: string)
    ensures WithKey(SortBy(s, key, dir), key, k) == WithKey(s, key, k)
    decreases |s|
  {
    if s != [] {
      SortStable(s[1..], key, dir, k);
      InsertFrontWithKey(s[0], SortBy(s[1..], key, dir), key, dir, k);
    }
  }

  /** Order: no element of the output is followed by one that should precede
      it, however far apart they are. */
  lemma {:induction false} SortedPairwise<T>(t: seq<T>, key: T -> string, dir: Direction)
    requires Sorted(t, key, dir)
    ensures forall i, j :: 0 <= i < j < |t| ==> !Precedes(t[j], t[i], key, dir)
  {
    forall i, j | 0 <= i < j < |t|
      ensures !Precedes(t[j], t[i], key, dir)
    {
      var m := i + 1;
      while m < j
        invariant i < m <= j
        invariant !Precedes(t[m], t[i], key, dir)
      {
        NotPrecedesTransitive(t[i], t[m], t[m + 1], key, dir);
        m := m + 1;
      }
    }
  }

  /** Direction: neighbours whose keys differ are in ascending key order for
      `Asc` and in descending key order for `Desc`. */
  lemma SortDirection<T>(s: seq<T>, key: T -> string, dir: Direction)
    ensures var r := SortBy(s, key, dir);
      forall i :: 0 <= i < |r| - 1 && key(r[i]) != key(r[i + 1]) ==>
        (dir == Asc ==> Less(key(r[i]), key(r[i + 1]))) &&
        (dir == Desc ==> Less(key(r[i + 1]), key(r[i])))
  {
    var r := SortBy(s, key, dir);
    forall i | 0 <= i < |r| - 1 && key(r[i]) != key(r[i + 1])
      ensures dir == Asc ==> Less(key(r[i]), key(r[i + 1]))
      ensures dir == Desc ==> Less(key(r[i + 1]), key(r[i]))
    {
      assert !Precedes(r[i + 1], r[i], key, dir);
      PrecedesTotal(r[i], r[i + 1], key, dir);
    }
  }

  /** Two sorted sequences that agree, key by key, on the order of the
      elements carrying that key are the same sequence. */
  lemma {:induction false} SortedStableUnique<T>(a: seq<T>, b: seq<T>, key: T -> string, dir: Direction)
    requires Sorted(a, key, dir) && Sorted(b, key, dir)
    requires forall k :: WithKey(a, key, k) == WithKey(b, key, k)
    ensures a == b
    decreases |a| + |b|
  {
    if a == [] || b == [] {
      WithKeyHead(a, key);
      WithKeyHead(b, key);
    } else {
      SortedHeadsEqual(a, b, key, dir);
      TailsAgree(a, b, key);
      SortedStableUnique(a[1..], b[1..], key, dir);
      assert a == [a[0]] + a[1..] && b == [b[0]] + b[1..];
    }
  }

  /** Two non-empty sorted sequences holding the same elements per key start
      with the same element. */
  lemma SortedHeadsEqual<T>(a: seq<T>, b: seq<T>, key: T -> string, dir: Direction)
    requires a != [] && b != []
    requires Sorted(a, key, dir) && Sorted(b, key, dir)
    requires forall k :: WithKey(a, key, k) == WithKey(b, key, k)
    ensures a[0] == b[0]
  {
    SortedPairwise(a, key, dir);
    SortedPairwise(b, key, dir);
    HeadKeyMatches(a, b, key, dir);
    HeadKeyMatches(b, a, key, dir);
    PrecedesTotal(a[0], b[0], key, dir);
    var k0 := key(a[0]);
    assert WithKey(a, key, k0) == [a[0]] + WithKey(a[1..], key, k0);
    assert WithKey(b, key, k0) == [b[0]] + WithKey(b[1..], key, k0);
  }

  /** Removing a shared first element keeps two sequences equal per key. */
  lemma TailsAgree<T>(a: seq<T>, b: seq<T>, key: T -> string)
    requires a != [] && b != [] && a[0] == b[0]
    requires forall k :: WithKey(a, key, k) == WithKey(b, key, k)
    ensures forall k :: WithKey(a[1..], key, k) == WithKey(b[1..], key, k)
  {
    forall k ensures WithKey(a[1..], key, k) == WithKey(b[1..], key, k) {
      assert WithKey(a, key, k) == (if key(a[0]) == k then [a[0]] else []) + WithKey(a[1..], key, k);
      assert WithKey(b, key, k) == (if key(b[0]) == k then [b[0]] else []) + WithKey(b[1..], key, k);
    }
  }

  /** A non-empty sequence has elements under its head's key; an empty one
      has none under any key. */
  lemma WithKeyHead<T>(s: seq<T>, key: T -> string)
    ensures s != [] ==> WithKey(s, key, key(s[0])) != []
    ensures s == [] ==> forall k :: WithKey(s, key, k) == []
  {
  }

  /** The head of `a` cannot strictly precede the head of `b` when both are
      sorted and hold the same elements per key. */
  lemma HeadKeyMatches<T>(a: seq<T>, b: seq<T>, key: T -> string, dir: Direction)
    requires a != [] && b != []
    requires forall i, j :: 0 <= i < j < |b| ==> !Precedes(b[j], b[i], key, dir)
    requires WithKey(a, key, key(a[0])) == WithKey(b, key, key(a[0]))
    ensures !Precedes(a[0], b[0], key, dir)
  {
    assert a[0] in WithKey(a, key, key(a[0]));
    var w := WithKey(b, key, key(a[0]));
    var m :| 0 <= m < |w| && w[m] == a[0];
    assert w[m] in b;
    var j :| 0 <= j < |b| && b[j] == a[0];
    if j == 0 {
      PrecedesTotal(a[0], a[0], key, dir);
    }
  }

  /** `SortBy` is the stable sort: any output that is a sorted, stable
      rearrangement of the input is exactly `SortBy`'s. */
  lemma SortByIsTheStableSort<T>(s: seq<T>, r: seq<T>, key: T -> string, dir: Direction)
    requires Sorted(r, key, dir)
    requires forall k :: WithKey(r, key, k) == WithKey(s, key, k)
    ensures r == SortBy(s, key, dir)
  {
    forall k ensures WithKey(r, key, k) == WithKey(SortBy(s, key, dir), key, k) {
      SortStable(s, key, dir, k);
    }
    SortedStableUnique(r, SortBy(s, key, dir), key, dir);
  }

  /** An input that is already in order is returned unchanged. */
  lemma {:induction false} SortSortedIdentity<T>(s: seq<T>, key: T -> string, dir: Direction)
    requires Sorted(s, key, dir)
    ensures SortBy(s, key, dir) == s
    decreases |s|
  {
    if s != [] {
      assert Sorted(s[1..], key, dir);
      SortSortedIdentity(s[1..], key, dir);
      if |s| > 1 {
        assert !Precedes(s[1], s[0], key, dir);
      }
      assert s == [s[0]] + s[1..];
    }
  }

  /** Sorting twice is sorting once. */
  lemma SortIdempotent<T>(s: seq<T>, key: T -> string, dir: Direction)
    ensures SortBy(SortBy(s, key, dir), key, dir) == SortBy(s, key, dir)
  {
    SortSortedIdentity(SortBy(s, key, dir), key, dir);
  }
}
