/** Python built-ins the modelled code relies on: the exceptions it can raise,
    and the list operations it calls (sum, sorted, set, list.remove, lexicographic
    comparison of lists). */
module PyBase {

  /** The exceptions the modelled code can raise. */
  datatype Error =
    | ValueError          // int() of a malformed literal, or an explicit raise
    | IndexError          // indexing outside a list, pop from an empty list
    | ZeroDivisionError   // % by zero
    | StopIteration       // next() on an exhausted iterator
    | UnboundLocalError   // reading a local that the path taken never assigned
    | KeyError            // reading a missing dictionary key

  /** A computation that returns a value or raises. */
  datatype Result<T> = Ok(value: T) | Err(error: Error)

  /** Python's None beside a value. */
  datatype Option<T> = None | Some(value: T)

  function Abs(x: int): (r: nat)
    ensures r == x || r == -x
  {
    if x < 0 then -x else x
  }

  /** Python's sum(), accumulated left to right. */
  function Sum(s: seq<int>): int
  {
    if s == [] then 0 else Sum(s[..|s| - 1]) + s[|s| - 1]
  }

  lemma SumSnoc(s: seq<int>, x: int)
    ensures Sum(s + [x]) == Sum(s) + x
  {
    assert (s + [x])[..|s|] == s;
  }

  lemma SumConcat(s: seq<int>, t: seq<int>)
    ensures Sum(s + t) == Sum(s) + Sum(t)
    decreases |t|
  {
    if t == [] {
      assert s + t == s;
    } else {
      var u := t[..|t| - 1];
      assert s + t == (s + u) + [t[|t| - 1]];
      assert t == u + [t[|t| - 1]];
      SumSnoc(s + u, t[|t| - 1]);
      SumSnoc(u, t[|t| - 1]);
      SumConcat(s, u);
    }
  }

  lemma SumPrefix(s: seq<int>, i: nat)
    requires i < |s|
    ensures Sum(s[..i + 1]) == Sum(s[..i]) + s[i]
  {
    assert s[..i + 1] == s[..i] + [s[i]];
    SumSnoc(s[..i], s[i]);
  }

  lemma SumNonNegative(s: seq<int>)
    requires forall i :: 0 <= i < |s| ==> s[i] >= 0
    ensures Sum(s) >= 0
  {
    if s != [] {
      SumNonNegative(s[..|s| - 1]);
    }
  }

  lemma {:induction false} SumUpdate(v: seq<int>, j: int, x: int)
    requires 0 <= j < |v|
    ensures Sum(v[j := x]) == Sum(v) - v[j] + x
  {
    var n := |v| - 1;
    if j == n {
      assert v[j := x][..n] == v[..n];
    } else {
      assert v[j := x][..n] == v[..n][j := x];
      SumUpdate(v[..n], j, x);
    }
  }

  /** With every element at least 1 the sum is at least the length. */
  lemma {:induction false} SumAtLeastLength(s: seq<int>)
    requires forall i :: 0 <= i < |s| ==> s[i] >= 1
    ensures Sum(s) >= |s|
  {
    if s != [] {
      SumAtLeastLength(s[..|s| - 1]);
    }
  }

  /** With non-negative elements no element exceeds the sum. */
  lemma {:induction false} ElementAtMostSum(s: seq<int>, i: int)
    requires forall k :: 0 <= k < |s| ==> s[k] >= 0
    requires 0 <= i < |s|
    ensures s[i] <= Sum(s)
  {
    var n := |s| - 1;
    if i == n {
      SumNonNegative(s[..n]);
    } else {
      ElementAtMostSum(s[..n], i);
    }
  }

  /** The set of elements of a list: Python's set(xs). */
  function Elems<T>(s: seq<T>): set<T>
  {
    set x | x in s
  }

  predicate StrictlyIncreasing(s: seq<int>)
  {
    forall i, j :: 0 <= i < j < |s| ==> s[i] < s[j]
  }

  predicate NonDecreasing(s: seq<int>)
  {
    forall i, j :: 0 <= i < j < |s| ==> s[i] <= s[j]
  }

  predicate NoDuplicates<T(==)>(s: seq<T>)
  {
    forall i, j :: 0 <= i < j < |s| ==> s[i] != s[j]
  }

  /** Two strictly increasing lists with the same elements are the same list. */
  lemma {:induction false} StrictlyIncreasingUnique(a: seq<int>, b: seq<int>)
    requires StrictlyIncreasing(a) && StrictlyIncreasing(b)
    requires Elems(a) == Elems(b)
    ensures a == b
    decreases |a|
  {
    EmptyElems(a);
    EmptyElems(b);
    if a != [] && b != [] {
      SameLeast(a, b);
      SameRest(a, b);
      StrictlyIncreasingUnique(a[1..], b[1..]);
      assert a == [a[0]] + a[1..] && b == [b[0]] + b[1..];
    }
  }

  /** Only the empty list has no elements. */
  lemma EmptyElems<T>(s: seq<T>)
    ensures Elems(s) == {} ==> s == []
  {
    if s != [] {
      assert s[0] in Elems(s);
    }
  }

  /** Strictly increasing lists with the same elements have the same first
      element. */
  lemma SameLeast(a: seq<int>, b: seq<int>)
    requires StrictlyIncreasing(a) && StrictlyIncreasing(b)
    requires Elems(a) == Elems(b) && |a| >= 1 && |b| >= 1
    ensures a[0] == b[0]
  {
    assert a[0] in Elems(b);
    assert b[0] in Elems(a);
  }

  /** ... and the same elements after it. */
  lemma SameRest(a: seq<int>, b: seq<int>)
    requires StrictlyIncreasing(a) && StrictlyIncreasing(b)
    requires Elems(a) == Elems(b) && |a| >= 1 && |b| >= 1 && a[0] == b[0]
    ensures Elems(a[1..]) == Elems(b[1..])
  {
    forall x | x in Elems(a[1..]) ensures x in Elems(b[1..]) {
      assert x in Elems(b) && x > a[0];
    }
    forall x | x in Elems(b[1..]) ensures x in Elems(a[1..]) {
      assert x in Elems(a) && x > b[0];
    }
  }

  /** A strictly increasing list has exactly as many elements as distinct values. */
  lemma {:induction false} StrictlyIncreasingCard(s: seq<int>)
    requires StrictlyIncreasing(s)
    ensures |Elems(s)| == |s|
  {
    if s != [] {
      StrictlyIncreasingCard(s[1..]);
      assert Elems(s) == {s[0]} + Elems(s[1..]);
      assert s[0] !in Elems(s[1..]);
    }
  }

  /** Insertion of x into a sorted list, used to model Python's list.sort(). */
  function Insert(x: int, s: seq<int>): seq<int>
  {
    if s == [] || x <= s[0] then [x] + s else [s[0]] + Insert(x, s[1..])
  }

  lemma {:induction false} InsertSorted(x: int, s: seq<int>)
    requires NonDecreasing(s)
    ensures NonDecreasing(Insert(x, s))
    ensures multiset(Insert(x, s)) == multiset(s) + multiset{x}
    ensures |Insert(x, s)| == |s| + 1
  {
    InsertCount(x, s);
    if s != [] && x > s[0] {
      InsertSorted(x, s[1..]);
      InsertAbove(x, s[1..], s[0]);
      ConsNonDecreasing(s[0], Insert(x, s[1..]));
    }
  }

  /** Insert adds exactly one element, x. */
  lemma {:induction false} InsertCount(x: int, s: seq<int>)
    ensures multiset(Insert(x, s)) == multiset(s) + multiset{x}
    ensures |Insert(x, s)| == |s| + 1
  {
    if s != [] && x > s[0] {
      InsertCount(x, s[1..]);
      assert s == [s[0]] + s[1..];
    }
  }

  /** A lower bound of x and of s bounds Insert(x, s). */
  lemma {:induction false} InsertAbove(x: int, s: seq<int>, lo: int)
    requires lo <= x && forall k :: 0 <= k < |s| ==> lo <= s[k]
    ensures forall k :: 0 <= k < |Insert(x, s)| ==> lo <= Insert(x, s)[k]
  {
    if s != [] && x > s[0] {
      InsertAbove(x, s[1..], lo);
    }
  }

  /** A lower bound of a sorted list can go in front. */
  lemma ConsNonDecreasing(y: int, t: seq<int>)
    requires NonDecreasing(t) && forall k :: 0 <= k < |t| ==> y <= t[k]
    ensures NonDecreasing([y] + t)
  {
    var u := [y] + t;
    forall i, j | 0 <= i < j < |u| ensures u[i] <= u[j] {
      assert u[j] == t[j - 1];
      if i > 0 {
        assert u[i] == t[i - 1];
      }
    }
  }

  /** Python's sorted() on a list of integers. */
  function Sorted(s: seq<int>): (r: seq<int>)
    ensures |r| == |s|
  {
    if s == [] then []
    else
      var t := Sorted(s[1..]);
      InsertCount(s[0], t);
      Insert(s[0], t)
  }

  /** sorted() returns its argument's elements in non-decreasing order. */
  lemma {:induction false} SortedSpec(s: seq<int>)
    ensures NonDecreasing(Sorted(s))
    ensures multiset(Sorted(s)) == multiset(s)
  {
    if s != [] {
      var t := Sorted(s[1..]);
      SortedSpec(s[1..]);
      InsertSorted(s[0], t);
      assert s == [s[0]] + s[1..];
    }
  }

  lemma {:induction false} SumInsert(x: int, s: seq<int>)
    ensures Sum(Insert(x, s)) == x + Sum(s)
  {
    if s == [] || x <= s[0] {
      SumConcat([x], s);
      assert Sum([x]) == x by { assert [x][..0] == []; }
    } else {
      SumInsert(x, s[1..]);
      SumConcat([s[0]], Insert(x, s[1..]));
      SumConcat([s[0]], s[1..]);
      assert [s[0]] + s[1..] == s;
      assert Sum([s[0]]) == s[0] by { assert [s[0]][..0] == []; }
    }
  }

  /** Sorting keeps the sum. */
  lemma {:induction false} SumSorted(s: seq<int>)
    ensures Sum(Sorted(s)) == Sum(s)
  {
    if s != [] {
      SumSorted(s[1..]);
      SumInsert(s[0], Sorted(s[1..]));
      SumConcat([s[0]], s[1..]);
      assert [s[0]] + s[1..] == s;
      assert Sum([s[0]]) == s[0] by { assert [s[0]][..0] == []; }
    }
  }

  /** A sorted list is determined by its multiset of elements. */
  lemma {:induction false} NonDecreasingUnique(a: seq<int>, b: seq<int>)
    requires NonDecreasing(a) && NonDecreasing(b)
    requires multiset(a) == multiset(b)
    ensures a == b
    decreases |a|
  {
    assert |b| == |multiset(b)| == |multiset(a)| == |a|;
    if a != [] {
      SameHead(a, b);
      SameTail(a, b);
      NonDecreasingUnique(a[1..], b[1..]);
      assert a == [a[0]] + a[1..] && b == [b[0]] + b[1..];
    }
  }

  /** Two sorted lists with the same elements start with the same element. */
  lemma SameHead(a: seq<int>, b: seq<int>)
    requires NonDecreasing(a) && NonDecreasing(b)
    requires multiset(a) == multiset(b) && |a| >= 1 && |b| >= 1
    ensures a[0] == b[0]
  {
    assert a[0] in multiset(b) by {
      assert a == [a[0]] + a[1..];
    }
    assert b[0] in multiset(a) by {
      assert b == [b[0]] + b[1..];
    }
    var i :| 0 <= i < |b| && b[i] == a[0];
    var j :| 0 <= j < |a| && a[j] == b[0];
  }

  /** Dropping the same first element from lists with the same elements
      leaves tails with the same elements. */
  lemma SameTail(a: seq<int>, b: seq<int>)
    requires multiset(a) == multiset(b) && |a| >= 1 && |b| >= 1 && a[0] == b[0]
    ensures multiset(a[1..]) == multiset(b[1..])
  {
    assert a == [a[0]] + a[1..] && b == [b[0]] + b[1..];
    assert multiset(a) == multiset{a[0]} + multiset(a[1..]);
    assert multiset(b) == multiset{b[0]} + multiset(b[1..]);
    assert multiset(a[1..]) == multiset(a) - multiset{a[0]};
    assert multiset(b[1..]) == multiset(b) - multiset{b[0]};
  }

  /** sorted(a) == sorted(b) exactly when a and b are permutations of each other. */
  lemma SortedEqIffPermutation(a: seq<int>, b: seq<int>)
    ensures Sorted(a) == Sorted(b) <==> multiset(a) == multiset(b)
  {
    SortedSpec(a);
    SortedSpec(b);
    if multiset(a) == multiset(b) {
      NonDecreasingUnique(Sorted(a), Sorted(b));
    }
  }

  /** Python's list.remove(x) when x occurs: the first occurrence goes. */
  function RemoveFirst<T(==)>(s: seq<T>, x: T): (r: seq<T>)
    ensures x in s ==> |r| == |s| - 1
    ensures x !in s ==> r == s
  {
    if s == [] then []
    else if s[0] == x then s[1..]
    else [s[0]] + RemoveFirst(s[1..], x)
  }

  /** The elements of s that are not in t, in their order in s. */
  function Without(s: seq<int>, t: seq<int>): (r: seq<int>)
    ensures |r| <= |s|
    ensures forall x :: x in r <==> x in s && x !in t
  {
    if s == [] then []
    else if s[0] in t then Without(s[1..], t)
    else [s[0]] + Without(s[1..], t)
  }

  /** Removing a set that contains the first element shortens the list. */
  lemma WithoutShrinks(s: seq<int>, t: seq<int>)
    requires s != [] && s[0] in t
    ensures |Without(s, t)| < |s|
  {
  }

  lemma {:induction false} WithoutSubsequence(s: seq<int>, t: seq<int>)
    requires StrictlyIncreasing(s)
    ensures StrictlyIncreasing(Without(s, t))
  {
    if s != [] {
      WithoutSubsequence(s[1..], t);
      var w := Without(s[1..], t);
      forall k | 0 <= k < |w| ensures s[0] < w[k] {
        assert w[k] in s[1..];
      }
    }
  }

  lemma {:induction false} RemoveFirstIsWithout(s: seq<int>, x: int)
    requires StrictlyIncreasing(s)
    ensures RemoveFirst(s, x) == Without(s, [x])
  {
    if s != [] {
      RemoveFirstIsWithout(s[1..], x);
      if s[0] == x {
        assert x !in s[1..];
        WithoutNothing(s[1..], [x]);
      }
    }
  }

  lemma {:induction false} WithoutNothing(s: seq<int>, t: seq<int>)
    requires forall i :: 0 <= i < |s| ==> s[i] !in t
    ensures Without(s, t) == s
  {
    if s != [] {
      assert s[0] !in t;
      WithoutNothing(s[1..], t);
      assert Without(s, t) == [s[0]] + Without(s[1..], t);
      assert s == [s[0]] + s[1..];
    }
  }

  lemma {:induction false} WithoutTwice(s: seq<int>, y: int, t: seq<int>)
    ensures Without(Without(s, [y]), t) == Without(s, [y] + t)
  {
    if s != [] {
      WithoutTwice(s[1..], y, t);
    }
  }

  /** The loop `for x in seg: if x in match: match.remove(x)`. */
  function RemoveEach(s: seq<int>, seg: seq<int>): seq<int>
    decreases |seg|
  {
    if seg == [] then s
    else RemoveEach(if seg[0] in s then RemoveFirst(s, seg[0]) else s, seg[1..])
  }

  /** On a list without repeats, removing each point of `seg` leaves exactly
      the points that `seg` does not contain, in their order. */
  lemma {:induction false} RemoveEachIsWithout(s: seq<int>, seg: seq<int>)
    requires StrictlyIncreasing(s)
    ensures RemoveEach(s, seg) == Without(s, seg)
    decreases |seg|
  {
    if seg == [] {
      WithoutNothing(s, seg);
    } else {
      RemoveStep(s, seg[0]);
      var s' := if seg[0] in s then RemoveFirst(s, seg[0]) else s;
      RemoveEachIsWithout(s', seg[1..]);
      WithoutTwice(s, seg[0], seg[1..]);
      assert [seg[0]] + seg[1..] == seg;
    }
  }

  /** One guarded removal `if x in s: s.remove(x)` on a list without repeats. */
  lemma RemoveStep(s: seq<int>, x: int)
    requires StrictlyIncreasing(s)
    ensures (if x in s then RemoveFirst(s, x) else s) == Without(s, [x])
    ensures StrictlyIncreasing(Without(s, [x]))
  {
    RemoveFirstIsWithout(s, x);
    if x !in s {
      WithoutNothing(s, [x]);
    }
    WithoutSubsequence(s, [x]);
  }

  /** Python's `a < b` on two lists of integers (lexicographic order). */
  predicate LexLess(a: seq<int>, b: seq<int>)
  {
    if a == [] then b != []
    else if b == [] then false
    else if a[0] != b[0] then a[0] < b[0]
    else LexLess(a[1..], b[1..])
  }

  lemma {:induction false} LexLessIrreflexive(a: seq<int>)
    ensures !LexLess(a, a)
  {
    if a != [] {
      LexLessIrreflexive(a[1..]);
    }
  }

  lemma {:induction false} LexLessAsymmetric(a: seq<int>, b: seq<int>)
    requires LexLess(a, b)
    ensures !LexLess(b, a)
  {
    if a != [] && b != [] && a[0] == b[0] {
      LexLessAsymmetric(a[1..], b[1..]);
    }
  }

  lemma {:induction false} LexLessTransitive(a: seq<int>, b: seq<int>, c: seq<int>)
    requires LexLess(a, b) && LexLess(b, c)
    ensures LexLess(a, c)
  {
    if a != [] && b != [] && c != [] && a[0] == b[0] && b[0] == c[0] {
      LexLessTransitive(a[1..], b[1..], c[1..]);
    }
  }

  /** Lists that agree before position k and differ there compare by
      position k. */
  lemma {:induction false} LexLessAt(a: seq<int>, b: seq<int>, k: nat)
    requires k < |a| && k < |b| && a[..k] == b[..k] && a[k] < b[k]
    ensures LexLess(a, b)
  {
    if k > 0 {
      assert a[0] == a[..k][0] == b[..k][0] == b[0];
      assert a[1..][..k - 1] == a[..k][1..] && b[1..][..k - 1] == b[..k][1..];
      LexLessAt(a[1..], b[1..], k - 1);
    }
  }

  /** `prime = a; if b < a: prime = b`: the lexicographic minimum of two
      lists, one of them and not above either. */
  function LexMin(a: seq<int>, b: seq<int>): (r: seq<int>)
    ensures r == a || r == b
    ensures !LexLess(a, r) && !LexLess(b, r)
  {
    LexLessIrreflexive(a);
    LexLessIrreflexive(b);
    if LexLess(b, a) then
      LexLessAsymmetric(b, a);
      b
    else a
  }

  /** Python's max() of two integers. */
  function Max(a: int, b: int): int { if a >= b then a else b }

  /** Python's max() of a non-empty list. */
  function MaxOf(s: seq<int>): (r: int)
    requires |s| >= 1
    ensures r in s
    ensures forall i :: 0 <= i < |s| ==> s[i] <= r
  {
    if |s| == 1 then s[0] else Max(MaxOf(s[..|s| - 1]), s[|s| - 1])
  }

  /** The first occurrences of the elements of s, in order. */
  function Dedup(s: seq<int>): (r: seq<int>)
    ensures Elems(r) == Elems(s)
    ensures NoDuplicates(r)
  {
    if s == [] then []
    else
      var front := Dedup(s[..|s| - 1]);
      assert Elems(s) == Elems(s[..|s| - 1]) + {s[|s| - 1]} by {
        assert s == s[..|s| - 1] + [s[|s| - 1]];
      }
      if s[|s| - 1] in front then front else front + [s[|s| - 1]]
  }

  /** Deduplicating a sorted list gives a strictly increasing one. */
  lemma {:induction false} DedupSorted(s: seq<int>)
    requires NonDecreasing(s)
    ensures StrictlyIncreasing(Dedup(s))
  {
    if s != [] {
      var front := s[..|s| - 1];
      var last := s[|s| - 1];
      assert NonDecreasing(front);
      DedupSorted(front);
      var d := Dedup(front);
      forall i | 0 <= i < |d| ensures d[i] <= last {
        assert d[i] in Elems(front);
      }
    }
  }

  /** `sorted(set(src))`: the distinct values in increasing order. */
  function Distinct(src: seq<int>): (r: seq<int>)
    ensures StrictlyIncreasing(r) && Elems(r) == Elems(src)
  {
    var sorted := Sorted(src);
    SortedSpec(src);
    DedupSorted(sorted);
    assert Elems(sorted) == Elems(src) by {
      assert forall x :: x in sorted <==> x in multiset(src);
    }
    Dedup(sorted)
  }

  /** The lists of s concatenated in order: flatten_sequence on a list of
      lists of numbers. */
  function Flatten(s: seq<seq<int>>): (r: seq<int>)
  {
    if s == [] then [] else Flatten(s[..|s| - 1]) + s[|s| - 1]
  }

  /** The length of a concatenation is the sum of the lengths. */
  lemma {:induction false} FlattenLength(s: seq<seq<int>>, lengths: seq<int>)
    requires |lengths| == |s| && forall i :: 0 <= i < |s| ==> |s[i]| == lengths[i]
    ensures |Flatten(s)| == Sum(lengths)
  {
    if s != [] {
      var n := |s| - 1;
      FlattenLength(s[..n], lengths[..n]);
      assert lengths == lengths[..n] + [lengths[n]];
      SumSnoc(lengths[..n], lengths[n]);
    }
  }
}
