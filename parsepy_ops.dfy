/** The operations on partitions of build/lib/comptools/parsepy.py (the same
    code is in parsepy.py): resizing, revariance, transference and part_rep,
    the string that names a partition as a graph node. */
module ParsepyOps {
  import opened PyBase
  import opened PyStr
  import opened ParsepyPartitions

  // ---------------------------------------------------------------------
  // resizing
  // ---------------------------------------------------------------------

  /** `tuple(sorted(part[0:i] + [el + 1] + part[i + 1:]))`. */
  function Bumped(part: seq<int>, i: int): seq<int>
    requires 0 <= i < |part|
  {
    Sorted(part[i := part[i] + 1])
  }

  /** A resized list keeps the length, is sorted, and has one more in its
      sum; resizing a partition of n gives a partition of n + 1. */
  lemma BumpedIsResized(part: seq<int>, i: int)
    requires 0 <= i < |part|
    ensures |Bumped(part, i)| == |part| && NonDecreasing(Bumped(part, i))
    ensures Sum(Bumped(part, i)) == Sum(part) + 1
    ensures IsPartition(part, Sum(part)) ==> IsPartition(Bumped(part, i), Sum(part) + 1)
  {
    var u := part[i := part[i] + 1];
    SortedSpec(u);
    SumSorted(u);
    SumUpdate(part, i, part[i] + 1);
    if IsPartition(part, Sum(part)) {
      var b := Bumped(part, i);
      forall k | 0 <= k < |b| ensures b[k] >= 1 {
        assert b[k] in multiset(u);
        var m :| 0 <= m < |u| && u[m] == b[k];
      }
    }
  }

  /** resizing(part): the loop collects one resized list per position, and
      `list(set(result))` drops repeats; the result is the set of lists
      obtained by adding 1 to one part and sorting. */
  method Resizing(part: seq<int>) returns (r: set<seq<int>>)
    ensures forall p :: p in r <==> exists i :: 0 <= i < |part| && p == Bumped(part, i)
  {
    var result: seq<seq<int>> := [];
    for i := 0 to |part|
      invariant |result| == i && forall j :: 0 <= j < i ==> result[j] == Bumped(part, j)
    {
      var newPart := Bumped(part, i);
      result := result + [newPart];
    }
    r := set p | p in result;
    forall p | p in r ensures exists i :: 0 <= i < |part| && p == Bumped(part, i) {
      var k :| 0 <= k < |result| && result[k] == p;
    }
    forall i | 0 <= i < |part| ensures Bumped(part, i) in r {
      assert result[i] in result;
    }
  }

  /** Every list resizing returns has the length of part, is sorted, has a
      sum one larger, and is a partition of n + 1 when part is one of n. */
  lemma ResizingResults(part: seq<int>, p: seq<int>)
    requires exists i :: 0 <= i < |part| && p == Bumped(part, i)
    ensures |p| == |part| && NonDecreasing(p) && Sum(p) == Sum(part) + 1
    ensures IsPartition(part, Sum(part)) ==> IsPartition(p, Sum(part) + 1)
  {
    var i :| 0 <= i < |part| && p == Bumped(part, i);
    BumpedIsResized(part, i);
  }

  // ---------------------------------------------------------------------
  // revariance
  // ---------------------------------------------------------------------

  /** revariance(part): 1 put in front. */
  function Revariance(part: seq<int>): (r: seq<int>)
    ensures |r| == |part| + 1 && Sum(r) == Sum(part) + 1
  {
    SumConcat([1], part);
    assert Sum([1]) == 1 by { assert [1][..0] == []; }
    [1] + part
  }

  /** Revariance of a partition of n is a partition of n + 1 that starts with
      a part 1 and goes on with part. */
  lemma RevarianceOfPartition(part: seq<int>, n: int)
    requires IsPartition(part, n)
    ensures IsPartition(Revariance(part), n + 1)
    ensures Revariance(part)[0] == 1 && Revariance(part)[1..] == part
  {
    var r := Revariance(part);
    forall i, j | 0 <= i < j < |r| ensures r[i] <= r[j] {
      if i > 0 {
        assert r[i] == part[i - 1] && r[j] == part[j - 1];
      } else {
        assert r[j] == part[j - 1];
      }
    }
  }

  // ---------------------------------------------------------------------
  // transference
  // ---------------------------------------------------------------------

  /** `[x for x in s if x != 0]`. */
  function NonZero(s: seq<int>): (r: seq<int>)
    ensures |r| <= |s|
  {
    if s == [] then []
    else
      var init := NonZero(s[..|s| - 1]);
      var last := s[|s| - 1];
      if last != 0 then init + [last] else init
  }

  /** Dropping zeros keeps the sum. */
  lemma {:induction false} NonZeroSum(s: seq<int>)
    ensures Sum(NonZero(s)) == Sum(s)
  {
    if s != [] {
      var init := s[..|s| - 1];
      var last := s[|s| - 1];
      NonZeroSum(init);
      SumSnoc(NonZero(init), last);
      SumSnoc(init, last);
      assert s == init + [last];
    }
  }

  /** `tuple(sorted([x for x in s if x != 0]))`. */
  function Trimmed(s: seq<int>): seq<int>
  {
    Sorted(NonZero(s))
  }

  /** no_i: one taken from part i and given as a new part 1 in front. */
  function Split1(part: seq<int>, i: int): seq<int>
    requires 0 <= i < |part|
  {
    Trimmed([1] + part[i := part[i] - 1])
  }

  /** new_part: one taken from part i and given to part j. */
  function Move(part: seq<int>, i: int, j: int): seq<int>
    requires 0 <= i < |part| && 0 <= j < |part|
  {
    Trimmed(part[i := part[i] - 1][j := part[j] + 1])
  }

  /** What the inner loop over 0, 1, ..., j - 1 adds for its i: the list
      new_part for each k != i whose move changes part. */
  function MovesBelow(part: seq<int>, i: int, j: int): set<seq<int>>
    requires 0 <= i < |part| && 0 <= j <= |part|
  {
    set k | 0 <= k < j && k != i && Move(part, i, k) != part :: Move(part, i, k)
  }

  /** What the outer loop over i, i + 1, ... adds to acc: no_i when it
      changes part, then the inner loop's moves. */
  function Rounds(part: seq<int>, i: int, acc: set<seq<int>>): set<seq<int>>
    requires 0 <= i <= |part|
    decreases |part| - i
  {
    if i == |part| then acc
    else
      var withSplit := if Split1(part, i) != part then acc + {Split1(part, i)} else acc;
      Rounds(part, i + 1, withSplit + MovesBelow(part, i, |part|))
  }

  /** transference(part): None for (1,); for a single part p the one list
      [1, p - 1] without zeros (the source's `new_part != part` compares a
      list with a tuple, so it always holds); otherwise the set of lists that
      move one unit from a part to a new part 1 or to another part. */
  function TransferenceOf(part: seq<int>): Option<set<seq<int>>>
  {
    if part == [1] then None
    else if |part| == 1 then Some({NonZero([1, part[0] - 1])})
    else Some(Rounds(part, 0, {}))
  }

  /** transference with its two loops; each pass of the outer loop adds the
      lists of that pass (the source turns the list into a set after each
      pass, which only drops repeats). */
  method Transference(part: seq<int>) returns (r: Option<set<seq<int>>>)
    ensures r == TransferenceOf(part)
  {
    if part == [1] {
      return None;
    }
    if |part| == 1 {
      var newPart := NonZero([1, part[0] - 1]);
      return Some({newPart});
    }
    var result: set<seq<int>> := {};
    for i := 0 to |part|
      invariant Rounds(part, i, result) == Rounds(part, 0, {})
    {
      var noI := Split1(part, i);
      if noI != part {
        result := result + {noI};
      }
      result := AddMoves(part, i, result);
    }
    r := Some(result);
  }

  /** The inner loop of transference for one i: add each move from part i
      to another part that changes the list. */
  method AddMoves(part: seq<int>, i: int, result: set<seq<int>>) returns (result': set<seq<int>>)
    requires 0 <= i < |part|
    ensures result' == result + MovesBelow(part, i, |part|)
  {
    result' := result;
    for j := 0 to |part|
      invariant result' == result + MovesBelow(part, i, j)
    {
      MovesBelowStep(part, i, j);
      if j != i {
        var newPart := Move(part, i, j);
        if newPart != part {
          result' := result' + {newPart};
        }
      }
    }
  }

  /** One more index for the inner loop: its move joins the set exactly
      when it is not i and changes part. */
  lemma MovesBelowStep(part: seq<int>, i: int, j: int)
    requires 0 <= i < |part| && 0 <= j < |part|
    ensures MovesBelow(part, i, j + 1) ==
            MovesBelow(part, i, j) + (if j != i && Move(part, i, j) != part then {Move(part, i, j)} else {})
  {
  }

  lemma {:induction false} NonZeroPositive(s: seq<int>)
    requires forall k :: 0 <= k < |s| ==> s[k] >= 0
    ensures forall k :: 0 <= k < |NonZero(s)| ==> NonZero(s)[k] >= 1
  {
    if s != [] {
      var init := s[..|s| - 1];
      NonZeroPositive(init);
    }
  }

  lemma SortedPositive(z: seq<int>)
    requires forall k :: 0 <= k < |z| ==> z[k] >= 1
    ensures forall k :: 0 <= k < |Sorted(z)| ==> Sorted(z)[k] >= 1
  {
    var t := Sorted(z);
    SortedSpec(z);
    forall k | 0 <= k < |t| ensures t[k] >= 1 {
      assert t[k] in multiset(z);
      var m :| 0 <= m < |z| && z[m] == t[k];
    }
  }

  /** Removing zeros from a list of non-negative parts and sorting gives a
      partition of its sum. */
  lemma TrimmedIsPartition(s: seq<int>)
    requires forall k :: 0 <= k < |s| ==> s[k] >= 0
    ensures IsPartition(Trimmed(s), Sum(s))
  {
    NonZeroPositive(s);
    SortedPositive(NonZero(s));
    SortedSpec(NonZero(s));
    SumSorted(NonZero(s));
    NonZeroSum(s);
  }

  lemma Split1Keeps(part: seq<int>, i: int)
    requires 0 <= i < |part|
    ensures Sum(Split1(part, i)) == Sum(part)
    ensures IsPartition(part, Sum(part)) ==> IsPartition(Split1(part, i), Sum(part))
  {
    var u := part[i := part[i] - 1];
    SumUpdate(part, i, part[i] - 1);
    SumConcat([1], u);
    assert Sum([1]) == 1 by { assert [1][..0] == []; }
    var w := [1] + u;
    SumSorted(NonZero(w));
    NonZeroSum(w);
    if IsPartition(part, Sum(part)) {
      forall k | 0 <= k < |w| ensures w[k] >= 0 {
        if k > 0 {
          assert w[k] == u[k - 1];
          assert part[k - 1] >= 1;
        }
      }
      TrimmedIsPartition(w);
    }
  }

  lemma MoveKeeps(part: seq<int>, i: int, j: int)
    requires 0 <= i < |part| && 0 <= j < |part| && i != j
    ensures Sum(Move(part, i, j)) == Sum(part)
    ensures IsPartition(part, Sum(part)) ==> IsPartition(Move(part, i, j), Sum(part))
  {
    var u := part[i := part[i] - 1];
    var v := u[j := part[j] + 1];
    SumUpdate(part, i, part[i] - 1);
    SumUpdate(u, j, part[j] + 1);
    SumSorted(NonZero(v));
    NonZeroSum(v);
    if IsPartition(part, Sum(part)) {
      MovedNonNegative(part, i, j, v);
      TrimmedIsPartition(v);
    }
  }

  /** Moving one unit between positive parts leaves no part negative. */
  lemma MovedNonNegative(part: seq<int>, i: int, j: int, v: seq<int>)
    requires 0 <= i < |part| && 0 <= j < |part| && i != j
    requires forall k :: 0 <= k < |part| ==> part[k] >= 1
    requires v == part[i := part[i] - 1][j := part[j] + 1]
    ensures forall k :: 0 <= k < |v| ==> v[k] >= 0
  {
  }

  /** What a transference step keeps: the sum, and being a partition. */
  ghost predicate Transferred(part: seq<int>, p: seq<int>)
  {
    Sum(p) == Sum(part) && p != part &&
    (IsPartition(part, Sum(part)) ==> IsPartition(p, Sum(part)))
  }

  /** Every list the inner loop adds is a transference step. */
  lemma MovesKeep(part: seq<int>, i: int, p: seq<int>)
    requires 0 <= i < |part| && p in MovesBelow(part, i, |part|)
    ensures Transferred(part, p)
  {
    var k :| 0 <= k < |part| && k != i && Move(part, i, k) != part && p == Move(part, i, k);
    MoveKeeps(part, i, k);
  }

  lemma {:induction false} RoundsKeep(part: seq<int>, i: int, acc: set<seq<int>>, p: seq<int>)
    requires 0 <= i <= |part| && p in Rounds(part, i, acc)
    ensures p in acc || Transferred(part, p)
    decreases |part| - i
  {
    if i < |part| {
      var sp := Split1(part, i);
      var withSplit := if sp != part then acc + {sp} else acc;
      var moves := MovesBelow(part, i, |part|);
      RoundsKeep(part, i + 1, withSplit + moves, p);
      if p in moves {
        MovesKeep(part, i, p);
      }
      if p !in acc && p in withSplit {
        Split1Keeps(part, i);
      }
    }
  }

  /** The single-part case: (p,) with p != 1 gives [1, p - 1]. */
  lemma SingleTransferred(p0: int)
    requires p0 != 1
    ensures NonZero([1, p0 - 1]) == [1, p0 - 1]
    ensures Transferred([p0], NonZero([1, p0 - 1]))
  {
    var q := [1, p0 - 1];
    assert q[..1] == [1] && [1][..0] == [];
    assert NonZero([1]) == [1];
    SumPair(1, p0 - 1);
    SumPair(p0, 0);
    if IsPartition([p0], p0) {
      assert p0 >= 2;
    }
  }

  /** Every list transference returns has the sum of part and differs from
      it; when part is a partition, so is each list. */
  lemma TransferenceKeepsSum(part: seq<int>, p: seq<int>)
    requires TransferenceOf(part).Some? && p in TransferenceOf(part).value
    ensures Sum(p) == Sum(part) && p != part
    ensures IsPartition(part, Sum(part)) ==> IsPartition(p, Sum(part))
  {
    if |part| == 1 {
      assert part == [part[0]] && p == NonZero([1, part[0] - 1]);
      SingleTransferred(part[0]);
    } else {
      assert p in Rounds(part, 0, {});
      RoundsKeep(part, 0, {}, p);
    }
  }

  // ---------------------------------------------------------------------
  // part_rep
  // ---------------------------------------------------------------------

  /** `[str(x) for x in part]`. */
  function IntStrings(part: seq<int>): (r: seq<string>)
    ensures |r| == |part| && forall k :: 0 <= k < |r| ==> r[k] == IntToString(part[k])
  {
    if part == [] then [] else IntStrings(part[..|part| - 1]) + [IntToString(part[|part| - 1])]
  }

  /** part_rep(part): str(x) + "." for every part, then the last "." cut off
      (`""[:-1]` is "" for the empty tuple). */
  method PartRep(part: seq<int>) returns (s: string)
    ensures s == Join(".", IntStrings(part))
  {
    var result := "";
    for i := 0 to |part|
      invariant i == 0 ==> result == ""
      invariant i > 0 ==> result == Join(".", IntStrings(part[..i])) + "."
    {
      assert IntStrings(part[..i + 1]) == IntStrings(part[..i]) + [IntToString(part[i])] by {
        assert part[..i + 1][..i] == part[..i];
      }
      if i > 0 {
        JoinSnoc(".", IntStrings(part[..i]), IntToString(part[i]));
      }
      result := result + IntToString(part[i]) + ".";
    }
    assert part[..|part|] == part;
    if result == "" {
      s := "";
    } else {
      s := result[..|result| - 1];
    }
  }

  /** A node name splits at its dots back into the parts. */
  lemma PartRepRoundTrip(part: seq<int>)
    requires |part| >= 1
    ensures |Split(Join(".", IntStrings(part)), '.')| == |part|
    ensures forall k :: 0 <= k < |part| ==> ParseInt(Split(Join(".", IntStrings(part)), '.')[k]) == Some(part[k])
  {
    var strs := IntStrings(part);
    forall k | 0 <= k < |strs| ensures '.' !in strs[k] {
      assert forall m :: 0 <= m < |strs[k]| ==> strs[k][m] != '.';
    }
    SplitJoin(strs, '.');
    forall k | 0 <= k < |part| ensures ParseInt(strs[k]) == Some(part[k]) {
      ParseIntOfIntToString(part[k]);
    }
  }

  /** Different partitions get different node names. */
  lemma PartRepInjective(p: seq<int>, q: seq<int>)
    requires |p| >= 1 && |q| >= 1 && Join(".", IntStrings(p)) == Join(".", IntStrings(q))
    ensures p == q
  {
    PartRepRoundTrip(p);
    PartRepRoundTrip(q);
    forall k | 0 <= k < |p| ensures p[k] == q[k] {
      assert Some(p[k]) == Some(q[k]);
    }
  }
}
