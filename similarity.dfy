/** The interval-vector similarity relations of similarity.py. The forte,
    morris and rahn functions of comptools/similarity.py are the same code;
    text_set_class is only in comptools/similarity.py. All of them read the
    interval vector of PitchCore, whose code is the same in every copy of
    basic_tools. */
module Similarity {
  import opened PyBase
  import opened PyStr
  import opened PitchCore

  // ---------------------------------------------------------------------
  // forte
  // ---------------------------------------------------------------------

  /** `[i for i in range(k) if v1[i] == v2[i]]`. */
  function Agreeing(v1: seq<int>, v2: seq<int>, k: nat): (r: seq<int>)
    requires k <= |v1| && k <= |v2|
    ensures forall j :: 0 <= j < |r| ==> 0 <= r[j] < k
  {
    if k == 0 then []
    else Agreeing(v1, v2, k - 1) + (if v1[k - 1] == v2[k - 1] then [k - 1] else [])
  }

  /** `[i for i in range(k) if i not in common]`. */
  function NotIn(common: seq<int>, k: nat): (r: seq<int>)
    ensures forall j :: 0 <= j < |r| ==> 0 <= r[j] < k
  {
    if k == 0 then []
    else NotIn(common, k - 1) + (if k - 1 !in common then [k - 1] else [])
  }

  /** `[v[x] for x in idx]`. */
  function Pick(v: seq<int>, idx: seq<int>): (r: seq<int>)
    requires forall j :: 0 <= j < |idx| ==> 0 <= idx[j] < |v|
    ensures |r| == |idx|
  {
    seq(|idx|, j requires 0 <= j < |idx| => v[idx[j]])
  }

  /** forte: None for sets of different sizes; otherwise "R0" when no slot of
      the two interval vectors agrees, and with exactly four agreeing slots
      "R1" or "R2" as the two differing pairs are or are not permutations of
      each other. Any other number of agreeing slots reaches the return with
      forte_relation never assigned. */
  function Forte(pcset1: seq<int>, pcset2: seq<int>): (r: Result<Option<string>>)
    ensures r.Err? ==> r.error == UnboundLocalError
    ensures r == Ok(None) <==> |pcset1| != |pcset2|
  {
    if |pcset1| != |pcset2| then Ok(None)
    else
      var v1 := IntervalVectorOf(pcset1);
      var v2 := IntervalVectorOf(pcset2);
      var common := Agreeing(v1, v2, 6);
      if |common| == 0 then Ok(Some("R0"))
      else if |common| == 4 then
        var diff := NotIn(common, 6);
        if Sorted(Pick(v1, diff)) == Sorted(Pick(v2, diff)) then Ok(Some("R1")) else Ok(Some("R2"))
      else Err(UnboundLocalError)
  }

  lemma {:induction false} AgreeingMembers(v1: seq<int>, v2: seq<int>, k: nat, j: int)
    requires k <= |v1| && k <= |v2|
    ensures j in Agreeing(v1, v2, k) <==> 0 <= j < k && v1[j] == v2[j]
  {
    if k > 0 {
      AgreeingMembers(v1, v2, k - 1, j);
    }
  }

  lemma {:induction false} NotInMembers(common: seq<int>, k: nat, j: int)
    ensures j in NotIn(common, k) <==> 0 <= j < k && j !in common
  {
    if k > 0 {
      NotInMembers(common, k - 1, j);
    }
  }

  /** The slots split into the agreeing ones and the rest. */
  lemma {:induction false} SlotsSplit(v1: seq<int>, v2: seq<int>, k: nat)
    requires 6 <= |v1| && 6 <= |v2| && k <= 6
    ensures |Agreeing(v1, v2, k)| + |NotIn(Agreeing(v1, v2, 6), k)| == k
  {
    if k > 0 {
      SlotsSplit(v1, v2, k - 1);
      AgreeingMembers(v1, v2, 6, k - 1);
    }
  }

  lemma {:induction false} NotInIncreasing(common: seq<int>, k: nat)
    ensures StrictlyIncreasing(NotIn(common, k))
  {
    if k > 0 {
      NotInIncreasing(common, k - 1);
    }
  }

  /** The two vectors differ exactly at slots a < b, and there they hold each
      other's values. */
  predicate Swapped(v1: seq<int>, v2: seq<int>, a: int, b: int)
    requires |v1| == 6 && |v2| == 6
  {
    0 <= a < b < 6 && v1[a] != v2[a] && v1[b] != v2[b] && v1[a] == v2[b] && v1[b] == v2[a]
  }

  /** forte gives None exactly for sets of different cardinality and "R0"
      exactly when no slot agrees. */
  lemma ForteNoneOrR0(pcset1: seq<int>, pcset2: seq<int>)
    ensures Forte(pcset1, pcset2) == Ok(None) <==> |pcset1| != |pcset2|
    ensures Forte(pcset1, pcset2) == Ok(Some("R0")) <==>
              |pcset1| == |pcset2| &&
              forall j :: 0 <= j < 6 ==> IntervalVectorOf(pcset1)[j] != IntervalVectorOf(pcset2)[j]
  {
    var v1 := IntervalVectorOf(pcset1);
    var v2 := IntervalVectorOf(pcset2);
    if |pcset1| == |pcset2| {
      if |Agreeing(v1, v2, 6)| == 0 {
        forall j | 0 <= j < 6 ensures v1[j] != v2[j] {
          AgreeingMembers(v1, v2, 6, j);
        }
      } else {
        var j := Agreeing(v1, v2, 6)[0];
        AgreeingMembers(v1, v2, 6, j);
      }
    }
  }

  /** With four agreeing slots the differing ones are two, a < b, and diff
      lists them in order. */
  lemma DifferingPair(v1: seq<int>, v2: seq<int>) returns (a: int, b: int)
    requires |v1| == 6 && |v2| == 6 && |Agreeing(v1, v2, 6)| == 4
    ensures NotIn(Agreeing(v1, v2, 6), 6) == [a, b]
    ensures 0 <= a < b < 6 && v1[a] != v2[a] && v1[b] != v2[b]
    ensures forall j :: 0 <= j < 6 && j != a && j != b ==> v1[j] == v2[j]
  {
    var common := Agreeing(v1, v2, 6);
    var diff := NotIn(common, 6);
    SlotsSplit(v1, v2, 6);
    a, b := diff[0], diff[1];
    assert diff == [a, b];
    NotInIncreasing(common, 6);
    NotInMembers(common, 6, a);
    NotInMembers(common, 6, b);
    AgreeingMembers(v1, v2, 6, a);
    AgreeingMembers(v1, v2, 6, b);
    forall j | 0 <= j < 6 && j != a && j != b ensures v1[j] == v2[j] {
      NotInMembers(common, 6, j);
      AgreeingMembers(v1, v2, 6, j);
    }
  }

  /** Two two-element lists with different first elements are permutations
      of each other exactly when they are crossed. */
  lemma PairPermutation(x: int, y: int, x2: int, y2: int)
    requires x != x2
    ensures multiset([x, y]) == multiset([x2, y2]) <==> x == y2 && y == x2
  {
    if multiset([x, y]) == multiset([x2, y2]) {
      assert x in multiset([x2, y2]);
      assert multiset([x, y])[y] == multiset([x2, y2])[y];
    }
  }

  /** With four agreeing slots the answer is "R1" exactly when the two
      differing slots hold each other's values, and "R2" otherwise. */
  lemma ForteFourAgreeing(pcset1: seq<int>, pcset2: seq<int>)
    requires |pcset1| == |pcset2|
    requires |Agreeing(IntervalVectorOf(pcset1), IntervalVectorOf(pcset2), 6)| == 4
    ensures Forte(pcset1, pcset2) == Ok(Some("R1")) || Forte(pcset1, pcset2) == Ok(Some("R2"))
    ensures Forte(pcset1, pcset2) == Ok(Some("R1")) <==>
              exists a, b :: Swapped(IntervalVectorOf(pcset1), IntervalVectorOf(pcset2), a, b)
  {
    var v1 := IntervalVectorOf(pcset1);
    var v2 := IntervalVectorOf(pcset2);
    var a, b := DifferingPair(v1, v2);
    var diff := NotIn(Agreeing(v1, v2, 6), 6);
    var pair1, pair2 := Pick(v1, diff), Pick(v2, diff);
    assert pair1 == [v1[a], v1[b]] && pair2 == [v2[a], v2[b]];
    SortedEqIffPermutation(pair1, pair2);
    PairPermutation(v1[a], v1[b], v2[a], v2[b]);
    if multiset(pair1) == multiset(pair2) {
      assert Swapped(v1, v2, a, b);
    }
    if exists x, y :: Swapped(v1, v2, x, y) {
      var x, y :| Swapped(v1, v2, x, y);
      assert x == a && y == b;
    }
  }

  /** Any number of agreeing slots other than none or four leaves
      forte_relation unassigned. */
  lemma ForteUnbound(pcset1: seq<int>, pcset2: seq<int>)
    ensures Forte(pcset1, pcset2).Err? <==>
              |pcset1| == |pcset2| &&
              |Agreeing(IntervalVectorOf(pcset1), IntervalVectorOf(pcset2), 6)| !in {0, 4}
  {
  }

  /** Two vectors that agree outside one slot, with the same sum, agree there
      too. */
  lemma OneSlotApart(v1: seq<int>, v2: seq<int>, j: int)
    requires |v1| == 6 && |v2| == 6 && 0 <= j < 6
    requires forall i :: 0 <= i < 6 && i != j ==> v1[i] == v2[i]
    requires Sum(v1) == Sum(v2)
    ensures v1 == v2
  {
    assert v2 == v1[j := v2[j]];
    SumUpdate(v1, j, v2[j]);
  }

  /** For sets of the same size exactly five agreeing slots cannot happen:
      both interval vectors sum to n(n-1)/2, so the sixth slot agrees too. */
  lemma ForteNeverFiveAgreeing(pcset1: seq<int>, pcset2: seq<int>)
    requires |pcset1| == |pcset2|
    ensures |Agreeing(IntervalVectorOf(pcset1), IntervalVectorOf(pcset2), 6)| != 5
  {
    var v1 := IntervalVectorOf(pcset1);
    var v2 := IntervalVectorOf(pcset2);
    var common := Agreeing(v1, v2, 6);
    if |common| == 5 {
      SlotsSplit(v1, v2, 6);
      var j := NotIn(common, 6)[0];
      NotInMembers(common, 6, j);
      AgreeingMembers(v1, v2, 6, j);
      forall i | 0 <= i < 6 && i != j ensures v1[i] == v2[i] {
        NotInMembers(common, 6, i);
        AgreeingMembers(v1, v2, 6, i);
      }
      IntervalVectorTotal(pcset1);
      IntervalVectorTotal(pcset2);
      OneSlotApart(v1, v2, j);
    }
  }

  /** The relation does not depend on the order of the two sets. */
  lemma ForteSymmetric(pcset1: seq<int>, pcset2: seq<int>)
    ensures Forte(pcset1, pcset2) == Forte(pcset2, pcset1)
  {
    var v1 := IntervalVectorOf(pcset1);
    var v2 := IntervalVectorOf(pcset2);
    if |pcset1| == |pcset2| {
      AgreeingSymmetric(v1, v2, 6);
      var common := Agreeing(v1, v2, 6);
      if |common| == 4 {
        var diff := NotIn(common, 6);
        SortedEqIffPermutation(Pick(v1, diff), Pick(v2, diff));
        SortedEqIffPermutation(Pick(v2, diff), Pick(v1, diff));
      }
    }
  }

  lemma {:induction false} AgreeingSymmetric(v1: seq<int>, v2: seq<int>, k: nat)
    requires k <= |v1| && k <= |v2|
    ensures Agreeing(v1, v2, k) == Agreeing(v2, v1, k)
  {
    if k > 0 {
      AgreeingSymmetric(v1, v2, k - 1);
    }
  }

  // ---------------------------------------------------------------------
  // morris
  // ---------------------------------------------------------------------

  /** The sum of |v1[i] - v2[i]| over the first k slots. */
  function Distance(v1: seq<int>, v2: seq<int>, k: nat): (r: int)
    requires k <= |v1| && k <= |v2|
    ensures r >= 0
  {
    if k == 0 then 0 else Distance(v1, v2, k - 1) + Abs(v1[k - 1] - v2[k - 1])
  }

  /** What morris returns: the L1 distance of the two interval vectors. */
  function MorrisOf(pcset1: seq<int>, pcset2: seq<int>): int
  {
    Distance(IntervalVectorOf(pcset1), IntervalVectorOf(pcset2), 6)
  }

  /** morris: the loop over the slots of the first vector. */
  method Morris(pcset1: seq<int>, pcset2: seq<int>) returns (result: int)
    ensures result == MorrisOf(pcset1, pcset2)
  {
    var vector1 := IntervalVector(pcset1);
    var vector2 := IntervalVector(pcset2);
    result := 0;
    for i := 0 to |vector1|
      invariant result == Distance(vector1, vector2, i)
    {
      result := result + Abs(vector1[i] - vector2[i]);
    }
  }

  lemma {:induction false} DistanceSymmetric(v1: seq<int>, v2: seq<int>, k: nat)
    requires k <= |v1| && k <= |v2|
    ensures Distance(v1, v2, k) == Distance(v2, v1, k)
  {
    if k > 0 {
      DistanceSymmetric(v1, v2, k - 1);
    }
  }

  lemma {:induction false} DistanceZero(v1: seq<int>, v2: seq<int>, k: nat)
    requires k <= |v1| && k <= |v2|
    ensures Distance(v1, v2, k) == 0 <==> v1[..k] == v2[..k]
  {
    if k > 0 {
      DistanceZero(v1, v2, k - 1);
      assert v1[..k] == v1[..k - 1] + [v1[k - 1]];
      assert v2[..k] == v2[..k - 1] + [v2[k - 1]];
      if v1[..k] == v2[..k] {
        assert v1[..k - 1] == v1[..k][..k - 1];
        assert v2[..k - 1] == v2[..k][..k - 1];
        assert v1[k - 1] == v1[..k][k - 1];
      }
    }
  }

  lemma {:induction false} DistanceTriangle(u: seq<int>, v: seq<int>, w: seq<int>, k: nat)
    requires k <= |u| && k <= |v| && k <= |w|
    ensures Distance(u, w, k) <= Distance(u, v, k) + Distance(v, w, k)
  {
    if k > 0 {
      DistanceTriangle(u, v, w, k - 1);
    }
  }

  /** morris is a distance on interval vectors: symmetric, zero exactly for
      equal vectors, and it obeys the triangle inequality. */
  lemma MorrisIsDistance(pcset1: seq<int>, pcset2: seq<int>, pcset3: seq<int>)
    ensures MorrisOf(pcset1, pcset2) >= 0
    ensures MorrisOf(pcset1, pcset2) == MorrisOf(pcset2, pcset1)
    ensures MorrisOf(pcset1, pcset2) == 0 <==> IntervalVectorOf(pcset1) == IntervalVectorOf(pcset2)
    ensures MorrisOf(pcset1, pcset3) <= MorrisOf(pcset1, pcset2) + MorrisOf(pcset2, pcset3)
  {
    var v1, v2 := IntervalVectorOf(pcset1), IntervalVectorOf(pcset2);
    DistanceSymmetric(v1, v2, 6);
    DistanceZero(v1, v2, 6);
    assert v1[..6] == v1 && v2[..6] == v2;
    DistanceTriangle(v1, v2, IntervalVectorOf(pcset3), 6);
  }

  // ---------------------------------------------------------------------
  // rahn
  // ---------------------------------------------------------------------

  /** The sum of v1[i] + v2[i] over the first k slots where neither is 0. */
  function Shared(v1: seq<int>, v2: seq<int>, k: nat): int
    requires k <= |v1| && k <= |v2|
  {
    if k == 0 then 0
    else Shared(v1, v2, k - 1) + (if v1[k - 1] == 0 || v2[k - 1] == 0 then 0 else v1[k - 1] + v2[k - 1])
  }

  /** What rahn returns. */
  function RahnOf(pcset1: seq<int>, pcset2: seq<int>): int
  {
    Shared(IntervalVectorOf(pcset1), IntervalVectorOf(pcset2), 6)
  }

  /** rahn: the loop over the six slots, skipping those where either vector
      is 0. */
  method Rahn(pcset1: seq<int>, pcset2: seq<int>) returns (result: int)
    ensures result == RahnOf(pcset1, pcset2)
  {
    var vector1 := IntervalVector(pcset1);
    var vector2 := IntervalVector(pcset2);
    result := 0;
    for i := 0 to 6
      invariant result == Shared(vector1, vector2, i)
    {
      if vector1[i] == 0 || vector2[i] == 0 {
      } else {
        result := result + vector1[i] + vector2[i];
      }
    }
  }

  lemma {:induction false} SharedSymmetric(v1: seq<int>, v2: seq<int>, k: nat)
    requires k <= |v1| && k <= |v2|
    ensures Shared(v1, v2, k) == Shared(v2, v1, k)
  {
    if k > 0 {
      SharedSymmetric(v1, v2, k - 1);
    }
  }

  /** For vectors without negative slots the shared total lies between 0 and
      the sum of both, and is 0 exactly when no slot is non-zero in both. */
  lemma {:induction false} SharedBounds(v1: seq<int>, v2: seq<int>, k: nat)
    requires k <= |v1| && k <= |v2|
    requires forall i :: 0 <= i < k ==> v1[i] >= 0 && v2[i] >= 0
    ensures 0 <= Shared(v1, v2, k) <= Sum(v1[..k]) + Sum(v2[..k])
    ensures Shared(v1, v2, k) == 0 <==> forall i :: 0 <= i < k ==> v1[i] == 0 || v2[i] == 0
  {
    if k > 0 {
      SharedBounds(v1, v2, k - 1);
      SumPrefix(v1, k - 1);
      SumPrefix(v2, k - 1);
      SumNonNegative(v1[..k - 1]);
      SumNonNegative(v2[..k - 1]);
    }
  }

  lemma {:induction false} SharedSelf(v: seq<int>, k: nat)
    requires k <= |v|
    ensures Shared(v, v, k) == 2 * Sum(v[..k])
  {
    if k > 0 {
      SharedSelf(v, k - 1);
      SumPrefix(v, k - 1);
    }
  }

  /** rahn is symmetric; it is at most the total of both interval vectors,
      0 exactly when no interval class occurs in both sets, and a set
      compared with itself scores n(n-1). */
  lemma RahnProperties(pcset1: seq<int>, pcset2: seq<int>)
    ensures RahnOf(pcset1, pcset2) == RahnOf(pcset2, pcset1)
    ensures 2 * RahnOf(pcset1, pcset2) <= |pcset1| * (|pcset1| - 1) + |pcset2| * (|pcset2| - 1)
    ensures RahnOf(pcset1, pcset2) >= 0
    ensures RahnOf(pcset1, pcset2) == 0 <==>
              forall i :: 0 <= i < 6 ==> IntervalVectorOf(pcset1)[i] == 0 || IntervalVectorOf(pcset2)[i] == 0
    ensures RahnOf(pcset1, pcset1) == |pcset1| * (|pcset1| - 1)
  {
    var v1, v2 := IntervalVectorOf(pcset1), IntervalVectorOf(pcset2);
    SharedSymmetric(v1, v2, 6);
    IntervalVectorTotal(pcset1);
    IntervalVectorTotal(pcset2);
    assert v1[..6] == v1 && v2[..6] == v2;
    SharedBounds(v1, v2, 6);
    SharedSelf(v1, 6);
  }

  // ---------------------------------------------------------------------
  // text_set_class
  // ---------------------------------------------------------------------

  /** id_dict: the word for each slot of the interval vector. */
  const Names: seq<string> := ["one", "two", "three", "four", "five", "six"]

  /** `n` copies of w; `range(n)` is empty for n <= 0. */
  function Repeat(w: string, n: int): (r: seq<string>)
    ensures |r| == if n < 0 then 0 else n
    ensures forall j :: 0 <= j < |r| ==> r[j] == w
  {
    seq(if n < 0 then 0 else n, _ => w)
  }

  /** The words the nested loops emit for the first k slots of v. */
  function Words(v: seq<int>, k: nat): seq<string>
    requires k <= 6 && k <= |v|
  {
    if k == 0 then [] else Words(v, k - 1) + Repeat(Names[k - 1], v[k - 1])
  }

  /** The text accumulated by `result += word + " "`. */
  function Spaced(ws: seq<string>): string
  {
    if ws == [] then "" else Spaced(ws[..|ws| - 1]) + ws[|ws| - 1] + " "
  }

  /** The words of the set's interval vector, each followed by a space and
      the trailing space stripped: the words joined by single spaces. */
  method TextSetClass(setClass: seq<int>) returns (r: string)
    ensures r == Join(" ", Words(IntervalVectorOf(setClass), 6))
  {
    var v := IntervalVector(setClass);
    var result := "";
    for i := 0 to 6
      invariant result == Spaced(Words(v, i))
    {
      var j := 0;
      assert Words(v, i) + Repeat(Names[i], 0) == Words(v, i);
      while j < v[i]
        invariant 0 <= j && (v[i] >= 0 ==> j <= v[i]) && (v[i] < 0 ==> j == 0)
        invariant result == Spaced(Words(v, i) + Repeat(Names[i], j))
      {
        ghost var before := Words(v, i) + Repeat(Names[i], j);
        assert Words(v, i) + Repeat(Names[i], j + 1) == before + [Names[i]];
        assert (before + [Names[i]])[..|before|] == before;
        result := result + Names[i] + " ";
        j := j + 1;
      }
      assert Repeat(Names[i], j) == Repeat(Names[i], v[i]);
      assert Words(v, i) + Repeat(Names[i], j) == Words(v, i + 1);
    }
    WordsWellFormed(v, 6);
    StripSpaced(Words(v, 6));
    r := StripRight(result, Whitespace);
  }

  predicate WordLike(w: string)
  {
    |w| >= 1 && forall j :: 0 <= j < |w| ==> w[j] !in Whitespace
  }

  lemma {:induction false} WordsWellFormed(v: seq<int>, k: nat)
    requires k <= 6 && k <= |v|
    ensures forall j :: 0 <= j < |Words(v, k)| ==> WordLike(Words(v, k)[j]) && Words(v, k)[j] in Names
  {
    if k > 0 {
      WordsWellFormed(v, k - 1);
      assert WordLike(Names[k - 1]);
    }
  }

  lemma {:induction false} SpacedIsJoin(ws: seq<string>)
    requires ws != []
    ensures Spaced(ws) == Join(" ", ws) + " "
    decreases |ws|
  {
    var init := ws[..|ws| - 1];
    if init == [] {
      assert ws == [ws[0]];
    } else {
      SpacedIsJoin(init);
      JoinSnoc(" ", init, ws[|ws| - 1]);
      assert init + [ws[|ws| - 1]] == ws;
    }
  }

  lemma {:induction false} StripSpaced(ws: seq<string>)
    requires forall j :: 0 <= j < |ws| ==> WordLike(ws[j])
    ensures StripRight(Spaced(ws), Whitespace) == Join(" ", ws)
  {
    if ws != [] {
      SpacedIsJoin(ws);
      var body := Join(" ", ws);
      JoinEndsWithWord(ws);
      assert (body + " ")[..|body|] == body;
    }
  }

  /** A join of words ends with the last character of the last word. */
  lemma {:induction false} JoinEndsWithWord(ws: seq<string>)
    requires ws != [] && forall j :: 0 <= j < |ws| ==> WordLike(ws[j])
    ensures |Join(" ", ws)| >= 1 && Join(" ", ws)[|Join(" ", ws)| - 1] !in Whitespace
  {
    if |ws| > 1 {
      JoinEndsWithWord(ws[1..]);
    }
  }

  /** The slot words occur as often as the vector says. */
  lemma {:induction false} WordsCount(v: seq<int>, k: nat, i: int)
    requires k <= 6 && k <= |v| && 0 <= i < 6
    requires forall j :: 0 <= j < k ==> v[j] >= 0
    ensures multiset(Words(v, k))[Names[i]] == if i < k then v[i] else 0
  {
    if k > 0 {
      WordsCount(v, k - 1, i);
      var rep := Repeat(Names[k - 1], v[k - 1]);
      assert multiset(Words(v, k)) == multiset(Words(v, k - 1)) + multiset(rep);
      RepeatCount(Names[k - 1], v[k - 1], Names[i]);
      NamesDistinct(k - 1, i);
    }
  }

  /** The six slot words differ from each other. */
  lemma NamesDistinct(a: int, b: int)
    requires 0 <= a < 6 && 0 <= b < 6
    ensures Names[a] == Names[b] <==> a == b
  {
    if a != b {
      assert Names[a][0] != Names[b][0] || Names[a][1] != Names[b][1];
    }
  }

  /** One word per unit of the vector. */
  lemma {:induction false} WordsLength(v: seq<int>, k: nat)
    requires k <= 6 && k <= |v|
    requires forall j :: 0 <= j < k ==> v[j] >= 0
    ensures |Words(v, k)| == Sum(v[..k])
  {
    if k > 0 {
      WordsLength(v, k - 1);
      SumPrefix(v, k - 1);
    }
  }

  lemma {:induction false} RepeatCount(w: string, n: nat, x: string)
    ensures multiset(Repeat(w, n))[x] == if x == w then n else 0
  {
    if n > 0 {
      RepeatCount(w, n - 1, x);
      assert Repeat(w, n) == Repeat(w, n - 1) + [w];
    }
  }

  /** Splitting the text on spaces gives one word per interval, slot i's word
      occurring as often as interval class i + 1 (or, for slot 5, also a
      unison) occurs in the set. */
  lemma TextSetClassWords(setClass: seq<int>)
    requires |setClass| >= 2
    ensures var v := IntervalVectorOf(setClass);
            var text := Join(" ", Words(v, 6));
            Split(text, ' ') == Words(v, 6) &&
            |Split(text, ' ')| == |setClass| * (|setClass| - 1) / 2 &&
            forall i :: 0 <= i < 6 ==> multiset(Split(text, ' '))[Names[i]] == v[i]
  {
    var v := IntervalVectorOf(setClass);
    IntervalVectorTotal(setClass);
    assert v[..6] == v;
    var ws := Words(v, 6);
    forall i | 0 <= i < 6 ensures multiset(ws)[Names[i]] == v[i] {
      WordsCount(v, 6, i);
    }
    WordsLength(v, 6);
    WordsNoSpace(v);
    SplitJoin(ws, ' ');
  }

  /** No slot word holds a space. */
  lemma WordsNoSpace(v: seq<int>)
    requires |v| == 6
    ensures forall k :: 0 <= k < |Words(v, 6)| ==> ' ' !in Words(v, 6)[k]
  {
    WordsWellFormed(v, 6);
    forall k | 0 <= k < |Words(v, 6)| ensures ' ' !in Words(v, 6)[k] {
      assert WordLike(Words(v, 6)[k]);
    }
  }
}
