/** Hindemith's chord analysis as hindemith.py writes it: the root and the
    strength of an interval, the test for rootless chords, the root of a
    chord and the chord classification. Pitches are integers; a pitch class
    is a pitch modulo 12. */
module Hindemith {
  import opened PyBase
  import opened Arith
  import opened PitchCore

  // ---------------------------------------------------------------------
  // itertools.combinations(s, 2)
  // ---------------------------------------------------------------------

  /** combinations(s, 2): every pair (s[i], s[j]) with i < j, ordered by i
      and then by j. */
  function Combinations2<T>(s: seq<T>): (r: seq<(T, T)>)
    decreases |s|
  {
    if |s| < 2 then []
    else seq(|s| - 1, k requires 0 <= k < |s| - 1 => (s[0], s[k + 1])) + Combinations2(s[1..])
  }

  /** A pair is listed exactly when it picks two positions of s in order. */
  lemma {:induction false} CombinationsMembers<T>(s: seq<T>, x: T, y: T)
    ensures (x, y) in Combinations2(s) <==> exists i, j :: 0 <= i < j < |s| && x == s[i] && y == s[j]
    decreases |s|
  {
    if |s| >= 2 {
      var head := seq(|s| - 1, k requires 0 <= k < |s| - 1 => (s[0], s[k + 1]));
      var tail := s[1..];
      CombinationsMembers(tail, x, y);
      if (x, y) in head {
        var k :| 0 <= k < |head| && head[k] == (x, y);
        assert x == s[0] && y == s[k + 1];
      }
      if exists i, j :: 0 <= i < j < |s| && x == s[i] && y == s[j] {
        var i, j :| 0 <= i < j < |s| && x == s[i] && y == s[j];
        if i == 0 {
          assert head[j - 1] == (x, y);
        } else {
          assert x == tail[i - 1] && y == tail[j - 1];
        }
      }
    }
  }

  /** One entry per unordered pair of positions: n * (n - 1) / 2 of them. */
  lemma {:induction false} CombinationsCount<T>(s: seq<T>)
    ensures 2 * |Combinations2(s)| == |s| * (|s| - 1)
    decreases |s|
  {
    if |s| >= 2 {
      var n := |s| - 1;
      CombinationsCount(s[1..]);
      assert 2 * n + n * (n - 1) == (n + 1) * n;
    }
  }

  // ---------------------------------------------------------------------
  // root_interval and interval_strength
  // ---------------------------------------------------------------------

  /** The pitch classes of a and b are equal or a tritone apart. */
  predicate NoIntervalRoot(a: int, b: int)
  {
    (b - a) % 12 == 0 || (b - a) % 12 == 6
  }

  /** root_interval([a, b]): from the pitch classes o0 = a % 12 and
      o1 = b % 12, one of the pitches a, b is the root, and 0 stands for no
      root. */
  function RootInterval(a: int, b: int): (r: int)
    ensures NoIntervalRoot(a, b) ==> r == 0
    ensures !NoIntervalRoot(a, b) ==> r == a || r == b
  {
    var interval := b % 12 - a % 12;
    assert (b - a) % 12 == interval % 12 by {
      ModAddMultiple(interval, 12, b / 12 - a / 12);
      assert b - a == interval + 12 * (b / 12 - a / 12);
    }
    var modInterval := interval % 12;
    if interval > 0 then
      if interval in {3, 4, 7, 8, 9} then a
      else if interval in {1, 2, 5, 10, 11} then b
      else 0
    else
      if modInterval in {3, 4, 5, 8, 9} then b
      else if modInterval in {1, 2, 7, 10, 11} then a
      else 0
  }

  /** The root of an interval does not depend on the order of its pitches. */
  lemma RootIntervalSymmetric(a: int, b: int)
    ensures RootInterval(a, b) == RootInterval(b, a)
  {
    var d := b % 12 - a % 12;
    if d > 0 {
      assert (-d) % 12 == 12 - d;
    } else if d < 0 {
      assert d % 12 == 12 + d;
    }
  }

  /** interval_strength([a, b]): the interval class of the pair, with the
      tritone counted 0. */
  function IntervalStrength(a: int, b: int): (r: int)
    ensures 0 <= r <= 5
    ensures r == 0 <==> NoIntervalRoot(a, b)
  {
    var interval := (b - a) % 12;
    var folded := if interval > 6 then 12 - interval else interval;
    if folded == 6 then 0 else folded
  }

  /** interval_strength agrees with interval_class except on the tritone. */
  lemma StrengthIsIntervalClass(a: int, b: int)
    ensures IntervalStrength(a, b) == if IntervalClass(a, b) == 6 then 0 else IntervalClass(a, b)
  {
    NegMod12(b - a);
    assert a - b == -(b - a);
  }

  /** The strength of an interval does not depend on the order of its
      pitches. */
  lemma StrengthSymmetric(a: int, b: int)
    ensures IntervalStrength(a, b) == IntervalStrength(b, a)
  {
    StrengthIsIntervalClass(a, b);
    StrengthIsIntervalClass(b, a);
    IntervalClassSymmetric(a, b);
  }

  // ---------------------------------------------------------------------
  // no_root
  // ---------------------------------------------------------------------

  /** The pitch classes of a chord. */
  function PitchClasses(chord: seq<int>): (r: seq<int>)
    ensures |r| == |chord| && forall i :: 0 <= i < |r| ==> r[i] == chord[i] % 12
  {
    seq(|chord|, i requires 0 <= i < |chord| => chord[i] % 12)
  }

  /** [abs(y - x) % 12 for (x, y) in combinations(s, 2)]. */
  function PairIntervals(s: seq<int>): (r: seq<int>)
    ensures |r| == |Combinations2(s)|
  {
    var pairs := Combinations2(s);
    seq(|pairs|, k requires 0 <= k < |pairs| => Abs(pairs[k].1 - pairs[k].0) % 12)
  }

  /** Some two positions i < j of s lie x apart in the sense of
      PairIntervals. */
  predicate PairAt(s: seq<int>, x: int)
  {
    exists i, j :: 0 <= i < j < |s| && Abs(s[j] - s[i]) % 12 == x
  }

  /** An interval listed by PairIntervals comes from some pair. */
  lemma IntervalHasPair(s: seq<int>, x: int)
    requires x in PairIntervals(s)
    ensures PairAt(s, x)
  {
    var pairs := Combinations2(s);
    var iv := PairIntervals(s);
    var k :| 0 <= k < |iv| && iv[k] == x;
    var i, j := CombinationAt(s, k);
    assert Abs(s[j] - s[i]) % 12 == x;
  }

  /** Entry k of combinations(s, 2) is a pair of positions i < j. */
  lemma CombinationAt<T>(s: seq<T>, k: int) returns (i: int, j: int)
    requires 0 <= k < |Combinations2(s)|
    ensures 0 <= i < j < |s| && Combinations2(s)[k] == (s[i], s[j])
  {
    var p := Combinations2(s)[k];
    CombinationsMembers(s, p.0, p.1);
    i, j :| 0 <= i < j < |s| && p.0 == s[i] && p.1 == s[j];
  }

  /** Every pair's interval is listed by PairIntervals. */
  lemma PairHasInterval(s: seq<int>, x: int)
    requires PairAt(s, x)
    ensures x in PairIntervals(s)
  {
    var pairs := Combinations2(s);
    var i, j :| 0 <= i < j < |s| && Abs(s[j] - s[i]) % 12 == x;
    CombinationsMembers(s, s[i], s[j]);
    var k :| 0 <= k < |pairs| && pairs[k] == (s[i], s[j]);
    assert PairIntervals(s)[k] == x;
  }

  /** x occurs in PairIntervals(s) exactly when some pair lies x apart. */
  lemma PairIntervalsMembers(s: seq<int>, x: int)
    ensures x in PairIntervals(s) <==> PairAt(s, x)
  {
    if x in PairIntervals(s) {
      IntervalHasPair(s, x);
    }
    if PairAt(s, x) {
      PairHasInterval(s, x);
    }
  }

  /** The augmented triad [c, c + 4, c + 8] on the pitch class c. */
  function Augmented(c: int): seq<int>
  {
    [c, (c + 4) % 12, (c + 8) % 12]
  }

  /** The stack of fourths [c, c + 5, c + 10] on the pitch class c. */
  function Quartal(c: int): seq<int>
  {
    [c, (c + 5) % 12, (c + 10) % 12]
  }

  /** Some pair of the pitch classes is a major third, minor sixth, fourth or
      fifth. */
  predicate HasStrongPair(pcs: seq<int>)
  {
    PairAt(pcs, 4) || PairAt(pcs, 8) || PairAt(pcs, 5) || PairAt(pcs, 7)
  }

  /** The test no_root applies to at most three notes without a tritone:
      sorted(chord) against the augmented and quartal stacks on chord[0], as
      listed. */
  predicate StackAsWritten(pcs: seq<int>)
    requires |pcs| >= 1
  {
    Sorted(pcs) == Augmented(pcs[0]) || Sorted(pcs) == Quartal(pcs[0])
  }

  /** The same test with both sides sorted. */
  predicate StackCorrected(pcs: seq<int>)
    requires |pcs| >= 1
  {
    Sorted(pcs) == Sorted(Augmented(pcs[0])) || Sorted(pcs) == Sorted(Quartal(pcs[0]))
  }

  /** no_root(chord) as written; True means rootless. IndexError on an
      empty chord, from chord[0]. */
  function NoRoot(chord: seq<int>): (r: Result<bool>)
    ensures r.Err? <==> |chord| == 0
    ensures r.Err? ==> r.error == IndexError
  {
    var pcs := PitchClasses(chord);
    var intervals := PairIntervals(pcs);
    if 6 in intervals then
      Ok(4 !in intervals && 8 !in intervals && 5 !in intervals && 7 !in intervals)
    else if |chord| > 3 then Ok(false)
    else if |chord| == 0 then Err(IndexError)
    else Ok(StackAsWritten(pcs))
  }

  /** no_root with the comparison it evidently intends. */
  function NoRootCorrected(chord: seq<int>): (r: Result<bool>)
    ensures r.Err? <==> |chord| == 0
    ensures r.Err? ==> r.error == IndexError
  {
    var pcs := PitchClasses(chord);
    var intervals := PairIntervals(pcs);
    if 6 in intervals then
      Ok(4 !in intervals && 8 !in intervals && 5 !in intervals && 7 !in intervals)
    else if |chord| > 3 then Ok(false)
    else if |chord| == 0 then Err(IndexError)
    else Ok(StackCorrected(pcs))
  }

  /** no_root as written: with a tritone, rootless exactly when no pair is a
      third, sixth, fourth or fifth; without one, never rootless above three
      notes, and otherwise by the stack test. */
  lemma NoRootCases(chord: seq<int>)
    ensures var pcs := PitchClasses(chord);
      (PairAt(pcs, 6) ==> NoRoot(chord) == Ok(!HasStrongPair(pcs))) &&
      (!PairAt(pcs, 6) && |chord| > 3 ==> NoRoot(chord) == Ok(false)) &&
      (!PairAt(pcs, 6) && 1 <= |chord| <= 3 ==> NoRoot(chord) == Ok(StackAsWritten(pcs)))
  {
    var pcs := PitchClasses(chord);
    PairIntervalsMembers(pcs, 6);
    PairIntervalsMembers(pcs, 4);
    PairIntervalsMembers(pcs, 8);
    PairIntervalsMembers(pcs, 5);
    PairIntervalsMembers(pcs, 7);
  }

  /** The corrected test differs from the written one only in the stack
      comparison, which now holds exactly when the chord's pitch classes are
      those of the augmented or quartal stack on chord[0], in any order. */
  lemma NoRootCorrectedCases(chord: seq<int>)
    ensures var pcs := PitchClasses(chord);
      (PairAt(pcs, 6) || |chord| > 3 ==> NoRootCorrected(chord) == NoRoot(chord)) &&
      (!PairAt(pcs, 6) && 1 <= |chord| <= 3 ==>
         NoRootCorrected(chord) == Ok(multiset(pcs) == multiset(Augmented(pcs[0])) || multiset(pcs) == multiset(Quartal(pcs[0]))))
  {
    var pcs := PitchClasses(chord);
    PairIntervalsMembers(pcs, 6);
    if 1 <= |chord| {
      SortedEqIffPermutation(pcs, Augmented(pcs[0]));
      SortedEqIffPermutation(pcs, Quartal(pcs[0]));
    }
  }

  /** The pairs of E G# C as pitch classes lie 4, 4 and 8 apart. */
  lemma IntervalsOfAugmentedOnE()
    ensures PairIntervals([4, 8, 0]) == [4, 4, 8]
  {
    assert Combinations2([4, 8, 0]) == [(4, 8), (4, 0), (8, 0)] by {
      assert Combinations2([8, 0]) == [(8, 0)];
    }
  }

  /** no_root compares sorted(chord) with the stacks unsorted, so the
      augmented triad E G# C (pitches 4, 8, 12) counts as having a root. */
  lemma NoRootMissesAugmentedOnE()
    ensures NoRoot([4, 8, 12]) == Ok(false)
  {
    var pcs := PitchClasses([4, 8, 12]);
    assert pcs == [4, 8, 0];
    IntervalsOfAugmentedOnE();
    PairIntervalsMembers(pcs, 6);
    NoRootCases([4, 8, 12]);
    AugmentedOnENotStacked(pcs);
  }

  /** The augmented triad E G# C (pitches 4, 8, 12): as written, no_root
      finds a root and hindemith_classification gives I.1; with the
      corrected test the chord is rootless and its class is V. */
  lemma AugmentedOnEClassified(chord: seq<int>)
    requires chord == [4, 8, 12]
    ensures Classification(chord) == Ok("I.1")
    ensures ClassificationCorrected(chord) == Ok("V")
  {
    NoRootMissesAugmentedOnE();
    CorrectedAugmentedRootless(4);
    AugmentedOnEStrengths(chord);
    var intervals := [4, 8, 4];
    assert CountOf(intervals, 6) == 0;
    assert LabelOf(false, intervals, 0, true) == Ok("I.1");
    assert LabelOf(true, intervals, 0, true) == Ok("V");
  }

  /** On the same chord find_root as written gives E, and with the
      corrected test it raises. */
  lemma AugmentedOnERoot(chord: seq<int>)
    requires chord == [4, 8, 12]
    ensures forall r :: RootOutcome(chord, NoRoot(chord), r) ==> r == Ok(4)
    ensures forall r :: RootOutcome(chord, NoRootCorrected(chord), r) ==> r == Err(UnboundLocalError)
  {
    NoRootMissesAugmentedOnE();
    CorrectedAugmentedRootless(4);
    AugmentedOnEStrengths(chord);
  }

  /** The pairs of E G# C are all thirds or sixths of strength 4, and the
      first, E G#, has root E. */
  lemma AugmentedOnEStrengths(chord: seq<int>)
    requires chord == [4, 8, 12]
    ensures Strengths(chord) == [4, 4, 4] && IndexOf(Strengths(chord), MaxOf(Strengths(chord))) == 0
    ensures Combinations2(chord)[0] == (4, 8) && RootInterval(4, 8) == 4
    ensures ClassificationRoot(chord) == 4
    ensures PairIntervals(chord) == [4, 8, 4]
  {
    AugmentedOnEPairs(chord);
    var s := Strengths(chord);
    assert s == [4, 4, 4];
    assert MaxOf(s) == 4;
  }

  lemma AugmentedOnEPairs(chord: seq<int>)
    requires chord == [4, 8, 12]
    ensures Combinations2(chord) == [(4, 8), (4, 12), (8, 12)]
  {
    assert Combinations2(chord[1..]) == [(8, 12)];
  }

  /** The stack test as written can only pass when a stack on chord[0] is
      itself in ascending order, since sorted() output is. */
  lemma StackAsWrittenNeedsAscending(pcs: seq<int>)
    requires |pcs| >= 1
    ensures StackAsWritten(pcs) ==> NonDecreasing(Augmented(pcs[0])) || NonDecreasing(Quartal(pcs[0]))
  {
    SortedSpec(pcs);
  }

  /** The stack test as written fails on E G# C. */
  lemma AugmentedOnENotStacked(pcs: seq<int>)
    requires pcs == [4, 8, 0]
    ensures !StackAsWritten(pcs)
  {
    var aug := Augmented(pcs[0]);
    var quart := Quartal(pcs[0]);
    assert !NonDecreasing(aug) by { assert aug[1] > aug[2]; }
    assert !NonDecreasing(quart) by { assert quart[1] > quart[2]; }
    StackAsWrittenNeedsAscending(pcs);
  }

  /** The pitch classes of [c, c + k] for a pitch c. */
  lemma ShiftClass(c: int, k: int)
    ensures (c + k) % 12 == (c % 12 + k) % 12
  {
    ModAddMultiple(c % 12 + k, 12, c / 12);
    assert c + k == c % 12 + k + 12 * (c / 12);
  }

  /** The three pitch classes of a stack m, m + d, m + 2d (mod 12). */
  lemma StackClasses(c: int, d: int)
    ensures PitchClasses([c, c + d, c + 2 * d]) == [c % 12, (c % 12 + d) % 12, (c % 12 + 2 * d) % 12]
  {
    ShiftClass(c, d);
    ShiftClass(c, 2 * d);
  }

  /** The stack on a pitch class m whose pitch classes are m, m + 4, m + 8
      (mod 12) has no two notes 6 apart, each pair reduced as
      abs(y - x) % 12. */
  lemma AugmentedHasNoTritone(m: int)
    requires 0 <= m < 12
    ensures !PairAt([m, (m + 4) % 12, (m + 8) % 12], 6)
  {
    var s := [m, (m + 4) % 12, (m + 8) % 12];
    if m < 4 {
      assert s == [m, m + 4, m + 8];
    } else if m < 8 {
      assert s == [m, m + 4, m - 4];
    } else {
      assert s == [m, m - 8, m - 4];
    }
  }

  /** The same for the stack of fourths m, m + 5, m + 10 (mod 12). */
  lemma QuartalHasNoTritone(m: int)
    requires 0 <= m < 12
    ensures !PairAt([m, (m + 5) % 12, (m + 10) % 12], 6)
  {
    var s := [m, (m + 5) % 12, (m + 10) % 12];
    if m < 2 {
      assert s == [m, m + 5, m + 10];
    } else if m < 7 {
      assert s == [m, m + 5, m - 2];
    } else {
      assert s == [m, m - 7, m - 2];
    }
  }

  /** A chord of one to three notes without a tritone whose pitch classes
      are those of a stack on its first, in any order, is rootless under the
      corrected test. */
  lemma CorrectedStackRootless(chord: seq<int>)
    requires 1 <= |chord| <= 3
    requires var pcs := PitchClasses(chord); !PairAt(pcs, 6) && (pcs == Augmented(pcs[0]) || pcs == Quartal(pcs[0]))
    ensures NoRootCorrected(chord) == Ok(true)
  {
    NoRootCorrectedCases(chord);
  }

  /** With the corrected comparison, every augmented triad built up from its
      first note is rootless, whatever its pitch. */
  lemma CorrectedAugmentedRootless(c: int)
    ensures NoRootCorrected([c, c + 4, c + 8]) == Ok(true)
  {
    var chord := [c, c + 4, c + 8];
    StackClasses(c, 4);
    AugmentedHasNoTritone(c % 12);
    CorrectedStackRootless(chord);
  }

  /** And so is every stack of two fourths. */
  lemma CorrectedQuartalRootless(c: int)
    ensures NoRootCorrected([c, c + 5, c + 10]) == Ok(true)
  {
    var chord := [c, c + 5, c + 10];
    StackClasses(c, 5);
    QuartalHasNoTritone(c % 12);
    CorrectedStackRootless(chord);
  }

  // ---------------------------------------------------------------------
  // interval_root_force and find_root
  // ---------------------------------------------------------------------

  /** The [root, strength] entry of every pair of the chord. */
  function RootForces(chord: seq<int>): (r: seq<(int, int)>)
    ensures |r| == |Combinations2(chord)|
    ensures forall k :: 0 <= k < |r| ==> 0 <= r[k].1 <= 5
  {
    var pairs := Combinations2(chord);
    seq(|pairs|, k requires 0 <= k < |pairs| =>
      (RootInterval(pairs[k].0, pairs[k].1), IntervalStrength(pairs[k].0, pairs[k].1)))
  }

  /** interval_root_force(chord): one [root, strength] entry per pair of
      notes, in the order of combinations(chord, 2). */
  method IntervalRootForce(chord: seq<int>) returns (result: seq<(int, int)>)
    ensures result == RootForces(chord)
  {
    result := [];
    var pair := Combinations2(chord);
    for k := 0 to |pair|
      invariant result == RootForces(chord)[..k]
    {
      result := result + [(RootInterval(pair[k].0, pair[k].1), IntervalStrength(pair[k].0, pair[k].1))];
    }
  }

  /** The strengths of the pairs of the chord. */
  function Strengths(chord: seq<int>): (r: seq<int>)
    ensures |r| == |Combinations2(chord)|
    ensures forall k :: 0 <= k < |r| ==> 0 <= r[k] <= 5
  {
    var pairs := Combinations2(chord);
    seq(|pairs|, k requires 0 <= k < |pairs| => IntervalStrength(pairs[k].0, pairs[k].1))
  }

  /** [x for x in s if x]. */
  function NonZeros(s: seq<int>): (r: seq<int>)
    ensures forall x :: x in r <==> x in s && x != 0
  {
    if s == [] then [] else NonZeros(s[..|s| - 1]) + (if s[|s| - 1] != 0 then [s[|s| - 1]] else [])
  }

  /** No non-zero entries exactly when every entry is 0. */
  lemma NonZerosEmpty(s: seq<int>)
    ensures NonZeros(s) == [] <==> forall k :: 0 <= k < |s| ==> s[k] == 0
  {
    if NonZeros(s) != [] {
      assert NonZeros(s)[0] in NonZeros(s);
    }
  }

  /** list.index(x): the first position holding x. */
  function IndexOf(s: seq<int>, x: int): (r: nat)
    requires x in s
    ensures r < |s| && s[r] == x && forall t :: 0 <= t < r ==> s[t] != x
  {
    if s[0] == x then 0 else 1 + IndexOf(s[1..], x)
  }

  /** The positions holding m, in order. */
  function IndicesOf(s: seq<int>, m: int): (r: seq<int>)
    ensures forall t :: 0 <= t < |r| ==> 0 <= r[t] < |s| && s[r[t]] == m
  {
    if s == [] then []
    else
      var init := s[..|s| - 1];
      IndicesOf(init, m) + (if s[|s| - 1] == m then [|s| - 1] else [])
  }

  /** The first position holding m is the one list.index finds. */
  lemma {:induction false} IndicesOfFirst(s: seq<int>, m: int)
    requires m in s
    ensures |IndicesOf(s, m)| >= 1 && IndicesOf(s, m)[0] == IndexOf(s, m)
  {
    var init := s[..|s| - 1];
    if m in init {
      IndicesOfFirst(init, m);
      assert forall t :: 0 <= t < |init| ==> init[t] == s[t];
      var k := IndexOf(init, m);
      assert s[k] == m;
    } else {
      assert forall t :: 0 <= t < |init| ==> init[t] == s[t] && s[t] != m;
      assert s[|s| - 1] == m;
    }
  }

  /** The loop of find_root: the positions of strength max(the non-zero
      strengths), where that max() raises ValueError on a list whose
      strengths are all 0 (and is not reached on an empty one). */
  method HighIndices(strengths: seq<int>) returns (r: Result<seq<int>>)
    ensures strengths == [] ==> r == Ok([])
    ensures strengths != [] && NonZeros(strengths) == [] ==> r == Err(ValueError)
    ensures NonZeros(strengths) != [] ==> r == Ok(IndicesOf(strengths, MaxOf(NonZeros(strengths))))
  {
    var highIndices: seq<int> := [];
    for i := 0 to |strengths|
      invariant NonZeros(strengths) != [] ==> highIndices == IndicesOf(strengths[..i], MaxOf(NonZeros(strengths)))
      invariant NonZeros(strengths) == [] ==> highIndices == [] && i == 0
    {
      var cleanStrengths := NonZeros(strengths);
      if cleanStrengths == [] {
        return Err(ValueError);
      }
      assert strengths[..i + 1][..i] == strengths[..i];
      if strengths[i] == MaxOf(cleanStrengths) {
        highIndices := highIndices + [i];
      }
    }
    assert strengths[..|strengths|] == strengths;
    r := Ok(highIndices);
  }

  /** What find_root returns, given what its rootless test gave: a rootless
      chord reaches the final line with the pair list unassigned and raises;
      otherwise the root of the first pair of greatest strength, when that
      strength is not 0. max() of no non-zero strengths raises, and so does
      indexing the empty list of strongest pairs of a one-note chord. */
  predicate RootOutcome(chord: seq<int>, rootless: Result<bool>, r: Result<int>)
  {
    (rootless.Err? ==> r == Err(IndexError)) &&
    (rootless == Ok(true) ==> r == Err(UnboundLocalError)) &&
    (rootless == Ok(false) && |chord| < 2 ==> r == Err(IndexError)) &&
    (rootless == Ok(false) && |chord| >= 2 && (forall k :: 0 <= k < |Strengths(chord)| ==> Strengths(chord)[k] == 0) ==>
       r == Err(ValueError)) &&
    (r.Ok? ==>
       rootless == Ok(false) && |chord| >= 2 &&
       var s := Strengths(chord); var k := IndexOf(s, MaxOf(s));
       s[k] > 0 && r.value == RootInterval(Combinations2(chord)[k].0, Combinations2(chord)[k].1)) &&
    (rootless == Ok(false) && (exists k :: 0 <= k < |Strengths(chord)| && Strengths(chord)[k] > 0) ==> r.Ok?)
  }

  /** find_root(chord) as written, with no_root's test. */
  method FindRoot(chord: seq<int>) returns (r: Result<int>)
    ensures RootOutcome(chord, NoRoot(chord), r)
  {
    r := RootAfterTest(chord, NoRoot(chord));
  }

  /** find_root with the corrected rootless test. */
  method FindRootCorrected(chord: seq<int>) returns (r: Result<int>)
    ensures RootOutcome(chord, NoRootCorrected(chord), r)
  {
    r := RootAfterTest(chord, NoRootCorrected(chord));
  }

  /** The body of find_root after its call to the rootless test, whose
      only error is the IndexError of an empty chord. */
  method RootAfterTest(chord: seq<int>, nr: Result<bool>) returns (r: Result<int>)
    requires nr.Err? ==> nr.error == IndexError
    ensures RootOutcome(chord, nr, r)
  {
    if nr.Err? {
      return Err(nr.error);
    }
    if nr.value {
      return Err(UnboundLocalError);
    }
    var allIntervals := Combinations2(chord);
    var strengths := Strengths(chord);
    CombinationsCount(chord);
    NonZerosEmpty(strengths);
    var high := HighIndices(strengths);
    if high.Err? {
      return Err(high.error);
    }
    if high.value == [] {
      if NonZeros(strengths) != [] {
        assert MaxOf(NonZeros(strengths)) in strengths;
        IndicesOfFirst(strengths, MaxOf(NonZeros(strengths)));
      }
      return Err(IndexError);
    }
    StrongestIsFirstMax(strengths);
    r := Ok(RootInterval(allIntervals[high.value[0]].0, allIntervals[high.value[0]].1));
  }

  /** When some strength is positive, the greatest non-zero strength is the
      greatest strength, and find_root's first strongest pair is the first
      position list.index finds for it. */
  lemma StrongestIsFirstMax(s: seq<int>)
    requires NonZeros(s) != [] && forall k :: 0 <= k < |s| ==> s[k] >= 0
    ensures MaxOf(NonZeros(s)) == MaxOf(s) > 0
    ensures |IndicesOf(s, MaxOf(s))| >= 1 && IndicesOf(s, MaxOf(s))[0] == IndexOf(s, MaxOf(s))
  {
    var nz := NonZeros(s);
    var m := MaxOf(nz);
    assert m in s && m != 0;
    forall t | 0 <= t < |s|
      ensures s[t] <= m
    {
      if s[t] != 0 {
        assert s[t] in nz;
      }
    }
    var k :| 0 <= k < |s| && s[k] == MaxOf(s);
    assert MaxOf(s) == m;
    IndicesOfFirst(s, m);
  }

  // ---------------------------------------------------------------------
  // hindemith_classification
  // ---------------------------------------------------------------------

  /** list.count(x). */
  function CountOf(s: seq<int>, x: int): (r: nat)
    ensures r >= 1 <==> x in s
  {
    if s == [] then 0
    else
      assert s == s[..|s| - 1] + [s[|s| - 1]];
      CountOf(s[..|s| - 1], x) + (if s[|s| - 1] == x then 1 else 0)
  }

  /** The root hindemith_classification takes: that of the first pair of
      greatest strength, strength 0 included. */
  function ClassificationRoot(chord: seq<int>): int
    requires |chord| >= 2
  {
    CombinationsCount(chord);
    var forces := Strengths(chord);
    RootForces(chord)[IndexOf(forces, MaxOf(forces))].0
  }

  /** hindemith_classification(chord): max() of the strengths raises
      ValueError below two notes; rootless chords (by no_root as written)
      are group V, or VI with a tritone; chords with a root and a tritone
      are IV with a minor second or major seventh, else II by the tritones
      and seconds; chords without a tritone are III with a second or
      seventh, else I; the suffix .1 or a marks a root in the bass. With one
      tritone and no second or seventh no label is assigned and the return
      raises UnboundLocalError. Intervals are taken between the pitches as
      given, reduced as abs(y - x) % 12. */
  function Classification(chord: seq<int>): (r: Result<string>)
    ensures r.Err? ==> r.error == ValueError || r.error == UnboundLocalError
  {
    ClassifyAs(chord, NoRoot(chord) == Ok(true))
  }

  /** hindemith_classification with the corrected rootless test. */
  function ClassificationCorrected(chord: seq<int>): (r: Result<string>)
    ensures r.Err? ==> r.error == ValueError || r.error == UnboundLocalError
  {
    ClassifyAs(chord, NoRootCorrected(chord) == Ok(true))
  }

  /** hindemith_classification given the verdict of its rootless test. */
  function ClassifyAs(chord: seq<int>, rootless: bool): (r: Result<string>)
    ensures r.Err? ==> r.error == ValueError || r.error == UnboundLocalError
  {
    if |chord| < 2 then Err(ValueError)
    else
      var intervals := PairIntervals(chord);
      LabelOf(rootless, intervals, CountOf(intervals, 6), ClassificationRoot(chord) == chord[0])
  }

  /** The label table of hindemith_classification, given whether the chord
      is rootless, its pair intervals, its number of tritones and whether the
      root is the bass. */
  function LabelOf(rootless: bool, intervals: seq<int>, tritones: nat, bass: bool): (r: Result<string>)
    requires tritones >= 1 <==> 6 in intervals
    ensures r.Err? ==> r.error == UnboundLocalError
    ensures r.Ok? ==> r.value in Labels
    ensures r.Ok? ==> (r.value in TritoneLabels <==> 6 in intervals)
    ensures r.Ok? && r.value in BassLabels ==> bass && !rootless
    ensures r.Ok? && r.value in UpperLabels ==> !bass && !rootless
  {
    if rootless then
      Ok(if 6 in intervals then "VI" else "V")
    else if 6 in intervals then
      if 1 in intervals || 11 in intervals then Ok(if bass then "IV.1" else "IV.2")
      else if 10 in intervals && 2 !in intervals && tritones == 1 then Ok(if bass then "IIa" else "IIb.2")
      else if (10 in intervals || 2 in intervals) && tritones == 1 then Ok(if bass then "IIb.1" else "IIb.2")
      else if tritones >= 2 then Ok("IIb.3")
      else Err(UnboundLocalError)
    else if 1 in intervals || 2 in intervals || 10 in intervals || 11 in intervals then
      Ok(if bass then "III.1" else "III.2")
    else Ok(if bass then "I.1" else "I.2")
  }

  /** The labels of Hindemith's table that hindemith_classification uses. */
  const Labels: set<string> :=
    {"I.1", "I.2", "IIa", "IIb.1", "IIb.2", "IIb.3", "III.1", "III.2", "IV.1", "IV.2", "V", "VI"}

  /** The labels of chords containing a tritone (Hindemith's group B). */
  const TritoneLabels: set<string> := {"IIa", "IIb.1", "IIb.2", "IIb.3", "IV.1", "IV.2", "VI"}

  /** The labels that mark the root in the bass. */
  const BassLabels: set<string> := {"I.1", "IIa", "IIb.1", "III.1", "IV.1"}

  /** The labels that mark a root above the bass. */
  const UpperLabels: set<string> := {"I.2", "III.2", "IV.2"}

  /** Every label is one of Hindemith's, and below two notes max() raises. */
  lemma ClassificationLabels(chord: seq<int>)
    ensures Classification(chord) == Err(ValueError) <==> |chord| < 2
    ensures Classification(chord).Ok? ==> Classification(chord).value in Labels
    ensures ClassificationCorrected(chord) == Err(ValueError) <==> |chord| < 2
    ensures ClassificationCorrected(chord).Ok? ==> ClassificationCorrected(chord).value in Labels
  {
  }

  /** No label is assigned exactly to chords with a root, a single tritone
      and no second or seventh. */
  lemma ClassificationUnassigned(chord: seq<int>)
    ensures Classification(chord) == Err(UnboundLocalError) <==>
      (|chord| >= 2 && NoRoot(chord) == Ok(false) && CountOf(PairIntervals(chord), 6) == 1 &&
       forall x :: x in {1, 2, 10, 11} ==> x !in PairIntervals(chord))
    ensures ClassificationCorrected(chord) == Err(UnboundLocalError) <==>
      (|chord| >= 2 && NoRootCorrected(chord) == Ok(false) && CountOf(PairIntervals(chord), 6) == 1 &&
       forall x :: x in {1, 2, 10, 11} ==> x !in PairIntervals(chord))
  {
    LabelUnassigned(chord, NoRoot(chord) == Ok(true));
    LabelUnassigned(chord, NoRootCorrected(chord) == Ok(true));
  }

  /** The unassigned case for either rootless verdict. */
  lemma LabelUnassigned(chord: seq<int>, rootless: bool)
    ensures ClassifyAs(chord, rootless) == Err(UnboundLocalError) <==>
      (|chord| >= 2 && !rootless && CountOf(PairIntervals(chord), 6) == 1 &&
       forall x :: x in {1, 2, 10, 11} ==> x !in PairIntervals(chord))
  {
  }

  /** The label is in group B exactly when the chord holds a tritone. */
  lemma ClassificationTritone(chord: seq<int>)
    ensures Classification(chord).Ok? ==>
      (Classification(chord).value in TritoneLabels <==> 6 in PairIntervals(chord))
    ensures ClassificationCorrected(chord).Ok? ==>
      (ClassificationCorrected(chord).value in TritoneLabels <==> 6 in PairIntervals(chord))
  {
  }

  /** Chords no_root calls rootless are V, or VI when they hold a tritone. */
  lemma ClassificationRootless(chord: seq<int>)
    requires |chord| >= 2 && NoRoot(chord) == Ok(true)
    ensures Classification(chord) == Ok(if PairAt(chord, 6) then "VI" else "V")
  {
    PairIntervalsMembers(chord, 6);
  }

  /** The same for the chords the corrected test calls rootless. */
  lemma ClassificationRootlessCorrected(chord: seq<int>)
    requires |chord| >= 2 && NoRootCorrected(chord) == Ok(true)
    ensures ClassificationCorrected(chord) == Ok(if PairAt(chord, 6) then "VI" else "V")
  {
    PairIntervalsMembers(chord, 6);
  }

  /** A root-in-bass label means the root is the first note, and an
      upper-root label means it is not. */
  lemma ClassificationBass(chord: seq<int>)
    ensures Classification(chord).Ok? && Classification(chord).value in BassLabels ==>
      ClassificationRoot(chord) == chord[0]
    ensures Classification(chord).Ok? && Classification(chord).value in UpperLabels ==>
      ClassificationRoot(chord) != chord[0]
    ensures ClassificationCorrected(chord).Ok? && ClassificationCorrected(chord).value in BassLabels ==>
      ClassificationRoot(chord) == chord[0]
    ensures ClassificationCorrected(chord).Ok? && ClassificationCorrected(chord).value in UpperLabels ==>
      ClassificationRoot(chord) != chord[0]
  {
  }

  /** The classification root is the root find_root gives: that of the first
      pair of greatest strength. */
  lemma ClassificationRootIsFirstStrongest(chord: seq<int>)
    requires |chord| >= 2
    ensures var s := Strengths(chord); var pairs := Combinations2(chord);
      |s| >= 1 && var k := IndexOf(s, MaxOf(s));
      ClassificationRoot(chord) == RootInterval(pairs[k].0, pairs[k].1)
  {
    CombinationsCount(chord);
  }

  /** Two pitches are a tritone apart exactly when their pitch classes
      are. */
  lemma TritonePair(x: int, y: int)
    ensures Abs(y - x) % 12 == 6 <==> Abs(y % 12 - x % 12) % 12 == 6
  {
    var d := y % 12 - x % 12;
    assert (y - x) % 12 == d % 12 by {
      ModAddMultiple(d, 12, y / 12 - x / 12);
      assert y - x == d + 12 * (y / 12 - x / 12);
    }
    NegMod12(y - x);
    NegMod12(d);
  }

  /** A chord holds a tritone between its pitches exactly when it holds one
      between their pitch classes, so the classification and no_root agree
      on what a tritone is. */
  lemma TritoneOfPitchClasses(chord: seq<int>)
    ensures PairAt(chord, 6) <==> PairAt(PitchClasses(chord), 6)
  {
    if PairAt(chord, 6) {
      TritoneToClasses(chord);
    }
    if PairAt(PitchClasses(chord), 6) {
      TritoneFromClasses(chord);
    }
  }

  /** A tritone between pitches is one between their pitch classes. */
  lemma TritoneToClasses(chord: seq<int>)
    requires PairAt(chord, 6)
    ensures PairAt(PitchClasses(chord), 6)
  {
    var pcs := PitchClasses(chord);
    var i, j :| 0 <= i < j < |chord| && Abs(chord[j] - chord[i]) % 12 == 6;
    TritonePair(chord[i], chord[j]);
    assert pcs[i] == chord[i] % 12 && pcs[j] == chord[j] % 12;
    assert Abs(pcs[j] - pcs[i]) % 12 == 6;
  }

  /** A tritone between pitch classes is one between the pitches. */
  lemma TritoneFromClasses(chord: seq<int>)
    requires PairAt(PitchClasses(chord), 6)
    ensures PairAt(chord, 6)
  {
    var pcs := PitchClasses(chord);
    var i, j :| 0 <= i < j < |pcs| && Abs(pcs[j] - pcs[i]) % 12 == 6;
    TritonePair(chord[i], chord[j]);
    assert pcs[i] == chord[i] % 12 && pcs[j] == chord[j] % 12;
    assert Abs(chord[j] - chord[i]) % 12 == 6;
  }
}
