/** The pitch and pitch-class helpers that the three copies of basic_tools
    (build/lib/comptools/basic_tools.py, comptools/basic_tools.py and
    basic_tools.py) define with the same code. Pitches are integers (MIDI
    numbers), pitch classes their residues modulo 12. */
module PitchCore {
  import opened PyBase
  import opened Arith

  // ---------------------------------------------------------------------
  // interval classes and the interval vector
  // ---------------------------------------------------------------------

  /** interval_class: the distance of two pitches folded into 0..6. It is
      the smaller of the two directed distances modulo 12. */
  function IntervalClass(pitch1: int, pitch2: int): (r: int)
    ensures 0 <= r <= 6
    ensures r == if (pitch1 - pitch2) % 12 <= (pitch2 - pitch1) % 12 then (pitch1 - pitch2) % 12
                 else (pitch2 - pitch1) % 12
  {
    NegMod12(pitch1 - pitch2);
    var d := Abs(pitch1 - pitch2) % 12;
    if d > 6 then 12 - d else d
  }

  /** The residue of -x is 12 minus that of x, or 0. */
  lemma NegMod12(x: int)
    ensures (-x) % 12 == if x % 12 == 0 then 0 else 12 - x % 12
  {
    var q := x / 12;
    if x % 12 != 0 {
      ModUnique(-x, 12, -q - 1, 12 - x % 12);
    } else {
      ModUnique(-x, 12, -q, 0);
    }
  }

  /** The interval class does not depend on the order of the pair. */
  lemma IntervalClassSymmetric(pitch1: int, pitch2: int)
    ensures IntervalClass(pitch1, pitch2) == IntervalClass(pitch2, pitch1)
  {
  }

  /** Nor on the octave of either pitch. */
  lemma IntervalClassOctave(pitch1: int, pitch2: int, k: int)
    ensures IntervalClass(pitch1 + 12 * k, pitch2) == IntervalClass(pitch1, pitch2)
  {
    ModAddMultiple(pitch1 - pitch2, 12, k);
    ModAddMultiple(pitch2 - pitch1, 12, -k);
    assert pitch1 + 12 * k - pitch2 == pitch1 - pitch2 + 12 * k;
    assert pitch2 - (pitch1 + 12 * k) == pitch2 - pitch1 + 12 * (-k);
  }

  /** The slot `interval_class - 1` of interval_vector, with Python's
      index -1 naming the last slot: a unison or octave lands in slot 5. */
  function Slot(ic: int): (j: int)
    requires 0 <= ic <= 6
    ensures 0 <= j < 6
  {
    if ic - 1 < 0 then ic - 1 + 6 else ic - 1
  }

  function Bump(v: seq<int>, j: int): (r: seq<int>)
    requires 0 <= j < |v|
    ensures |r| == |v|
  {
    v[j := v[j] + 1]
  }

  /** The counter after row i of the nested loop has reached column k. */
  function RowCounts(v: seq<int>, p: seq<int>, i: nat, k: nat): (r: seq<int>)
    requires |v| == 6 && i < k <= |p|
    ensures |r| == 6
    decreases k
  {
    if k == i + 1 then v
    else Bump(RowCounts(v, p, i, k - 1), Slot(IntervalClass(p[i], p[k - 1])))
  }

  /** The counter after the first i rows. */
  function Counts(p: seq<int>, i: nat): (r: seq<int>)
    requires i <= |p|
    ensures |r| == 6
  {
    if i == 0 then [0, 0, 0, 0, 0, 0] else RowCounts(Counts(p, i - 1), p, i - 1, |p|)
  }

  /** What interval_vector returns. */
  function IntervalVectorOf(p: seq<int>): (r: seq<int>)
    ensures |r| == 6
  {
    Counts(p, |p|)
  }

  lemma {:induction false} RowCountsSum(v: seq<int>, p: seq<int>, i: nat, k: nat)
    requires |v| == 6 && i < k <= |p|
    ensures Sum(RowCounts(v, p, i, k)) == Sum(v) + (k - i - 1)
    ensures (forall j :: 0 <= j < 6 ==> v[j] >= 0) ==> forall j :: 0 <= j < 6 ==> RowCounts(v, p, i, k)[j] >= 0
    decreases k
  {
    if k > i + 1 {
      RowCountsSum(v, p, i, k - 1);
      var prev := RowCounts(v, p, i, k - 1);
      var j := Slot(IntervalClass(p[i], p[k - 1]));
      SumUpdate(prev, j, prev[j] + 1);
    }
  }

  /** The number of pairs (r, k) with r < i and r < k < n. */
  function PairsBefore(i: nat, n: int): int
  {
    if i == 0 then 0 else PairsBefore(i - 1, n) + (n - i)
  }

  lemma {:induction false} PairsBeforeIs(i: nat, n: int)
    ensures 2 * PairsBefore(i, n) == i * (2 * n - i - 1)
  {
    if i > 0 {
      PairsBeforeIs(i - 1, n);
      PairCountStep(i, n);
    }
  }

  lemma {:induction false} SumZeros(n: nat)
    ensures Sum(seq(n, _ => 0)) == 0
  {
    if n > 0 {
      assert seq(n, _ => 0)[..n - 1] == seq(n - 1, _ => 0);
      SumZeros(n - 1);
    }
  }

  lemma PairCountStep(i: int, n: int)
    ensures (i - 1) * (2 * n - i) + 2 * (n - i) == i * (2 * n - i - 1)
  {
    assert (i - 1) * (2 * n - i) == i * (2 * n - i) - (2 * n - i);
    assert i * (2 * n - i - 1) == i * (2 * n - i) - i;
  }

  lemma {:induction false} CountsSum(p: seq<int>, i: nat)
    requires i <= |p|
    ensures Sum(Counts(p, i)) == PairsBefore(i, |p|)
    ensures forall j :: 0 <= j < 6 ==> Counts(p, i)[j] >= 0
  {
    if i == 0 {
      SumZeros(6);
      assert seq(6, _ => 0) == [0, 0, 0, 0, 0, 0];
    } else {
      CountsSum(p, i - 1);
      RowCountsSum(Counts(p, i - 1), p, i - 1, |p|);
    }
  }

  /** interval_vector counts every unordered pair once: its six slots hold
      n(n-1)/2 in total, none negative. */
  lemma IntervalVectorTotal(p: seq<int>)
    ensures Sum(IntervalVectorOf(p)) == |p| * (|p| - 1) / 2
    ensures 2 * Sum(IntervalVectorOf(p)) == |p| * (|p| - 1)
    ensures forall j :: 0 <= j < 6 ==> IntervalVectorOf(p)[j] >= 0
  {
    CountsSum(p, |p|);
    PairsBeforeIs(|p|, |p|);
    assert |p| * (2 * |p| - |p| - 1) == |p| * (|p| - 1);
  }

  /** A unison (or an octave) is counted in the last slot. */
  lemma UnisonInLastSlot(x: int, k: int)
    ensures IntervalVectorOf([x, x + 12 * k]) == [0, 0, 0, 0, 0, 1]
  {
    IntervalClassOctave(x, x, k);
    IntervalClassSymmetric(x + 12 * k, x);
    var p := [x, x + 12 * k];
    assert IntervalClass(p[0], p[1]) == 0;
    assert Counts(p, 1) == RowCounts([0, 0, 0, 0, 0, 0], p, 0, 2);
    assert Counts(p, 2) == Counts(p, 1);
  }

  /** interval_vector: the nested loops over the pairs i < k, each adding one
      to the slot of its interval class. */
  method IntervalVector(pitches: seq<int>) returns (r: seq<int>)
    ensures r == IntervalVectorOf(pitches)
  {
    var vec := new int[6](_ => 0);
    assert vec[..] == [0, 0, 0, 0, 0, 0];
    for i := 0 to |pitches|
      invariant vec[..] == Counts(pitches, i)
    {
      CountRow(vec, pitches, i);
    }
    r := vec[..];
  }

  /** The inner loop of interval_vector: row i, the pairs (i, k) for k > i. */
  method CountRow(vec: array<int>, pitches: seq<int>, i: nat)
    requires vec.Length == 6 && i < |pitches|
    modifies vec
    ensures vec[..] == RowCounts(old(vec[..]), pitches, i, |pitches|)
  {
    ghost var v := vec[..];
    for k := i + 1 to |pitches|
      invariant vec[..] == RowCounts(v, pitches, i, k)
    {
      var index := IntervalClass(pitches[i], pitches[k]) - 1;
      if index < 0 {
        index := index + 6;
      }
      assert index == Slot(IntervalClass(pitches[i], pitches[k]));
      vec[index] := vec[index] + 1;
    }
  }

  // ---------------------------------------------------------------------
  // rotations
  // ---------------------------------------------------------------------

  /** The bound a Python slice s[k:] or s[:k] uses for an index k on a list
      of length n: negative indices count from the end, and both are clamped. */
  function SliceIndex(k: int, n: nat): (r: nat)
    ensures r <= n
    ensures 0 <= k <= n ==> r == k
  {
    if k < 0 then (if n + k < 0 then 0 else n + k) else if k > n then n else k
  }

  /** rotate_sequence: s[k:] + s[:k]. */
  function RotateSequence(s: seq<int>, k: int): (r: seq<int>)
    ensures |r| == |s|
    ensures multiset(r) == multiset(s)
  {
    var c := SliceIndex(k, |s|);
    assert s == s[..c] + s[c..];
    s[c..] + s[..c]
  }

  /** Element i of a rotation by k is element i + k of s, read cyclically. */
  lemma RotateIndex(s: seq<int>, k: int, i: int)
    requires 0 <= i < |s|
    ensures RotateSequence(s, k)[i] == s[(i + SliceIndex(k, |s|)) % |s|]
  {
    var c := SliceIndex(k, |s|);
    Wrap(i + c, |s|);
    var r := s[c..] + s[..c];
    if i < |s| - c {
      assert r[i] == s[c..][i];
    } else {
      assert r[i] == s[..c][i - (|s| - c)];
    }
  }

  /** Two rotations by a and by b make one rotation by a + b. */
  lemma RotateRotate(s: seq<int>, a: nat, b: nat)
    requires a <= |s| && b <= |s| && |s| >= 1
    ensures RotateSequence(RotateSequence(s, a), b) == RotateSequence(s, (a + b) % |s|)
  {
    var n := |s|;
    var r1 := RotateSequence(s, a);
    var r2 := RotateSequence(r1, b);
    var r3 := RotateSequence(s, (a + b) % n);
    forall i | 0 <= i < n ensures r2[i] == r3[i] {
      RotateRotateAt(s, a, b, i);
    }
  }

  lemma RotateRotateAt(s: seq<int>, a: nat, b: nat, i: nat)
    requires a <= |s| && b <= |s| && i < |s|
    ensures RotateSequence(RotateSequence(s, a), b)[i] == RotateSequence(s, (a + b) % |s|)[i]
  {
    var n := |s|;
    IndexSum(i, a, b, n);
    RotateIndex(RotateSequence(s, a), b, i);
    RotateIndex(s, a, (i + b) % n);
    RotateIndex(s, (a + b) % n, i);
  }

  lemma IndexSum(i: int, a: int, b: int, n: int)
    requires 0 <= i < n && 0 <= a <= n && 0 <= b <= n
    ensures ((i + b) % n + a) % n == (i + (a + b) % n) % n
  {
    var j := (i + b) % n;
    Wrap(i + b, n);
    Wrap(a + b, n);
    Wrap(j + a, n);
    Wrap(i + (a + b) % n, n);
  }

  /** x mod n for 0 <= x < 3n, without division. */
  lemma Wrap(x: int, n: int)
    requires n >= 1 && 0 <= x < 3 * n
    ensures x % n == if x < n then x else if x < 2 * n then x - n else x - 2 * n
  {
    if x < n {
      ModUnique(x, n, 0, x);
    } else if x < 2 * n {
      ModUnique(x, n, 1, x - n);
    } else {
      ModUnique(x, n, 2, x - 2 * n);
    }
  }

  /** A rotation of a list by its own length is the list itself. */
  lemma RotateFull(s: seq<int>)
    ensures RotateSequence(s, 0) == s && RotateSequence(s, |s|) == s
  {
    assert s[0..] == s && s[..|s|] == s;
  }

  /** all_rotations: the rotations by 0, 1, ..., len(s) - 1, appended in a loop. */
  method AllRotations(s: seq<int>) returns (r: seq<seq<int>>)
    ensures |r| == |s|
    ensures forall i :: 0 <= i < |s| ==> r[i] == RotateSequence(s, i)
  {
    r := [];
    for i := 0 to |s|
      invariant |r| == i
      invariant forall j :: 0 <= j < i ==> r[j] == RotateSequence(s, j)
    {
      r := r + [RotateSequence(s, i)];
    }
  }

  // ---------------------------------------------------------------------
  // normal form
  // ---------------------------------------------------------------------

  /** most_compact from index i down to 1, then the comparison of the first
      elements; an index outside either list is Python's IndexError. */
  function CompactFrom(a: seq<int>, b: seq<int>, i: int): (r: Result<seq<int>>)
    requires i < |a|
    ensures r.Ok? ==> r.value == a || r.value == b
    decreases i
  {
    if i <= 0 then
      if |a| == 0 || |b| == 0 then Err(IndexError)
      else if a[0] < b[0] then Ok(a) else Ok(b)
    else if i >= |b| then Err(IndexError)
    else
      var aDiff, bDiff := (a[i] - a[0]) % 12, (b[i] - b[0]) % 12;
      if aDiff < bDiff then Ok(a)
      else if aDiff > bDiff then Ok(b)
      else CompactFrom(a, b, i - 1)
  }

  /** What most_compact(a, b) returns or raises. */
  function MostCompactOf(a: seq<int>, b: seq<int>): (r: Result<seq<int>>)
    ensures r.Ok? ==> r.value == a || r.value == b
  {
    CompactFrom(a, b, |a| - 1)
  }

  /** The spans of a, measured from its first element modulo 12, read from
      the last element back to the second: the key most_compact compares. */
  function Spans(a: seq<int>, i: int): (r: seq<int>)
    requires i < |a|
    ensures |r| == if i <= 0 then 0 else i
    decreases i
  {
    if i <= 0 then [] else [(a[i] - a[0]) % 12] + Spans(a, i - 1)
  }

  /** most_compact picks the list whose spans are lexicographically smaller,
      and on equal spans the one with the smaller first element. */
  lemma {:induction false} CompactFromLex(a: seq<int>, b: seq<int>, i: int)
    requires |a| == |b| >= 1 && i < |a|
    ensures Spans(a, i) != Spans(b, i) ==>
      CompactFrom(a, b, i) == Ok(if LexLess(Spans(a, i), Spans(b, i)) then a else b)
    ensures Spans(a, i) == Spans(b, i) ==>
      CompactFrom(a, b, i) == Ok(if a[0] < b[0] then a else b)
    decreases i
  {
    if i > 0 {
      CompactFromLex(a, b, i - 1);
      var sa, sb := Spans(a, i), Spans(b, i);
      assert sa[1..] == Spans(a, i - 1) && sb[1..] == Spans(b, i - 1);
    }
  }

  lemma MostCompactLex(a: seq<int>, b: seq<int>)
    requires |a| == |b| >= 1
    ensures var sa, sb := Spans(a, |a| - 1), Spans(b, |b| - 1);
      MostCompactOf(a, b) == Ok(if sa == sb then (if a[0] < b[0] then a else b)
                                else if LexLess(sa, sb) then a else b)
  {
    CompactFromLex(a, b, |a| - 1);
  }

  /** most_compact: the loop from the last index down to 1 with its early
      returns. */
  method MostCompact(a: seq<int>, b: seq<int>) returns (r: Result<seq<int>>)
    ensures r == MostCompactOf(a, b)
  {
    var i := |a| - 1;
    while i > 0
      invariant i <= |a| - 1
      invariant CompactFrom(a, b, i) == MostCompactOf(a, b)
      decreases i
    {
      if i >= |b| {
        return Err(IndexError);
      }
      var aDiff := (a[i] - a[0]) % 12;
      var bDiff := (b[i] - b[0]) % 12;
      if aDiff < bDiff {
        return Ok(a);
      } else if aDiff > bDiff {
        return Ok(b);
      }
      i := i - 1;
    }
    if |a| == 0 || |b| == 0 {
      return Err(IndexError);
    }
    if a[0] < b[0] {
      return Ok(a);
    }
    return Ok(b);
  }

  /** Two lists of the same non-zero length never make most_compact raise. */
  lemma MostCompactOk(a: seq<int>, b: seq<int>)
    requires |a| == |b| >= 1
    ensures MostCompactOf(a, b).Ok?
  {
    MostCompactLex(a, b);
  }

  /** The best rotation after the rotations 1 .. i - 1 of u were compared. */
  function NormalFrom(u: seq<int>, i: nat): (r: seq<int>)
    requires |u| >= 1 && 1 <= i <= |u|
    ensures exists k :: 0 <= k < |u| && r == RotateSequence(u, k)
  {
    if i == 1 then
      RotateFull(u);
      u
    else
      var prev := NormalFrom(u, i - 1);
      var rot := RotateSequence(u, i - 1);
      MostCompactOk(prev, rot);
      MostCompactOf(prev, rot).value
  }

  /** What normal_form returns: a rotation of the sorted distinct pitch classes. */
  function NormalFormOf(pcset: seq<int>): (r: seq<int>)
    ensures multiset(r) == multiset(Distinct(pcset))
    ensures Elems(r) == Elems(pcset)
  {
    var u := Distinct(pcset);
    if u == [] then []
    else
      var r := NormalFrom(u, |u|);
      assert Elems(r) == Elems(u) by {
        assert forall x :: x in r <==> x in multiset(r);
        assert forall x :: x in u <==> x in multiset(u);
      }
      r
  }

  /** normal_form returns one of the rotations of sorted(set(pcset)). */
  lemma NormalFormIsRotation(pcset: seq<int>)
    requires pcset != []
    ensures exists k :: 0 <= k < |Distinct(pcset)| && NormalFormOf(pcset) == RotateSequence(Distinct(pcset), k)
  {
    var u := Distinct(pcset);
    assert pcset[0] in Elems(u);
    assert NormalFormOf(pcset) == NormalFrom(u, |u|);
  }

  /** normal_form: the loop that keeps the most compact rotation so far. */
  method NormalForm(pcset: seq<int>) returns (best: seq<int>)
    ensures best == NormalFormOf(pcset)
  {
    var uniques := Distinct(pcset);
    best := uniques;
    if |uniques| == 0 {
      return;
    }
    RotateFull(uniques);
    for i := 1 to |uniques|
      invariant best == NormalFrom(uniques, i)
    {
      var rot := RotateSequence(uniques, i);
      MostCompactOk(best, rot);
      var c := MostCompact(best, rot);
      best := c.value;
    }
  }

  // ---------------------------------------------------------------------
  // interval sequences
  // ---------------------------------------------------------------------

  /** start_sequence_pitches: the running sums of the intervals from the
      first pitch. */
  function StartSequenceOf(first: int, intervals: seq<int>): (r: seq<int>)
    ensures |r| == |intervals| + 1 && r[0] == first
    ensures forall i :: 0 <= i < |intervals| ==> r[i + 1] == r[i] + intervals[i]
  {
    if intervals == [] then [first]
    else
      var front := StartSequenceOf(first, intervals[..|intervals| - 1]);
      front + [front[|front| - 1] + intervals[|intervals| - 1]]
  }

  method StartSequence(first: int, intervals: seq<int>) returns (r: seq<int>)
    ensures r == StartSequenceOf(first, intervals)
  {
    r := [first];
    for i := 0 to |intervals|
      invariant r == StartSequenceOf(first, intervals[..i])
    {
      assert intervals[..i + 1][..i] == intervals[..i];
      r := r + [r[|r| - 1] + intervals[i]];
    }
    assert intervals[..|intervals|] == intervals;
  }

  /** interval_sequence_pitches: the successive differences. */
  function IntervalSequence(p: seq<int>): (r: seq<int>)
    ensures |r| == if |p| == 0 then 0 else |p| - 1
    ensures forall i :: 0 <= i < |r| ==> r[i] == p[i + 1] - p[i]
  {
    if |p| <= 1 then [] else seq(|p| - 1, i requires 0 <= i < |p| - 1 => p[i + 1] - p[i])
  }

  /** Running sums invert differences: start_sequence_pitches(p[0],
      interval_sequence_pitches(p)) == p. */
  lemma StartOfIntervals(p: seq<int>)
    requires |p| >= 1
    ensures StartSequenceOf(p[0], IntervalSequence(p)) == p
  {
    var r := StartSequenceOf(p[0], IntervalSequence(p));
    forall i | 0 <= i < |p| ensures r[i] == p[i] {
      StartAt(p, i);
    }
  }

  lemma {:induction false} StartAt(p: seq<int>, i: nat)
    requires i < |p|
    ensures StartSequenceOf(p[0], IntervalSequence(p))[i] == p[i]
  {
    if i > 0 {
      StartAt(p, i - 1);
    }
  }

  /** Differences invert running sums. */
  lemma IntervalsOfStart(first: int, intervals: seq<int>)
    ensures IntervalSequence(StartSequenceOf(first, intervals)) == intervals
  {
    var r := StartSequenceOf(first, intervals);
    var d := IntervalSequence(r);
    assert |d| == |intervals|;
    forall i | 0 <= i < |d| ensures d[i] == intervals[i] {
      assert d[i] == r[i + 1] - r[i];
    }
  }

  // ---------------------------------------------------------------------
  // the helpers shared by comptools/basic_tools.py and basic_tools.py
  // ---------------------------------------------------------------------

  /** pitches_to_pitch_classes. */
  function PitchesToPitchClasses(pitches: seq<int>): (r: seq<int>)
    ensures |r| == |pitches|
    ensures forall i :: 0 <= i < |r| ==> 0 <= r[i] < 12 && (r[i] - pitches[i]) % 12 == 0
  {
    seq(|pitches|, i requires 0 <= i < |pitches| => pitches[i] % 12)
  }

  /** transposition_pitch_classes. */
  function TranspositionPitchClasses(pcs: seq<int>, t: int): (r: seq<int>)
    ensures |r| == |pcs|
    ensures forall i :: 0 <= i < |r| ==> 0 <= r[i] < 12
  {
    seq(|pcs|, i requires 0 <= i < |pcs| => (pcs[i] + t) % 12)
  }

  /** transposition_pitches: every pitch moved by t. */
  function TranspositionPitches(pitches: seq<int>, t: int): (r: seq<int>)
    ensures |r| == |pitches| && forall i :: 0 <= i < |r| ==> r[i] == pitches[i] + t
  {
    seq(|pitches|, i requires 0 <= i < |pitches| => pitches[i] + t)
  }

  /** Transposing pitch classes is moving the pitches and reducing them. */
  lemma TranspositionReduces(pcs: seq<int>, t: int)
    ensures TranspositionPitchClasses(pcs, t) == PitchesToPitchClasses(TranspositionPitches(pcs, t))
  {
  }

  /** Pitch classes are their own classes. */
  lemma ClassesReduceToThemselves(pcs: seq<int>)
    requires forall i :: 0 <= i < |pcs| ==> 0 <= pcs[i] < 12
    ensures PitchesToPitchClasses(pcs) == pcs && TranspositionPitchClasses(pcs, 0) == pcs
  {
  }

  /** `[(12 - pc) % 12 for pc in pcs]`: the inversion of pitch classes
      around 0. */
  function InvertedClasses(pcs: seq<int>): (r: seq<int>)
    ensures |r| == |pcs| && forall i :: 0 <= i < |r| ==> 0 <= r[i] < 12
  {
    seq(|pcs|, i requires 0 <= i < |pcs| => (12 - pcs[i]) % 12)
  }

  /** On pitch classes that inversion is an involution. */
  lemma InvertedClassesInvolution(pcs: seq<int>)
    requires forall i :: 0 <= i < |pcs| ==> 0 <= pcs[i] < 12
    ensures InvertedClasses(InvertedClasses(pcs)) == pcs
  {
  }

  /** T_b after T_a is T_(a + b). */
  lemma TranspositionCompose(pcs: seq<int>, a: int, b: int)
    ensures TranspositionPitchClasses(TranspositionPitchClasses(pcs, a), b) == TranspositionPitchClasses(pcs, a + b)
  {
    forall i | 0 <= i < |pcs|
      ensures ((pcs[i] + a) % 12 + b) % 12 == (pcs[i] + a + b) % 12
    {
      ModShift(pcs[i] + a, b);
    }
  }

  lemma ModShift(x: int, b: int)
    ensures (x % 12 + b) % 12 == (x + b) % 12
  {
    ModAddMultiple(x % 12 + b, 12, x / 12);
  }

  /** retrograde in comptools/basic_tools.py and basic_tools.py:
      `sequence[-1:]`, the one-element list of the last element. */
  function RetrogradeLast(s: seq<int>): (r: seq<int>)
    ensures |r| == if s == [] then 0 else 1
    ensures s != [] ==> r[0] == s[|s| - 1]
  {
    if s == [] then [] else s[|s| - 1..]
  }

  /** list(reversed(s)). */
  function Reverse(s: seq<int>): (r: seq<int>)
    ensures |r| == |s|
    ensures forall i :: 0 <= i < |s| ==> r[i] == s[|s| - 1 - i]
  {
    seq(|s|, i requires 0 <= i < |s| => s[|s| - 1 - i])
  }

  lemma ReverseInvolution(s: seq<int>)
    ensures Reverse(Reverse(s)) == s
  {
  }

  /** The list [0, 1] shows that `sequence[-1:]` is not the retrograde. */
  lemma RetrogradeLastIsNotReverse()
    ensures RetrogradeLast([0, 1]) == [1] && Reverse([0, 1]) == [1, 0]
  {
  }

  /** `[-x for x in s]`. */
  function Negated(s: seq<int>): (r: seq<int>)
    ensures |r| == |s| && forall i :: 0 <= i < |s| ==> r[i] == -s[i]
  {
    seq(|s|, i requires 0 <= i < |s| => -s[i])
  }

  lemma NegatedTwice(s: seq<int>)
    ensures Negated(Negated(s)) == s
  {
  }

  /** inversion_pitches: keeps the first pitch and negates every interval;
      an empty list raises IndexError at `pitch_sequence[0]`. */
  function InversionPitches(p: seq<int>): (r: Result<seq<int>>)
    ensures p == [] <==> r.Err?
    ensures r.Ok? ==> |r.value| == |p| && r.value[0] == p[0]
  {
    if p == [] then Err(IndexError)
    else Ok(StartSequenceOf(p[0], Negated(IntervalSequence(p))))
  }

  /** The inversion negates every interval of the line. */
  lemma InversionNegatesIntervals(p: seq<int>)
    requires p != []
    ensures var ivs := IntervalSequence(InversionPitches(p).value);
      |ivs| == |p| - 1 && forall i :: 0 <= i < |ivs| ==> ivs[i] == -(p[i + 1] - p[i])
  {
    IntervalsOfStart(p[0], Negated(IntervalSequence(p)));
  }

  /** Inverting twice gives the line back. */
  lemma InversionInvolution(p: seq<int>)
    requires p != []
    ensures InversionPitches(InversionPitches(p).value) == Ok(p)
  {
    var ivs := IntervalSequence(p);
    var q := StartSequenceOf(p[0], Negated(ivs));
    assert InversionPitches(p) == Ok(q);
    IntervalsOfStart(p[0], Negated(ivs));
    NegatedTwice(ivs);
    assert InversionPitches(q) == Ok(StartSequenceOf(p[0], ivs));
    StartOfIntervals(p);
  }

  // ---------------------------------------------------------------------
  // repetitions and successor maps
  // ---------------------------------------------------------------------

  predicate NoAdjacentEqual(s: seq<int>)
  {
    forall i :: 0 <= i < |s| - 1 ==> s[i] != s[i + 1]
  }

  /** The list remove_reps builds: each run of equal neighbours kept once. */
  function Collapse(s: seq<int>): (r: seq<int>)
    requires |s| >= 1
    ensures |r| >= 1 && |r| <= |s|
    ensures r[0] == s[0] && r[|r| - 1] == s[|s| - 1]
    ensures NoAdjacentEqual(r)
    ensures Elems(r) == Elems(s)
  {
    if |s| == 1 then [s[0]]
    else
      var front := Collapse(s[..|s| - 1]);
      assert Elems(s) == Elems(s[..|s| - 1]) + {s[|s| - 1]} by {
        assert s == s[..|s| - 1] + [s[|s| - 1]];
      }
      if s[|s| - 1] == front[|front| - 1] then front else front + [s[|s| - 1]]
  }

  /** remove_reps, with the IndexError of `seq[0]` on an empty list. */
  function RemoveRepsOf(s: seq<int>): (r: Result<seq<int>>)
    ensures s == [] <==> r.Err?
  {
    if s == [] then Err(IndexError) else Ok(Collapse(s))
  }

  /** A list without equal neighbours is left as it is, so remove_reps is
      idempotent. */
  lemma {:induction false} CollapseKeeps(s: seq<int>)
    requires |s| >= 1 && NoAdjacentEqual(s)
    ensures Collapse(s) == s
  {
    if |s| > 1 {
      CollapseKeeps(s[..|s| - 1]);
    }
  }

  lemma RemoveRepsIdempotent(s: seq<int>)
    requires s != []
    ensures RemoveRepsOf(RemoveRepsOf(s).value) == RemoveRepsOf(s)
  {
    CollapseKeeps(Collapse(s));
  }

  method RemoveReps(s: seq<int>) returns (r: Result<seq<int>>)
    ensures r == RemoveRepsOf(s)
  {
    if s == [] {
      return Err(IndexError);
    }
    var result := [s[0]];
    for i := 1 to |s|
      invariant result == Collapse(s[..i])
    {
      assert s[..i + 1][..i] == s[..i];
      if s[i] != result[|result| - 1] {
        result := result + [s[i]];
      }
    }
    assert s[..|s|] == s;
    r := Ok(result);
  }

  /** The successor map after recording the pair (cur, nex). */
  function AddSuccessor(m: map<int, seq<int>>, cur: int, nex: int): map<int, seq<int>>
  {
    m[cur := (if cur in m then m[cur] else []) + [nex]]
  }

  /** What markov(seq) builds: every consecutive pair, in order. */
  function MarkovOf(s: seq<int>): map<int, seq<int>>
  {
    if |s| <= 1 then map[]
    else AddSuccessor(MarkovOf(s[..|s| - 1]), s[|s| - 2], s[|s| - 1])
  }

  /** The elements that follow occurrences of x in s, in order. */
  function Successors(s: seq<int>, x: int): seq<int>
  {
    if |s| <= 1 then [] else (if s[0] == x then [s[1]] else []) + Successors(s[1..], x)
  }

  lemma {:induction false} SuccessorsSnoc(s: seq<int>, x: int)
    requires |s| >= 2
    ensures Successors(s, x) == Successors(s[..|s| - 1], x) + (if s[|s| - 2] == x then [s[|s| - 1]] else [])
  {
    if |s| > 2 {
      SuccessorsSnoc(s[1..], x);
      assert s[1..][..|s| - 2] == s[..|s| - 1][1..];
    }
  }

  /** The keys of markov(seq) are the elements that have a successor, and
      each maps to the successors of its occurrences, in order. */
  lemma {:induction false} MarkovSuccessors(s: seq<int>, x: int)
    ensures x in MarkovOf(s) <==> x in s[..if |s| == 0 then 0 else |s| - 1]
    ensures x in MarkovOf(s) ==> MarkovOf(s)[x] == Successors(s, x)
    ensures x !in MarkovOf(s) ==> Successors(s, x) == []
  {
    if |s| >= 2 {
      MarkovSuccessors(s[..|s| - 1], x);
      SuccessorsSnoc(s, x);
      var n := |s|;
      assert s[..n - 1][..n - 2] == s[..n - 2];
      assert s[..n - 1] == s[..n - 2] + [s[n - 2]];
    } else if |s| == 1 {
      assert s[..0] == [];
    }
  }

  /** markov: the pairs of zip(seq[:-1], seq[1:]) appended to a
      defaultdict(list). */
  method Markov(s: seq<int>) returns (m: map<int, seq<int>>)
    ensures m == MarkovOf(s)
  {
    m := map[];
    if |s| <= 1 {
      return;
    }
    for i := 1 to |s|
      invariant m == MarkovOf(s[..i])
    {
      assert s[..i + 1][..i] == s[..i];
      var cur, nex := s[i - 1], s[i];
      if cur in m {
        m := m[cur := m[cur] + [nex]];
      } else {
        assert [] + [nex] == [nex];
        m := m[cur := [nex]];
      }
    }
    assert s[..|s|] == s;
  }

  /** markov(seq, no_reps=True): the successor map of remove_reps(seq). In it
      no element is its own successor. */
  function MarkovNoRepsOf(s: seq<int>): (r: Result<map<int, seq<int>>>)
    ensures s == [] <==> r.Err?
  {
    match RemoveRepsOf(s)
    case Err(e) => Err(e)
    case Ok(t) => Ok(MarkovOf(t))
  }

  lemma {:induction false} SuccessorsNoSelf(s: seq<int>, x: int)
    requires NoAdjacentEqual(s)
    ensures x !in Successors(s, x)
  {
    if |s| > 1 {
      SuccessorsNoSelf(s[1..], x);
    }
  }

  lemma MarkovNoSelfLoops(s: seq<int>, x: int)
    requires s != [] && x in MarkovNoRepsOf(s).value
    ensures x !in MarkovNoRepsOf(s).value[x]
  {
    var t := Collapse(s);
    MarkovSuccessors(t, x);
    SuccessorsNoSelf(t, x);
  }
}
