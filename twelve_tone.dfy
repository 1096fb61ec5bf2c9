/** The row tools of comptools/twelve_tone.py: trichord rotation, the search
    for a partition of twelve across several rows, Babbitt's order-number
    representation and the operations on it, dyad intervals and row
    partitioning. A row is a list of pitch classes; in the order-number
    representation it is a list of (order number, pitch class) pairs. */
module TwelveTone {
  import opened PyBase
  import opened PitchCore

  // ---------------------------------------------------------------------
  // morris_rot_trichord
  // ---------------------------------------------------------------------

  /** row[a:b] for 0 <= a <= b, clamped to the row like a Python slice. */
  function Chunk(row: seq<int>, a: nat, b: nat): (r: seq<int>)
    requires a <= b
  {
    var lo := if a <= |row| then a else |row|;
    var hi := if b <= |row| then b else |row|;
    row[lo..hi]
  }

  /** morris_rot_trichord(row): the trichords row[9:12], row[6:9], row[3:6],
      row[0:3], in that order. */
  function MorrisRotTrichord(row: seq<int>): (r: seq<int>)
    ensures |row| == 12 ==> |r| == 12 && r[0..3] == row[9..12] && r[3..6] == row[6..9] &&
                             r[6..9] == row[3..6] && r[9..12] == row[0..3]
  {
    Chunk(row, 9, 12) + Chunk(row, 6, 9) + Chunk(row, 3, 6) + Chunk(row, 0, 3)
  }

  /** Rotating the trichords of a twelve-tone row twice gives the row back. */
  lemma MorrisRotInvolution(row: seq<int>)
    requires |row| == 12
    ensures MorrisRotTrichord(MorrisRotTrichord(row)) == row
  {
    var r := MorrisRotTrichord(row);
    var rr := MorrisRotTrichord(r);
    forall i | 0 <= i < 12
      ensures rr[i] == row[i]
    {
      if i < 3 {
        assert rr[i] == r[9 + i];
      } else if i < 6 {
        assert rr[i] == r[6 + (i - 3)];
      } else if i < 9 {
        assert rr[i] == r[3 + (i - 6)];
      } else {
        assert rr[i] == r[i - 9];
      }
    }
  }

  /** The rotation keeps every pitch class of the row, as often as it occurs. */
  lemma MorrisRotPermutation(row: seq<int>)
    requires |row| == 12
    ensures multiset(MorrisRotTrichord(row)) == multiset(row)
  {
    assert row == row[0..3] + row[3..6] + row[6..9] + row[9..12];
  }

  // ---------------------------------------------------------------------
  // find_combs
  // ---------------------------------------------------------------------

  /** What find_combs returns: (False, message) for too few rows or a part
      larger than its row, (True, pieces, rests) when the pieces make up the
      twelve pitch classes, (False, rests) otherwise. */
  datatype Combs =
    | TooFewRows
    | PartTooBig
    | Found(pieces: seq<seq<int>>, rests: seq<seq<int>>)
    | NotFound(rests: seq<seq<int>>)

  /** list(range(12)). */
  function Iota12(): (r: seq<int>)
    ensures |r| == 12 && forall i :: 0 <= i < 12 ==> r[i] == i
  {
    seq(12, i => i)
  }

  /** rows[i][0:part[i]] for each part. */
  function Pieces(rows: seq<seq<int>>, part: seq<int>): (r: seq<seq<int>>)
    requires |part| <= |rows|
    ensures |r| == |part|
  {
    seq(|part|, i requires 0 <= i < |part| => rows[i][..SliceIndex(part[i], |rows[i]|)])
  }

  /** rows[i][part[i]:] for each part. */
  function Rests(rows: seq<seq<int>>, part: seq<int>): (r: seq<seq<int>>)
    requires |part| <= |rows|
    ensures |r| == |part|
  {
    seq(|part|, i requires 0 <= i < |part| => rows[i][SliceIndex(part[i], |rows[i]|)..])
  }

  /** Some part is longer than the row it is cut from. */
  predicate SomePartTooBig(rows: seq<seq<int>>, part: seq<int>)
    requires |part| <= |rows|
  {
    exists i :: 0 <= i < |part| && part[i] > |rows[i]|
  }

  /** find_combs(rows, part): cut row i at part[i] and test whether the
      pieces together are the twelve pitch classes; on success the rows
      beyond the parts join the rests untouched. */
  function FindCombs(rows: seq<seq<int>>, part: seq<int>): (r: Combs)
    ensures r == TooFewRows <==> |rows| < |part|
    ensures r == PartTooBig <==> |rows| >= |part| && SomePartTooBig(rows, part)
    ensures r.Found? ==> (|r.pieces| == |part| && |r.rests| == |rows| &&
                          (forall i :: 0 <= i < |part| ==> r.pieces[i] + r.rests[i] == rows[i]) &&
                          (forall i :: |part| <= i < |rows| ==> r.rests[i] == rows[i]))
    ensures r.NotFound? ==> (|r.rests| == |part| &&
                             forall i :: 0 <= i < |part| ==> |r.rests[i]| <= |rows[i]| && r.rests[i] == rows[i][|rows[i]| - |r.rests[i]|..])
  {
    if |rows| < |part| then TooFewRows
    else if SomePartTooBig(rows, part) then PartTooBig
    else
      var pieces := Pieces(rows, part);
      var rests := Rests(rows, part);
      assert forall i :: 0 <= i < |part| ==> pieces[i] + rests[i] == rows[i];
      if Sorted(Flatten(pieces)) == Iota12() then Found(pieces, rests + rows[|part|..])
      else NotFound(rests)
  }

  /** find_combs succeeds exactly when the rows are enough, no part is too
      big, and the pieces hold each of the twelve pitch classes once. */
  lemma FindCombsFound(rows: seq<seq<int>>, part: seq<int>)
    ensures FindCombs(rows, part).Found? <==>
              |rows| >= |part| && !SomePartTooBig(rows, part) &&
              multiset(Flatten(Pieces(rows, part))) == multiset(Iota12())
  {
    if |rows| >= |part| && !SomePartTooBig(rows, part) {
      var f := Flatten(Pieces(rows, part));
      FindCombsTest(rows, part);
      SortedIota();
      SortedEqIffPermutation(f, Iota12());
    }
  }

  lemma SortedIota()
    ensures Sorted(Iota12()) == Iota12()
  {
    IotaNonDecreasing(Iota12());
    SortedOfSorted(Iota12());
  }

  lemma IotaNonDecreasing(iota: seq<int>)
    requires |iota| == 12 && forall i :: 0 <= i < 12 ==> iota[i] == i
    ensures NonDecreasing(iota)
  {
  }

  /** Sorting a list that is already sorted leaves it as it is. */
  lemma SortedOfSorted(s: seq<int>)
    requires NonDecreasing(s)
    ensures Sorted(s) == s
  {
    SortedSpec(s);
    NonDecreasingUnique(Sorted(s), s);
  }

  /** Past the two early exits, find_combs succeeds on the sorted test. */
  lemma FindCombsTest(rows: seq<seq<int>>, part: seq<int>)
    requires |rows| >= |part| && !SomePartTooBig(rows, part)
    ensures FindCombs(rows, part).Found? <==> Sorted(Flatten(Pieces(rows, part))) == Iota12()
  {
  }

  /** With non-negative parts, a successful search has parts summing to 12. */
  lemma FoundPartSumsTo12(rows: seq<seq<int>>, part: seq<int>)
    requires forall i :: 0 <= i < |part| ==> part[i] >= 0
    requires FindCombs(rows, part).Found?
    ensures Sum(part) == 12
  {
    var pieces := Pieces(rows, part);
    FindCombsFound(rows, part);
    assert |Flatten(pieces)| == 12 by {
      assert |multiset(Flatten(pieces))| == |multiset(Iota12())|;
    }
    FlattenLength(pieces, part);
  }

  // ---------------------------------------------------------------------
  // the order-number representation
  // ---------------------------------------------------------------------

  /** order_rep(pcset): element i is the pair (i, pcset[i]). */
  function OrderRep(pcset: seq<int>): (r: seq<(int, int)>)
    ensures |r| == |pcset| && forall i :: 0 <= i < |r| ==> r[i].0 == i && r[i].1 == pcset[i]
  {
    seq(|pcset|, i requires 0 <= i < |pcset| => (i, pcset[i]))
  }

  /** The last pair of ttset whose pitch class is pc, or None. */
  function LastWithPc(ttset: seq<(int, int)>, pc: int): (r: Option<(int, int)>)
    ensures r.Some? ==> r.value in ttset && r.value.1 == pc
    ensures r.None? <==> forall k :: 0 <= k < |ttset| ==> ttset[k].1 != pc
  {
    if ttset == [] then None
    else if ttset[|ttset| - 1].1 == pc then Some(ttset[|ttset| - 1])
    else
      var r := LastWithPc(ttset[..|ttset| - 1], pc);
      assert forall k :: 0 <= k < |ttset| - 1 ==> ttset[..|ttset| - 1][k] == ttset[k];
      r
  }

  /** The inner loop of transposition_order_rep and inversion_order_rep:
      scan ttset and keep the last pair with pitch class pc. */
  method FindLastPc(ttset: seq<(int, int)>, pc: int) returns (r: Option<(int, int)>)
    ensures r == LastWithPc(ttset, pc)
  {
    r := None;
    for j := 0 to |ttset|
      invariant r == LastWithPc(ttset[..j], pc)
    {
      assert ttset[..j + 1][..j] == ttset[..j];
      if ttset[j].1 == pc {
        r := Some(ttset[j]);
      }
    }
    assert ttset[..|ttset|] == ttset;
  }

  /** For each target pitch class, the pair that the lookup finds; None
      stands for the 0 the result list starts with. */
  function Lookups(ttset: seq<(int, int)>, targets: seq<int>): (r: seq<Option<(int, int)>>)
    ensures |r| == |targets| && forall i :: 0 <= i < |r| ==> r[i] == LastWithPc(ttset, targets[i])
  {
    seq(|targets|, i requires 0 <= i < |targets| => LastWithPc(ttset, targets[i]))
  }

  function TransposedPcs(ttset: seq<(int, int)>, n: int): (r: seq<int>)
    ensures |r| == |ttset| && forall i :: 0 <= i < |r| ==> r[i] == (ttset[i].1 + n) % 12
  {
    seq(|ttset|, i requires 0 <= i < |ttset| => (ttset[i].1 + n) % 12)
  }

  function InvertedPcs(ttset: seq<(int, int)>, n: int): (r: seq<int>)
    ensures |r| == |ttset| && forall i :: 0 <= i < |r| ==> r[i] == ((12 - ttset[i].1) + n) % 12
  {
    seq(|ttset|, i requires 0 <= i < |ttset| => ((12 - ttset[i].1) + n) % 12)
  }

  lemma LookupsPointwise(ttset: seq<(int, int)>, targets: seq<int>, r: seq<Option<(int, int)>>)
    requires |r| == |targets| && forall k :: 0 <= k < |r| ==> r[k] == LastWithPc(ttset, targets[k])
    ensures r == Lookups(ttset, targets)
  {
  }

  /** transposition_order_rep(ttset, n): slot i holds the pair whose pitch
      class is pitch class i transposed by n. */
  method TranspositionOrderRep(ttset: seq<(int, int)>, n: int) returns (r: seq<Option<(int, int)>>)
    ensures r == Lookups(ttset, TransposedPcs(ttset, n))
  {
    ghost var targets := TransposedPcs(ttset, n);
    r := seq(|ttset|, i => None);
    for i := 0 to |ttset|
      invariant |r| == |ttset|
      invariant forall k :: 0 <= k < i ==> r[k] == LastWithPc(ttset, targets[k])
      invariant forall k :: i <= k < |r| ==> r[k] == None
    {
      var pc := (ttset[i].1 + n) % 12;
      assert pc == targets[i];
      var found := FindLastPc(ttset, pc);
      if found.Some? {
        r := r[i := found];
      }
    }
    LookupsPointwise(ttset, targets, r);
  }

  /** inversion_order_rep(ttset, n): slot i holds the pair whose pitch class
      is pitch class i inverted and transposed by n. */
  method InversionOrderRep(ttset: seq<(int, int)>, n: int) returns (r: seq<Option<(int, int)>>)
    ensures r == Lookups(ttset, InvertedPcs(ttset, n))
  {
    ghost var targets := InvertedPcs(ttset, n);
    r := seq(|ttset|, i => None);
    for i := 0 to |ttset|
      invariant |r| == |ttset|
      invariant forall k :: 0 <= k < i ==> r[k] == LastWithPc(ttset, targets[k])
      invariant forall k :: i <= k < |r| ==> r[k] == None
    {
      var pc := ((12 - ttset[i].1) + n) % 12;
      assert pc == targets[i];
      var found := FindLastPc(ttset, pc);
      if found.Some? {
        r := r[i := found];
      }
    }
    LookupsPointwise(ttset, targets, r);
  }

  /** A twelve-tone row in order-number form: twelve pairs whose pitch
      classes are each of 0..11 exactly once. */
  predicate FullRow(ttset: seq<(int, int)>)
  {
    |ttset| == 12 &&
    (forall i :: 0 <= i < 12 ==> 0 <= ttset[i].1 < 12) &&
    (forall i, j :: 0 <= i < j < 12 ==> ttset[i].1 != ttset[j].1) &&
    (forall pc :: 0 <= pc < 12 ==> HasPc(ttset, pc))
  }

  /** Some pair of ttset has pitch class pc. */
  predicate HasPc(ttset: seq<(int, int)>, pc: int)
  {
    exists i :: 0 <= i < |ttset| && ttset[i].1 == pc
  }

  /** b with its element at j removed. */
  function RemoveAt<T>(b: seq<T>, j: int): (r: seq<T>)
    requires 0 <= j < |b|
    ensures |r| == |b| - 1
    ensures multiset(b) == multiset(r) + multiset{b[j]}
  {
    assert b == b[..j] + [b[j]] + b[j + 1..];
    b[..j] + b[j + 1..]
  }

  /** Removing one element keeps the other elements. */
  lemma RemoveAtKeeps<T>(b: seq<T>, j: int, m: int)
    requires 0 <= j < |b| && 0 <= m < |b| && m != j
    ensures b[m] in RemoveAt(b, j)
  {
    var r := RemoveAt(b, j);
    if m < j {
      assert r[m] == b[m];
    } else {
      assert r[m - 1] == b[m];
    }
  }

  /** Removing an element from a duplicate-free list keeps it duplicate-free. */
  lemma RemoveAtDistinct<T>(b: seq<T>, j: int)
    requires 0 <= j < |b| && NoDuplicates(b)
    ensures NoDuplicates(RemoveAt(b, j))
  {
    var r := RemoveAt(b, j);
    forall p, q | 0 <= p < q < |r|
      ensures r[p] != r[q]
    {
      var p' := if p < j then p else p + 1;
      var q' := if q < j then q else q + 1;
      assert r[p] == b[p'] && r[q] == b[q'] && p' < q';
    }
  }

  /** Two duplicate-free lists of the same length, the first inside the
      second, are permutations of each other. */
  lemma {:induction false} DistinctInside<T>(a: seq<T>, b: seq<T>)
    requires NoDuplicates(a) && NoDuplicates(b) && |a| == |b|
    requires forall i :: 0 <= i < |a| ==> a[i] in b
    ensures multiset(a) == multiset(b)
    decreases |a|
  {
    if a != [] {
      var n := |a| - 1;
      var init := a[..n];
      var j :| 0 <= j < |b| && b[j] == a[n];
      var b' := RemoveAt(b, j);
      forall i | 0 <= i < n
        ensures init[i] in b'
      {
        var m :| 0 <= m < |b| && b[m] == a[i];
        RemoveAtKeeps(b, j, m);
      }
      RemoveAtDistinct(b, j);
      DistinctInside(init, b');
      assert a == init + [a[n]];
    }
  }

  /** On a full row, looking up twelve distinct pitch classes finds a pair
      for each, and the pairs are the row's pairs in a new order. */
  lemma LookupsPermute(ttset: seq<(int, int)>, targets: seq<int>)
    requires FullRow(ttset) && |targets| == 12
    requires forall i :: 0 <= i < 12 ==> 0 <= targets[i] < 12
    requires forall i, j :: 0 <= i < j < 12 ==> targets[i] != targets[j]
    ensures forall i :: 0 <= i < 12 ==> Lookups(ttset, targets)[i].Some?
    ensures multiset(seq(12, i requires 0 <= i < 12 => Lookups(ttset, targets)[i].value)) == multiset(ttset)
  {
    var look := Lookups(ttset, targets);
    forall i | 0 <= i < 12
      ensures look[i].Some?
    {
      assert HasPc(ttset, targets[i]);
    }
    var values := seq(12, i requires 0 <= i < 12 => look[i].value);
    assert NoDuplicates(values) by {
      forall i, j | 0 <= i < j < 12
        ensures values[i] != values[j]
      {
        assert values[i].1 == targets[i] && values[j].1 == targets[j];
      }
    }
    assert NoDuplicates(ttset) by {
      forall i, j | 0 <= i < j < 12
        ensures ttset[i] != ttset[j]
      {
        assert ttset[i].1 != ttset[j].1;
      }
    }
    DistinctInside(values, ttset);
  }

  /** Transposing two distinct pitch classes gives distinct pitch classes. */
  lemma TransposeInjective(x: int, y: int, n: int)
    requires 0 <= x < 12 && 0 <= y < 12 && x != y
    ensures (x + n) % 12 != (y + n) % 12
  {
    var qx, qy := (x + n) / 12, (y + n) / 12;
    assert x + n == 12 * qx + (x + n) % 12;
    assert y + n == 12 * qy + (y + n) % 12;
  }

  /** On a full row transposition_order_rep fills every slot, slot i with
      pitch class pc_i + n (mod 12), and permutes the row's pairs. */
  lemma TranspositionPermutes(ttset: seq<(int, int)>, n: int)
    requires FullRow(ttset)
    ensures forall i :: 0 <= i < 12 ==> (Lookups(ttset, TransposedPcs(ttset, n))[i].Some? &&
                                          Lookups(ttset, TransposedPcs(ttset, n))[i].value.1 == (ttset[i].1 + n) % 12)
    ensures multiset(seq(12, i requires 0 <= i < 12 => Lookups(ttset, TransposedPcs(ttset, n))[i].value)) == multiset(ttset)
  {
    var targets := TransposedPcs(ttset, n);
    forall i, j | 0 <= i < j < 12
      ensures targets[i] != targets[j]
    {
      TransposeInjective(ttset[i].1, ttset[j].1, n);
    }
    LookupsPermute(ttset, targets);
  }

  /** On a full row inversion_order_rep fills every slot, slot i with pitch
      class 12 - pc_i + n (mod 12), and permutes the row's pairs. */
  lemma InversionPermutes(ttset: seq<(int, int)>, n: int)
    requires FullRow(ttset)
    ensures forall i :: 0 <= i < 12 ==> (Lookups(ttset, InvertedPcs(ttset, n))[i].Some? &&
                                          Lookups(ttset, InvertedPcs(ttset, n))[i].value.1 == ((12 - ttset[i].1) + n) % 12)
    ensures multiset(seq(12, i requires 0 <= i < 12 => Lookups(ttset, InvertedPcs(ttset, n))[i].value)) == multiset(ttset)
  {
    var targets := InvertedPcs(ttset, n);
    forall i, j | 0 <= i < j < 12
      ensures targets[i] != targets[j]
    {
      var x, y := 11 - ttset[i].1, 11 - ttset[j].1;
      TransposeInjective(x, y, n + 1);
      assert (12 - ttset[i].1) + n == x + (n + 1);
      assert (12 - ttset[j].1) + n == y + (n + 1);
    }
    LookupsPermute(ttset, targets);
  }

  // ---------------------------------------------------------------------
  // order_inversions
  // ---------------------------------------------------------------------

  /** The order numbers of ttset, in order. */
  function Orders(ttset: seq<(int, int)>): (r: seq<int>)
    ensures |r| == |ttset| && forall i :: 0 <= i < |r| ==> r[i] == ttset[i].0
  {
    seq(|ttset|, i requires 0 <= i < |ttset| => ttset[i].0)
  }

  /** How many elements of s are smaller than x. */
  function Smaller(s: seq<int>, x: int): (r: nat)
    ensures r <= |s|
  {
    if s == [] then 0 else Smaller(s[..|s| - 1], x) + (if s[|s| - 1] < x then 1 else 0)
  }

  /** The number of pairs i < j with o[i] > o[j]. */
  function Inversions(o: seq<int>): nat
  {
    if o == [] then 0 else Smaller(o[1..], o[0]) + Inversions(o[1..])
  }

  /** order_inversions(ttset): the number of pairs i < j whose order numbers
      are out of order. */
  method OrderInversions(ttset: seq<(int, int)>) returns (count: int)
    ensures count == Inversions(Orders(ttset))
  {
    var orders := seq(|ttset|, i requires 0 <= i < |ttset| => ttset[i].0);
    assert orders == Orders(ttset);
    count := 0;
    for i := 0 to |ttset|
      invariant count + Inversions(orders[i..]) == Inversions(orders)
    {
      assert orders[i..][1..] == orders[i + 1..];
      count := CountBelow(orders, i, count);
    }
  }

  /** The inner loop of order_inversions: one more for each later order
      number below orders[i]. */
  method CountBelow(orders: seq<int>, i: nat, count: int) returns (count': int)
    requires i < |orders|
    ensures count' == count + Smaller(orders[i + 1..], orders[i])
  {
    count' := count;
    for j := i + 1 to |orders|
      invariant count' == count + Smaller(orders[i + 1..j], orders[i])
    {
      assert orders[i + 1..j + 1][..j - i - 1] == orders[i + 1..j];
      if orders[i] > orders[j] {
        count' := count' + 1;
      }
    }
    assert orders[i + 1..|orders|] == orders[i + 1..];
  }

  /** At most one inversion per pair: 2 * inversions <= n * (n - 1). */
  lemma {:induction false} InversionsBound(o: seq<int>)
    ensures 2 * Inversions(o) <= |o| * (|o| - 1)
  {
    if o != [] {
      var m := |o| - 1;
      InversionsBound(o[1..]);
      assert m * (m - 1) + 2 * m == (m + 1) * m;
    }
  }

  /** Nothing in s is smaller than a lower bound of s. */
  lemma {:induction false} SmallerNone(s: seq<int>, x: int)
    requires forall k :: 0 <= k < |s| ==> s[k] >= x
    ensures Smaller(s, x) == 0
  {
    if s != [] {
      SmallerNone(s[..|s| - 1], x);
    }
  }

  /** An increasing list has no inversions. */
  lemma {:induction false} IncreasingNoInversions(o: seq<int>)
    requires NonDecreasing(o)
    ensures Inversions(o) == 0
  {
    if o != [] {
      SmallerNone(o[1..], o[0]);
      IncreasingNoInversions(o[1..]);
    }
  }

  /** A row in its own order, as order_rep writes it, has no order
      inversions. */
  lemma OrderRepNoInversions(pcset: seq<int>)
    ensures Inversions(Orders(OrderRep(pcset))) == 0
  {
    IncreasingNoInversions(Orders(OrderRep(pcset)));
  }

  // ---------------------------------------------------------------------
  // permutation_cycles
  // ---------------------------------------------------------------------

  /** The cycle entry for position i with order number o: (i,) when o is i,
      else the sorted pair. */
  function CycleOf(i: int, o: int): (r: seq<int>)
  {
    if o == i then [i] else if i < o then [i, o] else [o, i]
  }

  /** What permutation_cycles has collected after the pairs of ttset: fixed
      points always appended, pairs only when new. */
  function Cycles(ttset: seq<(int, int)>): seq<seq<int>>
  {
    if ttset == [] then []
    else
      var i := |ttset| - 1;
      var acc := Cycles(ttset[..i]);
      var c := CycleOf(i, ttset[i].0);
      if ttset[i].0 == i then acc + [c]
      else if c in acc then acc
      else acc + [c]
  }

  /** permutation_cycles(ttset). */
  method PermutationCycles(ttset: seq<(int, int)>) returns (result: seq<seq<int>>)
    ensures result == Cycles(ttset)
  {
    result := [];
    for i := 0 to |ttset|
      invariant result == Cycles(ttset[..i])
    {
      assert ttset[..i + 1][..i] == ttset[..i];
      var el := ttset[i];
      if el.0 == i {
        result := result + [[i]];
      } else {
        var pair := if i < el.0 then [i, el.0] else [el.0, i];
        if pair !in result {
          result := result + [pair];
        }
      }
    }
    assert ttset[..|ttset|] == ttset;
  }

  /** An entry is collected exactly when it is the cycle entry of some
      position. */
  lemma {:induction false} CyclesMembers(ttset: seq<(int, int)>, c: seq<int>)
    ensures c in Cycles(ttset) <==> exists i :: 0 <= i < |ttset| && c == CycleOf(i, ttset[i].0)
  {
    if ttset != [] {
      var n := |ttset| - 1;
      var init := ttset[..n];
      CyclesMembers(init, c);
      assert forall i :: 0 <= i < n ==> init[i] == ttset[i];
      if c in Cycles(init) {
        var i :| 0 <= i < n && c == CycleOf(i, init[i].0);
        assert c == CycleOf(i, ttset[i].0);
      }
    }
  }

  /** No entry is collected twice. */
  lemma {:induction false} CyclesDistinct(ttset: seq<(int, int)>)
    ensures NoDuplicates(Cycles(ttset))
  {
    if ttset != [] {
      var n := |ttset| - 1;
      var init := ttset[..n];
      CyclesDistinct(init);
      if ttset[n].0 == n {
        CyclesMembers(init, [n]);
      }
    }
  }

  /** A row in its own order has only fixed points. */
  lemma {:induction false} OrderRepCycles(pcset: seq<int>)
    ensures Cycles(OrderRep(pcset)) == seq(|pcset|, i => [i])
  {
    if pcset != [] {
      var n := |pcset| - 1;
      assert OrderRep(pcset)[..n] == OrderRep(pcset[..n]);
      OrderRepCycles(pcset[..n]);
    }
  }

  // ---------------------------------------------------------------------
  // dyad_interval_pairs
  // ---------------------------------------------------------------------

  /** dyad_interval_pairs(ttset): the interval (mod 12) inside each of the
      six dyads of a row; IndexError when the row has fewer than twelve
      elements. */
  function DyadIntervalPairs(ttset: seq<int>): (r: Result<seq<int>>)
    ensures r.Err? <==> |ttset| < 12
    ensures r.Err? ==> r.error == IndexError
    ensures r.Ok? ==> |r.value| == 6 && forall k :: 0 <= k < 6 ==> 0 <= r.value[k] < 12
  {
    if |ttset| < 12 then Err(IndexError)
    else Ok(seq(6, k requires 0 <= k < 6 => (ttset[2 * k + 1] - ttset[2 * k]) % 12))
  }

  /** The dyad intervals of a row do not change when it is transposed. */
  lemma DyadsTranspositionInvariant(row: seq<int>, c: int)
    ensures DyadIntervalPairs(seq(|row|, i requires 0 <= i < |row| => row[i] + c)) == DyadIntervalPairs(row)
  {
    var t := seq(|row|, i requires 0 <= i < |row| => row[i] + c);
    if |row| >= 12 {
      forall k | 0 <= k < 6
        ensures (t[2 * k + 1] - t[2 * k]) % 12 == (row[2 * k + 1] - row[2 * k]) % 12
      {
        assert t[2 * k + 1] - t[2 * k] == row[2 * k + 1] - row[2 * k];
      }
      assert DyadIntervalPairs(t).value == DyadIntervalPairs(row).value;
    }
  }

  /** Inverting a row (every pitch class negated) turns each dyad interval d
      into (12 - d) mod 12. */
  lemma DyadsInversion(row: seq<int>)
    requires |row| >= 12
    ensures forall k :: 0 <= k < 6 ==>
              DyadIntervalPairs(seq(|row|, i requires 0 <= i < |row| => -row[i])).value[k] == (12 - DyadIntervalPairs(row).value[k]) % 12
  {
    var t := seq(|row|, i requires 0 <= i < |row| => -row[i]);
    forall k | 0 <= k < 6
      ensures (t[2 * k + 1] - t[2 * k]) % 12 == (12 - (row[2 * k + 1] - row[2 * k]) % 12) % 12
    {
      var d := row[2 * k + 1] - row[2 * k];
      assert t[2 * k + 1] - t[2 * k] == -d;
      var q := d / 12;
      assert d == 12 * q + d % 12;
      assert -d == 12 * (-q - 1) + (12 - d % 12);
      if d % 12 == 0 {
        assert -d == 12 * (-q);
      }
    }
  }

  // ---------------------------------------------------------------------
  // row_partition
  // ---------------------------------------------------------------------

  /** The chunks row_partition cuts: row[:part[0]], then the same on
      row[part[0]:] with the rest of part. */
  function Chunks(row: seq<int>, part: seq<int>): (r: seq<seq<int>>)
    ensures |r| == |part|
  {
    if part == [] then []
    else
      var c := SliceIndex(part[0], |row|);
      [row[..c]] + Chunks(row[c..], part[1..])
  }

  /** row_partition(row, part). */
  method RowPartition(row: seq<int>, part: seq<int>) returns (chunks: seq<seq<int>>)
    ensures chunks == Chunks(row, part)
  {
    chunks := [];
    var rest := row;
    for j := 0 to |part|
      invariant chunks + Chunks(rest, part[j..]) == Chunks(row, part)
    {
      assert part[j..][1..] == part[j + 1..];
      var a := rest[..SliceIndex(part[j], |rest|)];
      chunks := chunks + [a];
      rest := rest[SliceIndex(part[j], |rest|)..];
    }
  }

  lemma FlattenCons(x: seq<int>, s: seq<seq<int>>)
    ensures Flatten([x] + s) == x + Flatten(s)
    decreases |s|
  {
    if s != [] {
      var n := |s| - 1;
      assert ([x] + s)[..n + 1] == [x] + s[..n];
      FlattenCons(x, s[..n]);
    }
  }

  /** With non-negative parts, the chunks put back together are the row's
      first sum(part) elements, or the whole row when the parts run past
      its end. */
  lemma {:induction false} ChunksFlatten(row: seq<int>, part: seq<int>)
    requires forall k :: 0 <= k < |part| ==> part[k] >= 0
    ensures Sum(part) >= 0 && Flatten(Chunks(row, part)) == row[..if Sum(part) <= |row| then Sum(part) else |row|]
  {
    if part != [] {
      var p := part[0];
      var c := SliceIndex(p, |row|);
      assert c == if p <= |row| then p else |row|;
      var rest := part[1..];
      var tail := row[c..];
      ChunksFlatten(tail, rest);
      var s := Sum(rest);
      var m := if s <= |tail| then s else |tail|;
      assert Flatten(Chunks(tail, rest)) == tail[..m];
      assert Chunks(row, part) == [row[..c]] + Chunks(tail, rest);
      FlattenCons(row[..c], Chunks(tail, rest));
      assert part == [p] + rest;
      SumConcat([p], rest);
      assert Sum([p]) == p;
      assert Sum(part) == p + s;
      assert c + m == if p + s <= |row| then p + s else |row|;
      PrefixJoin(row, c, m);
    }
  }

  lemma PrefixJoin(row: seq<int>, c: nat, m: nat)
    requires c + m <= |row|
    ensures row[..c] + row[c..][..m] == row[..c + m]
  {
  }
}
