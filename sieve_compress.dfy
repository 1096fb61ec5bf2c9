/** The greedy compressor `Compress` of build/lib/comptools/sievetools.py:
    it covers a finite set of integers with residue classes, taking the
    smallest uncovered point and the least modulus whose class stays inside the
    set over the window [min, max]. */
module SieveCompress {
  import opened PyBase
  import opened PyStr
  import opened Arith
  import opened SievePatterns
  import opened SieveResidual

  /** Every element of sub occurs in whole. */
  predicate AllIn(sub: seq<int>, whole: seq<int>)
  {
    forall i :: 0 <= i < |sub| ==> sub[i] in whole
  }

  /** _subset: counts the elements of sub found in the other list and answers
      1 when every one of them was found, else 0. */
  method Subset(sub: seq<int>, other: seq<int>) returns (r: int)
    ensures r == 1 <==> AllIn(sub, other)
    ensures r == 0 || r == 1
  {
    var common := 0;
    for i := 0 to |sub|
      invariant 0 <= common <= i
      invariant common == i <==> AllIn(sub[..i], other)
    {
      if sub[i] in other {
        common := common + 1;
      }
      assert sub[..i + 1] == sub[..i] + [sub[i]];
    }
    assert sub[..|sub|] == sub;
    if common == |sub| {
      r := 1;
    } else {
      r := 0;
    }
  }

  /** The segment `Residual(m, n).segment(lo, hi)` that _find tests. */
  function ClassSegment(m: int, n: int, lo: int, hi: int): seq<int>
    requires m >= 1
  {
    SegmentOf(BinaryRepr(m, n), lo, hi)
  }

  /** Its points are the members of the class n mod m in the window. */
  lemma ClassSegmentMembers(m: int, n: int, lo: int, hi: int, x: int)
    requires m >= 1
    ensures x in ClassSegment(m, n, lo, hi) <==> lo <= x <= hi && x % m == n % m
  {
    ResidualSegment(m, n, lo, hi, x);
  }

  /** Modulus m with shift n is acceptable: its members in the window all lie
      in the input. */
  predicate Fits(m: int, n: int, whole: seq<int>, lo: int, hi: int)
    requires m >= 1
  {
    AllIn(ClassSegment(m, n, lo, hi), whole)
  }

  /** Two points of the window [lo, hi] that agree modulo its width are equal. */
  lemma SameResidueInWindow(x: int, n: int, lo: int, hi: int)
    requires lo <= x <= hi && lo <= n <= hi
    requires x % (hi - lo + 1) == n % (hi - lo + 1)
    ensures x == n
  {
    var w := hi - lo + 1;
    var a, b := x / w, n / w;
    assert x == w * a + x % w;
    assert n == w * b + n % w;
    if a > b {
      MulAtLeast(w, a - b);
    } else if a < b {
      MulAtLeast(w, b - a);
    }
  }

  /** The modulus MAXMOD = |z| always fits, since its class meets the window
      only at n itself: the search of _find cannot run past it. */
  lemma FitsAtMaxMod(n: int, whole: seq<int>, lo: int, hi: int)
    requires lo <= n <= hi && n in whole
    ensures Fits(hi - lo + 1, n, whole, lo, hi)
  {
    var seg := ClassSegment(hi - lo + 1, n, lo, hi);
    forall i | 0 <= i < |seg| ensures seg[i] in whole {
      assert seg[i] in seg;
      ClassSegmentMembers(hi - lo + 1, n, lo, hi, seg[i]);
      SameResidueInWindow(seg[i], n, lo, hi);
    }
  }

  /** The least modulus from m on that fits. */
  function LeastFitFrom(m: int, n: int, whole: seq<int>, lo: int, hi: int): (r: int)
    requires lo <= n <= hi && n in whole && 1 <= m <= hi - lo + 1
    ensures m <= r <= hi - lo + 1 && Fits(r, n, whole, lo, hi)
    ensures forall j :: m <= j < r ==> !Fits(j, n, whole, lo, hi)
    decreases hi - lo + 1 - m
  {
    FitsAtMaxMod(n, whole, lo, hi);
    if Fits(m, n, whole, lo, hi) then m else LeastFitFrom(m + 1, n, whole, lo, hi)
  }

  /** The modulus _find settles on: the least one that fits. */
  function LeastFit(n: int, whole: seq<int>, lo: int, hi: int): (r: int)
    requires lo <= n <= hi && n in whole
    ensures 1 <= r <= hi - lo + 1 && Fits(r, n, whole, lo, hi)
  {
    LeastFitFrom(1, n, whole, lo, hi)
  }

  /** No smaller modulus fits. */
  lemma LeastFitLeast(n: int, whole: seq<int>, lo: int, hi: int, j: int)
    requires lo <= n <= hi && n in whole
    requires 1 <= j < LeastFit(n, whole, lo, hi)
    ensures !Fits(j, n, whole, lo, hi)
  {
  }

  /** A fitting modulus with no smaller fitting one is the least. */
  lemma LeastFitIs(m: int, n: int, whole: seq<int>, lo: int, hi: int)
    requires lo <= n <= hi && n in whole && m >= 1 && Fits(m, n, whole, lo, hi)
    requires forall j :: 1 <= j < m ==> !Fits(j, n, whole, lo, hi)
    ensures LeastFit(n, whole, lo, hi) == m
  {
    if LeastFit(n, whole, lo, hi) > m {
      LeastFitLeast(n, whole, lo, hi, m);
    }
  }

  /** _find(n, part, whole): tries m = 1, 2, ... and returns the first
      Residual(m, n) whose segment over the window lies in part or in whole.
      The assert of the loop (m <= MAXMOD) is discharged here. */
  method Find(n: int, part: seq<int>, whole: seq<int>, lo: int, hi: int) returns (obj: Residual, seg: seq<int>)
    requires lo <= n <= hi && n in part && AllIn(part, whole)
    ensures obj == FromInts(LeastFit(n, whole, lo, hi), n).value
    ensures seg == ClassSegment(LeastFit(n, whole, lo, hi), n, lo, hi)
  {
    var maxMod := hi - lo + 1;
    FitsAtMaxMod(n, whole, lo, hi);
    var m := 1;
    while true
      invariant 1 <= m <= maxMod
      invariant forall j :: 1 <= j < m ==> !Fits(j, n, whole, lo, hi)
      decreases maxMod - m
    {
      obj := FromInts(m, n).value;
      seg := Segment(obj.bin, lo, hi, 0);
      assert seg == ClassSegment(m, n, lo, hi);
      var inPart := Subset(seg, part);
      if inPart == 1 {
        assert Fits(m, n, whole, lo, hi) by {
          forall i | 0 <= i < |seg| ensures seg[i] in whole {
            assert seg[i] in part;
          }
        }
        LeastFitIs(m, n, whole, lo, hi);
        return;
      }
      var inWhole := Subset(seg, whole);
      if inWhole == 1 {
        LeastFitIs(m, n, whole, lo, hi);
        return;
      }
      m := m + 1;
      assert m <= maxMod;
    }
  }

  /** Every point of whole lies in the window [lo, hi]. */
  predicate InWindow(whole: seq<int>, lo: int, hi: int)
  {
    forall i :: 0 <= i < |whole| ==> lo <= whole[i] <= hi
  }

  /** The modulus _process finds for the smallest pending point. */
  function NextModulus(pending: seq<int>, whole: seq<int>, lo: int, hi: int): (m: int)
    requires pending != [] && AllIn(pending, whole) && InWindow(whole, lo, hi)
    ensures 1 <= m <= hi - lo + 1
  {
    assert pending[0] in whole;
    LeastFit(pending[0], whole, lo, hi)
  }

  /** The pending points left once the class found for the smallest one is
      removed. */
  function Rest(pending: seq<int>, whole: seq<int>, lo: int, hi: int): (r: seq<int>)
    requires pending != [] && AllIn(pending, whole) && InWindow(whole, lo, hi)
    ensures AllIn(r, whole) && |r| < |pending|
  {
    var seg := ClassSegment(NextModulus(pending, whole, lo, hi), pending[0], lo, hi);
    var rest := Without(pending, seg);
    WithoutShrinks(pending, seg);
    assert AllIn(rest, whole) by {
      forall i | 0 <= i < |rest| ensures rest[i] in whole {
        assert rest[i] in rest;
      }
    }
    rest
  }

  /** The points left are the pending ones outside the class just found. */
  lemma RestMembers(pending: seq<int>, whole: seq<int>, lo: int, hi: int, x: int)
    requires pending != [] && AllIn(pending, whole) && InWindow(whole, lo, hi)
    ensures x in Rest(pending, whole, lo, hi) <==>
      x in pending && x !in ClassSegment(NextModulus(pending, whole, lo, hi), pending[0], lo, hi)
  {
  }

  /** The residues _process records, in order, for the uncovered points
      `match` (here `pending`) of the distinct input `whole`. */
  function GreedyCover(pending: seq<int>, whole: seq<int>, lo: int, hi: int): (r: seq<Residual>)
    requires AllIn(pending, whole) && InWindow(whole, lo, hi)
    ensures forall i :: 0 <= i < |r| ==> r[i].Valid()
    decreases |pending|
  {
    if pending == [] then []
    else [FromInts(NextModulus(pending, whole, lo, hi), pending[0]).value] + GreedyCover(Rest(pending, whole, lo, hi), whole, lo, hi)
  }

  /** x belongs to at least one of the recorded classes. */
  predicate AnyHits(rs: seq<Residual>, x: int)
    requires forall i :: 0 <= i < |rs| ==> rs[i].Valid()
  {
    if rs == [] then false
    else
      assert rs[0].Valid();
      Hits(rs[0].bin, x) || AnyHits(rs[1..], x)
  }

  /** The cover is exact: over the window, the recorded classes hit every
      uncovered point and nothing outside the distinct input. */
  lemma {:induction false} GreedyCoverExact(pending: seq<int>, whole: seq<int>, lo: int, hi: int, x: int)
    requires AllIn(pending, whole) && InWindow(whole, lo, hi)
    requires lo <= x <= hi
    ensures x in pending ==> AnyHits(GreedyCover(pending, whole, lo, hi), x)
    ensures AnyHits(GreedyCover(pending, whole, lo, hi), x) ==> x in whole
    decreases |pending|
  {
    if pending != [] {
      var n := pending[0];
      var m := NextModulus(pending, whole, lo, hi);
      var seg := ClassSegment(m, n, lo, hi);
      var rest := Rest(pending, whole, lo, hi);
      var rs := GreedyCover(pending, whole, lo, hi);
      assert rs[1..] == GreedyCover(rest, whole, lo, hi);
      GreedyCoverExact(rest, whole, lo, hi, x);
      RestMembers(pending, whole, lo, hi, x);
      ClassSegmentMembers(m, n, lo, hi, x);
      HitsResidual(m, n, x);
      if Hits(rs[0].bin, x) {
        assert n in whole;
        assert Fits(m, n, whole, lo, hi);
        assert x in seg;
        assert exists i :: 0 <= i < |seg| && seg[i] == x;
      }
    }
  }

  /** Removal keeps the pending points strictly increasing. */
  lemma RestIncreasing(pending: seq<int>, whole: seq<int>, lo: int, hi: int)
    requires pending != [] && AllIn(pending, whole) && InWindow(whole, lo, hi)
    requires StrictlyIncreasing(pending)
    ensures StrictlyIncreasing(Rest(pending, whole, lo, hi))
    ensures forall i :: 0 <= i < |Rest(pending, whole, lo, hi)| ==> pending[0] < Rest(pending, whole, lo, hi)[i]
  {
    var seg := ClassSegment(NextModulus(pending, whole, lo, hi), pending[0], lo, hi);
    WithoutSubsequence(pending, seg);
    var rest := Rest(pending, whole, lo, hi);
    forall i | 0 <= i < |rest| ensures pending[0] < rest[i] {
      var t := rest[i];
      assert t in rest;
      RestMembers(pending, whole, lo, hi, t);
      ClassSegmentMembers(NextModulus(pending, whole, lo, hi), pending[0], lo, hi, pending[0]);
      assert pending[0] in seg;
      var k :| 0 <= k < |pending| && pending[k] == t;
      assert k > 0;
    }
  }

  /** One step of the greedy cover: the class of the smallest pending
      point, then the cover of what is left. */
  lemma GreedyCoverUnfold(pending: seq<int>, whole: seq<int>, lo: int, hi: int)
    requires pending != [] && AllIn(pending, whole) && InWindow(whole, lo, hi)
    ensures GreedyCover(pending, whole, lo, hi)
      == [FromInts(NextModulus(pending, whole, lo, hi), pending[0]).value] + GreedyCover(Rest(pending, whole, lo, hi), whole, lo, hi)
  {
  }

  /** Facts of each recorded term: its shift is a point of the input, its
      modulus is in 1..MAXMOD and the least one that fits that shift. */
  lemma {:induction false} GreedyCoverTerms(pending: seq<int>, whole: seq<int>, lo: int, hi: int)
    requires AllIn(pending, whole) && InWindow(whole, lo, hi)
    ensures var rs := GreedyCover(pending, whole, lo, hi);
      forall i :: 0 <= i < |rs| ==>
        rs[i].shift in pending && 1 <= rs[i].modulus <= hi - lo + 1
        && rs[i].modulus == LeastFit(rs[i].shift, whole, lo, hi)
    ensures pending != [] ==> |GreedyCover(pending, whole, lo, hi)| >= 1
    decreases |pending|
  {
    if pending != [] {
      var rest := Rest(pending, whole, lo, hi);
      GreedyCoverTerms(rest, whole, lo, hi);
      GreedyCoverUnfold(pending, whole, lo, hi);
      var tail := GreedyCover(rest, whole, lo, hi);
      forall j | 0 <= j < |tail| ensures tail[j].shift in pending {
        assert tail[j].shift in rest;
        RestMembers(pending, whole, lo, hi, tail[j].shift);
      }
    }
  }

  /** Every recorded term is a Residual built from its modulus and shift. */
  lemma {:induction false} GreedyCoverBuilt(pending: seq<int>, whole: seq<int>, lo: int, hi: int)
    requires AllIn(pending, whole) && InWindow(whole, lo, hi)
    ensures var rs := GreedyCover(pending, whole, lo, hi);
      forall i :: 0 <= i < |rs| ==> BuiltFromInts(rs[i])
    decreases |pending|
  {
    if pending != [] {
      GreedyCoverBuilt(Rest(pending, whole, lo, hi), whole, lo, hi);
      GreedyCoverUnfold(pending, whole, lo, hi);
    }
  }

  /** The shifts of the recorded terms increase strictly, so no class is
      recorded twice. */
  lemma {:induction false} GreedyCoverShiftsIncrease(pending: seq<int>, whole: seq<int>, lo: int, hi: int)
    requires AllIn(pending, whole) && InWindow(whole, lo, hi) && StrictlyIncreasing(pending)
    ensures var rs := GreedyCover(pending, whole, lo, hi);
      forall i, j :: 0 <= i < j < |rs| ==> rs[i].shift < rs[j].shift
    decreases |pending|
  {
    if pending != [] {
      var n := pending[0];
      var rest := Rest(pending, whole, lo, hi);
      RestIncreasing(pending, whole, lo, hi);
      GreedyCoverShiftsIncrease(rest, whole, lo, hi);
      GreedyCoverTerms(rest, whole, lo, hi);
      GreedyCoverUnfold(pending, whole, lo, hi);
      var tail := GreedyCover(rest, whole, lo, hi);
      forall j | 0 <= j < |tail| ensures n < tail[j].shift {
        var t := tail[j].shift;
        assert t in rest;
        var k :| 0 <= k < |rest| && rest[k] == t;
      }
      ConsShiftsIncrease(FromInts(NextModulus(pending, whole, lo, hi), n).value, tail);
    }
  }

  /** A class with a smaller shift than every class of an increasing list
      can go in front of it. */
  lemma ConsShiftsIncrease(obj: Residual, tail: seq<Residual>)
    requires forall i, j :: 0 <= i < j < |tail| ==> tail[i].shift < tail[j].shift
    requires forall j :: 0 <= j < |tail| ==> obj.shift < tail[j].shift
    ensures var rs := [obj] + tail; forall i, j :: 0 <= i < j < |rs| ==> rs[i].shift < rs[j].shift
  {
    var rs := [obj] + tail;
    forall i, j | 0 <= i < j < |rs| ensures rs[i].shift < rs[j].shift {
      assert rs[j] == tail[j - 1];
      if i > 0 {
        assert rs[i] == tail[i - 1];
      }
    }
  }

  /** The loop `for x in seg: if x in match: match.remove(x)`, as it runs
      over the list `match`. */
  method RemoveSegment(pending: seq<int>, seg: seq<int>) returns (r: seq<int>)
    ensures r == RemoveEach(pending, seg)
  {
    r := pending;
    for i := 0 to |seg|
      invariant RemoveEach(r, seg[i..]) == RemoveEach(pending, seg)
    {
      var x := seg[i];
      assert seg[i..][0] == x && seg[i..][1..] == seg[i + 1..];
      if x in r {
        r := RemoveFirst(r, x);
      }
    }
  }

  lemma SeqAssoc(done: seq<Residual>, obj: Residual, rest: seq<Residual>)
    ensures (done + [obj]) + rest == done + ([obj] + rest)
  {
  }

  /** One round of _process follows one step of the greedy cover. */
  lemma ProcessStep(before: seq<int>, whole: seq<int>, lo: int, hi: int, obj: Residual, seg: seq<int>, after: seq<int>)
    requires before != [] && AllIn(before, whole) && InWindow(whole, lo, hi) && StrictlyIncreasing(before)
    requires obj == FromInts(NextModulus(before, whole, lo, hi), before[0]).value
    requires seg == ClassSegment(NextModulus(before, whole, lo, hi), before[0], lo, hi)
    requires after == RemoveEach(before, seg)
    ensures after == Rest(before, whole, lo, hi) && AllIn(after, whole) && StrictlyIncreasing(after)
    ensures GreedyCover(before, whole, lo, hi) == [obj] + GreedyCover(after, whole, lo, hi)
  {
    RemoveEachIsWithout(before, seg);
    RestIncreasing(before, whole, lo, hi);
  }

  /** _process: while points are left, find the class of the smallest one,
      record it (the `not in` test compares identities of fresh objects and
      always passes), and remove the class's points from the list. */
  method Process(whole: seq<int>, lo: int, hi: int) returns (residuals: seq<Residual>)
    requires StrictlyIncreasing(whole) && |whole| >= 1 && InWindow(whole, lo, hi)
    ensures residuals == GreedyCover(whole, whole, lo, hi)
  {
    residuals := [];
    var pending := whole;
    ghost var total := GreedyCover(whole, whole, lo, hi);
    assert AllIn(pending, whole);
    while true
      invariant StrictlyIncreasing(pending) && pending != [] && AllIn(pending, whole)
      invariant residuals + GreedyCover(pending, whole, lo, hi) == total
      decreases |pending|
    {
      var n := pending[0];
      assert n in whole;
      var obj, seg := Find(n, pending, whole, lo, hi);
      ghost var before := pending;
      ghost var done := residuals;
      residuals := residuals + [obj];
      pending := RemoveSegment(pending, seg);
      ProcessStep(before, whole, lo, hi, obj, seg, pending);
      SeqAssoc(done, obj, GreedyCover(pending, whole, lo, hi));
      if |pending| == 0 {
        assert GreedyCover(pending, whole, lo, hi) == [];
        assert residuals == residuals + [];
        break;
      }
    }
  }

  /** The string representations of the recorded classes. */
  function Reprs(rs: seq<Residual>): (r: seq<string>)
    ensures |r| == |rs| && forall i :: 0 <= i < |rs| ==> r[i] == rs[i].stringrepr
  {
    seq(|rs|, i requires 0 <= i < |rs| => rs[i].stringrepr)
  }

  /** _compressedrepr: the representations joined with "|". */
  method CompressedRepr(residuals: seq<Residual>) returns (s: string)
    requires |residuals| >= 1
    ensures s == Join("|", Reprs(residuals))
  {
    s := residuals[0].stringrepr;
    for i := 1 to |residuals|
      invariant s == Join("|", Reprs(residuals[..i]))
    {
      JoinSnoc("|", Reprs(residuals[..i]), residuals[i].stringrepr);
      assert Reprs(residuals[..i + 1]) == Reprs(residuals[..i]) + [residuals[i].stringrepr];
      s := s + "|" + residuals[i].stringrepr;
    }
    assert residuals[..|residuals|] == residuals;
  }

  /** The dedup loop of the constructor: appends each number not yet in match. */
  method DedupLoop(src: seq<int>) returns (pending: seq<int>)
    ensures pending == Dedup(src)
  {
    pending := [];
    for i := 0 to |src|
      invariant pending == Dedup(src[..i])
    {
      assert src[..i + 1][..i] == src[..i];
      if src[i] !in pending {
        pending := pending + [src[i]];
      }
    }
    assert src[..|src|] == src;
  }

  /** The attributes of a Compress object after its constructor. */
  datatype Compression = Compression(src: seq<int>, distinct: seq<int>, z: seq<int>, maxMod: int,
                                     residuals: seq<Residual>, stringrepr: string)

  /** range(lo, hi + 1). */
  function Range(lo: int, hi: int): (r: seq<int>)
    ensures |r| == if hi < lo then 0 else hi - lo + 1
    ensures forall i :: 0 <= i < |r| ==> r[i] == lo + i
  {
    if hi < lo then [] else seq(hi - lo + 1, i => lo + i)
  }

  /** The attributes the constructor sets from the sorted input and its
      sorted distinct values `pending` (at least two of them). */
  function Compressed(sorted: seq<int>, pending: seq<int>): (c: Compression)
    requires |pending| >= 2 && InWindow(pending, pending[0], pending[|pending| - 1])
  {
    var lo, hi := pending[0], pending[|pending| - 1];
    var rs := GreedyCover(pending, pending, lo, hi);
    Compression(sorted, pending, Range(lo, hi), |Range(lo, hi)|, rs, Join("|", Reprs(rs)))
  }

  /** What the constructor computes from its argument, with the ValueError
      raised for fewer than two distinct values. */
  function CompressOf(src: seq<int>): (r: Result<Compression>)
  {
    var pending := Distinct(src);
    if |pending| <= 1 then Err(ValueError)
    else
      IncreasingInWindow(pending);
      Ok(Compressed(Sorted(src), pending))
  }

  /** Compress(src). */
  method Compress(src: seq<int>) returns (r: Result<Compression>)
    ensures r == CompressOf(src)
  {
    var sorted := Sorted(src);
    var pending := DedupLoop(sorted);
    assert pending == Distinct(src);
    if |pending| <= 1 {
      return Err(ValueError);
    }
    var lo, hi := pending[0], pending[|pending| - 1];
    var z := Range(lo, hi);
    var maxMod := |z|;
    assert z[0] == lo && z[|z| - 1] == hi;
    assert InWindow(pending, lo, hi);
    var residuals := Process(pending, z[0], z[|z| - 1]);
    var repr := CompressedRepr(residuals);
    r := Ok(Compression(sorted, pending, z, maxMod, residuals, repr));
    assert r.value == Compressed(sorted, pending);
  }

  /** A successful compression is built from the sorted distinct values. */
  lemma CompressOfOk(src: seq<int>)
    requires CompressOf(src).Ok?
    ensures var d := Distinct(src);
      |d| >= 2 && InWindow(d, d[0], d[|d| - 1]) && CompressOf(src).value == Compressed(Sorted(src), d)
  {
    IncreasingInWindow(Distinct(src));
  }

  /** A strictly increasing list lies between its first and last element. */
  lemma IncreasingInWindow(s: seq<int>)
    requires StrictlyIncreasing(s) && |s| >= 1
    ensures InWindow(s, s[0], s[|s| - 1])
  {
  }

  /** Compress fails exactly when its input has fewer than two distinct
      values, and then with ValueError. */
  lemma CompressFails(src: seq<int>)
    ensures CompressOf(src).Err? <==> |Elems(src)| <= 1
    ensures CompressOf(src).Err? ==> CompressOf(src).error == ValueError
  {
    StrictlyIncreasingCard(Distinct(src));
  }

  /** A successful compression keeps the sorted distinct points, the window
      [min, max] as z, and its width as MAXMOD. */
  lemma CompressShape(src: seq<int>)
    requires CompressOf(src).Ok?
    ensures var c := CompressOf(src).value;
      c.distinct == Distinct(src) && |c.distinct| >= 2
      && c.z == Range(c.distinct[0], c.distinct[|c.distinct| - 1])
      && c.maxMod == c.distinct[|c.distinct| - 1] - c.distinct[0] + 1
  {
    CompressOfOk(src);
  }

  /** A successful compression holds the greedy cover of its distinct
      points over their window, and prints it joined with "|". */
  lemma CompressParts(src: seq<int>)
    requires CompressOf(src).Ok?
    ensures var c := CompressOf(src).value; var d := Distinct(src);
      |d| >= 2 && c.distinct == d && InWindow(d, d[0], d[|d| - 1])
      && c.residuals == GreedyCover(d, d, d[0], d[|d| - 1])
      && c.stringrepr == Join("|", Reprs(c.residuals))
  {
    CompressOfOk(src);
  }

  /** A strictly increasing list is its own sorted distinct list. */
  lemma DistinctOfIncreasing(s: seq<int>)
    requires StrictlyIncreasing(s)
    ensures Distinct(s) == s
  {
    StrictlyIncreasingUnique(Distinct(s), s);
  }

  /** A successful compression records at least one class. */
  lemma CompressNonEmpty(src: seq<int>)
    requires CompressOf(src).Ok?
    ensures |CompressOf(src).value.residuals| >= 1
  {
    CompressOfOk(src);
    var d := Distinct(src);
    GreedyCoverTerms(d, d, d[0], d[|d| - 1]);
  }

  /** The compression is exact: over [min, max] the union of its classes is
      the input set. */
  lemma CompressExact(src: seq<int>, x: int)
    requires CompressOf(src).Ok?
    ensures var c := CompressOf(src).value;
      c.distinct[0] <= x <= c.distinct[|c.distinct| - 1] ==>
        (AnyHits(c.residuals, x) <==> x in src)
  {
    CompressOfOk(src);
    var d := Distinct(src);
    var lo, hi := d[0], d[|d| - 1];
    if lo <= x <= hi {
      GreedyCoverExact(d, d, lo, hi, x);
      assert x in d <==> x in Elems(src);
    }
  }
}
