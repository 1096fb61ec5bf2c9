/** The residue class `Residual` of build/lib/comptools/sievetools.py: every
    integer congruent to `shift` modulo `module`, held as a one-hot vector of
    length `module`. */
module SieveResidual {
  import opened PyBase
  import opened PyStr
  import opened Arith
  import opened SievePatterns

  /** The attributes a Residual holds once its constructor has returned. */
  datatype Residual = Residual(modulus: int, shift: int, bin: seq<int>, stringrepr: string, period: nat)
  {
    /** A successfully built residual has a non-empty period vector. */
    predicate Valid()
    {
      |bin| >= 1 && period == |bin|
    }
  }

  /** _binary_repr for a positive modulus: zeros with a single 1 at shift mod m. */
  function BinaryRepr(m: int, shift: int): (r: seq<int>)
    requires m >= 1
    ensures |r| == m
    ensures forall k :: 0 <= k < m ==> (r[k] == 1 <==> k == shift % m)
    ensures forall k :: 0 <= k < m ==> r[k] == 0 || r[k] == 1
  {
    seq(m, _ => 0)[shift % m := 1]
  }

  /** _binary_repr on any modulus: `[0] * m` is empty for m <= 0, and the
      following index raises ZeroDivisionError for m == 0 (Python's `%`) and
      IndexError for m < 0. */
  function BinaryReprChecked(m: int, shift: int): (r: Result<seq<int>>)
    ensures m == 0 <==> r == Err(ZeroDivisionError)
    ensures m < 0 <==> r == Err(IndexError)
    ensures m >= 1 ==> r == Ok(BinaryRepr(m, shift))
  {
    if m == 0 then Err(ZeroDivisionError)
    else if m < 0 then Err(IndexError)
    else Ok(BinaryRepr(m, shift))
  }

  /** Residual(m, shift) with an integer m. */
  function FromInts(m: int, shift: int): (r: Result<Residual>)
    ensures m >= 1 <==> r.Ok?
    ensures r.Ok? ==> r.value.Valid() && r.value.modulus == m && r.value.shift == shift
                      && r.value.period == m
                      && r.value.stringrepr == IntToString(m) + "@" + IntToString(shift)
  {
    match BinaryReprChecked(m, shift)
    case Err(e) => Err(e)
    case Ok(bin) => Ok(Residual(m, shift, bin, IntToString(m) + "@" + IntToString(shift), |bin|))
  }

  /** The residual is what Residual(m, shift) builds from its two integers. */
  predicate BuiltFromInts(r: Residual)
  {
    r.modulus >= 1 && FromInts(r.modulus, r.shift) == Ok(r)
  }

  /** Residual(text) with a string: `text.split("@")`, then `int` of the
      first two pieces (further pieces are ignored). The default shift 0 is what
      str() appends, so the stored text is text + "@0". */
  function FromText(text: string): (r: Result<Residual>)
    ensures r.Ok? ==> r.value.Valid() && r.value.stringrepr == text + "@0"
  {
    var parts := Split(text, '@');
    match ParseInt(parts[0])
    case None => Err(ValueError)
    case Some(m) =>
      if |parts| < 2 then Err(IndexError)
      else
        match ParseInt(parts[1])
        case None => Err(ValueError)
        case Some(s) =>
          match BinaryReprChecked(m, s)
          case Err(e) => Err(e)
          case Ok(bin) => Ok(Residual(m, s, bin, text + "@0", |bin|))
  }

  /** The text "m@s" a residual built from integers prints as parses back to
      the same class. */
  lemma FromTextOfRepr(m: int, s: int)
    requires m >= 1
    ensures FromText(IntToString(m) + "@" + IntToString(s)).Ok?
    ensures FromText(IntToString(m) + "@" + IntToString(s)).value.bin == FromInts(m, s).value.bin
    ensures FromText(IntToString(m) + "@" + IntToString(s)).value.modulus == m
    ensures FromText(IntToString(m) + "@" + IntToString(s)).value.shift == s
  {
    var a, b := IntToString(m), IntToString(s);
    assert '@' !in a && '@' !in b by {
      assert forall k :: 0 <= k < |a| ==> a[k] != '@';
      assert forall k :: 0 <= k < |b| ==> b[k] != '@';
    }
    assert Join("@", [a, b]) == a + "@" + b;
    SplitJoin([a, b], '@');
    ParseIntOfIntToString(m);
    ParseIntOfIntToString(s);
  }

  /** Membership in a residual's periodic set: x hits Residual(m, s) exactly
      when x and s agree modulo m. */
  lemma HitsResidual(m: int, s: int, x: int)
    requires m >= 1
    ensures Hits(BinaryRepr(m, s), x) <==> x % m == s % m
  {
  }

  /** What `segment(lo, hi)` lists: the x in [lo, hi], in increasing order,
      whose position in the period vector holds a 1. */
  function SegmentOf(bin: seq<int>, lo: int, hi: int): (r: seq<int>)
    requires |bin| >= 1
    ensures forall x :: x in r <==> lo <= x <= hi && Hits(bin, x)
    ensures StrictlyIncreasing(r)
    ensures forall i :: 0 <= i < |r| ==> lo <= r[i] <= hi
    decreases if hi < lo then 0 else hi - lo + 1
  {
    if hi < lo then []
    else
      var front := SegmentOf(bin, lo, hi - 1);
      if Hits(bin, hi) then
        AppendAbove(front, lo, hi);
        front + [hi]
      else
        front
  }

  /** A strictly increasing list inside [lo, hi - 1] stays strictly
      increasing, inside [lo, hi], with hi after it. */
  lemma AppendAbove(front: seq<int>, lo: int, hi: int)
    requires lo <= hi && StrictlyIncreasing(front)
    requires forall i :: 0 <= i < |front| ==> lo <= front[i] <= hi - 1
    ensures StrictlyIncreasing(front + [hi])
    ensures forall i :: 0 <= i < |front| + 1 ==> lo <= (front + [hi])[i] <= hi
  {
  }

  /** `[x + shift for x in s]`. */
  function Shifted(s: seq<int>, shift: int): (r: seq<int>)
    ensures |r| == |s| && forall i :: 0 <= i < |s| ==> r[i] == s[i] + shift
  {
    seq(|s|, i requires 0 <= i < |s| => s[i] + shift)
  }

  /** Residual.segment(minVal, maxVal, shift): the loop over
      range(minVal, maxVal + 1) collecting the hits, then every one moved by
      shift. */
  method Segment(bin: seq<int>, minVal: int, maxVal: int, shift: int) returns (r: seq<int>)
    requires |bin| >= 1
    ensures r == Shifted(SegmentOf(bin, minVal, maxVal), shift)
  {
    var result: seq<int> := [];
    var x := minVal;
    while x <= maxVal
      invariant minVal <= x <= if minVal <= maxVal then maxVal + 1 else minVal
      invariant result == SegmentOf(bin, minVal, x - 1)
      decreases maxVal + 1 - x
    {
      if bin[x % |bin|] == 1 {
        result := result + [x];
      }
      x := x + 1;
    }
    if minVal > maxVal {
      assert x == minVal;
    } else {
      assert x == maxVal + 1;
    }
    r := Shifted(result, shift);
  }

  /** Residual.intersection: the AND of both period vectors. */
  method Intersection(self: Residual, other: Residual) returns (r: seq<int>)
    requires self.Valid() && other.Valid()
    ensures r == Combined(self.bin, other.bin, And)
    ensures forall x :: Hits(r, x) <==> Hits(self.bin, x) && Hits(other.bin, x)
  {
    r := OperationsSieves(self.bin, other.bin, And);
    forall x ensures Hits(r, x) <==> Hits(self.bin, x) && Hits(other.bin, x) {
      CombinedHits(self.bin, other.bin, And, x);
    }
  }

  /** Residual.union: the OR of both period vectors. */
  method Union(self: Residual, other: Residual) returns (r: seq<int>)
    requires self.Valid() && other.Valid()
    ensures r == Combined(self.bin, other.bin, Or)
    ensures forall x :: Hits(r, x) <==> Hits(self.bin, x) || Hits(other.bin, x)
  {
    r := OperationsSieves(self.bin, other.bin, Or);
    forall x ensures Hits(r, x) <==> Hits(self.bin, x) || Hits(other.bin, x) {
      CombinedHits(self.bin, other.bin, Or, x);
    }
  }

  /** The residual segment over a window: the class members in it. */
  lemma ResidualSegment(m: int, s: int, lo: int, hi: int, x: int)
    requires m >= 1
    ensures x in SegmentOf(BinaryRepr(m, s), lo, hi) <==> lo <= x <= hi && x % m == s % m
  {
  }

  /** A residual's segment is the one increasing list of the class members
      in the window. */
  lemma ResidualSegmentIs(m: int, s: int, lo: int, hi: int, e: seq<int>)
    requires m >= 1 && StrictlyIncreasing(e)
    requires forall x :: x in e <==> lo <= x <= hi && x % m == s % m
    ensures SegmentOf(BinaryRepr(m, s), lo, hi) == e
  {
    var r := SegmentOf(BinaryRepr(m, s), lo, hi);
    forall x ensures x in r <==> x in e {
      ResidualSegment(m, s, lo, hi, x);
    }
    assert Elems(r) == Elems(e);
    StrictlyIncreasingUnique(r, e);
  }

  /** The example of the segment query: 5@4 over [0, 20] is [4, 9, 14, 19]. */
  lemma SegmentExample()
    ensures SegmentOf(BinaryRepr(5, 4), 0, 20) == [4, 9, 14, 19]
  {
    forall x ensures x in [4, 9, 14, 19] <==> 0 <= x <= 20 && x % 5 == 4 % 5 {
      var q := x / 5;
      assert x == 5 * q + x % 5;
    }
    ResidualSegmentIs(5, 4, 0, 20, [4, 9, 14, 19]);
  }
}
