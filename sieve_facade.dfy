/** The class `Sieve` of build/lib/comptools/sievetools.py: a periodic set of
    integers built from a 0/1 vector, from an explicit list of integers (through
    Compress) or from a formula such as "5@4|6@1|(3@2&13@7)". */
module SieveFacade {
  import opened PyBase
  import opened PyStr
  import opened Arith
  import opened SievePatterns
  import opened SieveResidual
  import opened SieveCompress

  // ---------------------------------------------------------------------
  // Folding period vectors with an operation
  // ---------------------------------------------------------------------

  /** Every vector of the list is a non-empty period vector. */
  predicate AllNonEmpty(bins: seq<seq<int>>)
  {
    forall i :: 0 <= i < |bins| ==> |bins[i]| >= 1
  }

  /** `first = bins[0]; for b in bins[1:]: first = _operationsSieves(first, b, op)`:
      the left fold of the combination over a non-empty list of vectors. */
  function FoldBins(bins: seq<seq<int>>, op: Op): (r: seq<int>)
    requires |bins| >= 1 && AllNonEmpty(bins)
    ensures |r| >= 1
  {
    if |bins| == 1 then bins[0]
    else Combined(FoldBins(bins[..|bins| - 1], op), bins[|bins| - 1], op)
  }

  /** A union fold hits x exactly when one of the vectors does. */
  lemma {:induction false} FoldOrHits(bins: seq<seq<int>>, x: int)
    requires |bins| >= 1 && AllNonEmpty(bins)
    ensures Hits(FoldBins(bins, Or), x) <==> exists i :: 0 <= i < |bins| && Hits(bins[i], x)
  {
    if |bins| > 1 {
      var init := bins[..|bins| - 1];
      assert AllNonEmpty(init);
      FoldOrHits(init, x);
      CombinedHits(FoldBins(init, Or), bins[|bins| - 1], Or, x);
      if exists i :: 0 <= i < |init| && Hits(init[i], x) {
        var i :| 0 <= i < |init| && Hits(init[i], x);
        assert bins[i] == init[i];
      }
      if exists i :: 0 <= i < |bins| && Hits(bins[i], x) {
        var i :| 0 <= i < |bins| && Hits(bins[i], x);
        if i < |init| {
          assert init[i] == bins[i];
        }
      }
    }
  }

  /** An intersection fold hits x exactly when every vector does. */
  lemma {:induction false} FoldAndHits(bins: seq<seq<int>>, x: int)
    requires |bins| >= 1 && AllNonEmpty(bins)
    ensures Hits(FoldBins(bins, And), x) <==> forall i :: 0 <= i < |bins| ==> Hits(bins[i], x)
  {
    if |bins| > 1 {
      var init := bins[..|bins| - 1];
      assert AllNonEmpty(init);
      FoldAndHits(init, x);
      CombinedHits(FoldBins(init, And), bins[|bins| - 1], And, x);
      assert forall i :: 0 <= i < |init| ==> init[i] == bins[i];
    }
  }

  /** The fold loop that appears three times in the class: over the residual
      vectors of a compression, over the literals of an `&` group and over the
      groups of a formula. */
  method FoldLoop(bins: seq<seq<int>>, op: Op) returns (acc: seq<int>)
    requires |bins| >= 1 && AllNonEmpty(bins)
    ensures acc == FoldBins(bins, op)
  {
    acc := bins[0];
    assert bins[..1] == [bins[0]];
    for i := 1 to |bins|
      invariant acc == FoldBins(bins[..i], op)
    {
      assert bins[..i + 1] == bins[..i] + [bins[i]];
      FoldSnoc(bins[..i], bins[i], op);
      acc := OperationsSieves(acc, bins[i], op);
    }
    assert bins[..|bins|] == bins;
  }

  /** One more vector at the end is one more combination. */
  lemma FoldSnoc(bins: seq<seq<int>>, b: seq<int>, op: Op)
    requires |bins| >= 1 && AllNonEmpty(bins) && |b| >= 1
    ensures AllNonEmpty(bins + [b])
    ensures FoldBins(bins + [b], op) == Combined(FoldBins(bins, op), b, op)
  {
    assert (bins + [b])[..|bins|] == bins;
  }

  /** `[x.bin for x in residuals]`. */
  function BinsOf(rs: seq<Residual>): (r: seq<seq<int>>)
    ensures |r| == |rs| && forall i :: 0 <= i < |rs| ==> r[i] == rs[i].bin
  {
    seq(|rs|, i requires 0 <= i < |rs| => rs[i].bin)
  }

  /** The period vector the list constructor builds from a compression: the
      union of the vectors of its classes. */
  function UnionBin(rs: seq<Residual>): (r: seq<int>)
    requires |rs| >= 1 && forall i :: 0 <= i < |rs| ==> rs[i].Valid()
    ensures |r| >= 1
  {
    assert AllNonEmpty(BinsOf(rs)) by {
      forall i | 0 <= i < |rs| ensures |BinsOf(rs)[i]| >= 1 {
        assert rs[i].Valid();
      }
    }
    FoldBins(BinsOf(rs), Or)
  }

  /** AnyHits is membership in one of the classes. */
  lemma {:induction false} AnyHitsSome(rs: seq<Residual>, x: int)
    requires forall i :: 0 <= i < |rs| ==> rs[i].Valid()
    ensures AnyHits(rs, x) <==> exists i :: 0 <= i < |rs| && Hits(rs[i].bin, x)
  {
    if rs != [] {
      AnyHitsSome(rs[1..], x);
      if exists i :: 0 <= i < |rs| && Hits(rs[i].bin, x) {
        var i :| 0 <= i < |rs| && Hits(rs[i].bin, x);
        if i > 0 {
          assert rs[1..][i - 1] == rs[i];
        }
      }
      if exists i :: 0 <= i < |rs[1..]| && Hits(rs[1..][i].bin, x) {
        var i :| 0 <= i < |rs[1..]| && Hits(rs[1..][i].bin, x);
        assert rs[i + 1] == rs[1..][i];
      }
    }
  }

  /** The union vector hits exactly the points of the recorded classes. */
  lemma UnionBinHits(rs: seq<Residual>, x: int)
    requires |rs| >= 1 && forall i :: 0 <= i < |rs| ==> rs[i].Valid()
    ensures Hits(UnionBin(rs), x) <==> AnyHits(rs, x)
  {
    var bins := BinsOf(rs);
    FoldOrHits(bins, x);
    AnyHitsSome(rs, x);
    assert forall i :: 0 <= i < |rs| ==> bins[i] == rs[i].bin;
  }

  /** A strictly increasing list whose window the classes cover exactly is
      the segment of their union over that window. */
  lemma SegmentOfUnionIs(rs: seq<Residual>, d: seq<int>)
    requires |rs| >= 1 && forall i :: 0 <= i < |rs| ==> rs[i].Valid()
    requires |d| >= 1 && StrictlyIncreasing(d)
    requires forall x :: d[0] <= x <= d[|d| - 1] ==> (AnyHits(rs, x) <==> x in d)
    ensures SegmentOf(UnionBin(rs), d[0], d[|d| - 1]) == d
  {
    var seg := SegmentOf(UnionBin(rs), d[0], d[|d| - 1]);
    assert Elems(seg) == Elems(d) by {
      forall x ensures x in seg <==> x in d {
        SegmentOfUnionMember(rs, d, x);
      }
    }
    StrictlyIncreasingUnique(seg, d);
  }

  lemma SegmentOfUnionMember(rs: seq<Residual>, d: seq<int>, x: int)
    requires |rs| >= 1 && forall i :: 0 <= i < |rs| ==> rs[i].Valid()
    requires |d| >= 1 && StrictlyIncreasing(d)
    requires d[0] <= x <= d[|d| - 1] ==> (AnyHits(rs, x) <==> x in d)
    ensures x in SegmentOf(UnionBin(rs), d[0], d[|d| - 1]) <==> x in d
  {
    UnionBinHits(rs, x);
    if x in d {
      var i :| 0 <= i < |d| && d[i] == x;
      assert d[0] <= d[i] <= d[|d| - 1];
    }
  }

  /** The list round trip: for a list compressed into classes, the segment of
      their union over [min, max] is the sorted distinct input again. */
  lemma ListRoundTrip(src: seq<int>)
    requires CompressOf(src).Ok?
    ensures var c := CompressOf(src).value;
      |c.residuals| >= 1
      && SegmentOf(UnionBin(c.residuals), c.distinct[0], c.distinct[|c.distinct| - 1]) == Distinct(src)
  {
    CompressParts(src);
    var c := CompressOf(src).value;
    CoverSegment(Distinct(src), c.residuals);
  }

  /** Over the window of a sorted distinct list, the union of its greedy
      cover hits exactly the list. */
  lemma CoverSegment(d: seq<int>, rs: seq<Residual>)
    requires |d| >= 2 && StrictlyIncreasing(d) && InWindow(d, d[0], d[|d| - 1])
    requires rs == GreedyCover(d, d, d[0], d[|d| - 1])
    ensures |rs| >= 1 && SegmentOf(UnionBin(rs), d[0], d[|d| - 1]) == d
  {
    var lo, hi := d[0], d[|d| - 1];
    GreedyCoverTerms(d, d, lo, hi);
    forall x | lo <= x <= hi ensures AnyHits(rs, x) <==> x in d {
      GreedyCoverExact(d, d, lo, hi, x);
    }
    SegmentOfUnionIs(rs, d);
  }

  // ---------------------------------------------------------------------
  // _parsestring
  // ---------------------------------------------------------------------

  /** One literal "m@s" of a formula, as the period vector of its class. */
  function LiteralBin(text: string): (r: Result<seq<int>>)
    ensures r.Ok? ==> |r.value| >= 1
  {
    match FromText(text)
    case Err(e) => Err(e)
    case Ok(res) => Ok(res.bin)
  }

  /** A list evaluated left to right, stopping at the first error, as a
      Python loop does when a call inside it raises. */
  function Traverse<A, B>(f: A -> Result<B>, xs: seq<A>): (r: Result<seq<B>>)
    ensures r.Ok? ==> |r.value| == |xs|
    ensures r.Ok? ==> forall i :: 0 <= i < |xs| ==> f(xs[i]) == Ok(r.value[i])
  {
    if xs == [] then Ok([])
    else
      match Traverse(f, xs[..|xs| - 1])
      case Err(e) => Err(e)
      case Ok(front) =>
        match f(xs[|xs| - 1])
        case Err(e) => Err(e)
        case Ok(y) => Ok(front + [y])
  }

  /** An error met on a prefix is the error of the whole list. */
  lemma {:induction false} TraverseErrPrefix<A, B>(f: A -> Result<B>, xs: seq<A>, k: nat)
    requires k <= |xs| && Traverse(f, xs[..k]).Err?
    ensures Traverse(f, xs) == Traverse(f, xs[..k])
    decreases |xs|
  {
    if k < |xs| {
      assert xs[..|xs| - 1][..k] == xs[..k];
      TraverseErrPrefix(f, xs[..|xs| - 1], k);
    } else {
      assert xs[..k] == xs;
    }
  }

  /** Traverse succeeds exactly when every element does, and otherwise fails
      with the error of the first element that fails. */
  lemma {:induction false} TraverseFirstError<A, B>(f: A -> Result<B>, xs: seq<A>, k: nat)
    requires k < |xs| && f(xs[k]).Err?
    requires forall j :: 0 <= j < k ==> f(xs[j]).Ok?
    ensures Traverse(f, xs) == Err(f(xs[k]).error)
  {
    TraverseOkPrefix(f, xs[..k]);
    assert forall j :: 0 <= j < k ==> xs[..k][j] == xs[j];
    assert xs[..k + 1][..k] == xs[..k];
    TraverseErrPrefix(f, xs, k + 1);
  }

  /** Traverse fails only if some element fails. */
  lemma {:induction false} TraverseOkPrefix<A, B>(f: A -> Result<B>, xs: seq<A>)
    requires forall j :: 0 <= j < |xs| ==> f(xs[j]).Ok?
    ensures Traverse(f, xs).Ok?
  {
    if xs != [] {
      var init := xs[..|xs| - 1];
      assert forall j :: 0 <= j < |init| ==> init[j] == xs[j];
      TraverseOkPrefix(f, init);
    }
  }

  /** The literals of one `&` group: `[x.strip("()") for x in group.split("&")]`. */
  function Literals(group: string): (r: seq<string>)
    ensures |r| >= 1
  {
    var pieces := Split(group, '&');
    seq(|pieces|, i requires 0 <= i < |pieces| => Strip(pieces[i], {'(', ')'}))
  }

  /** The intersection of the literals of one group. */
  function GroupBin(group: string): (r: Result<seq<int>>)
    ensures r.Ok? ==> |r.value| >= 1
  {
    match Traverse(LiteralBin, Literals(group))
    case Err(e) => Err(e)
    case Ok(bins) =>
      assert AllNonEmpty(bins) by {
        forall i | 0 <= i < |bins| ensures |bins[i]| >= 1 {
          assert LiteralBin(Literals(group)[i]) == Ok(bins[i]);
        }
      }
      Ok(FoldBins(bins, And))
  }

  /** What _parsestring computes: the union of the groups separated by "|",
      each the intersection of its literals; the first malformed literal
      raises. */
  function ParsedBin(text: string): (r: Result<seq<int>>)
    ensures r.Ok? ==> |r.value| >= 1
  {
    var groups := Split(text, '|');
    match Traverse(GroupBin, groups)
    case Err(e) => Err(e)
    case Ok(bins) =>
      assert AllNonEmpty(bins) by {
        forall i | 0 <= i < |bins| ensures |bins[i]| >= 1 {
          assert GroupBin(groups[i]) == Ok(bins[i]);
        }
      }
      Ok(FoldBins(bins, Or))
  }

  /** One more element evaluated after a prefix that succeeded. */
  lemma TraverseSnoc<A, B>(f: A -> Result<B>, xs: seq<A>, i: nat, front: seq<B>)
    requires i < |xs| && Traverse(f, xs[..i]) == Ok(front)
    ensures Traverse(f, xs[..i + 1]) == match f(xs[i]) case Err(e) => Err(e) case Ok(y) => Ok(front + [y])
  {
    assert xs[..i + 1][..i] == xs[..i];
  }

  /** The loop body of _parsestring for one group: the first literal's
      vector, intersected with each further literal's in turn. */
  method ParseGroup(group: string) returns (r: Result<seq<int>>)
    ensures r == GroupBin(group)
  {
    var indRes := Literals(group);
    assert indRes[..0] == [];
    TraverseSnoc(LiteralBin, indRes, 0, []);
    var resd := LiteralBin(indRes[0]);
    if resd.Err? {
      TraverseErrPrefix(LiteralBin, indRes, 1);
      return Err(resd.error);
    }
    var firstRed := resd.value;
    ghost var bins := [firstRed];
    assert [] + bins == bins;
    for i := 1 to |indRes|
      invariant Traverse(LiteralBin, indRes[..i]) == Ok(bins)
      invariant |bins| == i && AllNonEmpty(bins) && firstRed == FoldBins(bins, And)
    {
      TraverseSnoc(LiteralBin, indRes, i, bins);
      var res := LiteralBin(indRes[i]);
      if res.Err? {
        TraverseErrPrefix(LiteralBin, indRes, i + 1);
        return Err(res.error);
      }
      FoldSnoc(bins, res.value, And);
      firstRed := OperationsSieves(firstRed, res.value, And);
      bins := bins + [res.value];
    }
    assert indRes[..|indRes|] == indRes;
    r := Ok(firstRed);
  }

  /** _parsestring. */
  method ParseString(text: string) returns (r: Result<seq<int>>)
    ensures r == ParsedBin(text)
  {
    var groups := Split(text, '|');
    var unionGroups: seq<seq<int>> := [];
    for i := 0 to |groups|
      invariant Traverse(GroupBin, groups[..i]) == Ok(unionGroups)
    {
      TraverseSnoc(GroupBin, groups, i, unionGroups);
      var g := ParseGroup(groups[i]);
      if g.Err? {
        TraverseErrPrefix(GroupBin, groups, i + 1);
        return Err(g.error);
      }
      unionGroups := unionGroups + [g.value];
    }
    assert groups[..|groups|] == groups;
    assert AllNonEmpty(unionGroups) by {
      forall i | 0 <= i < |unionGroups| ensures |unionGroups[i]| >= 1 {
        assert GroupBin(groups[i]) == Ok(unionGroups[i]);
      }
    }
    var firstU := FoldLoop(unionGroups, Or);
    r := Ok(firstU);
  }

  /** Traverse of a list whose every element succeeds is the list of their
      values. */
  lemma {:induction false} TraverseAllOk<A, B>(f: A -> Result<B>, xs: seq<A>, ys: seq<B>)
    requires |xs| == |ys| && forall i :: 0 <= i < |xs| ==> f(xs[i]) == Ok(ys[i])
    ensures Traverse(f, xs) == Ok(ys)
  {
    if xs != [] {
      var n := |xs| - 1;
      assert forall i :: 0 <= i < n ==> xs[..n][i] == xs[i] && ys[..n][i] == ys[i];
      TraverseAllOk(f, xs[..n], ys[..n]);
      assert ys == ys[..n] + [ys[n]];
    }
  }

  /** The characters of the text "m@s" of a class: digits, '-' and '@'. */
  lemma ReprChars(m: int, s: int, k: int)
    requires 0 <= k < |IntToString(m) + "@" + IntToString(s)|
    ensures var c := (IntToString(m) + "@" + IntToString(s))[k]; IsDigit(c) || c == '-' || c == '@'
  {
    var a := IntToString(m);
    if k > |a| {
      assert (a + "@" + IntToString(s))[k] == IntToString(s)[k - |a| - 1];
    }
  }

  /** A group with no "&" and no parentheses is a single literal. */
  lemma LiteralsOfPlain(g: string)
    requires forall k :: 0 <= k < |g| ==> g[k] != '&' && g[k] != '(' && g[k] != ')'
    ensures Literals(g) == [g]
  {
    assert '&' !in g;
    StripNothing(g, {'(', ')'});
  }

  /** A group that is a single literal has that literal's vector. */
  lemma GroupOfLiteral(g: string)
    requires Literals(g) == [g]
    ensures GroupBin(g) == LiteralBin(g)
  {
    assert [g][..0] == [] && [g][..1] == [g];
    TraverseSnoc(LiteralBin, [g], 0, []);
    if LiteralBin(g).Ok? {
      assert [] + [LiteralBin(g).value] == [LiteralBin(g).value];
    }
  }

  /** The text "m@s" of a class, read as a group, is the vector of that class. */
  lemma GroupOfRepr(m: int, s: int)
    requires m >= 1
    ensures GroupBin(IntToString(m) + "@" + IntToString(s)) == Ok(BinaryRepr(m, s))
  {
    var g := IntToString(m) + "@" + IntToString(s);
    forall k | 0 <= k < |g| ensures g[k] != '&' && g[k] != '(' && g[k] != ')' {
      ReprChars(m, s, k);
    }
    LiteralsOfPlain(g);
    GroupOfLiteral(g);
    FromTextOfRepr(m, s);
  }

  /** No "|" occurs in the text of a class built from integers. */
  lemma NoBarInRepr(r: Residual)
    requires BuiltFromInts(r)
    ensures '|' !in r.stringrepr
  {
    forall k | 0 <= k < |r.stringrepr| ensures r.stringrepr[k] != '|' {
      ReprChars(r.modulus, r.shift, k);
    }
  }

  /** The text round trip: the string the compressor prints parses back to
      the union of its classes. */
  lemma TextRoundTrip(rs: seq<Residual>)
    requires |rs| >= 1 && forall i :: 0 <= i < |rs| ==> BuiltFromInts(rs[i])
    ensures forall i :: 0 <= i < |rs| ==> rs[i].Valid()
    ensures ParsedBin(Join("|", Reprs(rs))) == Ok(UnionBin(rs))
  {
    var reprs := Reprs(rs);
    forall i | 0 <= i < |rs| ensures '|' !in reprs[i] {
      NoBarInRepr(rs[i]);
    }
    forall i | 0 <= i < |rs| ensures GroupBin(reprs[i]) == Ok(BinsOf(rs)[i]) {
      GroupOfRepr(rs[i].modulus, rs[i].shift);
    }
    ParsedGroups(reprs, BinsOf(rs));
  }

  /** Groups joined by "|" parse to the union of their vectors. */
  lemma ParsedGroups(groups: seq<string>, bins: seq<seq<int>>)
    requires |groups| >= 1 && |bins| == |groups|
    requires forall i :: 0 <= i < |groups| ==> '|' !in groups[i]
    requires forall i :: 0 <= i < |groups| ==> GroupBin(groups[i]) == Ok(bins[i])
    ensures AllNonEmpty(bins)
    ensures ParsedBin(Join("|", groups)) == Ok(FoldBins(bins, Or))
  {
    SplitJoin(groups, '|');
    assert Split(Join("|", groups), '|') == groups;
    TraverseAllOk(GroupBin, groups, bins);
  }

  /** The string a compression prints parses back to the union of its
      classes: Sieve(Compress(xs).stringrepr) has the vector Sieve(xs) has. */
  lemma CompressTextRoundTrip(src: seq<int>)
    requires CompressOf(src).Ok?
    ensures var c := CompressOf(src).value;
      |c.residuals| >= 1 && ParsedBin(c.stringrepr) == Ok(UnionBin(c.residuals))
  {
    CompressParts(src);
    var c := CompressOf(src).value;
    CoverRoundTrip(Distinct(src), c.residuals, c.stringrepr);
  }

  /** The greedy cover of a sorted distinct list, printed with "|", parses
      back to the union of its classes. */
  lemma CoverRoundTrip(d: seq<int>, rs: seq<Residual>, text: string)
    requires |d| >= 2 && InWindow(d, d[0], d[|d| - 1])
    requires rs == GreedyCover(d, d, d[0], d[|d| - 1]) && text == Join("|", Reprs(rs))
    ensures |rs| >= 1 && ParsedBin(text) == Ok(UnionBin(rs))
  {
    GreedyCoverTerms(d, d, d[0], d[|d| - 1]);
    GreedyCoverBuilt(d, d, d[0], d[|d| - 1]);
    TextRoundTrip(rs);
  }

  // ---------------------------------------------------------------------
  // intervals
  // ---------------------------------------------------------------------

  /** Sieve.intervals on a segment: the successive differences, except that
      a one-point segment is returned unchanged. */
  function Intervals(seg: seq<int>): (r: seq<int>)
    ensures |seg| >= 2 ==> |r| == |seg| - 1
  {
    if |seg| == 1 then seg
    else if seg == [] then []
    else seq(|seg| - 1, i requires 0 <= i < |seg| - 1 => seg[i + 1] - seg[i])
  }

  /** The differences rebuild the segment from its first point. */
  lemma {:induction false} IntervalsRebuild(seg: seq<int>, k: nat)
    requires |seg| >= 2 && k < |seg|
    ensures seg[k] == seg[0] + Sum(Intervals(seg)[..k])
  {
    if k > 0 {
      IntervalsRebuild(seg, k - 1);
      SumPrefix(Intervals(seg), k - 1);
    }
  }

  /** Over the segment the differences add up to its span. */
  lemma IntervalsSpan(seg: seq<int>)
    requires |seg| >= 2
    ensures Sum(Intervals(seg)) == seg[|seg| - 1] - seg[0]
  {
    IntervalsRebuild(seg, |seg| - 1);
    assert Intervals(seg)[..|seg| - 1] == Intervals(seg);
  }

  /** The differences of an increasing segment are positive. */
  lemma IntervalsPositive(seg: seq<int>)
    requires |seg| >= 2 && StrictlyIncreasing(seg)
    ensures forall i :: 0 <= i < |Intervals(seg)| ==> Intervals(seg)[i] > 0
  {
  }

  // ---------------------------------------------------------------------
  // The Sieve object
  // ---------------------------------------------------------------------

  /** The two kinds of argument the constructor accepts. */
  datatype Initializer = ListInit(items: seq<int>) | TextInit(text: string)

  /** The attributes of a constructed Sieve (canonic_unitsegment holds floats
      and is not kept; its IndexError on an empty segment is). */
  datatype Sieve = Sieve(bin: seq<int>, stringrepr: string, initSeg: Option<seq<int>>,
                         canonicIntervals: seq<int>, period: nat, canonicSegment: seq<int>,
                         compressed: string)

  /** `sorted(list(set(initializer))) == [0, 1]`. */
  predicate IsBitVector(items: seq<int>)
  {
    Distinct(items) == [0, 1]
  }

  /** A list is taken for a bit vector exactly when its values are 0 and 1. */
  lemma IsBitVectorIff(items: seq<int>)
    ensures IsBitVector(items) <==> Elems(items) == {0, 1}
  {
    if Elems(items) == {0, 1} {
      assert Elems([0, 1]) == {0, 1};
      StrictlyIncreasingUnique(Distinct(items), [0, 1]);
    }
    if IsBitVector(items) {
      assert Elems(items) == Elems([0, 1]);
    }
  }

  /** A bit vector has at least one entry. */
  lemma BitVectorNonEmpty(items: seq<int>)
    requires IsBitVector(items)
    ensures |items| >= 1
  {
    assert 0 in Elems(Distinct(items));
  }

  /** The attributes the constructor computes once bin and stringrepr are set:
      canonic_intervals, canonic_unitsegment (IndexError on an empty
      segment), period, canonic_segment and compressed (ValueError from
      Compress). */
  function Finish(bin: seq<int>, repr: string, initSeg: Option<seq<int>>): (r: Result<Sieve>)
    requires |bin| >= 1
  {
    var seg := SegmentOf(bin, 0, |bin|);
    if seg == [] then Err(IndexError)
    else
      match CompressOf(seg)
      case Err(e) => Err(e)
      case Ok(c) => Ok(Sieve(bin, repr, initSeg, Intervals(seg), |bin|, seg, c.stringrepr))
  }

  /** Sieve(initializer). */
  function SieveOf(init: Initializer): (r: Result<Sieve>)
  {
    match init
    case ListInit(items) =>
      if IsBitVector(items) then
        BitVectorNonEmpty(items);
        var initSeg := SegmentOf(items, 0, |items|);
        (match CompressOf(initSeg)
         case Err(e) => Err(e)
         case Ok(c) => Finish(items, c.stringrepr, Some(initSeg)))
      else
        (match CompressOf(items)
         case Err(e) => Err(e)
         case Ok(c) =>
           CompressNonEmpty(items);
           Finish(UnionBin(c.residuals), c.stringrepr, Some(items)))
    case TextInit(text) =>
      match ParsedBin(text)
      case Err(e) => Err(e)
      case Ok(bin) => Finish(bin, text, None)
  }

  /** The closing lines of the constructor. */
  method FinishSieve(bin: seq<int>, repr: string, initSeg: Option<seq<int>>) returns (r: Result<Sieve>)
    requires |bin| >= 1
    ensures r == Finish(bin, repr, initSeg)
  {
    var segment := Segment(bin, 0, |bin|, 0);
    assert segment == SegmentOf(bin, 0, |bin|);
    var intervals := Intervals(segment);
    if |segment| == 0 {
      return Err(IndexError);
    }
    var period := |bin|;
    var canonic := Segment(bin, 0, period, 0);
    assert canonic == segment;
    var compSieve := Compress(canonic);
    if compSieve.Err? {
      return Err(compSieve.error);
    }
    r := Ok(Sieve(bin, repr, initSeg, intervals, period, canonic, compSieve.value.stringrepr));
  }

  /** Sieve.__init__. */
  method NewSieve(init: Initializer) returns (r: Result<Sieve>)
    ensures r == SieveOf(init)
  {
    match init {
    case ListInit(items) =>
      if Distinct(items) == [0, 1] {
        BitVectorNonEmpty(items);
        var initSeg := Segment(items, 0, |items|, 0);
        assert initSeg == SegmentOf(items, 0, |items|);
        var compressedSeg := Compress(initSeg);
        if compressedSeg.Err? {
          return Err(compressedSeg.error);
        }
        r := FinishSieve(items, compressedSeg.value.stringrepr, Some(initSeg));
      } else {
        var compressedSeg := Compress(items);
        if compressedSeg.Err? {
          return Err(compressedSeg.error);
        }
        var c := compressedSeg.value;
        CompressNonEmpty(items);
        assert AllNonEmpty(BinsOf(c.residuals)) by {
          forall i | 0 <= i < |c.residuals| ensures |BinsOf(c.residuals)[i]| >= 1 {
            assert c.residuals[i].Valid();
          }
        }
        var bin := FoldLoop(BinsOf(c.residuals), Or);
        r := FinishSieve(bin, c.stringrepr, Some(items));
      }
    case TextInit(text) =>
      var bin := ParseString(text);
      if bin.Err? {
        return Err(bin.error);
      }
      r := FinishSieve(bin.value, text, None);
    }
  }

  /** A sieve built from a list that is not a bit vector has as its vector the
      union of the classes of the compression, whose segment over [min, max]
      is the sorted distinct input. */
  lemma SieveOfList(items: seq<int>)
    requires !IsBitVector(items) && SieveOf(ListInit(items)).Ok?
    ensures var s := SieveOf(ListInit(items)).value; var d := Distinct(items);
      |d| >= 2 && SegmentOf(s.bin, d[0], d[|d| - 1]) == d && s.initSeg == Some(items)
  {
    SieveOfOtherFinish(items);
    var c := CompressOf(items).value;
    FinishCompressed(UnionBin(c.residuals), c.stringrepr, Some(items));
    CompressShape(items);
    ListRoundTrip(items);
  }

  /** A sieve built from a bit vector keeps it, and its initial segment runs
      over 0..len inclusive, so that the index len repeats index 0. */
  lemma SieveOfBits(items: seq<int>)
    requires IsBitVector(items) && SieveOf(ListInit(items)).Ok?
    ensures var s := SieveOf(ListInit(items)).value;
      s.bin == items && s.initSeg.Some?
      && (|items| in s.initSeg.value <==> items[0] == 1)
  {
    BitVectorNonEmpty(items);
  }

  /** What every constructed sieve promises: the period is the length of
      the vector, the canonic segment its hits over [0, period], and the
      compressed string parses back to a vector whose segment over the span
      of the canonic segment is that segment again. */
  predicate CompressedAgrees(s: Sieve)
  {
    s.period == |s.bin| >= 1
    && s.canonicSegment == SegmentOf(s.bin, 0, s.period)
    && |s.canonicSegment| >= 2
    && ParsedBin(s.compressed).Ok?
    && var seg := s.canonicSegment;
       SegmentOf(ParsedBin(s.compressed).value, seg[0], seg[|seg| - 1]) == seg
  }

  /** What Finish promises when it succeeds: it keeps its arguments and the
      sieve it builds satisfies CompressedAgrees. */
  lemma FinishCompressed(bin: seq<int>, repr: string, initSeg: Option<seq<int>>)
    requires |bin| >= 1 && Finish(bin, repr, initSeg).Ok?
    ensures var s := Finish(bin, repr, initSeg).value;
      s.bin == bin && s.stringrepr == repr && s.initSeg == initSeg && CompressedAgrees(s)
  {
    var seg := SegmentOf(bin, 0, |bin|);
    var c := CompressOf(seg);
    assert c.Ok?;
    CompressFails(seg);
    StrictlyIncreasingCard(seg);
    CompressTextRoundTrip(seg);
    CompressShape(seg);
    ListRoundTrip(seg);
    DistinctOfIncreasing(seg);
    var s := Finish(bin, repr, initSeg).value;
    assert s.compressed == c.value.stringrepr && s.canonicSegment == seg;
  }

  /** A sieve built from a bit vector is finished from the vector itself. */
  lemma SieveOfBitsFinish(items: seq<int>)
    requires IsBitVector(items) && SieveOf(ListInit(items)).Ok?
    ensures |items| >= 1 && var initSeg := SegmentOf(items, 0, |items|);
      CompressOf(initSeg).Ok?
      && SieveOf(ListInit(items)) == Finish(items, CompressOf(initSeg).value.stringrepr, Some(initSeg))
  {
    BitVectorNonEmpty(items);
  }

  /** Any other list is finished from the union of its compression. */
  lemma SieveOfOtherFinish(items: seq<int>)
    requires !IsBitVector(items) && SieveOf(ListInit(items)).Ok?
    ensures CompressOf(items).Ok? && |UnionBin(CompressOf(items).value.residuals)| >= 1
    ensures var c := CompressOf(items).value;
      SieveOf(ListInit(items)) == Finish(UnionBin(c.residuals), c.stringrepr, Some(items))
  {
    CompressNonEmpty(items);
  }

  /** Every constructed sieve satisfies what Finish promises. */
  lemma SieveCompressed(init: Initializer)
    requires SieveOf(init).Ok?
    ensures CompressedAgrees(SieveOf(init).value)
  {
    match init
    case ListInit(items) =>
      if IsBitVector(items) {
        SieveOfBitsFinish(items);
        var initSeg := SegmentOf(items, 0, |items|);
        FinishCompressed(items, CompressOf(initSeg).value.stringrepr, Some(initSeg));
      } else {
        SieveOfOtherFinish(items);
        var c := CompressOf(items).value;
        FinishCompressed(UnionBin(c.residuals), c.stringrepr, Some(items));
      }
    case TextInit(text) =>
      FinishCompressed(ParsedBin(text).value, text, None);
  }
}
