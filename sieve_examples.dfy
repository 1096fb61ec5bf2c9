/** The worked examples of build/lib/comptools/sievetools.py, proved from the
    general lemmas. */
module SieveExamples {
  import opened PyBase
  import opened PyStr
  import opened Arith
  import opened SievePatterns
  import opened SieveResidual
  import opened SieveCompress
  import opened SieveFacade

  /** The text of Residual(m, s) for the one-digit moduli and shifts used below. */
  lemma SmallRepr(m: nat, s: nat)
    requires 1 <= m < 10 && s < 10
    ensures FromInts(m, s).value.stringrepr == [DigitChar(m), '@', DigitChar(s)]
  {
  }

  /** A formula of two classes joined by "|" is the union of the two. */
  lemma TwoClassFormula(m1: int, s1: int, m2: int, s2: int)
    requires m1 >= 1 && m2 >= 1
    ensures ParsedBin(FromInts(m1, s1).value.stringrepr + "|" + FromInts(m2, s2).value.stringrepr)
      == Ok(Combined(BinaryRepr(m1, s1), BinaryRepr(m2, s2), Or))
  {
    var rs := [FromInts(m1, s1).value, FromInts(m2, s2).value];
    var x, y := rs[0].stringrepr, rs[1].stringrepr;
    assert Reprs(rs) == [x, y];
    assert [x, y][1..] == [y];
    assert Join("|", [x, y]) == x + "|" + y;
    TextRoundTrip(rs);
    var a, b := BinaryRepr(m1, s1), BinaryRepr(m2, s2);
    assert BinsOf(rs) == [a, b];
    assert [a, b][..1] == [a];
    assert FoldBins([a, b], Or) == Combined(a, b, Or);
  }

  /** The union of 3@2 and 5@3 over one period of 15. */
  lemma Union3At2And5At3()
    ensures Combined(BinaryRepr(3, 2), BinaryRepr(5, 3), Or) == [0, 0, 1, 1, 0, 1, 0, 0, 1, 0, 0, 1, 0, 1, 1]
  {
    var u := Combined(BinaryRepr(3, 2), BinaryRepr(5, 3), Or);
    Lcm3And5();
    var e := [0, 0, 1, 1, 0, 1, 0, 0, 1, 0, 0, 1, 0, 1, 1];
    forall k | 0 <= k < 15 ensures u[k] == e[k] {
      assert u[k] == Bit(k % 3 == 2 || k % 5 == 3);
    }
  }

  /** "3@2|5@3" is the vector of period 15 the module lists as binary_A. */
  lemma Formula3At2Or5At3()
    ensures ParsedBin("3@2|5@3") == Ok([0, 0, 1, 1, 0, 1, 0, 0, 1, 0, 0, 1, 0, 1, 1])
  {
    SmallRepr(3, 2);
    SmallRepr(5, 3);
    var t := FromInts(3, 2).value.stringrepr + "|" + FromInts(5, 3).value.stringrepr;
    assert t == "3@2|5@3";
    TwoClassFormula(3, 2, 5, 3);
    Union3At2And5At3();
  }

  /** The text "m@s" of Residual(m, s). */
  function ReprText(m: int, s: int): string
  {
    IntToString(m) + "@" + IntToString(s)
  }

  /** A bracketed pair "(x&y)" of plain literals splits into x and y. */
  lemma LiteralsOfPair(x: string, y: string)
    requires forall k :: 0 <= k < |x| ==> x[k] != '&' && x[k] != '(' && x[k] != ')'
    requires forall k :: 0 <= k < |y| ==> y[k] != '&' && y[k] != '(' && y[k] != ')'
    ensures Literals(("(" + x) + "&" + (y + ")")) == [x, y]
  {
    var p, q := "(" + x, y + ")";
    OpenLiteral(x);
    CloseLiteral(y);
    assert [p, q][1..] == [q];
    assert Join("&", [p, q]) == p + "&" + q;
    SplitJoin([p, q], '&');
  }

  /** "(x" holds no '&' and strips to x. */
  lemma OpenLiteral(x: string)
    requires forall k :: 0 <= k < |x| ==> x[k] != '&' && x[k] != '(' && x[k] != ')'
    ensures '&' !in "(" + x && Strip("(" + x, {'(', ')'}) == x
  {
    var p := "(" + x;
    assert forall k :: 1 <= k < |p| ==> p[k] == x[k - 1];
    StripNothing(x, {'(', ')'});
    assert p[1..] == x;
  }

  /** "y)" holds no '&' and strips to y. */
  lemma CloseLiteral(y: string)
    requires forall k :: 0 <= k < |y| ==> y[k] != '&' && y[k] != '(' && y[k] != ')'
    ensures '&' !in y + ")" && Strip(y + ")", {'(', ')'}) == y
  {
    var q := y + ")";
    assert forall k :: 0 <= k < |y| ==> q[k] == y[k];
    StripNothing(y, {'(', ')'});
    assert q[..|q| - 1] == y;
    assert y == [] || y[0] !in {'(', ')'};
  }

  /** The group of two literals is the intersection of their vectors. */
  lemma GroupOfPair(g: string, x: string, y: string, a: seq<int>, b: seq<int>)
    requires Literals(g) == [x, y]
    requires LiteralBin(x) == Ok(a) && LiteralBin(y) == Ok(b)
    ensures |a| >= 1 && |b| >= 1
    ensures GroupBin(g) == Ok(Combined(a, b, And))
  {
    TraverseAllOk(LiteralBin, [x, y], [a, b]);
    assert [a, b][..1] == [a];
    assert FoldBins([a, b], And) == Combined(a, b, And);
  }

  /** The group "(m1@s1&m2@s2)" is the intersection of the two classes. */
  lemma IntersectionGroup(m1: int, s1: int, m2: int, s2: int)
    requires m1 >= 1 && m2 >= 1
    ensures GroupBin(("(" + ReprText(m1, s1)) + "&" + (ReprText(m2, s2) + ")"))
      == Ok(Combined(BinaryRepr(m1, s1), BinaryRepr(m2, s2), And))
  {
    var x, y := ReprText(m1, s1), ReprText(m2, s2);
    forall k | 0 <= k < |x| ensures x[k] != '&' && x[k] != '(' && x[k] != ')' {
      ReprChars(m1, s1, k);
    }
    forall k | 0 <= k < |y| ensures y[k] != '&' && y[k] != '(' && y[k] != ')' {
      ReprChars(m2, s2, k);
    }
    LiteralsOfPair(x, y);
    FromTextOfRepr(m1, s1);
    FromTextOfRepr(m2, s2);
    GroupOfPair(("(" + x) + "&" + (y + ")"), x, y, BinaryRepr(m1, s1), BinaryRepr(m2, s2));
  }

  /** The union fold of three vectors, left to right. */
  lemma FoldThree(bs: seq<seq<int>>)
    requires |bs| == 3 && AllNonEmpty(bs)
    ensures FoldBins(bs, Or) == Combined(Combined(bs[0], bs[1], Or), bs[2], Or)
  {
    var front := bs[..2];
    assert AllNonEmpty(front);
    assert front[..1] == [bs[0]];
    assert FoldBins(front, Or) == Combined(bs[0], bs[1], Or);
  }

  /** Three texts joined by "|". */
  lemma JoinThree(g1: string, g2: string, g3: string)
    ensures Join("|", [g1, g2, g3]) == g1 + "|" + g2 + "|" + g3
  {
    JoinSnoc("|", [g1], g2);
    JoinSnoc("|", [g1, g2], g3);
    assert [g1] + [g2] == [g1, g2] && [g1, g2] + [g3] == [g1, g2, g3];
  }

  /** No "|" occurs in the text of a class. */
  lemma NoBarInText(m: int, s: int)
    ensures '|' !in ReprText(m, s)
  {
    forall k | 0 <= k < |ReprText(m, s)| ensures ReprText(m, s)[k] != '|' {
      ReprChars(m, s, k);
    }
  }

  lemma NoBarInIntersection(m1: int, s1: int, m2: int, s2: int)
    ensures '|' !in ("(" + ReprText(m1, s1)) + "&" + (ReprText(m2, s2) + ")")
  {
    NoBarInText(m1, s1);
    NoBarInText(m2, s2);
  }

  /** Three groups joined by "|" parse to the union of their vectors. */
  lemma ThreeGroups(g1: string, g2: string, g3: string, b1: seq<int>, b2: seq<int>, b3: seq<int>)
    requires '|' !in g1 && '|' !in g2 && '|' !in g3
    requires GroupBin(g1) == Ok(b1) && GroupBin(g2) == Ok(b2) && GroupBin(g3) == Ok(b3)
    ensures |b1| >= 1 && |b2| >= 1 && |b3| >= 1
    ensures ParsedBin(g1 + "|" + g2 + "|" + g3) == Ok(Combined(Combined(b1, b2, Or), b3, Or))
  {
    var gs, bs := [g1, g2, g3], [b1, b2, b3];
    assert gs[0] == g1 && gs[1] == g2 && gs[2] == g3;
    assert bs[0] == b1 && bs[1] == b2 && bs[2] == b3;
    ThreeGroupsOf(gs, bs);
    JoinThree(g1, g2, g3);
  }

  /** ThreeGroups, stated over a list of three groups. */
  lemma ThreeGroupsOf(gs: seq<string>, bs: seq<seq<int>>)
    requires |gs| == 3 && |bs| == 3
    requires '|' !in gs[0] && '|' !in gs[1] && '|' !in gs[2]
    requires GroupBin(gs[0]) == Ok(bs[0]) && GroupBin(gs[1]) == Ok(bs[1]) && GroupBin(gs[2]) == Ok(bs[2])
    ensures |bs[0]| >= 1 && |bs[1]| >= 1 && |bs[2]| >= 1
    ensures ParsedBin(Join("|", gs)) == Ok(Combined(Combined(bs[0], bs[1], Or), bs[2], Or))
  {
    forall i | 0 <= i < 3
      ensures '|' !in gs[i] && GroupBin(gs[i]) == Ok(bs[i])
    {
      if i == 0 {
      } else if i == 1 {
      } else {
        assert i == 2;
      }
    }
    ParsedGroups(gs, bs);
    FoldThree(bs);
  }

  lemma Formula390Text()
    ensures ReprText(5, 4) + "|" + ReprText(6, 1) + "|" + (("(" + ReprText(3, 2)) + "&" + (ReprText(13, 7) + ")"))
            == "5@4|6@1|(3@2&13@7)"
  {
    assert ReprText(13, 7) == "13@7";
  }

  /** The shape of the module's own formula: two classes and the
      intersection of two more, all joined by "|". */
  lemma FormulaShape(m1: int, s1: int, m2: int, s2: int, m3: int, s3: int, m4: int, s4: int)
    requires m1 >= 1 && m2 >= 1 && m3 >= 1 && m4 >= 1
    ensures var text := ReprText(m1, s1) + "|" + ReprText(m2, s2) + "|"
                        + (("(" + ReprText(m3, s3)) + "&" + (ReprText(m4, s4) + ")"));
      ParsedBin(text).Ok? && |ParsedBin(text).value| == Lcm(Lcm(m1, m2), Lcm(m3, m4))
  {
    var g1, g2 := ReprText(m1, s1), ReprText(m2, s2);
    var g3 := ("(" + ReprText(m3, s3)) + "&" + (ReprText(m4, s4) + ")");
    GroupOfRepr(m1, s1);
    GroupOfRepr(m2, s2);
    IntersectionGroup(m3, s3, m4, s4);
    var b1, b2 := BinaryRepr(m1, s1), BinaryRepr(m2, s2);
    var b3 := Combined(BinaryRepr(m3, s3), BinaryRepr(m4, s4), And);
    NoBarInText(m1, s1);
    NoBarInText(m2, s2);
    NoBarInIntersection(m3, s3, m4, s4);
    ThreeGroups(g1, g2, g3, b1, b2, b3);
  }

  /** "5@4|6@1|(3@2&13@7)", the formula of the module's own example, has
      period lcm(lcm(5, 6), lcm(3, 13)) = 390. */
  lemma Formula390()
    ensures ParsedBin("5@4|6@1|(3@2&13@7)").Ok?
    ensures |ParsedBin("5@4|6@1|(3@2&13@7)").value| == 390
  {
    FormulaShape(5, 4, 6, 1, 3, 2, 13, 7);
    Formula390Text();
    Lcm5And6();
    Lcm3And13();
    Lcm30And39();
  }

  /** An empty list is no bit vector and has nothing to compress: ValueError. */
  lemma EmptyListFails()
    ensures SieveOf(ListInit([])) == Err(ValueError)
  {
    var e: seq<int> := [];
    assert Elems(e) == {};
    IsBitVectorIff(e);
    CompressFails(e);
  }

  /** A list repeating one value, 0 and 1 included, is no bit vector and
      raises ValueError in Compress. */
  lemma RepeatedValueFails(x: int, n: nat)
    ensures SieveOf(ListInit(seq(n, _ => x))) == Err(ValueError)
  {
    var items := seq(n, _ => x);
    if n >= 1 {
      assert items[0] == x;
      assert Elems(items) == {x};
    } else {
      assert Elems(items) == {};
    }
    IsBitVectorIff(items);
    CompressFails(items);
  }
}
