/** The functions of build/lib/comptools/basic_tools.py that differ from
    the other two copies: retrograde as a true reversal, and transposition,
    intervals, inversion and prime_form that decide between pitches and
    pitch classes by looking at `max(pitches) <= 11`. */
module BasicToolsBuild {
  import opened PyBase
  import opened Arith
  import opened PitchCore

  /** Whether a list is taken for pitch classes; `max` of an empty list is
      Python's ValueError. */
  function LooksLikePitchClasses(pitches: seq<int>): (r: Result<bool>)
    ensures pitches == [] <==> r.Err?
    ensures r.Ok? ==> (r.value <==> forall i :: 0 <= i < |pitches| ==> pitches[i] <= 11)
  {
    if pitches == [] then Err(ValueError) else Ok(MaxOf(pitches) <= 11)
  }

  /** transposition: add the factor to every pitch, and reduce modulo 12 when
      the input looked like pitch classes. */
  function TranspositionOf(pitches: seq<int>, t: int): (r: Result<seq<int>>)
    ensures pitches == [] <==> r.Err?
    ensures r.Ok? ==> |r.value| == |pitches|
  {
    match LooksLikePitchClasses(pitches)
    case Err(e) => Err(e)
    case Ok(small) =>
      var moved := TranspositionPitches(pitches, t);
      Ok(if small then PitchesToPitchClasses(moved) else moved)
  }

  /** The loop of transposition, then the reduction. */
  method Transposition(pitches: seq<int>, t: int) returns (r: Result<seq<int>>)
    ensures r == TranspositionOf(pitches, t)
  {
    var result: seq<int> := [];
    for i := 0 to |pitches|
      invariant |result| == i && forall j :: 0 <= j < i ==> result[j] == pitches[j] + t
    {
      result := result + [pitches[i] + t];
    }
    if pitches == [] {
      return Err(ValueError);
    }
    assert result == TranspositionPitches(pitches, t);
    if MaxOf(pitches) <= 11 {
      result := PitchesToPitchClasses(result);
    }
    r := Ok(result);
  }

  /** On pitch classes transposition is transposition_pitch_classes. */
  lemma TranspositionOfClasses(pcs: seq<int>, t: int)
    requires pcs != [] && forall i :: 0 <= i < |pcs| ==> 0 <= pcs[i] < 12
    ensures TranspositionOf(pcs, t) == Ok(TranspositionPitchClasses(pcs, t))
  {
    TranspositionReduces(pcs, t);
  }

  /** So on pitch classes it composes: T_b after T_a is T_(a + b). */
  lemma TranspositionComposes(pcs: seq<int>, a: int, b: int)
    requires pcs != [] && forall i :: 0 <= i < |pcs| ==> 0 <= pcs[i] < 12
    ensures TranspositionOf(TranspositionOf(pcs, a).value, b) == TranspositionOf(pcs, a + b)
  {
    TranspositionOfClasses(pcs, a);
    TranspositionOfClasses(TranspositionPitchClasses(pcs, a), b);
    TranspositionOfClasses(pcs, a + b);
    TranspositionCompose(pcs, a, b);
  }

  /** Pitches above 11 are moved and never reduced. */
  lemma TranspositionOfPitches(pitches: seq<int>, t: int)
    requires pitches != [] && MaxOf(pitches) > 11
    ensures TranspositionOf(pitches, t) == Ok(TranspositionPitches(pitches, t))
  {
  }

  /** intervals: for pitch classes the differences modulo 12, or their
      interval classes when icclass is set; for pitches the plain
      differences. */
  function IntervalsOf(pitches: seq<int>, icclass: bool): (r: Result<seq<int>>)
    ensures pitches == [] <==> r.Err?
    ensures r.Ok? ==> |r.value| == |pitches| - 1
  {
    match LooksLikePitchClasses(pitches)
    case Err(e) => Err(e)
    case Ok(small) =>
      var n := |pitches| - 1;
      if !small then Ok(IntervalSequence(pitches))
      else if icclass then Ok(IntervalClasses(pitches))
      else Ok(IntervalsMod12(pitches))
  }

  /** `[interval_class(pitches[i+1], pitches[i]) ...]`. */
  function IntervalClasses(p: seq<int>): (r: seq<int>)
    requires |p| >= 1
    ensures |r| == |p| - 1
    ensures forall i :: 0 <= i < |r| ==> r[i] == IntervalClass(p[i + 1], p[i]) && 0 <= r[i] <= 6
  {
    seq(|p| - 1, i requires 0 <= i < |p| - 1 => IntervalClass(p[i + 1], p[i]))
  }

  /** `[(pitches[i+1] - pitches[i]) % 12 ...]`. */
  function IntervalsMod12(p: seq<int>): (r: seq<int>)
    requires |p| >= 1
    ensures |r| == |p| - 1
    ensures forall i :: 0 <= i < |r| ==> r[i] == (p[i + 1] - p[i]) % 12 && 0 <= r[i] < 12
  {
    seq(|p| - 1, i requires 0 <= i < |p| - 1 => (p[i + 1] - p[i]) % 12)
  }

  /** For pitches above 11 the running sums of the intervals from the first
      pitch give the line back. */
  lemma StartOfIntervalsOf(pitches: seq<int>, icclass: bool)
    requires pitches != [] && MaxOf(pitches) > 11
    ensures StartSequenceOf(pitches[0], IntervalsOf(pitches, icclass).value) == pitches
  {
    StartOfIntervals(pitches);
  }

  /** On pitch classes the intervals are the differences modulo 12, or their
      interval classes. */
  lemma IntervalsOfClassesAre(pcs: seq<int>)
    requires pcs != [] && forall k :: 0 <= k < |pcs| ==> 0 <= pcs[k] < 12
    ensures IntervalsOf(pcs, false) == Ok(IntervalsMod12(pcs))
    ensures IntervalsOf(pcs, true) == Ok(IntervalClasses(pcs))
  {
  }

  /** On pitch classes and without icclass, the running sums reduced modulo
      12 give the line back. */
  lemma IntervalsOfClasses(pcs: seq<int>, i: int)
    requires 0 <= i < |pcs| - 1 && 0 <= pcs[i] < 12 && 0 <= pcs[i + 1] < 12
    ensures (pcs[i] + IntervalsMod12(pcs)[i]) % 12 == pcs[i + 1]
  {
    ModStep(pcs[i], pcs[i + 1], IntervalsMod12(pcs)[i]);
  }

  lemma ModStep(a: int, b: int, d: int)
    requires 0 <= a < 12 && 0 <= b < 12 && d == (b - a) % 12
    ensures (a + d) % 12 == b
  {
    if b >= a {
      ModUnique(b - a, 12, 0, b - a);
      ModUnique(b, 12, 0, b);
    } else {
      ModUnique(b - a, 12, -1, b - a + 12);
      ModUnique(b + 12, 12, 1, b);
    }
  }

  /** inversion: for pitch classes the transposition by `factor` of
      (12 - pc) % 12; for pitches the line with every interval negated. */
  function InversionOf(pitches: seq<int>, factor: int): (r: Result<seq<int>>)
    ensures pitches == [] <==> r.Err?
    ensures r.Ok? ==> |r.value| == |pitches|
  {
    match LooksLikePitchClasses(pitches)
    case Err(e) => Err(e)
    case Ok(small) =>
      if small then TranspositionOf(InvertedClasses(pitches), factor)
      else Ok(StartSequenceOf(pitches[0], Negated(IntervalSequence(pitches))))
  }

  /** For pitches above 11 the inversion keeps the first pitch and negates
      every interval. */
  lemma InversionOfPitches(pitches: seq<int>, factor: int)
    requires pitches != [] && MaxOf(pitches) > 11
    ensures InversionOf(pitches, factor) == InversionPitches(pitches)
    ensures InversionOf(pitches, factor).value[0] == pitches[0]
    ensures IntervalSequence(InversionOf(pitches, factor).value) == Negated(IntervalSequence(pitches))
  {
    IntervalsOfStart(pitches[0], Negated(IntervalSequence(pitches)));
  }

  /** On pitch classes the inversion is the transposition of the inverted
      classes, and without transposition it is an involution. */
  lemma InversionOfClasses(pcs: seq<int>, factor: int)
    requires pcs != [] && forall i :: 0 <= i < |pcs| ==> 0 <= pcs[i] < 12
    ensures InversionOf(pcs, factor) == Ok(TranspositionPitchClasses(InvertedClasses(pcs), factor))
    ensures InversionOf(InversionOf(pcs, 0).value, 0) == Ok(pcs)
  {
    var inv := InvertedClasses(pcs);
    TranspositionOfClasses(inv, factor);
    TranspositionOfClasses(inv, 0);
    ClassesReduceToThemselves(inv);
    TranspositionOfClasses(InvertedClasses(inv), 0);
    InvertedClassesInvolution(pcs);
    ClassesReduceToThemselves(pcs);
  }

  /** prime_form: the normal forms of the set and of its inversion, each
      transposed to start at 0, and the lexicographically smaller of the two. */
  function PrimeFormOf(pcs: seq<int>): (r: Result<seq<int>>)
    ensures pcs == [] <==> r.Err?
  {
    match InversionOf(pcs, 0)
    case Err(e) => Err(e)
    case Ok(inverted) =>
      assert pcs[0] in Elems(NormalFormOf(pcs)) && inverted[0] in Elems(NormalFormOf(inverted));
      Ok(SmallerOfForms(NormalFormOf(pcs), NormalFormOf(inverted)))
  }

  /** The last step of prime_form, on the two normal forms. */
  function SmallerOfForms(normal: seq<int>, normalInv: seq<int>): (r: seq<int>)
    requires normal != [] && normalInv != []
  {
    LexMin(TranspositionOf(normal, -normal[0]).value, TranspositionOf(normalInv, -normalInv[0]).value)
  }

  /** A normal form of pitch classes transposed to its first element starts at 0. */
  lemma StartsAtZero(normal: seq<int>)
    requires normal != [] && forall i :: 0 <= i < |normal| ==> 0 <= normal[i] < 12
    ensures |TranspositionOf(normal, -normal[0]).value| >= 1
    ensures TranspositionOf(normal, -normal[0]).value[0] == 0
  {
    TranspositionOfClasses(normal, -normal[0]);
  }

  /** Whichever form is chosen, it starts at 0. */
  lemma SmallerOfFormsStartsAtZero(normal: seq<int>, normalInv: seq<int>)
    requires normal != [] && forall i :: 0 <= i < |normal| ==> 0 <= normal[i] < 12
    requires normalInv != [] && forall i :: 0 <= i < |normalInv| ==> 0 <= normalInv[i] < 12
    ensures |SmallerOfForms(normal, normalInv)| >= 1 && SmallerOfForms(normal, normalInv)[0] == 0
  {
    StartsAtZero(normal);
    StartsAtZero(normalInv);
  }

  /** The prime form of pitch classes starts at 0. */
  lemma PrimeFormStartsAtZero(pcs: seq<int>)
    requires pcs != [] && forall i :: 0 <= i < |pcs| ==> 0 <= pcs[i] < 12
    ensures PrimeFormOf(pcs).Ok? && |PrimeFormOf(pcs).value| >= 1 && PrimeFormOf(pcs).value[0] == 0
  {
    var normal := NormalFormOf(pcs);
    InversionOfClasses(pcs, 0);
    var inverted := InversionOf(pcs, 0).value;
    var normalInv := NormalFormOf(inverted);
    assert pcs[0] in Elems(normal) && inverted[0] in Elems(normalInv);
    SmallElems(normal, pcs);
    SmallElems(normalInv, inverted);
    SmallerOfFormsStartsAtZero(normal, normalInv);
    assert PrimeFormOf(pcs) == Ok(SmallerOfForms(normal, normalInv));
  }

  lemma SmallElems(a: seq<int>, b: seq<int>)
    requires Elems(a) == Elems(b) && forall i :: 0 <= i < |b| ==> 0 <= b[i] < 12
    ensures forall i :: 0 <= i < |a| ==> 0 <= a[i] < 12
  {
    forall i | 0 <= i < |a| ensures 0 <= a[i] < 12 {
      assert a[i] in Elems(b);
    }
  }

  /** The sign that `int(val / abs(val))` computes for a non-zero val. */
  function Sign(x: int): (r: int)
    ensures r == -1 || r == 0 || r == 1
    ensures (r == 0 <==> x == 0) && (r == 1 <==> x > 0)
  {
    if x > 0 then 1 else if x < 0 then -1 else 0
  }

  /** contour_matrix: row i compares element i with every element j. */
  function ContourMatrixOf(contour: seq<int>): (m: seq<seq<int>>)
    ensures |m| == |contour| && forall i :: 0 <= i < |m| ==> |m[i]| == |contour|
  {
    seq(|contour|, i requires 0 <= i < |contour| =>
      seq(|contour|, j requires 0 <= j < |contour| => Sign(contour[j] - contour[i])))
  }

  /** Every entry is -1, 0 or 1, the diagonal is 0 and the matrix is
      antisymmetric; entry (i, j) is 1 exactly when element j is above
      element i. */
  lemma ContourMatrixShape(contour: seq<int>, i: int, j: int)
    requires 0 <= i < |contour| && 0 <= j < |contour|
    ensures var m := ContourMatrixOf(contour);
      m[i][j] in {-1, 0, 1} && m[i][i] == 0 && m[i][j] == -m[j][i]
      && (m[i][j] == 1 <==> contour[j] > contour[i])
  {
  }

  /** contour_matrix: the two nested loops. */
  method ContourMatrix(contour: seq<int>) returns (m: seq<seq<int>>)
    ensures m == ContourMatrixOf(contour)
  {
    m := [];
    for a := 0 to |contour|
      invariant |m| == a
      invariant forall k :: 0 <= k < a ==> m[k] == ContourMatrixOf(contour)[k]
    {
      var sub: seq<int> := [];
      for b := 0 to |contour|
        invariant |sub| == b
        invariant forall k :: 0 <= k < b ==> sub[k] == Sign(contour[k] - contour[a])
      {
        var val := contour[b] - contour[a];
        if val != 0 {
          val := if val > 0 then 1 else -1;
        }
        sub := sub + [val];
      }
      m := m + [sub];
    }
  }
}
