/** The functions of comptools/basic_tools.py that differ from the other two
    copies: inversion_pitch_classes with a transposition factor, and
    set_class. Its retrograde, remove_reps and markov are those of
    PitchCore. */
module BasicToolsPkg {
  import opened PyBase
  import opened PitchCore

  /** inversion_pitch_classes: with t_factor 1 the classes (12 - pc) % 12,
      otherwise those classes transposed by t_factor. */
  function InversionPitchClasses(pcs: seq<int>, t: int): (r: seq<int>)
    ensures |r| == |pcs| && forall i :: 0 <= i < |r| ==> 0 <= r[i] < 12
  {
    if t == 1 then InvertedClasses(pcs)
    else TranspositionPitchClasses(InvertedClasses(pcs), t)
  }

  /** With t_factor 1 every class is reflected around 0, and reflecting
      twice gives the pitch classes back. */
  lemma InversionPitchClassesInvolution(pcs: seq<int>)
    requires forall i :: 0 <= i < |pcs| ==> 0 <= pcs[i] < 12
    ensures forall i :: 0 <= i < |pcs| ==> (InversionPitchClasses(pcs, 1)[i] + pcs[i]) % 12 == 0
    ensures InversionPitchClasses(InversionPitchClasses(pcs, 1), 1) == pcs
  {
    InvertedClassesInvolution(pcs);
  }

  /** Any other t_factor transposes the reflected classes by t_factor. */
  lemma InversionPitchClassesTransposes(pcs: seq<int>, t: int, i: int)
    requires t != 1 && 0 <= i < |pcs|
    ensures InversionPitchClasses(pcs, t)[i] == ((12 - pcs[i]) % 12 + t) % 12
  {
  }

  /** The branch on t_factor == 1 makes factors 0 and 1 give the same
      result: factor 1 is not a transposition by one. */
  lemma InversionFactorsZeroAndOneAgree(pcs: seq<int>)
    ensures InversionPitchClasses(pcs, 0) == InversionPitchClasses(pcs, 1)
  {
    ClassesReduceToThemselves(InvertedClasses(pcs));
  }

  /** `x not in list` then `list.append(x)`. */
  function AddNew(list: seq<seq<int>>, x: seq<int>): seq<seq<int>>
  {
    if x in list then list else list + [x]
  }

  /** The list that appending each of s when it is not yet present builds. */
  function FirstOccurrences(s: seq<seq<int>>): (r: seq<seq<int>>)
    ensures NoDuplicates(r) && |r| <= |s|
    ensures forall x :: x in r <==> x in s
  {
    if s == [] then []
    else AddNew(FirstOccurrences(s[..|s| - 1]), s[|s| - 1])
  }

  lemma FirstOccurrencesStep(s: seq<seq<int>>, k: int)
    requires 0 <= k < |s|
    ensures FirstOccurrences(s[..k + 1]) == AddNew(FirstOccurrences(s[..k]), s[k])
  {
    assert s[..k + 1][..k] == s[..k];
  }

  /** The two lists of the dictionary that set_class returns. */
  datatype SetClassResult = SetClassResult(t: seq<seq<int>>, i: seq<seq<int>>)

  /** The normal forms of the twelve transpositions, in order of the factor. */
  function TranspositionForms(pcset: seq<int>): (r: seq<seq<int>>)
    ensures |r| == 12
  {
    seq(12, k requires 0 <= k < 12 => NormalFormOf(TranspositionPitchClasses(pcset, k)))
  }

  /** The normal forms of the twelve transpositions of the inversion. */
  function InversionForms(pcset: seq<int>): (r: seq<seq<int>>)
    ensures |r| == 12
  {
    seq(12, k requires 0 <= k < 12 => NormalFormOf(TranspositionPitchClasses(InversionPitchClasses(pcset, 1), k)))
  }

  /** What set_class returns: the distinct normal forms of the transpositions
      ("T") and of the transposed inversions ("I"), at most twelve each, in
      order of first appearance. */
  function SetClassOf(pitchClassSet: seq<int>): (r: SetClassResult)
    ensures |r.t| <= 12 && |r.i| <= 12 && NoDuplicates(r.t) && NoDuplicates(r.i)
    ensures forall x :: x in r.t ==> exists k :: 0 <= k < 12 && Elems(x) == Elems(TranspositionPitchClasses(PitchesToPitchClasses(pitchClassSet), k))
  {
    var pcset := PitchesToPitchClasses(pitchClassSet);
    var forms := TranspositionForms(pcset);
    assert forall x :: x in forms ==> exists k :: 0 <= k < 12 && x == forms[k];
    SetClassResult(FirstOccurrences(forms), FirstOccurrences(InversionForms(pcset)))
  }

  /** A set's own normal form is in its set class, and so is the normal form
      of its inversion. */
  lemma SetClassHoldsItself(pitchClassSet: seq<int>)
    ensures NormalFormOf(PitchesToPitchClasses(pitchClassSet)) in SetClassOf(pitchClassSet).t
    ensures NormalFormOf(InversionPitchClasses(PitchesToPitchClasses(pitchClassSet), 1)) in SetClassOf(pitchClassSet).i
  {
    var pcset := PitchesToPitchClasses(pitchClassSet);
    ClassesReduceToThemselves(pcset);
    ClassesReduceToThemselves(InversionPitchClasses(pcset, 1));
    assert TranspositionForms(pcset)[0] == NormalFormOf(pcset);
    assert InversionForms(pcset)[0] == NormalFormOf(InversionPitchClasses(pcset, 1));
  }

  /** set_class: twelve rounds, each appending the new normal forms. */
  method SetClass(pitchClassSet: seq<int>) returns (r: SetClassResult)
    ensures r == SetClassOf(pitchClassSet)
  {
    var pcset := PitchesToPitchClasses(pitchClassSet);
    var forms, invForms := TranspositionForms(pcset), InversionForms(pcset);
    var ts: seq<seq<int>> := [];
    var invs: seq<seq<int>> := [];
    for k := 0 to 12
      invariant ts == FirstOccurrences(forms[..k])
      invariant invs == FirstOccurrences(invForms[..k])
    {
      FirstOccurrencesStep(forms, k);
      FirstOccurrencesStep(invForms, k);
      var transposition := NormalForm(TranspositionPitchClasses(pcset, k));
      var inv := NormalForm(TranspositionPitchClasses(InversionPitchClasses(pcset, 1), k));
      assert transposition == forms[k] && inv == invForms[k];
      if transposition !in ts {
        ts := ts + [transposition];
      }
      if inv !in invs {
        invs := invs + [inv];
      }
    }
    assert forms[..12] == forms && invForms[..12] == invForms;
    r := SetClassResult(ts, invs);
  }
}
