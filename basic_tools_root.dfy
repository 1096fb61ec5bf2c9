/** The functions of the top-level basic_tools.py that differ from the other
    two copies: inversion_pitch_classes without a final reduction and
    prime_form that first moves the set to start at 0. Its retrograde and
    markov are those of PitchCore. */
module BasicToolsRoot {
  import opened PyBase
  import opened PitchCore

  /** inversion_pitch_classes as written: `12 - pc`, not reduced. */
  function InversionPitchClasses(pcs: seq<int>): (r: seq<int>)
    ensures |r| == |pcs| && forall i :: 0 <= i < |r| ==> r[i] + pcs[i] == 12
  {
    seq(|pcs|, i requires 0 <= i < |pcs| => 12 - pcs[i])
  }

  /** Pitch class 0 is sent to 12, which is not a pitch class. */
  lemma InversionOfZeroLeavesRange()
    ensures InversionPitchClasses([0]) == [12] && !(12 < 12)
    ensures InvertedClasses([0]) == [0]
  {
  }

  /** It agrees with the reduced inversion everywhere except at class 0. */
  lemma InversionPitchClassesAgree(pcs: seq<int>, i: int)
    requires forall k :: 0 <= k < |pcs| ==> 0 <= pcs[k] < 12
    requires 0 <= i < |pcs|
    ensures InversionPitchClasses(pcs)[i] == InvertedClasses(pcs)[i] <==> pcs[i] != 0
  {
  }

  /** `[(x - pitch_classes[0]) % 12 for x in pitch_classes]`: the set moved
      so that its first element is 0. */
  function MovedToZero(pcs: seq<int>): (r: seq<int>)
    ensures |r| == |pcs| && forall i :: 0 <= i < |r| ==> 0 <= r[i] < 12
    ensures pcs != [] ==> r[0] == 0
  {
    seq(|pcs|, i requires 0 <= i < |pcs| => (pcs[i] - pcs[0]) % 12)
  }

  /** prime_form: the lexicographically smaller of the normal forms of the
      moved set and of its inversion. The empty list gives the empty list. */
  function PrimeFormOf(pcs: seq<int>): (r: seq<int>)
    ensures r == NormalFormOf(MovedToZero(pcs)) || r == NormalFormOf(InversionPitchClasses(MovedToZero(pcs)))
    ensures !LexLess(NormalFormOf(MovedToZero(pcs)), r)
    ensures !LexLess(NormalFormOf(InversionPitchClasses(MovedToZero(pcs))), r)
  {
    var moved := MovedToZero(pcs);
    LexMin(NormalFormOf(moved), NormalFormOf(InversionPitchClasses(moved)))
  }

  /** For a non-empty set the normal form of the moved set holds class 0 and
      the normal form of its inversion holds 12: the result of the missing
      reduction. */
  lemma PrimeFormCandidates(pcs: seq<int>)
    requires pcs != []
    ensures 0 in NormalFormOf(MovedToZero(pcs))
    ensures 12 in NormalFormOf(InversionPitchClasses(MovedToZero(pcs)))
  {
    var moved := MovedToZero(pcs);
    var inv := InversionPitchClasses(moved);
    assert moved[0] == 0 && inv[0] == 12;
    InNormalForm(moved, 0);
    InNormalForm(inv, 0);
  }

  lemma InNormalForm(s: seq<int>, i: int)
    requires 0 <= i < |s|
    ensures s[i] in NormalFormOf(s)
  {
    assert s[i] in Elems(s);
  }

  /** The empty set has the empty prime form. */
  lemma PrimeFormOfEmpty()
    ensures PrimeFormOf([]) == []
  {
    var e: seq<int> := [];
    assert MovedToZero(e) == e && InversionPitchClasses(e) == e;
    assert Elems(NormalFormOf(e)) == {};
  }
}
