/** The counterpoint helpers of build/lib/comptools/scampshorts.py:
    is_consonant and make_counterpoint, which extends the caller's
    counterpoint list note by note against a cantus firmus. */
module Scampshorts {
  import opened PyBase

  /** is_consonant(p1, p2, intervals): the distance of the two pitches is one
      of the allowed intervals. */
  predicate IsConsonant(p1: int, p2: int, intervals: seq<int>)
  {
    Abs(p1 - p2) in intervals
  }

  /** Consonance does not depend on the order of the pitches nor on a common
      transposition. */
  lemma ConsonanceSymmetric(p1: int, p2: int, t: int, intervals: seq<int>)
    ensures IsConsonant(p1, p2, intervals) == IsConsonant(p2, p1, intervals)
    ensures IsConsonant(p1 + t, p2 + t, intervals) == IsConsonant(p1, p2, intervals)
  {
    assert Abs(p1 - p2) == Abs(p2 - p1);
    assert (p1 + t) - (p2 + t) == p1 - p2;
  }

  /** A motion option, negated when the cantus firmus rises. */
  function Signed(prev: int, next: int, option: int): int
  {
    if next > prev then -option else option
  }

  /** The for loop over motion_option: the first (signed) option that puts
      the new counterpoint note at a consonance with the next cantus note. */
  function FirstOption(prev: int, next: int, base: int, intervals: seq<int>, motion: seq<int>): (r: Option<int>)
    ensures r.None? <==> forall j :: 0 <= j < |motion| ==> !IsConsonant(next, base + Signed(prev, next, motion[j]), intervals)
    ensures r.Some? ==> IsConsonant(next, base + r.value, intervals)
  {
    if motion == [] then None
    else
      var o := Signed(prev, next, motion[0]);
      if IsConsonant(next, base + o, intervals) then Some(o)
      else
        assert forall j :: 1 <= j < |motion| ==> motion[j] == motion[1..][j - 1];
        FirstOption(prev, next, base, intervals, motion[1..])
  }

  /** The option chosen is the signed form of some entry of motion_option,
      and every earlier entry fails. */
  lemma {:induction false} FirstOptionIsFirst(prev: int, next: int, base: int, intervals: seq<int>, motion: seq<int>)
    requires FirstOption(prev, next, base, intervals, motion).Some?
    ensures exists j :: 0 <= j < |motion| &&
              FirstOption(prev, next, base, intervals, motion).value == Signed(prev, next, motion[j]) &&
              forall j' :: 0 <= j' < j ==> !IsConsonant(next, base + Signed(prev, next, motion[j']), intervals)
  {
    var o := Signed(prev, next, motion[0]);
    if !IsConsonant(next, base + o, intervals) {
      var tail := motion[1..];
      FirstOptionIsFirst(prev, next, base, intervals, tail);
      var j :| 0 <= j < |tail| && FirstOption(prev, next, base, intervals, tail).value == Signed(prev, next, tail[j]) &&
               forall j' :: 0 <= j' < j ==> !IsConsonant(next, base + Signed(prev, next, tail[j']), intervals);
      assert motion[j + 1] == tail[j];
      forall j' | 0 <= j' < j + 1
        ensures !IsConsonant(next, base + Signed(prev, next, motion[j']), intervals)
      {
        if j' > 0 {
          assert motion[j'] == tail[j' - 1];
        }
      }
    }
  }

  /** The search for an option, as a loop that breaks at the first hit. */
  method ChooseOption(prev: int, next: int, base: int, intervals: seq<int>, motion: seq<int>) returns (o: Option<int>)
    ensures o == FirstOption(prev, next, base, intervals, motion)
  {
    for k := 0 to |motion|
      invariant FirstOption(prev, next, base, intervals, motion) == FirstOption(prev, next, base, intervals, motion[k..])
    {
      var option := motion[k];
      if next > prev {
        option := -option;
      }
      if IsConsonant(next, base + option, intervals) {
        return Some(option);
      }
      assert motion[k..][1..] == motion[k + 1..];
    }
    return None;
  }

  /** The counterpoint make_counterpoint leaves, from step i on: at each step
      the note counterpoint[i] moved by the first consonant option is
      appended; the process stops at the last cantus note or at the first
      step with no consonant option. Reading counterpoint[i] past its end
      raises IndexError. */
  function Extend(cf: seq<int>, cp: seq<int>, intervals: seq<int>, motion: seq<int>, i: nat): Result<seq<int>>
    decreases |cf| - i
  {
    if i + 1 >= |cf| then Ok(cp)
    else if motion == [] then Ok(cp)
    else if i >= |cp| then Err(IndexError)
    else match FirstOption(cf[i], cf[i + 1], cp[i], intervals, motion)
      case None => Ok(cp)
      case Some(o) => Extend(cf, cp + [cp[i] + o], intervals, motion, i + 1)
  }

  /** The caller's list, which make_counterpoint extends in place. */
  class NoteList {
    var items: seq<int>

    constructor (s: seq<int>)
      ensures items == s
    {
      items := s;
    }
  }

  /** make_counterpoint(cantus_firmus, counterpoint): appends to the caller's
      list and returns that same list. */
  method MakeCounterpoint(cantusFirmus: seq<int>, counterpoint: NoteList, intervals: seq<int>, motionOption: seq<int>)
    returns (r: Result<NoteList>)
    modifies counterpoint
    ensures Extend(cantusFirmus, old(counterpoint.items), intervals, motionOption, 0).Ok? ==>
              r == Ok(counterpoint) &&
              counterpoint.items == Extend(cantusFirmus, old(counterpoint.items), intervals, motionOption, 0).value
    ensures Extend(cantusFirmus, old(counterpoint.items), intervals, motionOption, 0).Err? ==>
              r == Err(IndexError) && counterpoint.items == old(counterpoint.items)
  {
    ghost var start := counterpoint.items;
    var i := 0;
    while i < |cantusFirmus|
      invariant |counterpoint.items| == |start| + i && counterpoint.items[..|start|] == start
      invariant i > 0 ==> |start| >= 1
      invariant Extend(cantusFirmus, start, intervals, motionOption, 0) ==
                Extend(cantusFirmus, counterpoint.items, intervals, motionOption, i)
      decreases |cantusFirmus| - i
    {
      if i + 1 >= |cantusFirmus| {
        break;
      }
      if |motionOption| > 0 && i >= |counterpoint.items| {
        // counterpoint[i] on the first option
        assert counterpoint.items == start;
        return Err(IndexError);
      }
      var option := ChooseOption(cantusFirmus[i], cantusFirmus[i + 1], if i < |counterpoint.items| then counterpoint.items[i] else 0,
                                 intervals, motionOption);
      if option.None? {
        break;
      }
      counterpoint.items := counterpoint.items + [counterpoint.items[i] + option.value];
      i := i + 1;
    }
    return Ok(counterpoint);
  }

  /** With a list of L + i notes, L >= 1, the run from step i never reads
      past the end of the list. */
  lemma {:induction false} ExtendOk(cf: seq<int>, cp: seq<int>, intervals: seq<int>, motion: seq<int>, i: nat, L: nat)
    requires L >= 1 && |cp| == L + i
    ensures Extend(cf, cp, intervals, motion, i).Ok?
    decreases |cf| - i
  {
    if i + 1 < |cf| && motion != [] {
      var o := FirstOption(cf[i], cf[i + 1], cp[i], intervals, motion);
      if o.Some? {
        ExtendOk(cf, cp + [cp[i] + o.value], intervals, motion, i + 1, L);
      }
    }
  }

  /** The run keeps the notes it was given and appends at most one per
      remaining step. */
  lemma {:induction false} ExtendKeeps(cf: seq<int>, cp: seq<int>, intervals: seq<int>, motion: seq<int>, i: nat, v: seq<int>)
    requires Extend(cf, cp, intervals, motion, i) == Ok(v)
    ensures |cp| <= |v| && v[..|cp|] == cp
    ensures |v| - |cp| <= if |cf| - 1 > i then |cf| - 1 - i else 0
    decreases |cf| - i
  {
    if i + 1 < |cf| && motion != [] && i < |cp| {
      var o := FirstOption(cf[i], cf[i + 1], cp[i], intervals, motion);
      if o.Some? {
        var cp' := cp + [cp[i] + o.value];
        ExtendKeeps(cf, cp', intervals, motion, i + 1, v);
        assert v[..|cp|] == v[..|cp'|][..|cp|];
      }
    }
  }

  /** Step k appended note L + k: note k moved by the first consonant
      option. */
  lemma {:induction false} ExtendStep(cf: seq<int>, cp: seq<int>, intervals: seq<int>, motion: seq<int>, i: nat, L: nat,
                                      v: seq<int>, k: int)
    requires L >= 1 && |cp| == L + i && Extend(cf, cp, intervals, motion, i) == Ok(v)
    requires i <= k && L + k < |v|
    ensures k + 1 < |cf| && FirstOption(cf[k], cf[k + 1], v[k], intervals, motion) == Some(v[L + k] - v[k])
    decreases |cf| - i
  {
    var o := FirstOption(cf[i], cf[i + 1], cp[i], intervals, motion).value;
    var cp' := cp + [cp[i] + o];
    ExtendKeeps(cf, cp', intervals, motion, i + 1, v);
    if k == i {
      assert v[i] == cp'[i] && v[L + i] == cp'[L + i];
    } else {
      ExtendStep(cf, cp', intervals, motion, i + 1, L, v, k);
    }
  }

  /** A run that ends before the last cantus note ends at a step where no
      option is consonant. */
  lemma {:induction false} ExtendStops(cf: seq<int>, cp: seq<int>, intervals: seq<int>, motion: seq<int>, i: nat, L: nat,
                                       v: seq<int>)
    requires L >= 1 && |cp| == L + i && Extend(cf, cp, intervals, motion, i) == Ok(v)
    requires L <= |v| && |v| - L + 1 < |cf|
    ensures motion == [] || FirstOption(cf[|v| - L], cf[|v| - L + 1], v[|v| - L], intervals, motion).None?
    decreases |cf| - i
  {
    if motion != [] {
      var o := FirstOption(cf[i], cf[i + 1], cp[i], intervals, motion);
      if o.Some? {
        var cp' := cp + [cp[i] + o.value];
        ExtendKeeps(cf, cp', intervals, motion, i + 1, v);
        ExtendStops(cf, cp', intervals, motion, i + 1, L, v);
      }
    }
  }

  /** Step k of a run that started from L notes: note L + k is note k moved
      by the first option consonant with cantus_firmus[k + 1]. */
  predicate StepTaken(cf: seq<int>, v: seq<int>, L: nat, intervals: seq<int>, motion: seq<int>, k: int)
    requires 0 <= k && k + 1 < |cf| && L + k < |v|
  {
    IsConsonant(cf[k + 1], v[L + k], intervals) &&
    FirstOption(cf[k], cf[k + 1], v[k], intervals, motion) == Some(v[L + k] - v[k])
  }

  /** make_counterpoint on a non-empty counterpoint: the given notes stay,
      at most |cantus_firmus| - 1 are appended, note L + k is note k moved by
      the first option consonant with cantus_firmus[k + 1], and a run that
      stops before the last cantus note stops at a step where no option is
      consonant. */
  lemma MakeCounterpointSteps(cf: seq<int>, cp: seq<int>, intervals: seq<int>, motion: seq<int>, v: seq<int>)
    requires |cp| >= 1 && Extend(cf, cp, intervals, motion, 0) == Ok(v)
    ensures |cp| <= |v| && v[..|cp|] == cp && |v| - |cp| <= (if |cf| >= 1 then |cf| - 1 else 0)
    ensures forall k :: 0 <= k < |v| - |cp| ==> k + 1 < |cf| && StepTaken(cf, v, |cp|, intervals, motion, k)
    ensures |cp| <= |v| && |v| - |cp| + 1 < |cf| ==>
              forall j :: 0 <= j < |motion| ==>
                !IsConsonant(cf[|v| - |cp| + 1], v[|v| - |cp|] + Signed(cf[|v| - |cp|], cf[|v| - |cp| + 1], motion[j]), intervals)
  {
    ExtendKeeps(cf, cp, intervals, motion, 0, v);
    forall k | 0 <= k < |v| - |cp|
      ensures k + 1 < |cf| && StepTaken(cf, v, |cp|, intervals, motion, k)
    {
      StepAt(cf, cp, intervals, motion, v, k);
    }
    if |v| - |cp| + 1 < |cf| {
      StopAt(cf, cp, intervals, motion, v);
    }
  }

  /** One appended note of a whole run. */
  lemma StepAt(cf: seq<int>, cp: seq<int>, intervals: seq<int>, motion: seq<int>, v: seq<int>, k: int)
    requires |cp| >= 1 && Extend(cf, cp, intervals, motion, 0) == Ok(v)
    requires 0 <= k && |cp| + k < |v|
    ensures k + 1 < |cf| && StepTaken(cf, v, |cp|, intervals, motion, k)
  {
    ExtendStep(cf, cp, intervals, motion, 0, |cp|, v, k);
    assert v[k] + (v[|cp| + k] - v[k]) == v[|cp| + k];
  }

  /** Where a whole run stops early, no option is consonant. */
  lemma StopAt(cf: seq<int>, cp: seq<int>, intervals: seq<int>, motion: seq<int>, v: seq<int>)
    requires |cp| >= 1 && Extend(cf, cp, intervals, motion, 0) == Ok(v)
    requires |cp| <= |v| && |v| - |cp| + 1 < |cf|
    ensures forall j :: 0 <= j < |motion| ==>
              !IsConsonant(cf[|v| - |cp| + 1], v[|v| - |cp|] + Signed(cf[|v| - |cp|], cf[|v| - |cp| + 1], motion[j]), intervals)
  {
    ExtendStops(cf, cp, intervals, motion, 0, |cp|, v);
  }

  /** On an empty counterpoint the first step that tries an option reads
      counterpoint[0] and raises IndexError; with fewer than two cantus notes
      or no options nothing is read. */
  lemma EmptyCounterpoint(cf: seq<int>, intervals: seq<int>, motion: seq<int>)
    ensures Extend(cf, [], intervals, motion, 0).Err? <==> |cf| >= 2 && motion != []
    ensures Extend(cf, [], intervals, motion, 0).Ok? ==> Extend(cf, [], intervals, motion, 0).value == []
  {
  }
}
