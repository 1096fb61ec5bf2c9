/** make_full_scale of comptools/parsemaker.py (parsemaker.py has the same
    code): a scale, given as offsets above a lowest note, written out octave
    by octave until a note reaches the top of the range. */
module Parsemaker {
  import opened PyBase
  import opened Arith

  /** The k-th note the loop appends: octave k div |scale|, degree
      k mod |scale|, above the bottom of the range. */
  function Note(scale: seq<int>, low: int, k: nat): int
    requires |scale| > 0
  {
    low + 12 * (k / |scale|) + scale[k % |scale|]
  }

  /** The smallest scale offset. */
  function Lowest(scale: seq<int>): (m: int)
    requires |scale| > 0
    ensures m in scale && forall j :: 0 <= j < |scale| ==> m <= scale[j]
  {
    if |scale| == 1 then scale[0]
    else
      var m := Lowest(scale[1..]);
      assert forall j :: 1 <= j < |scale| ==> scale[j] == scale[1..][j - 1];
      if scale[0] <= m then scale[0] else m
  }

  /** A number of notes after which the loop surely stops: the first note of
      an octave high enough that even the lowest degree reaches the top. */
  lemma StopWitness(scale: seq<int>, low: int, high: int) returns (k: nat)
    requires |scale| > 0
    ensures Note(scale, low, k) >= high
  {
    var d := high - low - Lowest(scale);
    var octave: nat := if d > 0 then d else 0;
    k := octave * |scale|;
    ModUnique(k, |scale|, octave, 0);
  }

  /** make_full_scale(scale, rang): the notes up to and including the first
      one at or above rang[1]; every earlier note lies below rang[1]. An empty
      scale, or a range with fewer than two entries, raises IndexError. */
  method MakeFullScale(scale: seq<int>, rang: seq<int>) returns (r: Result<seq<int>>)
    ensures r.Err? <==> scale == [] || |rang| < 2
    ensures r.Err? ==> r.error == IndexError
    ensures r.Ok? ==> |r.value| >= 1 &&
                      (forall k :: 0 <= k < |r.value| ==> r.value[k] == Note(scale, rang[0], k)) &&
                      (forall k :: 0 <= k < |r.value| - 1 ==> r.value[k] < rang[1]) &&
                      r.value[|r.value| - 1] >= rang[1]
  {
    if |rang| == 0 || scale == [] {
      // rang[0], or scale[0] after the index is reset, fails on the first pass
      return Err(IndexError);
    }
    var fullScale: seq<int> := [];
    var count := 0;
    var i := 0;
    ghost var bound := StopWitness(scale, rang[0], if |rang| >= 2 then rang[1] else rang[0]);
    while true
      invariant 0 <= i <= |scale| && |fullScale| == count * |scale| + i
      invariant |fullScale| <= bound
      invariant forall k :: 0 <= k < |fullScale| ==> fullScale[k] == Note(scale, rang[0], k)
      invariant |rang| >= 2 ==> forall k :: 0 <= k < |fullScale| ==> fullScale[k] < rang[1]
      invariant |rang| < 2 ==> fullScale == []
      decreases bound - |fullScale|
    {
      if i == |scale| {
        i := 0;
        count := count + 1;
      }
      var k := |fullScale|;
      ModUnique(k, |scale|, count, i);
      var newNota := rang[0] + 12 * count + scale[i];
      fullScale := fullScale + [newNota];
      i := i + 1;
      if |rang| < 2 {
        return Err(IndexError);
      }
      if fullScale[|fullScale| - 1] >= rang[1] {
        break;
      }
    }
    r := Ok(fullScale);
  }

  /** With the degrees strictly rising inside one octave, the written-out
      scale rises strictly too. */
  lemma NotesIncrease(scale: seq<int>, low: int, j: nat, k: nat)
    requires |scale| > 0 && StrictlyIncreasing(scale)
    requires forall d :: 0 <= d < |scale| ==> 0 <= scale[d] < 12
    requires j < k
    ensures Note(scale, low, j) < Note(scale, low, k)
  {
    var n := |scale|;
    var qj, rj, qk, rk := j / n, j % n, k / n, k % n;
    OctaveMonotone(j, k, n);
    if qj == qk {
      assert rj < rk;
    } else {
      assert 12 * qj + 12 <= 12 * qk;
    }
  }

  /** A later note is in the same octave or a higher one, and in the same
      octave it has a higher degree. */
  lemma OctaveMonotone(j: nat, k: nat, n: int)
    requires n > 0 && j < k
    ensures j / n <= k / n
    ensures j / n == k / n ==> j % n < k % n
  {
    var qj, rj, qk, rk := j / n, j % n, k / n, k % n;
    assert j == n * qj + rj && k == n * qk + rk;
    if qj > qk {
      assert n * qj - n * qk == n * (qj - qk);
      MulAtLeast(n, qj - qk);
    }
  }
}
