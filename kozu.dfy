/** The cycle extenders of build/lib/comptools/kozu.py: a cycle of beat
    counts or of bars repeated over a number of bars. */
module Kozu {
  import opened PyBase
  import opened Arith

  /** `for j in range(n): bar.append(1)`: n ones, none when n <= 0. */
  function Ones(n: int): (r: seq<int>)
    ensures |r| == if n < 0 then 0 else n
    ensures forall j :: 0 <= j < |r| ==> r[j] == 1
  {
    seq(if n < 0 then 0 else n, _ => 1)
  }

  /** The bars make_beat_cycle has appended after numBars rounds. */
  function BeatCycleOf(beatCycle: seq<int>, numBars: int): seq<seq<int>>
    requires |beatCycle| > 0 || numBars <= 0
  {
    if numBars <= 0 then []
    else BeatCycleOf(beatCycle, numBars - 1) + [Ones(beatCycle[(numBars - 1) % |beatCycle|])]
  }

  /** make_beat_cycle: one bar per round, bar i holding as many ones as the
      cycle's entry i mod its length. With an empty cycle the first round
      divides by zero. */
  method MakeBeatCycle(beatCycle: seq<int>, numBars: int) returns (r: Result<seq<seq<int>>>)
    ensures |beatCycle| == 0 && numBars > 0 ==> r == Err(ZeroDivisionError)
    ensures |beatCycle| > 0 || numBars <= 0 ==> r == Ok(BeatCycleOf(beatCycle, numBars))
  {
    var result: seq<seq<int>> := [];
    var i := 0;
    while i < numBars
      invariant 0 <= i && (numBars >= 0 ==> i <= numBars) && (numBars < 0 ==> i == 0)
      invariant |beatCycle| > 0 || i == 0
      invariant result == BeatCycleOf(beatCycle, i)
    {
      if |beatCycle| == 0 {
        return Err(ZeroDivisionError);
      }
      var count := beatCycle[i % |beatCycle|];
      var bar: seq<int> := [];
      var j := 0;
      while j < count
        invariant 0 <= j && (count >= 0 ==> j <= count) && (count < 0 ==> j == 0)
        invariant bar == Ones(j)
      {
        bar := bar + [1];
        j := j + 1;
      }
      assert Ones(j) == Ones(count);
      result := result + [bar];
      i := i + 1;
    }
    return Ok(result);
  }

  /** Bar i of the extended cycle holds beatCycle[i mod len] ones, and there
      is one bar per requested bar. */
  lemma {:induction false} BeatCycleAt(beatCycle: seq<int>, numBars: int, i: int)
    requires |beatCycle| > 0 || numBars <= 0
    ensures |BeatCycleOf(beatCycle, numBars)| == if numBars < 0 then 0 else numBars
    ensures 0 <= i < |BeatCycleOf(beatCycle, numBars)| ==>
              BeatCycleOf(beatCycle, numBars)[i] == Ones(beatCycle[i % |beatCycle|])
    decreases if numBars < 0 then 0 else numBars
  {
    if numBars > 0 {
      BeatCycleAt(beatCycle, numBars - 1, i);
    }
  }

  /** The number of beats in the first n bars: the cycle entries, counted as
      0 when negative. */
  function BeatsIn(beatCycle: seq<int>, n: nat): int
    requires |beatCycle| > 0 || n == 0
  {
    if n == 0 then 0
    else BeatsIn(beatCycle, n - 1) + (var c := beatCycle[(n - 1) % |beatCycle|]; if c < 0 then 0 else c)
  }

  /** The sum of the non-negative entries of s. */
  function PositiveSum(s: seq<int>): int
  {
    if s == [] then 0 else PositiveSum(s[..|s| - 1]) + (if s[|s| - 1] < 0 then 0 else s[|s| - 1])
  }

  /** Flattening the extended cycle gives a run of ones whose length is the
      number of beats in the bars. */
  lemma {:induction false} FlatBeatCycle(beatCycle: seq<int>, numBars: nat)
    requires |beatCycle| > 0 || numBars == 0
    ensures |Flatten(BeatCycleOf(beatCycle, numBars))| == BeatsIn(beatCycle, numBars)
    ensures forall j :: 0 <= j < |Flatten(BeatCycleOf(beatCycle, numBars))| ==>
              Flatten(BeatCycleOf(beatCycle, numBars))[j] == 1
  {
    if numBars > 0 {
      FlatBeatCycle(beatCycle, numBars - 1);
      var s := BeatCycleOf(beatCycle, numBars);
      assert s[..|s| - 1] == BeatCycleOf(beatCycle, numBars - 1);
    }
  }

  /** Each whole turn of the cycle adds the cycle's beats once more:
      k turns hold k times as many beats as the cycle. */
  lemma {:induction false} BeatsInWholeCycles(beatCycle: seq<int>, k: nat)
    requires |beatCycle| > 0
    ensures BeatsIn(beatCycle, k * |beatCycle|) == k * PositiveSum(beatCycle)
  {
    if k > 0 {
      var n, p := |beatCycle|, PositiveSum(beatCycle);
      BeatsInWholeCycles(beatCycle, k - 1);
      BeatsInTurn(beatCycle, k - 1, n);
      assert beatCycle[..n] == beatCycle;
      assert (k - 1) * n + n == k * n;
      assert (k - 1) * p + p == k * p;
    }
  }

  /** Within turn m, the first t bars add the first t entries. */
  lemma {:induction false} BeatsInTurn(beatCycle: seq<int>, m: nat, t: nat)
    requires 0 < |beatCycle| && t <= |beatCycle|
    ensures BeatsIn(beatCycle, m * |beatCycle| + t) == BeatsIn(beatCycle, m * |beatCycle|) + PositiveSum(beatCycle[..t])
  {
    if t > 0 {
      BeatsInTurn(beatCycle, m, t - 1);
      var n := |beatCycle|;
      ModUnique(m * n + t - 1, n, m, t - 1);
      assert beatCycle[..t][..t - 1] == beatCycle[..t - 1];
    }
  }

  /** The bars make_bar_cycle has appended after numBars rounds. */
  function BarCycleOf<T>(barCycle: seq<T>, numBars: int): seq<T>
    requires |barCycle| > 0 || numBars <= 0
  {
    if numBars <= 0 then []
    else BarCycleOf(barCycle, numBars - 1) + [barCycle[(numBars - 1) % |barCycle|]]
  }

  /** make_bar_cycle: entry i is barCycle[i mod len], one per requested bar.
      With an empty cycle the first round divides by zero. */
  method MakeBarCycle<T>(barCycle: seq<T>, numBars: int) returns (r: Result<seq<T>>)
    ensures |barCycle| == 0 && numBars > 0 ==> r == Err(ZeroDivisionError)
    ensures |barCycle| > 0 || numBars <= 0 ==> r == Ok(BarCycleOf(barCycle, numBars))
  {
    var result: seq<T> := [];
    var i := 0;
    while i < numBars
      invariant 0 <= i && (numBars >= 0 ==> i <= numBars) && (numBars < 0 ==> i == 0)
      invariant |barCycle| > 0 || i == 0
      invariant result == BarCycleOf(barCycle, i)
    {
      if |barCycle| == 0 {
        return Err(ZeroDivisionError);
      }
      result := result + [barCycle[i % |barCycle|]];
      i := i + 1;
    }
    return Ok(result);
  }

  /** Entry i is the cycle's entry i mod len; there is one per bar. */
  lemma {:induction false} BarCycleAt<T>(barCycle: seq<T>, numBars: int, i: int)
    requires |barCycle| > 0 || numBars <= 0
    ensures |BarCycleOf(barCycle, numBars)| == if numBars < 0 then 0 else numBars
    ensures 0 <= i < |BarCycleOf(barCycle, numBars)| ==>
              BarCycleOf(barCycle, numBars)[i] == barCycle[i % |barCycle|]
    decreases if numBars < 0 then 0 else numBars
  {
    if numBars > 0 {
      BarCycleAt(barCycle, numBars - 1, i);
    }
  }

  /** The extended cycle repeats with the cycle's length. */
  lemma BarCyclePeriodic<T>(barCycle: seq<T>, numBars: int, i: int)
    requires |barCycle| > 0 && 0 <= i && i + |barCycle| < numBars
    ensures |BarCycleOf(barCycle, numBars)| == numBars &&
            BarCycleOf(barCycle, numBars)[i + |barCycle|] == BarCycleOf(barCycle, numBars)[i]
  {
    BarCycleAt(barCycle, numBars, i);
    BarCycleAt(barCycle, numBars, i + |barCycle|);
    ModAddMultiple(i, |barCycle|, 1);
  }

  /** A whole number of turns is the cycle written out that many times: one
      more turn appends the cycle itself. */
  lemma BarCycleWholeTurns<T>(barCycle: seq<T>, k: nat)
    requires |barCycle| > 0
    ensures BarCycleOf(barCycle, (k + 1) * |barCycle|) == BarCycleOf(barCycle, k * |barCycle|) + barCycle
  {
    var n := |barCycle|;
    var longer := BarCycleOf(barCycle, (k + 1) * n);
    var shorter := BarCycleOf(barCycle, k * n);
    assert (k + 1) * n == k * n + n;
    BarCycleAt(barCycle, (k + 1) * n, 0);
    BarCycleAt(barCycle, k * n, 0);
    forall j | 0 <= j < |longer| ensures longer[j] == (shorter + barCycle)[j] {
      BarCycleAt(barCycle, (k + 1) * n, j);
      if j < k * n {
        BarCycleAt(barCycle, k * n, j);
      } else {
        ModUnique(j, n, k, j - k * n);
      }
    }
  }
}
