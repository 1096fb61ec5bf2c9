/** The pattern algebra of build/lib/comptools/sievetools.py: a periodic
    0/1 vector stands for the integers x with bin[x mod |bin|] == 1, and two
    vectors combine by tiling both to the lcm of their periods. */
module SievePatterns {
  import opened PyBase
  import opened Arith

  /** The three keys of the operation table: "|", "&" and "+". */
  datatype Op = Or | And | Xor

  function Apply(op: Op, x: bool, y: bool): bool
  {
    match op
    case Or => x || y
    case And => x && y
    case Xor => x != y
  }

  function Bit(b: bool): int
  {
    if b then 1 else 0
  }

  /** x belongs to the periodic set a vector describes. */
  predicate Hits(bin: seq<int>, x: int)
    requires |bin| >= 1
  {
    bin[x % |bin|] == 1
  }

  /** The combined vector: period lcm(|a|, |b|), bit k the operation applied to
      the bits of both inputs at k. */
  function Combined(a: seq<int>, b: seq<int>, op: Op): (r: seq<int>)
    requires |a| >= 1 && |b| >= 1
    ensures |r| == Lcm(|a|, |b|)
  {
    seq(Lcm(|a|, |b|), k requires 0 <= k < Lcm(|a|, |b|) =>
      Bit(Apply(op, a[k % |a|] == 1, b[k % |b|] == 1)))
  }

  /** `list * n`: n copies of s one after another. */
  function Repeat(s: seq<int>, n: nat): (r: seq<int>)
    ensures |r| == |s| * n
  {
    if n == 0 then [] else Repeat(s, n - 1) + s
  }

  lemma {:induction false} RepeatIndex(s: seq<int>, n: nat, k: int)
    requires |s| >= 1 && 0 <= k < |s| * n
    ensures Repeat(s, n)[k] == s[k % |s|]
  {
    if k < |s| * (n - 1) {
      RepeatIndex(s, n - 1, k);
    } else {
      ModUnique(k, |s|, n - 1, k - |s| * (n - 1));
    }
  }

  /** The list comprehension `[k for k in range(len(s)) if s[k] == 1]`. */
  function OnesOf(s: seq<int>): (r: seq<int>)
    ensures forall k :: k in r <==> 0 <= k < |s| && s[k] == 1
    ensures StrictlyIncreasing(r)
  {
    if s == [] then []
    else
      var prefix := s[..|s| - 1];
      assert forall k :: 0 <= k < |prefix| ==> prefix[k] == s[k];
      var front := OnesOf(prefix);
      assert forall i :: 0 <= i < |front| ==> front[i] < |s| - 1 by {
        assert forall i :: 0 <= i < |front| ==> front[i] in front;
      }
      front + (if s[|s| - 1] == 1 then [|s| - 1] else [])
  }

  /** `[k for k in s if k in t]`. */
  function KeepIn(s: seq<int>, t: seq<int>): (r: seq<int>)
    ensures forall k :: k in r <==> k in s && k in t
  {
    if s == [] then []
    else (if s[0] in t then [s[0]] else []) + KeepIn(s[1..], t)
  }

  /** `[k for k in s if k not in t]`. */
  function KeepNotIn(s: seq<int>, t: seq<int>): (r: seq<int>)
    ensures forall k :: k in r <==> k in s && k !in t
  {
    if s == [] then []
    else (if s[0] !in t then [s[0]] else []) + KeepNotIn(s[1..], t)
  }

  /** The index list the operation table selects. */
  function OnesFor(op: Op, onesFirst: seq<int>, onesSecond: seq<int>): (r: seq<int>)
    ensures forall k :: k in r <==> Apply(op, k in onesFirst, k in onesSecond)
  {
    match op
    case Or =>
      var s := Sorted(onesFirst + onesSecond);
      SortedSpec(onesFirst + onesSecond);
      assert forall k :: k in s <==> k in multiset(onesFirst + onesSecond);
      s
    case And => KeepIn(onesFirst, onesSecond)
    case Xor =>
      var s := Sorted(KeepNotIn(onesFirst, onesSecond) + KeepNotIn(onesSecond, onesFirst));
      SortedSpec(KeepNotIn(onesFirst, onesSecond) + KeepNotIn(onesSecond, onesFirst));
      assert forall k :: k in s <==> k in multiset(KeepNotIn(onesFirst, onesSecond) + KeepNotIn(onesSecond, onesFirst));
      s
  }

  /** The positions of the 1s of a tiled vector are the positions whose
      residue hits a 1 of the original. */
  lemma TiledOnes(a: seq<int>, n: nat, k: int)
    requires |a| >= 1 && 0 <= k < |a| * n
    ensures k in OnesOf(Repeat(a, n)) <==> a[k % |a|] == 1
  {
    RepeatIndex(a, n, k);
  }

  lemma ExactQuotient(L: int, p: int)
    requires p >= 1 && L >= 0 && L % p == 0
    ensures p * (L / p) == L && L / p >= 0
  {
  }

  /** The closing loop of _operationsSieves: writes a 1 into a zeroed list
      of length n at every index in ones. */
  method MarkOnes(n: nat, ones: seq<int>) returns (result: seq<int>)
    requires forall k :: k in ones ==> 0 <= k < n
    ensures |result| == n
    ensures forall j :: 0 <= j < n ==> result[j] == if j in ones then 1 else 0
  {
    result := seq(n, _ => 0);
    for i := 0 to |ones|
      invariant |result| == n
      invariant forall j :: 0 <= j < n ==> result[j] == if j in ones[..i] then 1 else 0
    {
      var k := ones[i];
      assert k in ones;
      result := result[k := 1];
      assert ones[..i + 1] == ones[..i] + [k];
    }
    assert ones[..|ones|] == ones;
  }

  /** _operationsSieves: tiles both vectors to the lcm of their lengths,
      collects the positions of their 1s, and writes a 1 at every position the
      operation selects into a zeroed vector. */
  method OperationsSieves(firstBin: seq<int>, secondBin: seq<int>, op: Op) returns (result: seq<int>)
    requires |firstBin| >= 1 && |secondBin| >= 1
    ensures result == Combined(firstBin, secondBin, op)
  {
    var mmc := Lcm(|firstBin|, |secondBin|);
    ExactQuotient(mmc, |firstBin|);
    ExactQuotient(mmc, |secondBin|);
    var n1, n2 := mmc / |firstBin|, mmc / |secondBin|;
    var sx := Repeat(firstBin, n1);
    var sy := Repeat(secondBin, n2);
    var onesFirst := OnesOf(sx);
    var onesSecond := OnesOf(sy);
    var ones := OnesFor(op, onesFirst, onesSecond);
    OnesForBound(op, onesFirst, onesSecond, mmc);
    result := MarkOnes(mmc, ones);
    MarkedIsCombined(firstBin, secondBin, op, n1, n2, ones, result);
  }

  /** The selected positions of two vectors of length n lie in [0, n). */
  lemma OnesForBound(op: Op, onesFirst: seq<int>, onesSecond: seq<int>, n: int)
    requires forall k :: k in onesFirst ==> 0 <= k < n
    requires forall k :: k in onesSecond ==> 0 <= k < n
    ensures forall k :: k in OnesFor(op, onesFirst, onesSecond) ==> 0 <= k < n
  {
  }

  /** The vector marked at the selected positions is the combined vector. */
  lemma MarkedIsCombined(a: seq<int>, b: seq<int>, op: Op, n1: nat, n2: nat, ones: seq<int>, result: seq<int>)
    requires |a| >= 1 && |b| >= 1
    requires |a| * n1 == Lcm(|a|, |b|) && |b| * n2 == Lcm(|a|, |b|)
    requires ones == OnesFor(op, OnesOf(Repeat(a, n1)), OnesOf(Repeat(b, n2)))
    requires |result| == Lcm(|a|, |b|)
    requires forall j :: 0 <= j < |result| ==> result[j] == if j in ones then 1 else 0
    ensures result == Combined(a, b, op)
  {
    forall k | 0 <= k < |result|
      ensures result[k] == Combined(a, b, op)[k]
    {
      OnesForCombined(a, b, op, n1, n2, k);
    }
  }

  /** Position k is selected from the tiled vectors exactly when the
      combined vector has a 1 there. */
  lemma OnesForCombined(a: seq<int>, b: seq<int>, op: Op, n1: nat, n2: nat, k: int)
    requires |a| >= 1 && |b| >= 1
    requires |a| * n1 == Lcm(|a|, |b|) && |b| * n2 == Lcm(|a|, |b|) && 0 <= k < Lcm(|a|, |b|)
    ensures Combined(a, b, op)[k] == if k in OnesFor(op, OnesOf(Repeat(a, n1)), OnesOf(Repeat(b, n2))) then 1 else 0
  {
    TiledOnes(a, n1, k);
    TiledOnes(b, n2, k);
  }

  /** Every combination is commutative. */
  lemma CombinedCommutative(a: seq<int>, b: seq<int>, op: Op)
    requires |a| >= 1 && |b| >= 1
    ensures Combined(a, b, op) == Combined(b, a, op)
  {
    LcmComm(|a|, |b|);
  }

  /** The combined vector describes the pointwise combination of the two
      periodic sets, at every integer and not only inside one period. */
  lemma CombinedHits(a: seq<int>, b: seq<int>, op: Op, x: int)
    requires |a| >= 1 && |b| >= 1
    ensures Hits(Combined(a, b, op), x) <==> Apply(op, Hits(a, x), Hits(b, x))
  {
    var L := Lcm(|a|, |b|);
    ModOfMultiple(x, L, |a|);
    ModOfMultiple(x, L, |b|);
  }

  /** Two vectors describing the same periodic set combine the same way:
      the combination depends only on the sets. */
  lemma CombinedRespectsHits(a: seq<int>, b: seq<int>, a': seq<int>, b': seq<int>, op: Op, x: int)
    requires |a| >= 1 && |b| >= 1 && |a'| >= 1 && |b'| >= 1
    requires Hits(a, x) == Hits(a', x) && Hits(b, x) == Hits(b', x)
    ensures Hits(Combined(a, b, op), x) == Hits(Combined(a', b', op), x)
  {
    CombinedHits(a, b, op, x);
    CombinedHits(a', b', op, x);
  }
}
