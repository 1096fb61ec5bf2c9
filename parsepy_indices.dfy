/** The partition indices of build/lib/comptools/parsepy.py (the same code is
    in parsepy.py): binary relations, agglomeration and dispersion. */
module ParsepyIndices {
  import opened PyBase

  /** n * (n - 1) is even, so the division by 2 is exact. */
  lemma ConsecutiveProductEven(n: int)
    ensures (n * (n - 1)) % 2 == 0
  {
    var q := n / 2;
    if n % 2 == 0 {
      assert n * (n - 1) == 2 * (q * (n - 1));
    } else {
      assert n - 1 == 2 * q;
      assert n * (n - 1) == 2 * (q * n);
    }
  }

  /** binary_relations: the number of unordered pairs among n parts. Python's
      `/` yields a float; the value is always a whole number, taken here as
      an integer. */
  function BinaryRelations(n: int): (r: int)
    ensures 2 * r == n * (n - 1)
  {
    ConsecutiveProductEven(n);
    n * (n - 1) / 2
  }

  /** The pairs among a + b parts are those among a, those among b and the
      a * b pairs across. */
  lemma BinaryRelationsAdd(a: int, b: int)
    ensures BinaryRelations(a + b) == BinaryRelations(a) + BinaryRelations(b) + a * b
  {
    assert (a + b) * (a + b - 1) == a * (a - 1) + b * (b - 1) + 2 * (a * b);
  }

  /** What agglomeration_index accumulates: the pairs inside each part. */
  function AgglomerationOf(part: seq<int>): int
  {
    if part == [] then 0
    else AgglomerationOf(part[..|part| - 1]) + BinaryRelations(part[|part| - 1])
  }

  /** agglomeration_index: the loop over the parts. */
  method AgglomerationIndex(part: seq<int>) returns (result: int)
    ensures result == AgglomerationOf(part)
  {
    result := 0;
    for i := 0 to |part|
      invariant result == AgglomerationOf(part[..i])
    {
      assert part[..i + 1][..i] == part[..i];
      result := result + BinaryRelations(part[i]);
    }
    assert part[..|part|] == part;
  }

  /** dispersion_index: the pairs of the whole less the pairs inside parts. */
  function DispersionIndex(part: seq<int>): (r: int)
  {
    BinaryRelations(Sum(part)) - AgglomerationOf(part)
  }

  /** The pairs across parts: each part times the parts before it. */
  function CrossPairs(part: seq<int>): int
  {
    if part == [] then 0
    else CrossPairs(part[..|part| - 1]) + Sum(part[..|part| - 1]) * part[|part| - 1]
  }

  /** Agglomeration and dispersion split the binary relations of the sum. */
  lemma IndicesSplitRelations(part: seq<int>)
    ensures AgglomerationOf(part) + DispersionIndex(part) == BinaryRelations(Sum(part))
    ensures 2 * (AgglomerationOf(part) + DispersionIndex(part)) == Sum(part) * (Sum(part) - 1)
  {
  }

  /** The dispersion index counts exactly the pairs that lie in different
      parts. */
  lemma {:induction false} DispersionIsCrossPairs(part: seq<int>)
    ensures DispersionIndex(part) == CrossPairs(part)
  {
    if part != [] {
      var n := |part| - 1;
      DispersionIsCrossPairs(part[..n]);
      BinaryRelationsAdd(Sum(part[..n]), part[n]);
    }
  }

  /** So for parts that are not negative it is never negative. */
  lemma {:induction false} DispersionNonNegative(part: seq<int>)
    requires forall i :: 0 <= i < |part| ==> part[i] >= 0
    ensures DispersionIndex(part) >= 0
  {
    CrossPairsNonNegative(part);
    DispersionIsCrossPairs(part);
  }

  lemma {:induction false} CrossPairsNonNegative(part: seq<int>)
    requires forall i :: 0 <= i < |part| ==> part[i] >= 0
    ensures CrossPairs(part) >= 0
  {
    if part != [] {
      var n := |part| - 1;
      CrossPairsNonNegative(part[..n]);
      SumNonNegative(part[..n]);
      assert Sum(part[..n]) * part[n] >= 0;
    }
  }

  /** A partition into ones has no pairs inside parts and all of them across. */
  lemma {:induction false} OnesAgglomeration(n: nat)
    ensures AgglomerationOf(seq(n, _ => 1)) == 0
    ensures Sum(seq(n, _ => 1)) == n
  {
    if n > 0 {
      assert seq(n, _ => 1)[..n - 1] == seq(n - 1, _ => 1);
      OnesAgglomeration(n - 1);
    }
  }
}
