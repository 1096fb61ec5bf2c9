/** The partition generator of build/lib/comptools/parsepy.py (the same code
    is in parsepy.py): accel_asc, all_partitions and young_ret. */
module ParsepyPartitions {
  import opened PyBase

  /** A partition of n as accel_asc lists it: parts of at least 1, in
      non-decreasing order, summing to n. */
  predicate IsPartition(p: seq<int>, n: int)
  {
    NonDecreasing(p) && (forall i :: 0 <= i < |p| ==> p[i] >= 1) && Sum(p) == n
  }

  /** Every list is lexicographically below every later one. */
  predicate LexChain(ps: seq<seq<int>>)
  {
    forall i, j {:trigger LexLess(ps[i], ps[j])} :: 0 <= i < j < |ps| ==> LexLess(ps[i], ps[j])
  }

  /** Every list of ps is a partition of n. */
  predicate EachPartition(ps: seq<seq<int>>, n: int)
  {
    forall i {:trigger IsPartition(ps[i], n)} :: 0 <= i < |ps| ==> IsPartition(ps[i], n)
  }

  lemma EachPartitionAppend(ps: seq<seq<int>>, p: seq<int>, n: int)
    requires EachPartition(ps, n) && IsPartition(p, n)
    ensures EachPartition(ps + [p], n)
  {
    forall i | 0 <= i < |ps| + 1 ensures IsPartition((ps + [p])[i], n) {
      if i < |ps| {
        assert (ps + [p])[i] == ps[i] && IsPartition(ps[i], n);
      }
    }
  }

  lemma LexChainAppend(ps: seq<seq<int>>, p: seq<int>)
    requires LexChain(ps) && (ps != [] ==> LexLess(ps[|ps| - 1], p))
    ensures LexChain(ps + [p])
  {
    var qs := ps + [p];
    forall i, j | 0 <= i < j < |qs| ensures LexLess(qs[i], qs[j]) {
      if j < |ps| {
        assert qs[i] == ps[i] && qs[j] == ps[j] && LexLess(ps[i], ps[j]);
      } else if i < |ps| - 1 {
        assert LexLess(ps[i], ps[|ps| - 1]);
        LexLessTransitive(ps[i], ps[|ps| - 1], p);
      }
    }
  }

  /** A lexicographic chain repeats no list. */
  lemma LexChainNoDuplicates(ps: seq<seq<int>>)
    requires LexChain(ps)
    ensures NoDuplicates(ps)
  {
    forall i, j | 0 <= i < j < |ps| ensures ps[i] != ps[j] {
      assert LexLess(ps[i], ps[j]);
      LexLessIrreflexive(ps[i]);
    }
  }

  // ---------------------------------------------------------------------
  // A finite set that holds every partition of n, for termination
  // ---------------------------------------------------------------------

  ghost function SeqsOfLength(len: nat, hi: int): set<seq<int>>
  {
    if len == 0 then {[]}
    else set p, e | p in SeqsOfLength(len - 1, hi) && 1 <= e <= hi :: p + [e]
  }

  lemma {:induction false} InSeqsOfLength(p: seq<int>, hi: int)
    requires forall i :: 0 <= i < |p| ==> 1 <= p[i] <= hi
    ensures p in SeqsOfLength(|p|, hi)
  {
    if p != [] {
      var n := |p| - 1;
      InSeqsOfLength(p[..n], hi);
      assert p[..n] + [p[n]] == p;
    }
  }

  ghost function SeqsUpTo(len: nat, hi: int): set<seq<int>>
  {
    if len == 0 then {[]} else SeqsUpTo(len - 1, hi) + SeqsOfLength(len, hi)
  }

  lemma {:induction false} InSeqsUpTo(p: seq<int>, len: nat, hi: int)
    requires |p| <= len && forall i :: 0 <= i < |p| ==> 1 <= p[i] <= hi
    ensures p in SeqsUpTo(len, hi)
  {
    if |p| == len {
      InSeqsOfLength(p, hi);
      if len == 0 {
        assert p == [];
      }
    } else {
      InSeqsUpTo(p, len - 1, hi);
    }
  }

  /** The partitions of n lexicographically above `last`. */
  ghost function Later(n: nat, last: seq<int>): set<seq<int>>
  {
    set p | p in SeqsUpTo(n, n) && IsPartition(p, n) && LexLess(last, p)
  }

  lemma PartitionBounded(p: seq<int>, n: nat)
    requires IsPartition(p, n)
    ensures p in SeqsUpTo(n, n)
  {
    SumAtLeastLength(p);
    forall i | 0 <= i < |p| ensures p[i] <= n {
      ElementAtMostSum(p, i);
    }
    InSeqsUpTo(p, n, n);
  }

  lemma LaterShrinks(n: nat, prev: seq<int>, next: seq<int>)
    requires IsPartition(next, n) && LexLess(prev, next)
    ensures Later(n, next) < Later(n, prev)
  {
    PartitionBounded(next, n);
    assert next in Later(n, prev);
    LexLessIrreflexive(next);
    forall p | p in Later(n, next) ensures p in Later(n, prev) {
      LexLessTransitive(prev, next, p);
    }
  }

  // ---------------------------------------------------------------------
  // accel_asc
  // ---------------------------------------------------------------------

  /** The state of accel_asc around its inner loops: the parts q written so
      far are at least 1, at most x and non-decreasing; x and the rest y
      complete them to n. */
  predicate Between(q: seq<int>, x: int, y: int, n: int)
  {
    x >= 1 && y >= 0 && |q| + x + y <= n && Sum(q) + x + y == n &&
    (forall i :: 0 <= i < |q| ==> 1 <= q[i] <= x) && NonDecreasing(q)
  }

  /** The lists yielded so far: a lexicographic chain of partitions of n. */
  predicate Chain(out: seq<seq<int>>, n: int)
  {
    LexChain(out) && EachPartition(out, n)
  }

  /** The state after `x = a[k - 1] + 1; k -= 1`: the parts before k are at
      most x - 1 and, with x and y, still sum to n. */
  lemma StepBack(w: seq<int>, y: int, n: int, started: bool)
    requires |w| >= 1 && y >= 0
    requires !started ==> w == [0] && y == n - 1
    requires started ==> IsPartition(w + [y + 1], n)
    ensures Between(w[..|w| - 1], w[|w| - 1] + 1, y, n)
  {
    var k := |w| - 1;
    assert w == w[..k] + [w[k]];
    SumSnoc(w[..k], w[k]);
    if started {
      var v := w + [y + 1];
      SumSnoc(w, y + 1);
      assert forall i :: 0 <= i < |w| ==> v[i] == w[i];
      forall i | 0 <= i < k ensures 1 <= w[i] <= w[k] {
        assert 1 <= v[i] <= v[k];
      }
      assert w[k] >= 1 by { assert v[k] >= 1; }
      forall i, j | 0 <= i < j < k ensures w[..k][i] <= w[..k][j] {
        assert v[i] <= v[j];
      }
      SumAtLeastLength(w[..k]);
    }
  }

  /** A prefix of parts of at least 1 bounded by x, followed by the parts
      x <= y, is a partition of the total. */
  lemma ExtendPartition(q: seq<int>, tail: seq<int>, n: int)
    requires forall i :: 0 <= i < |q| ==> q[i] >= 1
    requires NonDecreasing(q) && NonDecreasing(tail) && |tail| >= 1
    requires forall i :: 0 <= i < |tail| ==> tail[i] >= 1
    requires forall i :: 0 <= i < |q| ==> q[i] <= tail[0]
    requires Sum(q) + Sum(tail) == n
    ensures IsPartition(q + tail, n)
  {
    SumConcat(q, tail);
    var r := q + tail;
    forall i, j | 0 <= i < j < |r| ensures r[i] <= r[j] {
      if i < |q| && j >= |q| {
        assert r[j] == tail[j - |q|] >= tail[0];
      }
    }
  }

  lemma SumPair(x: int, y: int)
    ensures Sum([x, y]) == x + y && Sum([x]) == x
  {
    SumSnoc([x], y);
    SumSnoc([], x);
    assert [x] == [] + [x];
  }

  /** Every list that continues the prefix q with a part of at least x is
      lexicographically above L. */
  ghost predicate AboveFrom(L: seq<int>, q: seq<int>, x: int)
  {
    forall z {:trigger LexLess(L, z)} :: |z| > |q| && z[..|q|] == q && z[|q|] >= x ==> LexLess(L, z)
  }

  /** L leaves the prefix q at position j by a smaller part. */
  lemma AboveFromAt(L: seq<int>, q: seq<int>, x: int, j: nat)
    requires j <= |q| && j < |L| && L[..j] == q[..j]
    requires L[j] < if j < |q| then q[j] else x
    ensures AboveFrom(L, q, x)
  {
    forall z | |z| > |q| && z[..|q|] == q && z[|q|] >= x ensures LexLess(L, z) {
      assert z[..j] == q[..j];
      assert z[j] == if j < |q| then q[j] else z[|q|];
      LexLessAt(L, z, j);
    }
  }

  /** The list a round first yields is above the previous round's last
      list pre + [x - 1, y0 + 1], since it continues pre with a part x. */
  lemma RoundStart(L: seq<int>, pre: seq<int>, x: int, y0: int, q: seq<int>)
    requires L == pre + [x - 1, y0 + 1]
    requires |q| >= |pre| && q[..|pre|] == pre && (|q| > |pre| ==> q[|pre|] == x)
    ensures AboveFrom(L, q, x)
  {
    var j := |pre|;
    assert L[..j] == pre && L[j] == x - 1;
    assert q[..j] == pre;
    AboveFromAt(L, q, x, j);
  }

  /** Yielding q + tail, whose first part is at least x, extends the chain
      of partitions of n. */
  lemma YieldStep(out: seq<seq<int>>, q: seq<int>, x: int, tail: seq<int>, n: int)
    requires Chain(out, n)
    requires out != [] ==> AboveFrom(out[|out| - 1], q, x)
    requires forall i :: 0 <= i < |q| ==> 1 <= q[i] <= x
    requires NonDecreasing(q) && NonDecreasing(tail) && |tail| >= 1 && tail[0] >= x
    requires forall i :: 0 <= i < |tail| ==> tail[i] >= 1
    requires Sum(q) + Sum(tail) == n
    ensures IsPartition(q + tail, n) && Chain(out + [q + tail], n)
  {
    var z := q + tail;
    ExtendPartition(q, tail, n);
    if out != [] {
      assert z[..|q|] == q && z[|q|] == tail[0];
      assert LexLess(out[|out| - 1], z);
    }
    LexChainAppend(out, z);
    EachPartitionAppend(out, z, n);
  }

  /** One pass of the second inner loop: yielding q + [x, y] extends the
      chain, and every later list continuing q with a part above x lies above
      it. */
  lemma PairStep(out: seq<seq<int>>, q: seq<int>, x: int, y: int, n: int)
    requires Chain(out, n) && Between(q, x, y, n) && x <= y
    requires out != [] ==> AboveFrom(out[|out| - 1], q, x)
    ensures Chain(out + [q + [x, y]], n) && Between(q, x + 1, y - 1, n)
    ensures AboveFrom(q + [x, y], q, x + 1)
  {
    SumPair(x, y);
    YieldStep(out, q, x, [x, y], n);
    AboveFromAt(q + [x, y], q, x + 1, |q|);
  }

  /** The yield after the second inner loop: q + [x + y] extends the chain. */
  lemma LastStep(out: seq<seq<int>>, q: seq<int>, x: int, y: int, n: int)
    requires Chain(out, n) && Between(q, x, y, n)
    requires out != [] ==> AboveFrom(out[|out| - 1], q, x)
    ensures Chain(out + [q + [x + y]], n) && IsPartition(q + [x + y], n)
  {
    SumPair(x + y, 0);
    YieldStep(out, q, x, [x + y], n);
  }

  /** Once the chain out has grown to before + [p], p is its last list and
      lies above the last list of out. */
  lemma LastOfChain(out: seq<seq<int>>, before: seq<seq<int>>, p: seq<int>, n: int)
    requires |before| >= |out| && before[..|out|] == out && Chain(before + [p], n)
    ensures (before + [p])[..|out|] == out && IsPartition(p, n)
    ensures out != [] ==> LexLess(out[|out| - 1], p)
  {
    var all := before + [p];
    assert all[..|out|] == out;
    assert IsPartition(all[|all| - 1], n);
    if out != [] {
      assert all[|out| - 1] == out[|out| - 1];
      assert LexLess(all[|out| - 1], all[|all| - 1]);
    }
  }

  lemma NonDecreasingSnoc(s: seq<int>, e: int)
    requires NonDecreasing(s) && forall i :: 0 <= i < |s| ==> s[i] <= e
    ensures NonDecreasing(s + [e])
  {
    var t := s + [e];
    forall i, j | 0 <= i < j < |t| ensures t[i] <= t[j] {
      if j < |s| {
        assert t[i] == s[i] && t[j] == s[j];
      }
    }
  }

  /** One pass of the first inner loop: writing another part x keeps the
      state, with x taken from the rest. */
  lemma DescendStep(done: seq<int>, x: int, y: int, n: int)
    requires Between(done, x, y, n) && 2 * x <= y
    ensures Between(done + [x], x, y - x, n)
  {
    NonDecreasingSnoc(done, x);
    SumSnoc(done, x);
  }

  /** The first inner loop of accel_asc, `while 2 * x <= y`: it writes parts
      x at k, k + 1, ... while the rest y is at least 2x. */
  method Descend(a: array<int>, k: int, x: int, y: int, ghost n: int) returns (k': int, y': int)
    modifies a
    requires a.Length == n + 1 && 0 <= k <= n && Between(a[..k], x, y, n)
    ensures k <= k' <= n && y' < 2 * x && Between(a[..k'], x, y', n)
    ensures forall i :: 0 <= i < k ==> a[i] == old(a[i])
    ensures k' > k ==> a[k] == x
  {
    k', y' := k, y;
    while 2 * x <= y'
      invariant k <= k' <= n && Between(a[..k'], x, y', n)
      invariant forall i :: 0 <= i < k ==> a[i] == old(a[i])
      invariant k' > k ==> a[k] == x
      decreases y'
    {
      ghost var done := a[..k'];
      DescendStep(done, x, y', n);
      a[k'] := x;
      assert a[..k' + 1] == done + [x];
      y' := y' - x;
      k' := k' + 1;
    }
  }

  /** The second inner loop of accel_asc, `while x <= y`, yielding
      a[:k + 2] each time with x going up and y going down. */
  method Pairs(a: array<int>, k: int, x: int, y: int, ghost n: int, out: seq<seq<int>>)
    returns (x': int, y': int, out': seq<seq<int>>)
    modifies a
    requires a.Length == n + 1 && 0 <= k <= n && Between(a[..k], x, y, n) && Chain(out, n)
    requires out != [] ==> AboveFrom(out[|out| - 1], a[..k], x)
    ensures a[..k] == old(a[..k]) && Between(a[..k], x', y', n) && y' < x'
    ensures Chain(out', n) && |out'| >= |out| && out'[..|out|] == out
    ensures out' != [] ==> AboveFrom(out'[|out'| - 1], a[..k], x')
  {
    ghost var q := a[..k];
    var l := k + 1;
    x', y' := x, y;
    out' := out;
    while x' <= y'
      invariant a[..k] == q && Between(q, x', y', n) && Chain(out', n)
      invariant |out'| >= |out| && out'[..|out|] == out
      invariant out' != [] ==> AboveFrom(out'[|out'| - 1], q, x')
      decreases y' - x'
    {
      a[k] := x';
      a[l] := y';
      var yielded := a[..k + 2];
      assert yielded == q + [x', y'] && a[..k] == q;
      PairStep(out', q, x', y', n);
      out' := out' + [yielded];
      x', y' := x' + 1, y' - 1;
    }
  }

  /** The second inner loop of accel_asc and the yield of a[:k + 1] after
      it. The lists it adds continue the chain, and the last one is
      a[:k] + [y' + 1]. */
  method Yields(a: array<int>, k: int, x: int, y: int, ghost n: int, out: seq<seq<int>>)
    returns (y': int, out': seq<seq<int>>)
    modifies a
    requires a.Length == n + 1 && 0 <= k <= n && Between(a[..k], x, y, n) && Chain(out, n)
    requires out != [] ==> AboveFrom(out[|out| - 1], a[..k], x)
    ensures a[..k] == old(a[..k]) && y' >= 0 && Chain(out', n)
    ensures |out'| > |out| && out'[..|out|] == out
    ensures out'[|out'| - 1] == a[..k] + [y' + 1] && IsPartition(out'[|out'| - 1], n)
    ensures out != [] ==> LexLess(out[|out| - 1], out'[|out'| - 1])
  {
    ghost var q := a[..k];
    var xx, yy, before := Pairs(a, k, x, y, n, out);
    ghost var p := q + [xx + yy];
    LastStep(before, q, xx, yy, n);
    LastOfChain(out, before, p, n);
    a[k] := xx + yy;
    assert a[..k] == q;
    var yielded := a[..k + 1];
    assert yielded == p;
    out' := before + [yielded];
    y' := xx + yy - 1;
  }

  /** One pass of the outer loop of accel_asc: step back one slot, run the
      first inner loop, then the second, and yield. */
  method Round(a: array<int>, k: int, y: int, ghost n: int, out: seq<seq<int>>)
    returns (k': int, y': int, out': seq<seq<int>>)
    modifies a
    requires 1 <= k <= n && y >= 0 && a.Length == n + 1
    requires |out| == 0 ==> k == 1 && a[0] == 0 && y == n - 1
    requires |out| > 0 ==> out[|out| - 1] == a[..k] + [y + 1] && IsPartition(out[|out| - 1], n)
    requires Chain(out, n)
    ensures 0 <= k' <= n && y' >= 0 && |out'| > 0 && Chain(out', n)
    ensures out'[|out'| - 1] == a[..k'] + [y' + 1] && IsPartition(out'[|out'| - 1], n)
    ensures out != [] ==> LexLess(out[|out| - 1], out'[|out'| - 1])
  {
    var x := a[k - 1] + 1;
    var j := k - 1;
    ghost var pre := a[..j];
    assert a[..j + 1] == pre + [x - 1];
    StepBack(a[..j + 1], y, n, |out| > 0);
    var j', y1 := Descend(a, j, x, y, n);
    if out != [] {
      assert a[..j'][..j] == pre;
      RoundStart(out[|out| - 1], pre, x, y, a[..j']);
    }
    y', out' := Yields(a, j', x, y1, n, out);
    k' := j';
  }

  /** accel_asc(n): the ascending-composition generator, with the array `a`
      of n + 1 slots, collecting what it yields. For n < 0 the list `a` is
      empty and `a[k - 1]` raises IndexError; for n == 0 the loops run once
      and yield [0]. Every list yielded for n >= 1 is a partition of n, and
      each is lexicographically above the one before, so none repeats. */
  method AccelAsc(n: int) returns (r: Result<seq<seq<int>>>)
    ensures n < 0 <==> r.Err?
    ensures n < 0 ==> r.error == IndexError
    ensures n == 0 ==> r == Ok([[0]])
    ensures n >= 1 ==> r.Ok? && |r.value| >= 1 && LexChain(r.value)
    ensures n >= 1 ==> forall i :: 0 <= i < |r.value| ==> IsPartition(r.value[i], n)
  {
    if n < 0 {
      return Err(IndexError);
    }
    if n == 0 {
      return Ok([[0]]);
    }
    var a := new int[n + 1](_ => 0);
    var k := 1;
    var y := n - 1;
    var out: seq<seq<int>> := [];
    while k != 0
      invariant 0 <= k <= n && y >= 0 && a.Length == n + 1
      invariant |out| == 0 ==> k == 1 && a[0] == 0 && y == n - 1
      invariant |out| > 0 ==> out[|out| - 1] == a[..k] + [y + 1] && IsPartition(out[|out| - 1], n)
      invariant Chain(out, n)
      decreases if |out| == 0 then 1 else 0, Later(n, if |out| == 0 then [] else out[|out| - 1])
    {
      ghost var prevOut := out;
      k, y, out := Round(a, k, y, n, out);
      if prevOut != [] {
        LaterShrinks(n, prevOut[|prevOut| - 1], out[|out| - 1]);
      }
    }
    assert forall i :: 0 <= i < |out| ==> IsPartition(out[i], n);
    r := Ok(out);
  }

  // ---------------------------------------------------------------------
  // all_partitions and young_ret
  // ---------------------------------------------------------------------

  /** all_partitions(n): the lists of accel_asc(n), as tuples. For n >= 1
      they are distinct partitions of n. */
  method AllPartitions(n: int) returns (r: Result<seq<seq<int>>>)
    ensures n < 0 <==> r.Err?
    ensures n == 0 ==> r == Ok([[0]])
    ensures n >= 1 ==> r.Ok? && |r.value| >= 1 && NoDuplicates(r.value)
    ensures n >= 1 ==> forall i :: 0 <= i < |r.value| ==> IsPartition(r.value[i], n)
  {
    r := AccelAsc(n);
    if n >= 1 {
      LexChainNoDuplicates(r.value);
    }
  }

  /** What young_ret has collected before round i: partitions of 1 .. i - 1,
      distinct, grouped by increasing sum. */
  predicate Collected(r: seq<seq<int>>, i: int)
  {
    (forall j :: 0 <= j < |r| ==> 1 <= Sum(r[j]) < i && IsPartition(r[j], Sum(r[j]))) &&
    (forall j, l :: 0 <= j < l < |r| ==> Sum(r[j]) <= Sum(r[l])) &&
    NoDuplicates(r)
  }

  lemma CollectedAppend(r: seq<seq<int>>, g: seq<seq<int>>, i: int)
    requires i >= 1 && Collected(r, i) && NoDuplicates(g)
    requires forall j :: 0 <= j < |g| ==> IsPartition(g[j], i)
    ensures Collected(r + g, i + 1)
  {
    var t := r + g;
    forall j | 0 <= j < |t| ensures 1 <= Sum(t[j]) < i + 1 && IsPartition(t[j], Sum(t[j])) {
      if j >= |r| {
        assert t[j] == g[j - |r|];
      } else {
        assert t[j] == r[j];
      }
    }
    forall j, l | 0 <= j < l < |t| ensures Sum(t[j]) <= Sum(t[l]) && t[j] != t[l] {
      if l < |r| {
        assert t[j] == r[j] && t[l] == r[l];
      } else if j >= |r| {
        assert t[j] == g[j - |r|] && t[l] == g[l - |r|];
      } else {
        assert t[j] == r[j] && t[l] == g[l - |r|];
        assert Sum(t[j]) < i == Sum(t[l]);
      }
    }
  }

  /** young_ret(n): the partitions of 1, 2, ..., n in turn. */
  method YoungRet(n: int) returns (r: seq<seq<int>>)
    ensures forall j :: 0 <= j < |r| ==> 1 <= Sum(r[j]) <= n && IsPartition(r[j], Sum(r[j]))
    ensures forall j, l :: 0 <= j < l < |r| ==> Sum(r[j]) <= Sum(r[l])
    ensures NoDuplicates(r)
    ensures n >= 1 ==> |r| >= n
  {
    r := [];
    var i := 1;
    while i <= n
      invariant 1 <= i <= if n >= 1 then n + 1 else 1
      invariant Collected(r, i) && |r| >= i - 1
    {
      var g := AllPartitions(i);
      CollectedAppend(r, g.value, i);
      r := r + g.value;
      i := i + 1;
    }
  }
}
