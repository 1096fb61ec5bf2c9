/** Integer facts behind the sieve engine: Python's math.lcm and the
    behaviour of `%` under a common period. */
module Arith {

  predicate CommonMultiple(c: int, p: int, q: int)
    requires p >= 1 && q >= 1
  {
    c >= 1 && c % p == 0 && c % q == 0
  }

  lemma MulMod(p: int, w: int)
    requires p >= 1
    ensures (p * w) % p == 0
  {
    ModUnique(p * w, p, w, 0);
  }

  /** x == p*q + r with 0 <= r < p pins down x % p. */
  lemma ModUnique(x: int, p: int, q: int, r: int)
    requires p >= 1 && 0 <= r < p && x == p * q + r
    ensures x % p == r && x / p == q
  {
    var q', r' := x / p, x % p;
    assert p * (q - q') == r' - r;
    if q > q' {
      assert p * (q - q') >= p by { MulAtLeast(p, q - q'); }
    } else if q < q' {
      assert p * (q' - q) >= p by { MulAtLeast(p, q' - q); }
    }
  }

  lemma MulAtLeast(p: int, k: int)
    requires p >= 1 && k >= 1
    ensures p * k >= p
  {
  }

  lemma {:induction false} ModAddMultiple(x: int, p: int, k: int)
    requires p >= 1
    ensures (x + p * k) % p == x % p
  {
    ModUnique(x + p * k, p, x / p + k, x % p);
  }

  /** Reducing modulo a multiple L of p first does not change the residue
      modulo p. */
  lemma ModOfMultiple(x: int, L: int, p: int)
    requires p >= 1 && L >= 1 && L % p == 0
    ensures (x % L) % p == x % p
  {
    var u := L / p;
    assert L == p * u;
    assert x == L * (x / L) + x % L;
    assert x % L == x + p * (-(u * (x / L)));
    ModAddMultiple(x, p, -(u * (x / L)));
  }

  /** p*q is a common multiple of p and q. */
  lemma ProductCommon(p: int, q: int)
    requires p >= 1 && q >= 1
    ensures CommonMultiple(p * q, p, q)
  {
    MulMod(p, q);
    MulMod(q, p);
    assert p * q == q * p;
  }

  /** The least common multiple of p and q that is at least k. */
  function LcmFrom(p: int, q: int, k: int): (r: int)
    requires p >= 1 && q >= 1 && 1 <= k <= p * q
    ensures k <= r <= p * q && CommonMultiple(r, p, q)
    ensures forall j :: k <= j < r ==> !CommonMultiple(j, p, q)
    decreases p * q - k
  {
    ProductCommon(p, q);
    if CommonMultiple(k, p, q) then k else LcmFrom(p, q, k + 1)
  }

  /** Python's math.lcm on positive arguments. */
  function Lcm(p: int, q: int): (r: int)
    requires p >= 1 && q >= 1
    ensures CommonMultiple(r, p, q) && r <= p * q
    ensures forall j :: 1 <= j < r ==> !CommonMultiple(j, p, q)
  {
    assert p * q >= 1 by { MulAtLeast(p, q); }
    LcmFrom(p, q, 1)
  }

  /** A common multiple below which no common multiple exists is the lcm. */
  lemma LcmUnique(p: int, q: int, c: int)
    requires p >= 1 && q >= 1 && CommonMultiple(c, p, q)
    requires forall j :: 1 <= j < c ==> !CommonMultiple(j, p, q)
    ensures Lcm(p, q) == c
  {
  }

  /** lcm(p, q) divides every common multiple of p and q. */
  lemma LcmDivides(p: int, q: int, c: int)
    requires p >= 1 && q >= 1 && CommonMultiple(c, p, q)
    ensures c % Lcm(p, q) == 0
  {
    var L := Lcm(p, q);
    var r := c % L;
    var a := c / L;
    assert r == c + L * (-a);
    AddMultipleOfMultiple(c, L, p, -a);
    AddMultipleOfMultiple(c, L, q, -a);
    if r != 0 {
      assert CommonMultiple(r, p, q);
    }
  }

  /** Adding a multiple of a multiple of p keeps divisibility by p. */
  lemma AddMultipleOfMultiple(c: int, L: int, p: int, a: int)
    requires p >= 1 && c % p == 0 && L % p == 0
    ensures (c + L * a) % p == 0
  {
    var u := L / p;
    assert L == p * u;
    assert L * a == p * (u * a);
    ModAddMultiple(c, p, u * a);
  }

  lemma LcmComm(p: int, q: int)
    requires p >= 1 && q >= 1
    ensures Lcm(p, q) == Lcm(q, p)
  {
    var L := Lcm(p, q);
    forall j | 1 <= j < L ensures !CommonMultiple(j, q, p) {
      assert !CommonMultiple(j, p, q);
    }
    LcmUnique(q, p, L);
  }

  /** When q divides p the lcm is p itself. */
  lemma LcmOfDivisor(p: int, q: int)
    requires p >= 1 && q >= 1 && p % q == 0
    ensures Lcm(p, q) == p
  {
    ModUnique(p, p, 1, 0);
    assert CommonMultiple(p, p, q);
    var L := Lcm(p, q);
    assert L <= p;
    MultipleAtLeast(L, p);
  }

  /** A positive multiple of p is at least p. */
  lemma MultipleAtLeast(c: int, p: int)
    requires p >= 1 && c >= 1 && c % p == 0
    ensures c >= p
  {
    var k := c / p;
    assert c == p * k;
    MulSign(p, k);
  }

  lemma MulSign(p: int, k: int)
    requires p >= 1
    ensures k >= 1 ==> p * k >= p
    ensures k <= 0 ==> p * k <= 0
  {
    if k >= 1 {
      MulAtLeast(p, k);
    }
  }

  lemma LcmIdempotent(p: int)
    requires p >= 1
    ensures Lcm(p, p) == p
  {
    assert p % p == 0;
    LcmOfDivisor(p, p);
  }

  lemma Lcm3And5()
    ensures Lcm(3, 5) == 15
  {
    var L := Lcm(3, 5);
    assert CommonMultiple(15, 3, 5);
    var k := L / 5;
    assert L == 5 * k;
    assert 1 <= k <= 3;
    assert k == 3;
  }

  lemma Lcm5And6()
    ensures Lcm(5, 6) == 30
  {
    var L := Lcm(5, 6);
    assert CommonMultiple(30, 5, 6);
    var k := L / 6;
    assert L == 6 * k;
    assert 1 <= k <= 5;
    assert k == 5;
  }

  lemma Lcm3And13()
    ensures Lcm(3, 13) == 39
  {
    var L := Lcm(3, 13);
    assert CommonMultiple(39, 3, 13);
    var k := L / 13;
    assert L == 13 * k;
    assert 1 <= k <= 3;
    assert k == 3;
  }

  lemma Lcm30And39()
    ensures Lcm(30, 39) == 390
  {
    var L := Lcm(30, 39);
    assert CommonMultiple(390, 30, 39);
    var k := L / 39;
    assert L == 39 * k;
    assert 1 <= k <= 10;
    assert k == 10 by {
      assert k == 1 || k == 2 || k == 3 || k == 4 || k == 5 || k == 6 || k == 7 || k == 8 || k == 9 || k == 10;
    }
  }
}
