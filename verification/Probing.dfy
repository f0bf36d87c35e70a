/**
 * Open addressing with double hashing as dpkg.c does it: the address goes down by a fixed step and wraps around.
 * Because the table size is prime, every step visits every slot.
 */
module Probing {

  ghost predicate Prime(p: nat) { p >= 2 && forall d :: 2 <= d < p ==> p % d != 0 }

  // ---- the table sizes are prime

  /** No number from `d` down to two divides `p`. */
  predicate Tried(p: nat, d: nat) { if d < 2 then true else if p % d == 0 then false else Tried(p, d - 1) }

  lemma {:induction false} TriedAll(p: nat, d: nat, e: nat)
    requires Tried(p, d) && 2 <= e <= d
    ensures p % e != 0
  {
    if e < d { TriedAll(p, d - 1, e); }
  }

  lemma Factor(p: nat, d: nat)
    requires 2 <= d < p && p % d == 0
    ensures 2 <= p / d && d * (p / d) == p && p % (p / d) == 0
  {
    var e := p / d;
    assert d * e == p;
    assert e * d == p;
    MultipleHasNoRemainder(e, d);
  }

  lemma MultipleHasNoRemainder(e: nat, d: nat)
    requires e > 0
    ensures (e * d) % e == 0
  {
    var x := e * d;
    var q, r := x / e, x % e;
    assert e * (d - q) == r;
    assert d - q >= 1 ==> e * (d - q) >= e;
    assert d - q <= -1 ==> e * (d - q) <= -1 * e;
  }

  /** Trial division up to the square root. */
  lemma TrialDivision(p: nat, r: nat)
    requires p >= 2 && Tried(p, r) && (r + 1) * (r + 1) > p
    ensures Prime(p)
  {
    forall d | 2 <= d < p ensures p % d != 0 {
      if p % d == 0 {
        Factor(p, d);
        var e := p / d;
        if d <= r { TriedAll(p, r, d); }
        else if e <= r { TriedAll(p, r, e); }
        else { Squares(r, d, e); }
      }
    }
  }

  lemma Squares(r: nat, d: nat, e: nat)
    requires r < d && r < e
    ensures (r + 1) * (r + 1) <= d * e
  {
    assert (r + 1) * (r + 1) <= (r + 1) * e;
    assert (r + 1) * e <= d * e;
  }

  const NAME_HASH_PRIME: nat := 16381
  const PACKAGE_HASH_PRIME: nat := 10007
  const STATUS_HASH_PRIME: nat := 8191

  lemma TriedBlock(p: nat, d: nat)
    requires Tried(p, d)
    requires p % (d + 1) != 0 && p % (d + 2) != 0 && p % (d + 3) != 0 && p % (d + 4) != 0
    requires p % (d + 5) != 0 && p % (d + 6) != 0 && p % (d + 7) != 0 && p % (d + 8) != 0
    ensures Tried(p, d + 8)
  {
    assert Tried(p, d + 1) && Tried(p, d + 2) && Tried(p, d + 3) && Tried(p, d + 4);
    assert Tried(p, d + 5) && Tried(p, d + 6) && Tried(p, d + 7);
  }

  lemma TriedNone(p: nat)
    ensures Tried(p, 1)
  {
  }

  lemma NameSizeTried()
    ensures Tried(16381, 65)
  {
    hide Tried;
    TriedNone(16381);
    TriedBlock(16381, 1); TriedBlock(16381, 9); TriedBlock(16381, 17); TriedBlock(16381, 25);
    TriedBlock(16381, 33); TriedBlock(16381, 41); TriedBlock(16381, 49); TriedBlock(16381, 57);
  }

  lemma NameSizeIsPrime()
    ensures Prime(NAME_HASH_PRIME)
  {
    hide Tried;
    NameSizeTried();
    TriedBlock(16381, 65); TriedBlock(16381, 73); TriedBlock(16381, 81); TriedBlock(16381, 89);
    TriedBlock(16381, 97); TriedBlock(16381, 105); TriedBlock(16381, 113); TriedBlock(16381, 121);
    TrialDivision(16381, 129);
  }

  lemma PackageSizeTried()
    ensures Tried(10007, 65)
  {
    hide Tried;
    TriedNone(10007);
    TriedBlock(10007, 1); TriedBlock(10007, 9); TriedBlock(10007, 17); TriedBlock(10007, 25);
    TriedBlock(10007, 33); TriedBlock(10007, 41); TriedBlock(10007, 49); TriedBlock(10007, 57);
  }

  lemma PackageSizeIsPrime()
    ensures Prime(PACKAGE_HASH_PRIME)
  {
    hide Tried;
    PackageSizeTried();
    TriedBlock(10007, 65); TriedBlock(10007, 73); TriedBlock(10007, 81); TriedBlock(10007, 89);
    TriedBlock(10007, 97);
    TrialDivision(10007, 105);
  }

  lemma StatusSizeTried()
    ensures Tried(8191, 65)
  {
    hide Tried;
    TriedNone(8191);
    TriedBlock(8191, 1); TriedBlock(8191, 9); TriedBlock(8191, 17); TriedBlock(8191, 25);
    TriedBlock(8191, 33); TriedBlock(8191, 41); TriedBlock(8191, 49); TriedBlock(8191, 57);
  }

  lemma StatusSizeIsPrime()
    ensures Prime(STATUS_HASH_PRIME)
  {
    hide Tried;
    StatusSizeTried();
    TriedBlock(8191, 65); TriedBlock(8191, 73); TriedBlock(8191, 81); TriedBlock(8191, 89);
    TrialDivision(8191, 97);
  }

  // ---- every slot is visited

  /** The size divides a multiple of the step. */
  ghost predicate Wraps(p: nat, d: nat, k: nat) { p > 0 && (k * d) % p == 0 }

  lemma LeastMultiple(p: nat, d: nat, k: nat) returns (m: nat)
    requires 0 < k && Wraps(p, d, k)
    ensures 1 <= m <= k && Wraps(p, d, m) && forall i :: 1 <= i < m ==> !Wraps(p, d, i)
  {
    hide Wraps;
    m := 1;
    while !Wraps(p, d, m)
      invariant 1 <= m <= k && forall i :: 1 <= i < m ==> !Wraps(p, d, i)
      decreases k - m
    {
      m := m + 1;
    }
  }

  lemma Remainder(p: nat, d: nat, m: nat)
    requires 0 < m && Wraps(p, d, m)
    ensures Wraps(p, d, p % m)
  {
    var q, r, c := p / m, p % m, (m * d) / p;
    assert m * d == p * c;
    assert p == m * q + r;
    assert r * d == p * d - q * (m * d);
    assert r * d == p * (d - q * c);
    NoRemainder(p, d - q * c, r * d);
  }

  lemma NotNegative(p: nat, c: int)
    requires 0 < p && 0 <= p * c
    ensures 0 <= c
  {
  }

  lemma NoRemainder(p: nat, c: int, x: nat)
    requires 0 < p && x == p * c
    ensures x % p == 0
  {
    NotNegative(p, c);
    MultipleHasNoRemainder(p, c);
  }

  lemma NotDivided(p: nat, m: nat)
    requires Prime(p) && 2 <= m < p
    ensures p % m > 0
  {
  }

  lemma StepAlone(p: nat, d: nat)
    requires 0 < d < p
    ensures !Wraps(p, d, 1)
  {
    assert 1 * d == d;
  }

  /** No smaller multiple of the step is a multiple of a prime size. */
  lemma StepIsFree(p: nat, d: nat, k: nat)
    requires Prime(p) && 0 < d < p && 0 < k < p
    ensures !Wraps(p, d, k)
  {
    hide Wraps, Prime;
    if Wraps(p, d, k) {
      var m := LeastMultiple(p, d, k);
      StepAlone(p, d);
      Remainder(p, d, m);
      NotDivided(p, m);
    }
  }

  /** The k-th address probed. */
  function Slot(start: nat, dec: nat, p: nat, k: nat): (a: nat)
    requires start < p && 0 < dec < p
    ensures a < p
    decreases k
  {
    if k == 0 then start
    else var a := Slot(start, dec, p, k - 1); if a < dec then a + p - dec else a - dec
  }

  lemma {:induction false} SlotTurns(start: nat, dec: nat, p: nat, k: nat) returns (q: nat)
    requires start < p && 0 < dec < p
    ensures Slot(start, dec, p, k) + k * dec == start + q * p
    decreases k
  {
    if k == 0 { q := 0; }
    else {
      q := SlotTurns(start, dec, p, k - 1);
      assert k * dec == (k - 1) * dec + dec;
      if Slot(start, dec, p, k - 1) < dec {
        assert (q + 1) * p == q * p + p;
        q := q + 1;
      }
    }
  }

  /** The address goes down by the step each time, modulo the size. */
  lemma SlotIs(start: nat, dec: nat, p: nat, k: nat)
    requires start < p && 0 < dec < p
    ensures Slot(start, dec, p, k) == (start - k * dec) % p
  {
    hide Slot;
    var q := SlotTurns(start, dec, p, k);
    var a, x := Slot(start, dec, p, k), start - k * dec;
    var d := x / p + q;
    assert x == x / p * p + x % p;
    assert d * p == x / p * p + q * p;
    assert a - x % p == d * p;
    MultipleBounds(d, p);
  }

  lemma MultipleBounds(d: int, p: nat)
    ensures (d >= 1 ==> d * p >= p) && (d <= -1 ==> d * p + p <= 0)
  {
  }

  lemma SlotsDiffer(start: nat, dec: nat, p: nat, i: nat, j: nat)
    requires Prime(p) && start < p && 0 < dec < p && i < j < p
    ensures Slot(start, dec, p, i) != Slot(start, dec, p, j)
  {
    hide Slot;
    var q := SlotTurns(start, dec, p, i);
    var r := SlotTurns(start, dec, p, j);
    StepIsFree(p, dec, j - i);
    if Slot(start, dec, p, i) == Slot(start, dec, p, j) {
      assert (j - i) * dec == j * dec - i * dec == r * p - q * p;
      assert (j - i) * dec == p * (r - q);
      NoRemainder(p, r - q, (j - i) * dec);
    }
  }

  /** The first `n` addresses. */
  ghost function Visited(start: nat, dec: nat, p: nat, n: nat): set<nat>
    requires start < p && 0 < dec < p
  {
    set k: nat | 0 <= k < n :: Slot(start, dec, p, k)
  }

  lemma {:induction false} VisitedCount(start: nat, dec: nat, p: nat, n: nat)
    requires Prime(p) && start < p && 0 < dec < p && n <= p
    ensures |Visited(start, dec, p, n)| == n
    decreases n
  {
    if n == 0 { assert Visited(start, dec, p, n) == {}; }
    else {
      VisitedCount(start, dec, p, n - 1);
      var a := Slot(start, dec, p, n - 1);
      forall k: nat | k < n - 1 ensures Slot(start, dec, p, k) != a { SlotsDiffer(start, dec, p, k, n - 1); }
      hide Slot;
      assert Visited(start, dec, p, n) == Visited(start, dec, p, n - 1) + {a};
    }
  }

  ghost function Below(p: nat): (r: set<nat>)
    ensures forall a: nat :: a in r <==> a < p
  {
    if p == 0 then {} else Below(p - 1) + {p - 1}
  }

  lemma {:induction false} BelowCount(p: nat)
    ensures |Below(p)| == p
  {
    if p > 0 {
      BelowCount(p - 1);
    }
  }

  lemma SameSize(a: set<nat>, b: set<nat>)
    requires a <= b && |a| == |b|
    ensures a == b
  {
    if x :| x in b && x !in a { assert a <= b - {x}; Smaller(a, b - {x}); }
  }

  lemma Smaller(a: set<nat>, b: set<nat>)
    requires a <= b
    ensures |a| <= |b|
    decreases a
  {
    if x :| x in a { Smaller(a - {x}, b - {x}); }
  }

  /** Every slot is probed within as many steps as there are slots. */
  lemma Covers(start: nat, dec: nat, p: nat, s: nat) returns (k: nat)
    requires Prime(p) && start < p && 0 < dec < p && s < p
    ensures k < p && Slot(start, dec, p, k) == s
  {
    VisitedCount(start, dec, p, p);
    BelowCount(p);
    hide Slot;
    SameSize(Visited(start, dec, p, p), Below(p));
    assert s in Visited(start, dec, p, p);
    k :| 0 <= k < p && Slot(start, dec, p, k) == s;
  }
}
