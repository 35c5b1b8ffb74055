/** Division facts the solver does not find by itself, and what repetition means to a multiset. */
module Arithmetic {

  const U32 := 0x1_0000_0000

  function Pow64(d: nat): (p: nat)
    ensures p >= 1
  {
    if d == 0 then 1 else 64 * Pow64(d - 1)
  }

  /** A value that occurs twice counts twice. */
  lemma CountsTwice<T>(s: seq<T>, i: nat, j: nat)
    requires i < j < |s|
    ensures s[i] == s[j] ==> multiset(s)[s[i]] >= 2
  {
    var front, back := s[..j], s[j..];
    assert s == front + back && s[i] == front[i] && s[j] == back[0];
    assert s[i] in multiset(front) && s[j] in multiset(back);
    assert multiset(s)[s[i]] == multiset(front)[s[i]] + multiset(back)[s[i]];
  }

  /** In a list without repetition every value counts once at most. */
  lemma {:induction false} CountsOnce<T>(s: seq<T>, x: T)
    requires forall i, j :: 0 <= i < j < |s| ==> s[i] != s[j]
    ensures multiset(s)[x] <= 1
    decreases |s|
  {
    if s != [] {
      var r, y := s[..|s| - 1], s[|s| - 1];
      assert s == r + [y];
      CountsOnce(r, x);
      assert y !in r;
      assert multiset(s) == multiset(r) + multiset{y};
    }
  }

  lemma MulMono(a: int, b: int, p: nat)
    ensures a <= b ==> a * p <= b * p
  {
  }

  lemma DivModUnique(a: nat, p: nat, q: nat, r: nat)
    requires p > 0 && a == q * p + r && r < p
    ensures a / p == q && a % p == r
  {
    var d := a / p - q;
    assert a == a / p * p + a % p;
    assert d * p == r - a % p;
    MulMono(1, d, p);
    MulMono(d, -1, p);
  }

  lemma DivMod(a: nat, p: nat) returns (q: nat, r: nat)
    requires p > 0
    ensures q == a / p && r == a % p && a == q * p + r && r < p
  {
    q, r := a / p, a % p;
  }

  lemma QuotientFits(a: nat, p: nat)
    requires p > 0
    ensures a / p * p <= a < (a / p + 1) * p
  {
    var q, r := DivMod(a, p);
  }

  lemma MultipleOf(q: nat, p: nat)
    requires p > 0
    ensures q * p % p == 0
  {
    DivModUnique(q * p, p, q, 0);
  }

  predicate IsPow2(n: nat) {
    n == 1 || (n > 0 && n % 2 == 0 && IsPow2(n / 2))
  }

  /** `x & ~m`. */
  function AndNot(x: nat, m: nat): (r: nat)
    ensures r <= x <= r + m
  {
    if x == 0 then 0 else 2 * AndNot(x / 2, m / 2) + if x % 2 == 1 && m % 2 == 0 then 1 else 0
  }

  lemma {:induction false} MaskNothing(x: nat)
    ensures AndNot(x, 0) == x
  {
    if x != 0 {
      MaskNothing(x / 2);
    }
  }

  lemma HalfOfQuotient(x: nat, a: nat)
    requires a > 0
    ensures 2 * (x / 2 / a * a) == x / (2 * a) * (2 * a)
  {
    var q, r := DivMod(x / 2, a);
    assert x == 2 * (q * a + r) + x % 2;
    assert q * (2 * a) == 2 * (q * a);
    DivModUnique(x, 2 * a, q, 2 * r + x % 2);
  }

  /** Masking with one less than a power of two rounds down to a multiple of it. */
  lemma {:induction false} MaskRounds(x: nat, a: nat)
    requires IsPow2(a)
    ensures AndNot(x, a - 1) == x / a * a
    decreases a
  {
    if a == 1 {
      MaskNothing(x);
    } else {
      MaskRounds(x / 2, a / 2);
      HalfOfQuotient(x, a / 2);
    }
  }

  lemma MulParts(q: int, b: int, r: int, c: int)
    ensures (q * b + r) * c == q * (b * c) + r * c
  {
  }

  lemma DivTwice(a: nat, p: nat, q: nat)
    requires p > 0 && q > 0
    ensures p * q > 0 && a / (p * q) == a / p / q
  {
    var b, r := DivMod(a, p);
    var c, s := DivMod(b, q);
    MulMono(s, q - 1, p);
    assert a == c * (p * q) + (p * s + r) by {
      assert c * (p * q) == p * (c * q);
    }
    assert p * s + r < p * q by {
      assert p * (q - 1) + p == p * q;
    }
    DivModUnique(a, p * q, c, p * s + r);
  }

  lemma DivLess(a: nat, p: nat, q: nat)
    requires 0 < p <= q
    ensures a / q <= a / p
  {
    var x, r := DivMod(a, q);
    var y, s := DivMod(a, p);
    MulMono(p, q, x);
    MulMono(y + 1, x, p);
  }

  lemma DivMono(a: nat, b: nat, p: nat)
    requires a <= b && p > 0
    ensures a / p <= b / p
  {
    var d := a / p - b / p;
    assert d * p == a - a % p - (b - b % p);
    MulMono(1, d, p);
  }
}
