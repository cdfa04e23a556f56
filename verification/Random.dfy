/** The skip list's random number generator: multiplication by 16807 modulo 2^31 - 1, without a division. */
module RandomNumbers {
  const M: nat := 0x7fff_ffff
  const A: nat := 16807
  const PERIOD: nat := M - 1

  predicate Seed(s: nat) { 0 < s < M }

  class Random {
    var seed: nat

    constructor (s: nat)
      requires s < 0x1_0000_0000
      ensures Seed(seed) && seed == if Seed(s % 0x8000_0000) then s % 0x8000_0000 else 1
    {
      seed := s % 0x8000_0000;
      if s % 0x8000_0000 == 0 || s % 0x8000_0000 == M {
        seed := 1;
      }
    }

    /** Adds the high and the low 31 bits of the product instead of dividing it. */
    method Next() returns (r: nat)
      requires Seed(seed)
      modifies this
      ensures r == seed == Times(old(seed), A) && Seed(seed)
    {
      var product := seed * A;
      FoldedSum(seed);
      seed := product / 0x8000_0000 + product % 0x8000_0000;
      if seed > M {
        seed := seed - M;
      }
      r := seed;
    }
  }

  /** Multiplication modulo M. */
  function Times(a: nat, b: nat): (r: nat)
    ensures r < M
  {
    a * b % M
  }

  lemma Residue(x: int, q: int, r: int)
    requires x == q * M + r && 0 <= r < M
    ensures x % M == r
  {
  }

  lemma TimesAssociates(a: nat, b: nat, c: nat)
    ensures Times(Times(a, b), c) == Times(a, Times(b, c))
  {
    var p, q := a * b / M, b * c / M;
    var r := Times(Times(a, b), c);
    var k := Times(a, b) * c / M;
    assert a * b == p * M + Times(a, b) && b * c == q * M + Times(b, c);
    assert a * (b * c) == (a * b) * c;
    assert (p * M + Times(a, b)) * c == (p * c) * M + Times(a, b) * c;
    assert a * (q * M + Times(b, c)) == (a * q) * M + a * Times(b, c);
    Residue(a * Times(b, c), p * c + k - a * q, r);
  }

  /** 16807 has an inverse. */
  const INVERSE: nat := 1407677000

  lemma TimesInverse(s: nat)
    requires s < M
    ensures Times(Times(s, A), INVERSE) == s
  {
    TimesAssociates(s, A, INVERSE);
    assert Times(A, INVERSE) == 1;
  }

  lemma FoldedSum(s: nat)
    requires Seed(s)
    ensures var sum := s * A / 0x8000_0000 + s * A % 0x8000_0000;
      && sum != M && Seed(Times(s, A))
      && Times(s, A) == if sum > M then sum - M else sum
  {
    var hi, lo := s * A / 0x8000_0000, s * A % 0x8000_0000;
    TimesInverse(s);
    assert s * A == hi * M + (hi + lo);
    if hi + lo >= M {
      Residue(s * A, hi + 1, hi + lo - M);
    } else {
      Residue(s * A, hi, hi + lo);
    }
  }

  lemma NextIsInjective(s: nat, t: nat)
    requires Seed(s) && Seed(t) && Times(s, A) == Times(t, A)
    ensures s == t
  {
    TimesInverse(s);
    TimesInverse(t);
  }

  // Powers of 16807

  function Power(e: nat): (r: nat)
    ensures r < M
  {
    if e == 0 then 1 else Times(Power(e - 1), A)
  }

  lemma {:induction false} PowerAdds(a: nat, b: nat)
    ensures Power(a + b) == Times(Power(a), Power(b))
    decreases b
  {
    if b > 0 {
      PowerAdds(a, b - 1);
      TimesAssociates(Power(a), Power(b - 1), A);
    }
  }
}
