/** The 32-bit string hash of two utilities of the API, over UTF-16 code units. */
module StringHash {

  type CodeUnit = n: nat | n < 0x1_0000

  const TWO_32 := 0x1_0000_0000
  const TWO_53 := 0x20_0000_0000_0000

  /** The string read as a number in base 31. */
  function Poly(s: seq<CodeUnit>): nat {
    if s == [] then 0 else Poly(s[..|s| - 1]) * 31 + s[|s| - 1]
  }

  function Pow31(n: nat): nat { if n == 0 then 1 else 31 * Pow31(n - 1) }

  function Hash(s: seq<CodeUnit>): nat { Poly(s) % TWO_32 }

  /** hash32: every sum is below 2^53, so double arithmetic is exact, and `>>> 0` keeps it modulo 2^32. */
  method Hash32(s: seq<CodeUnit>) returns (h: nat)
    ensures h == Hash(s) && h < TWO_32
  {
    h := 0;
    assert s[..0] == [];
    for i := 0 to |s|
      invariant h == Poly(s[..i]) % TWO_32
    {
      var sum := h * 31 + s[i];
      assert sum < TWO_53;
      assert s[..i + 1][..i] == s[..i];
      ModOfLinear(Poly(s[..i]), 31, s[i]);
      h := sum % TWO_32;
    }
    assert s[..|s|] == s;
  }

  /** Reducing a factor modulo 2^32 before multiplying and adding does not change the result modulo 2^32. */
  lemma ModOfLinear(x: nat, p: nat, c: nat)
    ensures ((x % TWO_32) * p + c) % TWO_32 == (x * p + c) % TWO_32
  {
    var q, r := x / TWO_32, x % TWO_32;
    assert x * p + c == (r * p + c) + (q * p) * TWO_32 by {
      assert x == q * TWO_32 + r;
      assert x * p == (q * TWO_32) * p + r * p;
    }
    AddMultiple(r * p + c, q * p);
  }

  lemma ModOfParts(x: nat, p: nat, y: nat)
    ensures ((x % TWO_32) * p + y % TWO_32) % TWO_32 == (x * p + y) % TWO_32
  {
    ModOfLinear(x, p, y % TWO_32);
    ModOfLinear(y, 1, x * p);
  }

  lemma {:induction false} AddMultiple(a: nat, k: nat)
    ensures (a + k * TWO_32) % TWO_32 == a % TWO_32
  {
    if k > 0 {
      AddMultiple(a, k - 1);
      assert a + k * TWO_32 == (a + (k - 1) * TWO_32) + TWO_32;
    }
  }

  lemma {:induction false} PolyOfConcat(a: seq<CodeUnit>, b: seq<CodeUnit>)
    ensures Poly(a + b) == Poly(a) * Pow31(|b|) + Poly(b)
  {
    if b == [] {
      assert a + b == a;
    } else {
      var m, n := |b| - 1, |a + b| - 1;
      assert (a + b)[..n] == a + b[..m] && (a + b)[n] == b[m];
      PolyOfConcat(a, b[..m]);
      assert (Poly(a) * Pow31(m)) * 31 == Poly(a) * (31 * Pow31(m));
    }
  }

  /** The hash of a concatenation follows from the hashes of its parts and the length of the second. */
  lemma HashOfConcat(a: seq<CodeUnit>, b: seq<CodeUnit>)
    ensures Hash(a + b) == (Hash(a) * Pow31(|b|) + Hash(b)) % TWO_32
  {
    PolyOfConcat(a, b);
    ModOfParts(Poly(a), Pow31(|b|), Poly(b));
  }

  /** pickIndex: the place in a phrase bank of `modulo` entries. */
  function PickIndex(seed: nat, modulo: nat, step: nat): (r: nat)
    requires modulo > 0
    ensures r < modulo
  {
    (seed + step * 17) % modulo
  }

  /** The first pick is the seed's own place, and each further step moves 17 places on, around the bank. */
  lemma PickStepsOn(seed: nat, modulo: nat, step: nat)
    requires modulo > 0
    ensures PickIndex(seed, modulo, 0) == seed % modulo
    ensures PickIndex(seed, modulo, step + 1) == (PickIndex(seed, modulo, step) + 17) % modulo
  {
    var x := seed + step * 17;
    assert seed + (step + 1) * 17 == x + 17;
    WrapOnce(x, modulo);
  }

  lemma WrapOnce(x: nat, m: nat)
    requires m > 0
    ensures (x % m + 17) % m == (x + 17) % m
  {
    AddMultipleOf(x % m + 17, x / m, m);
  }

  lemma {:induction false} AddMultipleOf(a: nat, k: nat, m: nat)
    requires m > 0
    ensures (a + k * m) % m == a % m
  {
    if k > 0 {
      AddMultipleOf(a, k - 1, m);
      assert a + k * m == (a + (k - 1) * m) + m;
      AddModulus(a + (k - 1) * m, m);
    }
  }

  lemma AddModulus(a: nat, m: nat)
    requires m > 0
    ensures (a + m) % m == a % m
  {
    var q, r := a / m, a % m;
    assert a + m == (q + 1) * m + r;
    UniqueRemainder(a + m, m, q + 1, r);
  }

  lemma MulAtLeast(d: int, m: nat)
    ensures d >= 1 ==> d * m >= m
    ensures d <= -1 ==> d * m + m <= 0
  {
    if d >= 1 {
      assert (d - 1) * m >= 0;
      assert d * m == (d - 1) * m + m;
    } else if d <= -1 {
      assert (-d - 1) * m >= 0;
      assert d * m == -((-d - 1) * m) - m;
    }
  }

  lemma UniqueRemainder(a: nat, m: nat, q: nat, r: nat)
    requires m > 0 && a == q * m + r && r < m
    ensures a % m == r
  {
    var d := q - a / m;
    assert a == (a / m) * m + a % m;
    assert d * m == q * m - (a / m) * m;
    MulAtLeast(d, m);
    assert d == 0;
  }
}
