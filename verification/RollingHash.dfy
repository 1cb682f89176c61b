/**
 The request fingerprint of the idempotency package: a loop over UTF-16 code units in signed 32-bit arithmetic.
 It is proved to be a polynomial in 31 modulo 2^32, and what that polynomial tells apart follows.
 */
module RollingHash {

  type CodeUnit = c: nat | c < 65536

  const WORD := 0x1_0000_0000
  const HALF := 0x8000_0000

  /** `x | 0`: the signed 32-bit integer congruent to x. */
  function ToInt32(x: int): (r: int)
    ensures -HALF <= r < HALF && (x - r) % WORD == 0
  {
    if x % WORD >= HALF then x % WORD - WORD else x % WORD
  }

  /** `Math.imul`. */
  function Imul(a: int, b: int): int { ToInt32(a * b) }

  function Power(n: nat): nat {
    if n == 0 then 1 else 31 * Power(n - 1)
  }

  /** The sum of s[i] * 31^(n - 1 - i), over unbounded integers. */
  function Polynomial(s: seq<CodeUnit>): nat {
    if s == [] then 0 else s[0] * Power(|s| - 1) + Polynomial(s[1..])
  }

  function HashOf(s: seq<CodeUnit>): nat { Polynomial(s) % WORD }

  // ------------------------------------------------------------ residues

  predicate Congruent(a: int, b: int) { (a - b) % WORD == 0 }

  lemma SameResidue(a: int, b: int)
    ensures Congruent(a, b) <==> a % WORD == b % WORD
  {}

  lemma Multiple(k: int)
    ensures (WORD * k) % WORD == 0
  {}

  lemma CongruentMul(a: int, b: int, c: int)
    requires Congruent(a, b)
    ensures Congruent(a * c, b * c)
  {
    var k := (a - b) / WORD;
    assert a - b == WORD * k;
    calc {
      a * c - b * c;
      (a - b) * c;
      WORD * k * c;
      WORD * (k * c);
    }
    Multiple(k * c);
  }

  lemma CongruentSum(a: int, b: int, c: int, d: int)
    requires Congruent(a, b) && Congruent(c, d)
    ensures Congruent(a + c, b + d)
  {}

  /** 31 has an inverse modulo 2^32, so multiplying by it loses nothing. */
  lemma ThirtyOneCancels(a: int, b: int)
    requires Congruent(31 * a, 31 * b)
    ensures Congruent(a, b)
  {
    var inverse := 3186588639;
    CongruentMul(31 * a, 31 * b, inverse);
    assert 31 * inverse == 1 + WORD * 23;
  }

  lemma {:induction false} PowerCancels(a: int, b: int, n: nat)
    requires Congruent(a * Power(n), b * Power(n))
    ensures Congruent(a, b)
    decreases n
  {
    if n > 0 {
      var p := Power(n - 1);
      assert a * (31 * p) == 31 * (a * p) && b * (31 * p) == 31 * (b * p);
      ThirtyOneCancels(a * p, b * p);
      PowerCancels(a, b, n - 1);
    }
  }

  // ----------------------------------------------------- the polynomial

  lemma {:induction false} PowerAdds(m: nat, n: nat)
    ensures Power(m + n) == Power(m) * Power(n)
    decreases m
  {
    if m > 0 {
      PowerAdds(m - 1, n);
      assert 31 * (Power(m - 1) * Power(n)) == 31 * Power(m - 1) * Power(n);
    }
  }

  lemma Distribute(c: int, m: int, n: int, r: int)
    ensures (c * m + r) * n == c * (m * n) + r * n
  {
    assert c * (m * n) == c * m * n;
  }

  lemma {:induction false} PolynomialConcat(a: seq<CodeUnit>, b: seq<CodeUnit>)
    ensures Polynomial(a + b) == Polynomial(a) * Power(|b|) + Polynomial(b)
    decreases |a|
  {
    if a == [] {
      assert a + b == b;
    } else {
      assert (a + b)[1..] == a[1..] + b;
      PolynomialConcat(a[1..], b);
      PowerAdds(|a| - 1, |b|);
      Distribute(a[0], Power(|a| - 1), Power(|b|), Polynomial(a[1..]));
    }
  }

  lemma Horner(s: seq<CodeUnit>, c: CodeUnit)
    ensures Polynomial(s + [c]) == 31 * Polynomial(s) + c
  {
    PolynomialConcat(s, [c]);
    assert Power(0) == 1 && Power(1) == 31 * Power(0);
    assert Polynomial([c]) == c * Power(0) + Polynomial([]);
  }

  lemma StepIsCongruent(h: int, p: int, c: int)
    requires Congruent(h, p)
    ensures Congruent(ToInt32(Imul(31, h) + c), 31 * p + c)
  {
    CongruentMul(h, p, 31);
    assert Congruent(Imul(31, h), 31 * h) by { ToInt32IsCongruent(31 * h); }
    Chain(Imul(31, h), 31 * h, 31 * p);
    CongruentSum(Imul(31, h), 31 * p, c, c);
    ToInt32IsCongruent(Imul(31, h) + c);
    Chain(ToInt32(Imul(31, h) + c), Imul(31, h) + c, 31 * p + c);
  }

  lemma ToInt32IsCongruent(x: int)
    ensures Congruent(ToInt32(x), x)
  {}

  lemma Chain(a: int, b: int, c: int)
    requires Congruent(a, b) && Congruent(b, c)
    ensures Congruent(a, c)
  {}

  /** The loop of canonicalHash, up to the unsigned result. */
  method Hash(input: seq<CodeUnit>) returns (unsigned: nat)
    ensures unsigned == HashOf(input)
  {
    var h := 0;
    for i := 0 to |input|
      invariant -HALF <= h < HALF
      invariant Congruent(h, Polynomial(input[..i]))
    {
      Horner(input[..i], input[i]);
      assert input[..i + 1] == input[..i] + [input[i]];
      StepIsCongruent(h, Polynomial(input[..i]), input[i]);
      h := ToInt32(Imul(31, h) + input[i]);
    }
    assert input[..|input|] == input;
    SameResidue(h, Polynomial(input));
    unsigned := h % WORD;
  }

  // ------------------------------------------------ what the hash tells apart

  /** The hash of a concatenation comes from the hashes of its parts and the length of the second. */
  lemma HashConcat(a: seq<CodeUnit>, b: seq<CodeUnit>)
    ensures HashOf(a + b) == (HashOf(a) * Power(|b|) + HashOf(b)) % WORD
  {
    PolynomialConcat(a, b);
    ResiduesCombine(Polynomial(a), Power(|b|), Polynomial(b));
  }

  lemma ResiduesCombine(p: int, w: int, q: int)
    ensures (p * w + q) % WORD == ((p % WORD) * w + q % WORD) % WORD
  {
    var r := p % WORD;
    CongruentMul(p, r, w);
    CongruentSum(p * w, r * w, q, q % WORD);
    SameResidue(p * w + q, r * w + q % WORD);
  }

  /** A common end changes nothing: the texts collide exactly when what precedes the end does. */
  lemma EndCancels(a: seq<CodeUnit>, b: seq<CodeUnit>, end: seq<CodeUnit>)
    ensures HashOf(a + end) == HashOf(b + end) <==> HashOf(a) == HashOf(b)
  {
    var p, q, w := Polynomial(a), Polynomial(b), Power(|end|);
    PolynomialConcat(a, end);
    PolynomialConcat(b, end);
    SameResidue(p, q);
    SameResidue(p * w + Polynomial(end), q * w + Polynomial(end));
    if HashOf(a) == HashOf(b) {
      CongruentMul(p, q, w);
    } else if Congruent(p * w, q * w) {
      PowerCancels(p, q, |end|);
      assert false;
    }
  }

  lemma StartCancels(start: seq<CodeUnit>, a: seq<CodeUnit>, b: seq<CodeUnit>)
    requires |a| == |b|
    ensures HashOf(start + a) == HashOf(start + b) <==> HashOf(a) == HashOf(b)
  {
    var p, w := Polynomial(start), Power(|a|);
    PolynomialConcat(start, a);
    PolynomialConcat(start, b);
    SameResidue(Polynomial(a), Polynomial(b));
    SameResidue(p * w + Polynomial(a), p * w + Polynomial(b));
  }

  /** Replacing one code unit always changes the hash. */
  lemma OneChangeIsSeen(start: seq<CodeUnit>, c: CodeUnit, d: CodeUnit, end: seq<CodeUnit>)
    ensures HashOf(start + [c] + end) == HashOf(start + [d] + end) <==> c == d
  {
    EndCancels(start + [c], start + [d], end);
    StartCancels(start, [c], [d]);
    assert Power(0) == 1;
    assert Polynomial([c]) == c * Power(0) + Polynomial([]) && Polynomial([d]) == d * Power(0) + Polynomial([]);
  }

  lemma PairValue(c: CodeUnit, d: CodeUnit)
    ensures Polynomial([c, d]) == 31 * c + d
  {
    Horner([c], d);
    Horner([], c);
    assert [c] + [d] == [c, d] && [] + [c] == [c];
  }

  /** Two neighbouring changes are missed exactly when they balance, as "Aa" and "BB" do. */
  lemma TwoChangesAreMissedIff(start: seq<CodeUnit>, c: CodeUnit, d: CodeUnit, e: CodeUnit, f: CodeUnit,
                               end: seq<CodeUnit>)
    ensures HashOf(start + [c, d] + end) == HashOf(start + [e, f] + end) <==> 31 * (c - e) == f - d
    ensures HashOf(start + [65, 97] + end) == HashOf(start + [66, 66] + end)
  {
    EndCancels(start + [c, d], start + [e, f], end);
    StartCancels(start, [c, d], [e, f]);
    PairValue(c, d);
    PairValue(e, f);
    EndCancels(start + [65, 97], start + [66, 66], end);
    StartCancels(start, [65, 97], [66, 66]);
    PairValue(65, 97);
    PairValue(66, 66);
  }
}
