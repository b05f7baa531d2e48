/** The arithmetic of the linear hash table (rts/Hash.c): masks, hash functions, and what growing by
    one bucket does to them. */
module Masks {

  const INT_RANGE: nat := 0x1_0000_0000
  const HASH_PRIME: nat := 1048583

  // ---------------------------------------------------------------- bitwise and

  /** Bitwise and of unsigned numbers. */
  function And(a: nat, b: nat): nat {
    if a == 0 || b == 0 then 0 else 2 * And(a / 2, b / 2) + (if a % 2 == 1 && b % 2 == 1 then 1 else 0)
  }

  function Pow2(n: nat): (p: nat)
    ensures p >= 1
  {
    if n == 0 then 1 else 2 * Pow2(n - 1)
  }

  /** Masking with 2^n - 1 is taking the remainder by 2^n. */
  lemma {:induction false} MaskIsMod(a: nat, n: nat)
    ensures And(a, Pow2(n) - 1) == a % Pow2(n)
    decreases n
  {
    if n == 0 {
      assert Pow2(n) == 1;
    } else {
      var m := Pow2(n - 1);
      HalfMod(a, m);
      MaskIsMod(a / 2, n - 1);
      AndOfMask(a, m);
    }
  }

  lemma AndOfMask(a: nat, m: nat)
    requires m >= 1
    ensures And(a, 2 * m - 1) == 2 * And(a / 2, m - 1) + a % 2
  {
    assert (2 * m - 1) / 2 == m - 1 && (2 * m - 1) % 2 == 1;
  }

  lemma HalfMod(a: nat, m: nat)
    requires m >= 1
    ensures a % (2 * m) == 2 * (a / 2 % m) + a % 2
  {
    var q, r := a / 2 / m, a / 2 % m;
    assert a / 2 == q * m + r;
    assert a == (2 * m) * q + (2 * r + a % 2);
    ModIs(a, 2 * m, q, 2 * r + a % 2);
  }

  lemma ModIs(a: int, m: nat, q: int, r: nat)
    requires m >= 1 && a == m * q + r && r < m
    ensures a % m == r
  {
    var d := a / m - q;
    assert a == m * (a / m) + a % m;
    assert m * (a / m) == m * q + m * d;
    assert d >= 1 ==> m * d >= m;
    assert d <= -1 ==> m * d <= 0 - m;
  }

  /** The remainder by twice a number is that by the number, or that plus the number. */
  lemma ModDouble(h: int, m: nat)
    requires m >= 1
    ensures h % (2 * m) == h % m || h % (2 * m) == h % m + m
  {
    var q, r := h / m, h % m;
    var k, odd := q / 2, q % 2;
    Halves(m, q);
    if odd == 0 {
      ModIs(h, 2 * m, k, r);
    } else {
      ModIs(h, 2 * m, k, r + m);
    }
  }

  lemma Halves(m: nat, q: int)
    ensures m * q == (2 * m) * (q / 2) + m * (q % 2)
  {
    var k, odd := q / 2, q % 2;
    assert q == 2 * k + odd;
    assert m * q == m * (2 * k + odd) == m * (2 * k) + m * odd;
    assert m * (2 * k) == (2 * m) * k;
  }

  // ---------------------------------------------------------------- keys

  /** A key is a machine word, or the address of a string of signed characters. */
  datatype Key = Word(w: nat) | Str(chars: seq<int>, at: nat)

  /** The remainder in C has the sign of the dividend. */
  function CMod(a: int, m: nat): (r: int)
    requires m >= 1
    ensures -(m as int) < r < m
  {
    if a >= 0 then a % m else -((-a) % m)
  }

  predicate Chars(s: seq<int>) {
    forall i :: 0 <= i < |s| ==> -128 <= s[i] <= 127
  }

  /** The loop of hashStr(), run over the characters before the terminating zero. */
  function StrHash(s: seq<int>): (h: int)
    requires Chars(s)
    ensures -(HASH_PRIME as int) < h < HASH_PRIME
  {
    if s == [] then 0 else CMod(StrHash(s[..|s| - 1]) * 128 + s[|s| - 1], HASH_PRIME)
  }

  /** The characters as digits of a number to base 128, the first one most significant. */
  function Base128(s: seq<int>): int {
    if s == [] then 0 else s[0] * Pow128(|s| - 1) + Base128(s[1..])
  }

  function Pow128(n: nat): nat {
    if n == 0 then 1 else 128 * Pow128(n - 1)
  }

  lemma {:induction false} Base128OneMore(s: seq<int>, c: int)
    ensures Base128(s + [c]) == Base128(s) * 128 + c
  {
    if s == [] {
      assert [c] == [] + [c] && [c][1..] == [];
    } else {
      Base128OneMore(s[1..], c);
      assert (s + [c])[1..] == s[1..] + [c];
      var x, p := s[0], Pow128(|s| - 1);
      assert Pow128(|s|) == 128 * p;
      assert x * (128 * p) == (x * p) * 128;
    }
  }

  /** Two numbers with the same remainder by m. */
  ghost predicate Congruent(a: int, b: int, m: nat) {
    exists k: int :: a == b + m * k
  }

  lemma CModCongruent(a: int, m: nat)
    requires m >= 1
    ensures Congruent(CMod(a, m), a, m)
  {
    if a >= 0 {
      assert CMod(a, m) == a + m * -(a / m);
    } else {
      assert CMod(a, m) == a + m * ((-a) / m);
    }
  }

  /** The hash of a string is the number to base 128 that its characters make up, reduced by the prime. */
  lemma {:induction false} HashIsBase128(s: seq<int>)
    requires Chars(s)
    ensures Congruent(StrHash(s), Base128(s), HASH_PRIME)
  {
    if s == [] {
      assert 0 == 0 + HASH_PRIME * 0;
    } else {
      var t, c := s[..|s| - 1], s[|s| - 1];
      assert s == t + [c];
      HashIsBase128(t);
      Base128OneMore(t, c);
      var k: int :| StrHash(t) == Base128(t) + HASH_PRIME * k;
      CModCongruent(StrHash(t) * 128 + c, HASH_PRIME);
      var j: int :| StrHash(s) == StrHash(t) * 128 + c + HASH_PRIME * j;
      assert StrHash(s) == Base128(s) + HASH_PRIME * (128 * k + j);
    }
  }

  predicate KeyOk(k: Key) {
    k.Str? ==> Chars(k.chars)
  }

  /** The hash before it is reduced to a bucket number. */
  function Raw(k: Key): int
    requires KeyOk(k)
  {
    match k
    case Word(w) => w / 8
    case Str(s, _) => StrHash(s)
  }

  /** compareWord() and compareStr() */
  predicate Same(a: Key, b: Key) {
    match (a, b)
    case (Word(v), Word(w)) => v == w
    case (Str(s, _), Str(t, _)) => s == t
    case _ => false
  }

  /** Equal words, and strings with the same characters wherever they are, compare equal, and nothing else
      does; and then the hashes are equal. */
  lemma SameHash(a: Key, b: Key)
    requires KeyOk(a) && KeyOk(b)
    ensures Same(a, b) <==> a == b || (a.Str? && b.Str? && a.chars == b.chars)
    ensures Same(a, b) ==> Raw(a) == Raw(b)
  {
  }

  /** The bucket of a raw hash in a table with `max` old buckets of which `split` are split. */
  function Bucket(h: int, max: nat, split: nat): (b: nat)
    requires max >= 1
    ensures b < 2 * max
  {
    var b := h % max;
    if b < split then h % (2 * max) else b
  }

  lemma BucketInRange(h: int, max: nat, split: nat)
    requires max >= 1 && split < max
    ensures Bucket(h, max, split) < max + split
  {
    ModDouble(h, max);
  }

  /** Growing by one bucket: only keys of bucket `split` move, and only to the new bucket; that is so
      too when the last old bucket was split and `max` doubles. */
  lemma GrowthMovesOneBucket(h: int, max: nat, split: nat)
    requires max >= 1 && split < max
    ensures var b := Bucket(h, max, split);
      var b' := if split + 1 == max then Bucket(h, 2 * max, 0) else Bucket(h, max, split + 1);
      if b == split then b' == split || b' == max + split else b' == b && b' != max + split
  {
    ModDouble(h, max);
    BucketInRange(h, max, split);
  }

  /** A 32-bit int as the machine masks it. */
  function Bits(h: int): nat
    requires -(INT_RANGE as int) <= h < INT_RANGE
  {
    if h < 0 then h + INT_RANGE else h
  }

  lemma {:induction false} Pow2Adds(a: nat, b: nat)
    ensures Pow2(a) * Pow2(b) == Pow2(a + b)
  {
    if a > 0 {
      Pow2Adds(a - 1, b);
      assert Pow2(a) * Pow2(b) == 2 * (Pow2(a - 1) * Pow2(b));
    }
  }

  lemma Pow2Of32()
    ensures Pow2(32) == INT_RANGE
  {
    assert Pow2(8) == 256;
    Pow2Adds(8, 8);
    Pow2Adds(16, 16);
  }

  /** Masking a negative hash also gives its remainder, because the mask is a power of two less one:
      the bucket number of a string is never negative. */
  lemma MaskedHash(h: int, n: nat)
    requires -(INT_RANGE as int) <= h < INT_RANGE && n <= 32
    ensures And(Bits(h), Pow2(n) - 1) == h % Pow2(n)
  {
    hide And, Pow2;
    MaskIsMod(Bits(h), n);
    if h < 0 {
      Pow2Of32();
      Pow2Adds(n, 32 - n);
      ModPlusMultiple(h, Pow2(n), Pow2(32 - n));
    }
  }

  lemma ModPlusMultiple(h: int, m: nat, t: nat)
    requires m >= 1
    ensures (h + m * t) % m == h % m
  {
    var q, r := h / m, h % m;
    assert m * (q + t) == m * q + m * t;
    ModIs(h + m * t, m, q + t, r);
  }
}
