/** The cache key of a post (`generateCacheKey`, background.js:756-766): a
    32-bit polynomial hash of the lower-cased, trimmed text, written in
    decimal after `post_`. */
module CacheKeys {
  import opened Text

  const TWO_32: int := 0x1_0000_0000
  const TWO_31: int := 0x8000_0000

  /** `ToInt32`: the signed 32-bit integer congruent to `x` modulo 2^32. */
  function Wrap32(x: int): (r: int)
    ensures -TWO_31 <= r < TWO_31
    ensures (x - r) % TWO_32 == 0
  {
    (x + TWO_31) % TWO_32 - TWO_31
  }

  /** One iteration: `hash = ((hash << 5) - hash) + char; hash = hash & hash`.
      The shift wraps to 32 bits; the sum is exact in a double; `&` wraps
      again. */
  function HashStep(hash: int, unit: int): int {
    Wrap32(Wrap32(hash * 32) - hash + unit)
  }

  /** The hash after all code units, folding from the first one. */
  function HashOf(units: seq<int>): int {
    if units == [] then 0 else HashStep(HashOf(units[..|units| - 1]), units[|units| - 1])
  }

  /** The polynomial `units[0] * 31^(n-1) + ... + units[n-1]`, unbounded. */
  function Poly(units: seq<int>): int {
    if units == [] then 0 else 31 * Poly(units[..|units| - 1]) + units[|units| - 1]
  }

  /** The digits of a natural number, most significant first. */
  function Digits(n: nat): (s: string)
    ensures s != []
    ensures forall i :: 0 <= i < |s| ==> '0' <= s[i] <= '9'
  {
    if n < 10 then [('0' as int + n) as char]
    else Digits(n / 10) + [('0' as int + n % 10) as char]
  }

  /** `String(hash)` for an integer. */
  function Decimal(n: int): string {
    if n < 0 then "-" + Digits(-n) else Digits(n)
  }

  function ParseDigits(s: string): int {
    if s == [] then 0 else 10 * ParseDigits(s[..|s| - 1]) + (s[|s| - 1] as int - '0' as int)
  }

  function ParseDecimal(s: string): int {
    if s != [] && s[0] == '-' then -ParseDigits(s[1..]) else ParseDigits(s)
  }

  /** The text the hash reads: `text.toLowerCase().trim()`, as UTF-16 code
      units (`charCodeAt`). */
  function KeyUnits(text: string): seq<int> {
    Utf16(Trim(Lower(text)))
  }

  /** `generateCacheKey(text)`. */
  function CacheKey(text: string): string {
    "post_" + Decimal(HashOf(KeyUnits(text)))
  }

  /** `generateCacheKey`: the loop of background.js:760-764. */
  method GenerateCacheKey(text: string) returns (key: string)
    ensures key == CacheKey(text)
  {
    var normalized := KeyUnits(text);
    var hash := 0;
    var i := 0;
    while i < |normalized|
      invariant 0 <= i <= |normalized|
      invariant hash == HashOf(normalized[..i])
    {
      var unit := normalized[i];
      hash := Wrap32(Wrap32(hash * 32) - hash + unit);
      HashOfLonger(normalized, i);
      i := i + 1;
    }
    assert normalized[..i] == normalized;
    key := "post_" + Decimal(hash);
  }

  /** One more code unit is one more step of the fold. */
  lemma HashOfLonger(units: seq<int>, i: nat)
    requires i < |units|
    ensures HashOf(units[..i + 1]) == HashStep(HashOf(units[..i]), units[i])
  {
    assert units[..i + 1][..i] == units[..i];
  }

  lemma WrapShift(x: int, k: int)
    ensures Wrap32(x + TWO_32 * k) == Wrap32(x)
  {
    assert (x + TWO_32 * k + TWO_31) % TWO_32 == (x + TWO_31) % TWO_32;
  }

  /** Numbers already in the int32 range are left alone. */
  lemma WrapSmall(x: int)
    requires -TWO_31 <= x < TWO_31
    ensures Wrap32(x) == x
  {
    var y := x + TWO_31;
    assert 0 <= y < TWO_32;
    assert y % TWO_32 == y;
  }

  lemma WrapCongruent(x: int, y: int)
    requires (x - y) % TWO_32 == 0
    ensures Wrap32(x) == Wrap32(y)
  {
    var k := (x - y) / TWO_32;
    assert x == y + TWO_32 * k;
    WrapShift(y, k);
  }

  /** `hash & hash` and `<< 5` make one step exactly `31 * hash + unit`
      reduced to a signed 32-bit integer. */
  lemma HashStepIsPolynomialStep(hash: int, unit: int)
    ensures HashStep(hash, unit) == Wrap32(31 * hash + unit)
  {
    var w := Wrap32(hash * 32);
    assert ((w - hash + unit) - (31 * hash + unit)) % TWO_32 == 0 by {
      assert (w - hash + unit) - (31 * hash + unit) == w - hash * 32;
      assert (hash * 32 - w) % TWO_32 == 0;
    }
    WrapCongruent(w - hash + unit, 31 * hash + unit);
  }

  /** Multiplying by 31 and adding the same unit keeps two numbers
      congruent modulo 2^32. */
  lemma StepCongruent(p: int, w: int, last: int)
    requires (p - w) % TWO_32 == 0
    ensures Wrap32(31 * w + last) == Wrap32(31 * p + last)
  {
    var k := (p - w) / TWO_32;
    assert p == w + TWO_32 * k;
    assert 31 * w + last == (31 * p + last) + TWO_32 * (-31 * k);
    WrapShift(31 * p + last, -31 * k);
  }

  /** The hash is the polynomial of the code units in base 31, reduced to a
      signed 32-bit integer; in particular it lies in the int32 range. */
  lemma {:induction false} HashIsPolynomial(units: seq<int>)
    ensures HashOf(units) == Wrap32(Poly(units))
    ensures -TWO_31 <= HashOf(units) < TWO_31
  {
    if units != [] {
      var prefix, last := units[..|units| - 1], units[|units| - 1];
      HashIsPolynomial(prefix);
      HashStepIsPolynomialStep(HashOf(prefix), last);
      StepCongruent(Poly(prefix), Wrap32(Poly(prefix)), last);
    }
  }

  lemma {:induction false} DigitsRoundTrip(n: nat)
    ensures ParseDigits(Digits(n)) == n
  {
    if n >= 10 {
      DigitsRoundTrip(n / 10);
      var s := Digits(n);
      assert s[..|s| - 1] == Digits(n / 10);
    }
  }

  /** Reading the decimal form back gives the number: different hashes give
      different keys. */
  lemma DecimalRoundTrip(n: int)
    ensures ParseDecimal(Decimal(n)) == n
  {
    if n < 0 {
      DigitsRoundTrip(-n);
      assert ("-" + Digits(-n))[1..] == Digits(-n);
    } else {
      DigitsRoundTrip(n);
      assert Digits(n)[0] != '-';
    }
  }

  /** Two texts share a key exactly when their hashes agree. */
  lemma SameKeySameHash(a: string, b: string)
    ensures CacheKey(a) == CacheKey(b) <==> HashOf(KeyUnits(a)) == HashOf(KeyUnits(b))
  {
    if CacheKey(a) == CacheKey(b) {
      var da, db := Decimal(HashOf(KeyUnits(a))), Decimal(HashOf(KeyUnits(b)));
      assert da == CacheKey(a)[5..] && db == CacheKey(b)[5..];
      DecimalRoundTrip(HashOf(KeyUnits(a)));
      DecimalRoundTrip(HashOf(KeyUnits(b)));
    }
  }

  lemma LowerTwice(s: string)
    ensures Lower(Lower(s)) == Lower(s)
  {
  }

  lemma {:induction false} LowerTrimStart(s: string)
    ensures Lower(TrimStart(s)) == TrimStart(Lower(s))
  {
    if s != [] && IsSpace(s[0]) {
      LowerTrimStart(s[1..]);
      assert Lower(s)[1..] == Lower(s[1..]);
    } else if s != [] {
      assert Lower(s)[0] == LowerChar(s[0]);
    }
  }

  lemma {:induction false} LowerTrimEnd(s: string)
    ensures Lower(TrimEnd(s)) == TrimEnd(Lower(s))
  {
    if s != [] && IsSpace(s[|s| - 1]) {
      LowerTrimEnd(s[..|s| - 1]);
      assert Lower(s)[..|s| - 1] == Lower(s[..|s| - 1]);
    } else if s != [] {
      assert Lower(s)[|s| - 1] == LowerChar(s[|s| - 1]);
    }
  }

  lemma TrimTwice(s: string)
    ensures Trim(Trim(s)) == Trim(s)
  {
    TrimWithoutOuterSpace(Trim(s));
  }

  /** The key depends only on the lower-cased, trimmed text: lower-casing or
      trimming a text first does not change its key. */
  lemma KeyIgnoresCaseAndOuterSpace(text: string)
    ensures CacheKey(Lower(text)) == CacheKey(text)
    ensures CacheKey(Trim(text)) == CacheKey(text)
  {
    LowerTwice(text);
    LowerTrimStart(text);
    LowerTrimEnd(TrimStart(text));
    TrimTwice(Lower(text));
  }

  /** The hash of a two-character ASCII text without capitals or white
      space at either end. */
  lemma HashOfPair(text: string, a: char, b: char)
    requires text == [a, b]
    requires !IsSpace(a) && !IsSpace(b) && !IsUpper(a) && !IsUpper(b)
    requires a as int < 0x10000 && b as int < 0x10000
    ensures Trim(Lower(text)) == text
    ensures HashOf(KeyUnits(text)) == Wrap32(31 * (a as int) + b as int)
  {
    var u := [a as int, b as int];
    assert KeyUnits(text) == u by {
      assert Lower(text) == text;
      assert Trim(text) == text by { TrimWithoutOuterSpace(text); }
      assert text[1..] == [b];
      assert CodeUnits(a) == [a as int] && CodeUnits(b) == [b as int];
      assert Utf16([b]) == [b as int] by { assert [b][1..] == []; }
    }
    assert Poly([a as int]) == a as int by {
      assert [a as int][..0] == [];
    }
    assert Poly(u) == 31 * (a as int) + b as int by {
      assert u[..1] == [a as int];
    }
    HashIsPolynomial(u);
  }

  /** Two different posts can share a key: "1!" and "0@" both hash to
      31 * 49 + 33 = 31 * 48 + 64 = 1552. */
  lemma KeysCollide()
    ensures CacheKey("1!") == CacheKey("0@")
    ensures Trim(Lower("1!")) != Trim(Lower("0@"))
  {
    HashOfPair("1!", '1', '!');
    HashOfPair("0@", '0', '@');
    WrapSmall(31 * 49 + 33);
    WrapSmall(31 * 48 + 64);
  }
}
