/** C strings as the store sees them: `char` is signed, a string is its characters
    without the terminating NUL, and `strncmp` is compared against zero only. */
module CStrings {
  type Char = c: int | -128 <= c < 128

  type CString = seq<Char>

  const KEY_SIZE := 64
  const MSG_SIZE := 256

  /** A key that fits the request's key field with its terminator. */
  predicate IsKey(k: CString) {
    |k| < KEY_SIZE && 0 !in k
  }

  /** The character at position `i` of a NUL-terminated string. */
  function At(s: CString, i: nat): Char {
    if i < |s| then s[i] else 0
  }

  /** `strncmp(a, b, n) == 0`, character by character, stopping at a common NUL. */
  predicate StrncmpIsZero(a: CString, b: CString, n: nat)
    decreases n
  {
    n == 0 ||
    (At(a, 0) == At(b, 0) &&
     (At(a, 0) == 0 || StrncmpIsZero(if a == [] then [] else a[1..], if b == [] then [] else b[1..], n - 1)))
  }

  /** With `n` the length of the query, `strncmp` does not test equality: it tests
      whether the stored string starts with the query. */
  lemma {:induction false} StrncmpIsPrefixTest(stored: CString, query: CString)
    requires 0 !in stored && 0 !in query
    ensures StrncmpIsZero(stored, query, |query|) <==> query <= stored
    decreases |query|
  {
    if query != [] && stored != [] && stored[0] == query[0] {
      StrncmpIsPrefixTest(stored[1..], query[1..]);
      assert query <= stored <==> query[1..] <= stored[1..] by {
        assert query == [query[0]] + query[1..] && stored == [stored[0]] + stored[1..];
      }
    }
  }

  // ---------- sprintf("%d") ----------

  predicate IsDigit(c: Char) {
    48 <= c <= 57
  }

  predicate AllDigits(s: CString) {
    forall i :: 0 <= i < |s| ==> IsDigit(s[i])
  }

  function Digit(n: nat): (c: Char)
    requires n < 10
    ensures IsDigit(c)
  {
    48 + n
  }

  /** Decimal digits of a natural number, most significant first, no leading zero. */
  function Decimal(n: nat): (s: CString)
    ensures s != [] && AllDigits(s)
  {
    if n < 10 then [Digit(n)] else Decimal(n / 10) + [Digit(n % 10)]
  }

  /** What `%d` prints. */
  function FormatInt(n: int): (s: CString)
    ensures s != [] && 0 !in s
  {
    if n < 0 then [45] + Decimal(-n) else Decimal(n)
  }

  /** The number a digit string denotes; the inverse of Decimal. */
  function ValueOf(s: CString): int {
    if s == [] then 0 else 10 * ValueOf(s[..|s| - 1]) + s[|s| - 1] as int - 48
  }

  lemma {:induction false} ValueOfDecimal(n: nat)
    ensures ValueOf(Decimal(n)) == n
    decreases n
  {
    if n < 10 {
      assert ValueOf([Digit(n)][..0]) == 0;
    } else {
      ValueOfDecimal(n / 10);
      assert Decimal(n)[..|Decimal(n)| - 1] == Decimal(n / 10);
    }
  }

  lemma {:induction false} DecimalLength(n: nat, d: nat)
    requires 1 <= d
    requires n < Power10(d)
    ensures |Decimal(n)| <= d
    decreases d
  {
    if n >= 10 {
      assert Power10(d) == 10 * Power10(d - 1);
      assert d > 1;
      DecimalLength(n / 10, d - 1);
    }
  }

  /** A number that needs `d` digits is at least 10^(d-1), unless it is a single digit. */
  lemma {:induction false} DecimalLower(n: nat, d: nat)
    requires 2 <= d && |Decimal(n)| >= d
    ensures n >= Power10(d - 1)
    decreases d
  {
    assert Power10(d - 1) == 10 * Power10(d - 2);
    if d > 2 {
      DecimalLower(n / 10, d - 1);
    }
  }

  function Power10(d: nat): nat {
    if d == 0 then 1 else 10 * Power10(d - 1)
  }

  /** Distinct integers print differently. */
  lemma FormatIntInjective(a: int, b: int)
    requires FormatInt(a) == FormatInt(b)
    ensures a == b
  {
    assert a < 0 <==> FormatInt(a)[0] == 45;
    assert b < 0 <==> FormatInt(b)[0] == 45;
    if a < 0 {
      assert FormatInt(a)[1..] == Decimal(-a) && FormatInt(b)[1..] == Decimal(-b);
      ValueOfDecimal(-a);
      ValueOfDecimal(-b);
    } else {
      ValueOfDecimal(a);
      ValueOfDecimal(b);
    }
  }
}
