/** The djb2 hash of `hash.c`, with its 32-bit wrap-around, and its arithmetic
    modulo the 1024 buckets of the table. */
module Hash {
  import opened CStrings

  const CAPACITY := 1024

  /** One iteration: hash * 33 + c in unsigned 32-bit arithmetic (c sign-extended). */
  function HashStep(h: nat, c: Char): (r: nat)
    ensures r < 0x1_0000_0000
  {
    (33 * h + c) % 0x1_0000_0000
  }

  /** The hash of a string, defined from its last character. */
  function HashOf(s: CString): (h: nat)
    ensures h < 0x1_0000_0000
  {
    if s == [] then 5381 else HashStep(HashOf(s[..|s| - 1]), s[|s| - 1])
  }

  function Bucket(s: CString): (b: nat)
    ensures b < CAPACITY
  {
    HashOf(s) % 1024
  }

  /** The loop of `hash`: shift, add, add, each truncated to 32 bits. */
  method ComputeHash(str: CString) returns (hash: nat)
    ensures hash == HashOf(str)
  {
    hash := 5381;
    var i := 0;
    while i < |str|
      invariant 0 <= i <= |str|
      invariant hash == HashOf(str[..i])
    {
      var shifted := (hash * 32) % 0x1_0000_0000;
      var sum := (shifted + hash) % 0x1_0000_0000;
      HashExtend(str[..i], str[i]);
      assert str[..i] + [str[i]] == str[..i + 1];
      TruncatedStep(hash, str[i]);
      hash := (sum + str[i]) % 0x1_0000_0000;
      i := i + 1;
    }
    assert str[..i] == str;
  }

  /** Truncating after every operation is truncating once. */
  lemma TruncatedStep(h: nat, c: Char)
    ensures (((h * 32) % 0x1_0000_0000 + h) % 0x1_0000_0000 + c) % 0x1_0000_0000 == HashStep(h, c)
  {
    var x := h * 32;
    var y := x % 0x1_0000_0000 + h;
    var z := y % 0x1_0000_0000 + c;
    WordRemainder(33 * h + c, x / 0x1_0000_0000 + y / 0x1_0000_0000 + z / 0x1_0000_0000, z % 0x1_0000_0000);
  }

  lemma WordRemainder(x: int, q: int, r: int)
    requires x == 0x1_0000_0000 * q + r && 0 <= r < 0x1_0000_0000
    ensures x % 0x1_0000_0000 == r
  {
    assert x / 0x1_0000_0000 == q;
  }

  // ---------- the closed form ----------

  function Power33(n: nat): nat {
    if n == 0 then 1 else 33 * Power33(n - 1)
  }

  /** The characters weighted by powers of 33, the last one by 1. */
  function Weighted(s: CString): int {
    if s == [] then 0 else s[0] * Power33(|s| - 1) + Weighted(s[1..])
  }

  lemma {:induction false} WeightedAppend(s: CString, c: Char)
    ensures Weighted(s + [c]) == 33 * Weighted(s) + c
    decreases |s|
  {
    if s == [] {
      assert Weighted([c][1..]) == 0 && Power33(0) == 1;
      assert [] + [c] == [c];
    } else {
      assert (s + [c])[1..] == s[1..] + [c];
      WeightedAppend(s[1..], c);
      TimesStep(s[0], Power33(|s| - 1));
    }
  }

  lemma TimesStep(c: int, p: int)
    ensures c * (33 * p) == 33 * (c * p)
  {
  }

  function ClosedForm(s: CString): int {
    5381 * Power33(|s|) + Weighted(s)
  }

  lemma ClosedFormStep(p: CString, c: Char)
    ensures ClosedForm(p + [c]) == 33 * ClosedForm(p) + c
  {
    WeightedAppend(p, c);
    assert Power33(|p| + 1) == 33 * Power33(|p|);
  }

  lemma ClosedFormEmpty()
    ensures HashOf([]) == ClosedForm([]) % 0x1_0000_0000
  {
    assert ClosedForm([]) == 5381;
    WordRemainder(5381, 0, 5381);
  }

  lemma ClosedFormOfLonger(p: CString, c: Char)
    requires HashOf(p) == ClosedForm(p) % 0x1_0000_0000
    ensures HashOf(p + [c]) == ClosedForm(p + [c]) % 0x1_0000_0000
  {
    ClosedFormStep(p, c);
    HashExtend(p, c);
    StepOfRemainder(ClosedForm(p), c);
  }

  /** The whole loop in one formula: truncating at every step is truncating once at the end. */
  lemma {:induction false} HashClosedForm(s: CString)
    ensures HashOf(s) == ClosedForm(s) % 0x1_0000_0000
    decreases |s|
  {
    if s == [] {
      ClosedFormEmpty();
    } else {
      var p, c := s[..|s| - 1], s[|s| - 1];
      HashClosedForm(p);
      ClosedFormOfLonger(p, c);
      assert s == p + [c];
    }
  }

  /** The hash of "K". */
  lemma HashOfK()
    ensures HashOf([75]) == 177_648
  {
    HashExtend([], 75);
    assert [] + [75] == [75];
  }

  lemma StepOfRemainder(x: int, c: int)
    ensures (33 * (x % 0x1_0000_0000) + c) % 0x1_0000_0000 == (33 * x + c) % 0x1_0000_0000
  {
    var y := 33 * (x % 0x1_0000_0000) + c;
    WordRemainder(33 * x + c, 33 * (x / 0x1_0000_0000) + y / 0x1_0000_0000, y % 0x1_0000_0000);
  }

  // ---------- appending characters, modulo the number of buckets ----------

  lemma HashExtend(s: CString, c: Char)
    ensures HashOf(s + [c]) == HashStep(HashOf(s), c)
  {
    assert (s + [c])[..|s + [c]| - 1] == s;
  }

  /** Appending one, two or three characters, up to a multiple of 1024: the wrap-around
      at 2^32 is invisible modulo 1024. */
  lemma Extend1(s: CString, a: Char) returns (q: int)
    ensures HashOf(s + [a]) == 33 * HashOf(s) + a + 1024 * q
  {
    HashExtend(s, a);
    q := -((33 * HashOf(s) + a) / 0x1_0000_0000) * 0x40_0000;
  }

  lemma Extend2(s: CString, a: Char, b: Char) returns (q: int)
    ensures HashOf(s + [a, b]) == 1089 * HashOf(s) + 33 * a + b + 1024 * q
  {
    var q1 := Extend1(s, a);
    var q2 := Extend1(s + [a], b);
    assert s + [a] + [b] == s + [a, b];
    q := 33 * q1 + q2;
  }

  lemma Extend3(s: CString, a: Char, b: Char, c: Char) returns (q: int)
    ensures HashOf(s + [a, b, c]) == 35937 * HashOf(s) + 1089 * a + 33 * b + c + 1024 * q
  {
    var q1 := Extend2(s, a, b);
    var q2 := Extend1(s + [a, b], c);
    assert s + [a, b] + [c] == s + [a, b, c];
    q := 33 * q1 + q2;
  }

  /** Numbers with equal remainders differ by a multiple of 1024. */
  lemma SameRemainder(x: nat, y: nat) returns (k: int)
    requires x % 1024 == y % 1024
    ensures x - y == 1024 * k
  {
    k := x / 1024 - y / 1024;
  }

  /** One more digit always moves a key to another bucket. */
  lemma OneDigitMoves(s: CString, a: Char)
    requires IsDigit(a)
    ensures Bucket(s + [a]) != Bucket(s)
  {
    if Bucket(s + [a]) == Bucket(s) {
      var q := Extend1(s, a);
      var k := SameRemainder(HashOf(s + [a]), HashOf(s));
      NoMultipleOf32(a, 32 * k - 32 * q - HashOf(s));
    }
  }

  lemma NoMultipleOf32(a: int, m: int)
    requires 33 <= a <= 63
    ensures a != 32 * m
  {
  }

  /** Two more digits always move a key to another bucket. */
  lemma TwoDigitsMove(s: CString, a: Char, b: Char)
    requires IsDigit(a) && IsDigit(b)
    ensures Bucket(s + [a, b]) != Bucket(s)
  {
    if Bucket(s + [a, b]) == Bucket(s) {
      var q := Extend2(s, a, b);
      var h := HashOf(s);
      var k := SameRemainder(HashOf(s + [a, b]), h);
      TwoDigitResidue(a, b, 16 * k - 16 * q - 17 * h);
    }
  }

  lemma TwoDigitResidue(a: Char, b: Char, m: int)
    requires IsDigit(a) && IsDigit(b)
    ensures 33 * a + b != 64 * m
  {
  }

  /** Three digits keep the bucket exactly when this residue vanishes: it depends on
      the key only through its hash modulo 32. */
  lemma ThreeDigitsStayIff(s: CString, a: Char, b: Char, c: Char)
    requires IsDigit(a) && IsDigit(b) && IsDigit(c)
    ensures Bucket(s + [a, b, c]) == Bucket(s) <==>
            (96 * (HashOf(s) % 32) + 65 * a + 33 * b + c) % 1024 == 0
  {
    var q := Extend3(s, a, b, c);
    var h := HashOf(s);
    var p := 35 * h + 3 * (h / 32) + a + q;
    RemainderOfSum(HashOf(s + [a, b, c]), h, p, 96 * (h % 32) + 65 * a + 33 * b + c);
  }

  lemma RemainderOfSum(t: nat, h: nat, p: int, x: nat)
    requires t == h + 1024 * p + x
    ensures t % 1024 == h % 1024 <==> x % 1024 == 0
  {
  }

  /** Three digits can keep the bucket only if they add up to 16. */
  lemma ThreeDigitsStayNeedSum16(s: CString, a: Char, b: Char, c: Char)
    requires IsDigit(a) && IsDigit(b) && IsDigit(c)
    requires Bucket(s + [a, b, c]) == Bucket(s)
    ensures a + b + c == 3 * 48 + 16
  {
    ThreeDigitsStayIff(s, a, b, c);
    DigitSumIs16(HashOf(s) % 32, a, b, c);
  }

  lemma DigitSumIs16(r: int, a: int, b: int, c: int)
    requires 48 <= a <= 57 && 48 <= b <= 57 && 48 <= c <= 57
    requires (96 * r + 65 * a + 33 * b + c) % 1024 == 0
    ensures a + b + c == 3 * 48 + 16
  {
    var k := (96 * r + 65 * a + 33 * b + c) / 1024;
    assert a + b + c == 32 * (32 * k - 3 * r - 2 * a - b);
  }

  // ---------- the hash modulo 32 is a character sum ----------

  function CharSum(s: CString): int {
    if s == [] then 0 else CharSum(s[..|s| - 1]) + s[|s| - 1]
  }

  lemma {:induction false} HashMod32(s: CString)
    ensures HashOf(s) % 32 == (5 + CharSum(s)) % 32
    decreases |s|
  {
    if s != [] {
      var p, c := s[..|s| - 1], s[|s| - 1];
      HashMod32(p);
      StepMod32(HashOf(p), c, CharSum(p));
    }
  }

  lemma SameModulo32(x: int, y: int, q: int)
    requires x == y + 32 * q
    ensures x % 32 == y % 32
  {
    assert x == 32 * (y / 32 + q) + y % 32;
  }

  lemma StepMod32(h: nat, c: Char, sum: int)
    requires h % 32 == (5 + sum) % 32
    ensures HashStep(h, c) % 32 == (5 + sum + c) % 32
  {
    var w := (33 * h + c) / 0x1_0000_0000;
    var v := h / 32 - (5 + sum) / 32;
    assert h == 5 + sum + 32 * v;
    SameModulo32(HashStep(h, c), 5 + sum + c, v + h - 0x800_0000 * w);
  }

  lemma {:induction false} CharSumConcat(s: CString, t: CString)
    ensures CharSum(s + t) == CharSum(s) + CharSum(t)
    decreases |t|
  {
    if t == [] {
      assert s + t == s;
    } else {
      var p, c := t[..|t| - 1], t[|t| - 1];
      assert (s + t)[..|s + t| - 1] == s + p;
      CharSumConcat(s, p);
    }
  }
}
