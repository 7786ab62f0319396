/** The keys of the benchmark client, `"Key from instance %d count %d"`, and the exact
    range of counts for which no key of a bucket is a prefix of another. */
module BenchmarkKeys {
  import opened CStrings
  import opened Hash

  /** No key is a proper prefix of another key of its bucket: what the prefix-comparing
      lookup needs to act as an exact one. */
  ghost predicate PrefixFree(keys: iset<CString>) {
    forall a, b :: a in keys && b in keys && a != b && Bucket(a) == Bucket(b) ==> !(a <= b)
  }

  /** The format's literal parts, as character codes: "Key from instance " and " count ". */
  function Head(): CString {
    [75, 101, 121, 32, 102, 114, 111, 109, 32, 105, 110, 115, 116, 97, 110, 99, 101, 32]
  }

  function Middle(): CString {
    [32, 99, 111, 117, 110, 116, 32]
  }

  /** What `make_get_request` and `make_set_request` print into the key. */
  function BenchKey(instance: int, count: int): (k: CString)
    ensures 0 !in k
  {
    Head() + FormatInt(instance) + Middle() + FormatInt(count)
  }

  /** The codes of a text of seven-bit characters. */
  function Codes(text: string): CString
    requires forall i :: 0 <= i < |text| ==> text[i] as int < 128
  {
    seq(|text|, i requires 0 <= i < |text| => text[i] as int)
  }

  /** The format, spelled out. */
  lemma KeySpelled(instance: int, count: int)
    ensures BenchKey(instance, count) ==
            Codes("Key from instance ") + FormatInt(instance) + Codes(" count ") + FormatInt(count)
  {
    assert Head() == Codes("Key from instance ");
    assert Middle() == Codes(" count ");
  }

  lemma NumbersSpelled()
    ensures FormatInt(-1) == Codes("-1") && FormatInt(0) == Codes("0") && FormatInt(6970) == Codes("6970")
  {
    FourDigitDecimal(6, 9, 7, 0);
    assert Decimal(6970) == [54] + [57, 55, 48];
    assert FormatInt(-1) == [45] + [49];
  }

  /** Every key the benchmark asks for when counts stay at or below `limit`, whatever the
      instance; a GET may also ask for count -1. */
  ghost function KeysUpTo(limit: int): iset<CString> {
    iset instance: int, count: int | -1 <= count <= limit :: BenchKey(instance, count)
  }

  lemma {:induction false} FormatFits(n: int, digits: nat)
    requires 1 <= digits
    requires -(Power10(digits) as int) < n < Power10(digits)
    ensures |FormatInt(n)| <= digits + 1
  {
    DecimalLength(if n < 0 then -n else n, digits);
  }

  /** Keys built from 32-bit instance and count numbers fit the key field. */
  lemma BenchKeyFits(instance: int, count: int)
    requires -0x8000_0000 <= instance < 0x8000_0000
    requires -0x8000_0000 <= count < 0x8000_0000
    ensures IsKey(BenchKey(instance, count))
  {
    TenDigits();
    FormatFits(instance, 10);
    FormatFits(count, 10);
  }

  lemma TenDigits()
    ensures Power10(10) == 10_000_000_000
  {
    assert Power10(5) == 100_000;
  }

  /** A space splits both sides of a prefix relation at the same place. */
  lemma SplitAtSpace(x: CString, u: CString, y: CString, v: CString)
    requires 32 !in x && 32 !in y
    requires x + [32] + u <= y + [32] + v
    ensures x == y && u <= v
  {
    var s, t := x + [32] + u, y + [32] + v;
    assert forall n :: 0 <= n < |s| ==> s[n] == t[n];
    assert s[|x|] == 32 && t[|y|] == 32;
    assert forall n :: 0 <= n < |y| ==> t[n] == y[n] && y[n] != 32;
    assert forall n :: 0 <= n < |x| ==> s[n] == x[n] && x[n] != 32;
    assert |x| == |y|;
    assert x == s[..|x|] && y == t[..|x|];
    assert u == s[|x| + 1..] && v == t[|x| + 1..];
  }

  lemma CommonHead(h: CString, s: CString, t: CString)
    requires h + s <= h + t
    ensures s <= t
  {
    assert s == (h + s)[|h|..] && t == (h + t)[|h|..];
  }

  lemma FormatHasNoSpace(n: int)
    ensures 32 !in FormatInt(n)
  {
    assert AllDigits(Decimal(if n < 0 then -n else n));
  }

  /** The same, with the literal parts of the format around the two numbers. */
  lemma SplitFormat(h: CString, m: CString, x: CString, u: CString, y: CString, v: CString)
    requires 32 !in x && 32 !in y
    requires h + x + ([32] + m) + u <= h + y + ([32] + m) + v
    ensures x == y && u <= v
  {
    var s, t := x + [32] + (m + u), y + [32] + (m + v);
    assert h + x + ([32] + m) + u == h + s && h + y + ([32] + m) + v == h + t;
    CommonHead(h, s, t);
    SplitAtSpace(x, m + u, y, m + v);
    CommonHead(m, u, v);
  }

  /** One benchmark key is a prefix of another only within an instance, and then its
      count is a prefix of the other count. */
  lemma PrefixMeansPrefixOfCount(i: int, c: int, j: int, d: int)
    requires BenchKey(i, c) <= BenchKey(j, d)
    ensures i == j && FormatInt(c) <= FormatInt(d)
  {
    var m := Middle()[1..];
    assert Middle() == [32] + m;
    FormatHasNoSpace(i);
    FormatHasNoSpace(j);
    SplitFormat(Head(), m, FormatInt(i), FormatInt(c), FormatInt(j), FormatInt(d));
    FormatIntInjective(i, j);
  }

  lemma AppendAssociates(a: CString, b: CString, c: CString)
    ensures a + (b + c) == (a + b) + c
  {
  }

  /** A longer count appends its extra digits to the key. */
  lemma KeyWithLongerCount(i: int, c: int, d: int) returns (more: CString)
    requires 0 <= c && 0 <= d && Decimal(c) <= Decimal(d)
    ensures AllDigits(more) && Decimal(d) == Decimal(c) + more
    ensures BenchKey(i, d) == BenchKey(i, c) + more
  {
    more := Decimal(d)[|Decimal(c)|..];
    assert Decimal(d) == Decimal(c) + more;
    AppendAssociates(Head() + FormatInt(i) + Middle(), Decimal(c), more);
  }

  lemma ValueOfFour(p: Char, a: Char, b: Char, c: Char)
    ensures ValueOf([p, a, b, c]) ==
            1000 * (p as int - 48) + 100 * (a as int - 48) + 10 * (b as int - 48) + (c as int - 48)
  {
    assert [p, a, b, c][..3] == [p, a, b];
    assert [p, a, b][..2] == [p, a];
    assert [p, a][..1] == [p];
    assert [p][..0] == [];
    assert ValueOf([p, a]) == 10 * ValueOf([p]) + (a as int - 48);
    assert ValueOf([p, a, b]) == 10 * ValueOf([p, a]) + (b as int - 48);
  }

  /** A four-digit number up to 1078 does not end in three digits adding up to 16. */
  lemma FourDigitCount(d: nat, p: Char, a: Char, b: Char, c: Char)
    requires Decimal(d) == [p, a, b, c] && d <= 1078
    ensures a as int + b as int + c as int != 3 * 48 + 16
  {
    ValueOfDecimal(d);
    ValueOfFour(p, a, b, c);
    DecimalLower(d, 4);
    assert Power10(3) == 1000;
    assert IsDigit(p) && IsDigit(a) && IsDigit(b) && IsDigit(c) by {
      assert AllDigits(Decimal(d)) && Decimal(d)[0] == p && Decimal(d)[1] == a;
      assert Decimal(d)[2] == b && Decimal(d)[3] == c;
    }
  }

  /** Counts of one instance up to 1078: a proper prefix is never in the same bucket. */
  lemma CountsSeparate(i: int, c: nat, d: nat)
    requires c != d && d <= 1078 && Decimal(c) <= Decimal(d)
    ensures Bucket(BenchKey(i, c)) != Bucket(BenchKey(i, d))
  {
    var more := KeyWithLongerCount(i, c, d);
    SuffixMoves(BenchKey(i, c), c, d, more);
  }

  lemma SuffixMoves(k: CString, c: nat, d: nat, more: CString)
    requires c != d && d <= 1078 && AllDigits(more) && Decimal(d) == Decimal(c) + more
    ensures Bucket(k + more) != Bucket(k)
  {
    assert Power10(4) == 10_000;
    DecimalLength(d, 4);
    assert more != [] by {
      ValueOfDecimal(c);
      ValueOfDecimal(d);
      assert Decimal(c) + [] == Decimal(c);
    }
    if |more| <= 2 {
      ShortSuffixMoves(k, more);
    } else {
      assert Decimal(d) == [Decimal(c)[0], more[0], more[1], more[2]];
      FourDigitCount(d, Decimal(c)[0], more[0], more[1], more[2]);
      LongSuffixMoves(k, more);
    }
  }

  /** One or two appended digits always change the bucket. */
  lemma ShortSuffixMoves(k: CString, more: CString)
    requires AllDigits(more) && 1 <= |more| <= 2
    ensures Bucket(k + more) != Bucket(k)
  {
    if |more| == 1 {
      assert more == [more[0]];
      OneDigitMoves(k, more[0]);
    } else {
      assert more == [more[0], more[1]];
      TwoDigitsMove(k, more[0], more[1]);
    }
  }

  lemma LongSuffixMoves(k: CString, more: CString)
    requires AllDigits(more) && |more| == 3
    requires more[0] as int + more[1] as int + more[2] as int != 3 * 48 + 16
    ensures Bucket(k + more) != Bucket(k)
  {
    assert more == [more[0], more[1], more[2]];
    if Bucket(k + more) == Bucket(k) {
      ThreeDigitsStayNeedSum16(k, more[0], more[1], more[2]);
    }
  }

  /** Count -1 prints a key that no other count extends. */
  lemma MinusOneIsNoPrefix(c: int, d: int)
    requires -1 <= c && -1 <= d && c != d && FormatInt(c) <= FormatInt(d)
    ensures 0 <= c && 0 <= d
  {
    assert c < 0 <==> FormatInt(c)[0] == 45;
    assert d < 0 <==> FormatInt(d)[0] == 45;
  }

  lemma KeysUpTo1078ArePrefixFree(limit: int)
    requires limit <= 1078
    ensures PrefixFree(KeysUpTo(limit))
  {
    var keys := KeysUpTo(limit);
    forall a, b | a in keys && b in keys && a != b && Bucket(a) == Bucket(b)
      ensures !(a <= b)
    {
      var i: int, c: int :| -1 <= c <= limit && a == BenchKey(i, c);
      var j: int, d: int :| -1 <= d <= limit && b == BenchKey(j, d);
      if a <= b {
        PrefixMeansPrefixOfCount(i, c, j, d);
        assert c != d;
        MinusOneIsNoPrefix(c, d);
        CountsSeparate(i, c, d);
      }
    }
  }

  // ---------- the limit is sharp ----------

  lemma {:induction false} SumFour(s: CString, a: Char, b: Char, c: Char, d: Char)
    ensures CharSum(s + [a, b, c, d]) == CharSum(s) + a + b + c + d
  {
    var t := s + [a, b, c, d];
    assert t[..|t| - 1] == s + [a, b, c];
    assert (s + [a, b, c])[..|s| + 2] == s + [a, b];
    assert (s + [a, b])[..|s| + 1] == s + [a];
    assert (s + [a])[..|s|] == s;
    assert CharSum(s + [a]) == CharSum(s) + a;
    assert CharSum(s + [a, b]) == CharSum(s + [a]) + b;
    assert CharSum(s + [a, b, c]) == CharSum(s + [a, b]) + c;
  }

  // "Key from instance " sums to 1682, " count " to 617, and 119 prints as 155.
  lemma HeadSum()
    ensures CharSum(Head()) == 1682
  {
    var h := Head();
    SumFour([], 75, 101, 121, 32);
    assert [] + [75, 101, 121, 32] == h[..4];
    SumFour(h[..4], 102, 114, 111, 109);
    assert h[..4] + [102, 114, 111, 109] == h[..8];
    SumFour(h[..8], 32, 105, 110, 115);
    assert h[..8] + [32, 105, 110, 115] == h[..12];
    SumFour(h[..12], 116, 97, 110, 99);
    assert h[..12] + [116, 97, 110, 99] == h[..16];
    SumTwo(h[..16], 101, 32);
    assert h[..16] + [101, 32] == h;
  }

  lemma {:induction false} SumTwo(s: CString, a: Char, b: Char)
    ensures CharSum(s + [a, b]) == CharSum(s) + a + b
  {
    assert (s + [a, b])[..|s| + 1] == s + [a];
    assert (s + [a])[..|s|] == s;
    assert CharSum(s + [a]) == CharSum(s) + a;
  }

  lemma {:induction false} SumOne(s: CString, a: Char)
    ensures CharSum(s + [a]) == CharSum(s) + a
  {
    assert (s + [a])[..|s|] == s;
  }

  lemma MiddleSum()
    ensures CharSum(Middle()) == 617
  {
    var m := Middle();
    SumFour([], 32, 99, 111, 117);
    assert [] + [32, 99, 111, 117] == m[..4];
    SumTwo(m[..4], 110, 116);
    assert m[..4] + [110, 116] == m[..6];
    SumOne(m[..6], 32);
    assert m[..6] + [32] == m;
  }

  /** The residue that decides everything, for a key of the benchmark. */
  lemma KeyResidue(instance: int, count: int)
    ensures HashOf(BenchKey(instance, count)) % 32 ==
            (2304 + CharSum(FormatInt(instance)) + CharSum(FormatInt(count))) % 32
  {
    var h, i, m, c := Head(), FormatInt(instance), Middle(), FormatInt(count);
    HashMod32(h + i + m + c);
    HeadSum();
    MiddleSum();
    CharSumConcat(h, i);
    CharSumConcat(h + i, m);
    CharSumConcat(h + i + m, c);
  }

  /** Keys of counts c and c followed by three digits, in the same bucket: the lookup for
      the first finds an item stored under the second. */
  lemma CollidingCounts(instance: int, c: nat, d: nat, x: Char, y: Char, z: Char)
    requires IsDigit(x) && IsDigit(y) && IsDigit(z)
    requires Decimal(d) == Decimal(c) + [x, y, z]
    requires (96 * ((2304 + CharSum(FormatInt(instance)) + CharSum(FormatInt(c))) % 32) + 65 * x + 33 * y + z) % 1024 == 0
    ensures BenchKey(instance, c) <= BenchKey(instance, d) && BenchKey(instance, c) != BenchKey(instance, d)
    ensures Bucket(BenchKey(instance, c)) == Bucket(BenchKey(instance, d))
  {
    var k := BenchKey(instance, c);
    AppendAssociates(Head() + FormatInt(instance) + Middle(), Decimal(c), [x, y, z]);
    KeyResidue(instance, c);
    ThreeDigitsStayIff(k, x, y, z);
    assert BenchKey(instance, d) == k + [x, y, z];
  }

  lemma FourDigitDecimal(p: nat, x: nat, y: nat, z: nat)
    requires 1 <= p < 10 && x < 10 && y < 10 && z < 10
    ensures Decimal(1000 * p + 100 * x + 10 * y + z) == Decimal(p) + [Digit(x), Digit(y), Digit(z)]
  {
    var n := 1000 * p + 100 * x + 10 * y + z;
    assert n / 10 == 100 * p + 10 * x + y && n % 10 == z;
    assert (n / 10) / 10 == 10 * p + x && (n / 10) % 10 == y;
    assert (10 * p + x) / 10 == p && (10 * p + x) % 10 == x;
    assert Decimal(n) == Decimal(n / 10) + [Digit(z)];
    assert Decimal(n / 10) == Decimal(10 * p + x) + [Digit(y)];
    assert Decimal(10 * p + x) == Decimal(p) + [Digit(x)];
  }

  /** Instance 0: "... count 6" is a prefix of "... count 6970" and shares its bucket. */
  lemma Count6And6970Collide()
    ensures BenchKey(0, 6) <= BenchKey(0, 6970) && BenchKey(0, 6) != BenchKey(0, 6970)
    ensures Bucket(BenchKey(0, 6)) == Bucket(BenchKey(0, 6970))
  {
    FourDigitDecimal(6, 9, 7, 0);
    SumOne([], 48);
    SumOne([], 54);
    assert FormatInt(0) == [] + [48] && FormatInt(6) == [] + [54];
    CollidingCounts(0, 6, 6970, 57, 55, 48);
  }

  /** Instance 119 already collides at count 1079. */
  lemma Count1And1079Collide()
    ensures BenchKey(119, 1) <= BenchKey(119, 1079) && BenchKey(119, 1) != BenchKey(119, 1079)
    ensures Bucket(BenchKey(119, 1)) == Bucket(BenchKey(119, 1079))
  {
    FourDigitDecimal(1, 0, 7, 9);
    SumOne([], 49);
    SumTwo([49], 49, 57);
    assert Decimal(11) == [49] + [49];
    assert FormatInt(1) == [] + [49] && FormatInt(119) == [49] + [49, 57];
    assert CharSum([49]) == 49;
    CollidingCounts(119, 1, 1079, 48, 55, 57);
  }

  /** The benchmark's keys that fit the key field, which those of 32-bit numbers all do. */
  ghost function FittingKeys(limit: int): iset<CString> {
    iset k | k in KeysUpTo(limit) && IsKey(k)
  }

  /** The exact range: the benchmark's keys are prefix-free for every instance if and only
      if counts stay at or below 1078. The default of ten million operations does not. */
  lemma BenchmarkKeysPrefixFreeIff(limit: int)
    ensures PrefixFree(FittingKeys(limit)) <==> limit <= 1078
  {
    if limit <= 1078 {
      KeysUpTo1078ArePrefixFree(limit);
    } else {
      Count1And1079Collide();
      BenchKeyFits(119, 1);
      BenchKeyFits(119, 1079);
      assert BenchKey(119, 1) in KeysUpTo(limit) && BenchKey(119, 1079) in KeysUpTo(limit);
    }
  }
}
