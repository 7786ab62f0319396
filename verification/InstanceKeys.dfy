/** The benchmark's keys of one instance: the first count at which two of them collide, for
    every instance number and every number of operations. */
module InstanceKeys {
  import opened CStrings
  import opened Hash
  import opened BenchmarkKeys
  import opened MapRefinement
  import opened RegisterLimits

  /** The keys of one instance with counts up to a limit. */
  ghost function KeysOf(instance: int, limit: int): iset<CString> {
    iset count: int | -1 <= count <= limit :: BenchKey(instance, count)
  }

  // ---------- which three digits keep the bucket ----------

  /** After the one-digit count c, the digits x, y, z keep the bucket of a key whose printed
      instance number has character sum r modulo 32. */
  predicate Stays(r: int, c: int, x: int, y: int, z: int) {
    x + y + z == 16 && (2 * x + y + 3 * (r + c) + 5) % 32 == 0
  }

  lemma StaysMeans(sum: int, r: int, c: int, x: int, y: int, z: int)
    requires 0 <= x < 10 && 0 <= y < 10 && 0 <= z < 10 && r == sum % 32
    ensures (96 * ((2304 + sum + 48 + c) % 32) + 65 * (48 + x) + 33 * (48 + y) + 48 + z) % 1024 == 0 <==>
            Stays(r, c, x, y, z)
  {
    var h := (2304 + sum + 48 + c) % 32;
    var q := (2304 + sum + 48 + c) / 32 - sum / 32;
    assert h == r + c + 2352 - 32 * q;
    var total := 96 * h + 65 * (48 + x) + 33 * (48 + y) + 48 + z;
    if total % 1024 == 0 {
      DigitSumIs16(h, 48 + x, 48 + y, 48 + z);
    }
    if x + y + z == 16 {
      assert total == 32 * (3 * h + 2 * x + y + 149);
      var n := 2 * x + y + 3 * (r + c) + 5;
      assert 3 * h + 2 * x + y + 149 == n + 32 * (225 - 3 * q);
      MultipleOf1024(total, n, 225 - 3 * q);
    }
  }

  lemma MultipleOf1024(total: int, n: int, q: int)
    requires total == 32 * (n + 32 * q)
    ensures total % 1024 == 0 <==> n % 32 == 0
  {
    assert total == 1024 * (n / 32 + q) + 32 * (n % 32);
  }

  // ---------- the first collision ----------

  /** The value 2x + y must have for x, y, z to keep the bucket. */
  function Need(r: int, c: int): (u: nat)
    ensures u < 32
  {
    (-3 * (r + c) - 5) % 32
  }

  /** The least x with digits x, y, z adding up to 16 and 2x + y == u, for u from 7 to 25. */
  function Lead(u: nat): nat {
    if u <= 9 then 0 else if u == 25 then 9 else (u - 8) / 2
  }

  /** The least count from c * 1000 on whose key collides with that of its leading digit. */
  function FirstFrom(r: int, c: nat): nat
    decreases 10 - c
  {
    var u := Need(r, c);
    if c >= 9 || 7 <= u <= 25 then 1000 * c + 81 * Lead(u) + 9 * u + 16 else FirstFrom(r, c + 1)
  }

  /** The least count whose key collides with another one of its instance: it depends on the
      character sum of the printed instance number modulo 32. */
  function FirstCollision(instance: int): nat {
    FirstFrom(CharSum(FormatInt(instance)) % 32, 1)
  }

  lemma Remainder32(a: int, q: int, u: int)
    requires a == 32 * q + u && 0 <= u < 32
    ensures a % 32 == u
  {
  }

  lemma StaysNeeds(r: int, c: int, x: int, y: int, z: int)
    requires 0 <= x < 10 && 0 <= y < 10 && 0 <= z < 10 && Stays(r, c, x, y, z)
    ensures Need(r, c) == 2 * x + y && 7 <= 2 * x + y <= 25 && Lead(2 * x + y) <= x
    ensures 100 * x + 10 * y + z == 81 * x + 9 * (2 * x + y) + 16
  {
    Remainder32(-3 * (r + c) - 5, -((2 * x + y + 3 * (r + c) + 5) / 32), 2 * x + y);
    LeadIsLeast(x, y, z);
  }

  lemma LeadIsLeast(x: int, y: int, z: int)
    requires 0 <= x < 10 && 0 <= y < 10 && 0 <= z < 10 && x + y + z == 16
    ensures 7 <= 2 * x + y <= 25 && Lead(2 * x + y) <= x
  {
  }

  lemma LeadDigits(u: nat) returns (x: nat, y: nat, z: nat)
    requires 7 <= u <= 25
    ensures x == Lead(u) && 2 * x + y == u && x + y + z == 16 && x < 10 && y < 10 && z < 10
  {
    x := Lead(u);
    y := u - 2 * x;
    z := 16 - x - y;
  }

  lemma LeadStays(r: int, c: int) returns (x: nat, y: nat, z: nat)
    requires 7 <= Need(r, c) <= 25
    ensures x < 10 && y < 10 && z < 10 && Stays(r, c, x, y, z)
    ensures 100 * x + 10 * y + z == 81 * Lead(Need(r, c)) + 9 * Need(r, c) + 16
  {
    x, y, z := LeadDigits(Need(r, c));
    Remainder32(2 * x + y + 3 * (r + c) + 5, -((-3 * (r + c) - 5) / 32), 0);
  }

  /** No count below it collides. */
  lemma {:induction false} NoneBelow(r: int, k: nat, c: nat, x: nat, y: nat, z: nat)
    requires k <= c < 10 && x < 10 && y < 10 && z < 10
    requires 1000 * c + 100 * x + 10 * y + z < FirstFrom(r, k)
    ensures !Stays(r, c, x, y, z)
    decreases c - k
  {
    if Stays(r, c, x, y, z) {
      StaysNeeds(r, c, x, y, z);
      if k < c {
        if FirstFrom(r, k) == FirstFrom(r, k + 1) {
          NoneBelow(r, k + 1, c, x, y, z);
        }
      }
    }
  }

  /** Six leading digits are enough for every instance. */
  lemma SomeLeadWorks(r: int) returns (c: nat)
    ensures 1 <= c <= 6 && 7 <= Need(r, c) <= 25
  {
    var n, q := (-3 * r - 5) % 32, (-3 * r - 5) / 32;
    assert -3 * r - 5 == 32 * q + n;
    if n < 10 {
      c := 6;
      Remainder32(-3 * (r + c) - 5, q - 1, n + 14);
    } else if n <= 28 {
      c := 1;
      Remainder32(-3 * (r + c) - 5, q, n - 3);
    } else {
      c := 2;
      Remainder32(-3 * (r + c) - 5, q, n - 6);
    }
  }

  /** It is itself a collision, and has four digits. */
  lemma {:induction false} FirstIsAttained(r: int, k: nat, good: nat) returns (c: nat, x: nat, y: nat, z: nat)
    requires 1 <= k <= good <= 6 && 7 <= Need(r, good) <= 25
    ensures 1 <= c < 7 && x < 10 && y < 10 && z < 10 && Stays(r, c, x, y, z)
    ensures FirstFrom(r, k) == 1000 * c + 100 * x + 10 * y + z
    decreases good - k
  {
    if 7 <= Need(r, k) <= 25 {
      c := k;
      x, y, z := LeadStays(r, k);
    } else {
      c, x, y, z := FirstIsAttained(r, k + 1, good);
    }
  }

  // ---------- from counts to keys ----------

  lemma FirstHasFourDigits(instance: int)
    ensures 1000 <= FirstCollision(instance) < 7000
  {
    var r := CharSum(FormatInt(instance)) % 32;
    var good := SomeLeadWorks(r);
    var c, x, y, z := FirstIsAttained(r, 1, good);
  }

  /** Three digits after a one-digit count, in terms of their values. */
  lemma ThreeDigitsMean(instance: int, c: nat, x: nat, y: nat, z: nat)
    requires c < 10 && x < 10 && y < 10 && z < 10
    ensures
      Bucket(BenchKey(instance, c) + [Digit(x), Digit(y), Digit(z)]) == Bucket(BenchKey(instance, c)) <==>
      Stays(CharSum(FormatInt(instance)) % 32, c, x, y, z)
  {
    var sum := CharSum(FormatInt(instance));
    ThreeDigitsStayIff(BenchKey(instance, c), Digit(x), Digit(y), Digit(z));
    KeyResidue(instance, c);
    SumOne([], Digit(c));
    assert FormatInt(c) == [] + [Digit(c)];
    assert HashOf(BenchKey(instance, c)) % 32 == (2304 + sum + 48 + c) % 32;
    StaysMeans(sum, sum % 32, c, x, y, z);
  }

  lemma LongerIsProper(c: nat, d: nat, more: CString)
    requires c != d && Decimal(d) == Decimal(c) + more
    ensures more != []
  {
    ValueOfDecimal(c);
    ValueOfDecimal(d);
    assert Decimal(c) + [] == Decimal(c);
  }

  /** A four-digit count is its first digit followed by three more. */
  lemma FourDigitsSplit(c: nat, d: nat, more: CString) returns (x: nat, y: nat, z: nat)
    requires d < 10_000 && AllDigits(more) && |more| == 3 && Decimal(d) == Decimal(c) + more
    ensures 1 <= c < 10 && x < 10 && y < 10 && z < 10
    ensures more == [Digit(x), Digit(y), Digit(z)] && d == 1000 * c + 100 * x + 10 * y + z
  {
    assert Power10(4) == 10_000 && Power10(3) == 1000;
    DecimalLength(d, 4);
    var p := Decimal(c)[0];
    assert Decimal(c) == [p] && Decimal(d) == [p, more[0], more[1], more[2]];
    ValueOfDecimal(d);
    ValueOfDecimal(c);
    ValueOfFour(p, more[0], more[1], more[2]);
    assert ValueOf([p]) == p as int - 48 by {
      assert [p][..0] == [];
    }
    DecimalLower(d, 4);
    assert IsDigit(more[0]) && IsDigit(more[1]) && IsDigit(more[2]);
    x, y, z := more[0] as int - 48, more[1] as int - 48, more[2] as int - 48;
  }

  lemma BelowSeparates(instance: int, c: nat, d: nat)
    requires c != d && d < FirstCollision(instance) && Decimal(c) <= Decimal(d)
    ensures Bucket(BenchKey(instance, c)) != Bucket(BenchKey(instance, d))
  {
    FirstHasFourDigits(instance);
    var k := BenchKey(instance, c);
    var more := KeyWithLongerCount(instance, c, d);
    LongerIsProper(c, d, more);
    assert Power10(4) == 10_000;
    DecimalLength(d, 4);
    if |more| <= 2 {
      ShortSuffixMoves(k, more);
    } else {
      var x, y, z := FourDigitsSplit(c, d, more);
      ThreeDigitsMean(instance, c, x, y, z);
      NoneBelow(CharSum(FormatInt(instance)) % 32, 1, c, x, y, z);
    }
  }

  lemma FirstCollides(instance: int) returns (c: nat)
    ensures 1 <= c < 10 && BenchKey(instance, c) <= BenchKey(instance, FirstCollision(instance))
    ensures BenchKey(instance, c) != BenchKey(instance, FirstCollision(instance))
    ensures Bucket(BenchKey(instance, c)) == Bucket(BenchKey(instance, FirstCollision(instance)))
  {
    var r := CharSum(FormatInt(instance)) % 32;
    var good := SomeLeadWorks(r);
    var x, y, z;
    c, x, y, z := FirstIsAttained(r, 1, good);
    ThreeDigitsMean(instance, c, x, y, z);
    FourDigitDecimal(c, x, y, z);
    AppendAssociates(Head() + FormatInt(instance) + Middle(), Decimal(c), [Digit(x), Digit(y), Digit(z)]);
    assert BenchKey(instance, FirstCollision(instance)) == BenchKey(instance, c) + [Digit(x), Digit(y), Digit(z)];
  }

  lemma BelowIsPrefixFree(instance: int, limit: int)
    requires limit < FirstCollision(instance)
    ensures PrefixFree(KeysOf(instance, limit))
  {
    var keys := KeysOf(instance, limit);
    forall a, b | a in keys && b in keys && a != b && Bucket(a) == Bucket(b)
      ensures !(a <= b)
    {
      var c: int :| -1 <= c <= limit && a == BenchKey(instance, c);
      var d: int :| -1 <= d <= limit && b == BenchKey(instance, d);
      if a <= b {
        PrefixMeansPrefixOfCount(instance, c, instance, d);
        MinusOneIsNoPrefix(c, d);
        BelowSeparates(instance, c, d);
      }
    }
  }

  /** The keys of one instance that fit the key field. */
  ghost function FittingKeysOf(instance: int, limit: int): iset<CString> {
    iset k | k in KeysOf(instance, limit) && IsKey(k)
  }

  /** For every instance and every number of operations: its keys are prefix-free if and only
      if no count reaches the instance's first collision. */
  lemma InstancePrefixFreeIff(instance: int, limit: int)
    requires -0x8000_0000 <= instance < 0x8000_0000
    ensures PrefixFree(FittingKeysOf(instance, limit)) <==> limit < FirstCollision(instance)
  {
    if limit < FirstCollision(instance) {
      BelowIsPrefixFree(instance, limit);
    } else {
      var c := FirstCollides(instance);
      FirstHasFourDigits(instance);
      BenchKeyFits(instance, c);
      BenchKeyFits(instance, FirstCollision(instance));
      assert BenchKey(instance, c) in KeysOf(instance, limit);
      assert BenchKey(instance, FirstCollision(instance)) in KeysOf(instance, limit);
    }
  }

  /** Then, and only then, the store is a map and a register for that instance alone. */
  lemma InstanceStoreIff(instance: int, limit: int)
    requires -0x8000_0000 <= instance < 0x8000_0000
    ensures ActsAsMap(FittingKeysOf(instance, limit)) <==> limit < FirstCollision(instance)
    ensures AlwaysRegisters(FittingKeysOf(instance, limit)) <==> limit < FirstCollision(instance)
  {
    ActsAsMapIff(FittingKeysOf(instance, limit));
    AlwaysRegistersIff(FittingKeysOf(instance, limit));
    InstancePrefixFreeIff(instance, limit);
  }

  /** The single client of a default run collides first at count 1088. */
  lemma InstanceZero()
    ensures FirstCollision(0) == 1088
  {
    SumOne([], 48);
    assert FormatInt(0) == [] + [48];
    assert Need(16, 1) == 8;
  }
}
