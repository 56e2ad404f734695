/** Byte strings, their exclusive-or, and big-endian integers. */
module Bytes {
  type Byte = bv8
  type ByteString = seq<Byte>

  /** xorBytes over operands of one length. */
  function Xor(a: ByteString, b: ByteString): (r: ByteString)
    requires |a| == |b|
  {
    seq(|a|, i requires 0 <= i < |a| => a[i] ^ b[i])
  }

  lemma XorCancels(a: ByteString, b: ByteString)
    requires |a| == |b|
    ensures Xor(Xor(a, b), b) == a
  {
    var x := Xor(Xor(a, b), b);
    forall i | 0 <= i < |a| ensures x[i] == a[i] {
      assert x[i] == (a[i] ^ b[i]) ^ b[i];
    }
  }

  function Zeros(n: nat): (r: ByteString)
    ensures |r| == n
  {
    seq(n, _ => 0 as Byte)
  }

  function Pow256(k: nat): (p: nat)
    ensures p >= 1
  {
    if k == 0 then 1 else 256 * Pow256(k - 1)
  }

  function Bit(b: bool): Byte {
    if b then 1 else 0
  }

  function AppendBit(x: Byte, b: bool): Byte {
    (x << 1) | Bit(b)
  }

  /** The k low-order bits of n as a byte (k <= 8); uint8(n) for k = 8. */
  function LowBits(n: nat, k: nat): (b: Byte)
    requires k <= 8
  {
    if k == 0 then 0 else AppendBit(LowBits(n / 2, k - 1), n % 2 == 1)
  }

  function Pow2(k: nat): (p: nat)
    ensures p >= 1
  {
    if k == 0 then 1 else 2 * Pow2(k - 1)
  }

  function LowMask(k: nat): (m: Byte)
    requires k <= 7
    ensures m <= 127
  {
    if k == 0 then 0 else if k == 1 then 1 else if k == 2 then 3 else if k == 3 then 7
    else if k == 4 then 15 else if k == 5 then 31 else if k == 6 then 63 else 127
  }

  lemma {:induction false} LowBitsBounded(n: nat, k: nat)
    requires k <= 7
    ensures LowBits(n, k) <= LowMask(k)
  {
    if k > 0 {
      LowBitsBounded(n / 2, k - 1);
    }
  }

  lemma AppendBitInjective(x: Byte, y: Byte, b: bool, c: bool)
    requires x <= 127 && y <= 127
    requires AppendBit(x, b) == AppendBit(y, c)
    ensures x == y && b == c
  {
  }

  lemma {:induction false} LowBitsInjective(n: nat, m: nat, k: nat)
    requires k <= 8 && n < Pow2(k) && m < Pow2(k)
    requires LowBits(n, k) == LowBits(m, k)
    ensures n == m
  {
    if k > 0 {
      LowBitsBounded(n / 2, k - 1);
      LowBitsBounded(m / 2, k - 1);
      AppendBitInjective(LowBits(n / 2, k - 1), LowBits(m / 2, k - 1), n % 2 == 1, m % 2 == 1);
      LowBitsInjective(n / 2, m / 2, k - 1);
    }
  }

  /** The k low-order bytes of n, most significant first. */
  function BigEndian(n: nat, k: nat): (r: ByteString)
    ensures |r| == k
  {
    if k == 0 then [] else BigEndian(n / 256, k - 1) + [LowBits(n % 256, 8)]
  }

  /** binary.BigEndian.PutUint64; n is reduced modulo 2^64 as a uint64 is. */
  function BE64(n: nat): (r: ByteString)
    ensures |r| == 8
  {
    seq(8, i requires 0 <= i < 8 => BigEndian(n, 8)[i])
  }

  lemma BE64Injective(n: nat, m: nat)
    requires n < Pow256(8) && m < Pow256(8)
    requires BE64(n) == BE64(m)
    ensures n == m
  {
    var x, y := BigEndian(n, 8), BigEndian(m, 8);
    forall i | 0 <= i < 8 ensures x[i] == y[i] {
      assert BE64(n)[i] == BE64(m)[i];
    }
    BigEndianInjective(n, m, 8);
  }

  lemma {:induction false} BigEndianInjective(n: nat, m: nat, k: nat)
    requires n < Pow256(k) && m < Pow256(k)
    requires BigEndian(n, k) == BigEndian(m, k)
    ensures n == m
  {
    if k > 0 {
      var x, y := BigEndian(n, k), BigEndian(m, k);
      assert x[..k - 1] == BigEndian(n / 256, k - 1) && y[..k - 1] == BigEndian(m / 256, k - 1);
      BigEndianInjective(n / 256, m / 256, k - 1);
      assert x[k - 1] == LowBits(n % 256, 8) && y[k - 1] == LowBits(m % 256, 8);
      LowBitsInjective(n % 256, m % 256, 8);
    }
  }

  // ---- What the bytes mean ----

  /** The number a byte string denotes, most significant byte first: the sum of its bytes times their weights. */
  function BigEndianNumber(b: ByteString): (n: nat) {
    if b == [] then 0 else (b[0] as int) * Pow256(|b| - 1) + BigEndianNumber(b[1..])
  }

  lemma {:induction false} NumberOfAppend(b: ByteString, x: Byte)
    ensures BigEndianNumber(b + [x]) == 256 * BigEndianNumber(b) + x as int
  {
    if b == [] {
      assert [x][1..] == [];
    } else {
      assert (b + [x])[1..] == b[1..] + [x];
      NumberOfAppend(b[1..], x);
      Factor(b[0] as int, Pow256(|b| - 1), BigEndianNumber(b[1..]), x as int);
    }
  }

  lemma Factor(d: nat, p: nat, n: nat, x: nat)
    ensures d * (256 * p) + (256 * n + x) == 256 * (d * p + n) + x
  {
  }

  lemma {:induction false} NumberBound(b: ByteString)
    ensures BigEndianNumber(b) < Pow256(|b|)
  {
    if b != [] {
      NumberBound(b[1..]);
      Carries(b[0] as int, Pow256(|b| - 1), BigEndianNumber(b[1..]));
    }
  }

  lemma Carries(d: nat, p: nat, n: nat)
    requires d <= 255 && n < p
    ensures d * p + n < 256 * p
  {
    assert d * p <= 255 * p;
  }

  lemma ShiftValue(x: Byte, b: bool)
    requires x <= 127
    ensures AppendBit(x, b) as int == 2 * (x as int) + if b then 1 else 0
  {
  }

  /** Splitting off the low digit in base m splits the remainder accordingly. */
  lemma LowDigit(n: nat, m: nat, p: nat)
    requires m > 0 && p > 0
    ensures m * p > 0 && n % (m * p) == m * ((n / m) % p) + n % m
  {
    DivisionIs(n, m);
    DivisionIs(n / m, p);
    TwoDigits(n, m, p, n / m, n % m, (n / m) / p, (n / m) % p);
  }

  lemma DivisionIs(n: nat, m: nat)
    requires m > 0
    ensures n == (n / m) * m + n % m && n % m < m
  {
  }

  lemma TwoDigits(n: nat, m: nat, p: nat, q: nat, d: nat, a: nat, r: nat)
    requires n == q * m + d && q == a * p + r && d < m && r < p
    ensures m * p > 0 && n % (m * p) == m * r + d
  {
    Regroup(a, p, r, m, d);
    Below(m, p, r, d);
    RemainderIs(n, m * p, a, m * r + d);
  }

  lemma Regroup(a: nat, p: nat, r: nat, m: nat, d: nat)
    ensures (a * p + r) * m + d == a * (m * p) + (m * r + d)
  {
    DistributeSum(a * p, r, m);
    Rotate(a, p, m);
  }

  lemma DistributeSum(x: nat, y: nat, m: nat)
    ensures (x + y) * m == x * m + m * y
  {
  }

  lemma Rotate(a: nat, p: nat, m: nat)
    ensures (a * p) * m == a * (m * p)
  {
  }

  lemma Below(m: nat, p: nat, r: nat, d: nat)
    requires r < p && d < m
    ensures 0 <= m * r + d < m * p
  {
    assert m * (r + 1) <= m * p;
  }

  lemma RemainderIs(n: nat, d: nat, q: nat, r: nat)
    requires r < d && n == q * d + r
    ensures n % d == r
  {
    SameQuotient(q, r, n / d, n % d, d);
  }

  lemma SameQuotient(q: nat, r: nat, q': nat, r': nat, d: nat)
    requires r < d && r' < d && q * d + r == q' * d + r'
    ensures r == r'
  {
    if q < q' {
      AtLeastOne(q' - q, d);
      Distribute(q', q, d);
    } else if q' < q {
      AtLeastOne(q - q', d);
      Distribute(q, q', d);
    }
  }

  lemma AtLeastOne(x: nat, d: nat)
    requires x > 0
    ensures x * d >= d
  {
  }

  lemma Distribute(x: nat, y: nat, d: nat)
    ensures (x - y) * d == x * d - y * d
  {
  }

  lemma LowBitsStep(n: nat, k: nat)
    requires 0 < k <= 8 && LowBits(n / 2, k - 1) as int == (n / 2) % Pow2(k - 1)
    ensures LowBits(n, k) as int == 2 * ((n / 2) % Pow2(k - 1)) + n % 2
  {
    var x, b := LowBits(n / 2, k - 1), n % 2 == 1;
    LowBitsBounded(n / 2, k - 1);
    assert LowBits(n, k) == AppendBit(x, b);
    hide LowBits, LowMask, AppendBit;
    ShiftValue(x, b);
  }

  lemma {:induction false} LowBitsValue(n: nat, k: nat)
    requires k <= 8
    ensures LowBits(n, k) as int == n % Pow2(k)
  {
    if k > 0 {
      LowBitsValue(n / 2, k - 1);
      LowBitsStep(n, k);
      hide LowBits;
      LowDigit(n, 2, Pow2(k - 1));
    }
  }

  /** The k low-order bytes of n denote n modulo 256^k. */
  lemma {:induction false} BigEndianValue(n: nat, k: nat)
    ensures BigEndianNumber(BigEndian(n, k)) == n % Pow256(k)
  {
    if k > 0 {
      var rest := BigEndian(n / 256, k - 1);
      BigEndianValue(n / 256, k - 1);
      LowByte(n % 256);
      hide BigEndianNumber, LowBits;
      NumberOfAppend(rest, LowBits(n % 256, 8));
      LowDigit(n, 256, Pow256(k - 1));
    }
  }

  lemma LowByte(n: nat)
    requires n < 256
    ensures LowBits(n, 8) as int == n
  {
    hide LowBits;
    LowBitsValue(n, 8);
    assert Pow2(8) == 256;
  }

  /** So BE64 puts a uint64 with its most significant byte first. */
  lemma BE64Value(n: nat)
    ensures BigEndianNumber(BE64(n)) == n % Pow256(8) && Pow256(8) == 0x1_0000_0000_0000_0000
  {
    assert BE64(n) == BigEndian(n, 8);
    BigEndianValue(n, 8);
  }
}
