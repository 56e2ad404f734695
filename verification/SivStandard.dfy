/** The parts of AES-SIV and CMAC against the words of their standards. */
module SivStandard {
  import opened Bytes
  import opened BlockCiphers
  import opened Siv

  // ---- CMAC: sections 2.3 and 2.4 of RFC 4493 ----

  /** 10* padding: the bytes, one 0x80, and zeros. */
  ghost predicate IsPadded(m: ByteString, p: ByteString) {
    && |m| < BLOCK_SIZE && |p| == BLOCK_SIZE && p[..|m|] == m && p[|m|] == 0x80
    && forall i :: |m| < i < BLOCK_SIZE ==> p[i] == 0
  }

  lemma PadPads(m: ByteString)
    requires |m| < BLOCK_SIZE
    ensures IsPadded(m, Pad(m))
  {
  }

  /** k1 is the field double of the encrypted zero block, and k2 that of k1. */
  ghost predicate AreSubkeys(c: BlockCipher, k1: Block, k2: Block)
    requires c.IsPermutation()
  {
    IsFieldDouble(c.Encrypt(Zeros(BLOCK_SIZE)), k1) && IsFieldDouble(k1, k2)
  }

  lemma SubkeysExist(c: BlockCipher) returns (k1: Block, k2: Block)
    requires c.IsPermutation()
    ensures AreSubkeys(c, k1, k2)
  {
    hide Dbl, IsFieldDouble;
    k1, k2 := Subkey1(c), Subkey2(c);
    DblIsFieldDoubling(c.Encrypt(Zeros(BLOCK_SIZE)));
    DblIsFieldDoubling(k1);
  }

  lemma SubkeysUnique(c: BlockCipher, k1: Block, k2: Block)
    requires c.IsPermutation() && AreSubkeys(c, k1, k2)
    ensures k1 == Subkey1(c) && k2 == Subkey2(c)
  {
    hide Dbl, IsFieldDouble;
    FieldDoubleUnique(c.Encrypt(Zeros(BLOCK_SIZE)), k1);
    FieldDoubleUnique(k1, k2);
  }

  /** The last block: a complete one under the first subkey, a padded one under the second. */
  ghost predicate IsLastBlock(last: ByteString, k1: Block, k2: Block, b: Block) {
    if |last| == BLOCK_SIZE then b == Xor(last, k1)
    else |last| < BLOCK_SIZE && exists p: Block :: IsPadded(last, p) && b == Xor(p, k2)
  }

  lemma LastBlockIsMasked(c: BlockCipher, last: ByteString, k1: Block, k2: Block)
    requires c.IsPermutation() && AreSubkeys(c, k1, k2) && |last| <= BLOCK_SIZE
    ensures IsLastBlock(last, k1, k2, LastBlock(c, last))
  {
    hide Dbl, IsFieldDouble;
    SubkeysUnique(c, k1, k2);
    if |last| < BLOCK_SIZE {
      PadPads(last);
    }
  }

  /** xs is the CBC chain from xs[0] over m: all blocks but the last as they are, the last one masked. */
  ghost predicate IsChain(c: BlockCipher, m: ByteString, k1: Block, k2: Block, xs: seq<Block>)
    requires c.IsPermutation()
  {
    var n := |xs| - 2;
    && n >= 0 && BLOCK_SIZE * n <= |m| <= BLOCK_SIZE * (n + 1) && (n > 0 ==> BLOCK_SIZE * n < |m|)
    && (forall i :: 0 <= i < n ==> xs[i + 1] == c.Encrypt(Xor(m[BLOCK_SIZE * i..BLOCK_SIZE * i + BLOCK_SIZE], xs[i])))
    && exists b: Block :: IsLastBlock(m[BLOCK_SIZE * n..], k1, k2, b) && xs[n + 1] == c.Encrypt(Xor(b, xs[n]))
  }

  lemma {:induction false} ChainFrom(c: BlockCipher, x: Block, m: ByteString, k1: Block, k2: Block)
    returns (xs: seq<Block>)
    requires c.IsPermutation() && AreSubkeys(c, k1, k2)
    ensures IsChain(c, m, k1, k2, xs) && xs[0] == x && xs[|xs| - 1] == CmacFrom(c, x, m)
    decreases |m|
  {
    hide IsFieldDouble, IsLastBlock, LastBlock, AreSubkeys;
    if |m| <= BLOCK_SIZE {
      xs := [x, CmacFrom(c, x, m)];
      LastBlockIsMasked(c, m, k1, k2);
      assert m[BLOCK_SIZE * 0..] == m;
    } else {
      var y := c.Encrypt(Xor(m[..BLOCK_SIZE], x));
      var rest := m[BLOCK_SIZE..];
      var ys := ChainFrom(c, y, rest, k1, k2);
      xs := [x] + ys;
      ChainLonger(c, x, m, k1, k2, ys);
    }
  }

  lemma ChainLonger(c: BlockCipher, x: Block, m: ByteString, k1: Block, k2: Block, ys: seq<Block>)
    requires c.IsPermutation() && |m| > BLOCK_SIZE && IsChain(c, m[BLOCK_SIZE..], k1, k2, ys)
    requires ys[0] == c.Encrypt(Xor(m[..BLOCK_SIZE], x))
    ensures IsChain(c, m, k1, k2, [x] + ys)
  {
    hide IsLastBlock;
    var xs, rest := [x] + ys, m[BLOCK_SIZE..];
    var n := |ys| - 2;
    assert m[BLOCK_SIZE * (n + 1)..] == rest[BLOCK_SIZE * n..];
    forall i | 0 <= i < n + 1
      ensures xs[i + 1] == c.Encrypt(Xor(m[BLOCK_SIZE * i..BLOCK_SIZE * i + BLOCK_SIZE], xs[i]))
    {
      if i > 0 {
        BlockOfRest(m, BLOCK_SIZE * (i - 1));
        assert ys[i] == c.Encrypt(Xor(rest[BLOCK_SIZE * (i - 1)..BLOCK_SIZE * (i - 1) + BLOCK_SIZE], ys[i - 1]));
      }
    }
  }

  lemma BlockOfRest(m: ByteString, at: nat)
    requires at + 2 * BLOCK_SIZE <= |m|
    ensures m[BLOCK_SIZE..][at..at + BLOCK_SIZE] == m[at + BLOCK_SIZE..at + BLOCK_SIZE + BLOCK_SIZE]
  {
  }

  /** CMAC is the end of the chain that starts at the zero block, under the subkeys the standard defines. */
  lemma CmacMeetsStandard(c: BlockCipher, m: ByteString, k1: Block, k2: Block) returns (xs: seq<Block>)
    requires c.IsPermutation() && AreSubkeys(c, k1, k2)
    ensures IsChain(c, m, k1, k2, xs) && xs[0] == Zeros(BLOCK_SIZE) && xs[|xs| - 1] == Cmac(c, m)
  {
    hide IsChain, AreSubkeys, CmacFrom;
    xs := ChainFrom(c, Zeros(BLOCK_SIZE), m, k1, k2);
  }

  // ---- S2V of section 2.4 of RFC 5297, for one associated string and a plaintext ----

  /**
   * d is the double of CMAC(zero block) plus CMAC(ad). A plaintext of a block or more has d added to its last
   * block; a shorter one is padded and has the double of d added.
   */
  lemma S2vMeetsStandard(c: BlockCipher, ad: ByteString, plaintext: ByteString, z: Block, d: Block, dd: Block, p: Block)
    requires c.IsPermutation() && IsFieldDouble(Cmac(c, Zeros(BLOCK_SIZE)), z)
    requires d == Xor(z, Cmac(c, ad)) && IsFieldDouble(d, dd)
    requires |plaintext| < BLOCK_SIZE ==> IsPadded(plaintext, p)
    ensures var k := |plaintext| - BLOCK_SIZE;
            S2v(c, [ad, plaintext]) == if k >= 0 then Cmac(c, plaintext[..k] + Xor(plaintext[k..], d))
                                       else Cmac(c, Xor(p, dd))
  {
    hide Dbl, IsFieldDouble, Cmac, S2v;
    FieldDoubleUnique(Cmac(c, Zeros(BLOCK_SIZE)), z);
    FieldDoubleUnique(d, dd);
    S2vOfTwo(c, ad, plaintext, [ad, plaintext], d);
    if |plaintext| < BLOCK_SIZE {
      PaddingUnique(plaintext, p);
    }
  }

  lemma PaddingUnique(m: ByteString, p: ByteString)
    requires IsPadded(m, p)
    ensures p == Pad(m)
  {
    PadPads(m);
    forall i | 0 <= i < BLOCK_SIZE ensures p[i] == Pad(m)[i] {
      if i < |m| {
        assert p[..|m|][i] == p[i] && Pad(m)[..|m|][i] == Pad(m)[i];
      }
    }
  }

  // ---- The counter of sections 2.6 and 2.7 of RFC 5297 ----

  /** The counter starts at the tag with bits 31 and 63 cleared. */
  lemma CtrStartClearsTwoBits(siv: Block, i: nat)
    requires i < 128
    ensures Coefficient(CtrStart(siv), i) == (Coefficient(siv, i) && i != 31 && i != 63)
  {
    hide BitAt;
    var j := 15 - i / 8;
    CtrStartBytes(siv, j);
    MaskClearsTop(siv[j], i % 8);
  }

  lemma CtrStartBytes(siv: Block, j: nat)
    requires j < 16
    ensures CtrStart(siv)[j] == if j == 8 || j == 12 then siv[j] & 0x7F else siv[j]
  {
  }

  lemma MaskClearsTop(b: Byte, k: nat)
    requires k < 8
    ensures BitAt(b & 0x7F, k) == (BitAt(b, k) && k != 7)
  {
  }

  lemma NextByte(x: Byte)
    ensures x == 0xFF ==> x as int == 255
    ensures x != 0xFF ==> (x + 1) as int == x as int + 1
    ensures (0 as Byte) as int == 0
  {
  }

  lemma IncrementLast(front: ByteString, x: Byte)
    ensures Increment(front + [x]) == if x == 0xFF then Increment(front) + [0] else front + [x + 1]
  {
    var iv := front + [x];
    assert iv != [] && iv[..|iv| - 1] == front;
  }

  lemma StepWithCarry(n: nat, p: nat)
    requires p > 0
    ensures 256 * p > 0 && 256 * ((n + 1) % p) == (256 * n + 256) % (256 * p)
  {
    LowDigit(256 * (n + 1), 256, p);
  }

  lemma PowStep(k: nat)
    ensures Pow256(k + 1) == 256 * Pow256(k)
  {
  }

  /** A step adds one to the number the counter block denotes, modulo 256 to its length. */
  lemma {:induction false} IncrementCounts(iv: ByteString)
    ensures BigEndianNumber(Increment(iv)) == (BigEndianNumber(iv) + 1) % Pow256(|iv|)
  {
    hide BigEndianNumber, Pow256, Increment;
    if iv == [] {
      EmptyCounts(iv);
    } else {
      var front, x := iv[..|iv| - 1], iv[|iv| - 1];
      assert iv == front + [x];
      IncrementLast(front, x);
      if x == 0xFF {
        IncrementCounts(front);
        CarryCounts(front);
      } else {
        NextByte(x);
        NoCarryCounts(front, x, x + 1);
      }
    }
  }

  lemma CarryCounts(front: ByteString)
    requires BigEndianNumber(Increment(front)) == (BigEndianNumber(front) + 1) % Pow256(|front|)
    ensures BigEndianNumber(Increment(front) + [0])
         == (BigEndianNumber(front + [0xFF]) + 1) % Pow256(|front| + 1)
  {
    hide BigEndianNumber, Pow256, Increment;
    NextByte(0xFF);
    NumberOfAppend(Increment(front), 0);
    NumberOfAppend(front, 0xFF);
    PowStep(|front|);
    StepWithCarry(BigEndianNumber(front), Pow256(|front|));
  }

  lemma NoCarryCounts(front: ByteString, x: Byte, y: Byte)
    requires y as int == x as int + 1
    ensures BigEndianNumber(front + [y]) == (BigEndianNumber(front + [x]) + 1) % Pow256(|front| + 1)
  {
    hide BigEndianNumber, Pow256;
    NumberOfAppend(front, x);
    NumberOfAppend(front, y);
    NumberBound(front + [y]);
    OwnRemainder(BigEndianNumber(front + [y]), Pow256(|front| + 1));
  }

  lemma OwnRemainder(n: nat, p: nat)
    requires n < p
    ensures n % p == n
  {
  }

  lemma EmptyCounts(iv: ByteString)
    requires iv == []
    ensures Increment(iv) == [] && BigEndianNumber(iv) == 0 && Pow256(|iv|) == 1
  {
  }

  function CounterBlock(iv: Block, k: nat): (b: Block) {
    if k == 0 then iv else Increment(CounterBlock(iv, k - 1))
  }

  lemma {:induction false} CounterBlockCounts(iv: Block, k: nat)
    ensures BigEndianNumber(CounterBlock(iv, k)) == (BigEndianNumber(iv) + k) % Pow256(BLOCK_SIZE)
  {
    hide BigEndianNumber, Pow256, Increment;
    if k == 0 {
      NumberBound(iv);
    } else {
      CounterBlockCounts(iv, k - 1);
      IncrementCounts(CounterBlock(iv, k - 1));
      OneMore(BigEndianNumber(iv) + k - 1, Pow256(BLOCK_SIZE));
    }
  }

  lemma OneMore(n: nat, p: nat)
    requires p > 0
    ensures (n % p + 1) % p == (n + 1) % p
  {
    if n % p + 1 < p {
      RemainderIs(n + 1, p, n / p, n % p + 1);
    } else {
      RemainderIs(n + 1, p, n / p + 1, 0);
    }
  }

  lemma {:induction false} CounterBlockShift(iv: Block, k: nat)
    ensures CounterBlock(Increment(iv), k) == CounterBlock(iv, k + 1)
  {
    if k > 0 {
      CounterBlockShift(iv, k - 1);
    }
  }

  /** Byte j of the output is byte j of the input plus byte j % 16 of the encryption of counter j / 16. */
  lemma {:induction false} CtrKeyStream(c: BlockCipher, iv: Block, p: ByteString, j: nat)
    requires c.IsPermutation() && j < |p|
    ensures Ctr(c, iv, p)[j] == p[j] ^ c.Encrypt(CounterBlock(iv, j / BLOCK_SIZE))[j % BLOCK_SIZE]
    decreases |p|
  {
    hide Increment;
    if j >= BLOCK_SIZE {
      var rest := p[BLOCK_SIZE..];
      CtrKeyStream(c, Increment(iv), rest, j - BLOCK_SIZE);
      CounterBlockShift(iv, (j - BLOCK_SIZE) / BLOCK_SIZE);
      assert (j - BLOCK_SIZE) / BLOCK_SIZE + 1 == j / BLOCK_SIZE && (j - BLOCK_SIZE) % BLOCK_SIZE == j % BLOCK_SIZE;
    }
  }

  /**
   * Encrypted data is the tag, then the plaintext under the key stream of the other key that starts at the tag
   * with two bits cleared.
   */
  lemma SealedMeetsStandard(mac: BlockCipher, enc: BlockCipher, plaintext: ByteString, ad: ByteString, j: nat)
    requires mac.IsPermutation() && enc.IsPermutation() && j < |plaintext|
    ensures var out := Sealed(mac, enc, plaintext, ad);
            var tag := S2v(mac, [ad, plaintext]);
            && |out| == 16 + |plaintext| && out[..16] == tag
            && out[16 + j] == plaintext[j] ^ enc.Encrypt(CounterBlock(CtrStart(tag), j / 16))[j % 16]
  {
    hide S2v, Ctr, CtrStart, CounterBlock;
    CtrKeyStream(enc, CtrStart(S2v(mac, [ad, plaintext])), plaintext, j);
  }
}
