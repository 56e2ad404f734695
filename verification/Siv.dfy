/** AES-CMAC, S2V and AES-SIV (internal/crypto/filename.go), over arbitrary block permutations. */
module Siv {
  import opened Bytes
  import opened BlockCiphers
  import opened Wrappers

  datatype SivError = TooShort | AuthenticationFailed

  type Block = b: ByteString | |b| == BLOCK_SIZE witness Zeros(16)

  // ---- dbl, and doubling in GF(2^128) ----

  /** Bit k of a byte, k = 0 the least significant. */
  predicate BitAt(b: Byte, k: nat)
    requires k < 8
  {
    var mask: Byte :=
      if k == 0 then 0x01 else if k == 1 then 0x02 else if k == 2 then 0x04 else if k == 3 then 0x08
      else if k == 4 then 0x10 else if k == 5 then 0x20 else if k == 6 then 0x40 else 0x80;
    b & mask != 0
  }

  /** The coefficient of z^i in the polynomial a big-endian block denotes. */
  predicate Coefficient(x: ByteString, i: nat)
    requires i < 8 * |x|
  {
    BitAt(x[|x| - 1 - i / 8], i % 8)
  }

  /** y = z * x modulo z^128 + z^7 + z^2 + z + 1, coefficient by coefficient. */
  ghost predicate IsFieldDouble(x: Block, y: Block) {
    forall i :: 0 <= i < 128 ==>
      Coefficient(y, i) == ((i > 0 && Coefficient(x, i - 1)) != (Coefficient(x, 127) && i in {0, 1, 2, 7}))
  }

  /** The byte left-shifted by one with the carry of its right neighbour. */
  function ShiftedByte(x: ByteString, i: nat): (b: Byte)
    requires i < |x|
  {
    (x[i] << 1) | (if i + 1 < |x| then x[i + 1] >> 7 else 0)
  }

  function Dbl(x: ByteString): (y: ByteString)
    requires x != []
    ensures |y| == |x|
  {
    var s := seq(|x|, i requires 0 <= i < |x| => ShiftedByte(x, i));
    if x[0] & 0x80 != 0 then s[|x| - 1 := s[|x| - 1] ^ 0x87] else s
  }

  lemma ShiftMovesBits(b: Byte, c: Byte, k: nat)
    requires k < 8 && c <= 1
    ensures BitAt((b << 1) | c, k) == if k == 0 then c == 1 else BitAt(b, k - 1)
  {
    if k == 0 {
    } else if k == 1 {
    } else if k == 2 {
    } else if k == 3 {
    } else if k == 4 {
    } else if k == 5 {
    } else if k == 6 {
    } else {
    }
  }

  lemma TopBit(b: Byte)
    ensures b >> 7 <= 1 && (b >> 7 == 1 <==> BitAt(b, 7))
  {
  }

  lemma ReductionBits(b: Byte, k: nat)
    requires k < 8
    ensures BitAt(b ^ 0x87, k) == (BitAt(b, k) != (k in {0, 1, 2, 7}))
  {
    if k == 0 {
    } else if k == 1 {
    } else if k == 2 {
    } else if k == 3 {
    } else if k == 4 {
    } else if k == 5 {
    } else if k == 6 {
    } else {
    }
  }

  lemma ShiftedByteBits(x: Block, j: nat, k: nat)
    requires j < 16 && k < 8
    ensures BitAt(ShiftedByte(x, j), k) ==
            if k > 0 then BitAt(x[j], k - 1) else j + 1 < 16 && BitAt(x[j + 1], 7)
  {
    if j + 1 < 16 {
      TopBit(x[j + 1]);
      ShiftMovesBits(x[j], x[j + 1] >> 7, k);
    } else {
      ShiftMovesBits(x[j], 0, k);
    }
  }

  lemma DblBits(x: Block, j: nat, k: nat)
    requires j < 16 && k < 8
    ensures BitAt(Dbl(x)[j], k) ==
            (BitAt(ShiftedByte(x, j), k) != (BitAt(x[0], 7) && j == 15 && k in {0, 1, 2, 7}))
  {
    TopBit(x[0]);
    ReductionBits(ShiftedByte(x, j), k);
  }

  lemma DblCoefficient(x: Block, i: nat)
    requires i < 128
    ensures Coefficient(Dbl(x), i) ==
            ((i > 0 && Coefficient(x, i - 1)) != (Coefficient(x, 127) && i in {0, 1, 2, 7}))
  {
    var j, k := 15 - i / 8, i % 8;
    DblBits(x, j, k);
    ShiftedByteBits(x, j, k);
    if k > 0 {
      assert (i - 1) / 8 == i / 8 && (i - 1) % 8 == k - 1;
    } else if i > 0 {
      assert (i - 1) / 8 == i / 8 - 1 && (i - 1) % 8 == 7;
    }
    assert j == 15 <==> i == k;
  }

  /** dbl is multiplication by z in GF(2^128). */
  lemma DblIsFieldDoubling(x: Block)
    ensures IsFieldDouble(x, Dbl(x))
  {
    forall i | 0 <= i < 128
      ensures Coefficient(Dbl(x), i) == ((i > 0 && Coefficient(x, i - 1)) != (Coefficient(x, 127) && i in {0, 1, 2, 7}))
    {
      DblCoefficient(x, i);
    }
  }

  lemma BitsDetermineByte(b: Byte, c: Byte)
    requires forall k :: 0 <= k < 8 ==> BitAt(b, k) == BitAt(c, k)
    ensures b == c
  {
    assert BitAt(b, 0) == BitAt(c, 0) && BitAt(b, 1) == BitAt(c, 1);
    assert BitAt(b, 2) == BitAt(c, 2) && BitAt(b, 3) == BitAt(c, 3);
    assert BitAt(b, 4) == BitAt(c, 4) && BitAt(b, 5) == BitAt(c, 5);
    assert BitAt(b, 6) == BitAt(c, 6) && BitAt(b, 7) == BitAt(c, 7);
  }

  /** The field fixes the double, so dbl is the only function with that property. */
  lemma FieldDoubleUnique(x: Block, y: Block)
    requires IsFieldDouble(x, y)
    ensures y == Dbl(x)
  {
    var z := Dbl(x);
    DblIsFieldDoubling(x);
    forall j | 0 <= j < 16 ensures y[j] == z[j] {
      forall k | 0 <= k < 8 ensures BitAt(y[j], k) == BitAt(z[j], k) {
        var i := 8 * (15 - j) + k;
        assert i / 8 == 15 - j && i % 8 == k;
        assert Coefficient(y, i) == Coefficient(z, i);
      }
      BitsDetermineByte(y[j], z[j]);
    }
  }

  /** The carry loop of dbl. */
  method DblLoop(data: ByteString) returns (out: ByteString)
    requires data != []
    ensures out == Dbl(data)
  {
    var buf := new Byte[|data|](_ => 0);
    var carry: Byte := 0;
    var i := |data| - 1;
    while i >= 0
      invariant -1 <= i < |data|
      invariant carry == if i + 1 < |data| then data[i + 1] >> 7 else 0
      invariant forall m :: i < m < |data| ==> buf[m] == ShiftedByte(data, m)
    {
      buf[i] := (data[i] << 1) | carry;
      carry := data[i] >> 7;
      i := i - 1;
    }
    if data[0] & 0x80 != 0 {
      buf[|data| - 1] := buf[|data| - 1] ^ 0x87;
    }
    out := buf[..];
  }

  // ---- AES-CMAC: sections 2.3 and 2.4 of RFC 4493 ----

  function Subkey1(c: BlockCipher): (k: Block)
    requires c.IsPermutation()
  {
    Dbl(c.Encrypt(Zeros(BLOCK_SIZE)))
  }

  function Subkey2(c: BlockCipher): (k: Block)
    requires c.IsPermutation()
  {
    Dbl(Subkey1(c))
  }

  /** pad: the 10* padding of a short last block. */
  function Pad(m: ByteString): (p: Block)
    requires |m| < BLOCK_SIZE
  {
    m + [0x80] + Zeros(15 - |m|)
  }

  function LastBlock(c: BlockCipher, m: ByteString): (b: Block)
    requires c.IsPermutation() && |m| <= BLOCK_SIZE
  {
    if |m| == BLOCK_SIZE then Xor(m, Subkey1(c)) else Xor(Pad(m), Subkey2(c))
  }

  /** The CBC chain from state x over the blocks of m, the last one masked. */
  function CmacFrom(c: BlockCipher, x: Block, m: ByteString): (t: Block)
    requires c.IsPermutation()
    decreases |m|
  {
    if |m| <= BLOCK_SIZE then c.Encrypt(Xor(LastBlock(c, m), x))
    else CmacFrom(c, c.Encrypt(Xor(m[..BLOCK_SIZE], x)), m[BLOCK_SIZE..])
  }

  function Cmac(c: BlockCipher, m: ByteString): (t: Block)
    requires c.IsPermutation()
  {
    CmacFrom(c, Zeros(BLOCK_SIZE), m)
  }

  /** xorBytes: dst[i] ^= src[i] over the common prefix, in place. */
  method XorBytes(dst: array<Byte>, src: ByteString)
    modifies dst
    ensures forall i :: 0 <= i < dst.Length && i < |src| ==> dst[i] == old(dst[i]) ^ src[i]
    ensures forall i :: |src| <= i < dst.Length ==> dst[i] == old(dst[i])
    ensures |src| == dst.Length ==> dst[..] == Xor(old(dst[..]), src)
  {
    var i := 0;
    while i < dst.Length && i < |src|
      invariant 0 <= i <= dst.Length && i <= |src|
      invariant forall m :: 0 <= m < i ==> dst[m] == old(dst[m]) ^ src[m]
      invariant forall m :: i <= m < dst.Length ==> dst[m] == old(dst[m])
    {
      dst[i] := dst[i] ^ src[i];
      i := i + 1;
    }
  }

  /** copy(dst, src) into a zeroed block. */
  method CopyToBlock(src: ByteString) returns (dst: array<Byte>)
    ensures fresh(dst) && dst.Length == BLOCK_SIZE
    ensures |src| >= BLOCK_SIZE ==> dst[..] == src[..BLOCK_SIZE]
    ensures |src| <= BLOCK_SIZE ==> dst[..] == src + Zeros(BLOCK_SIZE - |src|)
  {
    dst := new Byte[16](i => if 0 <= i < |src| then src[i] else 0);
  }

  method GenerateSubkeys(c: BlockCipher) returns (k1: ByteString, k2: ByteString)
    requires c.IsPermutation()
    ensures k1 == Subkey1(c) && k2 == Subkey2(c)
  {
    var l := c.Encrypt(Zeros(BLOCK_SIZE));
    k1 := DblLoop(l);
    k2 := DblLoop(k1);
  }

  /** The masked last block, built from the tail data[start..]. */
  method BuildLastBlock(c: BlockCipher, tail: ByteString, complete: bool, k1: ByteString, k2: ByteString)
    returns (last: array<Byte>)
    requires c.IsPermutation() && k1 == Subkey1(c) && k2 == Subkey2(c)
    requires |tail| <= BLOCK_SIZE && (complete <==> |tail| == BLOCK_SIZE)
    ensures fresh(last) && last.Length == BLOCK_SIZE && last[..] == LastBlock(c, tail)
  {
    last := CopyToBlock(tail);
    if complete {
      assert tail[..BLOCK_SIZE] == tail;
      XorBytes(last, k1);
    } else {
      last[|tail|] := 0x80;
      assert last[..] == Pad(tail);
      XorBytes(last, k2);
    }
  }

  /** The last of the n = max(1, ceil(len/16)) blocks starts at 16(n-1) and is full iff 16 divides len > 0. */
  lemma LastBlockStart(len: nat, n: nat)
    requires n == if len == 0 then 1 else (len + 15) / 16
    ensures n >= 1 && 16 * (n - 1) <= len <= 16 * n
    ensures len > 0 && len % 16 == 0 <==> len == 16 * n
  {
  }

  method AesCMAC(c: BlockCipher, data: ByteString) returns (mac: ByteString)
    requires c.IsPermutation()
    ensures mac == Cmac(c, data)
  {
    var k1, k2 := GenerateSubkeys(c);
    var n := (|data| + 15) / 16;
    if n == 0 {
      n := 1;
    }
    var lastBlockComplete := |data| > 0 && |data| % 16 == 0;
    var x: ByteString := Zeros(BLOCK_SIZE);
    LastBlockStart(|data|, n);
    var i := 0;
    while i < n - 1
      invariant 0 <= i <= n - 1 && 16 * i <= |data| && |x| == BLOCK_SIZE
      invariant Cmac(c, data) == CmacFrom(c, x, data[16 * i..])
    {
      var y := CopyToBlock(data[16 * i..]);
      XorBytes(y, x);
      assert data[16 * i..][16..] == data[16 * (i + 1)..];
      x := c.Encrypt(y[..]);
      i := i + 1;
    }
    LastBlockStart(|data|, n);
    var start := (n - 1) * 16;
    var last := BuildLastBlock(c, data[start..], lastBlockComplete, k1, k2);
    XorBytes(last, x);
    mac := c.Encrypt(last[..]);
  }

  // ---- S2V: section 2.4 of RFC 5297, for any non-empty vector of strings ----

  /** D after the first k strings. */
  function S2vPrefix(c: BlockCipher, ss: seq<ByteString>, k: nat): (d: Block)
    requires c.IsPermutation() && k <= |ss|
  {
    if k == 0 then Cmac(c, Zeros(BLOCK_SIZE)) else Xor(Dbl(S2vPrefix(c, ss, k - 1)), Cmac(c, ss[k - 1]))
  }

  /** xorend: D against the last 16 bytes. */
  function XorEnd(a: ByteString, d: Block): (r: ByteString)
    requires |a| >= BLOCK_SIZE
    ensures |r| == |a|
  {
    a[..|a| - BLOCK_SIZE] + Xor(a[|a| - BLOCK_SIZE..], d)
  }

  function S2vLast(d: Block, last: ByteString): (t: ByteString) {
    if |last| >= BLOCK_SIZE then XorEnd(last, d) else Xor(Pad(last), Dbl(d))
  }

  function S2v(c: BlockCipher, ss: seq<ByteString>): (v: Block)
    requires c.IsPermutation() && ss != []
  {
    Cmac(c, S2vLast(S2vPrefix(c, ss, |ss| - 1), ss[|ss| - 1]))
  }

  lemma S2vOfTwo(c: BlockCipher, ad: ByteString, plaintext: ByteString, ss: seq<ByteString>, d: Block)
    requires c.IsPermutation() && |ss| == 2 && ss[0] == ad && ss[1] == plaintext
    requires d == Xor(Dbl(Cmac(c, Zeros(BLOCK_SIZE))), Cmac(c, ad))
    ensures S2v(c, ss) == Cmac(c, S2vLast(d, plaintext))
  {
    assert S2vPrefix(c, ss, 0) == Cmac(c, Zeros(BLOCK_SIZE));
    assert S2vPrefix(c, ss, |ss| - 1) == d;
  }

  /** The xorend loop, or the pad-and-xor of a short plaintext. */
  method LastInput(d: ByteString, plaintext: ByteString) returns (lastInput: ByteString)
    requires |d| == BLOCK_SIZE
    ensures lastInput == S2vLast(d, plaintext)
  {
    if |plaintext| >= BLOCK_SIZE {
      var buf := new Byte[|plaintext|](i requires 0 <= i < |plaintext| => plaintext[i]);
      var base := |plaintext| - BLOCK_SIZE;
      var i := 0;
      while i < BLOCK_SIZE
        invariant 0 <= i <= BLOCK_SIZE
        invariant forall m :: 0 <= m < base + i ==>
          buf[m] == if m < base then plaintext[m] else plaintext[m] ^ d[m - base]
        invariant forall m :: base + i <= m < |plaintext| ==> buf[m] == plaintext[m]
      {
        buf[base + i] := buf[base + i] ^ d[i];
        i := i + 1;
      }
      lastInput := buf[..];
    } else {
      var d2 := DblLoop(d);
      var padded := CopyToBlock(plaintext);
      padded[|plaintext|] := 0x80;
      assert padded[..] == Pad(plaintext);
      XorBytes(padded, d2);
      lastInput := padded[..];
    }
  }

  /** s2v with one associated string is the standard's S2V on the vector (ad, plaintext). */
  method S2vTwo(c: BlockCipher, plaintext: ByteString, ad: ByteString) returns (v: ByteString)
    requires c.IsPermutation()
    ensures v == S2v(c, [ad, plaintext])
  {
    var d0 := AesCMAC(c, Zeros(BLOCK_SIZE));
    var d1 := DblLoop(d0);
    var t := AesCMAC(c, ad);
    var d := CopyToBlock(d1);
    assert d1[..BLOCK_SIZE] == d1;
    XorBytes(d, t);
    S2vOfTwo(c, ad, plaintext, [ad, plaintext], d[..]);
    var lastInput := LastInput(d[..], plaintext);
    v := AesCMAC(c, lastInput);
  }

  // ---- SIV: sections 2.6 and 2.7 of RFC 5297 ----

  /** The 128-bit big-endian counter step of CTR mode. */
  function Increment(iv: ByteString): (r: ByteString)
    ensures |r| == |iv|
  {
    if iv == [] then []
    else
      var last := |iv| - 1;
      if iv[last] == 0xFF then Increment(iv[..last]) + [0] else iv[..last] + [iv[last] + 1]
  }

  /** XORKeyStream of a CTR stream started at iv. */
  function Ctr(c: BlockCipher, iv: Block, p: ByteString): (r: ByteString)
    requires c.IsPermutation()
    ensures |r| == |p|
    decreases |p|
  {
    if |p| <= BLOCK_SIZE then Xor(p, c.Encrypt(iv)[..|p|])
    else Xor(p[..BLOCK_SIZE], c.Encrypt(iv)) + Ctr(c, Increment(iv), p[BLOCK_SIZE..])
  }

  lemma {:induction false} CtrIsInvolution(c: BlockCipher, iv: Block, p: ByteString)
    requires c.IsPermutation()
    ensures Ctr(c, iv, Ctr(c, iv, p)) == p
    decreases |p|
  {
    var q := Ctr(c, iv, p);
    if |p| <= BLOCK_SIZE {
      XorCancels(p, c.Encrypt(iv)[..|p|]);
    } else {
      assert q[..BLOCK_SIZE] == Xor(p[..BLOCK_SIZE], c.Encrypt(iv));
      assert q[BLOCK_SIZE..] == Ctr(c, Increment(iv), p[BLOCK_SIZE..]);
      XorCancels(p[..BLOCK_SIZE], c.Encrypt(iv));
      CtrIsInvolution(c, Increment(iv), p[BLOCK_SIZE..]);
    }
  }

  /** The CTR start value: the tag with bits 63 and 31 cleared. */
  function CtrStart(siv: Block): (iv: Block) {
    siv[8 := siv[8] & 0x7F][12 := siv[12] & 0x7F]
  }

  function Sealed(mac: BlockCipher, enc: BlockCipher, plaintext: ByteString, ad: ByteString): (out: ByteString)
    requires mac.IsPermutation() && enc.IsPermutation()
  {
    var siv := S2v(mac, [ad, plaintext]);
    siv + Ctr(enc, CtrStart(siv), plaintext)
  }

  function Opened(mac: BlockCipher, enc: BlockCipher, data: ByteString, ad: ByteString)
    : (out: Result<ByteString, SivError>)
    requires mac.IsPermutation() && enc.IsPermutation()
  {
    if |data| < BLOCK_SIZE then Failure(TooShort)
    else
      var p := Ctr(enc, CtrStart(data[..BLOCK_SIZE]), data[BLOCK_SIZE..]);
      if data[..BLOCK_SIZE] == S2v(mac, [ad, p]) then Success(p) else Failure(AuthenticationFailed)
  }

  lemma OpenInvertsSeal(mac: BlockCipher, enc: BlockCipher, p: ByteString, ad: ByteString)
    requires mac.IsPermutation() && enc.IsPermutation()
    ensures Opened(mac, enc, Sealed(mac, enc, p, ad), ad) == Success(p)
  {
    hide Ctr, S2v;
    var siv := S2v(mac, [ad, p]);
    var data := Sealed(mac, enc, p, ad);
    assert data[..BLOCK_SIZE] == siv && data[BLOCK_SIZE..] == Ctr(enc, CtrStart(siv), p);
    CtrIsInvolution(enc, CtrStart(siv), p);
  }

  /** Accepted data is the one encryption of its plaintext. */
  lemma SealInvertsOpen(mac: BlockCipher, enc: BlockCipher, data: ByteString, ad: ByteString)
    requires mac.IsPermutation() && enc.IsPermutation()
    requires Opened(mac, enc, data, ad).Success?
    ensures Sealed(mac, enc, Opened(mac, enc, data, ad).value, ad) == data
  {
    hide Ctr, S2v;
    var siv := data[..BLOCK_SIZE];
    CtrIsInvolution(enc, CtrStart(siv), data[BLOCK_SIZE..]);
    assert siv + data[BLOCK_SIZE..] == data;
  }

  /** copy(ctrIV, siv) and the two masked bytes. */
  method MaskedIV(siv: ByteString) returns (iv: ByteString)
    requires |siv| == BLOCK_SIZE
    ensures iv == CtrStart(siv)
  {
    var ctrIV := CopyToBlock(siv);
    assert siv[..BLOCK_SIZE] == siv;
    ctrIV[8] := ctrIV[8] & 0x7F;
    ctrIV[12] := ctrIV[12] & 0x7F;
    iv := ctrIV[..];
  }

  method SivEncrypt(mac: BlockCipher, enc: BlockCipher, plaintext: ByteString, ad: ByteString)
    returns (out: ByteString)
    requires mac.IsPermutation() && enc.IsPermutation()
    ensures out == Sealed(mac, enc, plaintext, ad)
  {
    var siv := S2vTwo(mac, plaintext, ad);
    var ctrIV := MaskedIV(siv);
    var ciphertext := Ctr(enc, ctrIV, plaintext);
    out := siv + ciphertext;
  }

  method SivDecrypt(mac: BlockCipher, enc: BlockCipher, data: ByteString, ad: ByteString)
    returns (out: Result<ByteString, SivError>)
    requires mac.IsPermutation() && enc.IsPermutation()
    ensures out == Opened(mac, enc, data, ad)
    ensures |data| < 16 <==> out == Failure(TooShort)
  {
    if |data| < BLOCK_SIZE {
      return Failure(TooShort);
    }
    var siv, ciphertext := data[..BLOCK_SIZE], data[BLOCK_SIZE..];
    var ctrIV := MaskedIV(siv);
    var plaintext := Ctr(enc, ctrIV, ciphertext);
    var computed := S2vTwo(mac, plaintext, ad);
    if siv != computed {
      return Failure(AuthenticationFailed);
    }
    out := Success(plaintext);
  }
}
