/** A block cipher as the pair of functions a key selects (crypto/aes is not part of this model). */
module BlockCiphers {
  import opened Bytes

  const BLOCK_SIZE := 16

  datatype BlockCipher = BlockCipher(enc: ByteString -> ByteString, dec: ByteString -> ByteString) {
    ghost predicate InvertsAt(x: ByteString) {
      && |enc(x)| == BLOCK_SIZE && dec(enc(x)) == x
      && |dec(x)| == BLOCK_SIZE && enc(dec(x)) == x
    }

    /** Encryption and decryption are mutually inverse on 16-byte blocks. */
    ghost predicate IsPermutation() {
      forall x: ByteString {:trigger InvertsAt(x)} :: |x| == BLOCK_SIZE ==> InvertsAt(x)
    }

    function Encrypt(x: ByteString): (y: ByteString)
      requires IsPermutation() && |x| == BLOCK_SIZE
      ensures |y| == BLOCK_SIZE && Decrypt(y) == x
    {
      assert InvertsAt(x);
      assert InvertsAt(enc(x));
      enc(x)
    }

    function Decrypt(y: ByteString): (x: ByteString)
      requires IsPermutation() && |y| == BLOCK_SIZE
      ensures |x| == BLOCK_SIZE && enc(x) == y
    {
      assert InvertsAt(y);
      dec(y)
    }
  }
}

/** AES Key Wrap (internal/crypto/keys.go), over an arbitrary block permutation. */
module KeyWrap {
  import opened Bytes
  import opened BlockCiphers
  import opened Wrappers

  datatype WrapError = BadPlaintextLength | BadCiphertextLength | IntegrityCheckFailed

  const DEFAULT_IV: ByteString := [0xA6, 0xA6, 0xA6, 0xA6, 0xA6, 0xA6, 0xA6, 0xA6]

  /** The integrity register A and the n data registers R. */
  datatype Registers = Registers(a: ByteString, r: seq<ByteString>) {
    predicate Valid() {
      |a| == 8 && |r| > 0 && forall i :: 0 <= i < |r| ==> |r[i]| == 8
    }
  }

  // ---- The index-based steps the code runs: step t+1 touches register Turn(t) = t mod n ----

  function Turn(t: nat, n: nat): (i: nat)
    requires n > 0
    ensures i < n
  {
    if t == 0 then 0 else if Turn(t - 1, n) + 1 == n then 0 else Turn(t - 1, n) + 1
  }

  ghost function WrapStep(c: BlockCipher, s: Registers, i: nat, t: nat): (s': Registers)
    requires c.IsPermutation() && s.Valid() && i < |s.r|
    ensures s'.Valid() && |s'.r| == |s.r|
  {
    var b := c.Encrypt(s.a + s.r[i]);
    Registers(Xor(b[..8], BE64(t)), s.r[i := b[8..]])
  }

  ghost function UnwrapStep(c: BlockCipher, s: Registers, i: nat, t: nat): (s': Registers)
    requires c.IsPermutation() && s.Valid() && i < |s.r|
    ensures s'.Valid() && |s'.r| == |s.r|
  {
    var b := c.Decrypt(Xor(s.a, BE64(t)) + s.r[i]);
    Registers(b[..8], s.r[i := b[8..]])
  }

  /** Steps 1, 2, ..., t in this order. */
  ghost function WrapRounds(c: BlockCipher, s: Registers, t: nat): (s': Registers)
    requires c.IsPermutation() && s.Valid()
    ensures s'.Valid() && |s'.r| == |s.r|
    decreases t
  {
    if t == 0 then s else WrapStep(c, WrapRounds(c, s, t - 1), Turn(t - 1, |s.r|), t)
  }

  /** Steps t, t-1, ..., 1 in this order. */
  ghost function UnwrapRounds(c: BlockCipher, s: Registers, t: nat): (s': Registers)
    requires c.IsPermutation() && s.Valid()
    ensures s'.Valid() && |s'.r| == |s.r|
    decreases t
  {
    if t == 0 then s else UnwrapRounds(c, UnwrapStep(c, s, Turn(t - 1, |s.r|), t), t - 1)
  }

  lemma UnwrapStepInvertsWrapStep(c: BlockCipher, s: Registers, i: nat, t: nat)
    requires c.IsPermutation() && s.Valid() && i < |s.r|
    ensures UnwrapStep(c, WrapStep(c, s, i, t), i, t) == s
  {
    var x := s.a + s.r[i];
    var b := c.Encrypt(x);
    var w := WrapStep(c, s, i, t);
    XorCancels(b[..8], BE64(t));
    assert Xor(w.a, BE64(t)) + w.r[i] == b;
    assert x[..8] == s.a && x[8..] == s.r[i];
    assert w.r[i := s.r[i]] == s.r;
  }

  lemma WrapStepInvertsUnwrapStep(c: BlockCipher, s: Registers, i: nat, t: nat)
    requires c.IsPermutation() && s.Valid() && i < |s.r|
    ensures WrapStep(c, UnwrapStep(c, s, i, t), i, t) == s
  {
    var x := Xor(s.a, BE64(t)) + s.r[i];
    var b := c.Decrypt(x);
    var u := UnwrapStep(c, s, i, t);
    assert u.a + u.r[i] == b;
    assert x[..8] == Xor(s.a, BE64(t)) && x[8..] == s.r[i];
    XorCancels(s.a, BE64(t));
    assert u.r[i := s.r[i]] == s.r;
  }

  lemma {:induction false} UnwrapRoundsInvertWrapRounds(c: BlockCipher, s: Registers, t: nat)
    requires c.IsPermutation() && s.Valid()
    ensures UnwrapRounds(c, WrapRounds(c, s, t), t) == s
    decreases t
  {
    if t > 0 {
      UnwrapStepInvertsWrapStep(c, WrapRounds(c, s, t - 1), Turn(t - 1, |s.r|), t);
      UnwrapRoundsInvertWrapRounds(c, s, t - 1);
    }
  }

  lemma {:induction false} WrapRoundsInvertUnwrapRounds(c: BlockCipher, s: Registers, t: nat)
    requires c.IsPermutation() && s.Valid()
    ensures WrapRounds(c, UnwrapRounds(c, s, t), t) == s
    decreases t
  {
    if t > 0 {
      var i := Turn(t - 1, |s.r|);
      var u := UnwrapStep(c, s, i, t);
      WrapRoundsInvertUnwrapRounds(c, u, t - 1);
      WrapStepInvertsUnwrapStep(c, s, i, t);
      var w := UnwrapRounds(c, u, t - 1);
      assert UnwrapRounds(c, s, t) == w && WrapRounds(c, w, t - 1) == u;
      assert WrapRounds(c, w, t) == WrapStep(c, u, i, t);
    }
  }

  // ---- The shift-register formulation of section 2.2.1 of RFC 3394 ----

  /** One step: register 1 is consumed, all registers shift down, the new word enters at n. */
  ghost function ShiftStep(c: BlockCipher, s: Registers, t: nat): (s': Registers)
    requires c.IsPermutation() && s.Valid()
    ensures s'.Valid() && |s'.r| == |s.r|
  {
    var b := c.Encrypt(s.a + s.r[0]);
    Registers(Xor(b[..8], BE64(t)), s.r[1..] + [b[8..]])
  }

  ghost function ShiftRounds(c: BlockCipher, s: Registers, t: nat): (s': Registers)
    requires c.IsPermutation() && s.Valid()
    ensures s'.Valid() && |s'.r| == |s.r|
  {
    if t == 0 then s else ShiftStep(c, ShiftRounds(c, s, t - 1), t)
  }

  ghost function RotateLeft(r: seq<ByteString>, k: nat): (q: seq<ByteString>)
    requires k < |r|
    ensures |q| == |r|
  {
    r[k..] + r[..k]
  }

  lemma RotateThenShift(r: seq<ByteString>, k: nat, w: ByteString)
    requires k < |r|
    ensures RotateLeft(r, k)[0] == r[k]
    ensures RotateLeft(r, k)[1..] + [w] == RotateLeft(r[k := w], if k + 1 == |r| then 0 else k + 1)
  {
    var left := RotateLeft(r, k)[1..] + [w];
    var right := RotateLeft(r[k := w], if k + 1 == |r| then 0 else k + 1);
    forall m | 0 <= m < |r| ensures left[m] == right[m] {
    }
  }

  /** The in-place code agrees with the standard's shift register up to a rotation by t. */
  lemma {:induction false} ShiftRegisterIsRotation(c: BlockCipher, s: Registers, t: nat)
    requires c.IsPermutation() && s.Valid()
    ensures ShiftRounds(c, s, t).a == WrapRounds(c, s, t).a
    ensures ShiftRounds(c, s, t).r == RotateLeft(WrapRounds(c, s, t).r, Turn(t, |s.r|))
    decreases t
  {
    if t == 0 {
      assert RotateLeft(s.r, 0) == s.r;
    } else {
      ShiftRegisterIsRotation(c, s, t - 1);
      var w := WrapRounds(c, s, t - 1);
      var i := Turn(t - 1, |s.r|);
      RotateThenShift(w.r, i, c.Encrypt(w.a + w.r[i])[8..]);
    }
  }

  // ---- And of section 2.2.2, for unwrapping ----

  /** One step back: register n is consumed, all registers shift up, the new word enters at 1. */
  ghost function UnshiftStep(c: BlockCipher, s: Registers, t: nat): (s': Registers)
    requires c.IsPermutation() && s.Valid()
    ensures s'.Valid() && |s'.r| == |s.r|
  {
    var n := |s.r|;
    var b := c.Decrypt(Xor(s.a, BE64(t)) + s.r[n - 1]);
    Registers(b[..8], [b[8..]] + s.r[..n - 1])
  }

  /** Steps t, t-1, ..., 1 in this order. */
  ghost function UnshiftRounds(c: BlockCipher, s: Registers, t: nat): (s': Registers)
    requires c.IsPermutation() && s.Valid()
    ensures s'.Valid() && |s'.r| == |s.r|
    decreases t
  {
    if t == 0 then s else UnshiftRounds(c, UnshiftStep(c, s, t), t - 1)
  }

  lemma UnshiftStepInvertsShiftStep(c: BlockCipher, s: Registers, t: nat)
    requires c.IsPermutation() && s.Valid()
    ensures UnshiftStep(c, ShiftStep(c, s, t), t) == s
  {
    var b := c.Encrypt(s.a + s.r[0]);
    XorCancels(b[..8], BE64(t));
    assert b[..8] + b[8..] == b;
    assert (s.a + s.r[0])[..8] == s.a && (s.a + s.r[0])[8..] == s.r[0];
    var shifted := s.r[1..] + [b[8..]];
    assert shifted[|s.r| - 1] == b[8..] && shifted[..|s.r| - 1] == s.r[1..];
    assert [s.r[0]] + s.r[1..] == s.r;
  }

  lemma {:induction false} UnshiftInvertsShift(c: BlockCipher, s: Registers, t: nat)
    requires c.IsPermutation() && s.Valid()
    ensures UnshiftRounds(c, ShiftRounds(c, s, t), t) == s
    decreases t
  {
    if t > 0 {
      UnshiftStepInvertsShiftStep(c, ShiftRounds(c, s, t - 1), t);
      UnshiftInvertsShift(c, s, t - 1);
    }
  }

  lemma NextPass(n: nat, j: nat)
    ensures n * (j + 1) == n * j + n
  {
  }

  /** Round (j, i) of the nested loops is step t = n*j + i and addresses register i-1. */
  lemma {:induction false} TurnOfRound(n: nat, j: nat, i: nat, base: nat)
    requires i < n && base == n * j
    ensures Turn(base + i, n) == i
    decreases j, i
  {
    if i > 0 {
      TurnOfRound(n, j, i - 1, base);
    } else if j > 0 {
      NextPass(n, j - 1);
      TurnOfRound(n, j - 1, n - 1, base - n);
    }
  }

  // ---- Splitting and joining 8-byte words ----

  function Words(x: ByteString): (r: seq<ByteString>)
    requires |x| % 8 == 0
    ensures |r| == |x| / 8
    ensures forall i :: 0 <= i < |r| ==> |r[i]| == 8
  {
    seq(|x| / 8, i requires 0 <= i < |x| / 8 => x[8 * i..8 * i + 8])
  }

  function Join(r: seq<ByteString>): (x: ByteString)
    requires forall i :: 0 <= i < |r| ==> |r[i]| == 8
    ensures |x| == 8 * |r|
  {
    if r == [] then [] else Join(r[..|r| - 1]) + r[|r| - 1]
  }

  lemma {:induction false} JoinAt(r: seq<ByteString>, i: nat)
    requires forall j :: 0 <= j < |r| ==> |r[j]| == 8
    requires i < |r|
    ensures Join(r)[8 * i..8 * i + 8] == r[i]
  {
    var p := Join(r[..|r| - 1]);
    if i < |r| - 1 {
      JoinAt(r[..|r| - 1], i);
      assert Join(r)[8 * i..8 * i + 8] == p[8 * i..8 * i + 8];
    }
  }

  lemma WordsOfJoin(r: seq<ByteString>)
    requires forall j :: 0 <= j < |r| ==> |r[j]| == 8
    ensures |Join(r)| % 8 == 0 && Words(Join(r)) == r
  {
    forall i | 0 <= i < |r| ensures Words(Join(r))[i] == r[i] {
      JoinAt(r, i);
    }
  }

  lemma WordsOfPrefix(x: ByteString, n: nat)
    requires |x| == 8 * (n + 1)
    ensures Words(x) == Words(x[..8 * n]) + [x[8 * n..]]
  {
    var y := x[..8 * n];
    forall i | 0 <= i < n ensures Words(x)[i] == Words(y)[i] {
      assert x[8 * i..8 * i + 8] == y[8 * i..8 * i + 8];
    }
    assert |Words(y)| == n && |Words(x)| == n + 1;
    assert Words(x)[n] == x[8 * n..];
  }

  lemma {:induction false} JoinOfWords(x: ByteString, n: nat)
    requires |x| == 8 * n
    ensures Join(Words(x)) == x
  {
    if n > 0 {
      var y, last := x[..8 * (n - 1)], x[8 * (n - 1)..];
      WordsOfPrefix(x, n - 1);
      JoinOfWords(y, n - 1);
      var w := Words(y) + [last];
      assert w[..|w| - 1] == Words(y);
    }
  }

  // ---- What AESKeyWrap and AESKeyUnwrap compute ----

  ghost function Wrapped(c: BlockCipher, x: ByteString): (out: Result<ByteString, WrapError>)
    requires c.IsPermutation()
  {
    if |x| % 8 != 0 then Failure(BadPlaintextLength)
    else if x == [] then Success(DEFAULT_IV)
    else
      var s := WrapRounds(c, Registers(DEFAULT_IV, Words(x)), 6 * (|x| / 8));
      Success(s.a + Join(s.r))
  }

  ghost function Unwrapped(c: BlockCipher, y: ByteString): (out: Result<ByteString, WrapError>)
    requires c.IsPermutation()
  {
    if |y| % 8 != 0 || |y| < 24 then Failure(BadCiphertextLength)
    else
      var s := UnwrapRounds(c, Registers(y[..8], Words(y[8..])), 6 * (|y| / 8 - 1));
      if s.a == DEFAULT_IV then Success(Join(s.r)) else Failure(IntegrityCheckFailed)
  }

  /** Splitting A | R[1] | ... | R[n] recovers the registers. */
  lemma SplitOfJoin(s: Registers)
    requires s.Valid()
    ensures var y := s.a + Join(s.r);
            |y| == 8 * (|s.r| + 1) && Registers(y[..8], Words(y[8..])) == s
  {
    var y := s.a + Join(s.r);
    assert y[..8] == s.a && y[8..] == Join(s.r);
    WordsOfJoin(s.r);
  }

  /** Unwrapping the output of a wrap runs the 6n steps backwards. */
  lemma UnwrapOfRounds(c: BlockCipher, s0: Registers, s: Registers, t: nat)
    requires c.IsPermutation() && s0.Valid() && s0.a == DEFAULT_IV && |s0.r| >= 2
    requires t == 6 * |s0.r| && s == WrapRounds(c, s0, t)
    ensures Unwrapped(c, s.a + Join(s.r)) == Success(Join(s0.r))
  {
    SplitOfJoin(s);
    UnwrapRoundsInvertWrapRounds(c, s0, t);
  }

  /** Unwrapping inverts wrapping exactly on keys of at least 16 bytes. */
  lemma UnwrapInvertsWrap(c: BlockCipher, x: ByteString)
    requires c.IsPermutation() && |x| % 8 == 0
    ensures Wrapped(c, x).Success? && |Wrapped(c, x).value| == |x| + 8
    ensures Unwrapped(c, Wrapped(c, x).value) == Success(x) <==> |x| >= 16
  {
    if |x| >= 16 {
      var s0 := Registers(DEFAULT_IV, Words(x));
      var t := 6 * (|x| / 8);
      UnwrapOfRounds(c, s0, WrapRounds(c, s0, t), t);
      JoinOfWords(x, |x| / 8);
    }
  }

  /** Whatever unwraps was produced by wrapping: the accepted ciphertexts are the image of Wrapped. */
  lemma WrapInvertsUnwrap(c: BlockCipher, y: ByteString)
    requires c.IsPermutation() && Unwrapped(c, y).Success?
    ensures Wrapped(c, Unwrapped(c, y).value) == Success(y)
  {
    var n := |y| / 8 - 1;
    var s0 := Registers(y[..8], Words(y[8..]));
    var s := UnwrapRounds(c, s0, 6 * n);
    var x := Join(s.r);
    WordsOfJoin(s.r);
    WrapRoundsInvertUnwrapRounds(c, s0, 6 * n);
    assert Registers(DEFAULT_IV, Words(x)) == s;
    JoinOfWords(y[8..], n);
    assert s0.a + Join(s0.r) == y;
  }

  /** The in-place loops compute the standard's shift-register algorithm. */
  lemma WrapMeetsStandard(c: BlockCipher, x: ByteString)
    requires c.IsPermutation() && |x| % 8 == 0 && x != []
    ensures var s := ShiftRounds(c, Registers(DEFAULT_IV, Words(x)), 6 * (|x| / 8));
            Wrapped(c, x) == Success(s.a + Join(s.r))
  {
    var n := |x| / 8;
    var s0 := Registers(DEFAULT_IV, Words(x));
    ShiftRegisterIsRotation(c, s0, 6 * n);
    TurnOfRound(n, 6, 0, 6 * n);
    assert Turn(6 * n, n) == 0;
    var w := WrapRounds(c, s0, 6 * n);
    assert RotateLeft(w.r, 0) == w.r;
  }

  /** Unwrapping is the standard's shift register run backwards, with its check of the initial value. */
  lemma UnwrapMeetsStandard(c: BlockCipher, y: ByteString)
    requires c.IsPermutation() && |y| % 8 == 0 && |y| >= 24
    ensures var s := UnshiftRounds(c, Registers(y[..8], Words(y[8..])), 6 * (|y| / 8 - 1));
            Unwrapped(c, y) == if s.a == DEFAULT_IV then Success(Join(s.r)) else Failure(IntegrityCheckFailed)
  {
    hide UnwrapRounds, WrapRounds, ShiftRounds, UnshiftRounds, Turn, Join, Words;
    var n := |y| / 8 - 1;
    var s0 := Registers(y[..8], Words(y[8..]));
    var s := UnwrapRounds(c, s0, 6 * n);
    WrapRoundsInvertUnwrapRounds(c, s0, 6 * n);
    ShiftRegisterIsRotation(c, s, 6 * n);
    TurnOfRound(n, 6, 0, 6 * n);
    assert RotateLeft(s0.r, 0) == s0.r;
    UnshiftInvertsShift(c, s, 6 * n);
  }

  // ---- The two loops of the source ----

  /** a ^= big-endian t, byte by byte, in place. */
  method XorCounter(a: array<Byte>, t: nat)
    requires a.Length == 8
    modifies a
    ensures a[..] == Xor(old(a[..]), BE64(t))
  {
    var tBytes := BE64(t);
    var k := 0;
    while k < 8
      invariant 0 <= k <= 8
      invariant forall m :: 0 <= m < k ==> a[m] == old(a[m]) ^ tBytes[m]
      invariant forall m :: k <= m < 8 ==> a[m] == old(a[m])
    {
      a[k] := a[k] ^ tBytes[k];
      k := k + 1;
    }
  }

  /** copy(a, src) for 8-byte buffers. */
  method Copy8(a: array<Byte>, src: ByteString)
    requires a.Length == 8 && |src| == 8
    modifies a
    ensures a[..] == src
  {
    forall k | 0 <= k < 8 { a[k] := src[k]; }
  }

  /** The body of the wrap loop: B = E(A | R), A = MSB(B) ^ t, R = LSB(B). */
  method WrapRound(c: BlockCipher, a: array<Byte>, w: ByteString, t: nat) returns (w': ByteString)
    requires c.IsPermutation() && a.Length == 8 && |w| == 8
    modifies a
    ensures var b := c.Encrypt(old(a[..]) + w); a[..] == Xor(b[..8], BE64(t)) && w' == b[8..]
  {
    var buf := c.Encrypt(a[..] + w);
    Copy8(a, buf[..8]);
    XorCounter(a, t);
    w' := buf[8..];
  }

  /** The body of the unwrap loop: B = D((A ^ t) | R), A = MSB(B), R = LSB(B). */
  method UnwrapRound(c: BlockCipher, a: array<Byte>, w: ByteString, t: nat) returns (w': ByteString)
    requires c.IsPermutation() && a.Length == 8 && |w| == 8
    modifies a
    ensures var b := c.Decrypt(Xor(old(a[..]), BE64(t)) + w); a[..] == b[..8] && w' == b[8..]
  {
    XorCounter(a, t);
    var buf := c.Decrypt(a[..] + w);
    Copy8(a, buf[..8]);
    w' := buf[8..];
  }

  /** t := n*j + i, the counter of round (j, i), given the base n*j already done. */
  method Counter(n: nat, j: nat, i: nat, ghost base: nat) returns (t: nat)
    requires 1 <= i <= n && base == n * j
    ensures t == base + i && Turn(t - 1, n) == i - 1
  {
    t := n * j + i;
    TurnOfRound(n, j, i - 1, base);
  }

  lemma NextRound(c: BlockCipher, s0: Registers, t: nat, i: nat, s: Registers, a: ByteString, w: ByteString)
    requires c.IsPermutation() && s0.Valid() && t > 0 && s == WrapRounds(c, s0, t - 1)
    requires i == Turn(t - 1, |s.r|)
    requires var b := c.Encrypt(s.a + s.r[i]); a == Xor(b[..8], BE64(t)) && w == b[8..]
    ensures Registers(a, s.r[i := w]) == WrapRounds(c, s0, t)
  {
  }

  /** One pass i = 1..n of the wrap loop, for outer index j. */
  method WrapSweep(c: BlockCipher, a: array<Byte>, r0: seq<ByteString>, j: nat, ghost s0: Registers, ghost base: nat)
    returns (r: seq<ByteString>, ghost s: Registers)
    requires c.IsPermutation() && s0.Valid() && a.Length == 8 && |r0| == |s0.r| && base == |r0| * j
    requires Registers(a[..], r0) == WrapRounds(c, s0, base)
    modifies a
    ensures s == WrapRounds(c, s0, base + |r0|) && a[..] == s.a && r == s.r
  {
    hide WrapRounds;
    r := r0;
    s := Registers(a[..], r);
    var i := 1;
    while i <= |r0|
      invariant 1 <= i <= |r0| + 1
      invariant s == WrapRounds(c, s0, base + i - 1) && a[..] == s.a && r == s.r
    {
      var t := Counter(|r0|, j, i, base);
      var w := WrapRound(c, a, r[i - 1], t);
      NextRound(c, s0, t, i - 1, s, a[..], w);
      r := r[i - 1 := w];
      s := Registers(a[..], r);
      i := i + 1;
    }
  }

  /** One pass i = n..1 of the unwrap loop, for outer index j. */
  method UnwrapSweep(c: BlockCipher, a: array<Byte>, r0: seq<ByteString>, j: nat, ghost base: nat)
    returns (r: seq<ByteString>, ghost s: Registers)
    requires c.IsPermutation() && a.Length == 8 && base == |r0| * j
    requires Registers(a[..], r0).Valid()
    modifies a
    ensures s.Valid() && |r| == |r0| && a[..] == s.a && r == s.r
    ensures UnwrapRounds(c, s, base) == UnwrapRounds(c, Registers(old(a[..]), r0), base + |r0|)
  {
    r := r0;
    s := Registers(a[..], r);
    ghost var goal := UnwrapRounds(c, s, base + |r0|);
    var i := |r0|;
    while i >= 1
      invariant 0 <= i <= |r0| == |r| && s.Valid() && a[..] == s.a && r == s.r
      invariant UnwrapRounds(c, s, base + i) == goal
    {
      var t := Counter(|r0|, j, i, base);
      var w := UnwrapRound(c, a, r[i - 1], t);
      r := r[i - 1 := w];
      assert Registers(a[..], r) == UnwrapStep(c, s, i - 1, t);
      s := Registers(a[..], r);
      i := i - 1;
    }
  }

  lemma NoRounds(c: BlockCipher, s: Registers)
    requires c.IsPermutation() && s.Valid()
    ensures WrapRounds(c, s, 0) == s && UnwrapRounds(c, s, 0) == s
  {
  }

  lemma WrappedIs(c: BlockCipher, x: ByteString, n: nat, s: Registers)
    requires c.IsPermutation() && n > 0 && |x| == 8 * n
    requires s == WrapRounds(c, Registers(DEFAULT_IV, Words(x)), 6 * n)
    ensures Wrapped(c, x) == Success(s.a + Join(s.r))
  {
  }

  lemma WrappedEmpty(c: BlockCipher)
    requires c.IsPermutation()
    ensures Wrapped(c, []) == Success(DEFAULT_IV + Join([]))
    ensures DEFAULT_IV + Join([]) == seq(8, _ => 0xA6)
  {
    assert DEFAULT_IV + [] == DEFAULT_IV;
  }

  /** The outer loop j = 0..5. */
  method WrapPasses(c: BlockCipher, a: array<Byte>, r0: seq<ByteString>)
    returns (r: seq<ByteString>, ghost s: Registers)
    requires c.IsPermutation() && a.Length == 8 && Registers(a[..], r0).Valid()
    modifies a
    ensures s == WrapRounds(c, Registers(old(a[..]), r0), 6 * |r0|) && a[..] == s.a && r == s.r
  {
    hide WrapRounds;
    ghost var s0 := Registers(a[..], r0);
    ghost var done: nat := 0;
    r, s := r0, s0;
    NoRounds(c, s0);
    var j := 0;
    while j <= 5
      invariant 0 <= j <= 6 && done == |r0| * j
      invariant s == WrapRounds(c, s0, done) && a[..] == s.a && r == s.r
    {
      r, s := WrapSweep(c, a, r, j, s0, done);
      NextPass(|r0|, j);
      done := done + |r0|;
      j := j + 1;
    }
  }

  method AESKeyWrap(c: BlockCipher, plaintext: ByteString) returns (out: Result<ByteString, WrapError>)
    requires c.IsPermutation()
    ensures out == Wrapped(c, plaintext)
    ensures |plaintext| % 8 != 0 <==> out == Failure(BadPlaintextLength)
    ensures plaintext == [] ==> out == Success(seq(8, _ => 0xA6))
  {
    hide WrapRounds, Wrapped, Words, Join;
    if |plaintext| % 8 != 0 {
      WrappedErrors(c, plaintext);
      return Failure(BadPlaintextLength);
    }
    var n := |plaintext| / 8;
    var a := new Byte[8];
    Copy8(a, DEFAULT_IV);
    var r := Words(plaintext);
    if n > 0 {
      ghost var s;
      r, s := WrapPasses(c, a, r);
      WrappedIs(c, plaintext, n, s);
    } else {
      WrappedEmpty(c);
    }
    out := Success(a[..] + Join(r));
  }

  lemma WrappedErrors(c: BlockCipher, x: ByteString)
    requires c.IsPermutation() && |x| % 8 != 0
    ensures Wrapped(c, x) == Failure(BadPlaintextLength)
  {
  }

  lemma UnwrappedIs(c: BlockCipher, y: ByteString, n: nat, s: Registers)
    requires c.IsPermutation() && n >= 2 && |y| == 8 * (n + 1)
    requires s == UnwrapRounds(c, Registers(y[..8], Words(y[8..])), 6 * n)
    ensures Unwrapped(c, y) == if s.a == DEFAULT_IV then Success(Join(s.r)) else Failure(IntegrityCheckFailed)
  {
  }

  lemma UnwrappedErrors(c: BlockCipher, y: ByteString)
    requires c.IsPermutation() && (|y| % 8 != 0 || |y| < 24)
    ensures Unwrapped(c, y) == Failure(BadCiphertextLength)
  {
  }

  /** The outer loop j = 5..0. */
  method UnwrapPasses(c: BlockCipher, a: array<Byte>, r0: seq<ByteString>)
    returns (r: seq<ByteString>, ghost s: Registers)
    requires c.IsPermutation() && a.Length == 8 && Registers(a[..], r0).Valid()
    modifies a
    ensures s == UnwrapRounds(c, Registers(old(a[..]), r0), 6 * |r0|) && a[..] == s.a && r == s.r
  {
    hide UnwrapRounds;
    r, s := r0, Registers(a[..], r0);
    ghost var goal := UnwrapRounds(c, s, 6 * |r0|);
    ghost var left: nat := 6 * |r0|;
    var j := 5;
    while j >= 0
      invariant -1 <= j <= 5 && left == |r0| * (j + 1)
      invariant s.Valid() && |r| == |r0| && a[..] == s.a && r == s.r
      invariant UnwrapRounds(c, s, left) == goal
    {
      NextPass(|r0|, j);
      left := left - |r0|;
      r, s := UnwrapSweep(c, a, r, j, left);
      j := j - 1;
    }
    NoRounds(c, s);
  }

  method AESKeyUnwrap(c: BlockCipher, ciphertext: ByteString) returns (out: Result<ByteString, WrapError>)
    requires c.IsPermutation()
    ensures out == Unwrapped(c, ciphertext)
    ensures |ciphertext| % 8 != 0 || |ciphertext| < 24 <==> out == Failure(BadCiphertextLength)
  {
    hide UnwrapRounds, Unwrapped, Words, Join;
    if |ciphertext| % 8 != 0 || |ciphertext| < 24 {
      UnwrappedErrors(c, ciphertext);
      return Failure(BadCiphertextLength);
    }
    var n := |ciphertext| / 8 - 1;
    assert |ciphertext| == 8 * (n + 1);
    var a := new Byte[8];
    Copy8(a, ciphertext[..8]);
    var r := Words(ciphertext[8..]);
    ghost var s;
    r, s := UnwrapPasses(c, a, r);
    UnwrappedIs(c, ciphertext, n, s);
    if a[..] != DEFAULT_IV {
      return Failure(IntegrityCheckFailed);
    }
    out := Success(Join(r));
  }
}
