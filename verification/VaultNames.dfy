/** File names under AES-SIV: the codec the encrypted tree relies on (internal/crypto/filename.go). */
module VaultNames {
  import opened Wrappers
  import opened Bytes
  import opened BlockCiphers
  import opened Siv
  import opened VaultTree

  /** Raw URL base64, and the bytes of a name. */
  datatype Texts = Texts(
    encode: ByteString -> string,
    decode: string -> Option<ByteString>,
    bytes: string -> ByteString,
    name: ByteString -> string)

  ghost predicate Standard(t: Texts) {
    && (forall x :: t.decode(t.encode(x)) == Some(x) && Dotless(t.encode(x)) && |t.encode(x)| >= |x|)
    && (forall e :: t.decode(e).Some? ==> |t.decode(e).value| <= |e|)
    && (forall s :: t.name(t.bytes(s)) == s)
  }

  /** EncryptFileName after its checks: the directory id is the associated data. */
  function EncryptedName(mac: BlockCipher, enc: BlockCipher, t: Texts, name: string, dirID: string): (e: string)
    requires mac.IsPermutation() && enc.IsPermutation()
  {
    t.encode(Sealed(mac, enc, t.bytes(name), t.bytes(dirID)))
  }

  function DecryptedName(mac: BlockCipher, enc: BlockCipher, t: Texts, e: string, dirID: string): (name: Option<string>)
    requires mac.IsPermutation() && enc.IsPermutation()
  {
    var data := t.decode(e);
    if data.None? then None
    else
      var p := Opened(mac, enc, data.value, t.bytes(dirID));
      if p.Success? then Some(t.name(p.value)) else None
  }

  /** Two different names of a directory have different encryptions; a name's encryption decrypts to it alone. */
  lemma NameRoundTrip(mac: BlockCipher, enc: BlockCipher, t: Texts, name: string, dirID: string)
    requires mac.IsPermutation() && enc.IsPermutation() && Standard(t)
    ensures var e := EncryptedName(mac, enc, t, name, dirID);
            DecryptedName(mac, enc, t, e, dirID) == Some(name) && Dotless(e) && |e| >= BLOCK_SIZE
  {
    var data := Sealed(mac, enc, t.bytes(name), t.bytes(dirID));
    OpenInvertsSeal(mac, enc, t.bytes(name), t.bytes(dirID));
    assert t.decode(t.encode(data)) == Some(data);
  }

  lemma TooShortForAName(mac: BlockCipher, enc: BlockCipher, t: Texts, e: string, dirID: string)
    requires mac.IsPermutation() && enc.IsPermutation() && Standard(t) && |e| < BLOCK_SIZE
    ensures DecryptedName(mac, enc, t, e, dirID) == None
  {
  }

  function NameCodec(mac: BlockCipher, enc: BlockCipher, t: Texts, hash: string -> string): (c: Codec)
    requires mac.IsPermutation() && enc.IsPermutation()
  {
    Codec((name, dirID) => EncryptedName(mac, enc, t, name, dirID),
          (e, dirID) => DecryptedName(mac, enc, t, e, dirID),
          hash)
  }

  /** So AES-SIV names meet everything the encrypted tree asks of its names. */
  lemma NamesAreLawful(mac: BlockCipher, enc: BlockCipher, t: Texts, hash: string -> string)
    requires mac.IsPermutation() && enc.IsPermutation() && Standard(t)
    requires (forall s :: Dotless(hash(s))) && (forall s, s' :: hash(s) == hash(s') ==> s == s')
    ensures Lawful(NameCodec(mac, enc, t, hash))
  {
    var c := NameCodec(mac, enc, t, hash);
    forall n, id ensures c.dec(c.enc(n, id), id) == Some(n) && Dotless(c.enc(n, id)) && |c.enc(n, id)| > 8 {
      NameRoundTrip(mac, enc, t, n, id);
    }
    forall e, id | |e| <= 8 ensures c.dec(e, id) == None {
      TooShortForAName(mac, enc, t, e, id);
    }
  }

  // ---- The hypotheses are consistent ----

  const CHARS := 0x11_0000

  /** Position i of a name's marks says whether its character i / CHARS is the one numbered i % CHARS. */
  function MarkAt(s: string, i: nat): bool
    requires i < CHARS * |s|
  {
    s[i / CHARS] as int == i % CHARS
  }

  /** A name as characters 'a' and 'b', and as bytes 0 and 1. */
  function Marks(s: string): (m: string) {
    seq(CHARS * |s|, i requires 0 <= i < CHARS * |s| => if MarkAt(s, i) then 'b' else 'a')
  }

  function MarkBytes(s: string): (m: ByteString) {
    seq(CHARS * |s|, i requires 0 <= i < CHARS * |s| => if MarkAt(s, i) then 1 else 0)
  }

  lemma SameMarks(s: string, t: string)
    requires |s| == |t| && forall i: nat :: i < CHARS * |s| ==> MarkAt(s, i) == MarkAt(t, i)
    ensures s == t
  {
    forall j | 0 <= j < |s| ensures s[j] == t[j] {
      var i := CHARS * j + s[j] as int;
      MarkPosition(j, s[j] as int);
      assert MarkAt(s, i) && MarkAt(t, i);
    }
  }

  lemma MarkPosition(j: nat, n: nat)
    requires n < CHARS
    ensures (CHARS * j + n) / CHARS == j && (CHARS * j + n) % CHARS == n
  {
  }

  lemma MarksInjective(s: string, t: string)
    ensures Marks(s) == Marks(t) ==> s == t
    ensures MarkBytes(s) == MarkBytes(t) ==> s == t
  {
    if Marks(s) == Marks(t) {
      assert |Marks(s)| == |Marks(t)|;
      forall i: nat | i < CHARS * |s| ensures MarkAt(s, i) == MarkAt(t, i) {
        assert Marks(s)[i] == Marks(t)[i];
      }
      SameMarks(s, t);
    }
    if MarkBytes(s) == MarkBytes(t) {
      assert |MarkBytes(s)| == |MarkBytes(t)|;
      forall i: nat | i < CHARS * |s| ensures MarkAt(s, i) == MarkAt(t, i) {
        assert MarkBytes(s)[i] == MarkBytes(t)[i];
      }
      SameMarks(s, t);
    }
  }

  /** Bytes as eight characters each. */
  function Bits(x: ByteString): (e: string) {
    seq(8 * |x|, i requires 0 <= i < 8 * |x| => if BitAt(x[i / 8], i % 8) then 'b' else 'a')
  }

  lemma BitsInjective(x: ByteString, y: ByteString)
    requires Bits(x) == Bits(y)
    ensures x == y
  {
    assert 8 * |x| == |Bits(x)| == |Bits(y)| == 8 * |y|;
    forall j | 0 <= j < |x| ensures x[j] == y[j] {
      forall k | 0 <= k < 8 ensures BitAt(x[j], k) == BitAt(y[j], k) {
        assert Bits(x)[8 * j + k] == Bits(y)[8 * j + k];
        assert (8 * j + k) / 8 == j && (8 * j + k) % 8 == k;
      }
      BitsDetermineByte(x[j], y[j]);
    }
  }

  ghost function Unbits(e: string): (x: Option<ByteString>)
    ensures x.Some? ==> Bits(x.value) == e
  {
    if exists x :: Bits(x) == e then
      var x :| Bits(x) == e;
      Some(x)
    else None
  }

  ghost function Unmarked(b: ByteString): (s: string)
    ensures (exists t :: MarkBytes(t) == b) ==> MarkBytes(s) == b
  {
    if exists s :: MarkBytes(s) == b then
      var s :| MarkBytes(s) == b;
      s
    else ""
  }

  /** There are texts and digests as the hypotheses ask, so there are lawful codecs. */
  lemma StandardTextsExist() returns (t: Texts, hash: string -> string)
    ensures Standard(t)
    ensures (forall s :: Dotless(hash(s))) && (forall s, s' :: hash(s) == hash(s') ==> s == s')
  {
    t := Texts(x => Bits(x), e => Unbits(e), s => MarkBytes(s), b => Unmarked(b));
    hash := s => Marks(s);
    forall x ensures t.decode(t.encode(x)) == Some(x) {
      assert Bits(x) == t.encode(x);
      BitsInjective(x, Unbits(Bits(x)).value);
    }
    forall s ensures t.name(t.bytes(s)) == s {
      assert MarkBytes(s) == t.bytes(s);
      MarksInjective(Unmarked(MarkBytes(s)), s);
    }
    forall s, s' ensures hash(s) == hash(s') ==> s == s' {
      MarksInjective(s, s');
    }
  }
}
