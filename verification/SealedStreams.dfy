/** The sealed chunk stream as a value: what a file body holds for a given plaintext. */
module SealedStreams {
  import opened Bytes
  import opened ContentSizes
  import opened Wrappers

  const PAYLOAD: nat := 32768
  const CIPHER: nat := 32796

  type Nonce = n: ByteString | |n| == 12 witness Zeros(12)

  /** An authenticated cipher under one key: Seal and Open of (nonce, text, associated data). */
  datatype Aead = Aead(
    seal: (ByteString, ByteString, ByteString) -> ByteString,
    open: (ByteString, ByteString, ByteString) -> Option<ByteString>)
  {
    ghost predicate ExpandsAt(n: ByteString, p: ByteString, ad: ByteString) {
      |seal(n, p, ad)| == |p| + 16
    }

    /** Sealing adds a 16-byte tag. */
    ghost predicate Expands() {
      forall n: ByteString, p: ByteString, ad: ByteString {:trigger ExpandsAt(n, p, ad)} :: ExpandsAt(n, p, ad)
    }
  }

  /** chunkNumber (8 bytes, big-endian) || headerNonce. */
  function ChunkAAD(chunkNumber: nat, headerNonce: ByteString): ByteString {
    BE64(chunkNumber) + headerNonce
  }

  /** The associated data begins with the chunk's number as a big-endian uint64. */
  lemma ChunkAADFormat(chunkNumber: nat, headerNonce: ByteString)
    ensures var ad := ChunkAAD(chunkNumber, headerNonce);
            && |ad| == 8 + |headerNonce| && ad[8..] == headerNonce
            && BigEndianNumber(ad[..8]) == chunkNumber % 0x1_0000_0000_0000_0000
  {
    BE64Value(chunkNumber);
    assert ChunkAAD(chunkNumber, headerNonce)[..8] == BE64(chunkNumber);
  }

  /** One record on disk: nonce || ciphertext with tag. */
  function Record(a: Aead, headerNonce: ByteString, nonce: Nonce, chunk: ByteString, k: nat): ByteString {
    nonce + a.seal(nonce, chunk, ChunkAAD(k, headerNonce))
  }

  /** The body for the plaintext, its chunks numbered from k, sealed under the given nonces. */
  function SealStream(a: Aead, headerNonce: ByteString, nonces: seq<Nonce>, plain: ByteString, k: nat)
    : (body: ByteString)
    requires PAYLOAD * |nonces| >= |plain|
    decreases |plain|
  {
    if plain == [] then []
    else if |plain| <= PAYLOAD then Record(a, headerNonce, nonces[0], plain, k)
    else Record(a, headerNonce, nonces[0], plain[..PAYLOAD], k)
         + SealStream(a, headerNonce, nonces[1..], plain[PAYLOAD..], k + 1)
  }

  /** Chunk k of a plaintext. */
  function PlainChunk(plain: ByteString, k: nat): (c: ByteString)
    requires PAYLOAD * k < |plain|
  {
    plain[PAYLOAD * k..if |plain| <= PAYLOAD * (k + 1) then |plain| else PAYLOAD * (k + 1)]
  }

  /** A stream of whole chunks can be continued by the stream of the rest. */
  lemma {:induction false} SealStreamAppend(
    a: Aead, hn: ByteString, ns: seq<Nonce>, ms: seq<Nonce>, p: ByteString, q: ByteString, k: nat)
    requires |p| == PAYLOAD * |ns| && PAYLOAD * |ms| >= |q|
    ensures SealStream(a, hn, ns + ms, p + q, k) == SealStream(a, hn, ns, p, k) + SealStream(a, hn, ms, q, k + |ns|)
    decreases |ns|
  {
    var ns', p' := ns + ms, p + q;
    if |ns| == 0 {
      assert p' == q && ns' == ms;
    } else {
      assert ns'[1..] == ns[1..] + ms && ns'[0] == ns[0];
      assert p'[..PAYLOAD] == p[..PAYLOAD] && p'[PAYLOAD..] == p[PAYLOAD..] + q;
      SealStreamAppend(a, hn, ns[1..], ms, p[PAYLOAD..], q, k + 1);
      if |ns| == 1 {
        assert p[..PAYLOAD] == p && p[PAYLOAD..] == [];
        if q == [] {
          assert p' == p;
        }
      }
    }
  }

  lemma RecordLength(a: Aead, hn: ByteString, nonce: Nonce, chunk: ByteString, k: nat)
    requires a.Expands()
    ensures |Record(a, hn, nonce, chunk, k)| == |chunk| + 28
  {
    assert a.ExpandsAt(nonce, chunk, ChunkAAD(k, hn));
  }

  /** The body has the length the size arithmetic announces. */
  lemma {:induction false} SealStreamLength(a: Aead, hn: ByteString, ns: seq<Nonce>, p: ByteString, k: nat)
    requires a.Expands() && PAYLOAD * |ns| >= |p|
    ensures HEADER_SIZE + |SealStream(a, hn, ns, p, k)| == PlaintextSize2CipherSize(|p|)
    decreases |p|
  {
    if p == [] {
    } else if |p| <= PAYLOAD {
      RecordLength(a, hn, ns[0], p, k);
    } else {
      RecordLength(a, hn, ns[0], p[..PAYLOAD], k);
      SealStreamLength(a, hn, ns[1..], p[PAYLOAD..], k + 1);
    }
  }

  /** Seeking past k whole records leaves the stream of the remaining plaintext. */
  lemma {:induction false} SealStreamDrop(a: Aead, hn: ByteString, ns: seq<Nonce>, p: ByteString, k: nat)
    requires a.Expands() && PAYLOAD * |ns| >= |p| && PAYLOAD * k <= |p|
    ensures k <= |ns| && CIPHER * k <= |SealStream(a, hn, ns, p, 0)|
    ensures SealStream(a, hn, ns, p, 0)[CIPHER * k..] == SealStream(a, hn, ns[k..], p[PAYLOAD * k..], k)
  {
    var front, rest := p[..PAYLOAD * k], p[PAYLOAD * k..];
    assert front + rest == p && ns[..k] + ns[k..] == ns;
    SealStreamAppend(a, hn, ns[..k], ns[k..], front, rest, 0);
    SealStreamLength(a, hn, ns[..k], front, 0);
  }

  // ---- An ideal cipher: under the file's key exactly the chunks of the plaintext open ----

  /** Chunk k sealed under nonce n opens to itself. */
  ghost predicate OpensChunkAt(a: Aead, hn: ByteString, plain: ByteString, n: ByteString, k: nat) {
    PAYLOAD * k < |plain| ==>
      var chunk, ad := PlainChunk(plain, k), ChunkAAD(k, hn);
      a.open(n, a.seal(n, chunk, ad), ad) == Some(chunk)
  }

  ghost predicate OpensChunks(a: Aead, hn: ByteString, plain: ByteString) {
    forall n: ByteString, k: nat {:trigger OpensChunkAt(a, hn, plain, n, k)} :: OpensChunkAt(a, hn, plain, n, k)
  }

  /** What opens is some chunk of the plaintext under its own number. */
  ghost predicate OpensOnlyAt(
    a: Aead, hn: ByteString, plain: ByteString, n: ByteString, c: ByteString, ad: ByteString)
  {
    a.open(n, c, ad).Some? ==>
      exists k: nat :: PAYLOAD * k < |plain| && ad == ChunkAAD(k, hn) && a.open(n, c, ad).value == PlainChunk(plain, k)
  }

  ghost predicate OpensOnly(a: Aead, hn: ByteString, plain: ByteString) {
    forall n: ByteString, c: ByteString, ad: ByteString {:trigger OpensOnlyAt(a, hn, plain, n, c, ad)} ::
      OpensOnlyAt(a, hn, plain, n, c, ad)
  }

  /** The three hypotheses are consistent, whatever the plaintext. */
  lemma IdealCipherExists(hn: ByteString, plain: ByteString) returns (a: Aead)
    requires |plain| <= MAX_INT64
    ensures a.Expands() && OpensChunks(a, hn, plain) && OpensOnly(a, hn, plain)
  {
    var sealFn := (n: ByteString, p: ByteString, ad: ByteString) => p + Zeros(16);
    var openFn := (n: ByteString, c: ByteString, ad: ByteString) =>
      if exists k: nat :: IsChunkRecord(hn, plain, c, ad, k) then Some(c[..|c| - 16]) else None;
    a := Aead(sealFn, openFn);
    forall n: ByteString, k: nat ensures OpensChunkAt(a, hn, plain, n, k) {
      if PAYLOAD * k < |plain| {
        var chunk := PlainChunk(plain, k);
        assert IsChunkRecord(hn, plain, chunk + Zeros(16), ChunkAAD(k, hn), k);
        assert (chunk + Zeros(16))[..|chunk|] == chunk;
      }
    }
    forall n: ByteString, c: ByteString, ad: ByteString ensures OpensOnlyAt(a, hn, plain, n, c, ad) {
      if a.open(n, c, ad).Some? {
        var k: nat :| IsChunkRecord(hn, plain, c, ad, k);
        assert c[..|c| - 16] == PlainChunk(plain, k);
      }
    }
  }

  ghost predicate IsChunkRecord(hn: ByteString, plain: ByteString, c: ByteString, ad: ByteString, k: nat) {
    PAYLOAD * k < |plain| && c == PlainChunk(plain, k) + Zeros(16) && ad == ChunkAAD(k, hn)
  }
}
