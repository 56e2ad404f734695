/** Size and offset arithmetic of the chunked file format (internal/crypto/content.go). */
module ContentSizes {
  const HEADER_SIZE: int := 68
  const CHUNK_NONCE_SIZE: int := 12
  const CHUNK_TAG_SIZE: int := 16
  const CHUNK_PAYLOAD_SIZE: int := 32768
  const CHUNK_CIPHER_SIZE: int := 32796

  const MAX_INT64: int := 0x7FFF_FFFF_FFFF_FFFF
  /** The largest plaintext size whose ciphertext size fits an int64. */
  const MAX_PLAINTEXT_SIZE: int := 9215497466265925459

  /** Go's division and remainder by a positive constant, which truncate toward zero. */
  function GoDiv(a: int, b: int): int
    requires b > 0
  {
    if a >= 0 then a / b else -((-a) / b)
  }

  function GoMod(a: int, b: int): int
    requires b > 0
  {
    if a >= 0 then a % b else -((-a) % b)
  }

  function PlaintextSize2CipherSize(plaintextSize: int): (size: int) {
    if plaintextSize == 0 then HEADER_SIZE
    else
      var fullChunks := GoDiv(plaintextSize, CHUNK_PAYLOAD_SIZE);
      var remainder := GoMod(plaintextSize, CHUNK_PAYLOAD_SIZE);
      HEADER_SIZE + fullChunks * CHUNK_CIPHER_SIZE +
      if remainder > 0 then CHUNK_NONCE_SIZE + remainder + CHUNK_TAG_SIZE else 0
  }

  function CipherSize2PlaintextSize(cipherSize: int): (size: int) {
    if cipherSize <= HEADER_SIZE then 0
    else
      var contentSize := cipherSize - HEADER_SIZE;
      var fullChunks := contentSize / CHUNK_CIPHER_SIZE;
      var remainder := contentSize % CHUNK_CIPHER_SIZE;
      var minimum := CHUNK_NONCE_SIZE + CHUNK_TAG_SIZE;
      fullChunks * CHUNK_PAYLOAD_SIZE + if remainder < minimum then 0 else remainder - minimum
  }

  datatype CipherPosition = CipherPosition(cipherOffset: int, chunkIndex: int, skipBytes: int)

  function PlaintextOffset2CipherOffset(plaintextOffset: int): (pos: CipherPosition) {
    var chunkIndex := GoDiv(plaintextOffset, CHUNK_PAYLOAD_SIZE);
    CipherPosition(HEADER_SIZE + chunkIndex * CHUNK_CIPHER_SIZE, chunkIndex, GoMod(plaintextOffset, CHUNK_PAYLOAD_SIZE))
  }

  /** The two conversions form a Galois connection between plaintext and ciphertext sizes. */
  lemma SizesAreGaloisConnection(p: int, c: int)
    requires p >= 0 && c >= HEADER_SIZE
    ensures PlaintextSize2CipherSize(p) <= c <==> p <= CipherSize2PlaintextSize(c)
  {
    var a, r := p / CHUNK_PAYLOAD_SIZE, p % CHUNK_PAYLOAD_SIZE;
    var b, s := (c - HEADER_SIZE) / CHUNK_CIPHER_SIZE, (c - HEADER_SIZE) % CHUNK_CIPHER_SIZE;
    assert p == a * CHUNK_PAYLOAD_SIZE + r && c - HEADER_SIZE == b * CHUNK_CIPHER_SIZE + s;
    if a < b {
      assert a + 1 <= b;
    } else if a > b {
      assert a >= b + 1;
    }
  }

  /** Hence the round trip from plaintext sizes is exact. */
  lemma SizeRoundTrip(p: int)
    requires p >= 0
    ensures PlaintextSize2CipherSize(p) >= HEADER_SIZE
    ensures CipherSize2PlaintextSize(PlaintextSize2CipherSize(p)) == p
  {
    var a, r := p / CHUNK_PAYLOAD_SIZE, p % CHUNK_PAYLOAD_SIZE;
    assert p == a * CHUNK_PAYLOAD_SIZE + r;
    var s := if r > 0 then r + CHUNK_NONCE_SIZE + CHUNK_TAG_SIZE else 0;
    assert PlaintextSize2CipherSize(p) - HEADER_SIZE == a * CHUNK_CIPHER_SIZE + s;
    if r == 0 && a > 0 {
      assert (a * CHUNK_CIPHER_SIZE) / CHUNK_CIPHER_SIZE == a;
    }
  }

  /** And the size a server announces never decreases as a file grows. */
  lemma PlaintextSizeMonotone(c: int, d: int)
    requires c <= d
    ensures 0 <= CipherSize2PlaintextSize(c) <= CipherSize2PlaintextSize(d)
  {
    if c > HEADER_SIZE {
      var p := CipherSize2PlaintextSize(c);
      SizesAreGaloisConnection(p, c);
      SizesAreGaloisConnection(p, d);
    }
  }

  /** Every byte of a p-byte plaintext is located inside the chunk that starts at the returned offset. */
  lemma OffsetLandsOnChunk(p: int, offset: int)
    requires 0 <= offset < p
    ensures var pos := PlaintextOffset2CipherOffset(offset);
            && 0 <= pos.skipBytes < CHUNK_PAYLOAD_SIZE
            && pos.chunkIndex * CHUNK_PAYLOAD_SIZE + pos.skipBytes == offset
            && pos.cipherOffset == PlaintextSize2CipherSize(pos.chunkIndex * CHUNK_PAYLOAD_SIZE)
            && pos.cipherOffset < PlaintextSize2CipherSize(p)
  {
    var pos := PlaintextOffset2CipherOffset(offset);
    var k := pos.chunkIndex;
    assert (k * CHUNK_PAYLOAD_SIZE) / CHUNK_PAYLOAD_SIZE == k && (k * CHUNK_PAYLOAD_SIZE) % CHUNK_PAYLOAD_SIZE == 0;
    SizesAreGaloisConnection(p, pos.cipherOffset);
    SizeRoundTrip(k * CHUNK_PAYLOAD_SIZE);
  }

  // ---- The same arithmetic in 64-bit words ----

  /** Two's-complement truncation to int64. */
  function Wrap64(x: int): (y: int)
    ensures -0x8000_0000_0000_0000 <= y <= MAX_INT64
    ensures -0x8000_0000_0000_0000 <= x <= MAX_INT64 ==> y == x
  {
    (x + 0x8000_0000_0000_0000) % 0x1_0000_0000_0000_0000 - 0x8000_0000_0000_0000
  }

  /** PlaintextSize2CipherSize as compiled, every operation reduced to int64. */
  function PlaintextSize2CipherSize64(plaintextSize: int): (size: int)
    requires 0 <= plaintextSize <= MAX_INT64
  {
    if plaintextSize == 0 then HEADER_SIZE
    else
      var fullChunks := plaintextSize / CHUNK_PAYLOAD_SIZE;
      var remainder := plaintextSize % CHUNK_PAYLOAD_SIZE;
      var size := Wrap64(HEADER_SIZE + Wrap64(fullChunks * CHUNK_CIPHER_SIZE));
      if remainder > 0 then
        Wrap64(size + Wrap64(Wrap64(CHUNK_NONCE_SIZE + remainder) + CHUNK_TAG_SIZE))
      else size
  }

  /** The machine arithmetic is exact if and only if the plaintext is at most MAX_PLAINTEXT_SIZE bytes. */
  lemma NoOverflowExactly(p: int)
    requires 0 <= p <= MAX_INT64
    ensures PlaintextSize2CipherSize64(p) == PlaintextSize2CipherSize(p) <==> p <= MAX_PLAINTEXT_SIZE
  {
    SizesAreGaloisConnection(p, MAX_INT64);
    assert CipherSize2PlaintextSize(MAX_INT64) == MAX_PLAINTEXT_SIZE;
    var fullChunks, remainder := p / CHUNK_PAYLOAD_SIZE, p % CHUNK_PAYLOAD_SIZE;
    assert 0 <= fullChunks * CHUNK_CIPHER_SIZE <= PlaintextSize2CipherSize(p);
  }
}
