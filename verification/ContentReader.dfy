/** DecryptingReader and its source (internal/crypto/content.go). */
module ContentReader {
  import opened Bytes
  import opened ContentSizes
  import opened SealedStreams
  import opened Wrappers

  datatype ReadError = NoError | EOF | UnexpectedEOF | IOError | CorruptContent

  function Min(a: int, b: int): int {
    if a <= b then a else b
  }

  /** An open file. A reliable one returns its bytes; an unreliable one may return any bytes and fail anywhere. */
  class Source {
    const file: ByteString
    const reliable: bool
    var pos: nat

    constructor (file: ByteString, reliable: bool)
      ensures this.file == file && this.reliable == reliable && pos == 0
    {
      this.file, this.reliable, this.pos := file, reliable, 0;
    }

    method Seek(offset: nat)
      modifies this
      ensures pos == offset
    {
      pos := offset;
    }

    /** io.ReadFull into an n-byte buffer. */
    method ReadFull(n: nat) returns (data: ByteString, err: ReadError)
      requires n > 0
      modifies this
      ensures |data| <= n && err != CorruptContent
      ensures err == NoError <==> |data| == n
      ensures reliable ==> data == if old(pos) >= |file| then [] else file[old(pos)..Min(old(pos) + n, |file|)]
      ensures reliable ==> pos == old(pos) + |data|
      ensures reliable ==> err == if |data| == n then NoError else if data == [] then EOF else UnexpectedEOF
    {
      if reliable {
        data := if pos >= |file| then [] else file[pos..Min(pos + n, |file|)];
        err := if |data| == n then NoError else if data == [] then EOF else UnexpectedEOF;
      } else {
        assert |Zeros(n)| <= n;
        data :| |data| <= n;
        err := NoError;
        if |data| < n {
          err :| err == EOF || err == UnexpectedEOF || err == IOError;
        }
      }
      pos := pos + |data|;
    }
  }

  /** The plaintext of chunks lo, ..., hi-1. */
  function ChunkSpan(plain: ByteString, lo: nat, hi: nat): (s: ByteString)
    requires lo <= hi
  {
    plain[Min(PAYLOAD * lo, |plain|)..Min(PAYLOAD * hi, |plain|)]
  }

  lemma ChunkSpanExtends(plain: ByteString, lo: nat, k: nat)
    requires lo <= k && PAYLOAD * k < |plain|
    ensures ChunkSpan(plain, lo, k + 1) == ChunkSpan(plain, lo, k) + PlainChunk(plain, k)
  {
  }

  /** Chunk numbers are bound into the associated data, so an opened chunk is the expected one. */
  lemma OpenedChunkIsExpected(a: Aead, hn: ByteString, plain: ByteString, n: ByteString, c: ByteString, k: nat)
    requires OpensOnly(a, hn, plain) && |plain| <= MAX_INT64 && PAYLOAD * k <= MAX_INT64 + PAYLOAD
    requires a.open(n, c, ChunkAAD(k, hn)).Some?
    ensures PAYLOAD * k < |plain| && a.open(n, c, ChunkAAD(k, hn)).value == PlainChunk(plain, k)
  {
    var ad := ChunkAAD(k, hn);
    assert OpensOnlyAt(a, hn, plain, n, c, ad);
    var k': nat :| PAYLOAD * k' < |plain| && ad == ChunkAAD(k', hn) && a.open(n, c, ad).value == PlainChunk(plain, k');
    assert BE64(k) == ad[..8] && BE64(k') == ChunkAAD(k', hn)[..8];
    assert Pow256(8) == 0x1_0000_0000_0000_0000;
    BE64Injective(k, k');
  }

  /** On the writer's own output, the record at its place opens to its chunk. */
  lemma RecordAtChunk(a: Aead, hn: ByteString, ns: seq<Nonce>, plain: ByteString, k: nat)
    requires a.Expands() && OpensChunks(a, hn, plain) && PAYLOAD * |ns| >= |plain| && PAYLOAD * k < |plain|
    ensures var body := SealStream(a, hn, ns, plain, 0);
            var chunk := PlainChunk(plain, k);
            && k < |ns|
            && CIPHER * k + |chunk| + 28 <= |body|
            && body[CIPHER * k..CIPHER * k + |chunk| + 28] == Record(a, hn, ns[k], chunk, k)
            && (PAYLOAD * (k + 1) >= |plain| ==> CIPHER * k + |chunk| + 28 == |body|)
            && a.open(ns[k], Record(a, hn, ns[k], chunk, k)[12..], ChunkAAD(k, hn)) == Some(chunk)
  {
    var body := SealStream(a, hn, ns, plain, 0);
    var chunk := PlainChunk(plain, k);
    SealStreamDrop(a, hn, ns, plain, k);
    assert a.ExpandsAt(ns[k], chunk, ChunkAAD(k, hn));
    assert OpensChunkAt(a, hn, plain, ns[k], k);
    var rest := plain[PAYLOAD * k..];
    assert chunk == if |rest| <= PAYLOAD then rest else rest[..PAYLOAD];
    var r := Record(a, hn, ns[k], chunk, k);
    assert r[12..] == a.seal(ns[k], chunk, ChunkAAD(k, hn));
    var tail := body[CIPHER * k..];
    assert tail[..|r|] == r;
  }

  /** A full read at a record's place returns exactly the record. */
  lemma FileSlice(header: ByteString, body: ByteString, at: nat, m: nat)
    requires at + m <= |body| && m <= CIPHER && (m == CIPHER || at + m == |body|)
    ensures var file, pos := header + body, |header| + at;
            (header + body)[pos..Min(pos + CIPHER, |file|)] == body[at..at + m]
  {
  }

  class DecryptingReader {
    const r: Source
    const gcm: Aead
    const headerNonce: ByteString
    var chunkNum: nat
    var buf: ByteString
    var offset: nat
    var done: bool

    /** What the writer sealed and how, the first chunk requested, and the bytes delivered. */
    ghost const plain: ByteString
    ghost const header: ByteString
    ghost const nonces: seq<Nonce>
    ghost const startChunk: nat
    ghost var delivered: ByteString

    /** The bytes delivered, then those still buffered, are the plaintext of the chunks opened so far. */
    ghost predicate Valid()
      reads this
    {
      && OpensOnly(gcm, headerNonce, plain) && |plain| <= MAX_INT64
      && startChunk <= chunkNum && (startChunk == chunkNum || PAYLOAD * (chunkNum - 1) < |plain|)
      && offset <= |buf| && PAYLOAD * startChunk <= MAX_INT64
      && delivered + buf[offset..] == ChunkSpan(plain, startChunk, chunkNum)
    }

    /** The source is a reliable file holding the writer's own output, positioned at the next record. */
    ghost predicate Genuine()
      reads this, r
    {
      && r.reliable && gcm.Expands() && OpensChunks(gcm, headerNonce, plain)
      && |header| == HEADER_SIZE && PAYLOAD * |nonces| >= |plain|
      && r.file == header + SealStream(gcm, headerNonce, nonces, plain, 0)
      && (if PAYLOAD * chunkNum < |plain| then r.pos == HEADER_SIZE + CIPHER * chunkNum && !done
          else r.pos >= |r.file|)
    }

    /** What may still be delivered from the requested chunk on. */
    ghost function Wanted(): ByteString {
      plain[Min(PAYLOAD * startChunk, |plain|)..]
    }

    constructor (r: Source, gcm: Aead, headerNonce: ByteString, startChunk: nat,
                 ghost plain: ByteString, ghost header: ByteString, ghost nonces: seq<Nonce>)
      requires OpensOnly(gcm, headerNonce, plain) && |plain| <= MAX_INT64 && PAYLOAD * startChunk <= MAX_INT64
      ensures Valid() && delivered == [] && this.r == r && this.gcm == gcm && this.headerNonce == headerNonce
      ensures this.plain == plain && this.header == header && this.nonces == nonces
      ensures this.startChunk == startChunk && chunkNum == startChunk && !done
    {
      this.r, this.gcm, this.headerNonce := r, gcm, headerNonce;
      chunkNum, buf, offset, done := startChunk, [], 0, false;
      this.plain, this.header, this.nonces, this.startChunk, this.delivered := plain, header, nonces, startChunk, [];
    }

    /** However the reads went, only a prefix of the wanted plaintext has been delivered. */
    lemma DeliversOnlyPrefix()
      requires Valid()
      ensures delivered <= Wanted()
    {
      var span := ChunkSpan(plain, startChunk, chunkNum);
      assert delivered == span[..|delivered|];
      assert span == Wanted()[..|span|];
    }

    /** Hands out up to n buffered bytes. */
    method Take(n: nat) returns (out: ByteString)
      requires Valid()
      modifies this
      ensures Valid() && chunkNum == old(chunkNum) && done == old(done)
      ensures |out| == Min(n, old(|buf| - offset)) && delivered == old(delivered) + out
    {
      var copied := Min(n, |buf| - offset);
      out := buf[offset..offset + copied];
      assert buf[offset..] == out + buf[offset + copied..];
      offset := offset + copied;
      delivered := delivered + out;
    }

    /** What a genuine source returns for the next record. */
    lemma GenuineRecord(data: ByteString, readErr: ReadError)
      requires Valid() && Genuine() && PAYLOAD * chunkNum < |plain|
      requires data == if r.pos >= |r.file| then [] else r.file[r.pos..Min(r.pos + CIPHER, |r.file|)]
      requires readErr == if |data| == CIPHER then NoError else if data == [] then EOF else UnexpectedEOF
      ensures var chunk := PlainChunk(plain, chunkNum);
              && |data| == |chunk| + 28 && chunk != []
              && (readErr == NoError || (readErr == UnexpectedEOF && PAYLOAD * (chunkNum + 1) > |plain|))
              && gcm.open(data[..12], data[12..], ChunkAAD(chunkNum, headerNonce)) == Some(chunk)
              && (PAYLOAD * (chunkNum + 1) >= |plain| ==> r.pos + |data| >= |r.file|)
    {
      var body := SealStream(gcm, headerNonce, nonces, plain, 0);
      var chunk := PlainChunk(plain, chunkNum);
      RecordAtChunk(gcm, headerNonce, nonces, plain, chunkNum);
      var record := Record(gcm, headerNonce, nonces[chunkNum], chunk, chunkNum);
      var at := CIPHER * chunkNum;
      FileSlice(header, body, at, |chunk| + 28);
      assert data == record;
      assert data[..12] == nonces[chunkNum];
    }

    /** Opens a record under the current chunk number and buffers its plaintext. */
    method Install(data: ByteString) returns (err: ReadError)
      requires Valid() && offset == |buf| && |data| >= 28
      modifies this
      ensures Valid() && delivered == old(delivered) && done == old(done)
      ensures var res := gcm.open(data[..12], data[12..], ChunkAAD(old(chunkNum), headerNonce));
              err == if res.Some? then NoError else CorruptContent
      ensures err == NoError ==> offset == 0 && buf != [] && chunkNum == old(chunkNum) + 1
      ensures err != NoError ==> offset == |buf| && chunkNum == old(chunkNum)
    {
      var res := gcm.open(data[..12], data[12..], ChunkAAD(chunkNum, headerNonce));
      if res.None? {
        return CorruptContent;
      }
      OpenedChunkIsExpected(gcm, headerNonce, plain, data[..12], data[12..], chunkNum);
      ChunkSpanExtends(plain, startChunk, chunkNum);
      assert delivered + buf[offset..] == delivered;
      chunkNum := chunkNum + 1;
      buf := res.value;
      offset := 0;
      assert buf[offset..] == buf;
      err := NoError;
    }

    /** Reads, authenticates and buffers the next record. */
    method NextChunk() returns (err: ReadError)
      requires Valid() && offset == |buf| && !done
      modifies this, r
      ensures Valid() && delivered == old(delivered)
      ensures err == NoError ==> offset == 0 && buf != []
      ensures err != NoError ==> offset == |buf|
      ensures old(Genuine()) ==> Genuine() && (err == NoError || (err == EOF && PAYLOAD * chunkNum >= |plain|))
    {
      ghost var expected := if r.pos >= |r.file| then [] else r.file[r.pos..Min(r.pos + CIPHER, |r.file|)];
      if Genuine() && PAYLOAD * chunkNum < |plain| {
        var ending := if |expected| == CIPHER then NoError else if expected == [] then EOF else UnexpectedEOF;
        GenuineRecord(expected, ending);
      }
      var data, readErr := r.ReadFull(CIPHER);
      if data == [] {
        if readErr == EOF || readErr == UnexpectedEOF {
          done := true;
          return EOF;
        }
        return readErr;
      }
      if |data| < 28 {
        done := true;
        return CorruptContent;
      }
      if readErr == IOError {
        return IOError;
      }
      err := Install(data);
      if err == NoError && (readErr == EOF || readErr == UnexpectedEOF) {
        done := true;
      }
    }

    /** Once all chunks are opened and the buffer is drained, everything wanted has been delivered. */
    lemma DrainedMeansComplete()
      requires Valid() && offset == |buf| && PAYLOAD * chunkNum >= |plain|
      ensures delivered == Wanted()
    {
      assert delivered + buf[offset..] == delivered;
      assert PAYLOAD * startChunk <= |plain| || Wanted() == [];
    }

    /** Read into an n-byte buffer. */
    method Read(n: nat) returns (out: ByteString, err: ReadError)
      requires Valid()
      modifies this, r
      ensures Valid() && |out| <= n && delivered == old(delivered) + out
      ensures err != NoError ==> out == []
      ensures err == NoError && n > 0 ==> out != []
      ensures old(Genuine()) ==> Genuine() && (err == NoError || (err == EOF && delivered == Wanted()))
    {
      if n == 0 {
        return [], NoError;
      }
      if offset < |buf| {
        out := Take(n);
        return out, NoError;
      }
      if PAYLOAD * chunkNum >= |plain| {
        DrainedMeansComplete();
      }
      if done {
        return [], EOF;
      }
      err := NextChunk();
      if err != NoError {
        return [], err;
      }
      out := Take(n);
    }
  }
}
