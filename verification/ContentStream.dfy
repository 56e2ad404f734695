/** EncryptingWriter and its destination (internal/crypto/content.go). */
module ContentStream {
  import opened Bytes
  import opened SealedStreams

  /** The destination of a writer; unless it is reliable, a write may fail after storing a prefix. */
  class Sink {
    const reliable: bool
    var data: ByteString

    constructor (header: ByteString, reliable: bool)
      ensures data == header && this.reliable == reliable
    {
      data := header;
      this.reliable := reliable;
    }

    method Write(b: ByteString) returns (ok: bool)
      modifies this
      ensures ok ==> data == old(data) + b
      ensures !ok ==> !reliable && exists n: nat :: n <= |b| && data == old(data) + b[..n]
    {
      var stored: bool :| reliable ==> stored;
      if stored {
        data := data + b;
        ok := true;
      } else {
        var n: nat :| n <= |b|;
        data := data + b[..n];
        ok := false;
      }
    }
  }

  /** rand.Read into a 12-byte nonce; it may fail where the sink may. */
  method RandomNonce(reliable: bool) returns (nonce: Nonce, ok: bool)
    ensures reliable ==> ok
  {
    assert |Zeros(12)| == 12;
    nonce :| |nonce| == 12;
    ok :| reliable ==> ok;
  }

  /** The next record extends the sealed stream of whole chunks. */
  lemma SealsChunk(a: Aead, hn: ByteString, nonces: seq<Nonce>, nonce: Nonce, plain: ByteString, chunk: ByteString)
    requires |plain| == PAYLOAD * |nonces| && 0 < |chunk| <= PAYLOAD
    ensures SealStream(a, hn, nonces + [nonce], plain + chunk, 0)
         == SealStream(a, hn, nonces, plain, 0) + (nonce + a.seal(nonce, chunk, ChunkAAD(|nonces|, hn)))
  {
    SealStreamAppend(a, hn, nonces, [nonce], plain, chunk, 0);
  }

  class EncryptingWriter {
    const w: Sink
    const gcm: Aead
    const headerNonce: ByteString
    const header: ByteString
    var chunkNum: nat
    var buf: ByteString

    /** Every byte accepted so far, how many of them are sealed, and the nonces of the chunks written. */
    ghost var accepted: ByteString
    ghost var sealedLen: nat
    ghost var nonces: seq<Nonce>
    /** A sink write failed, and the chunks that were whole by then: their plaintext and nonces. */
    ghost var torn: bool
    ghost var wholePlain: ByteString
    ghost var wholeNonces: seq<Nonce>

    ghost predicate Valid()
      reads this, w
    {
      && |buf| <= PAYLOAD && chunkNum == |nonces| && sealedLen <= PAYLOAD * chunkNum
      && |accepted| == sealedLen + |buf| && accepted[sealedLen..] == buf
      && (torn ==> Beginning())
      && (!torn ==> w.data == header + SealStream(gcm, headerNonce, nonces, accepted[..sealedLen], 0))
    }

    /** What was sealed before the first failed write is still where the file begins. */
    ghost predicate Beginning()
      reads this, w
    {
      && wholeNonces <= nonces && wholePlain <= accepted && |wholePlain| == PAYLOAD * |wholeNonces|
      && header + SealStream(gcm, headerNonce, wholeNonces, wholePlain, 0) <= w.data
    }

    /** What was whole at the first failed write is remembered: then, every chunk sealed so far. */
    twostate predicate Remembers()
      reads this
    {
      && (old(torn) ==> torn && wholePlain == old(wholePlain) && wholeNonces == old(wholeNonces))
      && (torn && !old(torn) ==> wholeNonces == nonces)
    }

    /** Only whole chunks have been sealed, so more plaintext may follow. */
    ghost predicate Open()
      reads this
    {
      sealedLen == PAYLOAD * chunkNum
    }

    constructor (w: Sink, gcm: Aead, headerNonce: ByteString)
      ensures Valid() && Open() && this.w == w && this.gcm == gcm && this.headerNonce == headerNonce && header == w.data
      ensures accepted == [] && !torn && buf == []
    {
      this.w, this.gcm, this.headerNonce := w, gcm, headerNonce;
      header := w.data;
      chunkNum, buf := 0, [];
      accepted, sealedLen, nonces, torn, wholePlain, wholeNonces := [], 0, [], false, [], [];
    }

    /** Hands a record to the sink and remembers what was whole if that is the first write to fail. */
    method Emit(record: ByteString) returns (written: bool)
      requires Valid() && Open()
      modifies w, this`torn, this`wholePlain, this`wholeNonces
      ensures written ==> w.data == old(w.data) + record && torn == old(torn)
      ensures Remembers()
      ensures !written ==> Valid() && torn && !w.reliable
      ensures torn ==> Beginning()
    {
      written := w.Write(record);
      if !written && !torn {
        torn, wholePlain, wholeNonces := true, accepted[..sealedLen], nonces;
      }
    }

    method FlushChunk() returns (ok: bool)
      requires Valid() && Open()
      modifies this, w
      ensures Valid() && accepted == old(accepted) && Remembers()
      ensures ok ==> buf == [] && torn == old(torn)
      ensures ok && old(|buf|) == PAYLOAD ==> Open()
      ensures !ok ==> Open() && buf == old(buf) && !w.reliable
    {
      hide SealStream;
      if buf == [] {
        assert accepted[..sealedLen] == accepted;
        return true;
      }
      var nonce, seeded := RandomNonce(w.reliable);
      if !seeded {
        return false;
      }
      var aad := ChunkAAD(chunkNum, headerNonce);
      var ciphertext := gcm.seal(nonce, buf, aad);
      var written := Emit(nonce + ciphertext);
      if !written {
        return false;
      }
      SealsChunk(gcm, headerNonce, nonces, nonce, accepted[..sealedLen], buf);
      assert accepted[..sealedLen] + buf == accepted == accepted[..|accepted|];
      nonces := nonces + [nonce];
      sealedLen := |accepted|;
      chunkNum := chunkNum + 1;
      buf := [];
      return true;
    }

    /** buf = append(buf, part...). */
    method Buffer(part: ByteString)
      requires Valid() && |buf| + |part| <= PAYLOAD
      modifies this
      ensures Valid() && accepted == old(accepted) + part && buf == old(buf) + part
      ensures torn == old(torn) && Remembers() && (old(Open()) ==> Open())
    {
      assert (accepted + part)[..sealedLen] == accepted[..sealedLen];
      buf := buf + part;
      accepted := accepted + part;
    }

    /** Completes a chunk with part and seals it; part stays accepted if that fails. */
    method FillChunk(part: ByteString) returns (ok: bool)
      requires Valid() && Open() && |buf| + |part| == PAYLOAD
      modifies this, w
      ensures Valid() && Open() && accepted == old(accepted) + part && Remembers()
      ensures |buf| <= PAYLOAD && (ok ==> torn == old(torn) && buf == [])
      ensures w.reliable ==> ok
    {
      Buffer(part);
      ok := FlushChunk();
    }

    /** Accepts p; on failure the first n bytes of p have been taken. */
    method Write(p: ByteString) returns (n: nat, ok: bool)
      requires Valid() && Open()
      modifies this, w
      ensures Valid() && Open() && n <= |p| && accepted == old(accepted) + p[..n]
      ensures ok ==> n == |p| && torn == old(torn)
      ensures Remembers()
      ensures w.reliable ==> ok
    {
      hide Valid, Open;
      var rest := p;
      n := 0;
      assert p[..0] == [] && accepted == old(accepted) + p[..0];
      BufferFits();
      while |rest| > 0
        invariant n <= |p| && rest == p[n..] && |buf| <= PAYLOAD
        invariant Valid() && Open() && accepted == old(accepted) + p[..n] && torn == old(torn) && Remembers()
        decreases |rest|, |buf|
      {
        var space := PAYLOAD - |buf|;
        if |rest| < space {
          Buffer(rest);
          assert p[..n] + rest == p == p[..|p|];
          n := |p|;
          break;
        }
        assert p[..n] + rest[..space] == p[..n + space];
        assert rest[space..] == p[n + space..];
        var flushed := FillChunk(rest[..space]);
        rest := rest[space..];
        n := n + space;
        if !flushed {
          return n, false;
        }
      }
      ok := true;
    }

    lemma BufferFits()
      requires Valid()
      ensures |buf| <= PAYLOAD
    {
    }

    /** Seals what is still buffered; on success an untorn file holds the sealed stream of all accepted bytes. */
    method Close() returns (ok: bool)
      requires Valid() && Open()
      modifies this, w
      ensures w.reliable ==> ok
      ensures Valid() && accepted == old(accepted)
      ensures Remembers() && (torn ==> Beginning())
      ensures ok && !old(torn) ==>
                PAYLOAD * |nonces| >= |accepted| && w.data == header + SealStream(gcm, headerNonce, nonces, accepted, 0)
    {
      ok := FlushChunk();
      assert accepted[..|accepted|] == accepted;
    }
  }
}
