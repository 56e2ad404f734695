/** Encrypting a file in pieces and serving ranges of it: the two halves of the content format together. */
module ContentService {
  import opened Bytes
  import opened ContentSizes
  import opened SealedStreams
  import opened ContentStream
  import opened ContentReader
  import opened RangeRequest

  function Concat(pieces: seq<ByteString>): ByteString {
    if pieces == [] then [] else Concat(pieces[..|pieces| - 1]) + pieces[|pieces| - 1]
  }

  /**
   * Writes the pieces one by one and closes the writer. On success the file holds the sealed stream
   * of the concatenation, however the plaintext was cut into pieces.
   */
  method EncryptPieces(pieces: seq<ByteString>, gcm: Aead, headerNonce: ByteString, header: ByteString, reliable: bool)
    returns (file: ByteString, ok: bool, ghost nonces: seq<Nonce>)
    ensures reliable ==> ok
    ensures ok ==> PAYLOAD * |nonces| >= |Concat(pieces)| &&
                   file == header + SealStream(gcm, headerNonce, nonces, Concat(pieces), 0)
  {
    nonces := [];
    var sink := new Sink(header, reliable);
    var writer := new EncryptingWriter(sink, gcm, headerNonce);
    var i := 0;
    while i < |pieces|
      invariant sink.reliable == reliable
      invariant 0 <= i <= |pieces| && fresh(writer) && fresh(sink) && writer.w == sink
      invariant writer.Valid() && writer.Open() && !writer.torn && writer.accepted == Concat(pieces[..i])
    {
      var n, written := writer.Write(pieces[i]);
      if !written {
        return [], false, [];
      }
      assert pieces[i][..n] == pieces[i] && pieces[..i + 1][..i] == pieces[..i];
      i := i + 1;
    }
    assert pieces[..i] == pieces;
    ok := writer.Close();
    file := sink.data;
    nonces := writer.nonces;
  }

  /**
   * Any file the writer produced is answered, for any Range header, with exactly the selected plaintext. Storing
   * fails only where the disk or the random source may.
   */
  method StoreAndServe(pieces: seq<ByteString>, gcm: Aead, headerNonce: ByteString, header: ByteString,
                       rangeHeader: string, reliable: bool)
    returns (stored: bool, totalSize: int, reply: Reply)
    requires |header| == HEADER_SIZE && |Concat(pieces)| <= MAX_PLAINTEXT_SIZE
    requires gcm.Expands() && OpensChunks(gcm, headerNonce, Concat(pieces))
    requires OpensOnly(gcm, headerNonce, Concat(pieces))
    ensures reliable ==> stored
    ensures stored ==> totalSize == |Concat(pieces)| && Answers(reply, rangeHeader, Concat(pieces))
  {
    var data, ok, nonces := EncryptPieces(pieces, gcm, headerNonce, header, reliable);
    if !ok {
      return false, 0, NotSatisfiable;
    }
    ghost var plain := Concat(pieces);
    SealStreamLength(gcm, headerNonce, nonces, plain, 0);
    SizeRoundTrip(|plain|);
    var file := new Source(data, true);
    totalSize := CipherSize2PlaintextSize(|data|);
    reply := HandleRangeRequest(file, gcm, headerNonce, totalSize, rangeHeader, plain, header, nonces);
    stored := true;
  }
}
