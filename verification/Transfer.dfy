/**
 * Encrypted transfer: the chunking that pipeline_builder.py puts around encryption and decryption.
 * The cipher is a parameter: `decrypt` is any function, and the ciphertexts are any byte strings that it opens.
 */
module Transfer {
  import opened Bytes
  import opened Chunking

  /** `sealed` are ciphertexts of `plain`, chunk by chunk, each `overhead` bytes longer than its plaintext. */
  ghost predicate Sealed(plain: seq<ByteString>, cipher: seq<ByteString>, decrypt: ByteString -> ByteString,
                         overhead: nat) {
    && |cipher| == |plain|
    && forall i :: 0 <= i < |plain| ==> |cipher[i]| == |plain[i]| + overhead && decrypt(cipher[i]) == plain[i]
  }

  function DecryptAll(chunks: seq<ByteString>, decrypt: ByteString -> ByteString): (r: seq<ByteString>)
    ensures |r| == |chunks|
    ensures forall i :: 0 <= i < |chunks| ==> r[i] == decrypt(chunks[i])
  {
    seq(|chunks|, i requires 0 <= i < |chunks| => decrypt(chunks[i]))
  }

  /**
   * The receiver cuts the ciphertext stream back into exactly the chunks the sender sealed: only the last of
   * them is short, so the cut at `chunk + overhead` falls on every boundary.
   */
  lemma CipherChunksRecovered(data: ByteString, cipher: seq<ByteString>, decrypt: ByteString -> ByteString,
                              chunkSize: nat, overhead: nat)
    requires 0 < chunkSize
    requires Sealed(Rechunk(data, chunkSize), cipher, decrypt, overhead)
    ensures Rechunk(Concat(cipher), chunkSize + overhead) == cipher
  {
    RechunkPartitions(data, chunkSize);
    RechunkUnique(cipher, chunkSize + overhead);
  }

  /** Whatever way the bytes were cut before encryption and again on the way back, the plaintext returns. */
  lemma TransferRoundTrip(sent: seq<ByteString>, received: seq<ByteString>, cipher: seq<ByteString>,
                          decrypt: ByteString -> ByteString, chunkSize: nat, overhead: nat)
    requires 0 < chunkSize
    requires Sealed(Rechunk(Concat(sent), chunkSize), cipher, decrypt, overhead)
    requires Concat(received) == Concat(cipher)
    ensures DecryptAll(Rechunk(Concat(received), chunkSize + overhead), decrypt) == Rechunk(Concat(sent), chunkSize)
    ensures Concat(DecryptAll(Rechunk(Concat(received), chunkSize + overhead), decrypt)) == Concat(sent)
  {
    CipherChunksRecovered(Concat(sent), cipher, decrypt, chunkSize, overhead);
    RechunkPartitions(Concat(sent), chunkSize);
  }

  /** The size of the ciphertext stream: one overhead per chunk. */
  lemma {:induction false} SealedLength(plain: seq<ByteString>, cipher: seq<ByteString>,
                                        decrypt: ByteString -> ByteString, overhead: nat)
    requires Sealed(plain, cipher, decrypt, overhead)
    ensures |Concat(cipher)| == |Concat(plain)| + |plain| * overhead
  {
    if plain != [] {
      SealedLength(plain[1..], cipher[1..], decrypt, overhead);
      assert |plain| * overhead == |plain[1..]| * overhead + overhead;
    }
  }

  /** build_encrypt_stage without the cipher: the chunks handed to it, or nothing when the sizes are refused. */
  method RunEncryptStage(pieces: seq<ByteString>, chunkSize: nat, bufferSize: nat)
    returns (out: Option<seq<ByteString>>)
    requires 0 < chunkSize
    ensures out == if chunkSize > bufferSize then None else Some(Rechunk(Concat(pieces), chunkSize))
  {
    if chunkSize > bufferSize {
      return None;
    }
    var chunks := RunChunking(pieces, chunkSize, bufferSize);
    out := Some(chunks);
  }

  /**
   * build_decrypt_stage over a received stream. Its chunker is wider by the cipher's overhead but keeps the same
   * buffer, so it is refused exactly when the overhead does not fit.
   */
  method RunDecryptStage(pieces: seq<ByteString>, decrypt: ByteString -> ByteString, chunkSize: nat, bufferSize: nat,
                         overhead: nat) returns (out: Option<seq<ByteString>>)
    requires 0 < chunkSize
    ensures out == if chunkSize + overhead > bufferSize then None
                   else Some(DecryptAll(Rechunk(Concat(pieces), chunkSize + overhead), decrypt))
  {
    if chunkSize + overhead > bufferSize {
      return None;
    }
    var chunks := RunChunking(pieces, chunkSize + overhead, bufferSize);
    var plain: seq<ByteString> := [];
    for i := 0 to |chunks|
      invariant plain == DecryptAll(chunks[..i], decrypt)
    {
      plain := plain + [decrypt(chunks[i])];
    }
    assert chunks[..|chunks|] == chunks;
    out := Some(plain);
  }

  /**
   * One configuration serves both directions. What it uploads it can download again if and only if the buffer
   * has room for a chunk and the overhead; a buffer of exactly one chunk uploads but never downloads.
   */
  method UploadThenDownload(sent: seq<ByteString>, received: seq<ByteString>, ghost cipher: seq<ByteString>,
                            decrypt: ByteString -> ByteString, chunkSize: nat, bufferSize: nat, overhead: nat)
    returns (uploaded: bool, back: Option<ByteString>)
    requires 0 < chunkSize
    requires Sealed(Rechunk(Concat(sent), chunkSize), cipher, decrypt, overhead)
    requires Concat(received) == Concat(cipher)
    ensures uploaded <==> chunkSize <= bufferSize
    ensures back == if chunkSize + overhead <= bufferSize then Some(Concat(sent)) else None
  {
    var chunks := RunEncryptStage(sent, chunkSize, bufferSize);
    uploaded := chunks.Some?;
    var plain := RunDecryptStage(received, decrypt, chunkSize, bufferSize, overhead);
    if plain == None {
      return uploaded, None;
    }
    TransferRoundTrip(sent, received, cipher, decrypt, chunkSize, overhead);
    back := Some(Concat(plain.value));
  }
}
