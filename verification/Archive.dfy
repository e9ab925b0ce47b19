/** The whole way of a tarball: written, encrypted, uploaded in parallel, downloaded, decrypted and unpacked. */
module Archive {
  import opened Bytes
  import opened Chunking
  import opened Transfer
  import opened TarWriter
  import opened TarParser
  import opened TarStage
  import opened TarRoundTrip
  import opened MultipartUpload
  import opened RateLimit
  import opened RangedDownload

  datatype Sizes = Sizes(readSize: nat, encryptChunk: nat, encryptBuffer: nat, overhead: nat, uploadChunk: nat,
                         uploadBuffer: nat, downloadPart: nat, writeChunk: nat, tarBuffer: nat)

  /** A configuration under which no stage of either direction refuses its sizes. */
  predicate Workable(c: Sizes) {
    && 0 < c.readSize && 0 < c.downloadPart
    && 0 < c.encryptChunk && c.encryptChunk + c.overhead <= c.encryptBuffer
    && 0 < c.uploadChunk <= c.uploadBuffer
    && c.encryptChunk + 511 <= c.tarBuffer
    && 0 < c.writeChunk && c.writeChunk + 511 <= c.tarBuffer
  }

  /** A finished download, decrypted: the stream, in pieces no larger than it was sealed in. */
  lemma DecryptedPieces(stream: ByteString, cipher: seq<ByteString>, received: seq<ByteString>,
                        decrypt: ByteString -> ByteString, encryptChunk: nat, overhead: nat)
    requires 0 < encryptChunk
    requires Sealed(Rechunk(stream, encryptChunk), cipher, decrypt, overhead)
    requires Concat(received) == Concat(cipher)
    ensures var plain := DecryptAll(Rechunk(Concat(received), encryptChunk + overhead), decrypt);
            Concat(plain) == stream && SmallPieces(plain, encryptChunk)
  {
    CipherChunksRecovered(stream, cipher, decrypt, encryptChunk, overhead);
    RechunkPartitions(stream, encryptChunk);
    assert DecryptAll(cipher, decrypt) == Rechunk(stream, encryptChunk);
  }

  lemma SealedNonEmpty(files: seq<File>, cipher: seq<ByteString>, decrypt: ByteString -> ByteString, c: Sizes)
    requires files != [] && 0 < c.encryptChunk
    requires Sealed(Rechunk(TarStream(files), c.encryptChunk), cipher, decrypt, c.overhead)
    ensures Concat(cipher) != []
  {
    SealedLength(Rechunk(TarStream(files), c.encryptChunk), cipher, decrypt, c.overhead);
    RechunkPartitions(TarStream(files), c.encryptChunk);
    if TarStream(files) == [] {
      StreamNotEmpty(files);
    }
  }

  /**
   * Upload: the cipher is given the re-chunked tar stream, and its output, throttled and re-chunked, becomes the
   * object. The rate limit is off or high enough for the stage to end.
   */
  method Store(files: seq<File>, cipher: seq<ByteString>, decrypt: ByteString -> ByteString, c: Sizes, maxRate: nat,
               retry: real, elapsed: nat -> real, newId: nat, events: seq<Event>) returns (stored: Option<ByteString>)
    requires Workable(c) && files != []
    requires retry >= 0.0 && Steady(elapsed) && (maxRate == 0 || Earned(maxRate, retry) >= 1.0)
    requires Sealed(Rechunk(TarStream(files), c.encryptChunk), cipher, decrypt, c.overhead)
    requires IsSchedule(events, |Rechunk(Concat(cipher), c.uploadChunk)|)
    ensures stored == Some(Concat(cipher))
  {
    TarPiecesStream(files, c.readSize);
    var cut := RunEncryptStage(TarPieces(files, c.readSize), c.encryptChunk, c.encryptBuffer);
    assert cut == Some(Rechunk(TarStream(files), c.encryptChunk)); // what the cipher is given
    SealedNonEmpty(files, cipher, decrypt, c);
    var limiter := new RateLimiter(maxRate, elapsed(0));
    var throttled := PassAll(limiter, cipher, elapsed, retry);
    stored := UploadStream(throttled, c.uploadChunk, c.uploadBuffer, None, newId, events);
  }

  /** A download of an object that nobody overwrites. */
  method Fetch(env: Environment, partLen: nat, head: Version, first: nat)
    returns (received: seq<ByteString>, outcome: DownloadResult)
    requires 0 < partLen && EtagsIdentify(env) && forall t: nat :: first <= t ==> env.at(t) == Some(head)
    ensures outcome != Conflict
    ensures outcome == Complete ==> Concat(received) == head.body
    ensures AllAnswered(env, head, first) ==> outcome == Complete
  {
    ghost var version: Version;
    ghost var answered: seq<nat>;
    ghost var starts: seq<nat>;
    var requests: nat;
    received, outcome, version, answered, starts, requests := DownloadAll(env, partLen, head, first);
  }

  /** The common front of both download pipelines: fetch and decrypt. */
  method FetchPlain(ghost stream: ByteString, ghost cipher: seq<ByteString>, decrypt: ByteString -> ByteString,
                    c: Sizes,
                    env: Environment, head: Version, first: nat)
    returns (plain: seq<ByteString>, outcome: DownloadResult)
    requires Workable(c) && head.body == Concat(cipher)
    requires Sealed(Rechunk(stream, c.encryptChunk), cipher, decrypt, c.overhead)
    requires EtagsIdentify(env) && forall t: nat :: first <= t ==> env.at(t) == Some(head)
    ensures outcome != Conflict
    ensures outcome == Complete ==> Concat(plain) == stream && SmallPieces(plain, c.encryptChunk)
    ensures AllAnswered(env, head, first) ==> outcome == Complete
  {
    var received: seq<ByteString>;
    received, outcome := Fetch(env, c.downloadPart, head, first);
    plain := [];
    if outcome == Complete {
      DecryptedPieces(stream, cipher, received, decrypt, c.encryptChunk, c.overhead);
      var decrypted := RunDecryptStage(received, decrypt, c.encryptChunk, c.encryptBuffer, c.overhead);
      plain := decrypted.value;
    }
  }

  /** download_data_tarball_pipeline behind the cipher: the pieces go to the unpacker as they come. */
  method Unpack(files: seq<File>, plain: seq<ByteString>, c: Sizes, lib: Library) returns (result: Result)
    requires Workable(c) && ReadsGnuHeaders(lib)
    requires Concat(plain) == TarStream(files) && SmallPieces(plain, c.encryptChunk)
    ensures result == Expected(files, Memory([], []), lib)
  {
    var sink := Memory([], []);
    SmallPiecesFit(Start(sink), plain, lib, c.encryptChunk, c.tarBuffer);
    RestoresStream(files, plain, sink, lib);
    result := RunProcessor(lib, sink, plain, c.tarBuffer);
  }

  /** download_files_pipeline behind the cipher: the pieces are re-chunked before they reach the disk writer. */
  method WriteFiles(files: seq<File>, plain: seq<ByteString>, c: Sizes, lib: Library,
                    directory: map<ByteString, ByteString>) returns (result: Result)
    requires Workable(c) && ReadsGnuHeaders(lib)
    requires Concat(plain) == TarStream(files)
    ensures result == Expected(files, Disk(None, directory), lib)
  {
    var sink := Disk(None, directory);
    var pieces := RunChunking(plain, c.writeChunk, c.tarBuffer);
    RechunkPartitions(Concat(plain), c.writeChunk);
    SmallPiecesFit(Start(sink), pieces, lib, c.writeChunk, c.tarBuffer);
    RestoresStream(files, pieces, sink, lib);
    result := RunProcessor(lib, sink, pieces, c.tarBuffer);
  }

  /**
   * Both download pipelines on the object that Store left. As long as nobody overwrites it, an archive comes back
   * whole: for any read size, any chunk sizes that fit, any interleaving of the uploading workers, and any loss of
   * requests that the retries survive, the in-memory unpacker returns every non-empty file in order and the disk
   * writer writes every file. If no request is lost it always gets that far.
   */
  method Restore(files: seq<File>, ghost cipher: seq<ByteString>, decrypt: ByteString -> ByteString, c: Sizes,
                 env: Environment, head: Version, first: nat, lib: Library, directory: map<ByteString, ByteString>)
    returns (outcome: DownloadResult, unpacked: Result, written: Result)
    requires Workable(c) && ReadsGnuHeaders(lib) && head.body == Concat(cipher)
    requires Sealed(Rechunk(TarStream(files), c.encryptChunk), cipher, decrypt, c.overhead)
    requires EtagsIdentify(env) && forall t: nat :: first <= t ==> env.at(t) == Some(head)
    ensures outcome != Conflict
    ensures AllAnswered(env, head, first) ==> outcome == Complete
    ensures outcome == Complete ==>
              unpacked == Expected(files, Memory([], []), lib) && written == Expected(files, Disk(None, directory), lib)
  {
    var plain: seq<ByteString>;
    plain, outcome := FetchPlain(TarStream(files), cipher, decrypt, c, env, head, first);
    unpacked, written := Refused, Refused;
    if outcome == Complete {
      unpacked := Unpack(files, plain, c, lib);
      written := WriteFiles(files, plain, c, lib, directory);
    }
  }
}
