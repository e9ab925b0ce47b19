/** The size predictors of calculators.py against the streams they predict, and the chunk scaling that uses them. */
module Sizes {
  import opened Bytes
  import opened Chunking
  import opened Transfer
  import opened TarHeader
  import opened TarWriter

  // ---------- arithmetic

  lemma CeilDivLeast(x: nat, d: nat, n: nat)
    requires 0 < d
    ensures CeilDiv(x, d) <= n <==> x <= n * d
  {
    var q := CeilDiv(x, d);
    var r := (x + d - 1) % d;
    assert x + d - 1 == q * d + r;
    if q <= n {
      assert q * d <= n * d;
    } else {
      assert (n + 1) * d <= q * d;
      assert (n + 1) * d == n * d + d;
    }
  }

  /** `n` rounded up to a multiple of `alignment`. */
  function Aligned(n: nat, alignment: nat): nat
    requires 0 < alignment
  {
    CeilDiv(n, alignment) * alignment
  }

  lemma AlignedByRemainder(n: nat, alignment: nat)
    requires 0 < alignment
    ensures Aligned(n, alignment)
            == if n % alignment > 0 then n + (alignment - n % alignment) else n
  {
    var q, r := n / alignment, n % alignment;
    assert n == q * alignment + r;
    CeilDivOf(q, alignment, r);
    assert (q + 1) * alignment == q * alignment + alignment;
  }

  // ---------- the predictors

  function AlignedSum(sizes: seq<nat>, alignment: nat): nat
    requires 0 < alignment
  {
    if sizes == [] then 0 else Aligned(sizes[0], alignment) + AlignedSum(sizes[1..], alignment)
  }

  /** calc_aligned_files_size and calc_aligned_data_size: one loop over file sizes or data lengths. */
  method CalcAlignedSize(sizes: seq<nat>, alignment: nat) returns (total: nat)
    requires 0 < alignment
    ensures total == AlignedSum(sizes, alignment)
  {
    total := 0;
    for i := 0 to |sizes|
      invariant total + AlignedSum(sizes[i..], alignment) == AlignedSum(sizes, alignment)
    {
      var size := sizes[i];
      var remainder := size % alignment;
      if remainder > 0 {
        size := size + (alignment - remainder);
      }
      AlignedByRemainder(sizes[i], alignment);
      total := total + size;
    }
  }

  /** Characters of a UTF-8 name: its bytes that do not continue a character. */
  function CharCount(name: ByteString): (n: nat)
    ensures n <= |name|
  {
    if name == [] then 0
    else CharCount(name[..|name| - 1]) + (if 0x80 <= name[|name| - 1] < 0xC0 then 0 else 1)
  }

  type CodePoint = c: nat | c < 0x110000

  /** UTF-8 of one character, as in section 3 of RFC 3629. */
  function Utf8(c: CodePoint): (s: ByteString)
    ensures s != [] && !(0x80 <= s[0] < 0xC0) && forall i | 0 < i < |s| :: 0x80 <= s[i] < 0xC0
  {
    if c < 0x80 then [c]
    else if c < 0x800 then [0xC0 + c / 64, 0x80 + c % 64]
    else if c < 0x10000 then [0xE0 + c / 4096, 0x80 + c / 64 % 64, 0x80 + c % 64]
    else [0xF0 + c / 262144, 0x80 + c / 4096 % 64, 0x80 + c / 64 % 64, 0x80 + c % 64]
  }

  function Utf8Text(text: seq<CodePoint>): ByteString {
    if text == [] then [] else Utf8Text(text[..|text| - 1]) + Utf8(text[|text| - 1])
  }

  lemma {:induction false} CharCountAppend(a: ByteString, b: ByteString)
    ensures CharCount(a + b) == CharCount(a) + CharCount(b)
    decreases |b|
  {
    if b == [] {
      assert a + b == a;
    } else {
      var front := b[..|b| - 1];
      CharCountAppend(a, front);
      assert (a + b)[..|a + b| - 1] == a + front;
    }
  }

  /** A first byte, and bytes that continue it. */
  lemma {:induction false} OneCharacter(s: ByteString)
    requires s != [] && !(0x80 <= s[0] < 0xC0) && forall i | 0 < i < |s| :: 0x80 <= s[i] < 0xC0
    ensures CharCount(s) == 1
  {
    if |s| > 1 {
      OneCharacter(s[..|s| - 1]);
    } else {
      assert CharCount(s[..0]) == 0;
    }
  }

  /** The length of a name is the number of its characters. */
  lemma {:induction false} CharCountOfText(text: seq<CodePoint>)
    ensures CharCount(Utf8Text(text)) == |text|
  {
    if text != [] {
      var front, c := text[..|text| - 1], text[|text| - 1];
      CharCountOfText(front);
      OneCharacter(Utf8(c));
      CharCountAppend(Utf8Text(front), Utf8(c));
    }
  }

  predicate Ascii(name: ByteString) {
    forall i :: 0 <= i < |name| ==> name[i] < 0x80
  }

  lemma {:induction false} AsciiCharCount(name: ByteString)
    requires Ascii(name)
    ensures CharCount(name) == |name|
  {
    if name != [] {
      AsciiCharCount(name[..|name| - 1]);
    }
  }

  /** The blocks that calc_tarball_size adds for one name of `chars` characters. */
  function PredictedBlocks(chars: nat): nat {
    if chars <= LENGTH_NAME then 1 else CeilDiv(chars, BLOCKSIZE) + 2
  }

  function PredictedHeaders(names: seq<ByteString>): nat {
    if names == [] then 0 else PredictedBlocks(CharCount(names[0])) * BLOCKSIZE + PredictedHeaders(names[1..])
  }

  method CalcTarballSize(names: seq<ByteString>, alignedSize: nat) returns (result: nat)
    ensures result == alignedSize + PredictedHeaders(names)
  {
    result := alignedSize;
    for i := 0 to |names|
      invariant result + PredictedHeaders(names[i..]) == alignedSize + PredictedHeaders(names)
    {
      var chars := CharCount(names[i]);
      if chars <= LENGTH_NAME {
        result := result + BLOCKSIZE;
      } else {
        result := result + (CeilDiv(chars, BLOCKSIZE) + 2) * BLOCKSIZE;
      }
    }
  }

  function CalcEncryptedSize(dataSize: nat, chunkSize: nat, overhead: nat): nat
    requires 0 < chunkSize
  {
    dataSize + CeilDiv(dataSize, chunkSize) * overhead
  }

  // ---------- what is really written

  /** The header blocks `tobuf` writes for a name of `bytes` bytes: the long name carries a NUL. */
  function WrittenBlocks(bytes: nat): nat {
    if bytes <= LENGTH_NAME then 1 else CeilDiv(bytes + 1, BLOCKSIZE) + 2
  }

  /** Blocks the prediction misses for one name. */
  function MissedBlocks(name: ByteString): int {
    WrittenBlocks(|name|) - PredictedBlocks(CharCount(name))
  }

  function AllMissed(files: seq<File>): int {
    if files == [] then 0 else MissedBlocks(files[0].name) + AllMissed(files[1..])
  }

  function Names(files: seq<File>): (r: seq<ByteString>)
    ensures |r| == |files|
  {
    seq(|files|, i requires 0 <= i < |files| => files[i].name)
  }

  function DataSizes(files: seq<File>): (r: seq<nat>)
    ensures |r| == |files|
  {
    seq(|files|, i requires 0 <= i < |files| => |files[i].data|)
  }

  function PredictedTar(files: seq<File>): nat {
    AlignedSum(DataSizes(files), BLOCKSIZE) + PredictedHeaders(Names(files))
  }

  lemma PaddedLength(n: nat)
    ensures n + |Padding(n)| == Aligned(n, BLOCKSIZE)
  {
    AlignedByRemainder(n, BLOCKSIZE);
  }

  lemma LongNameLength(name: ByteString)
    requires |name| < MAX_SIZE - 1
    ensures |LongNameMember(name)| == (CeilDiv(|name| + 1, BLOCKSIZE) + 1) * BLOCKSIZE
  {
    PaddedLength(|name| + 1);
  }

  lemma MemberLength(f: File)
    ensures |MemberStream(f)| == WrittenBlocks(|f.name|) * BLOCKSIZE + Aligned(|f.data|, BLOCKSIZE)
  {
    PaddedLength(|f.data|);
    if |f.name| > LENGTH_NAME {
      LongNameLength(f.name);
    }
  }

  lemma ColumnsOfTail(files: seq<File>)
    requires files != []
    ensures DataSizes(files)[1..] == DataSizes(files[1..]) && Names(files)[1..] == Names(files[1..])
  {
  }

  /** The tar stream is the predicted size and the missed blocks, nothing else. */
  lemma {:induction false} TarLength(files: seq<File>)
    ensures |TarStream(files)| == PredictedTar(files) + AllMissed(files) * BLOCKSIZE
  {
    if files != [] {
      MemberLength(files[0]);
      TarLength(files[1..]);
      ColumnsOfTail(files);
    }
  }

  /** For ASCII names a block is missed exactly when a long name's length is a multiple of the block size. */
  lemma MissedForAscii(name: ByteString)
    requires Ascii(name)
    ensures MissedBlocks(name) == if |name| > LENGTH_NAME && |name| % BLOCKSIZE == 0 then 1 else 0
  {
    AsciiCharCount(name);
    var n := |name|;
    CeilDivOf(n / BLOCKSIZE, BLOCKSIZE, n % BLOCKSIZE);
    CeilDivOf((n + 1) / BLOCKSIZE, BLOCKSIZE, (n + 1) % BLOCKSIZE);
  }

  /** The prediction never exceeds what is written, whatever the names. */
  lemma NeverOverpredicted(name: ByteString)
    ensures MissedBlocks(name) >= 0
  {
    CeilDivLeast(CharCount(name), BLOCKSIZE, CeilDiv(|name| + 1, BLOCKSIZE));
    CeilDivLeast(|name| + 1, BLOCKSIZE, CeilDiv(|name| + 1, BLOCKSIZE));
  }

  lemma {:induction false} MissedNothingIff(files: seq<File>)
    ensures AllMissed(files) >= 0
    ensures AllMissed(files) == 0 <==> forall i :: 0 <= i < |files| ==> MissedBlocks(files[i].name) == 0
  {
    if files != [] {
      var rest := files[1..];
      MissedNothingIff(rest);
      NeverOverpredicted(files[0].name);
      assert forall i :: 0 < i < |files| ==> files[i] == rest[i - 1];
      assert forall i :: 0 <= i < |rest| ==> rest[i] == files[i + 1];
    }
  }

  /**
   * Size prediction for ASCII names is exact if and only if no long name's length is a multiple of the block size;
   * otherwise it is one block short for every such name.
   */
  lemma TarPredictionExactIff(files: seq<File>)
    requires forall i :: 0 <= i < |files| ==> Ascii(files[i].name)
    ensures |TarStream(files)| == PredictedTar(files)
            <==> forall i :: 0 <= i < |files| ==> |files[i].name| <= LENGTH_NAME || |files[i].name| % BLOCKSIZE != 0
  {
    TarLength(files);
    MissedNothingIff(files);
    forall i | 0 <= i < |files|
      ensures MissedBlocks(files[i].name) == 0 <==> |files[i].name| <= LENGTH_NAME || |files[i].name| % BLOCKSIZE != 0
    {
      MissedForAscii(files[i].name);
    }
  }

  /** Encryption adds exactly the predicted overhead. */
  lemma EncryptedLength(data: ByteString, cipher: seq<ByteString>, decrypt: ByteString -> ByteString, chunkSize: nat,
                        overhead: nat)
    requires 0 < chunkSize && Sealed(Rechunk(data, chunkSize), cipher, decrypt, overhead)
    ensures |Concat(cipher)| == CalcEncryptedSize(|data|, chunkSize, overhead)
  {
    SealedLength(Rechunk(data, chunkSize), cipher, decrypt, overhead);
    RechunkPartitions(data, chunkSize);
  }

  // ---------- the size check of a stored part

  /** `_target_part_size`: what a tarred part of these files, of the given aligned size, should take in storage. */
  function TargetPartSize(names: seq<ByteString>, size: nat, encrypted: bool, chunkSize: nat, overhead: nat): nat
    requires 0 < chunkSize
  {
    var tar := size + PredictedHeaders(names);
    if encrypted then CalcEncryptedSize(tar, chunkSize, overhead) else tar
  }

  lemma CeilDivGrows(x: nat, y: nat, d: nat)
    requires 0 < d && x <= y
    ensures CeilDiv(x, d) <= CeilDiv(y, d)
  {
    CeilDivLeast(y, d, CeilDiv(y, d));
    CeilDivLeast(x, d, CeilDiv(y, d));
  }

  lemma ProductGrows(a: nat, b: nat, k: nat)
    requires a <= b
    ensures a * k <= b * k
  {
  }

  lemma EncryptedSizeGrows(x: nat, y: nat, chunkSize: nat, overhead: nat)
    requires 0 < chunkSize && x < y
    ensures CalcEncryptedSize(x, chunkSize, overhead) < CalcEncryptedSize(y, chunkSize, overhead)
  {
    CeilDivGrows(x, y, chunkSize);
    ProductGrows(CeilDiv(x, chunkSize), CeilDiv(y, chunkSize), overhead);
  }

  lemma EncryptedSizeTells(x: nat, y: nat, chunkSize: nat, overhead: nat)
    requires 0 < chunkSize && x <= y
    ensures CalcEncryptedSize(x, chunkSize, overhead) == CalcEncryptedSize(y, chunkSize, overhead) <==> x == y
  {
    if x < y {
      EncryptedSizeGrows(x, y, chunkSize, overhead);
    }
  }

  lemma PredictionTells(files: seq<File>)
    ensures PredictedTar(files) <= |TarStream(files)|
    ensures PredictedTar(files) == |TarStream(files)| <==> AllMissed(files) == 0
  {
    TarLength(files);
    MissedNothingIff(files);
  }

  /** What `_target_part_size` gives for a part made of these files. */
  function Target(files: seq<File>, encrypted: bool, chunkSize: nat, overhead: nat): nat
    requires 0 < chunkSize
  {
    TargetPartSize(Names(files), AlignedSum(DataSizes(files), BLOCKSIZE), encrypted, chunkSize, overhead)
  }

  lemma TargetFromPrediction(files: seq<File>, encrypted: bool, chunkSize: nat, overhead: nat)
    requires 0 < chunkSize
    ensures Target(files, encrypted, chunkSize, overhead)
            == if encrypted then CalcEncryptedSize(PredictedTar(files), chunkSize, overhead) else PredictedTar(files)
  {
  }

  /** The part is stored as the tar stream of its files, encrypted chunk by chunk if so asked. */
  ghost predicate StoredPart(tar: ByteString, stored: ByteString, encrypted: bool, cipher: seq<ByteString>,
                             decrypt: ByteString -> ByteString, chunkSize: nat, overhead: nat)
    requires 0 < chunkSize
  {
    if encrypted then Sealed(Rechunk(tar, chunkSize), cipher, decrypt, overhead) && stored == Concat(cipher)
    else stored == tar
  }

  lemma StoredLength(tar: ByteString, stored: ByteString, encrypted: bool, cipher: seq<ByteString>,
                     decrypt: ByteString -> ByteString, chunkSize: nat, overhead: nat)
    requires 0 < chunkSize && StoredPart(tar, stored, encrypted, cipher, decrypt, chunkSize, overhead)
    ensures |stored| == if encrypted then CalcEncryptedSize(|tar|, chunkSize, overhead) else |tar|
  {
    if encrypted {
      EncryptedLength(tar, cipher, decrypt, chunkSize, overhead);
    }
  }

  /**
   * The size check before a stored part is reused passes exactly if the tar prediction misses no block, whether the
   * part was stored as it is or encrypted. By TarPredictionExactIff a long name of 512 ASCII characters fails it.
   */
  lemma SizeCheckPassesIff(files: seq<File>, stored: ByteString, encrypted: bool, cipher: seq<ByteString>,
                           decrypt: ByteString -> ByteString, chunkSize: nat, overhead: nat)
    requires 0 < chunkSize && StoredPart(TarStream(files), stored, encrypted, cipher, decrypt, chunkSize, overhead)
    ensures |stored| == Target(files, encrypted, chunkSize, overhead) <==> AllMissed(files) == 0
  {
    PredictionTells(files);
    TargetFromPrediction(files, encrypted, chunkSize, overhead);
    StoredLength(TarStream(files), stored, encrypted, cipher, decrypt, chunkSize, overhead);
    EncryptedSizeTells(PredictedTar(files), |TarStream(files)|, chunkSize, overhead);
  }

  // ---------- chunk scaling

  /** With `k` times the chunk there would be too many chunks. */
  predicate TooMany(sourceSize: nat, chunk: nat, maxCount: nat, k: nat)
    requires 0 < chunk && 0 < k
  {
    ProductPositive(k, chunk);
    CeilDiv(sourceSize, k * chunk) > maxCount
  }

  lemma ProductPositive(k: nat, chunk: nat)
    requires 0 < chunk && 0 < k
    ensures 0 < k * chunk
  {
  }

  /** Chunk and buffer are the configured ones times the least number that keeps the count. */
  ghost predicate ScaledLeast(sourceSize: nat, chunk: nat, buffer: nat, maxCount: nat, chunkSize: nat, bufferSize: nat)
    requires 0 < chunk
  {
    exists m: nat :: IsScale(chunk, buffer, chunkSize, bufferSize, m) && m > 0 &&
      forall k: nat | 0 < k < m :: TooMany(sourceSize, chunk, maxCount, k)
  }

  predicate IsScale(chunk: nat, buffer: nat, chunkSize: nat, bufferSize: nat, m: nat) {
    chunkSize == chunk * m && bufferSize == buffer * m
  }

  lemma ScalesLeast(sourceSize: nat, chunk: nat, buffer: nat, maxCount: nat)
    requires 0 < chunk && 0 < maxCount
    ensures var m := Multiplier(sourceSize, chunk, maxCount);
            && ScaledLeast(sourceSize, chunk, buffer, maxCount, chunk * m, buffer * m)
            && (sourceSize <= maxCount * chunk ==> m == 1)
  {
    var m := Multiplier(sourceSize, chunk, maxCount);
    forall k: nat | 0 < k < m
      ensures TooMany(sourceSize, chunk, maxCount, k)
    {
      MultiplierLeast(sourceSize, chunk, maxCount, k);
    }
    assert IsScale(chunk, buffer, chunk * m, buffer * m, m);
  }

  /** build_uploading_stage's chunk and buffer size for a source of `sourceSize` bytes. */
  method ScaleChunk(sourceSize: nat, chunk: nat, buffer: nat, maxCount: nat) returns (chunkSize: nat, bufferSize: nat)
    requires 0 < chunk && 0 < maxCount
    ensures chunkSize == chunk * Multiplier(sourceSize, chunk, maxCount)
    ensures 0 < chunkSize && CeilDiv(sourceSize, chunkSize) <= maxCount
    ensures chunkSize <= bufferSize <==> chunk <= buffer
    ensures ScaledLeast(sourceSize, chunk, buffer, maxCount, chunkSize, bufferSize)
    ensures sourceSize <= maxCount * chunk ==> chunkSize == chunk && bufferSize == buffer
  {
    ScalesLeast(sourceSize, chunk, buffer, maxCount);
    chunkSize, bufferSize := chunk, buffer;
    MultiplierSuffices(sourceSize, chunk, maxCount);
    ScalesEvenly(chunk, buffer, Multiplier(sourceSize, chunk, maxCount));
    if sourceSize > chunkSize {
      if sourceSize > maxCount * chunkSize {
        var multiplier := CeilDiv(sourceSize, chunkSize * maxCount);
        bufferSize := bufferSize * multiplier;
        chunkSize := chunkSize * multiplier;
      }
    }
  }

  /** The factor by which the chunk grows. */
  function Multiplier(sourceSize: nat, chunk: nat, maxCount: nat): (m: nat)
    requires 0 < chunk && 0 < maxCount
    ensures m > 0
  {
    if sourceSize > chunk && sourceSize > maxCount * chunk then
      assert chunk * maxCount > 0;
      CeilDivLeast(sourceSize, chunk * maxCount, 0);
      CeilDiv(sourceSize, chunk * maxCount)
    else 1
  }

  /** The scaled chunk keeps the chunk count within the limit. */
  lemma MultiplierSuffices(sourceSize: nat, chunk: nat, maxCount: nat)
    requires 0 < chunk && 0 < maxCount
    ensures chunk * Multiplier(sourceSize, chunk, maxCount) > 0
    ensures CeilDiv(sourceSize, chunk * Multiplier(sourceSize, chunk, maxCount)) <= maxCount
  {
    var m := Multiplier(sourceSize, chunk, maxCount);
    ScalesEvenly(chunk, chunk, m);
    if sourceSize > chunk && sourceSize > maxCount * chunk {
      CeilDivLeast(sourceSize, chunk * maxCount, m);
      Commutes(m, chunk, maxCount);
      CeilDivLeast(sourceSize, chunk * m, maxCount);
    } else {
      AtLeastOnce(chunk, maxCount);
      CeilDivLeast(sourceSize, chunk, maxCount);
    }
  }

  lemma AtLeastOnce(chunk: nat, n: nat)
    requires 0 < n
    ensures chunk <= n * chunk
  {
  }

  /** No smaller multiple of the configured chunk would do. */
  lemma MultiplierLeast(sourceSize: nat, chunk: nat, maxCount: nat, k: nat)
    requires 0 < chunk && 0 < maxCount && 0 < k < Multiplier(sourceSize, chunk, maxCount)
    ensures k * chunk > 0 && CeilDiv(sourceSize, k * chunk) > maxCount
  {
    CeilDivLeast(sourceSize, chunk * maxCount, k);
    assert k * (chunk * maxCount) == maxCount * (k * chunk);
    CeilDivLeast(sourceSize, k * chunk, maxCount);
  }

  lemma Commutes(m: nat, chunk: nat, maxCount: nat)
    ensures m * (chunk * maxCount) == maxCount * (chunk * m)
  {
  }

  lemma ScalesEvenly(chunk: nat, buffer: nat, m: nat)
    requires 0 < m
    ensures chunk * m <= buffer * m <==> chunk <= buffer
    ensures chunk * m >= chunk
  {
  }

  function Estimate(files: seq<File>, encrypt: bool, encryptChunk: nat, overhead: nat): nat
    requires 0 < encryptChunk
  {
    if encrypt then CalcEncryptedSize(PredictedTar(files), encryptChunk, overhead) else PredictedTar(files)
  }

  /** The estimate and the sizes with which upload_files_tarball_pipeline builds its uploading stage. */
  method PlanTarUpload(files: seq<File>, chunk: nat, buffer: nat, maxCount: nat, encryptChunk: nat, overhead: nat,
                       encrypt: bool) returns (chunkSize: nat, bufferSize: nat)
    requires 0 < chunk && 0 < maxCount && 0 < encryptChunk
    ensures 0 < chunkSize && (chunkSize <= bufferSize <==> chunk <= buffer)
    ensures CeilDiv(Estimate(files, encrypt, encryptChunk, overhead), chunkSize) <= maxCount
    ensures ScaledLeast(Estimate(files, encrypt, encryptChunk, overhead), chunk, buffer, maxCount, chunkSize,
                        bufferSize)
    ensures Estimate(files, encrypt, encryptChunk, overhead) <= maxCount * chunk ==>
              chunkSize == chunk && bufferSize == buffer
  {
    var sizes := CalcAlignedSize(DataSizes(files), BLOCKSIZE);
    var estimate := CalcTarballSize(Names(files), sizes);
    if encrypt {
      estimate := CalcEncryptedSize(estimate, encryptChunk, overhead);
    }
    chunkSize, bufferSize := ScaleChunk(estimate, chunk, buffer, maxCount);
  }

  /** The parts of a plain tarball stay within a limit exactly when the real stream does, missed blocks included. */
  lemma PlainPartsWithinIff(files: seq<File>, chunkSize: nat, maxCount: nat)
    requires 0 < chunkSize
    ensures |Rechunk(TarStream(files), chunkSize)| <= maxCount
            <==> PredictedTar(files) + AllMissed(files) * BLOCKSIZE <= maxCount * chunkSize
  {
    TarLength(files);
    PartsWithinIff(TarStream(files), chunkSize, maxCount);
  }

  lemma PartsWithinIff(stream: ByteString, chunkSize: nat, maxCount: nat)
    requires 0 < chunkSize
    ensures |Rechunk(stream, chunkSize)| <= maxCount <==> |stream| <= maxCount * chunkSize
  {
    RechunkPartitions(stream, chunkSize);
    CeilDivLeast(|stream|, chunkSize, maxCount);
  }

  /**
   * Where the tar prediction is exact, the encrypted upload is as long as its estimate, and the chunk size planned
   * for the estimate keeps the number of parts within the limit.
   */
  lemma EncryptedPartsWithin(files: seq<File>, tar: ByteString, cipher: seq<ByteString>,
                             decrypt: ByteString -> ByteString, encryptChunk: nat, overhead: nat, chunkSize: nat,
                             maxCount: nat)
    requires 0 < encryptChunk && 0 < chunkSize
    requires tar == TarStream(files) && AllMissed(files) == 0
    requires Sealed(Rechunk(tar, encryptChunk), cipher, decrypt, overhead)
    requires CeilDiv(CalcEncryptedSize(PredictedTar(files), encryptChunk, overhead), chunkSize) <= maxCount
    ensures |Concat(cipher)| == CalcEncryptedSize(PredictedTar(files), encryptChunk, overhead)
    ensures |Rechunk(Concat(cipher), chunkSize)| <= maxCount
  {
    TarLength(files);
    EncryptedLength(tar, cipher, decrypt, encryptChunk, overhead);
    RechunkPartitions(Concat(cipher), chunkSize);
  }
}
