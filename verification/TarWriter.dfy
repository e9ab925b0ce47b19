/** The tar stream that read_files_tarball_stage.py produces, member by member. */
module TarWriter {
  import opened Bytes
  import opened Chunking
  import opened TarHeader

  datatype RawFile = RawFile(name: ByteString, data: ByteString, mtime: nat)

  /** A file whose numbers fit the header fields (below 2 to the 88th). */
  type File = f: RawFile | f.mtime < MAX_SIZE && |f.data| < MAX_SIZE && |f.name| < MAX_SIZE - 1
    witness RawFile([], [], 0)

  /** NUL bytes up to the next block boundary behind `n` bytes. */
  function Padding(n: nat): (r: ByteString)
    ensures (n + |r|) % BLOCKSIZE == 0 && |r| < BLOCKSIZE
    ensures forall i :: 0 <= i < |r| ==> r[i] == 0
  {
    if n % BLOCKSIZE > 0 then Zeros(BLOCKSIZE - n % BLOCKSIZE) else []
  }

  function LongNameMember(name: ByteString): (r: ByteString)
    requires |name| < MAX_SIZE - 1
    ensures |r| == BLOCKSIZE + (|name| + 1 + |Padding(|name| + 1)|)
  {
    Header(LONG_LINK, 0, |name| + 1, 0, GNUTYPE_LONGNAME) + (name + [0]) + Padding(|name| + 1)
  }

  function FileHeader(f: File): (r: ByteString)
    ensures |r| == BLOCKSIZE
  {
    Header(f.name, 0x1A4, |f.data|, f.mtime, REGTYPE) // mode 0644
  }

  /** `tobuf` in GNU format: a name over 100 bytes travels in a long-name member of its own. */
  function MemberHeader(f: File): (r: ByteString)
    ensures |r| == BLOCKSIZE + (if |f.name| > LENGTH_NAME then |LongNameMember(f.name)| else 0)
  {
    if |f.name| > LENGTH_NAME then LongNameMember(f.name) + FileHeader(f) else FileHeader(f)
  }

  function MemberStream(f: File): (r: ByteString)
    ensures |r| == |MemberHeader(f)| + (|f.data| + |Padding(|f.data|)|)
  {
    MemberHeader(f) + f.data + Padding(|f.data|)
  }

  function TarStream(files: seq<File>): ByteString {
    if files == [] then [] else MemberStream(files[0]) + TarStream(files[1..])
  }

  /** The pieces one member is yielded in: header, content read `readSize` bytes at a time, padding if any. */
  function MemberPieces(f: File, readSize: nat): seq<ByteString>
    requires 0 < readSize
  {
    [MemberHeader(f)] + Rechunk(f.data, readSize) + (if |f.data| % BLOCKSIZE > 0 then [Padding(|f.data|)] else [])
  }

  function TarPieces(files: seq<File>, readSize: nat): seq<ByteString>
    requires 0 < readSize
  {
    if files == [] then [] else MemberPieces(files[0], readSize) + TarPieces(files[1..], readSize)
  }

  /** The read size only decides where the stream is cut. */
  lemma {:induction false} TarPiecesStream(files: seq<File>, readSize: nat)
    requires 0 < readSize
    ensures Concat(TarPieces(files, readSize)) == TarStream(files)
  {
    if files != [] {
      var f := files[0];
      var body := Rechunk(f.data, readSize);
      var tail := if |f.data| % BLOCKSIZE > 0 then [Padding(|f.data|)] else [];
      RechunkPartitions(f.data, readSize);
      ConcatAppend([MemberHeader(f)] + body, tail);
      ConcatAppend([MemberHeader(f)], body);
      assert [MemberHeader(f)][1..] == [];
      assert tail != [] ==> tail[1..] == [] && Concat(tail) == tail[0];
      assert Concat(MemberPieces(f, readSize)) == MemberStream(f);
      ConcatAppend(MemberPieces(f, readSize), TarPieces(files[1..], readSize));
      TarPiecesStream(files[1..], readSize);
    }
  }
}
