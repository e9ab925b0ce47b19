/** What the parser of TarParser makes of the streams that TarWriter writes. */
module TarRoundTrip {
  import opened Bytes
  import opened TarHeader
  import opened TarWriter
  import opened TarParser
  import opened TarStage

  // ---------- what should arrive

  /** The name a file arrives under: a short one ends at its first NUL, a long one travels whole. */
  function ArrivalName(f: File): ByteString {
    if |f.name| > LENGTH_NAME then f.name else UpToNul(f.name)
  }

  /** A long name is decoded strictly; a short one always decodes. */
  predicate Readable(f: File, lib: Library) {
    |f.name| > LENGTH_NAME ==> lib.utf8(f.name)
  }

  predicate AllReadable(files: seq<File>, lib: Library) {
    forall i :: 0 <= i < |files| ==> Readable(files[i], lib)
  }

  lemma AllReadableSplit(files: seq<File>, lib: Library)
    requires files != []
    ensures AllReadable(files, lib) <==> Readable(files[0], lib) && AllReadable(files[1..], lib)
  {
    var rest := files[1..];
    assert forall i :: 0 <= i < |rest| ==> rest[i] == files[i + 1];
    if AllReadable(rest, lib) {
      assert forall i :: 0 < i < |files| ==> files[i] == rest[i - 1];
    }
  }

  /** One more file in place; UnpackTarballStage forgets empty members. */
  function Deliver(sink: Sink, f: File): Sink {
    match sink
    case Disk(_, files) => Disk(None, files[ArrivalName(f) := f.data])
    case Memory(_, results) => Memory([], if f.data == [] then results else results + [(ArrivalName(f), f.data)])
  }

  function DeliverAll(sink: Sink, files: seq<File>): Sink
    decreases |files|
  {
    if files == [] then sink else DeliverAll(Deliver(sink, files[0]), files[1..])
  }

  /** How a stage that started with `sink` should end on the stream of `files`. */
  function Expected(files: seq<File>, sink: Sink, lib: Library): Result {
    if AllReadable(files, lib) then Finished(ReadHeader, DeliverAll(sink, files)) else Threw
  }

  function FileInfo(f: File): TarInfo {
    TarInfo(ArrivalName(f), |f.data|, REGTYPE)
  }

  // ---------- the parser, one member at a time

  /** A parser about to read a header, with nothing half-read. */
  function AtHeader(buf: ByteString, info: Option<TarInfo>, longName: Option<ByteString>, sink: Sink): (p: Parser)
    ensures p.Parser? && Coherent(p)
  {
    Parser(buf, ReadHeader, 0, info, longName, sink)
  }

  /** Memory holds no bytes of a file whose header was not read. */
  predicate Settled(sink: Sink, info: Option<TarInfo>) {
    sink.Memory? ==> sink.current == [] || info.Some?
  }

  lemma PaddingIsNul(n: nat, rest: ByteString)
    ensures (Padding(n) + rest)[..|Padding(n)|] == Padding(n) && (Padding(n) + rest)[|Padding(n)|..] == rest
    ensures AllNul(Padding(n))
    ensures |Padding(n)| == if n % BLOCKSIZE > 0 then BLOCKSIZE - n % BLOCKSIZE else 0
  {
  }

  lemma ReadsContent(data: ByteString, rest: ByteString, info: TarInfo, longName: Option<ByteString>, sink: Sink,
                     lib: Library)
    requires info.size == |data| && CanWrite(sink)
    ensures Run(Parser(data + Padding(|data|) + rest, ReadData, |data|, Some(info), longName, sink), lib)
            == Run(AtHeader(rest, Some(info), longName, WriteData(sink, data)), lib)
  {
    var buf := data + Padding(|data|) + rest;
    var p := Parser(buf, ReadData, |data|, Some(info), longName, sink);
    assert buf[..|data|] == data && buf[|data|..] == Padding(|data|) + rest;
    PaddingIsNul(|data|, rest);
    var q := Parser(Padding(|data|) + rest, SkipBytes, |Padding(|data|)|, Some(info), longName, WriteData(sink, data));
    assert Step(p, lib) == (q, true);
    assert Step(q, lib) == (AtHeader(rest, Some(info), longName, WriteData(sink, data)), true);
  }

  lemma ReadsLongName(name: ByteString, rest: ByteString, info: TarInfo, sink: Sink, lib: Library)
    requires info.size == |name|
    ensures Run(Parser(name + Padding(|name|) + rest, ReadLongName, |name|, Some(info), Some([]), sink), lib)
            == Run(AtHeader(rest, Some(info), Some(name), sink), lib)
  {
    var buf := name + Padding(|name|) + rest;
    var p := Parser(buf, ReadLongName, |name|, Some(info), Some([]), sink);
    assert buf[..|name|] == name && buf[|name|..] == Padding(|name|) + rest;
    assert [] + name == name;
    PaddingIsNul(|name|, rest);
    var q := Parser(Padding(|name|) + rest, SkipBytes, |Padding(|name|)|, Some(info), Some(name), sink);
    assert Step(p, lib) == (q, true);
    assert Step(q, lib) == (AtHeader(rest, Some(info), Some(name), sink), true);
  }

  lemma ReadsHeader(header: ByteString, read: TarInfo, rest: ByteString, info: Option<TarInfo>,
                    longName: Option<ByteString>, sink: Sink, lib: Library)
    requires |header| == BLOCKSIZE && lib.frombuf(header) == Some(read)
    ensures Run(AtHeader(header + rest, info, longName, sink), lib)
            == if read.typeflag == GNUTYPE_LONGNAME then
                 Run(Parser(rest, ReadLongName, read.size, Some(read), Some([]), OnFileComplete(sink, info)), lib)
               else if longName.Some? && longName.value != [] then
                 var name := longName.value[..|longName.value| - 1];
                 if lib.utf8(name) then
                   Run(Parser(rest, ReadData, read.size, Some(read.(name := name)), None,
                              OnFileStart(OnFileComplete(sink, info), name)), lib)
                 else Raised(OnFileComplete(sink, info))
               else
                 Run(Parser(rest, ReadData, read.size, Some(read), longName,
                            OnFileStart(OnFileComplete(sink, info), read.name)), lib)
  {
    assert (header + rest)[..BLOCKSIZE] == header && (header + rest)[BLOCKSIZE..] == rest;
  }

  lemma HeaderThenBody(header: ByteString, data: ByteString, padding: ByteString, rest: ByteString)
    ensures header + data + padding + rest == header + (data + padding + rest)
  {
  }

  lemma PlainHeaderRead(f: File, lib: Library)
    requires ReadsGnuHeaders(lib)
    ensures |FileHeader(f)| == BLOCKSIZE
    ensures lib.frombuf(FileHeader(f)) == Some(TarInfo(UpToNul(StringField(f.name, 100)), |f.data|, REGTYPE))
  {
    HeaderRoundTrip(f.name, 0x1A4, |f.data|, f.mtime, REGTYPE);
  }

  /** After a whole member: back at a header, with the file written but not yet completed. */
  function MemberEnd(f: File, rest: ByteString, info: Option<TarInfo>, sink: Sink, lib: Library): Parser {
    if Readable(f, lib) then
      Run(AtHeader(rest, Some(FileInfo(f)), None,
                   WriteData(OnFileStart(OnFileComplete(sink, info), ArrivalName(f)), f.data)), lib)
    else Raised(OnFileComplete(sink, info))
  }

  /** A header that says what the file's own does, its content and its padding, under the name in hand if any. */
  lemma ReadsPlainMember(header: ByteString, f: File, rest: ByteString, info: Option<TarInfo>,
                         longName: Option<ByteString>, sink: Sink, lib: Library)
    requires |header| == BLOCKSIZE
    requires lib.frombuf(header) == Some(TarInfo(UpToNul(StringField(f.name, 100)), |f.data|, REGTYPE))
    requires longName == if |f.name| > LENGTH_NAME then Some(f.name + [0]) else None
    ensures Run(AtHeader(header + f.data + Padding(|f.data|) + rest, info, longName, sink), lib)
            == MemberEnd(f, rest, info, sink, lib)
  {
    var body := f.data + Padding(|f.data|) + rest;
    HeaderThenBody(header, f.data, Padding(|f.data|), rest);
    var read := TarInfo(UpToNul(StringField(f.name, 100)), |f.data|, REGTYPE);
    ReadsHeader(header, read, body, info, longName, sink, lib);
    if |f.name| > LENGTH_NAME {
      assert longName.value[..|longName.value| - 1] == f.name;
    } else {
      ShortNameField(f.name);
    }
    if Readable(f, lib) {
      ReadsContent(f.data, rest, FileInfo(f), None, OnFileStart(OnFileComplete(sink, info), ArrivalName(f)), lib);
    }
  }

  lemma UpToNulIs(s: ByteString, r: ByteString)
    requires |r| < |s| && 0 !in r && s[|r|] == 0
    requires forall i :: 0 <= i < |r| ==> s[i] == r[i]
    ensures UpToNul(s) == r
  {
    assert s == r + [0] + s[|r| + 1..];
    UpToNulStops(r, s[|r| + 1..]);
  }

  lemma ShortNameField(name: ByteString)
    requires |name| <= LENGTH_NAME
    ensures UpToNul(StringField(name, 100)) == UpToNul(name)
  {
    var r := UpToNul(name);
    var field := StringField(name, 100);
    if |r| < 100 {
      UpToNulIs(field, r);
    } else {
      assert field == name;
    }
  }

  /** One whole member: the parser is back at a header, with the file written but not yet completed. */
  lemma ReadsMember(f: File, rest: ByteString, info: Option<TarInfo>, sink: Sink, lib: Library)
    requires ReadsGnuHeaders(lib) && Settled(sink, info)
    ensures Run(AtHeader(MemberStream(f) + rest, info, None, sink), lib)
            == MemberEnd(f, rest, info, sink, lib)
  {
    if |f.name| > LENGTH_NAME {
      ReadsLongMember(f, rest, info, sink, lib);
    } else {
      assert MemberStream(f) + rest == FileHeader(f) + f.data + Padding(|f.data|) + rest;
      PlainHeaderRead(f, lib);
      ReadsPlainMember(FileHeader(f), f, rest, info, None, sink, lib);
    }
  }

  /** A long-name member leaves the parser at the next header with the name in hand. */
  lemma ReadsNameMember(header: ByteString, name: ByteString, rest: ByteString, read: TarInfo, info: Option<TarInfo>,
                        sink: Sink, lib: Library)
    requires |header| == BLOCKSIZE && lib.frombuf(header) == Some(read)
    requires read.typeflag == GNUTYPE_LONGNAME && read.size == |name|
    ensures Run(AtHeader(header + (name + Padding(|name|) + rest), info, None, sink), lib)
            == Run(AtHeader(rest, Some(read), Some(name), OnFileComplete(sink, info)), lib)
  {
    ReadsHeader(header, read, name + Padding(|name|) + rest, info, None, sink, lib);
    ReadsLongName(name, rest, read, OnFileComplete(sink, info), lib);
  }

  lemma LongMemberStream(f: File, rest: ByteString)
    requires |f.name| > LENGTH_NAME
    ensures MemberStream(f) + rest
            == Header(LONG_LINK, 0, |f.name| + 1, 0, GNUTYPE_LONGNAME)
               + ((f.name + [0]) + Padding(|f.name| + 1) + (FileHeader(f) + f.data + Padding(|f.data|) + rest))
  {
    Reassociate(Header(LONG_LINK, 0, |f.name| + 1, 0, GNUTYPE_LONGNAME), f.name + [0], Padding(|f.name| + 1),
                FileHeader(f), f.data, Padding(|f.data|), rest);
  }

  lemma Reassociate(a: ByteString, b: ByteString, c: ByteString, d: ByteString, e: ByteString, f: ByteString,
                    g: ByteString)
    ensures a + b + c + d + e + f + g == a + (b + c + (d + e + f + g))
  {
  }

  lemma ReadsLongMember(f: File, rest: ByteString, info: Option<TarInfo>, sink: Sink, lib: Library)
    requires ReadsGnuHeaders(lib) && Settled(sink, info) && |f.name| > LENGTH_NAME
    ensures Run(AtHeader(MemberStream(f) + rest, info, None, sink), lib) == MemberEnd(f, rest, info, sink, lib)
  {
    var read := LongLinkRead(|f.name| + 1, lib);
    PlainHeaderRead(f, lib);
    LongMemberStream(f, rest);
    ReadsBothMembers(Header(LONG_LINK, 0, |f.name| + 1, 0, GNUTYPE_LONGNAME), read, FileHeader(f), f, rest, info,
                     sink, lib);
  }

  /** The long-name member and the file's own one after the other. */
  lemma ReadsBothMembers(first: ByteString, read: TarInfo, header: ByteString, f: File, rest: ByteString,
                         info: Option<TarInfo>, sink: Sink, lib: Library)
    requires |first| == BLOCKSIZE && lib.frombuf(first) == Some(read)
    requires read.typeflag == GNUTYPE_LONGNAME && read.size == |f.name| + 1
    requires |header| == BLOCKSIZE
    requires lib.frombuf(header) == Some(TarInfo(UpToNul(StringField(f.name, 100)), |f.data|, REGTYPE))
    requires Settled(sink, info) && |f.name| > LENGTH_NAME
    ensures Run(AtHeader(first + ((f.name + [0]) + Padding(|f.name| + 1)
                                  + (header + f.data + Padding(|f.data|) + rest)), info, None, sink), lib)
            == MemberEnd(f, rest, info, sink, lib)
  {
    var done := OnFileComplete(sink, info);
    ReadsNameMember(first, f.name + [0], header + f.data + Padding(|f.data|) + rest, read, info, sink, lib);
    ReadsPlainMember(header, f, rest, Some(read), Some(f.name + [0]), done, lib);
    assert OnFileComplete(done, Some(read)) == done;
  }

  lemma LongLinkRead(size: nat, lib: Library) returns (read: TarInfo)
    requires ReadsGnuHeaders(lib) && size < MAX_SIZE
    ensures lib.frombuf(Header(LONG_LINK, 0, size, 0, GNUTYPE_LONGNAME)) == Some(read)
    ensures read.size == size && read.typeflag == GNUTYPE_LONGNAME
  {
    HeaderRoundTrip(LONG_LINK, 0, size, 0, GNUTYPE_LONGNAME);
    read := TarInfo(UpToNul(StringField(LONG_LINK, 100)), size, GNUTYPE_LONGNAME);
  }

  lemma CompletesMember(f: File, sink: Sink)
    requires sink.Memory? ==> sink.current == []
    ensures var written := WriteData(OnFileStart(sink, ArrivalName(f)), f.data);
            Settled(written, Some(FileInfo(f))) && OnFileComplete(written, Some(FileInfo(f))) == Deliver(sink, f)
  {
    match sink
    case Disk(_, files) =>
      var name := ArrivalName(f);
      assert [] + f.data == f.data;
      assert files[name := []][name := f.data] == files[name := f.data];
    case Memory(_, _) => assert [] + f.data == f.data;
  }

  /** The whole stream: every file is delivered in order, or the first unreadable long name throws. */
  lemma {:induction false} ReadsStream(files: seq<File>, info: Option<TarInfo>, sink: Sink, lib: Library)
    requires ReadsGnuHeaders(lib) && Settled(sink, info)
    ensures ResultOf(Run(AtHeader(TarStream(files), info, None, sink), lib))
            == Expected(files, OnFileComplete(sink, info), lib)
    decreases |files|
  {
    if files != [] {
      var f, rest := files[0], files[1..];
      var done := OnFileComplete(sink, info);
      var written := WriteData(OnFileStart(done, ArrivalName(f)), f.data);
      ReadsMember(f, TarStream(rest), info, sink, lib);
      CompletesMember(f, done);
      ReadsStream(rest, Some(FileInfo(f)), written, lib);
      AllReadableSplit(files, lib);
    }
  }

  /**
   * The tar round trip. Whatever the files and however the stream is cut, the parser ends at a header with every
   * file delivered in order; it throws only for a long name that is not UTF-8.
   */
  lemma RestoresStream(files: seq<File>, pieces: seq<ByteString>, sink: Sink, lib: Library)
    requires ReadsGnuHeaders(lib)
    requires Concat(pieces) == TarStream(files)
    requires OnFileComplete(sink, None) == sink && Settled(sink, None)
    ensures ResultOf(FeedAll(Start(sink), pieces, lib)) == Expected(files, sink, lib)
  {
    ReadsStream(files, None, sink, lib);
    if pieces != [] {
      FeedAllIsFeed(Start(sink), pieces, lib);
      assert [] + Concat(pieces) == Concat(pieces);
    } else {
      StreamNotEmpty(files);
    }
  }

  lemma StreamNotEmpty(files: seq<File>)
    ensures TarStream(files) == [] ==> files == []
  {
    if files != [] {
      assert |MemberStream(files[0])| >= |FileHeader(files[0])|;
      assert |TarStream(files)| >= |MemberStream(files[0])|;
    }
  }

  // ---------- what the sinks hold afterwards

  /** The files UnpackTarballStage returns. */
  function NonEmpty(files: seq<File>): seq<(ByteString, ByteString)> {
    if files == [] then []
    else (if files[0].data == [] then [] else [(ArrivalName(files[0]), files[0].data)]) + NonEmpty(files[1..])
  }

  lemma {:induction false} MemoryHolds(files: seq<File>, results: seq<(ByteString, ByteString)>)
    ensures DeliverAll(Memory([], results), files) == Memory([], results + NonEmpty(files))
    decreases |files|
  {
    if files != [] {
      var f := files[0];
      var one := if f.data == [] then [] else [(ArrivalName(f), f.data)];
      MemoryHolds(files[1..], results + one);
      assert Deliver(Memory([], results), f) == Memory([], results + one);
      assert results + one + NonEmpty(files[1..]) == results + NonEmpty(files);
    }
  }

  /** The content of the last file that arrives under a name. */
  function LastNamed(files: seq<File>, name: ByteString): Option<ByteString> {
    if files == [] then None
    else
      var later := LastNamed(files[1..], name);
      if later == None && ArrivalName(files[0]) == name then Some(files[0].data) else later
  }

  /** On disk a name holds the content of the last file of that name; other files of the directory stay. */
  lemma {:induction false} DiskHolds(files: seq<File>, before: map<ByteString, ByteString>, name: ByteString)
    ensures var after, last := DeliverAll(Disk(None, before), files), LastNamed(files, name);
            && after.Disk? && after.open == None
            && (last.Some? ==> name in after.files && after.files[name] == last.value)
            && (last == None ==>
                  (name in after.files <==> name in before) && (name in before ==> after.files[name] == before[name]))
    decreases |files|
  {
    if files != [] {
      DiskHolds(files[1..], before[ArrivalName(files[0]) := files[0].data], name);
    }
  }
}
