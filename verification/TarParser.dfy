/**
 * The incremental tar parser of write_files_stage.py: the state machine as a function, and the class that runs it
 * over a bounded queue. `Sink` holds the two subclasses' hooks.
 */
module TarParser {
  import opened Bytes
  import opened BytesFifo
  import opened TarHeader

  datatype Phase = ReadHeader | ReadLongName | ReadData | SkipBytes

  /** WriteFilesStage writes to a directory; UnpackTarballStage collects name and content in memory. */
  datatype Sink =
    | Disk(open: Option<ByteString>, files: map<ByteString, ByteString>)
    | Memory(current: ByteString, results: seq<(ByteString, ByteString)>)

  /** `Raised` is a parser that has thrown: a bad header, an undecodable long name or a failed assertion. */
  datatype Parser =
    | Parser(buf: ByteString, phase: Phase, toProcess: nat, info: Option<TarInfo>, longName: Option<ByteString>,
             sink: Sink)
    | Raised(sink: Sink)

  /** The library calls of the parser: reading a header block, and whether a long name decodes as strict UTF-8. */
  datatype Library = Library(frombuf: ByteString -> Option<TarInfo>, utf8: ByteString -> bool)

  /** On the header blocks it writes itself the library reads as TarHeader says; other blocks it may read anyhow. */
  ghost predicate ReadsGnuHeaders(lib: Library) {
    forall name: ByteString, mode: nat, size: nat, mtime: nat, typeflag: Byte
      | mode < 0x1000 && size < MAX_SIZE && mtime < MAX_SIZE ::
      lib.frombuf(Header(name, mode, size, mtime, typeflag)) == FromBuf(Header(name, mode, size, mtime, typeflag))
  }

  function Start(sink: Sink): Parser {
    Parser([], ReadHeader, 0, None, None, sink)
  }

  // ---------- the hooks

  function OnFileComplete(sink: Sink, info: Option<TarInfo>): Sink {
    match sink
    case Disk(_, files) => Disk(None, files)
    case Memory(current, results) =>
      if current != [] && info.Some? then Memory([], results + [(info.value.name, current)]) else sink
  }

  function OnFileStart(sink: Sink, name: ByteString): Sink {
    match sink
    case Disk(_, files) => Disk(Some(name), files[name := []])
    case Memory(_, results) => Memory([], results)
  }

  /** False where `_write_data` trips its assertion. */
  predicate CanWrite(sink: Sink) {
    sink.Disk? ==> sink.open.Some? && sink.open.value in sink.files
  }

  function WriteData(sink: Sink, data: ByteString): Sink
    requires CanWrite(sink)
  {
    match sink
    case Disk(open, files) => Disk(open, files[open.value := files[open.value] + data])
    case Memory(current, results) => Memory(current + data, results)
  }

  // ---------- the four actions; the flag says whether the driving loop goes on

  function HeaderStep(p: Parser, lib: Library): (Parser, bool)
    requires p.Parser?
  {
    var sink := OnFileComplete(p.sink, p.info);
    if |p.buf| < BLOCKSIZE then (p.(sink := sink), false)
    else
      var rest := p.buf[BLOCKSIZE..];
      match lib.frombuf(p.buf[..BLOCKSIZE])
      case None => (Raised(sink), false)
      case Some(info) =>
        if info.typeflag == GNUTYPE_LONGNAME then
          (Parser(rest, ReadLongName, info.size, Some(info), Some([]), sink), true)
        else if p.longName.Some? && p.longName.value != [] then
          var name := p.longName.value[..|p.longName.value| - 1];
          if lib.utf8(name) then
            (Parser(rest, ReadData, info.size, Some(info.(name := name)), None, OnFileStart(sink, name)), true)
          else (Raised(sink), false)
        else (Parser(rest, ReadData, info.size, Some(info), p.longName, OnFileStart(sink, info.name)), true)
  }

  function AfterContent(p: Parser): Parser
    requires p.Parser? && p.info.Some?
  {
    var remainder := p.info.value.size % BLOCKSIZE;
    p.(phase := SkipBytes, toProcess := if remainder > 0 then BLOCKSIZE - remainder else p.toProcess)
  }

  function LongNameStep(p: Parser): (Parser, bool)
    requires p.Parser? && p.info.Some? && p.longName.Some?
  {
    var k := Min(p.toProcess, |p.buf|);
    var next := p.(buf := p.buf[k..], toProcess := p.toProcess - k, longName := Some(p.longName.value + p.buf[..k]));
    if next.toProcess > 0 then (next, false) else (AfterContent(next), true)
  }

  function DataStep(p: Parser): (Parser, bool)
    requires p.Parser? && p.info.Some?
  {
    var k := Min(p.toProcess, |p.buf|);
    if !CanWrite(p.sink) then (Raised(p.sink), false)
    else
      var next := p.(buf := p.buf[k..], toProcess := p.toProcess - k, sink := WriteData(p.sink, p.buf[..k]));
      if next.toProcess > 0 then (next, false) else (AfterContent(next), true)
  }

  predicate AllNul(s: ByteString) {
    forall i :: 0 <= i < |s| ==> s[i] == 0
  }

  function SkipStep(p: Parser): (Parser, bool)
    requires p.Parser?
  {
    var k := Min(p.toProcess, |p.buf|);
    if !AllNul(p.buf[..k]) then (Raised(p.sink), false)
    else
      var next := p.(buf := p.buf[k..], toProcess := p.toProcess - k);
      if next.toProcess > 0 then (next, false) else (next.(phase := ReadHeader), true)
  }

  /** The assertions at the head of the content actions. */
  predicate Coherent(p: Parser) {
    p.Parser? ==>
      && (p.phase == ReadLongName ==> p.info.Some? && p.longName.Some?)
      && (p.phase == ReadData ==> p.info.Some?)
  }

  function Step(p: Parser, lib: Library): (r: (Parser, bool))
    requires p.Parser? && Coherent(p)
    ensures Coherent(r.0)
    ensures r.1 ==> r.0.Parser? && |r.0.buf| <= |p.buf|
    ensures r.1 ==> |r.0.buf| < |p.buf| || Rank(r.0.phase) < Rank(p.phase)
    // a pass that stops has either thrown or left less than a block
    ensures !r.1 && r.0.Parser? ==> |r.0.buf| < BLOCKSIZE
  {
    match p.phase
    case ReadHeader => HeaderStep(p, lib)
    case ReadLongName => LongNameStep(p)
    case ReadData => DataStep(p)
    case SkipBytes => SkipStep(p)
  }

  function Rank(phase: Phase): nat {
    match phase
    case ReadHeader => 0
    case SkipBytes => 1
    case _ => 2
  }

  /** The driving loop: actions until one of them says stop. */
  function Run(p: Parser, lib: Library): (r: Parser)
    requires Coherent(p)
    ensures Coherent(r)
    ensures r.Parser? ==> |r.buf| < BLOCKSIZE
    decreases p.Parser?, if p.Parser? then |p.buf| else 0, if p.Parser? then Rank(p.phase) else 0
  {
    if p.Raised? then p
    else
      var (next, more) := Step(p, lib);
      if more then Run(next, lib) else next
  }

  function Append(p: Parser, data: ByteString): Parser {
    if p.Raised? then p else p.(buf := p.buf + data)
  }

  /** One call of the stage on a piece of the stream. */
  function Feed(p: Parser, data: ByteString, lib: Library): (r: Parser)
    requires Coherent(p)
    ensures Coherent(r)
    ensures r.Parser? ==> |r.buf| < BLOCKSIZE
  {
    Run(Append(p, data), lib)
  }

  function FeedAll(p: Parser, pieces: seq<ByteString>, lib: Library): (r: Parser)
    requires Coherent(p)
    ensures Coherent(r)
    decreases |pieces|
  {
    if pieces == [] then p else FeedAll(Feed(p, pieces[0], lib), pieces[1..], lib)
  }

  // ---------- independence of the cut

  /** An action that goes on, or throws, does the same with more bytes behind it. */
  lemma StepForesight(p: Parser, data: ByteString, lib: Library)
    requires p.Parser? && Coherent(p)
    requires Step(p, lib).1 || Step(p, lib).0.Raised?
    ensures Step(Append(p, data), lib) == (Append(Step(p, lib).0, data), Step(p, lib).1)
  {
    match p.phase
    case ReadHeader =>
      assert (p.buf + data)[..BLOCKSIZE] == p.buf[..BLOCKSIZE];
      assert (p.buf + data)[BLOCKSIZE..] == p.buf[BLOCKSIZE..] + data;
    case SkipBytes => SkipForesight(p, data);
    case _ => TakeForesight(p.buf, data, p.toProcess);
  }

  lemma TakeForesight(buf: ByteString, data: ByteString, n: nat)
    ensures n <= |buf| ==> (buf + data)[..n] == buf[..n] && (buf + data)[n..] == buf[n..] + data
  {
  }

  lemma SkipForesight(p: Parser, data: ByteString)
    requires p.Parser?
    requires SkipStep(p).1 || SkipStep(p).0.Raised?
    ensures SkipStep(Append(p, data)) == (Append(SkipStep(p).0, data), SkipStep(p).1)
  {
    TakeForesight(p.buf, data, p.toProcess);
    var k := Min(p.toProcess, |p.buf|);
    if !AllNul(p.buf[..k]) {
      var i :| 0 <= i < k && p.buf[..k][i] != 0;
      assert (p.buf + data)[..Min(p.toProcess, |p.buf + data|)][i] != 0;
    }
  }

  /** An action that ran dry resumes as if it had seen everything at once. */
  lemma StepResume(p: Parser, data: ByteString, lib: Library)
    requires p.Parser? && Coherent(p)
    requires !Step(p, lib).1 && Step(p, lib).0.Parser?
    ensures Step(Append(Step(p, lib).0, data), lib) == Step(Append(p, data), lib)
  {
    match p.phase
    case ReadHeader =>
    case ReadLongName => LongNameResume(p, data);
    case ReadData => DataResume(p, data);
    case SkipBytes => SkipResume(p, data);
  }

  /** Taking `n` bytes in two goes. */
  lemma TakeResume(buf: ByteString, data: ByteString, n: nat)
    requires |buf| < n
    ensures var k := Min(n, |buf + data|);
            && Min(n - |buf|, |data|) == k - |buf|
            && (buf + data)[..k] == buf + data[..k - |buf|]
            && (buf + data)[k..] == data[k - |buf|..]
    ensures buf[..|buf|] == buf && buf[|buf|..] == [] && [] + data == data
  {
  }

  lemma LongNameResume(p: Parser, data: ByteString)
    requires p.Parser? && p.info.Some? && p.longName.Some? && !LongNameStep(p).1
    ensures LongNameStep(Append(LongNameStep(p).0, data)) == LongNameStep(Append(p, data))
  {
    TakeResume(p.buf, data, p.toProcess);
    var got := data[..Min(p.toProcess, |p.buf + data|) - |p.buf|];
    assert p.longName.value + p.buf + got == p.longName.value + (p.buf + got);
  }

  lemma DataResume(p: Parser, data: ByteString)
    requires p.Parser? && p.info.Some? && !DataStep(p).1 && DataStep(p).0.Parser?
    ensures DataStep(Append(DataStep(p).0, data)) == DataStep(Append(p, data))
  {
    TakeResume(p.buf, data, p.toProcess);
    WriteTwice(p.sink, p.buf, data[..Min(p.toProcess, |p.buf + data|) - |p.buf|]);
  }

  lemma SkipResume(p: Parser, data: ByteString)
    requires p.Parser? && !SkipStep(p).1 && SkipStep(p).0.Parser?
    ensures SkipStep(Append(SkipStep(p).0, data)) == SkipStep(Append(p, data))
  {
    TakeResume(p.buf, data, p.toProcess);
    AllNulConcat(p.buf, data[..Min(p.toProcess, |p.buf + data|) - |p.buf|]);
  }

  lemma AllNulConcat(a: ByteString, b: ByteString)
    ensures AllNul(a + b) <==> AllNul(a) && AllNul(b)
  {
    if AllNul(a + b) {
      assert forall i :: 0 <= i < |a| ==> a[i] == (a + b)[i];
      assert forall i :: 0 <= i < |b| ==> b[i] == (a + b)[|a| + i];
    }
  }

  lemma WriteTwice(sink: Sink, a: ByteString, b: ByteString)
    requires CanWrite(sink)
    ensures CanWrite(WriteData(sink, a))
    ensures WriteData(WriteData(sink, a), b) == WriteData(sink, a + b)
  {
    match sink
    case Disk(open, files) =>
      assert files[open.value] + a + b == files[open.value] + (a + b);
      assert files[open.value := files[open.value] + a][open.value := files[open.value] + a + b]
          == files[open.value := files[open.value] + (a + b)];
    case Memory(current, results) => assert current + a + b == current + (a + b);
  }

  /** Stopping at the end of a piece and resuming with the next is the same as one long piece. */
  lemma {:induction false} RunResume(p: Parser, data: ByteString, lib: Library)
    requires Coherent(p)
    ensures Run(Append(Run(p, lib), data), lib) == Run(Append(p, data), lib)
    decreases p.Parser?, if p.Parser? then |p.buf| else 0, if p.Parser? then Rank(p.phase) else 0
  {
    if p.Parser? {
      var (next, more) := Step(p, lib);
      if more {
        StepForesight(p, data, lib);
        RunResume(next, data, lib);
      } else if next.Raised? {
        StepForesight(p, data, lib);
      } else {
        StepResume(p, data, lib);
      }
    }
  }

  /** However a stream is cut, the parser ends in the state it would reach on the whole of it. */
  lemma {:induction false} FeedAllIsFeed(p: Parser, pieces: seq<ByteString>, lib: Library)
    requires Coherent(p) && pieces != []
    ensures FeedAll(p, pieces, lib) == Feed(p, Concat(pieces), lib)
    decreases |pieces|
  {
    var first := Feed(p, pieces[0], lib);
    if |pieces| == 1 {
      assert pieces[1..] == [];
      assert Concat(pieces) == pieces[0];
    } else {
      FeedAllIsFeed(first, pieces[1..], lib);
      RunResume(Append(p, pieces[0]), Concat(pieces[1..]), lib);
      if p.Parser? {
        assert p.buf + pieces[0] + Concat(pieces[1..]) == p.buf + Concat(pieces);
      }
    }
  }
}
