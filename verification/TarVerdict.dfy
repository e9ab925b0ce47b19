/**
 * What write_files_stage.py takes for a tar stream, read off the whole stream at once, and the proof that the
 * incremental parser throws, waits or comes out even exactly then, however the stream is cut.
 */
module TarVerdict {
  import opened Bytes
  import opened TarHeader
  import opened TarParser

  /** `Whole` ends with a record, `Cut` inside one; `Broken` has a block no reader of the format may pass over. */
  datatype Verdict = Whole | Cut | Broken

  /** The bytes that fill the last block of `size` bytes of content. */
  function Padding(size: nat): (n: nat)
    ensures n < BLOCKSIZE
  {
    (BLOCKSIZE - size % BLOCKSIZE) % BLOCKSIZE
  }

  /** `pending` is the content of a long-name record that the next file takes its name from. */
  predicate HeaderIsGood(block: ByteString, pending: ByteString, lib: Library) {
    lib.frombuf(block).Some? &&
    (lib.frombuf(block).value.typeflag == GNUTYPE_LONGNAME || pending == [] || lib.utf8(pending[..|pending| - 1]))
  }

  /** A stream is records: a header block, as much content as it says, and NUL to the end of the last block. */
  function VerdictOf(stream: ByteString, pending: ByteString, lib: Library): Verdict
    decreases |stream|, 1
  {
    if stream == [] then Whole
    else if |stream| < BLOCKSIZE then Cut
    else if !HeaderIsGood(stream[..BLOCKSIZE], pending, lib) then Broken
    else AfterHeader(stream, lib.frombuf(stream[..BLOCKSIZE]).value, lib)
  }

  function AfterHeader(stream: ByteString, info: TarInfo, lib: Library): Verdict
    requires BLOCKSIZE <= |stream|
    decreases |stream|, 0
  {
    var end := BLOCKSIZE + info.size;
    if |stream| < end then Cut
    else if exists i :: end <= i < Min(|stream|, end + Padding(info.size)) && stream[i] != 0 then Broken
    else if |stream| < end + Padding(info.size) then Cut
    else
      var named := if info.typeflag == GNUTYPE_LONGNAME then stream[BLOCKSIZE..end] else [];
      VerdictOf(stream[end + Padding(info.size)..], named, lib)
  }

  /** How a parser stands: it has thrown, it is at the end of a record, or it waits for the rest of one. */
  function Standing(p: Parser): Verdict {
    if p.Raised? then Broken else if p.phase == ReadHeader && p.buf == [] then Whole else Cut
  }

  function Pending(p: Parser): ByteString
    requires p.Parser?
  {
    if p.longName.Some? then p.longName.value else []
  }

  lemma RunUnfolds(p: Parser, lib: Library)
    requires p.Parser? && Coherent(p)
    ensures Run(p, lib) == if Step(p, lib).1 then Run(Step(p, lib).0, lib) else Step(p, lib).0
  {
  }

  /** A good header leads on to the content; the file it starts can be written to. */
  lemma HeaderLeads(p: Parser, lib: Library)
    requires p.Parser? && p.phase == ReadHeader && BLOCKSIZE <= |p.buf|
    ensures !HeaderIsGood(p.buf[..BLOCKSIZE], Pending(p), lib) ==> HeaderStep(p, lib).0.Raised? && !HeaderStep(p, lib).1
    ensures HeaderIsGood(p.buf[..BLOCKSIZE], Pending(p), lib) ==>
              var info := lib.frombuf(p.buf[..BLOCKSIZE]).value;
              var (q, more) := HeaderStep(p, lib);
              && more && AtContent(q, info.size) && q.buf == p.buf[BLOCKSIZE..]
              && (q.phase == ReadLongName <==> info.typeflag == GNUTYPE_LONGNAME) && Pending(q) == []
  {
  }

  predicate AtContent(q: Parser, size: nat) {
    && q.Parser? && Coherent(q) && (q.phase == ReadLongName || q.phase == ReadData)
    && q.info.Some? && q.info.value.size == size && q.toProcess == size && (q.phase == ReadData ==> CanWrite(q.sink))
  }

  /** What the content action leaves: the parser waits for more of it, or goes on to the padding. */
  lemma ContentLeads(q: Parser, size: nat, lib: Library)
    requires AtContent(q, size) && Pending(q) == []
    ensures Step(q, lib).1 <==> size <= |q.buf|
    ensures !Step(q, lib).1 ==> Step(q, lib).0.Parser? && Step(q, lib).0.phase == q.phase
    ensures size <= |q.buf| ==>
              var next := Step(q, lib).0;
              && next.Parser? && next.phase == SkipBytes && next.buf == q.buf[size..]
              && next.toProcess == Padding(size)
              && Pending(next) == if q.phase == ReadLongName then q.buf[..size] else []
  {
  }

  lemma PaddingLeads(q: Parser, n: nat, lib: Library)
    requires q.Parser? && q.phase == SkipBytes && q.toProcess == n
    ensures var (next, more) := Step(q, lib);
            if exists i :: 0 <= i < Min(n, |q.buf|) && q.buf[i] != 0 then next.Raised? && !more
            else if |q.buf| < n then next.Parser? && next.phase == SkipBytes && !more
            else
              && next.Parser? && next.phase == ReadHeader && more && next.buf == q.buf[n..]
              && Pending(next) == Pending(q)
  {
    var k := Min(n, |q.buf|);
    assert forall i :: 0 <= i < k ==> q.buf[..k][i] == q.buf[i];
  }

  /** From a record boundary the parser ends as the bytes it has call for. */
  lemma {:induction false} RunEnds(p: Parser, lib: Library)
    requires p.Parser? && Coherent(p) && p.phase == ReadHeader
    ensures Standing(Run(p, lib)) == VerdictOf(p.buf, Pending(p), lib)
    decreases |p.buf|, 2
  {
    RunUnfolds(p, lib);
    if BLOCKSIZE <= |p.buf| {
      HeaderLeads(p, lib);
      if HeaderIsGood(p.buf[..BLOCKSIZE], Pending(p), lib) {
        ContentEnds(p.buf, HeaderStep(p, lib).0, lib.frombuf(p.buf[..BLOCKSIZE]).value, lib);
      }
    }
  }

  /** The same from the end of a header, `info`, on. */
  lemma {:induction false} ContentEnds(stream: ByteString, q: Parser, info: TarInfo, lib: Library)
    requires AtContent(q, info.size) && Pending(q) == [] && BLOCKSIZE <= |stream| && q.buf == stream[BLOCKSIZE..]
    requires q.phase == ReadLongName <==> info.typeflag == GNUTYPE_LONGNAME
    ensures Standing(Run(q, lib)) == AfterHeader(stream, info, lib)
    decreases |stream|, 1
  {
    RunUnfolds(q, lib);
    ContentLeads(q, info.size, lib);
    if info.size <= |q.buf| {
      Slices(stream, info.size);
      PaddingEnds(stream, Step(q, lib).0, info, lib);
    }
  }

  lemma Slices(stream: ByteString, size: nat)
    requires BLOCKSIZE + size <= |stream|
    ensures stream[BLOCKSIZE..][..size] == stream[BLOCKSIZE..BLOCKSIZE + size]
    ensures stream[BLOCKSIZE..][size..] == stream[BLOCKSIZE + size..]
  {
  }

  /** And from the end of the content on. */
  lemma {:induction false} PaddingEnds(stream: ByteString, r: Parser, info: TarInfo, lib: Library)
    requires BLOCKSIZE + info.size <= |stream| && r.Parser? && Coherent(r) && r.phase == SkipBytes
    requires r.buf == stream[BLOCKSIZE + info.size..] && r.toProcess == Padding(info.size)
    requires Pending(r) == if info.typeflag == GNUTYPE_LONGNAME then stream[BLOCKSIZE..BLOCKSIZE + info.size] else []
    ensures Standing(Run(r, lib)) == AfterHeader(stream, info, lib)
    decreases |stream|, 0
  {
    RunUnfolds(r, lib);
    PaddingLeads(r, Padding(info.size), lib);
    Offsets(stream, BLOCKSIZE + info.size, Padding(info.size));
    if Step(r, lib).1 {
      RunEnds(Step(r, lib).0, lib);
    }
  }

  lemma Offsets(stream: ByteString, at: nat, n: nat)
    requires at <= |stream|
    ensures at + n <= |stream| ==> stream[at..][n..] == stream[at + n..]
    ensures (exists i :: 0 <= i < Min(n, |stream[at..]|) && stream[at..][i] != 0) <==>
            (exists i :: at <= i < Min(|stream|, at + n) && stream[i] != 0)
  {
    var rest := stream[at..];
    forall i | 0 <= i < |rest|
      ensures rest[i] == stream[at + i]
    {
    }
    if i :| at <= i < Min(|stream|, at + n) && stream[i] != 0 {
      assert rest[i - at] != 0;
    }
  }

  /** However a stream is cut into pieces, the parser throws, waits or comes out even exactly as its verdict says. */
  lemma ParserEndsAsVerdict(sink: Sink, pieces: seq<ByteString>, lib: Library)
    requires pieces != []
    ensures Standing(FeedAll(Start(sink), pieces, lib)) == VerdictOf(Concat(pieces), [], lib)
  {
    FeedAllIsFeed(Start(sink), pieces, lib);
    var p := Append(Start(sink), Concat(pieces));
    assert [] + Concat(pieces) == Concat(pieces);
    RunEnds(p, lib);
  }
}
