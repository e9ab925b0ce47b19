/** The parser as the object that write_files_stage.py makes of it: fields, and a byte queue of bounded capacity. */
module TarStage {
  import opened Bytes
  import opened BytesFifo
  import opened TarHeader
  import opened TarParser

  datatype Outcome = Accepted | BufferFull | Failed

  /** How a whole run ends: refused for want of buffer, thrown out of, or finished in some phase. */
  datatype Result = Refused | Threw | Finished(phase: Phase, sink: Sink)

  class TarStreamProcessor {
    const lib: Library
    const tarstream: BytesFIFO
    var phase: Phase
    var toProcess: nat
    var tarinfo: Option<TarInfo>
    var nameFromBuffer: Option<ByteString>
    var sink: Sink
    var raised: bool

    ghost predicate Valid()
      reads this, tarstream
    {
      tarstream.Valid() && Coherent(State())
    }

    ghost function State(): Parser
      requires tarstream.Valid()
      reads this, tarstream
    {
      if raised then Raised(sink)
      else Parser(tarstream.Contents(), phase, toProcess, tarinfo, nameFromBuffer, sink)
    }

    /** The source raises ValueError for a buffer smaller than a tar block; RunProcessor makes that check. */
    constructor (lib: Library, sink: Sink, bufferSize: nat)
      requires BLOCKSIZE <= bufferSize
      ensures Valid() && fresh(tarstream) && tarstream.size == bufferSize
      ensures State() == Start(sink) && this.lib == lib
    {
      this.lib := lib;
      tarstream := new BytesFIFO(bufferSize);
      phase := ReadHeader;
      toProcess := 0;
      tarinfo := None;
      nameFromBuffer := None;
      this.sink := sink;
      raised := false;
    }

    method ReadHeaderAction() returns (more: bool)
      requires Valid() && !raised && phase == ReadHeader
      modifies this, tarstream
      ensures Valid() && tarstream.size == old(tarstream.size)
      ensures (State(), more) == HeaderStep(old(State()), lib)
    {
      ghost var before := tarstream.Contents();
      sink := OnFileComplete(sink, tarinfo);
      if tarstream.filled < BLOCKSIZE {
        return false;
      }
      var buf := tarstream.Read(BLOCKSIZE);
      assert buf == before[..BLOCKSIZE];
      var info := lib.frombuf(buf);
      if info == None {
        raised := true;
        return false;
      }
      tarinfo := info;
      toProcess := info.value.size;
      if info.value.typeflag == GNUTYPE_LONGNAME {
        phase := ReadLongName;
        nameFromBuffer := Some([]);
      } else {
        phase := ReadData;
        if nameFromBuffer.Some? && nameFromBuffer.value != [] {
          var name := nameFromBuffer.value[..|nameFromBuffer.value| - 1];
          if !lib.utf8(name) {
            raised := true;
            return false;
          }
          tarinfo := Some(info.value.(name := name));
          nameFromBuffer := None;
        }
        sink := OnFileStart(sink, tarinfo.value.name);
      }
      more := true;
    }

    /** As much of the awaited bytes as is buffered. */
    method TakeAwaited() returns (buf: ByteString)
      requires Valid() && !raised
      modifies this`toProcess, tarstream
      ensures tarstream.Valid() && tarstream.size == old(tarstream.size)
      ensures var p := old(State());
              var k := Min(p.toProcess, |p.buf|);
              buf == p.buf[..k] && State() == p.(buf := p.buf[k..], toProcess := p.toProcess - k)
    {
      buf := tarstream.Read(toProcess);
      toProcess := toProcess - |buf|;
    }

    method ProcessLongName() returns (more: bool)
      requires Valid() && !raised && phase == ReadLongName
      modifies this, tarstream
      ensures Valid() && tarstream.size == old(tarstream.size)
      ensures (State(), more) == LongNameStep(old(State()))
    {
      var buf := TakeAwaited();
      nameFromBuffer := Some(nameFromBuffer.value + buf);
      if toProcess > 0 {
        return false;
      }
      SkipPadding();
      more := true;
    }

    method ProcessData() returns (more: bool)
      requires Valid() && !raised && phase == ReadData
      modifies this, tarstream
      ensures Valid() && tarstream.size == old(tarstream.size)
      ensures (State(), more) == DataStep(old(State()))
    {
      if !CanWrite(sink) {
        raised := true;
        return false;
      }
      var buf := TakeAwaited();
      sink := WriteData(sink, buf);
      if toProcess > 0 {
        return false;
      }
      SkipPadding();
      more := true;
    }

    /** The common end of both content actions. */
    method SkipPadding()
      requires tarstream.Valid() && !raised && tarinfo.Some?
      modifies this
      ensures !raised && State() == AfterContent(old(State()))
    {
      phase := SkipBytes;
      if tarinfo.value.size % BLOCKSIZE > 0 {
        toProcess := BLOCKSIZE - tarinfo.value.size % BLOCKSIZE;
      }
    }

    method SkipAction() returns (more: bool)
      requires Valid() && !raised && phase == SkipBytes
      modifies this, tarstream
      ensures Valid() && tarstream.size == old(tarstream.size)
      ensures (State(), more) == SkipStep(old(State()))
    {
      var buf := TakeAwaited();
      if !AllNul(buf) {
        raised := true;
        return false;
      }
      if toProcess > 0 {
        return false;
      }
      phase := ReadHeader;
      more := true;
    }

    /**
     * One piece of the stream. It is refused exactly when it does not fit beside what is still buffered;
     * otherwise the actions run until one stops.
     */
    method Call(data: ByteString) returns (outcome: Outcome)
      requires Valid() && !raised
      modifies this, tarstream
      ensures Valid() && tarstream.size == old(tarstream.size)
      ensures outcome == BufferFull <==> |old(tarstream.Contents())| + |data| > tarstream.size
      ensures outcome != BufferFull ==> State() == Feed(old(State()), data, lib)
      ensures outcome == Failed ==> raised
      ensures outcome == Accepted ==> !raised
    {
      ghost var start := State();
      var written := tarstream.Write(data);
      if written != |data| {
        return BufferFull;
      }
      assert data[..written] == data;
      assert State() == Append(start, data);
      var more := true;
      while more
        invariant Valid() && tarstream.size == old(tarstream.size)
        invariant more ==> !raised
        invariant Feed(start, data, lib) == if more then Run(State(), lib) else State()
        decreases more, |tarstream.Contents()|, Rank(phase)
      {
        ghost var before := State();
        match phase {
          case ReadHeader => more := ReadHeaderAction();
          case ReadLongName => more := ProcessLongName();
          case ReadData => more := ProcessData();
          case SkipBytes => more := SkipAction();
        }
        assert (State(), more) == Step(before, lib);
      }
      outcome := if raised then Failed else Accepted;
    }

    /** The end of the stream completes the file in hand. */
    method OnDone()
      requires Valid() && !raised
      modifies this
      ensures State() == old(State()).(sink := OnFileComplete(old(sink), tarinfo)) &&
              sink == OnFileComplete(old(sink), tarinfo)
    {
      sink := OnFileComplete(sink, tarinfo);
    }
  }

  /**
   * The stage over a whole stream. It is refused exactly when its buffer is below one block or a piece does not
   * fit beside the bytes still waiting; the constructor and `Call` raise there.
   */
  method RunProcessor(lib: Library, sink: Sink, pieces: seq<ByteString>, bufferSize: nat)
    returns (result: Result)
    ensures bufferSize < BLOCKSIZE ==> result == Refused
    ensures bufferSize >= BLOCKSIZE ==>
              result == if Overflows(Start(sink), pieces, lib, bufferSize) then Refused
                        else ResultOf(FeedAll(Start(sink), pieces, lib))
  {
    if bufferSize < BLOCKSIZE {
      return Refused;
    }
    var stage := new TarStreamProcessor(lib, sink, bufferSize);
    for i := 0 to |pieces|
      invariant stage.Valid() && fresh(stage) && fresh(stage.tarstream)
      invariant stage.lib == lib && stage.tarstream.size == bufferSize
      invariant FeedAll(Start(sink), pieces, lib) == FeedAll(stage.State(), pieces[i..], lib)
      invariant Overflows(Start(sink), pieces, lib, bufferSize) <==>
                Overflows(stage.State(), pieces[i..], lib, bufferSize)
      invariant !stage.raised
    {
      var outcome := stage.Call(pieces[i]);
      assert pieces[i..][1..] == pieces[i + 1..];
      if outcome == BufferFull {
        return Refused;
      }
      if outcome == Failed {
        FeedRaised(stage.State(), pieces[i + 1..], lib, bufferSize);
        return Threw;
      }
    }
    stage.OnDone();
    result := Finished(stage.phase, stage.sink);
  }

  /** What `on_done` makes of the final state. */
  function ResultOf(p: Parser): Result {
    if p.Raised? then Threw else Finished(p.phase, OnFileComplete(p.sink, p.info))
  }

  /** Some piece does not fit into a queue of `capacity` bytes beside what earlier pieces left there. */
  predicate Overflows(p: Parser, pieces: seq<ByteString>, lib: Library, capacity: nat)
    requires Coherent(p)
    decreases |pieces|
  {
    pieces != [] && p.Parser? &&
    (|p.buf| + |pieces[0]| > capacity || Overflows(Feed(p, pieces[0], lib), pieces[1..], lib, capacity))
  }

  lemma {:induction false} FeedRaised(p: Parser, pieces: seq<ByteString>, lib: Library, capacity: nat)
    requires p.Raised?
    ensures FeedAll(p, pieces, lib) == p && !Overflows(p, pieces, lib, capacity)
    decreases |pieces|
  {
    if pieces != [] {
      FeedRaised(p, pieces[1..], lib, capacity);
    }
  }

  /** A parser that waits for its first header with `held` bytes in the queue. */
  function Waiting(sink: Sink, held: nat): (p: Parser)
    ensures Coherent(p)
  {
    Parser(Zeros(held), ReadHeader, 0, None, None, sink)
  }

  lemma {:induction false} ShortPiecesWait(pieces: seq<ByteString>, lib: Library, sink: Sink, held: nat)
    requires sink == OnFileComplete(sink, None)
    requires forall i :: 0 <= i < |pieces| ==> pieces[i] == [0]
    requires held + |pieces| < BLOCKSIZE
    ensures FeedAll(Waiting(sink, held), pieces, lib) == Waiting(sink, held + |pieces|)
    decreases |pieces|
  {
    if pieces != [] {
      assert Zeros(held) + pieces[0] == Zeros(held + 1);
      ShortPiecesWait(pieces[1..], lib, sink, held + 1);
    }
  }

  lemma {:induction false} OverflowsAppend(p: Parser, a: seq<ByteString>, b: seq<ByteString>, lib: Library,
                                           capacity: nat)
    requires Coherent(p)
    requires Overflows(FeedAll(p, a, lib), b, lib, capacity)
    ensures Overflows(p, a + b, lib, capacity)
    decreases |a|
  {
    if a == [] {
      assert a + b == b;
    } else {
      assert (a + b)[1..] == a[1..] + b;
      if p.Raised? {
        FeedRaised(p, a, lib, capacity);
        FeedRaised(p, b, lib, capacity);
      }
      OverflowsAppend(Feed(p, a[0], lib), a[1..], b, lib, capacity);
    }
  }

  predicate SmallPieces(pieces: seq<ByteString>, limit: nat) {
    forall i :: 0 <= i < |pieces| ==> |pieces[i]| <= limit
  }

  /** No stream cut into pieces of at most `limit` bytes overflows the queue, whatever it holds. */
  ghost predicate AlwaysFits(p: Parser, lib: Library, limit: nat, capacity: nat)
    requires Coherent(p)
  {
    forall pieces: seq<ByteString> | SmallPieces(pieces, limit) :: !Overflows(p, pieces, lib, capacity)
  }

  lemma {:induction false} SmallPiecesFit(p: Parser, pieces: seq<ByteString>, lib: Library, limit: nat, capacity: nat)
    requires Coherent(p) && (p.Parser? ==> |p.buf| < BLOCKSIZE)
    requires limit + (BLOCKSIZE - 1) <= capacity
    requires SmallPieces(pieces, limit)
    ensures !Overflows(p, pieces, lib, capacity)
    decreases |pieces|
  {
    if pieces != [] {
      SmallPiecesFit(Feed(p, pieces[0], lib), pieces[1..], lib, limit, capacity);
    }
  }

  /** A fresh parser always has room for such pieces exactly when its queue has 511 bytes to spare. */
  lemma NeverOverflowsIff(lib: Library, sink: Sink, limit: nat, capacity: nat)
    requires 0 < limit && BLOCKSIZE <= capacity && sink == OnFileComplete(sink, None)
    ensures AlwaysFits(Start(sink), lib, limit, capacity) <==> limit + (BLOCKSIZE - 1) <= capacity
  {
    var start := Start(sink);
    if limit + (BLOCKSIZE - 1) <= capacity {
      forall pieces: seq<ByteString> | SmallPieces(pieces, limit)
        ensures !Overflows(start, pieces, lib, capacity)
      {
        SmallPiecesFit(start, pieces, lib, limit, capacity);
      }
    } else {
      var dribble: seq<ByteString> := seq(BLOCKSIZE - 1, _ => [0]);
      var pieces := dribble + [Zeros(limit)];
      assert Waiting(sink, 0) == start;
      ShortPiecesWait(dribble, lib, sink, 0);
      OverflowsAppend(start, dribble, [Zeros(limit)], lib, capacity);
      assert SmallPieces(pieces, limit) && Overflows(start, pieces, lib, capacity);
    }
  }
}
