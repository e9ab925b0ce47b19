/** Re-chunking of a byte stream, chunking_stage.py, and the loop that drives a flat-map stage, flat_map.py. */
module Chunking {
  import opened Bytes
  import opened BytesFifo

  /** The full chunks of size `c` at the front of `s`. */
  function Chunks(s: ByteString, c: nat): seq<ByteString>
    requires 0 < c
    decreases |s|
  {
    if |s| < c then [] else [s[..c]] + Chunks(s[c..], c)
  }

  /** What remains of `s` behind its full chunks. */
  function Rest(s: ByteString, c: nat): (r: ByteString)
    requires 0 < c
    ensures |r| < c
    decreases |s|
  {
    if |s| < c then s else Rest(s[c..], c)
  }

  /** The whole output of the stage for the input stream `s`. */
  function Rechunk(s: ByteString, c: nat): seq<ByteString>
    requires 0 < c
  {
    Chunks(s, c) + (if Rest(s, c) == [] then [] else [Rest(s, c)])
  }

  /** A chunk list as the uploader wants it: full chunks and then at most one shorter, non-empty one. */
  ghost predicate WellChunked(chunks: seq<ByteString>, c: nat) {
    && (forall i :: 0 <= i < |chunks| ==> 0 < |chunks[i]| <= c)
    && (forall i :: 0 <= i < |chunks| - 1 ==> |chunks[i]| == c)
  }

  /** Chunking may stop anywhere in the input and resume from what was left in the buffer. */
  lemma {:induction false} ChunksResume(a: ByteString, b: ByteString, c: nat)
    requires 0 < c
    ensures Chunks(a + b, c) == Chunks(a, c) + Chunks(Rest(a, c) + b, c)
    ensures Rest(a + b, c) == Rest(Rest(a, c) + b, c)
    decreases |a|
  {
    if |a| >= c {
      assert (a + b)[..c] == a[..c] && (a + b)[c..] == a[c..] + b;
      ChunksResume(a[c..], b, c);
    }
  }

  lemma {:induction false} ChunksPartition(s: ByteString, c: nat)
    requires 0 < c
    ensures Concat(Chunks(s, c)) + Rest(s, c) == s
    ensures forall i :: 0 <= i < |Chunks(s, c)| ==> |Chunks(s, c)[i]| == c
    ensures |s| == |Chunks(s, c)| * c + |Rest(s, c)|
    decreases |s|
  {
    if |s| >= c {
      ChunksPartition(s[c..], c);
      var cs := Chunks(s[c..], c);
      assert Chunks(s, c)[1..] == cs;
      assert Concat(Chunks(s, c)) == s[..c] + Concat(cs);
      assert s == s[..c] + s[c..];
      assert (|cs| + 1) * c == |cs| * c + c;
    }
  }

  /** Re-chunking loses nothing, and only the last chunk may be short. */
  lemma RechunkPartitions(s: ByteString, c: nat)
    requires 0 < c
    ensures Concat(Rechunk(s, c)) == s
    ensures WellChunked(Rechunk(s, c), c)
    ensures |Rechunk(s, c)| == CeilDiv(|s|, c)
  {
    ChunksPartition(s, c);
    CeilDivOf(|Chunks(s, c)|, c, |Rest(s, c)|);
    if Rest(s, c) != [] {
      ConcatSnoc(Chunks(s, c), Rest(s, c));
    } else {
      assert Rechunk(s, c) == Chunks(s, c);
    }
  }

  /** Exact integer `ceil(x / d)`. */
  function CeilDiv(x: nat, d: nat): nat
    requires 0 < d
  {
    (x + d - 1) / d
  }

  lemma CeilDivOf(n: nat, d: nat, r: nat)
    requires r < d
    ensures n * d + r >= 0
    ensures CeilDiv(n * d + r, d) == if r == 0 then n else n + 1
  {
    if r == 0 {
      DivisionUnique(n * d + r + d - 1, d, n, d - 1);
    } else {
      DivisionUnique(n * d + r + d - 1, d, n + 1, r - 1);
    }
  }

  lemma DivisionUnique(x: int, d: int, q: int, r: int)
    requires 0 <= r < d && x == q * d + r
    ensures x / d == q && x % d == r
  {
    var q', r' := x / d, x % d;
    assert x == q' * d + r';
    assert (q - q') * d == r' - r;
    MultipleIsFar(q - q', d);
  }

  lemma MultipleIsFar(n: int, d: int)
    requires d > 0
    ensures n >= 1 ==> n * d >= d
    ensures n <= -1 ==> n * d <= -d
  {
    if n >= 1 {
      assert n * d >= 1 * d;
    } else if n <= -1 {
      assert n * d <= -1 * d;
    }
  }

  /** The output is the only well-chunked list that carries the stream. */
  lemma {:induction false} RechunkUnique(chunks: seq<ByteString>, c: nat)
    requires 0 < c && WellChunked(chunks, c)
    ensures Rechunk(Concat(chunks), c) == chunks
  {
    if chunks == [] {
    } else if |chunks| == 1 {
      assert chunks[1..] == [];
      assert Concat(chunks) == chunks[0];
      if |chunks[0]| == c {
        assert chunks[0][..c] == chunks[0] && chunks[0][c..] == [];
        assert Chunks(chunks[0], c) == [chunks[0]] + Chunks([], c);
        assert Rest(chunks[0], c) == Rest([], c) == [];
      }
    } else {
      var s, tail := Concat(chunks), Concat(chunks[1..]);
      assert s[..c] == chunks[0] && s[c..] == tail;
      RechunkUnique(chunks[1..], c);
      assert Rechunk(s, c) == [s[..c]] + Rechunk(tail, c);
    }
  }

  class ChunkingStage {
    const chunkSize: nat
    const fifo: BytesFIFO

    ghost predicate Valid()
      reads this, fifo
    {
      && 0 < chunkSize <= fifo.size
      && fifo.Valid()
      && |fifo.Contents()| < chunkSize
    }

    constructor (chunkSize: nat, bufferSize: nat)
      requires 0 < chunkSize <= bufferSize
      ensures Valid() && fresh(fifo)
      ensures this.chunkSize == chunkSize && fifo.Contents() == []
    {
      this.chunkSize := chunkSize;
      fifo := new BytesFIFO(bufferSize);
    }

    /** The inner loop of the stage: emits the full chunks that the buffer holds. */
    method Drain() returns (out: seq<ByteString>)
      requires fifo.Valid() && 0 < chunkSize <= fifo.size
      modifies fifo
      ensures Valid() && fifo.size == old(fifo.size)
      ensures out == Chunks(old(fifo.Contents()), chunkSize)
      ensures fifo.Contents() == Rest(old(fifo.Contents()), chunkSize)
    {
      out := [];
      while fifo.filled >= chunkSize
        invariant fifo.Valid() && fifo.size == old(fifo.size)
        invariant Chunks(old(fifo.Contents()), chunkSize) == out + Chunks(fifo.Contents(), chunkSize)
        invariant Rest(old(fifo.Contents()), chunkSize) == Rest(fifo.Contents(), chunkSize)
        decreases fifo.filled
      {
        var data := fifo.Read(chunkSize);
        out := out + [data];
      }
    }

    /** One piece of input; every chunk that becomes full is emitted at once. */
    method Call(value: ByteString) returns (out: seq<ByteString>)
      requires Valid()
      modifies fifo
      ensures Valid()
      ensures out == Chunks(old(fifo.Contents()) + value, chunkSize)
      ensures fifo.Contents() == Rest(old(fifo.Contents()) + value, chunkSize)
    {
      ghost var start := fifo.Contents();
      var left := value;
      out := [];
      while |left| > 0
        invariant Valid()
        invariant Chunks(start + value, chunkSize) == out + Chunks(fifo.Contents() + left, chunkSize)
        invariant Rest(start + value, chunkSize) == Rest(fifo.Contents() + left, chunkSize)
        decreases |left|
      {
        ghost var held := fifo.Contents() + left;
        ghost var before := out;
        var written := fifo.Write(left);
        left := left[written..];
        assert fifo.Contents() + left == held;
        ghost var c := fifo.Contents();
        ChunksResume(c, left, chunkSize);
        var chunks := Drain();
        out := out + chunks;
        assert out + Chunks(fifo.Contents() + left, chunkSize) == before + Chunks(held, chunkSize);
      }
      assert fifo.Contents() + left == fifo.Contents();
    }

    /** The end of the input: what is still buffered goes out as a last, short chunk. */
    method OnDone() returns (out: seq<ByteString>)
      requires Valid()
      modifies fifo
      ensures out == (if old(fifo.Contents()) == [] then [] else [old(fifo.Contents())])
      ensures fifo.Valid() && fifo.Contents() == []
    {
      assert fifo.filled < chunkSize;
      assert fifo.Contents()[..fifo.filled] == fifo.Contents();
      var data := fifo.Read(-1);
      out := if |data| > 0 then [data] else [];
    }
  }

  /**
   * A ChunkingStage driven over a whole input by the flat-map runner. The output depends on the stream
   * alone, not on how it was cut into pieces nor on the buffer size.
   */
  method RunChunking(pieces: seq<ByteString>, chunkSize: nat, bufferSize: nat) returns (out: seq<ByteString>)
    requires 0 < chunkSize <= bufferSize
    ensures out == Rechunk(Concat(pieces), chunkSize)
  {
    var stage := new ChunkingStage(chunkSize, bufferSize);
    out := [];
    for i := 0 to |pieces|
      invariant stage.Valid() && fresh(stage.fifo) && stage.chunkSize == chunkSize
      invariant out == Chunks(Concat(pieces[..i]), chunkSize)
      invariant stage.fifo.Contents() == Rest(Concat(pieces[..i]), chunkSize)
    {
      assert pieces[..i + 1] == pieces[..i] + [pieces[i]];
      ConcatSnoc(pieces[..i], pieces[i]);
      ChunksResume(Concat(pieces[..i]), pieces[i], chunkSize);
      var chunks := stage.Call(pieces[i]);
      out := out + chunks;
    }
    assert pieces[..|pieces|] == pieces;
    var last := stage.OnDone();
    out := out + last;
  }
}
