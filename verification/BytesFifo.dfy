/** The fixed-capacity byte queue of bytes_fifo.py, a circular buffer over an in-memory file. */
module BytesFifo {
  import opened Bytes

  /** What reading `n` bytes of an in-memory file at offset `pos` returns; a negative count reads to the end. */
  function ReadAt(file: ByteString, pos: int, n: int): ByteString
    requires 0 <= pos
  {
    if n < 0 then file[Min(pos, |file|)..]
    else file[Min(pos, |file|)..Min(pos + n, |file|)]
  }

  /** What an in-memory file holds after `data` is written at offset `pos`; the queue never leaves a gap. */
  function WriteAt(file: ByteString, pos: int, data: ByteString): ByteString
    requires 0 <= pos <= |file|
  {
    file[..pos] + data + file[Min(pos + |data|, |file|)..]
  }

  /** Where the `i`-th queued byte lies in the buffer. */
  function Slot(size: int, readPtr: int, i: int): int {
    if readPtr + i < size then readPtr + i else readPtr + i - size
  }

  /** The bytes between the read and the write pointer, in queue order. */
  ghost function Unwrap(buffer: ByteString, size: int, filled: int, readPtr: int): ByteString
    requires 0 <= readPtr <= size && 0 <= filled <= size
    requires |buffer| >= Min(readPtr + filled, size)
  {
    seq(filled, i requires 0 <= i < filled => buffer[Slot(size, readPtr, i)])
  }

  /** The three steps `read` takes on its pointers, as the code computes them. */
  function RawRead(buffer: ByteString, size: int, filled: int, readPtr: int, n: int): ByteString
    requires 0 <= readPtr
  {
    var want := Min(if n < 0 then filled else n, filled);
    var contiguous := Min(size - readPtr, want);
    var head := ReadAt(buffer, readPtr, contiguous);
    if contiguous < want then head + ReadAt(buffer, 0, want - contiguous) else head
  }

  /** Where the read pointer ends up after `k` bytes. */
  function NextRead(size: int, readPtr: int, k: int): int {
    if size - readPtr < k then k - (size - readPtr) else readPtr + k
  }

  predicate Pointers(size: int, filled: int, readPtr: int, writePtr: int, length: int) {
    && 0 <= readPtr <= size && 0 <= writePtr <= size && 0 <= filled <= size
    && (writePtr == readPtr + filled || writePtr + size == readPtr + filled)
    && length >= Min(readPtr + filled, size)
  }

  lemma ReadKeepsPointers(size: int, filled: int, readPtr: int, writePtr: int, length: int, k: int)
    requires Pointers(size, filled, readPtr, writePtr, length) && 0 <= k <= filled
    ensures Pointers(size, filled - k, NextRead(size, readPtr, k), writePtr, length)
  {
  }

  /** Reading `k` queued bytes yields the first `k` of them and leaves the rest, wherever the pointer ends up. */
  lemma ReadTakesPrefix(buffer: ByteString, size: int, filled: int, readPtr: int, k: int)
    requires 0 <= readPtr <= size && 0 <= k <= filled <= size
    requires |buffer| >= Min(readPtr + filled, size)
    ensures RawRead(buffer, size, filled, readPtr, k) == Unwrap(buffer, size, filled, readPtr)[..k]
    ensures Unwrap(buffer, size, filled - k, NextRead(size, readPtr, k)) == Unwrap(buffer, size, filled, readPtr)[k..]
  {
    var all := Unwrap(buffer, size, filled, readPtr);
    var contiguous := Min(size - readPtr, k);
    assert ReadAt(buffer, readPtr, contiguous) == all[..contiguous];
    if contiguous < k {
      assert ReadAt(buffer, 0, k - contiguous) == all[contiguous..k];
      assert all[..contiguous] + all[contiguous..k] == all[..k];
    }
  }

  /**
   * Shrinking a queue whose bytes lie in one run keeps them, whatever they are, exactly when the new size
   * still reaches the write pointer; below it the next read wraps too early.
   */
  lemma ShrinkKeepsReadsIff(size: int, filled: int, readPtr: int, newSize: int)
    requires 0 <= readPtr && 0 < filled && readPtr + filled <= size
    requires filled <= newSize <= size
    ensures (forall buffer: ByteString | |buffer| == size ::
               RawRead(buffer, newSize, filled, readPtr, -1) == Unwrap(buffer, size, filled, readPtr))
            <==> readPtr + filled <= newSize
  {
    if readPtr + filled <= newSize {
      forall buffer: ByteString | |buffer| == size
        ensures RawRead(buffer, newSize, filled, readPtr, -1) == Unwrap(buffer, size, filled, readPtr)
      {
        ReadTakesPrefix(buffer, newSize, filled, readPtr, filled);
        assert Unwrap(buffer, newSize, filled, readPtr) == Unwrap(buffer, size, filled, readPtr);
      }
    } else {
      var buffer: ByteString := seq(size, i => if readPtr <= i < readPtr + filled then 1 else 0);
      var got, want := RawRead(buffer, newSize, filled, readPtr, -1), Unwrap(buffer, size, filled, readPtr);
      assert got != want by {
        if newSize < readPtr {
          assert |got| > filled == |want|;
        } else {
          assert got[newSize - readPtr] == buffer[0] == 0 && want[newSize - readPtr] == 1;
        }
      }
    }
  }

  lemma AppendInPlace(buffer: ByteString, size: int, filled: int, readPtr: int, writePtr: int, data: ByteString)
    requires 0 <= readPtr <= size && 0 <= writePtr && 0 <= filled && filled + |data| <= size
    requires writePtr == readPtr + filled || writePtr + size == readPtr + filled
    requires writePtr + |data| <= size
    requires |buffer| >= Min(readPtr + filled, size)
    ensures var after := WriteAt(buffer, writePtr, data);
            && |after| >= Min(readPtr + filled + |data|, size)
            && Unwrap(after, size, filled + |data|, readPtr) == Unwrap(buffer, size, filled, readPtr) + data
  {
  }

  /** The buffer after `write` stores `n` bytes: up to its end, then over the consumed bytes at its start. */
  function RawWrite(buffer: ByteString, size: int, writePtr: int, data: ByteString, n: int): ByteString
    requires 0 <= writePtr <= size && writePtr <= |buffer| && 0 <= n <= |data|
  {
    var contiguous := Min(size - writePtr, n);
    var once := WriteAt(buffer, writePtr, data[..contiguous]);
    if contiguous < n then WriteAt(once, 0, data[contiguous..n]) else once
  }

  /** `write` appends to the queue, wherever the new bytes land in the buffer. */
  lemma WriteAppends(buffer: ByteString, size: int, filled: int, readPtr: int, writePtr: int, data: ByteString, n: int)
    requires 0 <= readPtr <= size && 0 <= writePtr <= size && 0 <= filled && filled + n <= size
    requires writePtr == readPtr + filled || writePtr + size == readPtr + filled
    requires |buffer| >= Min(readPtr + filled, size) && 0 <= n <= |data|
    ensures var after := RawWrite(buffer, size, writePtr, data, n);
            && |after| >= Min(readPtr + filled + n, size)
            && Unwrap(after, size, filled + n, readPtr) == Unwrap(buffer, size, filled, readPtr) + data[..n]
  {
    var contiguous := Min(size - writePtr, n);
    var head, tail := data[..contiguous], data[contiguous..n];
    AppendInPlace(buffer, size, filled, readPtr, writePtr, head);
    if contiguous < n {
      AppendInPlace(WriteAt(buffer, writePtr, head), size, filled + contiguous, readPtr, 0, tail);
      var before := Unwrap(buffer, size, filled, readPtr);
      assert before + head + tail == before + data[..n];
    }
  }

  class BytesFIFO {
    var buffer: ByteString
    var size: int
    var filled: int
    var readPtr: int
    var writePtr: int

    ghost predicate Valid()
      reads this
    {
      Pointers(size, filled, readPtr, writePtr, |buffer|)
    }

    /** The abstract value: the queued bytes, oldest first. */
    ghost function Contents(): (s: ByteString)
      requires Valid()
      reads this
      ensures |s| == filled
    {
      Unwrap(buffer, size, filled, readPtr)
    }

    constructor (initSize: nat)
      ensures Valid() && Contents() == [] && size == initSize
    {
      buffer := Zeros(initSize);
      size := initSize;
      filled := 0;
      readPtr := 0;
      writePtr := 0;
    }

    /** At most `n` bytes from the front; all of them when `n` is negative. */
    method Read(n: int) returns (ret: ByteString)
      requires Valid()
      modifies this
      ensures Valid() && buffer == old(buffer) && size == old(size)
      ensures var k := if n < 0 then old(filled) else Min(n, old(filled));
              ret == old(Contents())[..k] && Contents() == old(Contents())[k..]
    {
      var want := Min(if n < 0 then filled else n, filled);
      ReadTakesPrefix(buffer, size, filled, readPtr, want);
      ReadKeepsPointers(size, filled, readPtr, writePtr, |buffer|, want);
      var contiguousSize := size - readPtr;
      var contiguousRead := Min(contiguousSize, want);
      ret := ReadAt(buffer, readPtr, contiguousRead);
      readPtr := readPtr + contiguousRead;
      if contiguousRead < want {
        var leftover := want - contiguousRead;
        ret := ret + ReadAt(buffer, 0, leftover);
        readPtr := leftover;
      }
      assert readPtr == NextRead(size, old(readPtr), want);
      assert ret == RawRead(buffer, size, filled, old(readPtr), want);
      filled := filled - want;
    }

    /** As many bytes of `data` as are free; returns how many. */
    method Write(data: ByteString) returns (written: nat)
      requires Valid()
      modifies this
      ensures Valid() && size == old(size)
      ensures written == Min(|data|, size - old(filled))
      ensures Contents() == old(Contents()) + data[..written]
    {
      written := Min(|data|, Free());
      WriteAppends(buffer, size, filled, readPtr, writePtr, data, written);
      if written != 0 {
        var contiguousSize := size - writePtr;
        var contiguousWrite := Min(contiguousSize, written);
        buffer := WriteAt(buffer, writePtr, data[..contiguousWrite]);
        writePtr := writePtr + contiguousWrite;
        if contiguousSize < written {
          buffer := WriteAt(buffer, 0, data[contiguousWrite..written]);
          writePtr := written - contiguousWrite;
        }
      }
      filled := filled + written;
    }

    method Flush()
      requires Valid()
      modifies this
      ensures Valid() && Contents() == [] && size == old(size)
    {
      filled := 0;
      readPtr := 0;
      writePtr := 0;
    }

    function Free(): int
      reads this
    {
      size - filled
    }

    /** True when the request is refused (the source raises ValueError). */
    method Resize(newSize: int) returns (refused: bool)
      requires Valid()
      modifies this
      ensures refused <==> newSize < 1 || newSize < old(filled)
      ensures refused ==> unchanged(this)
      ensures !refused ==> size == newSize && filled == old(filled)
      // the queue survives exactly when it was laid out again or its last byte still fits
      ensures !refused ==>
                (Valid() <==> old(readPtr) >= old(writePtr) || newSize >= old(writePtr))
      ensures !refused && Valid() ==> Contents() == old(Contents())
      ensures !refused && !Valid() ==> buffer == old(buffer) && readPtr == old(readPtr)
    {
      if newSize < 1 || newSize < filled {
        return true;
      }
      if readPtr >= writePtr {
        var oldData := Read(filled);
        buffer := WriteAt(buffer, 0, oldData);
        filled := |oldData|;
        readPtr := 0;
        writePtr := filled;
      }
      size := newSize;
      refused := false;
    }
  }
}
