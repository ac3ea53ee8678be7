/** The refillable input window of src/audio/ffmpeg-wrapper.h: InputBuffer and the read callback
    that IoContext hands to the demuxer. */
module InputBuffer {

  newtype uint8 = x: int | 0 <= x < 256

  datatype Result<T> = Success(value: T) | Failure(message: string)

  /** The value the demuxer takes as end of file: minus the tag 'E', 'O', 'F', ' ', lowest byte first. */
  const AVERROR_EOF: int := -541478725

  lemma EofIsTag()
    ensures -AVERROR_EOF == 'E' as int + 0x100 * ('O' as int + 0x100 * ('F' as int + 0x100 * ' ' as int))
  {
  }

  /** A std::istream over a fixed byte sequence.  Asking for more bytes than are left delivers what
      is left and sets the end-of-file state, after which nothing is delivered. */
  class IStream {
    const data: seq<uint8>
    var pos: nat
    var eof: bool

    ghost predicate Valid()
      reads this
    {
      pos <= |data| && (eof ==> pos == |data|)
    }

    constructor (data: seq<uint8>)
      ensures Valid() && this.data == data && pos == 0 && !eof
    {
      this.data := data;
      pos, eof := 0, false;
    }

    /** read(dst + at, n); the result is gcount(). */
    method Read(dst: array<uint8>, at: nat, n: nat) returns (count: nat)
      requires Valid() && at + n <= dst.Length
      modifies this`pos, this`eof, dst
      ensures Valid()
      ensures count == if old(eof) then 0 else if n <= |data| - old(pos) then n else |data| - old(pos)
      ensures pos == old(pos) + count && eof == (old(eof) || count < n)
      ensures dst[..at] == old(dst[..at]) && dst[at..at + count] == data[old(pos)..pos]
    {
      if eof {
        return 0;
      }
      count := if n <= |data| - pos then n else |data| - pos;
      for k := 0 to count
        invariant pos == old(pos)
        invariant forall j :: 0 <= j < at ==> dst[j] == old(dst[j])
        invariant forall j :: at <= j < at + k ==> dst[j] == data[pos + (j - at)]
      {
        dst[at + k] := data[pos + k];
      }
      ghost var stored, wanted := dst[at..at + count], data[pos..pos + count];
      forall j | 0 <= j < count ensures stored[j] == wanted[j] {
        assert stored[j] == dst[at + j] && wanted[j] == data[pos + j];
      }
      assert stored == wanted;
      pos := pos + count;
      eof := count < n;
    }
  }

  /** A window over data[a..p] that takes in the next bytes covers data[a..q]; what is left overall
      does not change. */
  lemma WindowGrows(data: seq<uint8>, a: nat, p: nat, q: nat, w: seq<uint8>, v: seq<uint8>)
    requires a <= p <= q <= |data| && w == data[a..p] && v == w + data[p..q]
    ensures v == data[a..q]
    ensures v + data[q..] == w + data[p..]
  {
    assert data[p..q] + data[q..] == data[p..];
  }

  /** Moving the first n bytes of what remains to what was received keeps the whole. */
  lemma HandOver(received: seq<uint8>, remaining: seq<uint8>, n: nat)
    requires n <= |remaining|
    ensures (received + remaining[..n]) + remaining[n..] == received + remaining
  {
    assert remaining[..n] + remaining[n..] == remaining;
  }

  class InputBuffer {
    const bufferSize: nat
    const paddingSize: nat
    const refillThreshold: nat
    const inputStream: IStream
    const buf: array<uint8>
    /** Where the stream stood when the buffer was opened. */
    ghost const origin: nat
    var curOffset: nat
    var curDataSize: nat
    var totalBytesRead: nat
    var totalUsedBytes: nat

    /** What holds between the operations, except for the refill guarantee. */
    ghost predicate Consistent()
      reads this, inputStream, buf
    {
      && inputStream.Valid()
      && 0 < refillThreshold <= bufferSize
      && buf.Length == bufferSize + paddingSize
      && curOffset + curDataSize <= bufferSize
      && totalUsedBytes + curDataSize == totalBytesRead
      && origin + totalBytesRead == inputStream.pos
      && Window() == inputStream.data[origin + totalUsedBytes..inputStream.pos]
    }

    /** Consistent, and the window holds at least the threshold unless the stream is at its end. */
    ghost predicate Valid()
      reads this, inputStream, buf
    {
      Consistent() && (curDataSize >= refillThreshold || inputStream.eof)
    }

    /** The bytes available from Data(). */
    ghost function Window(): seq<uint8>
      reads this, buf
    {
      if curOffset + curDataSize <= buf.Length then buf[curOffset..curOffset + curDataSize] else []
    }

    /** Everything not yet consumed: the window, then what the stream still holds. */
    ghost function Remaining(): seq<uint8>
      requires inputStream.Valid()
      reads this, inputStream, buf
    {
      Window() + inputStream.data[inputStream.pos..]
    }

    constructor Unfilled(inputStream: IStream, bufferSize: nat, paddingSize: nat, refillThreshold: nat)
      requires inputStream.Valid() && 0 < refillThreshold <= bufferSize
      ensures Consistent() && fresh(buf) && this.inputStream == inputStream
      ensures this.bufferSize == bufferSize && this.refillThreshold == refillThreshold
      ensures curOffset == 0 && curDataSize == 0 && totalUsedBytes == 0
      ensures Remaining() == inputStream.data[inputStream.pos..]
    {
      this.bufferSize, this.paddingSize, this.refillThreshold := bufferSize, paddingSize, refillThreshold;
      this.inputStream := inputStream;
      this.buf := new uint8[bufferSize + paddingSize](_ => 0);
      this.origin := inputStream.pos;
      curOffset, curDataSize, totalBytesRead, totalUsedBytes := 0, 0, 0, 0;
    }

    /** The source's constructor, which throws when the stream delivers nothing. */
    static method Open(inputStream: IStream, bufferSize: nat, paddingSize: nat, refillThreshold: nat)
      returns (r: Result<InputBuffer>)
      requires inputStream.Valid() && 0 < refillThreshold <= bufferSize
      modifies inputStream
      ensures r.Failure? <==> old(inputStream.eof || inputStream.pos == |inputStream.data|)
      ensures r.Success? ==>
        && fresh(r.value) && fresh(r.value.buf) && r.value.inputStream == inputStream
        && r.value.Valid() && r.value.bufferSize == bufferSize
        && r.value.Remaining() == old(inputStream.data[inputStream.pos..])
    {
      var inbuf := new InputBuffer.Unfilled(inputStream, bufferSize, paddingSize, refillThreshold);
      var more := inbuf.ReadMore();
      if !more {
        return Failure("Unexpected EOF");
      }
      return Success(inbuf);
    }

    method DataSize() returns (n: nat)
      ensures n == curDataSize
    {
      n := curDataSize;
    }

    /** Empty exactly when nothing is left to consume. */
    method Empty() returns (empty: bool)
      requires Valid()
      ensures empty <==> Remaining() == []
      ensures empty <==> curDataSize == 0
    {
      empty := inputStream.eof && curDataSize <= 0;
    }

    /** Appends up to bufferSize - DataSize() bytes to a window that starts at the front of buf. */
    method ReadMore() returns (more: bool)
      requires Consistent() && curOffset == 0
      modifies this`curDataSize, this`totalBytesRead, inputStream, buf
      ensures Consistent()
      ensures Remaining() == old(Remaining())
      ensures curDataSize == bufferSize || inputStream.eof
      ensures more <==> old(curDataSize) < curDataSize
      ensures old(curDataSize) == 0 ==>
        (more <==> old(!inputStream.eof && inputStream.pos < |inputStream.data|))
    {
      var nRead := inputStream.Read(buf, curDataSize, bufferSize - curDataSize);
      totalBytesRead := totalBytesRead + nRead;
      ghost var size := curDataSize;
      assert buf[..size] == old(Window());
      if nRead == 0 {
        return false;
      }
      curDataSize := curDataSize + nRead;
      assert Window() == old(Window()) + inputStream.data[old(inputStream.pos)..inputStream.pos];
      WindowGrows(inputStream.data, origin + totalUsedBytes, old(inputStream.pos), inputStream.pos,
                  old(Window()), Window());
      return true;
    }

    /** Moves the window to the front of buf, element by element as std::copy does. */
    method ShiftLeft()
      requires curOffset + curDataSize <= buf.Length
      modifies buf
      ensures buf[..curDataSize] == old(buf[curOffset..curOffset + curDataSize])
    {
      for k := 0 to curDataSize
        invariant forall j :: 0 <= j < k ==> buf[j] == old(buf[curOffset + j])
        invariant forall j :: k <= j < buf.Length ==> buf[j] == old(buf[j])
      {
        buf[k] := buf[curOffset + k];
      }
      ghost var moved, window := buf[..curDataSize], old(buf[curOffset..curOffset + curDataSize]);
      forall j | 0 <= j < curDataSize ensures moved[j] == window[j] {
        assert moved[j] == buf[j] && window[j] == old(buf[curOffset + j]);
      }
    }

    /** Copies the first n bytes from Data() on. */
    method CopyOut(dst: array<uint8>, n: nat)
      requires n <= curDataSize && curOffset + curDataSize <= buf.Length
      requires n <= dst.Length && dst != buf
      modifies dst
      ensures dst[..n] == Window()[..n]
    {
      for k := 0 to n
        invariant forall j :: 0 <= j < k ==> dst[j] == buf[curOffset + j]
      {
        dst[k] := buf[curOffset + k];
      }
    }

    /** The consuming half of Forward. */
    method Use(nUsed: nat)
      requires Consistent() && nUsed <= curDataSize
      modifies this`curOffset, this`curDataSize, this`totalUsedBytes
      ensures Consistent()
      ensures curDataSize == old(curDataSize) - nUsed && totalUsedBytes == old(totalUsedBytes) + nUsed
      ensures Window() == old(Window())[nUsed..]
      ensures Remaining() == old(Remaining())[nUsed..]
    {
      totalUsedBytes := totalUsedBytes + nUsed;
      curOffset := curOffset + nUsed;
      curDataSize := curDataSize - nUsed;
      assert Window() == old(Window())[nUsed..];
      assert Remaining() == old(Remaining())[nUsed..];
    }

    /** The refilling half of Forward.  The offset is reset before reading rather than after, which
        ReadMore does not notice: it stores at the data size. */
    method Refill()
      requires Consistent()
      modifies this`curOffset, this`curDataSize, this`totalBytesRead, inputStream, buf
      ensures Valid() && (curDataSize == bufferSize || inputStream.eof)
      ensures Remaining() == old(Remaining()) && old(Window()) <= Window()
    {
      if curDataSize != 0 {
        ShiftLeft();
      }
      curOffset := 0;
      assert Window() == old(Window());
      var more := ReadMore();
      assert Window() == Remaining()[..curDataSize];
    }

    /** Consumes nUsed bytes: what remains is exactly the rest, and the window still reaches at least
        as far into it as before.  It is refilled, as far as it can be, exactly when fewer bytes than the
        threshold are left in it. */
    method Forward(nUsed: nat)
      requires Valid() && nUsed <= curDataSize && Remaining() != []
      modifies this`curOffset, this`curDataSize, this`totalBytesRead, this`totalUsedBytes, inputStream, buf
      ensures Valid()
      ensures Remaining() == old(Remaining())[nUsed..]
      ensures old(Window())[nUsed..] <= Window()
      ensures totalUsedBytes == old(totalUsedBytes) + nUsed
      ensures if old(curDataSize) - nUsed >= refillThreshold then inputStream.pos == old(inputStream.pos)
              else curDataSize == bufferSize || inputStream.eof
    {
      Use(nUsed);
      if curDataSize < refillThreshold {
        Refill();
      }
    }
  }

  /** The read callback: the whole window, or as much of it as fits, into dst, or end of file. */
  method ReadPacket(inbuf: InputBuffer, dst: array<uint8>, bufSize: nat) returns (n: int)
    requires inbuf.Valid() && 0 < bufSize <= dst.Length && dst != inbuf.buf
    modifies inbuf`curOffset, inbuf`curDataSize, inbuf`totalBytesRead, inbuf`totalUsedBytes,
             inbuf.inputStream, inbuf.buf, dst
    ensures inbuf.Valid()
    ensures n == AVERROR_EOF <==> old(inbuf.Remaining()) == []
    ensures n == AVERROR_EOF ==> inbuf.Remaining() == []
    ensures n != AVERROR_EOF ==>
      && 0 < n == (if old(inbuf.curDataSize) <= bufSize then old(inbuf.curDataSize) else bufSize)
      && n <= |old(inbuf.Remaining())|
      && dst[..n] == old(inbuf.Remaining())[..n]
      && inbuf.Remaining() == old(inbuf.Remaining())[n..]
  {
    var empty := inbuf.Empty();
    if empty {
      return AVERROR_EOF;
    }
    var size := inbuf.DataSize();
    var nRead := if size <= bufSize then size else bufSize;
    inbuf.CopyOut(dst, nRead);
    inbuf.Forward(nRead);
    return nRead;
  }

  /** Calling the callback until end of file delivers the whole remaining stream, in order. */
  method ReadToEnd(inbuf: InputBuffer, dst: array<uint8>, bufSize: nat) returns (received: seq<uint8>)
    requires inbuf.Valid() && 0 < bufSize <= dst.Length && dst != inbuf.buf
    modifies inbuf`curOffset, inbuf`curDataSize, inbuf`totalBytesRead, inbuf`totalUsedBytes,
             inbuf.inputStream, inbuf.buf, dst
    ensures received == old(inbuf.Remaining())
    ensures inbuf.Valid() && inbuf.Remaining() == []
  {
    received := [];
    while true
      invariant inbuf.Valid()
      invariant received + inbuf.Remaining() == old(inbuf.Remaining())
      decreases |inbuf.Remaining()|
    {
      ghost var remaining := inbuf.Remaining();
      var n := ReadPacket(inbuf, dst, bufSize);
      if n == AVERROR_EOF {
        return;
      }
      HandOver(received, remaining, n);
      received := received + dst[..n];
    }
  }
}
