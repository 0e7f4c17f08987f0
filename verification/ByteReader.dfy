/** The buffered, seekable byte source that the stream code reads from. */
module ByteReaders {
  import opened Basics

  datatype ReadStatus = Full | EndOfFile | UnexpectedEnd

  class ByteReader {
    const data: bytes
    var pos: nat

    constructor (data: bytes)
      ensures this.data == data && pos == 0
    {
      this.data := data;
      pos := 0;
    }

    /** What has not been read yet; nothing when the position is past the end. */
    ghost function Rest(): bytes
      reads this
    {
      From(data, pos)
    }

    method Seek(to: nat)
      modifies this
      ensures pos == to
    {
      pos := to;
    }

    /** Fills `buf`, as io.ReadFull does, and says whether the input fell short. */
    method ReadFull(buf: array<byte>) returns (n: nat, status: ReadStatus)
      modifies this, buf
      ensures n == Min(buf.Length, |old(Rest())|)
      ensures buf[..n] == old(Rest())[..n]
      ensures Rest() == old(Rest())[n..]
      ensures status == (if n == buf.Length then Full else if n == 0 then EndOfFile else UnexpectedEnd)
    {
      ghost var was := Rest();
      n := if pos <= |data| then Min(buf.Length, |data| - pos) else 0;
      forall i | 0 <= i < n {
        buf[i] := data[pos + i];
      }
      assert buf[..n] == was[..n];
      pos := pos + n;
      assert Rest() == was[n..];
      status := if n == buf.Length then Full else if n == 0 then EndOfFile else UnexpectedEnd;
    }

    /** Looks one byte ahead without consuming it. */
    method AtEnd() returns (end: bool)
      ensures end <==> Rest() == []
    {
      end := pos >= |data|;
    }
  }
}
