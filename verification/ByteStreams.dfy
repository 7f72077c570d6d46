/**
 The io.Writer and io.Reader ends the codecs talk to: a sink that grows, and a
 source that hands out its pending bytes in chunks of any size.
 */
module ByteStreams {
  import opened Bytes

  /** limitedBuffer: bytes are appended. */
  class Sink {
    var data: seq<byte>

    constructor ()
      ensures data == []
    {
      data := [];
    }

    method Write(p: seq<byte>)
      modifies this
      ensures data == old(data) + p
    {
      data := data + p;
    }
  }

  /** The write side of a connection: a Write may fail after any part of its bytes has gone out. */
  class Outgoing {
    var data: seq<byte>

    constructor ()
      ensures data == []
    {
      data := [];
    }

    method Write(p: seq<byte>) returns (ok: bool)
      modifies this
      ensures old(data) <= data <= old(data) + p
      ensures ok ==> data == old(data) + p
    {
      var n :| 0 <= n <= |p|;
      data := data + p[..n];
      ok := *;
      ok := ok && n == |p|;
    }
  }

  /** What io.ReadFull yields on a stream holding `s`: `n` bytes, or a drained stream. */
  function Take(s: seq<byte>, n: nat): (Option<seq<byte>>, seq<byte>) {
    if n <= |s| then (Some(s[..n]), s[n..]) else (None, [])
  }

  /** bytesReader, and the read side of a connection. */
  class Source {
    var pending: seq<byte>

    constructor (data: seq<byte>)
      ensures pending == data
    {
      pending := data;
    }

    /** Read: at least one byte while any is pending, never more than `max`; how many is not fixed. */
    method Read(max: nat) returns (p: seq<byte>)
      requires max > 0
      modifies this
      ensures p + pending == old(pending)
      ensures |p| <= max && (p == [] <==> old(pending) == [])
    {
      if pending == [] {
        return [];
      }
      var n :| 1 <= n <= |pending| && n <= max;
      p, pending := pending[..n], pending[n..];
    }

    /** io.ReadFull: whatever the chunks, exactly `n` bytes or end of stream. */
    method ReadFull(n: nat) returns (r: Option<seq<byte>>)
      modifies this
      ensures (r, pending) == Take(old(pending), n)
    {
      var got := [];
      while |got| < n
        invariant |got| <= n
        invariant got + pending == old(pending)
        decreases n - |got|
      {
        var p := Read(n - |got|);
        if p == [] {
          assert got == old(pending);
          return None;
        }
        got := got + p;
      }
      assert got == old(pending)[..n] && pending == old(pending)[n..];
      return Some(got);
    }
  }
}
