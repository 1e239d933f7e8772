/** The two ends of a byte stream, as the callers of io.Writer and io.Reader may see them. */
module Transport {
  import opened Bytes

  /** A writer that takes some of what it is offered, none of it, or fails. */
  class Writer {
    /** What it has taken so far. */
    var written: seq<byte>
    /** It has failed, or taken nothing of something, at least once. */
    ghost var gaveOut: bool

    constructor ()
      ensures written == [] && !gaveOut
    {
      written := [];
      gaveOut := false;
    }

    method Write(b: seq<byte>) returns (n: nat, failed: bool)
      modifies this
      ensures n <= |b| && written == old(written) + b[..n]
      ensures gaveOut <==> old(gaveOut) || failed || (n == 0 && b != [])
    {
      failed := *;
      n :| 0 <= n <= |b|;
      written := written + b[..n];
      gaveOut := gaveOut || failed || (n == 0 && b != []);
    }
  }

  /** How sending ended: everything was taken, or the writer failed or stopped after `sent` bytes. */
  datatype Sent = AllSent | CutShort(sent: nat)

  /** The write loop of frames and of records: the rest of the packet is offered until none is left.
      It stops early only if the writer gives out. */
  method WriteFully(w: Writer, packet: seq<byte>) returns (outcome: Sent)
    modifies w
    ensures outcome.AllSent? ==> w.written == old(w.written) + packet && w.gaveOut == old(w.gaveOut)
    ensures outcome.CutShort? ==> w.gaveOut
    ensures outcome.CutShort? ==> outcome.sent <= |packet| && w.written == old(w.written) + packet[..outcome.sent]
  {
    var rest := packet;
    var sent: nat := 0;
    while |rest| != 0
      invariant sent <= |packet| && rest == packet[sent..]
      invariant w.written == old(w.written) + packet[..sent] && w.gaveOut == old(w.gaveOut)
      decreases |rest|
    {
      var n, failed := w.Write(rest);
      assert packet[..sent + n] == packet[..sent] + rest[..n];
      sent := sent + n;
      if failed || n == 0 {
        return CutShort(sent);
      }
      rest := rest[n..];
    }
    assert packet[..sent] == packet;
    return AllSent;
  }

  /** A reader over the bytes that will arrive. */
  class Reader {
    var left: seq<byte>

    constructor (stream: seq<byte>)
      ensures left == stream
    {
      left := stream;
    }

    /** io.ReadFull: exactly `n` bytes, or whatever there was and an error. */
    method ReadFull(n: nat) returns (b: seq<byte>, ok: bool)
      modifies this
      ensures ok <==> n <= |old(left)|
      ensures ok ==> b == old(left)[..n] && left == old(left)[n..]
      ensures !ok ==> b == old(left) && left == []
    {
      if n <= |left| {
        b, left, ok := left[..n], left[n..], true;
      } else {
        b, left, ok := left, [], false;
      }
    }
  }
}
