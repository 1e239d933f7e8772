/** A record-layer connection as an object, after its handshake: buffers and cipher states updated in
    place, each method proved to do what Records says. */
module RecordLayer {
  import opened Bytes
  import opened Transport
  import opened Records

  /** XORKeyStream over a buffer in place. */
  method XORKeyStream(c: Cipher, data: array<byte>)
    modifies data
    ensures data[..] == Crypt(c, old(data[..]))
  {
    hide Xor;
    var i := 0;
    while i < data.Length
      invariant 0 <= i <= data.Length
      invariant forall k | 0 <= k < i :: data[k] == Xor(old(data[k]), c.keystream(c.pos + k))
      invariant forall k | i <= k < data.Length :: data[k] == old(data[k])
    {
      data[i] := Xor(data[i], c.keystream(c.pos + i));
      i := i + 1;
    }
  }

  /** A buffer holding the bytes. */
  method BufferOf(s: seq<byte>) returns (a: array<byte>)
    ensures fresh(a) && a[..] == s
  {
    a := new byte[|s|](i requires 0 <= i < |s| => s[i]);
  }

  class Conn {
    const reader: Reader
    const writer: Writer
    var version: uint16
    /** The next record may be a ClientHello in an SSL 3.0 record. */
    var firstRecord: bool
    var in_: Cipher
    var out: Cipher
    /** Decrypted bytes not yet read. */
    var readBuf: seq<byte>

    constructor (reader: Reader, writer: Writer, version: uint16, in_: Cipher, out: Cipher)
      ensures this.reader == reader && this.writer == writer && this.version == version
      ensures !firstRecord && this.in_ == in_ && this.out == out && readBuf == []
    {
      this.reader, this.writer, this.version := reader, writer, version;
      this.in_, this.out := in_, out;
      firstRecord, readBuf := false, [];
    }

    /** writeRawRecord */
    method WriteRawRecord(typ: byte, data: seq<byte>) returns (o: Sent)
      modifies writer
      ensures o.AllSent? ==> writer.written == old(writer.written) + RawRecord(version, typ, data)
      ensures if o.CutShort? then writer.gaveOut else writer.gaveOut == old(writer.gaveOut)
      ensures o.CutShort? ==> o.sent <= |RawRecord(version, typ, data)|
                              && writer.written == old(writer.written) + RawRecord(version, typ, data)[..o.sent]
    {
      var length := |data| % 0x1_0000;
      var h := [typ, version / 0x100, version % 0x100, length / 0x100, length % 0x100];
      assert h == [typ] + PutUint16(version) + PutUint16(length);
      o := WriteFully(writer, h + data);
    }

    /** writeRecord */
    method WriteRecord(typ: byte, plain: seq<byte>) returns (o: Sent)
      modifies this`out, writer
      ensures out == Advance(old(out), |Seal(old(out), typ, plain)|)
      ensures if o.CutShort? then writer.gaveOut else writer.gaveOut == old(writer.gaveOut)
      ensures var record := RawRecord(version, typ, Seal(old(out), typ, plain));
              && (o.AllSent? ==> writer.written == old(writer.written) + record)
              && (o.CutShort? ==> o.sent <= |record| && writer.written == old(writer.written) + record[..o.sent])
    {
      hide RawRecord, RecordMAC;
      var body := plain;
      if out.active {
        var data := BufferOf(plain + RecordMAC(out, typ, plain));
        XORKeyStream(out, data);
        body := data[..];
        out := out.(pos := out.pos + data.Length, seqNo := (out.seqNo + 1) % TWO_64);
      }
      o := WriteRawRecord(typ, body);
    }

    /** Write: chunks of at most 16384 bytes, a record each. It fails only if the transport gives
        out; then what was sent is a prefix, and the count returned is of the chunks sent whole. */
    method Write(p: seq<byte>) returns (written: nat, ok: bool)
      modifies this`out, writer
      ensures ok ==> written == |p| && (writer.written, out) == (old(writer.written) + Send(old(out), version, p).0, Send(old(out), version, p).1)
      ensures !ok ==> writer.gaveOut && written < |p| && written % MAX_PLAIN == 0
      ensures ok ==> writer.gaveOut == old(writer.gaveOut)
      ensures !ok ==> old(writer.written) <= writer.written <= old(writer.written) + Send(old(out), version, p).0
    {
      hide Seal, RawRecord, Advance;
      var rest := p;
      written := 0;
      ghost var all := Send(out, version, p);
      while |rest| > 0
        invariant written <= |p| && rest == p[written..] && (rest != [] ==> written % MAX_PLAIN == 0)
        invariant old(writer.written) <= writer.written && writer.gaveOut == old(writer.gaveOut)
        invariant writer.written + Send(out, version, rest).0 == old(writer.written) + all.0
        invariant Send(out, version, rest).1 == all.1
        decreases |rest|
      {
        var n := |rest|;
        if n > 16384 {
          n := 16384;
        }
        ghost var before, c, left := writer.written, out, rest[n..];
        ghost var record := RawRecord(version, APPLICATION_DATA, Seal(c, APPLICATION_DATA, rest[..n]));
        SendStep(c, version, rest);
        var o := WriteRecord(APPLICATION_DATA, rest[..n]);
        if o.CutShort? {
          CutInside(before, record, Send(out, version, left).0, o.sent);
          return written, false;
        }
        assert before + (record + Send(out, version, left).0) == before + record + Send(out, version, left).0;
        written := written + n;
        rest := rest[n..];
      }
      SendNothing(out, version);
      assert writer.written + [] == writer.written;
      return written, true;
    }

    /** readRecord */
    method ReadRecord() returns (r: Opened)
      modifies this`in_, this`firstRecord, reader
      ensures r == Open(old(in_), version, old(firstRecord), old(reader.left))
      ensures r.Record? ==> in_ == r.cipher && reader.left == r.rest && !firstRecord
    {
      hide OpenBody;
      ghost var stream := reader.left;
      var h, ok := reader.ReadFull(5);
      if !ok {
        return EndOfStream;
      }
      assert h[1..3] == stream[1..3] && h[3..5] == stream[3..5];
      var v := GetUint16(h[1..3]);
      if v != version && !(firstRecord && v == SSL30 && h[0] == HANDSHAKE) {
        return BadVersion;
      }
      firstRecord := false;
      var n := GetUint16(h[3..5]);
      if n > 18432 {
        return Oversized;
      }
      var b, ok' := reader.ReadFull(n);
      if !ok' {
        return EndOfStream;
      }
      assert b == stream[5..5 + n] && reader.left == stream[5 + n..];
      r := OpenInPlace(h[0], b);
    }

    /** readRecord's second half: decryption in place, the MAC check, the next sequence number. */
    method OpenInPlace(typ: byte, body: seq<byte>) returns (r: Opened)
      modifies this`in_
      ensures r == OpenBody(old(in_), typ, body, reader.left)
      ensures r.Record? ==> in_ == r.cipher && r.rest == reader.left
    {
      hide RecordMAC;
      if !in_.active {
        return Record(typ, body, in_, reader.left);
      }
      var b := BufferOf(body);
      XORKeyStream(in_, b);
      ghost var c := in_;
      var macLen := in_.suite.size;
      in_ := in_.(pos := in_.pos + b.Length);
      if b.Length < macLen {
        return ShortRecord;
      }
      var plain, got := b[..b.Length - macLen], b[b.Length - macLen..];
      assert Crypt(c, body)[..b.Length - macLen] == plain && Crypt(c, body)[b.Length - macLen..] == got;
      var want := RecordMAC(in_, typ, plain);
      MacIgnoresPosition(c, in_, typ, plain);
      if got != want {
        return BadMAC;
      }
      in_ := in_.(seqNo := (in_.seqNo + 1) % TWO_64);
      return Record(typ, plain, in_, reader.left);
    }

    /** Read: records are taken until there is something to deliver, then up to `k` bytes of it. */
    method Read(k: nat) returns (p: seq<byte>, status: Received)
      requires !firstRecord
      modifies this`in_, this`firstRecord, this`readBuf, reader
      ensures status == Receive(old(in_), version, old(reader.left), old(readBuf))
      ensures status.Got? ==>
                && p == status.buf[..Min(k, |status.buf|)] && readBuf == status.buf[Min(k, |status.buf|)..]
                && in_ == status.cipher && reader.left == status.wire && !firstRecord
      ensures !status.Got? ==> p == []
    {
      hide Open;
      ghost var goal := Receive(in_, version, reader.left, readBuf);
      while |readBuf| == 0
        invariant !firstRecord && Receive(in_, version, reader.left, readBuf) == goal
        decreases if |readBuf| == 0 then |reader.left| + 1 else 0
      {
        OpenConsumes(in_, version, false, reader.left);
        var r := ReadRecord();
        match r
        case Record(typ, data, _, _) =>
          if typ == APPLICATION_DATA {
            readBuf := data;
          } else if typ == ALERT {
            return [], if |data| >= 2 && data[1] == 0 then Closed else PeerAlert(data);
          } else {
            return [], Unexpected(typ);
          }
        case _ => return [], Failed(r);
      }
      status := Got(in_, reader.left, readBuf);
      var n := Min(k, |readBuf|);
      p, readBuf := readBuf[..n], readBuf[n..];
    }
  }

  /** One record of Write. */
  lemma SendStep(c: Cipher, version: uint16, p: seq<byte>)
    requires p != []
    ensures var n := if |p| > MAX_PLAIN then MAX_PLAIN else |p|;
            var body := Seal(c, APPLICATION_DATA, p[..n]);
            var (rest, c') := Send(Advance(c, |body|), version, p[n..]);
            Send(c, version, p) == (RawRecord(version, APPLICATION_DATA, body) + rest, c')
  {
    hide Seal, RawRecord, Advance;
  }

  lemma SendNothing(c: Cipher, version: uint16)
    ensures Send(c, version, []) == ([], c)
  {
  }

  lemma CutInside(before: seq<byte>, record: seq<byte>, rest: seq<byte>, sent: nat)
    requires sent <= |record|
    ensures before + record[..sent] <= before + (record + rest)
  {
  }

  lemma MacIgnoresPosition(c: Cipher, c': Cipher, typ: byte, data: seq<byte>)
    requires c' == c.(pos := c'.pos)
    ensures RecordMAC(c', typ, data) == RecordMAC(c, typ, data)
  {
  }

  // ---- handshake messages --------------------------------------------------------------------

  /** handshakeMessage, with putUint24. */
  method HandshakeMessage(typ: byte, body: seq<byte>) returns (message: seq<byte>)
    ensures message == Message(typ, body)
  {
    var b := new byte[4 + |body|](_ => 0);
    b[0] := typ;
    b[1], b[2], b[3] := |body| / 0x1_0000 % 0x100, |body| / 0x100 % 0x100, |body| % 0x100;
    ghost var head := b[..4];
    var i := 0;
    while i < |body|
      invariant 0 <= i <= |body| && b[..4] == head
      invariant b[4..4 + i] == body[..i]
    {
      b[4 + i] := body[i];
      i := i + 1;
    }
    message := b[..];
    assert b[4..4 + |body|] == body[..|body|] == body;
    assert message == b[..4] + b[4..];
  }

  /** splitHandshake */
  method SplitMessages(flight: seq<byte>) returns (s: Split)
    ensures s == SplitHandshake(flight)
  {
    var b := flight;
    var out: seq<seq<byte>> := [];
    assert [] + Parts(SplitHandshake(flight)) == Parts(SplitHandshake(flight));
    while |b| > 0
      invariant SplitHandshake(flight) == match SplitHandshake(b) case Broken => Broken case Messages(parts) => Messages(out + parts)
      decreases |b|
    {
      if |b| < 4 {
        return Broken;
      }
      var n := b[1] as int * 0x1_0000 + b[2] as int * 0x100 + b[3] as int;
      if n + 4 > |b| {
        return Broken;
      }
      assert out + ([b[..n + 4]] + Parts(SplitHandshake(b[n + 4..]))) == out + [b[..n + 4]] + Parts(SplitHandshake(b[n + 4..]));
      out := out + [b[..n + 4]];
      b := b[n + 4..];
    }
    assert out + [] == out;
    return Messages(out);
  }

  ghost function Parts(s: Split): seq<seq<byte>>
  {
    if s.Broken? then [] else s.parts
  }
}
