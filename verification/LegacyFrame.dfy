/** Legacy FIRE frames: a 12-byte header that carries the payload's size, then the payload. */
module LegacyFrame {
  import opened Options
  import opened Bytes
  import opened Transport
  import opened TdfValues
  import opened TdfEncoder
  import opened TdfDecoder
  import opened TdfRoundTrip
  import opened TdfLoops

  const HEADER_SIZE := 12
  const MAX_PAYLOAD := 0xffff
  const MESSAGE_REPLY: uint16 := 0x1000
  const MESSAGE_ERROR: uint16 := 0x3000

  datatype Header = Header(
    payloadSize: uint16, component: uint16, command: uint16, error: uint16, messageType: uint16, messageID: uint16)

  type Fields = map<Text, Value>

  /** MarshalBinary */
  function Marshal(h: Header): (b: seq<byte>)
    ensures |b| == HEADER_SIZE
  {
    PutUint16(h.payloadSize) + PutUint16(h.component) + PutUint16(h.command)
    + PutUint16(h.error) + PutUint16(h.messageType) + PutUint16(h.messageID)
  }

  /** ParseHeader; None for its ErrUnexpectedEOF. */
  function ParseHeader(b: seq<byte>): Option<Header>
  {
    if |b| < HEADER_SIZE then None
    else Some(Header(GetUint16(b[0..2]), GetUint16(b[2..4]), GetUint16(b[4..6]),
                     GetUint16(b[6..8]), GetUint16(b[8..10]), GetUint16(b[10..12])))
  }

  lemma HeaderRoundTrip(h: Header, suffix: seq<byte>)
    ensures ParseHeader(Marshal(h) + suffix) == Some(h)
  {
    hide PutUint16, GetUint16;
    var b := Marshal(h) + suffix;
    assert b[0..2] == PutUint16(h.payloadSize) && b[2..4] == PutUint16(h.component);
    assert b[4..6] == PutUint16(h.command) && b[6..8] == PutUint16(h.error);
    assert b[8..10] == PutUint16(h.messageType) && b[10..12] == PutUint16(h.messageID);
  }

  /** Every 12 bytes are the header they parse to. */
  lemma HeaderIsBijective(b: seq<byte>)
    requires |b| == HEADER_SIZE
    ensures ParseHeader(b).Some? && Marshal(ParseHeader(b).value) == b
  {
    hide PutUint16, GetUint16;
    PutGet(b[0..2]);
    PutGet(b[2..4]);
    PutGet(b[4..6]);
    PutGet(b[6..8]);
    PutGet(b[8..10]);
    PutGet(b[10..12]);
    assert b == b[0..2] + b[2..4] + b[4..6] + b[6..8] + b[8..10] + b[10..12];
  }

  lemma PutGet(b: seq<byte>)
    requires |b| == 2
    ensures PutUint16(GetUint16(b)) == b
  {
  }

  /** A frame as an object: writing it fills in the size of its payload. */
  class Frame {
    var header: Header
    var payload: seq<byte>
    var tdf: Option<Fields>

    constructor (header: Header, payload: seq<byte>)
      ensures this.header == header && this.payload == payload && tdf == None
    {
      this.header, this.payload, tdf := header, payload, None;
    }
  }

  /** A header that its request's sender can match to the request. */
  predicate Answers(h: Header, req: Header)
  {
    h.component == req.component && h.command == req.command && h.messageID == req.messageID
  }

  method Reply(req: Frame, payload: seq<byte>) returns (f: Frame)
    ensures fresh(f) && f.payload == payload
    ensures Answers(f.header, req.header) && f.header.messageType == MESSAGE_REPLY && f.header.error == 0
  {
    f := new Frame(Header(0, req.header.component, req.header.command, 0, MESSAGE_REPLY, req.header.messageID), payload);
  }

  method ErrorReply(req: Frame, code: uint16, payload: seq<byte>) returns (f: Frame)
    ensures fresh(f) && f.payload == payload
    ensures Answers(f.header, req.header) && f.header.messageType == MESSAGE_ERROR && f.header.error == code
  {
    f := new Frame(Header(0, req.header.component, req.header.command, code, MESSAGE_ERROR, req.header.messageID), payload);
  }

  /** What a frame is on the wire. */
  function FrameBytes(h: Header, payload: seq<byte>): seq<byte>
    requires |payload| <= MAX_PAYLOAD
  {
    Marshal(h.(payloadSize := |payload|)) + payload
  }

  datatype WriteResult = Written | TooLong | Short(sent: nat)

  /** Write: an oversized payload is refused before anything is sent; otherwise the writer gets the
      whole frame, or a prefix of it if it gives out. */
  method Write(w: Writer, f: Frame) returns (r: WriteResult)
    modifies w, f`header
    ensures r.TooLong? <==> |f.payload| > MAX_PAYLOAD
    ensures r.TooLong? ==> f.header == old(f.header) && w.written == old(w.written)
    ensures !r.TooLong? ==> f.header == old(f.header).(payloadSize := |f.payload|)
    ensures r.Written? ==> w.written == old(w.written) + FrameBytes(old(f.header), f.payload)
    ensures if r.Short? then w.gaveOut else w.gaveOut == old(w.gaveOut)
    ensures r.Short? ==> r.sent <= HEADER_SIZE + |f.payload| && w.written == old(w.written) + FrameBytes(old(f.header), f.payload)[..r.sent]
  {
    if |f.payload| > 0xffff {
      return TooLong;
    }
    f.header := f.header.(payloadSize := |f.payload|);
    var head := MarshalBinary(f.header);
    var outcome := WriteFully(w, head + f.payload);
    match outcome
    case AllSent => return Written;
    case CutShort(sent) => return Short(sent);
  }

  method MarshalBinary(h: Header) returns (bytes: seq<byte>)
    ensures bytes == Marshal(h)
  {
    hide PutUint16;
    var b := new byte[HEADER_SIZE](_ => 0);
    var words := [h.payloadSize, h.component, h.command, h.error, h.messageType, h.messageID];
    var i := 0;
    while i < 6
      invariant 0 <= i <= 6
      invariant b[..2 * i] == Words(words[..i])
    {
      var pair := PutUint16(words[i]);
      ghost var done := b[..2 * i];
      b[2 * i], b[2 * i + 1] := pair[0], pair[1];
      assert b[..2 * (i + 1)] == done + pair;
      assert words[..i + 1] == words[..i] + [words[i]];
      WordsMore(words[..i], words[i]);
      i := i + 1;
    }
    bytes := b[..];
    assert words[..6] == words && b[..] == b[..12];
    WordsAre(h);
  }

  /** Consecutive big-endian 16-bit fields. */
  function Words(words: seq<uint16>): (b: seq<byte>)
    ensures |b| == 2 * |words|
  {
    if words == [] then [] else Words(words[..|words| - 1]) + PutUint16(words[|words| - 1])
  }

  lemma WordsMore(words: seq<uint16>, w: uint16)
    ensures Words(words + [w]) == Words(words) + PutUint16(w)
  {
    hide PutUint16;
    assert (words + [w])[..|words|] == words;
  }

  lemma WordsAre(h: Header)
    ensures Words([h.payloadSize, h.component, h.command, h.error, h.messageType, h.messageID]) == Marshal(h)
  {
    hide PutUint16;
    var a, b, c := h.payloadSize, h.component, h.command;
    var d, e, f := h.error, h.messageType, h.messageID;
    WordsMore([], a);
    WordsMore([a], b);
    WordsMore([a, b], c);
    WordsMore([a, b, c], d);
    WordsMore([a, b, c, d], e);
    WordsMore([a, b, c, d, e], f);
    assert [] + [a] == [a] && [a] + [b] == [a, b] && [a, b] + [c] == [a, b, c];
    assert [a, b, c] + [d] == [a, b, c, d] && [a, b, c, d] + [e] == [a, b, c, d, e];
    assert [a, b, c, d, e] + [f] == [a, b, c, d, e, f];
  }

  // ---- reading -------------------------------------------------------------------------------

  /** A frame as it arrives: its parts, and the rest of the stream. EndOfStream covers both of
      ReadFull's errors; a payload whose decoding panics takes the reader down. */
  datatype Arrival = EndOfStream | Crash | Arrived(header: Header, payload: seq<byte>, tdf: Option<Fields>, rest: seq<byte>)

  /** The decoded payload: none for an empty one or one that does not decode. */
  function Tdf(payload: seq<byte>): Option<Fields>
    requires Decodes(payload)
  {
    if payload == [] then None
    else
      match ReadStruct(payload)
      case Ok(fields, _) => Some(fields)
      case _ => None
  }

  predicate Decodes(payload: seq<byte>)
  {
    payload == [] || !ReadStruct(payload).Panic?
  }

  /** Read */
  function Arrive(stream: seq<byte>): Arrival
  {
    if |stream| < HEADER_SIZE then EndOfStream
    else
      var h := ParseHeader(stream[..HEADER_SIZE]).value;
      var rest := stream[HEADER_SIZE..];
      if |rest| < h.payloadSize as int then EndOfStream
      else
        var payload := rest[..h.payloadSize];
        if !Decodes(payload) then Crash
        else Arrived(h, payload, Tdf(payload), rest[h.payloadSize..])
  }

  method Read(r: Reader) returns (a: Arrival, f: Frame?)
    modifies r
    ensures a == Arrive(old(r.left))
    ensures a.Arrived? ==> f != null && fresh(f) && f.header == a.header && f.payload == a.payload && f.tdf == a.tdf && r.left == a.rest
    ensures !a.Arrived? ==> f == null
  {
    hide ReadStruct;
    f := null;
    ghost var stream := r.left;
    var headerBytes, ok := r.ReadFull(HEADER_SIZE);
    if !ok {
      return EndOfStream, null;
    }
    var h := ParseHeader(headerBytes).value;
    var payload, ok' := r.ReadFull(h.payloadSize);
    if !ok' {
      return EndOfStream, null;
    }
    var tdf: Option<Fields> := None;
    if |payload| != 0 {
      var decoded := DecodeStruct(payload);
      if decoded.Panic? {
        return Crash, null;
      }
      if decoded.Ok? {
        tdf := Some(decoded.value);
      }
    }
    f := new Frame(h, payload);
    f.tdf := tdf;
    a := Arrived(h, payload, tdf, r.left);
  }

  // ---- round trip ----------------------------------------------------------------------------

  lemma FrameArrives(h: Header, payload: seq<byte>, suffix: seq<byte>)
    requires |payload| <= MAX_PAYLOAD
    ensures Arrive(FrameBytes(h, payload) + suffix) ==
            if Decodes(payload) then Arrived(h.(payloadSize := |payload|), payload, Tdf(payload), suffix) else Crash
  {
    hide Marshal, ParseHeader, Decodes, Tdf;
    var head := Marshal(h.(payloadSize := |payload|));
    HeaderRoundTrip(h.(payloadSize := |payload|), []);
    assert head + [] == head;
    var stream := FrameBytes(h, payload) + suffix;
    assert stream == head + (payload + suffix);
    assert stream[..HEADER_SIZE] == head && stream[HEADER_SIZE..] == payload + suffix;
    assert (payload + suffix)[..|payload|] == payload && (payload + suffix)[|payload|..] == suffix;
  }

  /** An answer arrives as one: its header matches the request's, with its type and error. */
  lemma AnswerArrives(h: Header, req: Header, payload: seq<byte>, suffix: seq<byte>)
    requires Answers(h, req) && |payload| <= MAX_PAYLOAD && Decodes(payload)
    ensures var a := Arrive(FrameBytes(h, payload) + suffix);
            && a.Arrived? && a.payload == payload && a.rest == suffix
            && Answers(a.header, req) && a.header.messageType == h.messageType && a.header.error == h.error
  {
    hide Decodes, Arrive, FrameBytes;
    FrameArrives(h, payload, suffix);
  }

  /** The payload of a nonempty packet arrives as its fields, normalised. */
  lemma TdfArrives(m: Value)
    requires m.Struct? && WellFormed(m)
    ensures Encodable(m) && Decodes(EncodeStruct(m, true))
    ensures Tdf(EncodeStruct(m, true)) == if EncodeStruct(m, true) == [] then None else Some(Norm(m).fields)
  {
    hide WellFormed, Encodable, EncodeStruct, ReadStruct, Norm;
    PacketRoundTrip(m, []);
  }

  /** A sequence of frames on the wire. */
  function StreamBytes(frames: seq<(Header, seq<byte>)>): seq<byte>
    requires forall f | f in frames :: |f.1| <= MAX_PAYLOAD
  {
    if frames == [] then [] else FrameBytes(frames[0].0, frames[0].1) + StreamBytes(frames[1..])
  }

  datatype Run = Crashed | Ended | Delivered(frames: seq<(Header, seq<byte>, Option<Fields>)>, rest: seq<byte>)

  /** `count` frames read one after another. */
  function ReadFrames(stream: seq<byte>, count: nat): Run
    decreases count
  {
    if count == 0 then Delivered([], stream)
    else
      match Arrive(stream)
      case EndOfStream => Ended
      case Crash => Crashed
      case Arrived(h, payload, tdf, rest) =>
        match ReadFrames(rest, count - 1)
        case Delivered(frames, rest') => Delivered([(h, payload, tdf)] + frames, rest')
        case r => r
  }

  /** What the other side should see of the frames written. */
  function Seen(frames: seq<(Header, seq<byte>)>): seq<(Header, seq<byte>, Option<Fields>)>
    requires forall f | f in frames :: |f.1| <= MAX_PAYLOAD && Decodes(f.1)
  {
    if frames == [] then []
    else [(frames[0].0.(payloadSize := |frames[0].1|), frames[0].1, Tdf(frames[0].1))] + Seen(frames[1..])
  }

  /** Frames of any number and content are told apart again: repeated reads of their concatenation
      give back every header, with the size filled in, and every payload, and stop where the frames
      end. Reading crashes exactly when some payload makes the decoder panic. */
  lemma {:induction false} FramesArrive(frames: seq<(Header, seq<byte>)>, suffix: seq<byte>)
    requires forall f | f in frames :: |f.1| <= MAX_PAYLOAD
    ensures var r := ReadFrames(StreamBytes(frames) + suffix, |frames|);
            if forall f | f in frames :: Decodes(f.1) then r == Delivered(Seen(frames), suffix) else r == Crashed
    decreases |frames|
  {
    hide Arrive, Decodes, Tdf, FrameBytes;
    if frames == [] {
      assert StreamBytes(frames) + suffix == suffix;
    } else {
      var tail := StreamBytes(frames[1..]) + suffix;
      assert StreamBytes(frames) + suffix == FrameBytes(frames[0].0, frames[0].1) + tail;
      FrameArrives(frames[0].0, frames[0].1, tail);
      FramesArrive(frames[1..], suffix);
      assert frames == [frames[0]] + frames[1..];
    }
  }

  // ---- the write loop ------------------------------------------------------------------------

  /** The frames' headers and payloads. */
  function Parts(frames: seq<Frame>): (parts: seq<(Header, seq<byte>)>)
    reads frames
    ensures |parts| == |frames| && forall i | 0 <= i < |frames| :: parts[i] == (frames[i].header, frames[i].payload)
  {
    if frames == [] then [] else [(frames[0].header, frames[0].payload)] + Parts(frames[1..])
  }

  /** The same header but for the size, which writing fills in. */
  predicate SameButSize(a: Header, b: Header)
  {
    a == b.(payloadSize := a.payloadSize)
  }

  lemma SameBytes(a: Header, b: Header, payload: seq<byte>)
    requires SameButSize(a, b) && |payload| <= MAX_PAYLOAD
    ensures FrameBytes(a, payload) == FrameBytes(b, payload)
  {
  }

  lemma {:induction false} StreamMore(frames: seq<(Header, seq<byte>)>, f: (Header, seq<byte>))
    requires (forall x | x in frames :: |x.1| <= MAX_PAYLOAD) && |f.1| <= MAX_PAYLOAD
    ensures StreamBytes(frames + [f]) == StreamBytes(frames) + FrameBytes(f.0, f.1)
    decreases |frames|
  {
    hide FrameBytes;
    if frames != [] {
      assert (frames + [f])[1..] == frames[1..] + [f] && (frames + [f])[0] == frames[0];
      StreamMore(frames[1..], f);
    } else {
      assert [f][1..] == [] && StreamBytes([]) == [];
    }
  }

  lemma NoFrames()
    ensures StreamBytes([]) == []
  {
  }

  lemma NextFrame(parts: seq<(Header, seq<byte>)>, i: nat, h: Header)
    requires i < |parts| && (forall f | f in parts[..i] :: |f.1| <= MAX_PAYLOAD) && |parts[i].1| <= MAX_PAYLOAD
    requires SameButSize(h, parts[i].0)
    ensures forall f | f in parts[..i + 1] :: |f.1| <= MAX_PAYLOAD
    ensures StreamBytes(parts[..i + 1]) == StreamBytes(parts[..i]) + FrameBytes(h, parts[i].1)
  {
    SameBytes(h, parts[i].0, parts[i].1);
    assert parts[..i + 1] == parts[..i] + [parts[i]];
    StreamMore(parts[..i], parts[i]);
  }

  /** writeLoop: queued frames are written one after another until one cannot be. Unless the writer
      gives out or a payload is too long, the stream is exactly the frames'. */
  method WriteFrames(w: Writer, frames: seq<Frame>) returns (count: nat)
    modifies w, frames`header
    ensures count <= |frames|
    ensures forall f | f in old(Parts(frames))[..count] :: |f.1| <= MAX_PAYLOAD
    ensures old(w.written) + StreamBytes(old(Parts(frames))[..count]) <= w.written
    ensures count == |frames| ==> w.written == old(w.written) + StreamBytes(old(Parts(frames)))
    ensures count < |frames| ==> |frames[count].payload| > MAX_PAYLOAD || w.gaveOut
  {
    ghost var parts := Parts(frames);
    hide FrameBytes, StreamBytes, Parts;
    NoFrames();
    count := 0;
    while count < |frames|
      invariant count <= |frames|
      invariant forall f | f in parts[..count] :: |f.1| <= MAX_PAYLOAD
      invariant forall k | 0 <= k < |frames| :: frames[k].payload == parts[k].1 && SameButSize(frames[k].header, parts[k].0)
      invariant w.written == old(w.written) + StreamBytes(parts[..count])
    {
      var f := frames[count];
      ghost var h := f.header;
      var r := Write(w, f);
      if !r.Written? {
        return;
      }
      NextFrame(parts, count, h);
      count := count + 1;
    }
    assert parts[..count] == parts;
  }

  /** Where each field of the header is, most significant byte first. */
  lemma HeaderLayout(h: Header)
    ensures var b := Marshal(h);
            && Number(b[0..2]) == h.payloadSize && Number(b[2..4]) == h.component && Number(b[4..6]) == h.command
            && Number(b[6..8]) == h.error && Number(b[8..10]) == h.messageType && Number(b[10..12]) == h.messageID
  {
    hide PutUint16, Number;
    var b := Marshal(h);
    assert b[0..2] == PutUint16(h.payloadSize) && b[2..4] == PutUint16(h.component) && b[4..6] == PutUint16(h.command);
    assert b[6..8] == PutUint16(h.error) && b[8..10] == PutUint16(h.messageType) && b[10..12] == PutUint16(h.messageID);
    Uint16IsBigEndian(h.payloadSize);
    Uint16IsBigEndian(h.component);
    Uint16IsBigEndian(h.command);
    Uint16IsBigEndian(h.error);
    Uint16IsBigEndian(h.messageType);
    Uint16IsBigEndian(h.messageID);
  }
}
