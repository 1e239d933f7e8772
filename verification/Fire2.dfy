/** Fire2 packets: a 16-byte header, metadata, payload. */
module Fire2 {
  import opened Options
  import opened Bytes
  import opened TdfValues
  import opened TdfEncoder
  import opened TdfDecoder
  import opened TdfRoundTrip
  import opened TdfLoops

  type Fields = map<Text, Value>

  datatype Header = Header(
    payloadSize: uint32, metadataSize: uint16, componentID: uint16, commandID: uint16,
    messageNumber: uint32, messageType: byte, userIndex: byte, options: byte)

  datatype BlazeError = BlazeError(component: uint16, code: uint32)

  /** None stands for a nil map or pointer. */
  datatype Packet = Packet(
    header: Header, payload: Option<Fields>, metadata: Option<Fields>, rawPayload: seq<byte>, error: Option<BlazeError>)

  /** A short buffer decodes to no packet; a malformed one can panic. */
  datatype Parsed = NoPacket | Crash | Parsed(packet: Packet)

  const HEADER_SIZE := 16
  const ERROR_REPLY: byte := 3

  function RootOf(fields: Option<Fields>): Value
  {
    Struct(if fields.Some? then fields.value else map[])
  }

  predicate EncodablePacket(p: Packet)
  {
    Encodable(RootOf(p.payload)) && Encodable(RootOf(p.metadata))
  }

  /** The 16 bytes: sizes and the message number lose their high bits, the type its high bits to
      the shift, the user index all but five. */
  function HeaderBytes(h: Header, payloadSize: nat, metadataSize: nat): (b: seq<byte>)
    ensures |b| == HEADER_SIZE
  {
    HeaderFront(h, payloadSize, metadataSize) + HeaderTail(h)
  }

  function HeaderFront(h: Header, payloadSize: nat, metadataSize: nat): (b: seq<byte>)
    ensures |b| == 10
  {
    PutUint32(payloadSize % 0x1_0000_0000) + PutUint16(metadataSize % 0x1_0000)
    + PutUint16(h.componentID) + PutUint16(h.commandID)
  }

  function HeaderTail(h: Header): (b: seq<byte>)
    ensures |b| == 6
  {
    [h.messageNumber / 0x1_0000 % 0x100, h.messageNumber / 0x100 % 0x100, h.messageNumber % 0x100,
     h.messageType as int * 0x20 % 0x100 + h.userIndex % 0x20, h.options, 0]
  }

  function PacketBytes(p: Packet): seq<byte>
    requires EncodablePacket(p)
  {
    var payload := EncodeStruct(RootOf(p.payload), true);
    var metadata := if p.metadata.Some? then EncodeStruct(RootOf(p.metadata), true) else [];
    HeaderBytes(p.header, |payload|, |metadata|) + metadata + payload
  }

  /** The header a buffer opens with. */
  function ParseHeader(b: seq<byte>): Header
    requires |b| >= HEADER_SIZE
  {
    Header(GetUint32(b[0..4]), GetUint16(b[4..6]), GetUint16(b[6..8]), GetUint16(b[8..10]),
           b[10] as int * 0x1_0000 + b[11] as int * 0x100 + b[12] as int,
           b[13] / 0x20, b[13] % 0x20, b[14])
  }

  /** metadata["ERRC"] as a uint32, or 0 */
  function ErrorCode(metadata: Option<Fields>): uint32
  {
    var errc: Text := [0x45, 0x52, 0x52, 0x43];
    if metadata.Some? && errc in metadata.value && metadata.value[errc].Integer?
    then metadata.value[errc].int_ as int % 0x1_0000_0000 else 0
  }

  function ErrorOf(h: Header, metadata: Option<Fields>): Option<BlazeError>
  {
    var code := ErrorCode(metadata);
    if h.messageType == ERROR_REPLY || code != 0 then Some(BlazeError(h.componentID, code)) else None
  }

  /** readStruct's first result, whatever its count. */
  function MapOf(r: Read<Fields>): Option<Fields>
    requires !r.Panic?
  {
    Some(if r.Ok? then r.value else r.partial)
  }

  /** Fire2Decoder */
  function Parse(buffer: seq<byte>): Parsed
  {
    if |buffer| < HEADER_SIZE then NoPacket
    else
      var h := ParseHeader(buffer);
      var rest := buffer[HEADER_SIZE..];
      if h.metadataSize as int > |rest| then Crash
      else
        var raw := rest[h.metadataSize..];
        var meta := ReadStruct(rest[..h.metadataSize]);
        var body := ReadStruct(raw);
        if h.metadataSize != 0 && meta.Panic? then Crash
        else if raw != [] && body.Panic? then Crash
        else
          var metadata := if h.metadataSize == 0 then None else MapOf(meta);
          var payload := if raw == [] || !body.Ok? then None else Some(body.value);
          Parsed(Packet(h, payload, metadata, raw, ErrorOf(h, metadata)))
  }

  // ---- as the source runs them ---------------------------------------------------------------

  /** PopBuffer, for callers that know the buffer is long enough. */
  function PopBuffer(buffer: seq<byte>, n: nat): (seq<byte>, seq<byte>)
    requires n <= |buffer|
  {
    (buffer[..n], buffer[n..])
  }

  method Decode(buffer: seq<byte>) returns (r: Parsed)
    ensures r == Parse(buffer)
  {
    if |buffer| < HEADER_SIZE {
      return NoPacket;
    }
    var (header, rest) := PopBuffer(buffer, HEADER_SIZE);
    var (payloadSize, h1) := PopBuffer(header, 4);
    var (metadataSize, h2) := PopBuffer(h1, 2);
    var (componentID, h3) := PopBuffer(h2, 2);
    var (commandID, h4) := PopBuffer(h3, 2);
    var (number, h5) := PopBuffer(h4, 3);
    var (kind, h6) := PopBuffer(h5, 1);
    Pops(buffer);
    var h := Header(GetUint32(payloadSize), GetUint16(metadataSize), GetUint16(componentID), GetUint16(commandID),
                    number[0] as int * 0x1_0000 + number[1] as int * 0x100 + number[2] as int,
                    kind[0] / 0x20, kind[0] % 0x20, h6[0]);
    assert h == ParseHeader(buffer);
    hide ParseHeader, ErrorOf, ReadStruct;
    var metadata: Option<Fields> := None;
    if h.metadataSize > 0 {
      if h.metadataSize as int > |rest| {
        return Crash;
      }
      var meta := DecodeStruct(rest[..h.metadataSize]);
      if meta.Panic? {
        return Crash;
      }
      metadata := MapOf(meta);
    }
    var raw := rest[h.metadataSize..];
    var payload: Option<Fields> := None;
    if |raw| != 0 {
      var body := DecodeStruct(raw);
      if body.Panic? {
        return Crash;
      }
      payload := if body.Ok? then Some(body.value) else None;
    }
    return Parsed(Packet(h, payload, metadata, raw, ErrorOf(h, metadata)));
  }

  lemma Pops(b: seq<byte>)
    requires |b| >= HEADER_SIZE
    ensures b[..16][..4] == b[0..4] && b[..16][4..][..2] == b[4..6] && b[..16][4..][2..][..2] == b[6..8]
    ensures b[..16][4..][2..][2..][..2] == b[8..10] && b[..16][4..][2..][2..][2..][..3] == [b[10], b[11], b[12]]
    ensures b[..16][4..][2..][2..][2..][3..] == [b[13], b[14], b[15]]
  {
    var h1 := b[..16][4..];
    assert h1 == b[4..16];
    var h2 := h1[2..];
    assert h2 == b[6..16];
    var h3 := h2[2..];
    assert h3 == b[8..16];
    var h4 := h3[2..];
    assert h4 == b[10..16];
  }

  /** EncodePacket */
  method EncodePacket(p: Packet) returns (out: seq<byte>)
    requires EncodablePacket(p)
    ensures out == PacketBytes(p)
  {
    hide Encodable, EncodeStruct;
    var payload := WriteStruct(RootOf(p.payload), true);
    var metadata: seq<byte> := [];
    if p.metadata.Some? {
      metadata := WriteStruct(RootOf(p.metadata), true);
    }
    var header := FillHeader(p.header, |payload|, |metadata|);
    out := [];
    out := out + header;
    out := out + metadata;
    out := out + payload;
  }

  /** EncodePacket's header, written in place. */
  method FillHeader(h: Header, payloadSize: nat, metadataSize: nat) returns (bytes: seq<byte>)
    ensures bytes == HeaderBytes(h, payloadSize, metadataSize)
  {
    hide HeaderFront, HeaderTail;
    var header := new byte[HEADER_SIZE](_ => 0);
    FillFront(header, h, payloadSize, metadataSize);
    assert header[10..][5] == 0;
    FillTail(header, h);
    bytes := header[..];
  }

  method FillFront(header: array<byte>, h: Header, payloadSize: nat, metadataSize: nat)
    requires header.Length == HEADER_SIZE
    modifies header
    ensures header[..10] == HeaderFront(h, payloadSize, metadataSize) && header[10..] == old(header[10..])
  {
    hide PutUint32, PutUint16;
    var a, b := PutUint32(payloadSize % 0x1_0000_0000), PutUint16(metadataSize % 0x1_0000);
    var c, d := PutUint16(h.componentID), PutUint16(h.commandID);
    ghost var end := header[10..];
    Put(header, 0, a);
    assert header[..4] == a && header[4..][6..] == end;
    Put(header, 4, b);
    assert header[..6] == a + b && header[6..][4..] == end;
    Put(header, 6, c);
    assert header[..8] == a + b + c && header[8..][2..] == end;
    Put(header, 8, d);
    assert header[..10] == a + b + c + d;
  }

  method FillTail(header: array<byte>, h: Header)
    requires header.Length == HEADER_SIZE && header[15] == 0
    modifies header
    ensures header[..] == old(header[..10]) + HeaderTail(h)
  {
    header[10] := h.messageNumber / 0x1_0000 % 0x100;
    header[11] := h.messageNumber / 0x100 % 0x100;
    header[12] := h.messageNumber % 0x100;
    header[13] := h.messageType as int * 0x20 % 0x100 + h.userIndex % 0x20;
    header[14] := h.options;
  }

  /** binary.BigEndian.PutUint16 and PutUint32: bytes into a slice of a buffer. */
  method Put(a: array<byte>, at: nat, b: seq<byte>)
    requires at + |b| <= a.Length
    modifies a
    ensures a[..at] == old(a[..at]) && a[at..at + |b|] == b && a[at + |b|..] == old(a[at + |b|..])
  {
    var i := 0;
    while i < |b|
      invariant 0 <= i <= |b|
      invariant a[..at] == old(a[..at]) && a[at..at + i] == b[..i] && a[at + i..] == old(a[at + i..])
    {
      a[at + i] := b[i];
      i := i + 1;
    }
    assert b[..i] == b;
  }

  // ---- round trip ----------------------------------------------------------------------------

  /** What a packet of the protocol is: fields that fit their bits, well-formed contents that fit
      their sizes. */
  predicate WellFormedPacket(p: Packet)
  {
    && p.header.messageNumber < 0x100_0000 && p.header.messageType < 8 && p.header.userIndex < 0x20
    && WellFormed(RootOf(p.payload)) && WellFormed(RootOf(p.metadata))
    && EncodablePacket(p)
    && |EncodeStruct(RootOf(p.payload), true)| < 0x1_0000_0000
    && |EncodeStruct(RootOf(p.metadata), true)| < 0x1_0000
  }

  lemma HeaderRoundTrip(h: Header, payloadSize: nat, metadataSize: nat, rest: seq<byte>)
    requires h.messageNumber < 0x100_0000 && h.messageType < 8 && h.userIndex < 0x20
    requires payloadSize < 0x1_0000_0000 && metadataSize < 0x1_0000
    ensures ParseHeader(HeaderBytes(h, payloadSize, metadataSize) + rest)
         == h.(payloadSize := payloadSize, metadataSize := metadataSize)
  {
    hide ParseHeader;
    var b := HeaderBytes(h, payloadSize, metadataSize) + rest;
    FrontRoundTrip(h, payloadSize, metadataSize, HeaderTail(h) + rest);
    assert b == HeaderFront(h, payloadSize, metadataSize) + (HeaderTail(h) + rest);
    TailRoundTrip(h);
    assert b[10..16] == HeaderTail(h);
    ParsedHeader(b);
  }

  lemma ParsedHeader(b: seq<byte>)
    requires |b| >= HEADER_SIZE
    ensures var t := b[10..16];
            ParseHeader(b) == Header(GetUint32(b[0..4]), GetUint16(b[4..6]), GetUint16(b[6..8]), GetUint16(b[8..10]),
                                     t[0] as int * 0x1_0000 + t[1] as int * 0x100 + t[2] as int, t[3] / 0x20, t[3] % 0x20, t[4])
  {
  }

  lemma FrontRoundTrip(h: Header, payloadSize: nat, metadataSize: nat, rest: seq<byte>)
    requires payloadSize < 0x1_0000_0000 && metadataSize < 0x1_0000 && |rest| >= 6
    ensures var b := HeaderFront(h, payloadSize, metadataSize) + rest;
            && GetUint32(b[0..4]) == payloadSize && GetUint16(b[4..6]) == metadataSize
            && GetUint16(b[6..8]) == h.componentID && GetUint16(b[8..10]) == h.commandID
  {
    hide PutUint32, PutUint16, GetUint16, GetUint32;
    var b := HeaderFront(h, payloadSize, metadataSize) + rest;
    assert b[0..4] == PutUint32(payloadSize) && b[4..6] == PutUint16(metadataSize);
    assert b[6..8] == PutUint16(h.componentID) && b[8..10] == PutUint16(h.commandID);
  }

  lemma TailRoundTrip(h: Header)
    requires h.messageNumber < 0x100_0000 && h.messageType < 8 && h.userIndex < 0x20
    ensures var t := HeaderTail(h);
            && t[0] as int * 0x1_0000 + t[1] as int * 0x100 + t[2] as int == h.messageNumber
            && t[3] / 0x20 == h.messageType && t[3] % 0x20 == h.userIndex && t[4] == h.options
  {
    ThreeBytes(h.messageNumber);
  }

  /** The fields left of a map after the round trip; an encoding of no bytes reads as nil. */
  function Kept(fields: Option<Fields>): Option<Fields>
    requires Encodable(RootOf(fields))
  {
    if fields.None? || EncodeStruct(RootOf(fields), true) == [] then None else Some(Norm(RootOf(fields)).fields)
  }

  /** Decoding undoes encoding: the header with its sizes filled in, the contents normalised, the
      payload bytes as sent, and the error the metadata or the message type reports. */
  lemma FireRoundTrip(p: Packet)
    requires WellFormedPacket(p)
    ensures var payload := EncodeStruct(RootOf(p.payload), true);
            var metadata := if p.metadata.Some? then EncodeStruct(RootOf(p.metadata), true) else [];
            var h := p.header.(payloadSize := |payload|, metadataSize := |metadata|);
            Parse(PacketBytes(p)) == Parsed(Packet(h, Kept(p.payload), Kept(p.metadata), payload, ErrorOf(h, Kept(p.metadata))))
  {
    hide WellFormed, Encodable, EncodeStruct, ReadStruct, Norm, HeaderBytes, ParseHeader, ErrorOf;
    var payload := EncodeStruct(RootOf(p.payload), true);
    var metadata := if p.metadata.Some? then EncodeStruct(RootOf(p.metadata), true) else [];
    NilIsEmpty(p.payload);
    PacketRoundTrip(RootOf(p.payload), []);
    PacketRoundTrip(RootOf(p.metadata), []);
    HeaderRoundTrip(p.header, |payload|, |metadata|, metadata + payload);
    var head := HeaderBytes(p.header, |payload|, |metadata|);
    var buffer := PacketBytes(p);
    assert buffer == head + (metadata + payload);
    assert buffer[HEADER_SIZE..] == metadata + payload;
    assert (metadata + payload)[..|metadata|] == metadata && (metadata + payload)[|metadata|..] == payload;
  }

  lemma NilIsEmpty(fields: Option<Fields>)
    requires Encodable(RootOf(fields))
    ensures fields.None? ==> EncodeStruct(RootOf(fields), true) == []
  {
  }

  // ---- raw frames ----------------------------------------------------------------------------

  /** BuildRawFrame */
  method BuildRawFrame(comp: uint16, cmd: uint16, msgType: byte, msgNum: uint32, payload: seq<byte>) returns (out: seq<byte>)
    ensures out == HeaderBytes(Header(0, 0, comp, cmd, msgNum, msgType, 0, 0), |payload|, 0) + payload
  {
    var header := FillHeader(Header(0, 0, comp, cmd, msgNum, msgType, 0, 0), |payload|, 0);
    out := header + payload;
  }

  /** A raw frame's payload reaches the other side untouched unless decoding it panics. */
  lemma RawFrameArrives(h: Header, payload: seq<byte>)
    requires h.messageNumber < 0x100_0000 && h.messageType < 8 && h.userIndex < 0x20 && |payload| < 0x1_0000_0000
    ensures var r := Parse(HeaderBytes(h, |payload|, 0) + payload);
            if payload != [] && ReadStruct(payload).Panic? then r == Crash
            else r.Parsed? && r.packet.rawPayload == payload && r.packet.metadata == None
                 && r.packet.header == h.(payloadSize := |payload|, metadataSize := 0)
  {
    hide ReadStruct, HeaderBytes, ParseHeader;
    HeaderRoundTrip(h, |payload|, 0, payload);
    var buffer := HeaderBytes(h, |payload|, 0) + payload;
    assert buffer[HEADER_SIZE..] == payload && payload[0..] == payload;
  }

  // ---- on the wire ---------------------------------------------------------------------------

  /** Where each field of the header is: sizes, component, command, 24-bit number, three bits of type
      over five of user index, options, a reserved zero. */
  lemma HeaderLayout(h: Header, payloadSize: nat, metadataSize: nat)
    requires payloadSize < 0x1_0000_0000 && metadataSize < 0x1_0000 && h.messageNumber < 0x100_0000
    ensures var b := HeaderBytes(h, payloadSize, metadataSize);
            && Number(b[0..4]) == payloadSize && Number(b[4..6]) == metadataSize
            && Number(b[6..8]) == h.componentID && Number(b[8..10]) == h.commandID && Number(b[10..13]) == h.messageNumber
            && b[13] / 0x20 == h.messageType % 8 && b[13] % 0x20 == h.userIndex % 0x20 && b[14] == h.options && b[15] == 0
  {
    hide HeaderFront, HeaderTail, Number;
    FrontLayout(h, payloadSize, metadataSize);
    TailLayout(h);
    var b, front, tail := HeaderBytes(h, payloadSize, metadataSize), HeaderFront(h, payloadSize, metadataSize), HeaderTail(h);
    assert b[0..4] == front[0..4] && b[4..6] == front[4..6] && b[6..8] == front[6..8] && b[8..10] == front[8..10];
    assert b[10..13] == tail[..3] && b[13] == tail[3] && b[14] == tail[4] && b[15] == tail[5];
  }

  lemma FrontLayout(h: Header, payloadSize: nat, metadataSize: nat)
    requires payloadSize < 0x1_0000_0000 && metadataSize < 0x1_0000
    ensures var b := HeaderFront(h, payloadSize, metadataSize);
            && Number(b[0..4]) == payloadSize && Number(b[4..6]) == metadataSize
            && Number(b[6..8]) == h.componentID && Number(b[8..10]) == h.commandID
  {
    hide PutUint32, PutUint16, Number, HeaderFront;
    Uint32IsBigEndian(payloadSize);
    Uint16IsBigEndian(metadataSize);
    Uint16IsBigEndian(h.componentID);
    Uint16IsBigEndian(h.commandID);
    FrontFields(h, payloadSize, metadataSize);
  }

  lemma FrontFields(h: Header, payloadSize: nat, metadataSize: nat)
    requires payloadSize < 0x1_0000_0000 && metadataSize < 0x1_0000
    ensures var b := HeaderFront(h, payloadSize, metadataSize);
            && b[0..4] == PutUint32(payloadSize) && b[4..6] == PutUint16(metadataSize)
            && b[6..8] == PutUint16(h.componentID) && b[8..10] == PutUint16(h.commandID)
  {
    hide PutUint32, PutUint16;
    assert payloadSize % 0x1_0000_0000 == payloadSize && metadataSize % 0x1_0000 == metadataSize;
    Pieces(PutUint32(payloadSize), PutUint16(metadataSize), PutUint16(h.componentID), PutUint16(h.commandID));
  }

  lemma Pieces(a: seq<byte>, b: seq<byte>, c: seq<byte>, d: seq<byte>)
    requires |a| == 4 && |b| == 2 && |c| == 2 && |d| == 2
    ensures var x := a + b + c + d;
            x[0..4] == a && x[4..6] == b && x[6..8] == c && x[8..10] == d
  {
  }

  lemma TailLayout(h: Header)
    requires h.messageNumber < 0x100_0000
    ensures var t := HeaderTail(h);
            && Number(t[..3]) == h.messageNumber
            && t[3] / 0x20 == h.messageType % 8 && t[3] % 0x20 == h.userIndex % 0x20 && t[4] == h.options && t[5] == 0
  {
    var t := HeaderTail(h);
    hide Number;
    NumberThree(t[..3]);
    ThreeBytes(h.messageNumber);
    TypeAndUser(h.messageType, h.userIndex);
  }

  lemma TypeAndUser(messageType: byte, userIndex: byte)
    ensures var b := messageType as int * 0x20 % 0x100 + userIndex as int % 0x20;
            b / 0x20 == messageType % 8 && b % 0x20 == userIndex % 0x20
  {
    assert messageType as int * 0x20 % 0x100 == messageType as int % 8 * 0x20;
  }

  /** Header, then metadata, then payload. */
  lemma PacketLayout(p: Packet)
    requires WellFormedPacket(p)
    ensures var payload := EncodeStruct(RootOf(p.payload), true);
            var metadata := if p.metadata.Some? then EncodeStruct(RootOf(p.metadata), true) else [];
            var b := PacketBytes(p);
            && |b| == 16 + |metadata| + |payload| && b[16..16 + |metadata|] == metadata && b[16 + |metadata|..] == payload
            && Number(b[0..4]) == |payload| && Number(b[4..6]) == |metadata|
  {
    hide EncodeStruct, HeaderBytes, WellFormed, Encodable;
    NilIsEmpty(p.metadata);
    var payload := EncodeStruct(RootOf(p.payload), true);
    var metadata := if p.metadata.Some? then EncodeStruct(RootOf(p.metadata), true) else [];
    HeaderLayout(p.header, |payload|, |metadata|);
    var head := HeaderBytes(p.header, |payload|, |metadata|);
    assert PacketBytes(p)[0..4] == head[0..4] && PacketBytes(p)[4..6] == head[4..6];
  }

  // ---- errors --------------------------------------------------------------------------------

  /** The packet's metadata carries the number `n` as ERRC; a boolean counts as 1 or 0. */
  predicate CarriesErrc(p: Packet, n: int)
  {
    var errc: Text := [0x45, 0x52, 0x52, 0x43];
    && p.metadata.Some? && errc in p.metadata.value
    && var v := p.metadata.value[errc];
    (v.Integer? && v.int_ == n) || (v.Boolean? && n == if v.bool_ then 1 else 0)
  }

  /** A decoded packet reports an error exactly when it is an error reply (type 3) or its metadata
      carries an ERRC whose low 32 bits are not zero; the error has the header's component and those
      bits, or zero when there is no ERRC. */
  lemma ErrorsAreReported(p: Packet)
    requires WellFormedPacket(p)
    ensures Parse(PacketBytes(p)).Parsed?
    ensures var error := Parse(PacketBytes(p)).packet.error;
            && (error.Some? <==> p.header.messageType == 3 || exists n: int64 :: CarriesErrc(p, n) && n as int % 0x1_0000_0000 != 0)
            && (error.Some? ==> error.value.component == p.header.componentID)
            && (forall n: int64 | error.Some? && CarriesErrc(p, n) :: error.value.code == n as int % 0x1_0000_0000)
            && (error.Some? && !(exists n: int64 :: CarriesErrc(p, n)) ==> error.value.code == 0)
  {
    hide WellFormed, Encodable, EncodeStruct, ReadStruct, Norm, HeaderBytes, ParseHeader, CarriesErrc, Parse, PacketBytes, ErrorCode;
    FireRoundTrip(p);
    CodeIsErrc(p);
  }

  lemma CodeIsErrc(p: Packet)
    requires WellFormedPacket(p)
    ensures forall n: int64 | CarriesErrc(p, n) :: ErrorCode(Kept(p.metadata)) == n as int % 0x1_0000_0000
    ensures !(exists n: int64 :: CarriesErrc(p, n)) ==> ErrorCode(Kept(p.metadata)) == 0
  {
    hide WellFormed, Encodable, EncodeStruct, ReadStruct;
    var errc: Text := [0x45, 0x52, 0x52, 0x43];
    var root := RootOf(p.metadata);
    PacketRoundTrip(root, []);
    EmptyReadsEmpty();
    NormFields(root, errc);
    if p.metadata.Some? && errc in p.metadata.value {
      var v := p.metadata.value[errc];
      NormNumber(v);
      hide Norm;
      if v.Integer? {
        assert CarriesErrc(p, v.int_);
      } else if v.Boolean? {
        assert CarriesErrc(p, if v.bool_ then 1 else 0);
      }
    }
  }

  lemma EmptyReadsEmpty()
    ensures ReadStruct([]) == Ok(map[], 0)
  {
  }

  lemma NormFields(root: Value, tag: Text)
    requires root.Struct?
    ensures Norm(root).Struct?
    ensures tag in Norm(root).fields <==> tag in root.fields && !IsEmptyCollection(root.fields[tag])
    ensures tag in Norm(root).fields ==> Norm(root).fields[tag] == Norm(root.fields[tag])
  {
  }

  /** What normalises to an integer. */
  lemma NormNumber(v: Value)
    ensures Norm(v).Integer? <==> v.Integer? || v.Boolean?
    ensures v.Integer? ==> Norm(v) == v && !IsEmptyCollection(v)
    ensures v.Boolean? ==> Norm(v) == Integer(if v.bool_ then 1 else 0) && !IsEmptyCollection(v)
  {
  }

  // ---- malformed contents ----------------------------------------------------------------------

  /** Whatever metadata and payload bytes a header announces: metadata that does not read keeps the
      fields read before, a payload that does not read is nil, and the payload bytes are kept. */
  lemma AnyContents(h: Header, metadata: seq<byte>, payload: seq<byte>)
    requires h.messageNumber < 0x100_0000 && h.messageType < 8 && h.userIndex < 0x20
    requires |payload| < 0x1_0000_0000 && |metadata| < 0x1_0000
    requires !ReadStruct(metadata).Panic? && !ReadStruct(payload).Panic?
    ensures var r := Parse(HeaderBytes(h, |payload|, |metadata|) + metadata + payload);
            && r.Parsed? && r.packet.header == h.(payloadSize := |payload|, metadataSize := |metadata|)
            && r.packet.rawPayload == payload
            && (payload == [] || ReadStruct(payload).Fail? ==> r.packet.payload == None)
            && (payload != [] && ReadStruct(payload).Ok? ==> r.packet.payload == Some(ReadStruct(payload).value))
            && (metadata == [] ==> r.packet.metadata == None)
            && (metadata != [] && ReadStruct(metadata).Fail? ==> r.packet.metadata == Some(ReadStruct(metadata).partial))
            && (metadata != [] && ReadStruct(metadata).Ok? ==> r.packet.metadata == Some(ReadStruct(metadata).value))
  {
    hide ReadStruct, HeaderBytes, ParseHeader, ErrorOf;
    HeaderRoundTrip(h, |payload|, |metadata|, metadata + payload);
    var head := HeaderBytes(h, |payload|, |metadata|);
    var buffer := head + metadata + payload;
    assert buffer == head + (metadata + payload);
    assert buffer[HEADER_SIZE..] == metadata + payload;
    assert (metadata + payload)[..|metadata|] == metadata && (metadata + payload)[|metadata|..] == payload;
  }

  /** Metadata announced beyond the end of the buffer takes the decoder down; a short header does not. */
  lemma ShortBuffers(h: Header, size: nat, rest: seq<byte>, short: seq<byte>)
    requires h.messageNumber < 0x100_0000 && h.messageType < 8 && h.userIndex < 0x20
    requires |rest| < size < 0x1_0000 && |short| < 16
    ensures Parse(HeaderBytes(h, 0, size) + rest) == Crash && Parse(short) == NoPacket
  {
    hide ReadStruct, HeaderBytes, ParseHeader;
    HeaderRoundTrip(h, 0, size, rest);
    assert (HeaderBytes(h, 0, size) + rest)[HEADER_SIZE..] == rest;
  }
}
