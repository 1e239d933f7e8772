/** The record layer of TLS 1.0 and SSL 3.0 with a stream cipher: sections 6.2.1 and 6.2.3.1 of
    RFC 2246. Keystream, hash and HMAC are arbitrary functions with fixed output sizes. */
module Records {
  import opened Bytes
  import Varint = TdfVarint

  const SSL30: uint16 := 0x0300
  const ALERT: byte := 21
  const HANDSHAKE: byte := 22
  const APPLICATION_DATA: byte := 23
  const MAX_PLAIN := 16384
  const MAX_RECORD := 18432

  datatype Suite = Suite(size: nat, hash: seq<byte> -> seq<byte>, hmac: (seq<byte>, seq<byte>) -> seq<byte>)

  /** MD5 and SHA-1 sizes. */
  ghost predicate Sized(s: Suite)
  {
    && (s.size == 16 || s.size == 20)
    && (forall x: seq<byte> :: |s.hash(x)| == s.size)
    && (forall key: seq<byte>, x: seq<byte> :: |s.hmac(key, x)| == s.size)
  }

  /** One direction: the cipher's stream and how far it has been used, the MAC key, the sequence
      number of the next record. */
  datatype Cipher = Cipher(
    active: bool, keystream: nat -> byte, pos: nat, macKey: seq<byte>, suite: Suite, seqNo: nat, version: uint16)

  /** Bitwise exclusive or of the low `width` bits. */
  function XorBits(a: nat, b: nat, width: nat): nat
  {
    if width == 0 then 0 else (a % 2 + b % 2) % 2 + 2 * XorBits(a / 2, b / 2, width - 1)
  }

  function Xor(a: byte, b: byte): byte
  {
    XorBound(a, b, 8);
    XorBits(a, b, 8)
  }

  lemma {:induction false} XorBound(a: nat, b: nat, width: nat)
    ensures XorBits(a, b, width) < Varint.Pow2(width)
    ensures Varint.Pow2(8) == 0x100
  {
    Varint.Pow2Small();
    if width > 0 {
      XorBound(a / 2, b / 2, width - 1);
    }
  }

  lemma {:induction false} XorBitsTwice(a: nat, k: nat, width: nat)
    requires a < Varint.Pow2(width)
    ensures XorBits(XorBits(a, k, width), k, width) == a
  {
    if width > 0 {
      XorBitsTwice(a / 2, k / 2, width - 1);
      Halves((a % 2 + k % 2) % 2, XorBits(a / 2, k / 2, width - 1));
      SameBit(a, k);
    }
  }

  lemma Halves(bit: nat, rest: nat)
    requires bit < 2
    ensures (bit + 2 * rest) % 2 == bit && (bit + 2 * rest) / 2 == rest
  {
  }

  lemma SameBit(a: nat, k: nat)
    ensures ((a % 2 + k % 2) % 2 + k % 2) % 2 + 2 * (a / 2) == a
  {
  }

  lemma XorTwice(a: byte, k: byte)
    ensures Xor(Xor(a, k), k) == a
  {
    XorBound(a, k, 8);
    XorBitsTwice(a, k, 8);
  }

  /** XORKeyStream */
  function Crypt(c: Cipher, data: seq<byte>): (out: seq<byte>)
    ensures |out| == |data|
  {
    seq(|data|, i requires 0 <= i < |data| => Xor(data[i], c.keystream(c.pos + i)))
  }

  lemma CryptTwice(c: Cipher, data: seq<byte>)
    ensures Crypt(c, Crypt(c, data)) == data
  {
    hide Xor;
    forall i | 0 <= i < |data|
      ensures Crypt(c, Crypt(c, data))[i] == data[i]
    {
      XorTwice(data[i], c.keystream(c.pos + i));
    }
  }

  // ---- the MAC -------------------------------------------------------------------------------

  /** binary.BigEndian.PutUint64 of the low 64 bits */
  function PutUint64(n: nat): (b: seq<byte>)
    ensures |b| == 8
  {
    PutUint32(n / 0x1_0000_0000 % 0x1_0000_0000) + PutUint32(n % 0x1_0000_0000)
  }

  function Repeat(b: byte, n: nat): seq<byte>
  {
    seq(n, _ => b)
  }

  /** recordMAC: SSL 3.0's nested hash, or the HMAC over sequence number, type, version, length and
      fragment. */
  function RecordMAC(c: Cipher, typ: byte, data: seq<byte>): seq<byte>
  {
    var length := PutUint16(|data| % 0x1_0000);
    if c.version == SSL30 then
      var pad := if c.suite.size == 16 then 48 else 40;
      var inner := c.suite.hash(c.macKey + Repeat(0x36, pad) + PutUint64(c.seqNo) + [typ] + length + data);
      c.suite.hash(c.macKey + Repeat(0x5c, pad) + inner)
    else
      c.suite.hmac(c.macKey, PutUint64(c.seqNo) + [typ, 3, 1] + length + data)
  }

  lemma MacSize(c: Cipher, typ: byte, data: seq<byte>)
    requires Sized(c.suite)
    ensures |RecordMAC(c, typ, data)| == c.suite.size <= 20
  {
  }

  // ---- one record ----------------------------------------------------------------------------

  /** The state after a record whose body has `n` bytes. */
  function Advance(c: Cipher, n: nat): Cipher
  {
    if c.active then c.(pos := c.pos + n, seqNo := (c.seqNo + 1) % TWO_64) else c
  }

  /** writeRecord: the record's body. */
  function Seal(c: Cipher, typ: byte, plain: seq<byte>): seq<byte>
  {
    if c.active then Crypt(c, plain + RecordMAC(c, typ, plain)) else plain
  }

  /** writeRawRecord: the header and the body. */
  function RawRecord(version: uint16, typ: byte, body: seq<byte>): seq<byte>
  {
    [typ] + PutUint16(version) + PutUint16(|body| % 0x1_0000) + body
  }

  datatype Opened = EndOfStream | BadVersion | Oversized | ShortRecord | BadMAC
    | Record(typ: byte, plain: seq<byte>, cipher: Cipher, rest: seq<byte>)

  /** A record body once it is off the wire. */
  function OpenBody(c: Cipher, typ: byte, body: seq<byte>, rest: seq<byte>): Opened
  {
    if !c.active then Record(typ, body, c, rest)
    else
      var b := Crypt(c, body);
      var n := c.suite.size;
      if |b| < n then ShortRecord
      else if b[|b| - n..] != RecordMAC(c, typ, b[..|b| - n]) then BadMAC
      else Record(typ, b[..|b| - n], Advance(c, |b|), rest)
  }

  /** readRecord. A client's first handshake record may carry SSL 3.0's version. */
  function Open(c: Cipher, version: uint16, first: bool, stream: seq<byte>): Opened
  {
    if |stream| < 5 then EndOfStream
    else
      var typ, v, n := stream[0], GetUint16(stream[1..3]), GetUint16(stream[3..5]);
      if v != version && !(first && v == SSL30 && typ == HANDSHAKE) then BadVersion
      else if n as int > MAX_RECORD then Oversized
      else if |stream| - 5 < n as int then EndOfStream
      else OpenBody(c, typ, stream[5..5 + n], stream[5 + n..])
  }

  lemma OpenConsumes(c: Cipher, version: uint16, first: bool, stream: seq<byte>)
    ensures var o := Open(c, version, first, stream); o.Record? ==> |o.rest| + 5 <= |stream|
  {
    hide Crypt, RecordMAC;
  }

  lemma OpenSealedBody(c: Cipher, typ: byte, plain: seq<byte>, rest: seq<byte>)
    requires Sized(c.suite)
    ensures var body := Seal(c, typ, plain);
            && |body| <= |plain| + 20
            && OpenBody(c, typ, body, rest) == Record(typ, plain, Advance(c, |body|), rest)
  {
    MacSize(c, typ, plain);
    hide Sized, Crypt, RecordMAC;
    if c.active {
      var mac := RecordMAC(c, typ, plain);
      CryptTwice(c, plain + mac);
      assert (plain + mac)[..|plain|] == plain && (plain + mac)[|plain|..] == mac;
    }
  }

  /** A sealed record opens, on the state that sealed it, to its plaintext; both ends move to the
      same next state, and the body is within the limit. */
  lemma OpenSeal(c: Cipher, version: uint16, first: bool, typ: byte, plain: seq<byte>, suffix: seq<byte>)
    requires Sized(c.suite) && |plain| <= MAX_PLAIN
    ensures var body := Seal(c, typ, plain);
            && |body| <= MAX_RECORD
            && Open(c, version, first, RawRecord(version, typ, body) + suffix) == Record(typ, plain, Advance(c, |body|), suffix)
  {
    var body := Seal(c, typ, plain);
    OpenSealedBody(c, typ, plain, suffix);
    hide Sized, Seal, OpenBody, RawRecord, GetUint16;
    RecordLayout(version, typ, body, suffix);
  }

  lemma RecordLayout(version: uint16, typ: byte, body: seq<byte>, suffix: seq<byte>)
    requires |body| < 0x1_0000
    ensures var stream := RawRecord(version, typ, body) + suffix;
            && |stream| == 5 + |body| + |suffix|
            && stream[0] == typ && GetUint16(stream[1..3]) == version && GetUint16(stream[3..5]) == |body|
            && stream[5..5 + |body|] == body && stream[5 + |body|..] == suffix
  {
    hide PutUint16, GetUint16;
    var stream := RawRecord(version, typ, body) + suffix;
    assert stream[1..3] == PutUint16(version) && stream[3..5] == PutUint16(|body|);
  }

  // ---- a stream ------------------------------------------------------------------------------

  /** Write: the bytes on the wire, record by record, and the state after them. */
  function Send(c: Cipher, version: uint16, p: seq<byte>): (seq<byte>, Cipher)
    decreases |p|
  {
    if p == [] then ([], c)
    else
      var n := if |p| > MAX_PLAIN then MAX_PLAIN else |p|;
      var body := Seal(c, APPLICATION_DATA, p[..n]);
      var (rest, c') := Send(Advance(c, |body|), version, p[n..]);
      (RawRecord(version, APPLICATION_DATA, body) + rest, c')
  }

  datatype Received = Got(cipher: Cipher, wire: seq<byte>, buf: seq<byte>)
    | Failed(why: Opened) | Closed | PeerAlert(data: seq<byte>) | Unexpected(typ: byte)

  /** Read's loop: records are taken until there is something to deliver. */
  function Receive(c: Cipher, version: uint16, wire: seq<byte>, buf: seq<byte>): Received
    decreases |wire|
  {
    if buf != [] then Got(c, wire, buf)
    else
      OpenConsumes(c, version, false, wire);
      match Open(c, version, false, wire)
      case Record(typ, plain, c', rest) =>
        if typ == APPLICATION_DATA then Receive(c', version, rest, plain)
        else if typ == ALERT then if |plain| >= 2 && plain[1] == 0 then Closed else PeerAlert(plain)
        else Unexpected(typ)
      case failure => Failed(failure)
  }

  function Min(a: nat, b: nat): nat { if a < b then a else b }

  /** Two endpoints: the writer's outgoing state, the reader's incoming state, the bytes between
      them, and what the reader has decrypted but not delivered. */
  datatype Channel = Channel(version: uint16, out: Cipher, in_: Cipher, wire: seq<byte>, buf: seq<byte>)

  function Written(ch: Channel, p: seq<byte>): Channel
  {
    var (bytes, c') := Send(ch.out, ch.version, p);
    ch.(out := c', wire := ch.wire + bytes)
  }

  /** The records that carry `chunks`, and the state after them. */
  function SealChunks(c: Cipher, version: uint16, chunks: seq<seq<byte>>): (seq<byte>, Cipher)
    decreases |chunks|
  {
    if chunks == [] then ([], c)
    else
      var body := Seal(c, APPLICATION_DATA, chunks[0]);
      var (rest, c') := SealChunks(Advance(c, |body|), version, chunks[1..]);
      (RawRecord(version, APPLICATION_DATA, body) + rest, c')
  }

  function Flat(chunks: seq<seq<byte>>): seq<byte>
  {
    if chunks == [] then [] else chunks[0] + Flat(chunks[1..])
  }

  predicate Chunky(chunks: seq<seq<byte>>)
  {
    forall i | 0 <= i < |chunks| :: 0 < |chunks[i]| <= MAX_PLAIN
  }

  /** Write's chunks: full ones, then the remainder. */
  function Chunks(p: seq<byte>): (chunks: seq<seq<byte>>)
    ensures Chunky(chunks) && Flat(chunks) == p
    decreases |p|
  {
    if p == [] then []
    else
      var n := if |p| > MAX_PLAIN then MAX_PLAIN else |p|;
      assert p == p[..n] + p[n..];
      [p[..n]] + Chunks(p[n..])
  }

  lemma {:induction false} SendIsChunks(c: Cipher, version: uint16, p: seq<byte>)
    ensures Send(c, version, p) == SealChunks(c, version, Chunks(p))
    decreases |p|
  {
    hide Seal, RawRecord, Advance;
    if p != [] {
      var n := if |p| > MAX_PLAIN then MAX_PLAIN else |p|;
      SendIsChunks(Advance(c, |Seal(c, APPLICATION_DATA, p[..n])|), version, p[n..]);
      assert Chunks(p)[1..] == Chunks(p[n..]);
    }
  }

  lemma {:induction false} SealConcat(c: Cipher, version: uint16, a: seq<seq<byte>>, b: seq<seq<byte>>)
    ensures var (x, c1) := SealChunks(c, version, a);
            var (y, c2) := SealChunks(c1, version, b);
            SealChunks(c, version, a + b) == (x + y, c2)
    ensures Flat(a + b) == Flat(a) + Flat(b)
    decreases |a|
  {
    hide Seal, RawRecord, Advance;
    if a == [] {
      assert a + b == b;
      assert [] + SealChunks(c, version, b).0 == SealChunks(c, version, b).0;
      assert [] + Flat(b) == Flat(b);
    } else {
      assert (a + b)[1..] == a[1..] + b && (a + b)[0] == a[0];
      var body := Seal(c, APPLICATION_DATA, a[0]);
      var head := RawRecord(version, APPLICATION_DATA, body);
      SealConcat(Advance(c, |body|), version, a[1..], b);
      var (x, c1) := SealChunks(Advance(c, |body|), version, a[1..]);
      var (y, c2) := SealChunks(c1, version, b);
      assert head + x + y == head + (x + y);
      assert a[0] + Flat(a[1..]) + Flat(b) == a[0] + (Flat(a[1..]) + Flat(b));
    }
  }

  lemma {:induction false} SealKeepsSuite(c: Cipher, version: uint16, chunks: seq<seq<byte>>)
    ensures SealChunks(c, version, chunks).1.suite == c.suite
    decreases |chunks|
  {
    hide Seal, RawRecord;
    if chunks != [] {
      SealKeepsSuite(Advance(c, |Seal(c, APPLICATION_DATA, chunks[0])|), version, chunks[1..]);
    }
  }

  /** What is on the wire is `chunks`, sealed from the reader's state; the writer's is the one after
      them. */
  ghost predicate InStep(ch: Channel, chunks: seq<seq<byte>>)
  {
    Sized(ch.in_.suite) && Chunky(chunks) && SealChunks(ch.in_, ch.version, chunks) == (ch.wire, ch.out)
  }

  /** Nothing is lost, added or reordered between the two ends. */
  ghost predicate Linked(ch: Channel, written: seq<byte>, delivered: seq<byte>)
  {
    exists chunks :: InStep(ch, chunks) && written == delivered + ch.buf + Flat(chunks)
  }

  lemma WriteLinks(ch: Channel, written: seq<byte>, delivered: seq<byte>, p: seq<byte>)
    requires Linked(ch, written, delivered)
    ensures Linked(Written(ch, p), written + p, delivered)
  {
    hide Sized, SealChunks, Chunks, Flat, Chunky;
    var chunks :| InStep(ch, chunks) && written == delivered + ch.buf + Flat(chunks);
    var more := Chunks(p);
    SendIsChunks(ch.out, ch.version, p);
    SealConcat(ch.in_, ch.version, chunks, more);
    ChunkyConcat(chunks, more);
    assert InStep(Written(ch, p), chunks + more);
    assert written + p == delivered + ch.buf + (Flat(chunks) + p);
  }

  lemma ChunkyConcat(a: seq<seq<byte>>, b: seq<seq<byte>>)
    requires Chunky(a) && Chunky(b)
    ensures Chunky(a + b)
  {
  }

  /** One chunk comes off the wire. */
  lemma TakeChunk(ch: Channel, chunks: seq<seq<byte>>)
    requires InStep(ch, chunks) && chunks != [] && ch.buf == []
    ensures var body := Seal(ch.in_, APPLICATION_DATA, chunks[0]);
            var rest := SealChunks(Advance(ch.in_, |body|), ch.version, chunks[1..]).0;
            var ch' := ch.(in_ := Advance(ch.in_, |body|), wire := rest, buf := chunks[0]);
            && InStep(ch', chunks[1..])
            && Receive(ch.in_, ch.version, ch.wire, []) == Got(ch'.in_, ch'.wire, ch'.buf)
  {
    var c := ch.in_;
    var body := Seal(c, APPLICATION_DATA, chunks[0]);
    var rest := SealChunks(Advance(c, |body|), ch.version, chunks[1..]).0;
    assert ch.wire == RawRecord(ch.version, APPLICATION_DATA, body) + rest;
    OpenSeal(c, ch.version, false, APPLICATION_DATA, chunks[0], rest);
    hide Sized, Seal, RawRecord, Open;
    assert Receive(Advance(c, |body|), ch.version, rest, chunks[0]) == Got(Advance(c, |body|), rest, chunks[0]);
  }

  /** A Read with something in flight succeeds, delivers at least one byte if asked for any, and
      delivers exactly the next ones. */
  lemma ReadLinks(ch: Channel, written: seq<byte>, delivered: seq<byte>, k: nat)
    requires Linked(ch, written, delivered) && (ch.buf != [] || ch.wire != [])
    ensures var r := Receive(ch.in_, ch.version, ch.wire, ch.buf);
            && r.Got? && r.buf != []
            && var n := Min(k, |r.buf|);
            Linked(ch.(in_ := r.cipher, wire := r.wire, buf := r.buf[n..]), written, delivered + r.buf[..n])
  {
    hide Sized, SealChunks, Flat, Chunky;
    var chunks :| InStep(ch, chunks) && written == delivered + ch.buf + Flat(chunks);
    var r := Receive(ch.in_, ch.version, ch.wire, ch.buf);
    var left := chunks;
    if ch.buf == [] {
      SomeChunk(ch, chunks);
      TakeChunk(ch, chunks);
      left := chunks[1..];
    }
    var n := Min(k, |r.buf|);
    assert InStep(ch.(in_ := r.cipher, wire := r.wire, buf := r.buf[n..]), left);
    assert r.buf == r.buf[..n] + r.buf[n..];
    assert written == delivered + r.buf[..n] + r.buf[n..] + Flat(left);
  }

  lemma SomeChunk(ch: Channel, chunks: seq<seq<byte>>)
    requires InStep(ch, chunks) && ch.wire != []
    ensures chunks != [] && |chunks[0]| > 0 && Flat(chunks) == chunks[0] + Flat(chunks[1..])
  {
  }

  // ---- runs ----------------------------------------------------------------------------------

  datatype Step = DoWrite(p: seq<byte>) | DoRead(k: nat)

  /** A read waits until something is in flight. */
  predicate Ready(ch: Channel, s: Step)
  {
    s.DoRead? ==> ch.buf != [] || ch.wire != []
  }

  datatype Session = Session(ch: Channel, written: seq<byte>, delivered: seq<byte>, failed: bool)

  function After(s: Session, step: Step): Session
  {
    match step
    case DoWrite(p) => s.(ch := Written(s.ch, p), written := s.written + p)
    case DoRead(k) =>
      match Receive(s.ch.in_, s.ch.version, s.ch.wire, s.ch.buf)
      case Got(c, wire, buf) =>
        var n := Min(k, |buf|);
        s.(ch := s.ch.(in_ := c, wire := wire, buf := buf[n..]), delivered := s.delivered + buf[..n])
      case _ => s.(failed := true)
  }

  function Run(s: Session, steps: seq<Step>): Session
    decreases |steps|
  {
    if steps == [] then s else Run(After(s, steps[0]), steps[1..])
  }

  /** Every read in the run has something in flight. */
  predicate RunReady(s: Session, steps: seq<Step>)
    decreases |steps|
  {
    steps == [] || (Ready(s.ch, steps[0]) && RunReady(After(s, steps[0]), steps[1..]))
  }

  lemma {:induction false} RunsStayLinked(s: Session, steps: seq<Step>)
    requires Linked(s.ch, s.written, s.delivered) && !s.failed && RunReady(s, steps)
    ensures var s' := Run(s, steps); Linked(s'.ch, s'.written, s'.delivered) && !s'.failed
    decreases |steps|
  {
    hide Linked, Receive, Written;
    if steps != [] {
      match steps[0] {
        case DoWrite(p) => WriteLinks(s.ch, s.written, s.delivered, p);
        case DoRead(k) => ReadLinks(s.ch, s.written, s.delivered, k);
      }
      RunsStayLinked(After(s, steps[0]), steps[1..]);
    }
  }

  /** From matching states, whatever sizes are written and whatever buffers are read into, in any
      order: no read fails, what is delivered is a prefix of what was written, and once nothing is
      in flight it is all of it and both ends agree on sequence number and keystream position. */
  lemma StreamIsFaithful(c: Cipher, version: uint16, steps: seq<Step>)
    requires Sized(c.suite)
    requires RunReady(Session(Channel(version, c, c, [], []), [], [], false), steps)
    ensures var s := Run(Session(Channel(version, c, c, [], []), [], [], false), steps);
            && !s.failed && s.delivered <= s.written
            && (s.ch.wire == [] && s.ch.buf == [] ==> s.delivered == s.written && s.ch.in_ == s.ch.out)
  {
    var start := Session(Channel(version, c, c, [], []), [], [], false);
    assert InStep(start.ch, []);
    assert Linked(start.ch, [], []);
    RunsStayLinked(start, steps);
    hide Sized, Run, RunReady;
    var s := Run(start, steps);
    var chunks :| InStep(s.ch, chunks) && s.written == s.delivered + s.ch.buf + Flat(chunks);
    EmptyWire(s.ch, chunks);
    if s.ch.wire == [] && s.ch.buf == [] {
      assert s.delivered + [] + [] == s.delivered;
    }
  }

  lemma EmptyWire(ch: Channel, chunks: seq<seq<byte>>)
    requires InStep(ch, chunks)
    ensures ch.wire == [] ==> chunks == [] && ch.in_ == ch.out
  {
    hide Sized, Seal;
  }

  predicate InFlight(ch: Channel)
  {
    ch.buf != [] || ch.wire != []
  }

  /** Reads with the given buffer sizes, as long as something is in flight. */
  function Drain(s: Session, ks: seq<nat>): Session
    decreases |ks|
  {
    if ks == [] || !InFlight(s.ch) then s else Drain(After(s, DoRead(ks[0])), ks[1..])
  }

  /** Something is in flight exactly while something written is not delivered. */
  lemma InFlightIsUndelivered(s: Session)
    requires Linked(s.ch, s.written, s.delivered)
    ensures |s.delivered| <= |s.written|
    ensures InFlight(s.ch) <==> |s.delivered| < |s.written|
    ensures !InFlight(s.ch) ==> s.delivered == s.written && s.ch.in_ == s.ch.out
  {
    hide Sized, SealChunks;
    var chunks :| InStep(s.ch, chunks) && s.written == s.delivered + s.ch.buf + Flat(chunks);
    EmptyWire(s.ch, chunks);
    if s.ch.wire != [] {
      SomeChunk(s.ch, chunks);
    } else {
      assert s.delivered + s.ch.buf + [] == s.delivered + s.ch.buf;
    }
  }

  lemma {:induction false} DrainEnds(s: Session, ks: seq<nat>)
    requires Linked(s.ch, s.written, s.delivered) && !s.failed
    requires (forall k | k in ks :: k >= 1) && |s.written| - |s.delivered| <= |ks|
    ensures var s' := Drain(s, ks);
            !s'.failed && !InFlight(s'.ch) && s'.written == s.written && Linked(s'.ch, s'.written, s'.delivered)
    decreases |ks|
  {
    hide Linked, Receive;
    InFlightIsUndelivered(s);
    if ks != [] && InFlight(s.ch) {
      assert ks[0] in ks;
      ReadLinks(s.ch, s.written, s.delivered, ks[0]);
      var s1 := After(s, DoRead(ks[0]));
      assert |s1.delivered| >= |s.delivered| + 1;
      assert forall k | k in ks[1..] :: k in ks;
      DrainEnds(After(s, DoRead(ks[0])), ks[1..]);
    }
  }

  /** After any such run, reads that each ask for at least a byte, as many as there are bytes
      undelivered, deliver everything that was written and leave both ends in the same state. */
  lemma StreamDrains(c: Cipher, version: uint16, steps: seq<Step>, ks: seq<nat>)
    requires Sized(c.suite)
    requires RunReady(Session(Channel(version, c, c, [], []), [], [], false), steps)
    requires forall k | k in ks :: k >= 1
    requires var s := Run(Session(Channel(version, c, c, [], []), [], [], false), steps); |s.written| - |s.delivered| <= |ks|
    ensures var s := Run(Session(Channel(version, c, c, [], []), [], [], false), steps);
            var s' := Drain(s, ks);
            !s'.failed && s'.delivered == s.written && !InFlight(s'.ch) && s'.ch.in_ == s'.ch.out
  {
    var start := Session(Channel(version, c, c, [], []), [], [], false);
    assert InStep(start.ch, []);
    assert Linked(start.ch, [], []);
    RunsStayLinked(start, steps);
    hide Sized, Run, RunReady, Linked, Drain;
    DrainEnds(Run(start, steps), ks);
    InFlightIsUndelivered(Drain(Run(start, steps), ks));
  }

  // ---- handshake messages --------------------------------------------------------------------

  datatype Split = Broken | Messages(parts: seq<seq<byte>>)

  /** handshakeMessage */
  function Message(typ: byte, body: seq<byte>): seq<byte>
  {
    [typ, |body| / 0x1_0000 % 0x100, |body| / 0x100 % 0x100, |body| % 0x100] + body
  }

  /** splitHandshake */
  function SplitHandshake(b: seq<byte>): Split
    decreases |b|
  {
    if b == [] then Messages([])
    else if |b| < 4 then Broken
    else
      var n := b[1] as int * 0x1_0000 + b[2] as int * 0x100 + b[3] as int;
      if n + 4 > |b| then Broken
      else
        match SplitHandshake(b[n + 4..])
        case Broken => Broken
        case Messages(parts) => Messages([b[..n + 4]] + parts)
  }

  /** A flight of messages splits back into them; whatever splits is the concatenation of its parts. */
  lemma {:induction false} FlightSplits(messages: seq<(byte, seq<byte>)>)
    requires forall m | m in messages :: |m.1| < 0x100_0000
    ensures SplitHandshake(Flat(Flight(messages))) == Messages(Flight(messages))
    decreases |messages|
  {
    hide SplitHandshake, Message;
    if messages != [] {
      assert messages[0] in messages;
      FlightSplits(messages[1..]);
      assert Flight(messages)[1..] == Flight(messages[1..]);
      SplitFirst(messages[0].0, messages[0].1, Flat(Flight(messages[1..])));
    } else {
      NoMessages();
    }
  }

  lemma NoMessages()
    ensures SplitHandshake([]) == Messages([])
  {
  }

  /** A message in front splits off. */
  lemma SplitFirst(typ: byte, body: seq<byte>, rest: seq<byte>)
    requires |body| < 0x100_0000
    ensures SplitHandshake(Message(typ, body) + rest) ==
            match SplitHandshake(rest)
            case Broken => Broken
            case Messages(parts) => Messages([Message(typ, body)] + parts)
  {
    var b := Message(typ, body) + rest;
    ThreeBytes(|body|);
    assert b[1] as int * 0x1_0000 + b[2] as int * 0x100 + b[3] as int == |body|;
    assert b[..|body| + 4] == Message(typ, body) && b[|body| + 4..] == rest;
  }

  function Flight(messages: seq<(byte, seq<byte>)>): seq<seq<byte>>
  {
    if messages == [] then [] else [Message(messages[0].0, messages[0].1)] + Flight(messages[1..])
  }

  lemma {:induction false} SplitIsConcat(b: seq<byte>)
    ensures SplitHandshake(b).Messages? ==> Flat(SplitHandshake(b).parts) == b
    decreases |b|
  {
    if |b| >= 4 {
      var n := b[1] as int * 0x1_0000 + b[2] as int * 0x100 + b[3] as int;
      if n + 4 <= |b| {
        SplitIsConcat(b[n + 4..]);
        assert b == b[..n + 4] + b[n + 4..];
        if SplitHandshake(b).Messages? {
          assert SplitHandshake(b).parts[1..] == SplitHandshake(b[n + 4..]).parts;
        }
      }
    }
  }
}
