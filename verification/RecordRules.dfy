/** Which records the reader refuses, and what it makes of those that carry no data. */
module RecordRules {
  import opened Bytes
  import opened Records

  /** A record of another version is refused, except an SSL 3.0 handshake record as the very first;
      one of more than 18432 bytes is refused whatever follows; one cut short ends the stream. */
  lemma RecordsAreChecked(c: Cipher, version: uint16, first: bool, v: uint16, typ: byte, body: seq<byte>, rest: seq<byte>)
    requires |body| < 0x1_0000
    ensures var stream := RawRecord(v, typ, body) + rest;
            var tolerated := v == version || (first && v == 0x0300 && typ == 22);
            && (Open(c, version, first, stream) == BadVersion <==> !tolerated)
            && (Open(c, version, first, stream) == Oversized <==> tolerated && |body| > 18432)
            && Open(c, version, first, stream) != EndOfStream
            && (tolerated && |body| <= 18432 ==> Open(c, version, first, stream) == OpenBody(c, typ, body, rest))
    ensures forall k: nat | k < 5 :: Open(c, version, first, RawRecord(v, typ, body)[..k]) == EndOfStream
    ensures (v == version && |body| <= 18432) ==>
              forall k: nat | k < |RawRecord(v, typ, body)| :: Open(c, version, first, RawRecord(v, typ, body)[..k]) == EndOfStream
  {
    hide OpenBody, RawRecord, GetUint16;
    RecordLayout(v, typ, body, rest);
    RecordLayout(v, typ, body, []);
    var record := RawRecord(v, typ, body);
    assert record + [] == record;
    BodyAnswers(c, typ, body, rest);
    forall k: nat | v == version && |body| <= 18432 && 5 <= k < |record|
      ensures Open(c, version, first, record[..k]) == EndOfStream
    {
      assert record[..k][0] == record[0] && record[..k][1..3] == record[1..3] && record[..k][3..5] == record[3..5];
    }
  }

  lemma BodyAnswers(c: Cipher, typ: byte, body: seq<byte>, rest: seq<byte>)
    ensures var o := OpenBody(c, typ, body, rest); o != BadVersion && o != Oversized && o != EndOfStream
  {
    hide Crypt, RecordMAC;
  }

  /** An encrypted record too short for a MAC is refused. */
  lemma ShortRecordsAreRefused(c: Cipher, version: uint16, first: bool, typ: byte, body: seq<byte>, rest: seq<byte>)
    requires c.active && |body| < c.suite.size && |body| < 0x1_0000
    ensures |body| <= 18432 ==> Open(c, version, first, RawRecord(version, typ, body) + rest) == ShortRecord
  {
    RecordLayout(version, typ, body, rest);
    hide RawRecord, GetUint16, RecordMAC;
  }

  /** To a reader with nothing buffered, a record that carries no data: an alert with description 0
      closes, any other alert is the peer's, any other type is unexpected. */
  lemma OtherRecords(c: Cipher, version: uint16, typ: byte, plain: seq<byte>, rest: seq<byte>)
    requires Sized(c.suite) && |plain| <= MAX_PLAIN && typ != 23
    ensures Receive(c, version, RawRecord(version, typ, Seal(c, typ, plain)) + rest, []) ==
            if typ != 21 then Unexpected(typ)
            else if |plain| >= 2 && plain[1] == 0 then Closed
            else PeerAlert(plain)
  {
    OpenSeal(c, version, false, typ, plain, rest);
    hide Sized, Open, RawRecord, Seal;
  }

  /** An empty data record is passed over. */
  lemma EmptyRecords(c: Cipher, version: uint16, rest: seq<byte>)
    requires Sized(c.suite)
    ensures var body := Seal(c, 23, []);
            Receive(c, version, RawRecord(version, 23, body) + rest, []) == Receive(Advance(c, |body|), version, rest, [])
  {
    OpenSeal(c, version, false, 23, [], rest);
    hide Sized, Open, RawRecord, Seal;
  }
}
