/** What the record MAC covers, whatever the hash: section 6.2.3.1 of RFC 2246, and SSL 3.0's form. */
module RecordMac {
  import opened Bytes
  import opened Records

  lemma Uint64IsBigEndian(n: nat)
    requires n < TWO_64
    ensures Number(PutUint64(n)) == n
  {
    hide PutUint32, Number;
    var hi, lo := n / 0x1_0000_0000, n % 0x1_0000_0000;
    assert hi % 0x1_0000_0000 == hi;
    assert PutUint64(n) == PutUint32(hi) + PutUint32(lo);
    Uint32IsBigEndian(hi);
    Uint32IsBigEndian(lo);
    NumberFour(PutUint32(hi), PutUint32(lo));
  }

  lemma NumberFour(a: seq<byte>, b: seq<byte>)
    requires |b| == 4
    ensures Number(a + b) == Number(a) * 0x1_0000_0000 + Number(b)
  {
    NumberTwo(a, b[0], b[1]);
    NumberTwo(a + [b[0], b[1]], b[2], b[3]);
    NumberTwo([], b[0], b[1]);
    NumberTwo([] + [b[0], b[1]], b[2], b[3]);
    assert a + b == a + [b[0], b[1]] + [b[2], b[3]];
    assert b == [] + [b[0], b[1]] + [b[2], b[3]];
    assert Number([]) == 0;
  }

  // ---- what is authenticated -------------------------------------------------------------------

  /** TLS 1.0: sequence number, type, version 3.1, length, fragment. */
  ghost predicate TlsMessage(x: seq<byte>, seqNo: nat, typ: byte, fragment: seq<byte>)
  {
    && |x| == 13 + |fragment|
    && Number(x[..8]) == seqNo && x[8] == typ && x[9] == 3 && x[10] == 1
    && Number(x[11..13]) == |fragment| && x[13..] == fragment
  }

  /** SSL 3.0: the same without the version. */
  ghost predicate Ssl3Message(x: seq<byte>, seqNo: nat, typ: byte, fragment: seq<byte>)
  {
    && |x| == 11 + |fragment|
    && Number(x[..8]) == seqNo && x[8] == typ
    && Number(x[9..11]) == |fragment| && x[11..] == fragment
  }

  /** `n` copies of a byte. */
  predicate Filled(pad: seq<byte>, b: byte, n: nat)
  {
    |pad| == n && forall i | 0 <= i < n :: pad[i] == b
  }

  /** A TLS 1.0 record's MAC is the HMAC, under the MAC key, of exactly that message. */
  lemma TlsMac(c: Cipher, typ: byte, fragment: seq<byte>)
    requires c.version != SSL30 && c.seqNo < TWO_64 && |fragment| < 0x1_0000
    ensures exists x :: TlsMessage(x, c.seqNo, typ, fragment) && RecordMAC(c, typ, fragment) == c.suite.hmac(c.macKey, x)
  {
    hide PutUint64, PutUint16, Number;
    var number, length := PutUint64(c.seqNo), PutUint16(|fragment|);
    Uint64IsBigEndian(c.seqNo);
    Uint16IsBigEndian(|fragment|);
    var x := number + [typ, 3, 1] + length + fragment;
    assert x[..8] == number && x[11..13] == length && x[13..] == fragment;
    assert TlsMessage(x, c.seqNo, typ, fragment);
  }

  /** An SSL 3.0 record's MAC nests the hash: the key and 48 bytes of 0x5c for MD5 or 40 for SHA-1,
      over the key, as many of 0x36, and the message. */
  lemma Ssl3Mac(c: Cipher, typ: byte, fragment: seq<byte>)
    requires c.version == SSL30 && c.seqNo < TWO_64 && |fragment| < 0x1_0000
    ensures exists x, p36, p5c ::
              && Ssl3Message(x, c.seqNo, typ, fragment)
              && Filled(p36, 0x36, if c.suite.size == 16 then 48 else 40) && Filled(p5c, 0x5c, |p36|)
              && RecordMAC(c, typ, fragment) == c.suite.hash(c.macKey + p5c + c.suite.hash(c.macKey + p36 + x))
  {
    hide PutUint64, PutUint16, Number, Repeat, RecordMAC, Ssl3Message, Filled;
    var x := PutUint64(c.seqNo) + [typ] + PutUint16(|fragment|) + fragment;
    Ssl3MessageIs(c.seqNo, typ, fragment);
    var pad := if c.suite.size == 16 then 48 else 40;
    RepeatFills(0x36, pad);
    RepeatFills(0x5c, pad);
    Ssl3Unfold(c, typ, fragment, pad);
    assert Ssl3Message(x, c.seqNo, typ, fragment) && Filled(Repeat(0x36, pad), 0x36, pad) && Filled(Repeat(0x5c, pad), 0x5c, pad)
           && RecordMAC(c, typ, fragment)
              == c.suite.hash(c.macKey + Repeat(0x5c, pad) + c.suite.hash(c.macKey + Repeat(0x36, pad) + x));
  }

  lemma Ssl3Unfold(c: Cipher, typ: byte, fragment: seq<byte>, pad: nat)
    requires c.version == SSL30 && |fragment| < 0x1_0000 && pad == if c.suite.size == 16 then 48 else 40
    ensures var x := PutUint64(c.seqNo) + [typ] + PutUint16(|fragment|) + fragment;
            RecordMAC(c, typ, fragment)
            == c.suite.hash(c.macKey + Repeat(0x5c, pad) + c.suite.hash(c.macKey + Repeat(0x36, pad) + x))
  {
    hide PutUint64, PutUint16, Repeat;
    var x := PutUint64(c.seqNo) + [typ] + PutUint16(|fragment|) + fragment;
    assert c.macKey + Repeat(0x36, pad) + x
        == c.macKey + Repeat(0x36, pad) + PutUint64(c.seqNo) + [typ] + PutUint16(|fragment|) + fragment;
  }

  lemma RepeatFills(b: byte, n: nat)
    ensures Filled(Repeat(b, n), b, n) && |Repeat(b, n)| == n
  {
  }

  lemma Ssl3MessageIs(seqNo: nat, typ: byte, fragment: seq<byte>)
    requires seqNo < TWO_64 && |fragment| < 0x1_0000
    ensures Ssl3Message(PutUint64(seqNo) + [typ] + PutUint16(|fragment|) + fragment, seqNo, typ, fragment)
  {
    hide PutUint64, PutUint16, Number;
    var number, length := PutUint64(seqNo), PutUint16(|fragment|);
    Uint64IsBigEndian(seqNo);
    Uint16IsBigEndian(|fragment|);
    var x := number + [typ] + length + fragment;
    assert x[..8] == number && x[9..11] == length && x[11..] == fragment;
  }

  // ---- every part matters ----------------------------------------------------------------------

  /** The bytes that are authenticated. */
  function Authenticated(c: Cipher, typ: byte, fragment: seq<byte>): seq<byte>
  {
    PutUint64(c.seqNo) + (if c.version == SSL30 then [typ] else [typ, 3, 1]) + PutUint16(|fragment| % 0x1_0000) + fragment
  }

  /** `size` bytes of `x` from `at` on, zeros past its end. */
  function Window(x: seq<byte>, at: nat, size: nat): (w: seq<byte>)
    ensures |w| == size
  {
    seq(size, i requires 0 <= i < size => if at + i < |x| then x[at + i] else 0)
  }

  /** A suite whose MACs show the authenticated bytes from the k-th on. */
  function Probe(key: nat, size: nat, k: nat): Suite
  {
    var pad := if size == 16 then 48 else 40;
    Suite(size,
          x => if key < |x| && x[key] == 0x5c then Window(x, key + pad, size) else Window(x, key + pad + k, size),
          (_, x) => Window(x, k, size))
  }

  lemma ProbeShows(c: Cipher, k: nat, typ: byte, fragment: seq<byte>)
    requires c.suite.size == 16 || c.suite.size == 20
    requires k < |Authenticated(c, typ, fragment)|
    ensures Sized(Probe(|c.macKey|, c.suite.size, k))
    ensures var mac := RecordMAC(c.(suite := Probe(|c.macKey|, c.suite.size, k)), typ, fragment);
            |mac| == c.suite.size && mac[0] == Authenticated(c, typ, fragment)[k]
  {
    hide PutUint64, PutUint16;
    var x := Authenticated(c, typ, fragment);
    if c.version == SSL30 {
      var pad := if c.suite.size == 16 then 48 else 40;
      var length := PutUint16(|fragment| % 0x1_0000);
      var m := c.macKey + Repeat(0x36, pad) + PutUint64(c.seqNo) + [typ] + length + fragment;
      assert m == c.macKey + Repeat(0x36, pad) + x;
      assert m[|c.macKey|] == 0x36 && m[|c.macKey| + pad + k] == x[k];
      var inner := Window(m, |c.macKey| + pad + k, c.suite.size);
      var m' := c.macKey + Repeat(0x5c, pad) + inner;
      assert m'[|c.macKey|] == 0x5c && m'[|c.macKey| + pad] == inner[0];
    }
  }

  lemma DifferSomewhere(a: seq<byte>, b: seq<byte>) returns (k: nat)
    requires |a| == |b| && a != b
    ensures k < |a| && a[k] != b[k]
  {
    k :| 0 <= k < |a| && a[k] != b[k];
  }

  /** Different sequence numbers, types or fragments are authenticated differently, already where
      both have bytes. */
  lemma AuthenticatedDiffer(c: Cipher, typ: byte, fragment: seq<byte>, c': Cipher, typ': byte, fragment': seq<byte>) returns (k: nat)
    requires c' == c.(seqNo := c'.seqNo) && c.seqNo < TWO_64 && c'.seqNo < TWO_64
    requires |fragment| < 0x1_0000 && |fragment'| < 0x1_0000
    requires c.seqNo != c'.seqNo || typ != typ' || fragment != fragment'
    ensures k < |Authenticated(c, typ, fragment)| && k < |Authenticated(c', typ', fragment')|
    ensures Authenticated(c, typ, fragment)[k] != Authenticated(c', typ', fragment')[k]
  {
    hide PutUint64, PutUint16;
    var a, b := Authenticated(c, typ, fragment), Authenticated(c', typ', fragment');
    var n := if c.version == SSL30 then 9 else 11;
    AuthenticatedParts(c, typ, fragment);
    AuthenticatedParts(c', typ', fragment');
    if c.seqNo != c'.seqNo {
      Uint64IsBigEndian(c.seqNo);
      Uint64IsBigEndian(c'.seqNo);
      k := DifferSomewhere(a[..8], b[..8]);
    } else if typ != typ' {
      k := 8;
    } else if |fragment| != |fragment'| {
      Uint16IsBigEndian(|fragment|);
      Uint16IsBigEndian(|fragment'|);
      var j := DifferSomewhere(a[n..n + 2], b[n..n + 2]);
      k := n + j;
    } else {
      var j := DifferSomewhere(fragment, fragment');
      k := n + 2 + j;
      assert a[n + 2..][j] == a[k] && b[n + 2..][j] == b[k];
    }
  }

  lemma AuthenticatedParts(c: Cipher, typ: byte, fragment: seq<byte>)
    requires |fragment| < 0x1_0000
    ensures var a := Authenticated(c, typ, fragment);
            var n := if c.version == SSL30 then 9 else 11;
            && |a| == n + 2 + |fragment| && a[..8] == PutUint64(c.seqNo) && a[8] == typ
            && a[n..n + 2] == PutUint16(|fragment|) && a[n + 2..] == fragment
  {
    hide PutUint64, PutUint16;
  }

  /** No part can be left out of the MAC: for every two records that differ in sequence number, type
      or plaintext there is a suite of the same size under which the one's MAC on the other, properly
      encrypted, is refused. So a replayed record is, one sent under another type, and one whose
      plaintext was changed. */
  lemma ForgeryIsRefused(c: Cipher, typ: byte, plain: seq<byte>, c': Cipher, typ': byte, plain': seq<byte>,
                         version: uint16, first: bool, rest: seq<byte>) returns (suite: Suite)
    requires c.active && (c.suite.size == 16 || c.suite.size == 20)
    requires c' == c.(seqNo := c'.seqNo) && c.seqNo < TWO_64 && c'.seqNo < TWO_64
    requires |plain| <= MAX_PLAIN && |plain'| <= MAX_PLAIN
    requires c.seqNo != c'.seqNo || typ != typ' || plain != plain'
    ensures Sized(suite) && suite.size == c.suite.size
    ensures var body := Crypt(c'.(suite := suite), plain' + RecordMAC(c.(suite := suite), typ, plain));
            Open(c'.(suite := suite), version, first, RawRecord(version, typ', body) + rest) == BadMAC
  {
    hide RecordMAC, Crypt, Authenticated, RawRecord, Sized, Probe;
    var k := AuthenticatedDiffer(c, typ, plain, c', typ', plain');
    suite := Probe(|c.macKey|, c.suite.size, k);
    ProbeShows(c, k, typ, plain);
    ProbeShows(c', k, typ', plain');
    var mac, r := RecordMAC(c.(suite := suite), typ, plain), c'.(suite := suite);
    ProbeSize(|c.macKey|, c.suite.size, k);
    CryptTwice(r, plain' + mac);
    var body := Crypt(r, plain' + mac);
    RecordLayout(version, typ', body, rest);
    assert (plain' + mac)[|plain'|..] == mac && (plain' + mac)[..|plain'|] == plain';
  }

  lemma ProbeSize(key: nat, size: nat, k: nat)
    ensures Probe(key, size, k).size == size
  {
  }

  // ---- headers ---------------------------------------------------------------------------------

  /** A record is its type, version and length, most significant byte first, and its body. */
  lemma RecordHeader(version: uint16, typ: byte, body: seq<byte>)
    requires |body| < 0x1_0000
    ensures var b := RawRecord(version, typ, body);
            |b| == 5 + |body| && b[0] == typ && Number(b[1..3]) == version && Number(b[3..5]) == |body| && b[5..] == body
  {
    hide PutUint16;
    var b := RawRecord(version, typ, body);
    Uint16IsBigEndian(version);
    Uint16IsBigEndian(|body|);
    assert b[1..3] == PutUint16(version) && b[3..5] == PutUint16(|body|);
  }

  /** A handshake message is its type, its 24-bit length, and its body. */
  lemma MessageHeader(typ: byte, body: seq<byte>)
    requires |body| < 0x100_0000
    ensures var b := Message(typ, body);
            |b| == 4 + |body| && b[0] == typ && Number(b[1..4]) == |body| && b[4..] == body
  {
    var b := Message(typ, body);
    ThreeBytes(|body|);
    NumberThree(b[1..4]);
  }
}
