/** Field tags: up to four characters packed into 24 bits, six bits each, most significant first. */
module TdfTags {
  import opened Bytes
  import opened Ordering

  function Upper(c: byte): byte
  {
    if 0x61 <= c <= 0x7a then c - 0x20 else c
  }

  function SixBits(c: byte): (bits: byte)
    ensures bits < 0x40
  {
    (Upper(c) - 0x20) % 0x40
  }

  /** The weight of the last of `places` six-bit digits' leading neighbour: 64 to that power. */
  function Weight(places: nat): (w: nat)
    ensures w >= 1
  {
    if places == 0 then 1 else 0x40 * Weight(places - 1)
  }

  /** The first `places` characters as base-64 digits; missing characters count as zero digits. */
  function Pack(tag: Text, places: nat): nat
  {
    if places == 0 || tag == [] then 0
    else SixBits(tag[0]) as nat * Weight(places - 1) + Pack(tag[1..], places - 1)
  }

  /** The characters before the first zero digit. */
  function Unpack(packed: nat, places: nat): Text
  {
    if places == 0 then []
    else
      var digit := packed / Weight(places - 1) % 0x40;
      if digit == 0 then [] else [digit + 0x20] + Unpack(packed % Weight(places - 1), places - 1)
  }

  /** encodeTag: the three high bytes of the packed word. */
  function EncodeTag(tag: Text): (b: seq<byte>)
    ensures |b| == 3
  {
    PackBound(tag, 4);
    var packed := Pack(tag, 4);
    [packed / 0x1_0000, packed / 0x100 % 0x100, packed % 0x100]
  }

  function DecodeTag(buffer: seq<byte>): Text
  {
    if |buffer| < 3 then []
    else Unpack(buffer[0] as int * 0x1_0000 + buffer[1] as int * 0x100 + buffer[2] as int, 4)
  }

  /** A tag that packs without loss: at most four characters, each with a nonzero six-bit code. */
  predicate IsTag(tag: Text)
  {
    |tag| <= 4 && forall i | 0 <= i < |tag| :: 0x21 <= tag[i] <= 0x5f
  }

  /** A struct field's tag: its first byte on the wire has the top bit set, which sets it apart
      from a terminator and from a polymorphic arm. */
  predicate IsFieldTag(tag: Text)
  {
    IsTag(tag) && tag != [] && tag[0] >= 0x40
  }

  lemma {:induction false} PackBound(tag: Text, places: nat)
    ensures Pack(tag, places) < Weight(places)
    ensures Weight(4) == 0x100_0000
  {
    if places > 0 && tag != [] {
      PackBound(tag[1..], places - 1);
      DigitBound(SixBits(tag[0]), Weight(places - 1));
    }
    assert Weight(2) == 0x1000;
  }

  lemma DigitBound(digit: nat, weight: nat)
    requires digit < 0x40
    ensures digit * weight + weight <= 0x40 * weight
  {
  }

  lemma DigitOut(digit: nat, weight: nat, rest: nat)
    requires rest < weight
    ensures (digit * weight + rest) / weight == digit && (digit * weight + rest) % weight == rest
  {
    var n := digit * weight + rest;
    QuotientIsUnique(n, weight, digit, rest, n / weight, n % weight);
  }

  lemma QuotientIsUnique(n: nat, weight: nat, q: nat, r: nat, q': nat, r': nat)
    requires r < weight && r' < weight
    requires n == q * weight + r == q' * weight + r'
    ensures q == q' && r == r'
  {
    Apart(weight, q, q');
    Apart(weight, q', q);
  }

  lemma Apart(weight: nat, q: nat, q': nat)
    ensures q < q' ==> q * weight + weight <= q' * weight
  {
    if q < q' {
      assert (q + 1) * weight <= q' * weight;
    }
  }

  lemma {:induction false} UnpackPack(tag: Text, places: nat)
    requires |tag| <= places && forall i | 0 <= i < |tag| :: 0x21 <= tag[i] <= 0x5f
    ensures Unpack(Pack(tag, places), places) == tag
  {
    hide Pack, Unpack, Weight, SixBits;
    if tag == [] {
      UnpackZero(places);
    } else {
      UnpackPack(tag[1..], places - 1);
      UnpackStep(tag, places);
      assert tag == [tag[0]] + tag[1..];
    }
  }

  lemma UnpackZero(places: nat)
    ensures Unpack(Pack([], places), places) == []
  {
    if places > 0 {
      assert 0 / Weight(places - 1) == 0;
    }
  }

  /** The first digit comes out as the first character and leaves the rest. */
  lemma UnpackStep(tag: Text, places: nat)
    requires tag != [] && places > 0 && 0x21 <= tag[0] <= 0x5f
    ensures Unpack(Pack(tag, places), places) == [tag[0]] + Unpack(Pack(tag[1..], places - 1), places - 1)
  {
    PackBound(tag[1..], places - 1);
    var digit, weight, rest := SixBits(tag[0]), Weight(places - 1), Pack(tag[1..], places - 1);
    DigitOut(digit, weight, rest);
    PackedDigit(tag, places);
    hide Pack, Weight;
    assert digit != 0 && digit + 0x20 == tag[0];
  }

  lemma PackedDigit(tag: Text, places: nat)
    requires tag != [] && places > 0
    ensures Pack(tag, places) == SixBits(tag[0]) as nat * Weight(places - 1) + Pack(tag[1..], places - 1)
  {
  }

  /** Decoding undoes encoding, whatever bytes come after the three. */
  lemma {:induction false} TagRoundTrip(tag: Text, suffix: seq<byte>)
    requires IsTag(tag)
    ensures DecodeTag(EncodeTag(tag) + suffix) == tag
  {
    hide Pack, Unpack;
    PackBound(tag, 4);
    UnpackPack(tag, 4);
    ThreeBytes(Pack(tag, 4));
    var b := EncodeTag(tag) + suffix;
    assert b[0] == EncodeTag(tag)[0] && b[1] == EncodeTag(tag)[1] && b[2] == EncodeTag(tag)[2];
  }

  lemma {:induction false} FieldTagTopBit(tag: Text)
    requires IsFieldTag(tag)
    ensures EncodeTag(tag)[0] >= 0x80
  {
    PackBound(tag, 4);
    assert Weight(3) == 0x4_0000 by { assert Weight(2) == 0x1000; }
    assert Pack(tag, 4) >= SixBits(tag[0]) as nat * 0x4_0000;
  }

  lemma CodesInOrder(c: byte, d: byte)
    requires 0x21 <= c <= d <= 0x5f
    ensures 0 < SixBits(c) <= SixBits(d) && (c < d ==> SixBits(c) < SixBits(d))
  {
  }

  lemma LeadingDigitDecides(weight: nat, c: nat, x: nat, d: nat, y: nat)
    requires x < weight && c < d
    ensures c * weight + x < d * weight + y
  {
    Apart(weight, c, d);
  }

  /** Packing embeds the order of strings into the order of numbers. */
  lemma {:induction false} PackMonotone(a: Text, b: Text, places: nat)
    requires |a| <= places && |b| <= places && Less(a, b)
    requires forall i | 0 <= i < |a| :: 0x21 <= a[i] <= 0x5f
    requires forall i | 0 <= i < |b| :: 0x21 <= b[i] <= 0x5f
    ensures Pack(a, places) < Pack(b, places)
  {
    var w := Weight(places - 1);
    CodesInOrder(b[0], b[0]);
    if a == [] {
      LeadingDigitDecides(w, 0, 0, SixBits(b[0]), Pack(b[1..], places - 1));
    } else {
      PackBound(a[1..], places - 1);
      if a[0] < b[0] {
        CodesInOrder(a[0], b[0]);
        LeadingDigitDecides(w, SixBits(a[0]), Pack(a[1..], places - 1), SixBits(b[0]), Pack(b[1..], places - 1));
      } else {
        PackMonotone(a[1..], b[1..], places - 1);
      }
    }
  }

  /** Tags compare on the wire, as 24-bit numbers, exactly as they compare as strings. */
  lemma {:induction false} TagOrder(a: Text, b: Text)
    requires IsTag(a) && IsTag(b)
    ensures Less(a, b) <==> Pack(a, 4) < Pack(b, 4)
  {
    Trichotomy(a, b);
    if Less(a, b) {
      PackMonotone(a, b, 4);
    } else if Less(b, a) {
      PackMonotone(b, a, 4);
    }
  }
}
