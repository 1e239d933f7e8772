/** The format itself, bit by bit, independent of the functions that produce it. */
module TdfWire {
  import opened Bytes
  import opened TdfValues
  import opened TdfTags
  import opened TdfEncoder
  import opened TdfDecoder
  import opened TdfRoundTrip
  import opened TdfReencode
  import Varint = TdfVarint

  // ---- integers ------------------------------------------------------------------------------

  /** The number that groups of seven bits spell, least significant group first. */
  function Groups(b: seq<byte>): nat
  {
    if b == [] then 0 else b[0] as int % 0x80 + 0x80 * Groups(b[1..])
  }

  lemma {:induction false} RestBits(remaining: nat)
    ensures var b := Varint.EncodeRest(remaining);
            && Groups(b) == remaining
            && (forall i | 0 <= i < |b| :: b[i] >= 0x80 <==> i < |b| - 1)
  {
    if remaining > 0 {
      RestBits(remaining / 0x80);
      var b, rest := Varint.EncodeRest(remaining), Varint.EncodeRest(remaining / 0x80);
      assert b[1..] == rest;
      assert rest == [] <==> remaining / 0x80 == 0;
      assert forall i | 1 <= i < |b| :: b[i] == rest[i - 1];
    }
  }

  /** An integer is six bits of magnitude, the sign in bit 6, then groups of seven bits; bit 7 is set
      on every byte but the last. */
  lemma IntegerBits(v: int64)
    ensures var b := Varint.Encode(v);
            && b != []
            && (v >= 0 ==> v == b[0] as int % 0x40 + 0x40 * Groups(b[1..]))
            && (v < 0 ==> -(v as int) == b[0] as int % 0x40 + 0x40 * Groups(b[1..]))
            && (v < 0 <==> b[0] / 0x40 % 2 == 1)
            && (forall i | 0 <= i < |b| :: b[i] >= 0x80 <==> i < |b| - 1)
  {
    var n := Varint.Abs(v);
    RestBits(n / 0x40);
    var b := Varint.Encode(v);
    assert b[1..] == Varint.EncodeRest(n / 0x40);
    Varint.FirstByteFields(v);
    assert Varint.EncodeRest(n / 0x40) == [] <==> n / 0x40 == 0;
    assert forall i | 1 <= i < |b| :: b[i] == Varint.EncodeRest(n / 0x40)[i - 1];
  }

  // ---- tags ----------------------------------------------------------------------------------

  /** The six-bit code of a tag's character; zero past its end. */
  function Code(tag: Text, i: nat): nat
    requires IsTag(tag)
  {
    if i < |tag| then tag[i] - 0x20 else 0
  }

  /** A tag is four six-bit codes, the first most significant, in three bytes. */
  lemma TagBits(tag: Text)
    requires IsTag(tag)
    ensures Number(EncodeTag(tag)) == Code(tag, 0) * 0x4_0000 + Code(tag, 1) * 0x1000 + Code(tag, 2) * 0x40 + Code(tag, 3)
  {
    PackBound(tag, 4);
    var b := EncodeTag(tag);
    ThreeBytes(Pack(tag, 4));
    NumberTwo([b[0]], b[1], b[2]);
    NumberMore([], b[0]);
    assert [] + [b[0]] == [b[0]] && b == [b[0]] + [b[1], b[2]] && Number([]) == 0;
    PackCodes(tag);
  }

  lemma PackCodes(tag: Text)
    requires IsTag(tag)
    ensures Pack(tag, 4) == Code(tag, 0) * 0x4_0000 + Code(tag, 1) * 0x1000 + Code(tag, 2) * 0x40 + Code(tag, 3)
  {
    assert Weight(0) == 1 && Weight(1) == 0x40 && Weight(2) == 0x1000 && Weight(3) == 0x4_0000;
    hide Weight, SixBits;
    PackHead(tag, 4);
    if |tag| > 0 {
      CodeIs(tag, 0);
      PackHead(tag[1..], 3);
    }
    if |tag| > 1 {
      CodeIs(tag, 1);
      assert tag[1..][1..] == tag[2..];
      PackHead(tag[2..], 2);
    }
    if |tag| > 2 {
      CodeIs(tag, 2);
      assert tag[2..][1..] == tag[3..];
      PackHead(tag[3..], 1);
    }
    if |tag| > 3 {
      CodeIs(tag, 3);
      assert tag[3..][1..] == [];
      PackHead([], 0);
    }
  }

  lemma PackHead(tag: Text, places: nat)
    ensures Pack(tag, places) == if tag == [] || places == 0 then 0 else SixBits(tag[0]) as nat * Weight(places - 1) + Pack(tag[1..], places - 1)
  {
  }

  lemma CodeIs(tag: Text, i: nat)
    requires IsTag(tag) && i < |tag|
    ensures SixBits(tag[i]) == Code(tag, i)
  {
  }

  /** Lower-case letters are written as upper-case ones. */
  lemma {:induction false} TagsIgnoreCase(a: Text, b: Text, places: nat)
    requires |a| == |b| && forall i | 0 <= i < |a| :: a[i] == b[i] || (0x61 <= a[i] <= 0x7a && b[i] == a[i] - 0x20)
    ensures Pack(a, places) == Pack(b, places)
    ensures places == 4 ==> EncodeTag(a) == EncodeTag(b)
    decreases |a|
  {
    hide Weight;
    if a != [] && places > 0 {
      TagsIgnoreCase(a[1..], b[1..], places - 1);
    }
  }

  // ---- values --------------------------------------------------------------------------------

  /** A field is its tag, a type code, and a body in that type's shape. */
  lemma FieldShapes(v: Value, tag: Text)
    requires v.HasFields() && Encodable(v) && tag in v.fields && !IsEmptyCollection(v.fields[tag])
    ensures Encodable(v.fields[tag])
    ensures var f := v.fields[tag];
            var b := Field(v, tag);
            && |b| >= 4 && b[..3] == EncodeTag(tag)
            && var code, body := b[3], b[4..];
            && (f.Integer? ==> code == 0 && body == Varint.Encode(f.int_))
            && (f.Boolean? ==> code == 0 && body == [if f.bool_ then 1 else 0])
            && (f.Str? ==> code == 1 && body == Varint.Encode(|f.text| + 1) + f.text + [0])
            && (f.Blob? ==> code == 2 && body == Varint.Encode(|f.bytes|) + f.bytes)
            && (f.Struct? ==> code == 3 && body == EncodeStruct(f, false))
            && (f.ArmedStruct? ==> code == 3 && body == [f.arm] + EncodeStruct(f, false))
            && (f.List? || f.TypedList? ==> code == 4)
            && (f.Map? ==> code == 5)
            && (f.Union? ==> code == 6 && body != [] && body[0] == f.activeMember)
            && (f.Variable? ==> code == 7 && body != [] && (body[0] == 0 <==> f.value == Nil))
            && (f.ObjectType? ==> code == 8 && body == Varint.Encode(f.component) + Varint.Encode(f.typ))
            && (f.ObjectID? ==> code == 9 && body == Varint.Encode(f.component) + Varint.Encode(f.typ) + Varint.Encode(f.id))
            && (f.Float? ==> code == 10 && |body| == 4 && Number(body) == f.bits)
  {
    var f := v.fields[tag];
    FieldOf(v, tag);
    SmallIntegers();
    hide Encodable, EncodeTag, Field, Varint.Encode, EncodeStruct, PutUint32;
    if f.Float? {
      Uint32IsBigEndian(f.bits);
    }
    assert Field(v, tag)[..3] == EncodeTag(tag) && Field(v, tag)[3] == TypeByte(f) && Field(v, tag)[4..] == Body(f);
  }

  lemma SmallIntegers()
    ensures Varint.Encode(0) == [0] && Varint.Encode(1) == [1]
  {
  }

  /** A list announces its elements' type and number, then has their bodies, in order. */
  lemma ListShape(v: Value)
    requires (v.List? || v.TypedList?) && v.items != [] && WellFormed(v) && Encodable(v)
    ensures forall i | 0 <= i < |v.items| :: Encodable(v.items[i])
    ensures Body(v) == [TypeByte(v.items[0])] + Varint.Encode(|v.items|) + Concat(v.items)
  {
    ConcatIsItems(v.items);
  }

  function Concat(items: seq<Value>): seq<byte>
    requires forall i | 0 <= i < |items| :: Encodable(items[i])
  {
    if items == [] then [] else Concat(items[..|items| - 1]) + Body(items[|items| - 1])
  }

  lemma {:induction false} ConcatIsItems(items: seq<Value>)
    requires forall i | 0 <= i < |items| :: Encodable(items[i])
    ensures Concat(items) == Items(items)
    decreases |items|
  {
    hide Encodable, Body;
    if items != [] {
      var init, last := items[..|items| - 1], items[|items| - 1];
      ConcatIsItems(init);
      ItemsAppend(init, last);
      assert items == init + [last];
    }
  }

  lemma {:induction false} ItemsAppend(items: seq<Value>, last: Value)
    requires Encodable(last) && forall i | 0 <= i < |items| :: Encodable(items[i])
    ensures Items(items + [last]) == Items(items) + Body(last)
    decreases |items|
  {
    hide Encodable, Body;
    var more := items + [last];
    if items == [] {
      assert more[1..] == [] && Items([]) == [];
    } else {
      assert more[1..] == items[1..] + [last] && more[0] == items[0];
      ItemsAppend(items[1..], last);
    }
  }

  // ---- reading -------------------------------------------------------------------------------

  /** A type code decides what is read: time values are integers and generics variables, which the
      encoder never writes, and codes above 12 are refused. */
  lemma CodesDecide(typ: byte, b: seq<byte>)
    ensures ReadValue(11, b) == ReadValue(0, b) && ReadValue(12, b) == ReadValue(7, b)
    ensures typ > 12 ==> ReadValue(typ, b) == Fail(Nil)
    ensures ReadValue(typ, b).Ok? ==>
              var v := ReadValue(typ, b).value;
              && (v.Integer? <==> typ == 0 || typ == 11) && (v.Str? <==> typ == 1) && (v.Blob? <==> typ == 2)
              && (v.Struct? <==> typ == 3) && (v.List? <==> typ == 4) && (v.Map? <==> typ == 5) && (v.Union? <==> typ == 6)
              && (v.Variable? <==> typ == 7 || typ == 12) && (v.ObjectType? <==> typ == 8) && (v.ObjectID? <==> typ == 9)
              && (v.Float? <==> typ == 10)
  {
    hide ReadItems, ReadEntries, ReadElement, ReadFields, ReadLength, Varint.Decode;
  }

  // ---- malformed input -----------------------------------------------------------------------

  /** Lengths: a string shorter than its terminator fails, a negative blob length panics, and both
      fail when the buffer is too short. */
  lemma BadLengths(n: int64, rest: seq<byte>)
    requires n < MAX_LENGTH
    ensures n < 1 ==> ReadString(Varint.Encode(n) + rest) == Fail(Nil)
    ensures n < 0 ==> ReadBlob(Varint.Encode(n) + rest) == Panic
    ensures n >= 1 && |rest| < n as int ==> ReadString(Varint.Encode(n) + rest) == Fail(Nil)
    ensures n >= 0 && |rest| < n as int ==> ReadBlob(Varint.Encode(n) + rest) == Fail(Nil)
  {
    Varint.RoundTrip(n, rest);
    Varint.LengthBounds(n);
    hide Varint.Encode, Varint.Decode;
  }

  /** Counts: a negative list count panics, a negative map count reads as an empty map. */
  lemma BadCounts(elemType: byte, valType: byte, n: int64, rest: seq<byte>)
    requires n < 0
    ensures ReadList([elemType] + Varint.Encode(n) + rest) == Panic
    ensures ReadMap([elemType, valType] + Varint.Encode(n) + rest) == Ok(Map(map[]), 2 + |Varint.Encode(n)|)
  {
    Varint.RoundTrip(n, rest);
    hide Varint.Encode, Varint.Decode;
    var list, entries := [elemType] + Varint.Encode(n) + rest, [elemType, valType] + Varint.Encode(n) + rest;
    assert list[1..] == Varint.Encode(n) + rest && entries[2..] == Varint.Encode(n) + rest;
  }

  /** A struct ends with its terminator, leaving what follows, or with its buffer; one cut inside a
      field's first four bytes fails, and what was read is what it fails with. */
  lemma StructEnds(out: map<Text, Value>, rest: seq<byte>, cut: seq<byte>)
    requires 0 < |cut| < 4 && cut[0] != 0
    ensures ReadFields(out, []) == Ok(out, 0) && ReadFields(out, [0] + rest) == Ok(out, 1) && ReadFields(out, cut) == Fail(out)
  {
  }

  /** A variable without its terminator reads the same, and what follows is left. */
  lemma UnterminatedVariables(id: uint32, field: Text, typ: byte, body: seq<byte>, v: Value, suffix: seq<byte>)
    requires IsTag(field) && ReadValue(typ, body + suffix) == Ok(v, |body|)
    requires suffix == [] || suffix[0] != 0
    ensures var encoded := [1] + Varint.Encode(id) + (EncodeTag(field) + [typ] + body);
            ReadVariable(encoded + suffix) == Ok(Variable(id, field, v), |encoded|)
  {
    hide ReadValue, EncodeTag, Varint.Encode, Varint.Decode, IsTag, ReadElement;
    var head, element := Varint.Encode(id), EncodeTag(field) + [typ] + body;
    ElementReads(field, typ, body, v, suffix);
    Varint.RoundTrip(id, element + suffix);
    var buffer := [1] + head + element + suffix;
    assert buffer[1..] == head + (element + suffix);
    assert buffer[1 + |head|..] == element + suffix;
    if suffix != [] {
      assert buffer[1 + |head| + |element|] == suffix[0];
    }
  }
}
