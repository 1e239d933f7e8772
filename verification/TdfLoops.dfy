/** The codec as the source runs it: loops over the buffer and over growing output, each proved to
    compute its function. */
module TdfLoops {
  import opened Bytes
  import opened TdfValues
  import opened TdfTags
  import opened TdfEncoder
  import opened TdfDecoder
  import Varint = TdfVarint

  // ---- integers ----------------------------------------------------------------------------

  method EncodeVarsizeInteger(value: int64) returns (out: seq<byte>)
    ensures out == Varint.Encode(value)
  {
    var negative := value < 0;
    var remaining: nat := Varint.Abs(value);
    var firstByte := remaining % 0x40 + if negative then 0x40 else 0;
    remaining := remaining / 0x40;
    if remaining > 0 {
      firstByte := firstByte + 0x80;
    }
    out := [firstByte];
    while remaining > 0
      invariant out + Varint.EncodeRest(remaining) == Varint.Encode(value)
    {
      var nextByte := remaining % 0x80;
      remaining := remaining / 0x80;
      if remaining > 0 {
        nextByte := nextByte + 0x80;
      }
      out := out + [nextByte];
    }
  }

  method DecodeVarsizeInteger(buffer: seq<byte>) returns (value: int64, read: nat)
    ensures (value, read) == Varint.Decode(buffer)
  {
    if |buffer| == 0 {
      return 0, 0;
    }
    var firstByte := buffer[0];
    var magnitude: nat := firstByte % 0x40;
    read := 1;
    if firstByte >= 0x80 {
      var shift: nat := 6;
      ghost var whole := Varint.DecodeRest(magnitude, 6, buffer[1..]);
      assert Varint.Magnitude(buffer) == (whole.0, 1 + whole.1);
      var more := true;
      while more && read < |buffer|
        invariant 1 <= read <= |buffer|
        invariant more ==> var (m, n) := Varint.DecodeRest(magnitude, shift, buffer[read..]); whole == (m, read - 1 + n)
        invariant !more ==> whole == (magnitude, read - 1)
        decreases |buffer| - read, more
      {
        var nextByte := buffer[read];
        assert buffer[read..][1..] == buffer[read + 1..];
        magnitude := magnitude + (nextByte as int % 0x80) * Varint.Pow2(shift) % TWO_64;
        read := read + 1;
        if nextByte < 0x80 {
          more := false;
        } else {
          shift := shift + 7;
        }
      }
      assert more ==> buffer[read..] == [];
    }
    value := Varint.Signed(firstByte, magnitude);
  }

  // ---- tags --------------------------------------------------------------------------------

  method EncodeTagBytes(tag: Text) returns (b: seq<byte>)
    ensures b == EncodeTag(tag)
  {
    hide Pack, Weight, SixBits;
    var packed: nat := 0;
    var i := 0;
    assert tag[0..] == tag;
    while i < |tag| && i < 4
      invariant 0 <= i <= 4 && i <= |tag|
      invariant packed + Pack(tag[i..], 4 - i) == Pack(tag, 4)
    {
      PackStep(tag, i);
      packed := packed + SixBits(tag[i]) as nat * Weight(3 - i);
      i := i + 1;
    }
    PackNothing(tag, i);
    PackBound(tag, 4);
    b := [packed / 0x1_0000, packed / 0x100 % 0x100, packed % 0x100];
  }

  lemma PackStep(tag: Text, i: nat)
    requires i < |tag| && i < 4
    ensures Pack(tag[i..], 4 - i) == SixBits(tag[i]) as nat * Weight(3 - i) + Pack(tag[i + 1..], 3 - i)
  {
    assert tag[i..][1..] == tag[i + 1..];
  }

  lemma PackNothing(tag: Text, i: nat)
    requires i <= |tag| && i <= 4
    ensures i == 4 || i == |tag| ==> Pack(tag[i..], 4 - i) == 0
  {
  }

  /** The six-bit digit at a place, most significant first. */
  function Digit(packed: nat, place: nat): nat
    requires place < 4
  {
    packed / Weight(3 - place) % 0x40
  }

  method DecodeTagBytes(buffer: seq<byte>) returns (tag: Text)
    ensures tag == DecodeTag(buffer)
  {
    if |buffer| < 3 {
      return [];
    }
    var packed: nat := buffer[0] as int * 0x1_0000 + buffer[1] as int * 0x100 + buffer[2] as int;
    var buf := new byte[4](_ => 0);
    var size, rest, i := 4, packed, 3;
    Places(packed);
    while i >= 0
      invariant -1 <= i <= 3 && i < size <= 4
      invariant i >= 0 ==> rest % 0x40 == Digit(packed, i)
      invariant i >= 1 ==> rest / 0x40 % 0x40 == Digit(packed, i - 1)
      invariant i >= 2 ==> rest / 0x40 / 0x40 % 0x40 == Digit(packed, i - 2)
      invariant i >= 3 ==> rest / 0x40 / 0x40 / 0x40 % 0x40 == Digit(packed, i - 3)
      invariant forall k | i < k < size :: Digit(packed, k) != 0 && buf[k] == Digit(packed, k) + 0x20
      invariant size < 4 ==> Digit(packed, size) == 0
    {
      var sixbits := rest % 0x40;
      if sixbits != 0 {
        buf[i] := sixbits + 0x20;
      } else {
        buf[i] := 0;
        size := i;
      }
      rest := rest / 0x40;
      i := i - 1;
    }
    UnpackIs(packed, buf[..size], size);
    return buf[..size];
  }

  lemma Places(packed: nat)
    requires packed < 0x100_0000
    ensures packed % 0x40 == Digit(packed, 3)
    ensures packed / 0x40 % 0x40 == Digit(packed, 2)
    ensures packed / 0x40 / 0x40 % 0x40 == Digit(packed, 1)
    ensures packed / 0x40 / 0x40 / 0x40 % 0x40 == Digit(packed, 0)
  {
    assert Weight(2) == 0x1000 && Weight(1) == 0x40 && Weight(3) == 0x4_0000;
  }

  /** The digits up to the first zero are what Unpack finds. */
  lemma UnpackIs(packed: nat, chars: seq<byte>, size: nat)
    requires |chars| == size <= 4
    requires forall k | 0 <= k < size :: Digit(packed, k) != 0 && chars[k] == Digit(packed, k) + 0x20
    requires size < 4 ==> Digit(packed, size) == 0
    ensures Unpack(packed, 4) == chars
  {
    UnpackFrom(packed, chars, packed, 0);
    assert chars[0..] == chars;
  }

  lemma {:induction false} UnpackFrom(packed: nat, chars: seq<byte>, rest: nat, i: nat)
    requires i <= |chars| <= 4
    requires forall k | 0 <= k < |chars| :: Digit(packed, k) != 0 && chars[k] == Digit(packed, k) + 0x20
    requires |chars| < 4 ==> Digit(packed, |chars|) == 0
    requires forall k | i <= k < 4 :: Digit(rest, k) == Digit(packed, k)
    ensures Unpack(rest, 4 - i) == chars[i..]
    decreases 4 - i
  {
    if i < 4 {
      assert Digit(rest, i) == rest / Weight(4 - i - 1) % 0x40;
      if i < |chars| {
        forall k | i + 1 <= k < 4
          ensures Digit(rest % Weight(3 - i), k) == Digit(packed, k)
        {
          LowerDigit(rest, i, k);
        }
        UnpackFrom(packed, chars, rest % Weight(3 - i), i + 1);
        assert chars[i..] == [chars[i]] + chars[i + 1..];
      }
    }
  }

  /** Dropping higher digits leaves the lower ones. */
  lemma LowerDigit(n: nat, i: nat, k: nat)
    requires i < k < 4
    ensures Digit(n % Weight(3 - i), k) == Digit(n, k)
  {
    assert Weight(0) == 1 && Weight(1) == 0x40 && Weight(2) == 0x1000 && Weight(3) == 0x4_0000;
    if k == 3 {
      Last(n, Weight(3 - i) / 0x40);
    } else if k == 2 {
      Third(n, i);
    } else {
      Second(n);
    }
  }

  lemma Last(n: nat, t: nat)
    requires t == 1 || t == 0x40 || t == 0x1000
    ensures n % (0x40 * t) % 0x40 == n % 0x40
  {
    if t == 0x40 {
      Multiple(0x40 * (n / 0x1000), n % 0x1000);
    } else if t == 0x1000 {
      Multiple(0x1000 * (n / 0x4_0000), n % 0x4_0000);
    }
  }

  lemma Third(n: nat, i: nat)
    requires i < 2
    ensures n % (if i == 0 then 0x4_0000 else 0x1000) / 0x40 % 0x40 == n / 0x40 % 0x40
  {
    if i == 0 {
      ThirdOfFour(n);
    } else {
      var a, r := n / 0x1000, n % 0x1000;
      assert n / 0x40 == a * 0x40 + r / 0x40;
    }
  }

  lemma ThirdOfFour(n: nat)
    ensures n % 0x4_0000 / 0x40 % 0x40 == n / 0x40 % 0x40
  {
    var a, x := n / 0x4_0000, n % 0x4_0000 / 0x40;
    assert n / 0x40 == 0x40 * (a * 0x40) + x;
    Multiple(a * 0x40, x);
  }

  lemma Multiple(q: nat, x: nat)
    ensures (0x40 * q + x) % 0x40 == x % 0x40
  {
  }

  lemma Second(n: nat)
    ensures n % 0x4_0000 / 0x1000 % 0x40 == n / 0x1000 % 0x40
  {
    var a, r := n / 0x4_0000, n % 0x4_0000;
    assert n / 0x1000 == a * 0x40 + r / 0x1000;
  }

  // ---- the decoder -------------------------------------------------------------------------

  /** readValue. Its structs, lists and maps are the loops below. */
  method DecodeValue(typ: byte, buf: seq<byte>) returns (r: Read<Value>)
    ensures r == ReadValue(typ, buf)
    decreases |buf|, 2, 0
  {
    hide ReadStruct, ReadList, ReadMap, ReadUnion, ReadVariable, ReadString, ReadBlob, ReadObjectType, ReadObjectID, Varint.Decode;
    if typ == 0 || typ == 11 {
      var n, read := DecodeVarsizeInteger(buf);
      r := Ok(Integer(n), read);
    } else if typ == 1 {
      r := DecodeString(buf);
    } else if typ == 2 {
      r := DecodeBlob(buf);
    } else if typ == 3 {
      var fields := DecodeStruct(buf);
      match fields
      case Panic => return Panic;
      case Fail(_) => return Fail(Nil);
      case Ok(m, read) => return Ok(Struct(m), read);
    } else if typ == 4 {
      r := DecodeList(buf);
    } else if typ == 5 {
      r := DecodeMap(buf);
    } else if typ == 6 {
      r := DecodeUnion(buf);
    } else if typ == 7 || typ == 12 {
      r := DecodeVariable(buf);
    } else if typ == 8 {
      r := DecodeObjectType(buf);
    } else if typ == 9 {
      r := DecodeObjectID(buf);
    } else if typ == 10 {
      r := if |buf| < 4 then Fail(Nil) else Ok(Float(GetUint32(buf[..4])), 4);
    } else {
      r := Fail(Nil);
    }
  }

  /** readValue's string case; a negative length fails, one past the integers' end panics. */
  method DecodeString(buf: seq<byte>) returns (r: Read<Value>)
    ensures r == ReadString(buf)
  {
    hide Varint.Decode;
    var length, read := DecodeVarsizeInteger(buf);
    if length < 1 {
      return Fail(Nil);
    }
    if read + length >= TWO_63 {
      return Panic;
    }
    if read + length > |buf| {
      return Fail(Nil);
    }
    return Ok(Str(buf[read..read + length - 1]), read + length);
  }

  /** readValue's blob case: a copy. */
  method DecodeBlob(buf: seq<byte>) returns (r: Read<Value>)
    ensures r == ReadBlob(buf)
  {
    hide Varint.Decode;
    var length, read := DecodeVarsizeInteger(buf);
    if length < 0 || read + length >= TWO_63 {
      return Panic;
    }
    if read + length > |buf| {
      return Fail(Nil);
    }
    return Ok(Blob(buf[read..read + length]), read + length);
  }

  method DecodeObjectType(buf: seq<byte>) returns (r: Read<Value>)
    ensures r == ReadObjectType(buf)
  {
    hide Varint.Decode;
    var component, a := DecodeVarsizeInteger(buf);
    var typ, b := DecodeVarsizeInteger(buf[a..]);
    return Ok(ObjectType(component as int % 0x1_0000, typ as int % 0x1_0000), a + b);
  }

  method DecodeObjectID(buf: seq<byte>) returns (r: Read<Value>)
    ensures r == ReadObjectID(buf)
  {
    hide Varint.Decode;
    var component, a := DecodeVarsizeInteger(buf);
    var typ, b := DecodeVarsizeInteger(buf[a..]);
    var id, c := DecodeVarsizeInteger(buf[a + b..]);
    return Ok(ObjectID(component as int % 0x1_0000, typ as int % 0x1_0000, id), a + b + c);
  }

  /** readElement */
  method DecodeElement(buf: seq<byte>) returns (r: Read<(Text, Value)>)
    ensures r == ReadElement(buf)
    decreases |buf|, 1, 0
  {
    hide ReadValue;
    if |buf| < 4 {
      return Fail(([], Nil));
    }
    var tag := DecodeTagBytes(buf[..3]);
    var v := DecodeValue(buf[3], buf[4..]);
    match v
    case Panic => return Panic;
    case Fail(_) => return Fail(([], Nil));
    case Ok(value, read) => return Ok((tag, value), 4 + read);
  }

  /** readValue's union case */
  method DecodeUnion(buf: seq<byte>) returns (r: Read<Value>)
    ensures r == ReadUnion(buf)
    decreases |buf|, 1, 0
  {
    hide ReadElement;
    if |buf| < 1 {
      return Fail(Nil);
    }
    var active := buf[0];
    if active == 0xff || active == 0x7f {
      return Ok(Union(active, [], Nil), 1);
    }
    var element := DecodeElement(buf[1..]);
    match element
    case Panic => return Panic;
    case Fail(_) => return Fail(Nil);
    case Ok(e, read) => return Ok(Union(active, e.0, e.1), 1 + read);
  }

  /** readValue's variable case, with the terminator taken if it is there. */
  method DecodeVariable(buf: seq<byte>) returns (r: Read<Value>)
    ensures r == ReadVariable(buf)
    decreases |buf|, 1, 0
  {
    hide ReadElement, Varint.Decode;
    if |buf| < 1 {
      return Fail(Nil);
    }
    if buf[0] == 0 {
      return Ok(Variable(0, [], Nil), 1);
    }
    var id, bytesRead := DecodeVarsizeInteger(buf[1..]);
    var off := 1 + bytesRead;
    var element := DecodeElement(buf[off..]);
    match element
    case Panic => return Panic;
    case Fail(_) => return Fail(Nil);
    case Ok(e, read) =>
      off := off + read;
      if off < |buf| && buf[off] == 0 {
        off := off + 1;
      }
      return Ok(Variable(id as int % 0x1_0000_0000, e.0, e.1), off);
  }

  /** readStruct: fields until a terminator, the end of the buffer, or a field that does not read. */
  method DecodeStruct(buf: seq<byte>) returns (r: Read<map<Text, Value>>)
    ensures r == ReadStruct(buf)
    decreases |buf|, 1, 0
  {
    hide ReadFields, ReadValue;
    var out: map<Text, Value> := map[];
    var read: nat := 0;
    assert buf[0..] == buf;
    while read < |buf|
      invariant read <= |buf|
      invariant ReadFields(out, buf[read..]).After(read) == ReadFields(map[], buf)
      decreases |buf| - read
    {
      FieldsStep(out, buf[read..]);
      if buf[read] == 0 {
        return Ok(out, read + 1);
      }
      if |buf| - read < 4 {
        return Fail(out);
      }
      var tag := DecodeTagBytes(buf[read..read + 3]);
      var typ := buf[read + 3];
      Slices(buf, read);
      var v := DecodeValue(typ, buf[read + 4..]);
      match v
      case Panic => return Panic;
      case Fail(_) => return Fail(out);
      case Ok(value, n) =>
        Within(typ, buf[read + 4..]);
        assert buf[read..][4 + n..] == buf[read + 4 + n..];
        out := out[tag := value];
        read := read + 4 + n;
    }
    FieldsStep(out, []);
    assert buf[read..] == [];
    return Ok(out, read);
  }

  lemma Slices(buf: seq<byte>, read: nat)
    requires |buf| - read >= 4
    ensures buf[read..][..3] == buf[read..read + 3] && buf[read..][3] == buf[read + 3] && buf[read..][4..] == buf[read + 4..]
  {
  }

  lemma Within(typ: byte, buf: seq<byte>)
    ensures ReadValue(typ, buf).Ok? ==> ReadValue(typ, buf).read <= |buf|
  {
    assert ReadValue(typ, buf).Within(buf);
  }

  /** One field of a struct. */
  lemma FieldsStep(out: map<Text, Value>, buffer: seq<byte>)
    ensures ReadFields(out, buffer) ==
            if buffer == [] then Ok(out, 0)
            else if buffer[0] == 0 then Ok(out, 1)
            else if |buffer| < 4 then Fail(out)
            else
              match ReadValue(buffer[3], buffer[4..])
              case Panic => Panic
              case Fail(_) => Fail(out)
              case Ok(v, read) => ReadFields(out[DecodeTag(buffer[..3]) := v], buffer[4 + read..]).After(4 + read)
  {
    hide DecodeTag;
  }

  /** readValue's list case. */
  method DecodeList(buf: seq<byte>) returns (r: Read<Value>)
    ensures r == ReadList(buf)
    decreases |buf|, 1, 0
  {
    hide ReadItems, ReadItem, Varint.Decode;
    if |buf| < 1 {
      return Fail(Nil);
    }
    var elemType := buf[0];
    var count, bytesRead := DecodeVarsizeInteger(buf[1..]);
    if count < 0 {
      return Panic;
    }
    var items := DecodeItems(elemType, count, buf[1 + bytesRead..]);
    match items
    case Panic => return Panic;
    case Fail(_) => return Fail(Nil);
    case Ok(list, more) => return Ok(List(list), 1 + bytesRead + more);
  }

  /** The outcome of the remaining elements, with those already read in front. */
  function Prepend(list: seq<Value>, off: nat, rest: Read<seq<Value>>): Read<seq<Value>>
  {
    if rest.Ok? then Ok(list + rest.value, off + rest.read) else rest
  }

  method DecodeItems(elemType: byte, count: nat, buf: seq<byte>) returns (r: Read<seq<Value>>)
    ensures r == ReadItems(elemType, count, buf)
    decreases |buf|, 4, 0
  {
    hide ReadItems, ReadItem, ReadValue, ReadStruct;
    var list: seq<Value> := [];
    var off: nat := 0;
    var i := 0;
    assert buf[0..] == buf;
    PrependNothing(ReadItems(elemType, count, buf));
    while i < count
      invariant 0 <= i <= count && off <= |buf|
      invariant Prepend(list, off, ReadItems(elemType, count - i, buf[off..])) == ReadItems(elemType, count, buf)
      decreases count - i
    {
      ItemsCount(elemType, count - i, buf[off..]);
      var item := DecodeItem(elemType, buf[off..]);
      match item
      case Panic => return Panic;
      case Fail(_) => return Fail([]);
      case Ok(value, n) =>
        ItemWithin(elemType, buf[off..]);
        assert buf[off..][n..] == buf[off + n..];
        PrependOne(list, off, value, n, ReadItems(elemType, count - i - 1, buf[off + n..]));
        list := list + [value];
        off := off + n;
        i := i + 1;
    }
    ItemsCount(elemType, 0, buf[off..]);
    assert list + [] == list;
    return Ok(list, off);
  }

  lemma PrependNothing(rest: Read<seq<Value>>)
    ensures Prepend([], 0, rest) == rest
  {
    if rest.Ok? {
      assert [] + rest.value == rest.value;
    }
  }

  lemma PrependOne(list: seq<Value>, off: nat, value: Value, n: nat, rest: Read<seq<Value>>)
    ensures Prepend(list, off, Prepend([value], n, rest)) == Prepend(list + [value], off + n, rest)
  {
    if rest.Ok? {
      assert list + ([value] + rest.value) == list + [value] + rest.value;
    }
  }

  /** One element of a list. */
  lemma ItemsCount(elemType: byte, count: nat, buffer: seq<byte>)
    ensures ReadItems(elemType, count, buffer) ==
            if count == 0 then Ok([], 0)
            else
              match ReadItem(elemType, buffer)
              case Panic => Panic
              case Fail(_) => Fail([])
              case Ok(first, read) => Prepend([first], read, ReadItems(elemType, count - 1, buffer[read..]))
  {
    hide ReadItem;
  }

  lemma ItemWithin(elemType: byte, buf: seq<byte>)
    ensures ReadItem(elemType, buf).Ok? ==> ReadItem(elemType, buf).read <= |buf|
  {
    assert ReadItem(elemType, buf).Within(buf);
  }

  /** A list element, with the lookahead that tells an arm from a tag. */
  method DecodeItem(elemType: byte, buf: seq<byte>) returns (r: Read<Value>)
    ensures r == ReadItem(elemType, buf)
    decreases |buf|, 3, 0
  {
    hide ReadStruct, ReadValue;
    if elemType == 3 && 0 < |buf| && buf[0] != 0 && buf[0] < 0x80 {
      var fields := DecodeStruct(buf[1..]);
      match fields
      case Panic => return Panic;
      case Fail(_) => return Fail(Nil);
      case Ok(m, read) => return Ok(ArmedStruct(buf[0], m), 1 + read);
    } else {
      r := DecodeValue(elemType, buf);
    }
  }

  /** readValue's map case. */
  method DecodeMap(buf: seq<byte>) returns (r: Read<Value>)
    ensures r == ReadMap(buf)
    decreases |buf|, 1, 0
  {
    hide ReadEntries, Varint.Decode;
    if |buf| < 2 {
      return Fail(Nil);
    }
    var keyType, valType := buf[0], buf[1];
    var count, bytesRead := DecodeVarsizeInteger(buf[2..]);
    var entries := DecodeEntries(keyType, valType, if count < 0 then 0 else count, buf[2 + bytesRead..]);
    match entries
    case Panic => return Panic;
    case Fail(_) => return Fail(Nil);
    case Ok(m, more) => return Ok(Map(m), 2 + bytesRead + more);
  }

  method DecodeEntries(keyType: byte, valType: byte, count: nat, buf: seq<byte>) returns (r: Read<map<Value, Value>>)
    ensures r == ReadEntries(keyType, valType, count, map[], buf)
    decreases |buf|, 4, 0
  {
    hide ReadEntries, ReadValue;
    var outMap: map<Value, Value> := map[];
    var off: nat := 0;
    var i := 0;
    assert buf[0..] == buf;
    while i < count
      invariant 0 <= i <= count && off <= |buf|
      invariant ReadEntries(keyType, valType, count - i, outMap, buf[off..]).After(off) == ReadEntries(keyType, valType, count, map[], buf)
      decreases count - i
    {
      EntriesStep(keyType, valType, count - i, outMap, buf[off..]);
      var key := DecodeValue(keyType, buf[off..]);
      match key
      case Panic => return Panic;
      case Fail(_) => return Fail(outMap);
      case Ok(k, a) =>
        Within(keyType, buf[off..]);
        assert buf[off..][a..] == buf[off + a..];
        var value := DecodeValue(valType, buf[off + a..]);
        match value
        case Panic => return Panic;
        case Fail(_) => return Fail(outMap);
        case Ok(v, b) =>
          Within(valType, buf[off + a..]);
          assert buf[off..][a + b..] == buf[off + a + b..];
          if !Hashable(k) {
            return Panic;
          }
          outMap := outMap[k := v];
          off := off + a + b;
          i := i + 1;
    }
    EntriesStep(keyType, valType, 0, outMap, buf[off..]);
    return Ok(outMap, off);
  }

  /** One entry of a map. */
  lemma EntriesStep(keyType: byte, valType: byte, count: nat, out: map<Value, Value>, buffer: seq<byte>)
    ensures ReadEntries(keyType, valType, count, out, buffer) ==
            if count == 0 then Ok(out, 0)
            else
              match ReadValue(keyType, buffer)
              case Panic => Panic
              case Fail(_) => Fail(out)
              case Ok(key, a) =>
                match ReadValue(valType, buffer[a..])
                case Panic => Panic
                case Fail(_) => Fail(out)
                case Ok(v, b) =>
                  if !Hashable(key) then Panic
                  else ReadEntries(keyType, valType, count - 1, out[key := v], buffer[a + b..]).After(a + b)
  {
    hide ReadValue, Hashable;
  }

  // ---- the encoder -------------------------------------------------------------------------

  /** encodeStruct: fields in tag order, empty collections left out. */
  method WriteStruct(v: Value, root: bool) returns (out: seq<byte>)
    requires v.HasFields() && Encodable(v)
    ensures out == EncodeStruct(v, root)
    decreases v, 0, 1
  {
    hide Encodable, Field, Fields, SortedKeys, Body, EncodeTag, TypeByte, IsEmptyCollection;
    var tags := SortedKeys(v.fields.Keys);
    out := [];
    var i := 0;
    assert tags[0..] == tags;
    while i < |tags|
      invariant 0 <= i <= |tags|
      invariant forall t | t in tags[i..] :: t in v.fields
      invariant out + Fields(v, tags[i..]) == Fields(v, tags)
    {
      assert tags[i..][1..] == tags[i + 1..];
      FieldsFirst(v, tags[i..]);
      assert tags[i] in tags[i..];
      var field := WriteField(v, tags[i]);
      out := out + field;
      i := i + 1;
    }
    FieldsFirst(v, []);
    assert tags[i..] == [];
    if !root {
      out := out + [0];
    }
  }

  /** A field: nothing for an empty collection, else tag, type and body. */
  method WriteField(v: Value, tag: Text) returns (out: seq<byte>)
    requires v.HasFields() && Encodable(v) && tag in v.fields
    ensures out == Field(v, tag)
    decreases v, 0, 0
  {
    hide Encodable, Field, Body, EncodeTag, TypeByte, IsEmptyCollection;
    var f := v.fields[tag];
    FieldIs(v, tag);
    out := [];
    if !IsEmptyCollection(f) {
      var head := EncodeTagBytes(tag);
      var body := WriteBody(f);
      out := head + [TypeByte(f)] + body;
    }
  }

  lemma FieldsFirst(v: Value, tags: seq<Text>)
    requires v.HasFields() && Encodable(v) && forall t | t in tags :: t in v.fields
    ensures Fields(v, tags) == if tags == [] then [] else Field(v, tags[0]) + Fields(v, tags[1..])
  {
    hide Encodable, Field;
  }

  lemma FieldIs(v: Value, tag: Text)
    requires v.HasFields() && Encodable(v) && tag in v.fields
    ensures var f := v.fields[tag];
            if IsEmptyCollection(f) then Field(v, tag) == []
            else Encodable(f) && Field(v, tag) == EncodeTag(tag) + [TypeByte(f)] + Body(f)
  {
    hide EncodeTag, Body, TypeByte;
  }

  /** encodeValue's body. Its structs, lists and maps are loops. */
  method WriteBody(v: Value) returns (body: seq<byte>)
    requires Encodable(v)
    ensures body == Body(v)
    decreases v, 1
  {
    hide Varint.Encode, EncodeStruct, Items, TypeByte, EncodeTag;
    match v
    case Integer(n) => body := EncodeVarsizeInteger(n);
    case Boolean(b) => body := EncodeVarsizeInteger(if b then 1 else 0);
    case Str(text) => body := WriteString(text);
    case Blob(bytes) =>
      var length := EncodeVarsizeInteger64(|bytes|);
      body := length + bytes;
    case Float(bits) => body := PutUint32(bits);
    case ObjectType(component, typ) =>
      var a := EncodeVarsizeInteger(component);
      var b := EncodeVarsizeInteger(typ);
      body := a + b;
    case ObjectID(component, typ, id) =>
      var a := EncodeVarsizeInteger(component);
      var b := EncodeVarsizeInteger(typ);
      var c := EncodeVarsizeInteger(id);
      body := a + b + c;
    case Union(member, field, value) => body := WriteUnion(v);
    case Variable(id, field, value) => body := WriteVariable(v);
    case Nil => body := [];
    case Struct(_) => body := WriteStruct(v, false);
    case ArmedStruct(arm, _) =>
      var fields := WriteStruct(v, false);
      body := [arm] + fields;
    case List(items) =>
      var count := EncodeVarsizeInteger64(|items|);
      var rest := WriteItems(items);
      body := [TypeByte(items[0])] + count + rest;
    case TypedList(elemType, items) =>
      var count := EncodeVarsizeInteger64(|items|);
      var rest := WriteItems(items);
      body := [elemType] + count + rest;
    case Map(entries) => body := WriteMap(v);
  }

  method WriteUnion(v: Value) returns (body: seq<byte>)
    requires v.Union? && Encodable(v)
    ensures body == Body(v)
    decreases v, 0
  {
    hide EncodeTag, TypeByte;
    body := [v.activeMember];
    if v.activeMember != 0xff && v.activeMember != 0x7f {
      var tag := EncodeTagBytes(v.field);
      var value := WriteBody(v.value);
      body := body + (tag + [TypeByte(v.value)] + value);
    }
  }

  method WriteVariable(v: Value) returns (body: seq<byte>)
    requires v.Variable? && Encodable(v)
    ensures body == Body(v)
    decreases v, 0
  {
    hide EncodeTag, TypeByte, Varint.Encode;
    if v.value == Nil {
      return [0];
    }
    var id := EncodeVarsizeInteger(v.tdfID);
    var tag := EncodeTagBytes(v.field);
    var value := WriteBody(v.value);
    body := [1] + id + tag + [TypeByte(v.value)] + value + [0];
  }

  /** A length as the encoder writes it. */
  method EncodeVarsizeInteger64(n: nat) returns (out: seq<byte>)
    ensures out == Varint.Encode(n)
  {
    if n < TWO_63 {
      out := EncodeVarsizeInteger(n);
    } else {
      out := Varint.Encode(n);
    }
  }

  method WriteItems(items: seq<Value>) returns (out: seq<byte>)
    requires forall i | 0 <= i < |items| :: Encodable(items[i])
    ensures out == Items(items)
    decreases items, 0
  {
    hide Encodable, Body;
    out := [];
    var i := 0;
    assert items[0..] == items;
    while i < |items|
      invariant 0 <= i <= |items|
      invariant out + Items(items[i..]) == Items(items)
    {
      assert items[i..][1..] == items[i + 1..];
      var body := WriteBody(items[i]);
      out := out + body;
      i := i + 1;
    }
    assert items[i..] == [];
  }

  /** encodeValue's map case: the entries in key order. */
  method WriteMap(v: Value) returns (body: seq<byte>)
    requires v.Map? && Encodable(v)
    ensures body == Body(v)
    decreases v, 0, 1
  {
    hide Entries, SortedMapKeys, LeafType, Varint.Encode, TypeByte;
    var keys := SortedMapKeys(v.entries.Keys);
    assert keys != [];
    var count := EncodeVarsizeInteger64(|v.entries|);
    var entries := WriteEntries(v, keys);
    body := [TypeByte(keys[0]), LeafType(v.entries[keys[0]])] + count + entries;
  }

  method WriteEntries(v: Value, keys: seq<Value>) returns (out: seq<byte>)
    requires v.Map? && Encodable(v) && forall k | k in keys :: k in v.entries
    ensures out == Entries(v, keys)
    decreases v, 0, 0
  {
    hide Entries, Body, Encodable;
    out := [];
    var i := 0;
    assert keys[0..] == keys;
    while i < |keys|
      invariant 0 <= i <= |keys|
      invariant out + Entries(v, keys[i..]) == Entries(v, keys)
    {
      assert keys[i..][1..] == keys[i + 1..];
      EntriesFirst(v, keys[i..]);
      var keyBody := WriteKey(v, keys[i]);
      out := out + keyBody;
      var valBody := WriteBody(v.entries[keys[i]]);
      out := out + valBody;
      i := i + 1;
    }
    EntriesFirst(v, []);
    assert keys[i..] == [];
  }

  /** Keys are integers or strings. */
  method WriteKey(v: Value, key: Value) returns (body: seq<byte>)
    requires v.Map? && Encodable(v) && key in v.entries
    ensures Encodable(key) && body == Body(key)
  {
    match key
    case Integer(n) => body := EncodeVarsizeInteger(n);
    case Str(text) => body := WriteString(text);
  }

  method WriteString(text: Text) returns (body: seq<byte>)
    ensures body == Body(Str(text))
  {
    var length := EncodeVarsizeInteger64(|text| + 1);
    body := length + text + [0];
  }

  lemma EntriesFirst(v: Value, keys: seq<Value>)
    requires v.Map? && Encodable(v) && forall k | k in keys :: k in v.entries
    ensures keys != [] ==> Encodable(keys[0]) && Encodable(v.entries[keys[0]])
    ensures Entries(v, keys) == if keys == [] then [] else Body(keys[0]) + Body(v.entries[keys[0]]) + Entries(v, keys[1..])
  {
  }
}
