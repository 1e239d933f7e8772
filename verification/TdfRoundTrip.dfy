/** Decoding undoes encoding, up to the encoder's own normalisation. */
module TdfRoundTrip {
  import opened Bytes
  import opened TdfValues
  import opened TdfTags
  import opened TdfEncoder
  import opened TdfDecoder
  import Varint = TdfVarint

  /** Longer slices do not exist: the largest allocation of a 64-bit Go runtime. */
  const MAX_LENGTH := 0x1_0000_0000_0000

  /** A value whose encoding says everything about it. */
  predicate WellFormed(v: Value)
  {
    match v
    case Integer(_) => true
    case Boolean(_) => true
    case Str(text) => |text| < MAX_LENGTH
    case Blob(bytes) => |bytes| < MAX_LENGTH
    case Struct(fields) => forall t | t in fields :: FieldFits(t, fields[t]) && (IsEmptyCollection(fields[t]) || WellFormed(fields[t]))
    case ArmedStruct(arm, fields) =>
      && 0 < arm < 0x80
      && forall t | t in fields :: FieldFits(t, fields[t]) && (IsEmptyCollection(fields[t]) || WellFormed(fields[t]))
    case List(items) =>
      && items != [] && |items| < MAX_LENGTH
      && forall i | 0 <= i < |items| :: WellFormed(items[i]) && TypeByte(items[i]) == TypeByte(items[0])
    case TypedList(elemType, items) =>
      && |items| < MAX_LENGTH
      && forall i | 0 <= i < |items| :: WellFormed(items[i]) && TypeByte(items[i]) == elemType
    case Map(entries) =>
      && entries != map[] && |entries| < MAX_LENGTH
      && SortableKeys(entries.Keys)
      && (forall k | k in entries :: WellFormed(k) && WellFormed(entries[k]) && MapValueFits(entries[k]))
      && (forall k, k' | k in entries && k' in entries :: TypeByte(entries[k]) == TypeByte(entries[k']))
    case Union(member, field, value) =>
      InvalidMember(member) || (IsTag(field) && WellFormed(value) && !value.ArmedStruct?)
    case Variable(_, field, value) =>
      value == Nil || (IsTag(field) && WellFormed(value) && !value.ArmedStruct?)
    case ObjectType(_, _) => true
    case ObjectID(_, _, _) => true
    case Float(_) => true
    case Nil => false
  }

  /** An armed struct is a list element and nothing else: elsewhere its arm would be read as a tag. */
  predicate FieldFits(tag: Text, v: Value) { IsFieldTag(tag) && !v.ArmedStruct? }

  /** Values a map may hold: for lists and maps the encoder announces a leaf's type instead of theirs. */
  predicate MapValueFits(v: Value) { !v.ArmedStruct? && !v.List? && !v.Map? }

  /** What the decoder can tell: booleans are integers, typed lists are lists, empty collections
      are absent fields, absent unions and variables carry nothing. */
  function Norm(v: Value): Value
  {
    match v
    case Boolean(b) => Integer(if b then 1 else 0)
    case Struct(fields) => Struct(map t | t in fields && !IsEmptyCollection(fields[t]) :: Norm(fields[t]))
    case ArmedStruct(arm, fields) =>
      ArmedStruct(arm, map t | t in fields && !IsEmptyCollection(fields[t]) :: Norm(fields[t]))
    case List(items) => List(seq(|items|, i requires 0 <= i < |items| => Norm(items[i])))
    case TypedList(_, items) => List(seq(|items|, i requires 0 <= i < |items| => Norm(items[i])))
    case Map(entries) => Map(map k | k in entries :: Norm(entries[k]))
    case Union(member, field, value) =>
      if InvalidMember(member) then Union(member, [], Nil) else Union(member, field, Norm(value))
    case Variable(id, field, value) =>
      if value == Nil then Variable(0, [], Nil) else Variable(id, field, Norm(value))
    case _ => v
  }

  function NormItems(items: seq<Value>): seq<Value>
  {
    seq(|items|, i requires 0 <= i < |items| => Norm(items[i]))
  }

  lemma {:induction false} WellFormedEncodes(v: Value)
    requires WellFormed(v)
    ensures Encodable(v)
  {
    match v
    case Struct(fields) =>
      forall t | t in fields && !IsEmptyCollection(fields[t]) { WellFormedEncodes(fields[t]); }
    case ArmedStruct(_, fields) =>
      forall t | t in fields && !IsEmptyCollection(fields[t]) { WellFormedEncodes(fields[t]); }
    case List(items) =>
      forall i | 0 <= i < |items| { WellFormedEncodes(items[i]); }
    case TypedList(_, items) =>
      forall i | 0 <= i < |items| { WellFormedEncodes(items[i]); }
    case Map(entries) =>
      forall k | k in entries { WellFormedEncodes(entries[k]); }
    case Union(member, _, value) =>
      if !InvalidMember(member) { WellFormedEncodes(value); }
    case Variable(_, _, value) =>
      if value != Nil { WellFormedEncodes(value); }
    case _ =>
  }

  // ---- one lemma a reader: what it returns once its parts are known ------------------------

  lemma LengthRoundTrip(payload: seq<byte>, suffix: seq<byte>, least: int)
    requires least <= 1 && least <= |payload| <= MAX_LENGTH
    ensures ReadLength(Varint.Encode(|payload|) + payload + suffix, least) == Ok(|payload|, |Varint.Encode(|payload|)|)
  {
    hide Varint.Encode, Varint.Decode;
    Varint.RoundTrip(|payload|, payload + suffix);
    Varint.LengthBounds(|payload|);
    assert Varint.Encode(|payload|) + payload + suffix == Varint.Encode(|payload|) + (payload + suffix);
  }

  lemma StringRoundTrip(text: Text, suffix: seq<byte>)
    requires |text| < MAX_LENGTH
    ensures var encoded := Varint.Encode(|text| + 1) + text + [0];
            ReadString(encoded + suffix) == Ok(Str(text), |encoded|)
  {
    hide Varint.Encode, Varint.Decode, ReadLength;
    var payload := text + [0];
    LengthRoundTrip(payload, suffix, 1);
    var head := Varint.Encode(|payload|);
    var buffer := head + payload + suffix;
    assert head + text + [0] + suffix == buffer;
    assert buffer[|head|..|head| + |payload| - 1] == text;
  }

  lemma BlobRoundTrip(bytes: seq<byte>, suffix: seq<byte>)
    requires |bytes| < MAX_LENGTH
    ensures var encoded := Varint.Encode(|bytes|) + bytes;
            ReadBlob(encoded + suffix) == Ok(Blob(bytes), |encoded|)
  {
    hide Varint.Encode, Varint.Decode, ReadLength;
    LengthRoundTrip(bytes, suffix, 0);
    var head := Varint.Encode(|bytes|);
    assert (head + bytes + suffix)[|head|..|head| + |bytes|] == bytes;
  }

  lemma ObjectTypeRoundTrip(component: uint16, typ: uint16, suffix: seq<byte>)
    ensures var encoded := Varint.Encode(component) + Varint.Encode(typ);
            ReadObjectType(encoded + suffix) == Ok(ObjectType(component, typ), |encoded|)
  {
    hide Varint.Decode, Varint.Encode;
    var c, t := Varint.Encode(component), Varint.Encode(typ);
    var buffer := c + t + suffix;
    assert buffer == c + (t + suffix);
    assert buffer[|c|..] == t + suffix;
    Varint.RoundTrip(component, t + suffix);
    Varint.RoundTrip(typ, suffix);
  }

  lemma ObjectIDRoundTrip(component: uint16, typ: uint16, id: int64, suffix: seq<byte>)
    ensures var encoded := Varint.Encode(component) + Varint.Encode(typ) + Varint.Encode(id);
            ReadObjectID(encoded + suffix) == Ok(ObjectID(component, typ, id), |encoded|)
  {
    hide Varint.Decode, Varint.Encode;
    var c, t, i := Varint.Encode(component), Varint.Encode(typ), Varint.Encode(id);
    var buffer := c + t + i + suffix;
    assert buffer == c + (t + (i + suffix));
    assert buffer[|c|..] == t + (i + suffix);
    assert buffer[|c| + |t|..] == i + suffix;
    Varint.RoundTrip(component, t + (i + suffix));
    Varint.RoundTrip(typ, i + suffix);
    Varint.RoundTrip(id, suffix);
  }

  lemma ElementReads(field: Text, typ: byte, body: seq<byte>, v: Value, suffix: seq<byte>)
    requires IsTag(field) && ReadValue(typ, body + suffix) == Ok(v, |body|)
    ensures ReadElement(EncodeTag(field) + [typ] + body + suffix) == Ok((field, v), 4 + |body|)
  {
    hide ReadValue, EncodeTag, DecodeTag, IsTag;
    var tag := EncodeTag(field);
    var buffer := tag + [typ] + body + suffix;
    assert buffer[..3] == tag && buffer[3] == typ && buffer[4..] == body + suffix;
    assert tag == tag + [];
    TagRoundTrip(field, []);
  }

  lemma UnionReads(member: byte, element: seq<byte>, field: Text, v: Value, suffix: seq<byte>)
    requires !InvalidMember(member) && ReadElement(element + suffix) == Ok((field, v), |element|)
    ensures ReadUnion([member] + element + suffix) == Ok(Union(member, field, v), 1 + |element|)
  {
    hide ReadElement;
    assert ([member] + element + suffix)[1..] == element + suffix;
  }

  lemma VariableLayout(head: seq<byte>, element: seq<byte>, suffix: seq<byte>)
    ensures var buffer := [1] + head + element + [0] + suffix;
            && buffer[0] == 1 && buffer[1..] == head + (element + ([0] + suffix))
            && buffer[1 + |head|..] == element + ([0] + suffix)
            && buffer[1 + |head| + |element|] == 0
  {
    var rest := element + ([0] + suffix);
    assert [1] + head + element + [0] + suffix == [1] + (head + rest);
  }

  lemma VariableReads(id: uint32, element: seq<byte>, field: Text, v: Value, suffix: seq<byte>)
    requires ReadElement(element + ([0] + suffix)) == Ok((field, v), |element|)
    ensures var encoded := [1] + Varint.Encode(id) + element + [0];
            ReadVariable(encoded + suffix) == Ok(Variable(id, field, v), |encoded|)
  {
    hide Varint.Decode, Varint.Encode, ReadElement;
    var head := Varint.Encode(id);
    Varint.RoundTrip(id, element + ([0] + suffix));
    VariableLayout(head, element, suffix);
  }

  lemma ListReads(elemType: byte, count: nat, body: seq<byte>, items: seq<Value>, suffix: seq<byte>)
    requires count < MAX_LENGTH && ReadItems(elemType, count, body + suffix) == Ok(items, |body|)
    ensures var encoded := [elemType] + Varint.Encode(count) + body;
            ReadList(encoded + suffix) == Ok(List(items), |encoded|)
  {
    hide Varint.Decode, Varint.Encode, ReadItems;
    var head := Varint.Encode(count);
    var buffer := [elemType] + head + body + suffix;
    assert buffer[1..] == head + (body + suffix);
    assert buffer[1 + |head|..] == body + suffix;
    Varint.RoundTrip(count, body + suffix);
  }

  lemma MapReads(keyType: byte, valType: byte, count: nat, body: seq<byte>, entries: map<Value, Value>, suffix: seq<byte>)
    requires count < MAX_LENGTH
    requires ReadEntries(keyType, valType, count, map[], body + suffix) == Ok(entries, |body|)
    ensures var encoded := [keyType, valType] + Varint.Encode(count) + body;
            ReadMap(encoded + suffix) == Ok(Map(entries), |encoded|)
  {
    hide Varint.Decode, Varint.Encode, ReadEntries;
    var head := Varint.Encode(count);
    var buffer := [keyType, valType] + head + body + suffix;
    assert buffer[2..] == head + (body + suffix);
    assert buffer[2 + |head|..] == body + suffix;
    Varint.RoundTrip(count, body + suffix);
  }

  lemma ItemsStep(elemType: byte, count: nat, body: seq<byte>, v: Value, rest: seq<byte>)
    requires count > 0 && ReadItem(elemType, body + rest) == Ok(v, |body|)
    requires ReadItems(elemType, count - 1, rest).Ok?
    ensures var tail := ReadItems(elemType, count - 1, rest);
            ReadItems(elemType, count, body + rest) == Ok([v] + tail.value, |body| + tail.read)
  {
    hide ReadItem;
    assert (body + rest)[|body|..] == rest;
  }

  lemma FieldStep(out: map<Text, Value>, tag: Text, typ: byte, body: seq<byte>, v: Value, rest: seq<byte>)
    requires IsFieldTag(tag) && ReadValue(typ, body + rest) == Ok(v, |body|)
    ensures ReadFields(out, EncodeTag(tag) + [typ] + body + rest) == ReadFields(out[tag := v], rest).After(4 + |body|)
  {
    hide ReadValue, EncodeTag, DecodeTag, IsTag;
    var code := EncodeTag(tag);
    var buffer := code + [typ] + body + rest;
    FieldTagTopBit(tag);
    assert buffer[..3] == code && buffer[3] == typ && buffer[4..] == body + rest;
    assert code == code + [];
    TagRoundTrip(tag, []);
    assert buffer[4 + |body|..] == rest;
  }

  lemma EntryStep(keyType: byte, valType: byte, count: nat, out: map<Value, Value>, key: Value, keyBody: seq<byte>,
                  v: Value, body: seq<byte>, rest: seq<byte>)
    requires count > 0 && Hashable(key)
    requires ReadValue(keyType, keyBody + (body + rest)) == Ok(key, |keyBody|)
    requires ReadValue(valType, body + rest) == Ok(v, |body|)
    ensures ReadEntries(keyType, valType, count, out, keyBody + body + rest)
         == ReadEntries(keyType, valType, count - 1, out[key := v], rest).After(|keyBody| + |body|)
  {
    hide ReadValue, Hashable;
    var buffer := keyBody + body + rest;
    assert buffer == keyBody + (body + rest);
    assert buffer[|keyBody|..] == body + rest;
    assert buffer[|keyBody| + |body|..] == rest;
  }

  // ---- values ------------------------------------------------------------------------------

  /** Which reader a type byte selects. */
  lemma Dispatch(buffer: seq<byte>)
    ensures ReadValue(1, buffer) == ReadString(buffer)
    ensures ReadValue(2, buffer) == ReadBlob(buffer)
    ensures ReadValue(4, buffer) == ReadList(buffer)
    ensures ReadValue(5, buffer) == ReadMap(buffer)
    ensures ReadValue(6, buffer) == ReadUnion(buffer)
    ensures ReadValue(7, buffer) == ReadVariable(buffer)
    ensures ReadValue(8, buffer) == ReadObjectType(buffer)
    ensures ReadValue(9, buffer) == ReadObjectID(buffer)
  {
    hide ReadString, ReadBlob, ReadList, ReadMap, ReadUnion, ReadVariable, ReadObjectType, ReadObjectID;
  }

  lemma IntegerReads(n: int64, suffix: seq<byte>)
    ensures ReadValue(0, Varint.Encode(n) + suffix) == Ok(Integer(n), |Varint.Encode(n)|)
  {
    hide Varint.Encode, Varint.Decode;
    Varint.RoundTrip(n, suffix);
  }

  lemma FloatReads(bits: uint32, suffix: seq<byte>)
    ensures ReadValue(10, PutUint32(bits) + suffix) == Ok(Float(bits), 4)
  {
    hide PutUint32, GetUint32;
    assert (PutUint32(bits) + suffix)[..4] == PutUint32(bits);
  }

  lemma BodyOfScalar(v: Value)
    requires IsScalar(v)
    ensures Encodable(v)
    ensures match v
            case Integer(n) => Body(v) == Varint.Encode(n)
            case Boolean(b) => Body(v) == Varint.Encode(if b then 1 else 0)
            case Str(text) => Body(v) == Varint.Encode(|text| + 1) + text + [0]
            case Blob(bytes) => Body(v) == Varint.Encode(|bytes|) + bytes
            case Float(bits) => Body(v) == PutUint32(bits)
            case ObjectType(component, typ) => Body(v) == Varint.Encode(component) + Varint.Encode(typ)
            case ObjectID(component, typ, id) =>
              Body(v) == Varint.Encode(component) + Varint.Encode(typ) + Varint.Encode(id)
            case _ => true
  {
    hide Varint.Encode, PutUint32;
  }

  predicate IsScalar(v: Value)
  {
    v.Integer? || v.Boolean? || v.Str? || v.Blob? || v.Float? || v.ObjectType? || v.ObjectID?
  }

  /** The scalar cases. */
  lemma ScalarRoundTrip(v: Value, suffix: seq<byte>)
    requires WellFormed(v) && IsScalar(v) && Encodable(v)
    ensures ReadValue(TypeByte(v), Body(v) + suffix) == Ok(Norm(v), |Body(v)|)
  {
    hide ReadValue, Body, Varint.Encode, PutUint32, ReadString, ReadBlob, ReadObjectType, ReadObjectID;
    Dispatch(Body(v) + suffix);
    BodyOfScalar(v);
    match v
    case Integer(n) => IntegerReads(n, suffix);
    case Boolean(b) => IntegerReads(if b then 1 else 0, suffix);
    case Str(text) => StringRoundTrip(text, suffix);
    case Blob(bytes) => BlobRoundTrip(bytes, suffix);
    case Float(bits) => FloatReads(bits, suffix);
    case ObjectType(component, typ) => ObjectTypeRoundTrip(component, typ, suffix);
    case ObjectID(component, typ, id) => ObjectIDRoundTrip(component, typ, id, suffix);
  }

  function Element(field: Text, v: Value): seq<byte>
    requires Encodable(v)
  {
    EncodeTag(field) + [TypeByte(v)] + Body(v)
  }

  lemma {:induction false} ElementRoundTrip(field: Text, v: Value, suffix: seq<byte>)
    requires IsTag(field) && WellFormed(v) && !v.ArmedStruct? && Encodable(v)
    ensures ReadElement(Element(field, v) + suffix) == Ok((field, Norm(v)), |Element(field, v)|)
    decreases v, 7
  {
    hide WellFormed, Encodable, Norm, Body, ReadElement, ReadValue;
    ValueRoundTrip(v, suffix);
    ElementReads(field, TypeByte(v), Body(v), Norm(v), suffix);
  }

  lemma UnionUnfold(v: Value)
    requires v.Union? && WellFormed(v) && Encodable(v) && !InvalidMember(v.activeMember)
    ensures IsTag(v.field) && WellFormed(v.value) && !v.value.ArmedStruct? && Encodable(v.value)
    ensures Body(v) == [v.activeMember] + Element(v.field, v.value)
    ensures Norm(v) == Union(v.activeMember, v.field, Norm(v.value))
  {
  }

  lemma EmptyUnion(v: Value, suffix: seq<byte>)
    requires v.Union? && Encodable(v) && InvalidMember(v.activeMember)
    ensures ReadUnion(Body(v) + suffix) == Ok(Norm(v), |Body(v)|)
  {
  }

  lemma {:induction false} UnionRoundTrip(v: Value, suffix: seq<byte>)
    requires v.Union? && WellFormed(v) && Encodable(v)
    ensures ReadUnion(Body(v) + suffix) == Ok(Norm(v), |Body(v)|)
    decreases v, 5
  {
    hide WellFormed, Encodable, Norm, Body, ReadUnion, Element;
    if InvalidMember(v.activeMember) {
      EmptyUnion(v, suffix);
    } else {
      UnionUnfold(v);
      ElementRoundTrip(v.field, v.value, suffix);
      UnionReads(v.activeMember, Element(v.field, v.value), v.field, Norm(v.value), suffix);
    }
  }

  lemma VariableUnfold(v: Value)
    requires v.Variable? && WellFormed(v) && Encodable(v) && v.value != Nil
    ensures IsTag(v.field) && WellFormed(v.value) && !v.value.ArmedStruct? && Encodable(v.value)
    ensures Body(v) == [1] + Varint.Encode(v.tdfID) + Element(v.field, v.value) + [0]
    ensures Norm(v) == Variable(v.tdfID, v.field, Norm(v.value))
  {
    VariableBody(v);
    hide Varint.Encode, EncodeTag, Body;
  }

  lemma VariableBody(v: Value)
    requires v.Variable? && v.value != Nil && Encodable(v)
    ensures Encodable(v.value)
    ensures Body(v) == [1] + Varint.Encode(v.tdfID) + Element(v.field, v.value) + [0]
  {
    VariableEncodes(v);
    hide Varint.Encode, EncodeTag, TypeByte, Encodable;
    var head := [1] + Varint.Encode(v.tdfID);
    assert Body(v) == head + EncodeTag(v.field) + [TypeByte(v.value)] + Body(v.value) + [0];
    assert head + Element(v.field, v.value) == head + EncodeTag(v.field) + [TypeByte(v.value)] + Body(v.value);
  }

  lemma VariableEncodes(v: Value)
    requires v.Variable? && v.value != Nil && Encodable(v)
    ensures Encodable(v.value)
  {
  }

  lemma AbsentVariable(v: Value, suffix: seq<byte>)
    requires v.Variable? && Encodable(v) && v.value == Nil
    ensures ReadVariable(Body(v) + suffix) == Ok(Norm(v), |Body(v)|)
  {
  }

  lemma {:induction false} VariableRoundTrip(v: Value, suffix: seq<byte>)
    requires v.Variable? && WellFormed(v) && Encodable(v)
    ensures ReadVariable(Body(v) + suffix) == Ok(Norm(v), |Body(v)|)
    decreases v, 5
  {
    hide WellFormed, Encodable, Norm, Body, ReadVariable, Element;
    if v.value == Nil {
      AbsentVariable(v, suffix);
    } else {
      VariableUnfold(v);
      ElementRoundTrip(v.field, v.value, [0] + suffix);
      VariableReads(v.tdfID, Element(v.field, v.value), v.field, Norm(v.value), suffix);
    }
  }

  /** A list element: the lookahead takes an arm for an arm, and neither the tag that opens a
      plain struct nor the terminator that is an empty one for an arm. */
  lemma {:induction false} ItemRoundTrip(v: Value, suffix: seq<byte>)
    requires WellFormed(v) && Encodable(v)
    ensures ReadItem(TypeByte(v), Body(v) + suffix) == Ok(Norm(v), |Body(v)|)
    decreases v, 7
  {
    hide WellFormed, Encodable, Norm, Body, ReadItem, ReadValue;
    if v.ArmedStruct? {
      ArmedRoundTrip(v, suffix);
    } else {
      NoArmAhead(v, suffix);
      ValueRoundTrip(v, suffix);
    }
  }

  lemma NoArmAhead(v: Value, suffix: seq<byte>)
    requires WellFormed(v) && Encodable(v) && !v.ArmedStruct?
    ensures ReadItem(TypeByte(v), Body(v) + suffix) == ReadValue(TypeByte(v), Body(v) + suffix)
  {
    if v.Struct? {
      StructOpening(v);
      assert Body(v) == EncodeStruct(v, false);
      assert (Body(v) + suffix)[0] == EncodeStruct(v, false)[0];
    }
    hide WellFormed, Encodable, EncodeStruct, Body, ReadValue, ReadStruct;
  }

  lemma {:induction false} ArmedRoundTrip(v: Value, suffix: seq<byte>)
    requires v.ArmedStruct? && WellFormed(v) && Encodable(v)
    ensures ReadItem(3, Body(v) + suffix) == Ok(Norm(v), |Body(v)|)
    decreases v, 5
  {
    hide WellFormed, Encodable, Norm, Body, ReadStruct, EncodeStruct;
    ArmedUnfold(v, suffix);
    NormFieldsAll(v);
    StructRoundTrip(v, suffix);
  }

  lemma ArmedUnfold(v: Value, suffix: seq<byte>)
    requires v.ArmedStruct? && WellFormed(v) && Encodable(v)
    ensures 0 < v.arm < 0x80
    ensures Body(v) == [v.arm] + EncodeStruct(v, false)
    ensures (Body(v) + suffix)[0] == v.arm && (Body(v) + suffix)[1..] == EncodeStruct(v, false) + suffix
  {
    hide EncodeStruct;
  }

  /** What a nested struct starts with. */
  lemma {:induction false} StructOpening(v: Value)
    requires v.Struct? && WellFormed(v) && Encodable(v)
    ensures EncodeStruct(v, false) != []
    ensures EncodeStruct(v, false)[0] == 0 || EncodeStruct(v, false)[0] >= 0x80
  {
    FieldsOpening(v, SortedKeys(v.fields.Keys));
  }

  lemma {:induction false} FieldsOpening(v: Value, tags: seq<Text>)
    requires v.Struct? && WellFormed(v) && Encodable(v)
    requires forall t | t in tags :: t in v.fields
    ensures Fields(v, tags) != [] ==> Fields(v, tags)[0] >= 0x80
  {
    if tags != [] {
      FieldFacts(v, tags[0]);
      FieldTagTopBit(tags[0]);
      FieldsOpening(v, tags[1..]);
      hide WellFormed, Encodable, Field, Body, EncodeTag;
    }
  }

  lemma {:induction false} ItemsRoundTrip(elemType: byte, items: seq<Value>, suffix: seq<byte>)
    requires forall i | 0 <= i < |items| :: WellFormed(items[i]) && Encodable(items[i]) && TypeByte(items[i]) == elemType
    ensures ReadItems(elemType, |items|, Items(items) + suffix) == Ok(NormItems(items), |Items(items)|)
    decreases items, 8
  {
    hide WellFormed, Encodable, Norm, NormItems, Body, Items, ReadItem, ReadItems;
    ItemsUnfold(elemType, items, suffix);
    if items != [] {
      var rest := Items(items[1..]) + suffix;
      ItemRoundTrip(items[0], rest);
      ItemsRoundTrip(elemType, items[1..], suffix);
      ItemsStep(elemType, |items|, Body(items[0]), Norm(items[0]), rest);
    }
  }

  lemma ItemsUnfold(elemType: byte, items: seq<Value>, suffix: seq<byte>)
    requires forall i | 0 <= i < |items| :: Encodable(items[i])
    ensures if items == [] then
              Items(items) + suffix == suffix && |Items(items)| == 0 && NormItems(items) == []
              && ReadItems(elemType, 0, suffix) == Ok([], 0)
            else
              Items(items) == Body(items[0]) + Items(items[1..])
              && Items(items) + suffix == Body(items[0]) + (Items(items[1..]) + suffix)
              && NormItems(items) == [Norm(items[0])] + NormItems(items[1..])
  {
    hide Body, Norm, Encodable;
  }

  lemma {:induction false} ListRoundTrip(v: Value, elemType: byte, suffix: seq<byte>)
    requires (v.List? && v.items != [] && elemType == TypeByte(v.items[0])) || (v.TypedList? && elemType == v.elemType)
    requires WellFormed(v) && Encodable(v)
    ensures ReadList(Body(v) + suffix) == Ok(Norm(v), |Body(v)|)
    decreases v, 5
  {
    assert |v.items| < MAX_LENGTH;
    assert Body(v) == [elemType] + Varint.Encode(|v.items|) + Items(v.items);
    assert Norm(v) == List(NormItems(v.items));
    assert forall i | 0 <= i < |v.items| :: WellFormed(v.items[i]) && Encodable(v.items[i]) && TypeByte(v.items[i]) == elemType;
    hide WellFormed, Encodable, Norm, NormItems, Body, Items, ReadItems, ReadList;
    ItemsRoundTrip(elemType, v.items, suffix);
    ListReads(elemType, |v.items|, Items(v.items), NormItems(v.items), suffix);
  }

  /** The fields a struct keeps, as the decoder accumulates them. */
  function NormFields(v: Value, tags: seq<Text>): map<Text, Value>
    requires v.HasFields()
  {
    map t | t in tags && t in v.fields && !IsEmptyCollection(v.fields[t]) :: Norm(v.fields[t])
  }

  lemma NormFieldsStep(v: Value, tags: seq<Text>, out: map<Text, Value>)
    requires v.HasFields() && tags != [] && tags[0] in v.fields
    ensures var f := v.fields[tags[0]];
            var out' := if IsEmptyCollection(f) then out else out[tags[0] := Norm(f)];
            out' + NormFields(v, tags[1..]) == out + NormFields(v, tags)
  {
    hide Norm;
  }

  lemma NormFieldsAll(v: Value)
    requires v.HasFields()
    ensures NormFields(v, SortedKeys(v.fields.Keys)) == Norm(v).fields
    ensures Norm(v) == if v.Struct? then Struct(Norm(v).fields) else ArmedStruct(v.arm, Norm(v).fields)
  {
    hide SortedKeys;
  }

  lemma FieldFacts(v: Value, tag: Text)
    requires v.HasFields() && WellFormed(v) && Encodable(v) && tag in v.fields
    ensures IsFieldTag(tag) && !v.fields[tag].ArmedStruct?
    ensures var f := v.fields[tag];
            if IsEmptyCollection(f) then Field(v, tag) == []
            else WellFormed(f) && Encodable(f) && Field(v, tag) == EncodeTag(tag) + [TypeByte(f)] + Body(f)
  {
    hide Body, EncodeTag;
  }

  lemma FieldsUnfold(v: Value, tags: seq<Text>, tail: seq<byte>)
    requires v.HasFields() && Encodable(v) && tags != []
    requires forall t | t in tags :: t in v.fields
    ensures Fields(v, tags) == Field(v, tags[0]) + Fields(v, tags[1..])
    ensures Fields(v, tags) + tail == Field(v, tags[0]) + (Fields(v, tags[1..]) + tail)
    ensures Field(v, tags[0]) == [] ==> Fields(v, tags) + tail == Fields(v, tags[1..]) + tail
  {
    hide Encodable, Field;
  }

  /** The end of the fields: a terminator, or the end of the buffer. */
  function Ending(closed: bool): seq<byte> { if closed then [0] else [] }

  lemma FieldsEnd(v: Value, out: map<Text, Value>, closed: bool, suffix: seq<byte>)
    requires v.HasFields() && Encodable(v)
    requires closed || suffix == []
    ensures Fields(v, []) == [] && Fields(v, []) + (Ending(closed) + suffix) == Ending(closed) + suffix
    ensures ReadFields(out, Ending(closed) + suffix) == Ok(out, |Ending(closed)|)
    ensures out + NormFields(v, []) == out
  {
    hide Norm;
  }

  /** One pass over the remaining fields. Below the root a terminator follows; at the root the
      buffer ends. */
  lemma {:induction false} FieldsRoundTrip(v: Value, tags: seq<Text>, out: map<Text, Value>, closed: bool, suffix: seq<byte>)
    requires v.HasFields() && WellFormed(v) && Encodable(v)
    requires forall t | t in tags :: t in v.fields
    requires closed || suffix == []
    ensures ReadFields(out, Fields(v, tags) + (Ending(closed) + suffix))
         == Ok(out + NormFields(v, tags), |Fields(v, tags)| + |Ending(closed)|)
    decreases v, 3, |tags|
  {
    var tail := Ending(closed) + suffix;
    hide WellFormed, Encodable, Norm, NormFields, Body, Field, Fields, ReadFields, Ending, EncodeTag, IsTag;
    if tags == [] {
      FieldsEnd(v, out, closed, suffix);
    } else {
      var tag, f := tags[0], v.fields[tags[0]];
      FieldFacts(v, tag);
      FieldsUnfold(v, tags, tail);
      NormFieldsStep(v, tags, out);
      if IsEmptyCollection(f) {
        FieldsRoundTrip(v, tags[1..], out, closed, suffix);
      } else {
        var rest := Fields(v, tags[1..]) + tail;
        ValueRoundTrip(f, rest);
        FieldStep(out, tag, TypeByte(f), Body(f), Norm(f), rest);
        FieldsRoundTrip(v, tags[1..], out[tag := Norm(f)], closed, suffix);
      }
    }
  }

  lemma StructUnfold(v: Value, suffix: seq<byte>)
    requires v.HasFields() && Encodable(v)
    ensures var tags := SortedKeys(v.fields.Keys);
            && (forall t | t in tags :: t in v.fields)
            && EncodeStruct(v, false) + suffix == Fields(v, tags) + (Ending(true) + suffix)
            && |EncodeStruct(v, false)| == |Fields(v, tags)| + |Ending(true)|
            && EncodeStruct(v, true) == Fields(v, tags) + (Ending(false) + [])
  {
    hide Encodable, Fields, SortedKeys;
  }

  lemma {:induction false} StructRoundTrip(v: Value, suffix: seq<byte>)
    requires v.HasFields() && WellFormed(v) && Encodable(v)
    ensures ReadStruct(EncodeStruct(v, false) + suffix) == Ok(Norm(v).fields, |EncodeStruct(v, false)|)
    decreases v, 4
  {
    hide WellFormed, Encodable, Norm, NormFields, Fields, ReadFields, EncodeStruct, Ending, SortedKeys;
    var tags := SortedKeys(v.fields.Keys);
    StructUnfold(v, suffix);
    FieldsRoundTrip(v, tags, map[], true, suffix);
    NormFieldsAll(v);
    assert map[] + NormFields(v, tags) == NormFields(v, tags);
  }

  function NormEntries(v: Value, keys: seq<Value>): map<Value, Value>
    requires v.Map?
  {
    map k | k in keys && k in v.entries :: Norm(v.entries[k])
  }

  lemma NormEntriesStep(v: Value, keys: seq<Value>, out: map<Value, Value>)
    requires v.Map? && keys != [] && keys[0] in v.entries
    ensures out[keys[0] := Norm(v.entries[keys[0]])] + NormEntries(v, keys[1..]) == out + NormEntries(v, keys)
  {
    hide Norm;
  }

  lemma NormEntriesAll(v: Value)
    requires v.Map? && SortableKeys(v.entries.Keys)
    ensures Norm(v) == Map(NormEntries(v, SortedMapKeys(v.entries.Keys)))
  {
    hide SortedMapKeys;
    var n := NormEntries(v, SortedMapKeys(v.entries.Keys));
    assert n == map k | k in v.entries :: Norm(v.entries[k]);
  }

  lemma EntryFacts(v: Value, key: Value)
    requires v.Map? && WellFormed(v) && Encodable(v) && key in v.entries
    ensures key.Integer? || key.Str?
    ensures WellFormed(key) && Norm(key) == key && Encodable(key)
    ensures var w := v.entries[key]; WellFormed(w) && Encodable(w) && MapValueFits(w)
  {
  }

  lemma EntriesUnfold(v: Value, keys: seq<Value>, tail: seq<byte>)
    requires v.Map? && Encodable(v) && keys != []
    requires forall k | k in keys :: k in v.entries
    ensures Encodable(keys[0]) && Encodable(v.entries[keys[0]])
    ensures var head := Body(keys[0]) + Body(v.entries[keys[0]]);
            Entries(v, keys) == head + Entries(v, keys[1..])
            && Entries(v, keys) + tail == head + (Entries(v, keys[1..]) + tail)
  {
    hide Encodable, Body, Entries;
    EntryEncodes(v, keys[0]);
    EntriesHead(v, keys);
    var head := Body(keys[0]) + Body(v.entries[keys[0]]);
    assert head + Entries(v, keys[1..]) + tail == head + (Entries(v, keys[1..]) + tail);
  }

  lemma EntriesHead(v: Value, keys: seq<Value>)
    requires v.Map? && Encodable(v) && keys != []
    requires forall k | k in keys :: k in v.entries
    requires Encodable(keys[0]) && Encodable(v.entries[keys[0]])
    ensures Entries(v, keys) == Body(keys[0]) + Body(v.entries[keys[0]]) + Entries(v, keys[1..])
  {
    hide Body;
  }

  lemma EntryEncodes(v: Value, key: Value)
    requires v.Map? && Encodable(v) && key in v.entries
    ensures Encodable(key) && Encodable(v.entries[key])
  {
  }

  lemma EntriesEnd(v: Value, keyType: byte, valType: byte, out: map<Value, Value>, suffix: seq<byte>)
    requires v.Map? && Encodable(v)
    ensures Entries(v, []) == [] && Entries(v, []) + suffix == suffix
    ensures ReadEntries(keyType, valType, 0, out, suffix) == Ok(out, 0)
    ensures out + NormEntries(v, []) == out
  {
    hide Norm;
  }

  lemma {:induction false} EntriesRoundTrip(v: Value, keyType: byte, valType: byte, keys: seq<Value>, out: map<Value, Value>, suffix: seq<byte>)
    requires v.Map? && WellFormed(v) && Encodable(v)
    requires forall k | k in keys :: k in v.entries && TypeByte(k) == keyType && TypeByte(v.entries[k]) == valType
    ensures ReadEntries(keyType, valType, |keys|, out, Entries(v, keys) + suffix) == Ok(out + NormEntries(v, keys), |Entries(v, keys)|)
    decreases v, 3, |keys|
  {
    hide WellFormed, Encodable, Norm, NormEntries, Body, Entries, ReadEntries, ReadValue;
    if keys == [] {
      EntriesEnd(v, keyType, valType, out, suffix);
    } else {
      var key, w := keys[0], v.entries[keys[0]];
      EntryFacts(v, key);
      EntriesUnfold(v, keys, suffix);
      NormEntriesStep(v, keys, out);
      var rest := Entries(v, keys[1..]) + suffix;
      ScalarRoundTrip(key, Body(w) + rest);
      ValueRoundTrip(w, rest);
      EntryStep(keyType, valType, |keys|, out, key, Body(key), Norm(w), Body(w), rest);
      EntriesRoundTrip(v, keyType, valType, keys[1..], out[key := Norm(w)], suffix);
    }
  }

  lemma MapUnfold(v: Value)
    requires v.Map? && WellFormed(v) && Encodable(v)
    ensures var keys := SortedMapKeys(v.entries.Keys);
            && keys != []
            && (forall k | k in keys :: k in v.entries && TypeByte(k) == TypeByte(keys[0])
                                        && TypeByte(v.entries[k]) == TypeByte(v.entries[keys[0]]))
            && |keys| == |v.entries| < MAX_LENGTH
            && Body(v) == [TypeByte(keys[0]), TypeByte(v.entries[keys[0]])] + Varint.Encode(|keys|) + Entries(v, keys)
  {
    hide SortedMapKeys, Entries, Varint.Encode;
    var keys := SortedMapKeys(v.entries.Keys);
    assert keys[0] in v.entries;
    assert LeafType(v.entries[keys[0]]) == TypeByte(v.entries[keys[0]]);
  }

  lemma {:induction false} MapRoundTrip(v: Value, suffix: seq<byte>)
    requires v.Map? && WellFormed(v) && Encodable(v)
    ensures ReadMap(Body(v) + suffix) == Ok(Norm(v), |Body(v)|)
    decreases v, 5
  {
    hide WellFormed, SortedMapKeys, NormEntries, Norm, Body, Entries, ReadMap, ReadEntries;
    var keys := SortedMapKeys(v.entries.Keys);
    MapUnfold(v);
    var keyType, valType := TypeByte(keys[0]), TypeByte(v.entries[keys[0]]);
    EntriesRoundTrip(v, keyType, valType, keys, map[], suffix);
    assert map[] + NormEntries(v, keys) == NormEntries(v, keys);
    MapReads(keyType, valType, |keys|, Entries(v, keys), NormEntries(v, keys), suffix);
    NormEntriesAll(v);
  }

  /** Every well-formed value is read back, normalised, from exactly its own bytes. */
  lemma {:induction false} ValueRoundTrip(v: Value, suffix: seq<byte>)
    requires WellFormed(v) && !v.ArmedStruct? && Encodable(v)
    ensures ReadValue(TypeByte(v), Body(v) + suffix) == Ok(Norm(v), |Body(v)|)
    decreases v, 6
  {
    hide WellFormed, Norm, Body, ReadValue, ReadStruct, ReadList, ReadMap, ReadUnion, ReadVariable;
    Dispatch(Body(v) + suffix);
    match v
    case Struct(_) => NestedStructRoundTrip(v, suffix);
    case List(items) => ListRoundTrip(v, TypeByte(items[0]), suffix);
    case TypedList(elemType, _) => ListRoundTrip(v, elemType, suffix);
    case Map(_) => MapRoundTrip(v, suffix);
    case Union(_, _, _) => UnionRoundTrip(v, suffix);
    case Variable(_, _, _) => VariableRoundTrip(v, suffix);
    case Nil => NilIsNotWellFormed();
    case _ => ScalarRoundTrip(v, suffix);
  }

  lemma NilIsNotWellFormed()
    ensures !WellFormed(Nil)
  {
  }

  lemma {:induction false} NestedStructRoundTrip(v: Value, suffix: seq<byte>)
    requires v.Struct? && WellFormed(v) && Encodable(v)
    ensures ReadValue(3, Body(v) + suffix) == Ok(Norm(v), |Body(v)|)
    decreases v, 5
  {
    hide WellFormed, Encodable, Norm, EncodeStruct, ReadStruct;
    StructRoundTrip(v, suffix);
    NormFieldsAll(v);
  }

  /** A nested struct is self-delimiting; a root struct fills its buffer. */
  lemma {:induction false} PacketRoundTrip(v: Value, suffix: seq<byte>)
    requires v.Struct? && WellFormed(v)
    ensures Encodable(v)
    ensures ReadStruct(EncodeStruct(v, false) + suffix) == Ok(Norm(v).fields, |EncodeStruct(v, false)|)
    ensures ReadStruct(EncodeStruct(v, true)) == Ok(Norm(v).fields, |EncodeStruct(v, true)|)
  {
    WellFormedEncodes(v);
    hide WellFormed, Encodable, Norm, NormFields, Fields, ReadFields, EncodeStruct, SortedKeys;
    StructRoundTrip(v, suffix);
    var tags := SortedKeys(v.fields.Keys);
    StructUnfold(v, []);
    FieldsRoundTrip(v, tags, map[], false, []);
    NormFieldsAll(v);
    assert map[] + NormFields(v, tags) == NormFields(v, tags);
  }
}
