/** The encoder as functions on values; TdfLoops holds the loops that compute them. */
module TdfEncoder {
  import opened Bytes
  import opened TdfValues
  import opened TdfTags
  import Varint = TdfVarint

  /** What the encoder demands: a list or map that is not itself a struct field has a first
      element to take a type from, and map keys have one printable type, without which the
      source's unstable sort leaves the order open. */
  predicate Encodable(v: Value)
  {
    match v
    case Struct(fields) => forall t | t in fields :: IsEmptyCollection(fields[t]) || Encodable(fields[t])
    case ArmedStruct(_, fields) => forall t | t in fields :: IsEmptyCollection(fields[t]) || Encodable(fields[t])
    case List(items) => items != [] && forall i | 0 <= i < |items| :: Encodable(items[i])
    case TypedList(_, items) => forall i | 0 <= i < |items| :: Encodable(items[i])
    case Map(entries) =>
      && entries != map[] && SortableKeys(entries.Keys)
      && forall k | k in entries :: Encodable(entries[k])
    case Union(member, _, value) => InvalidMember(member) || Encodable(value)
    case Variable(_, _, value) => value == Nil || Encodable(value)
    case _ => true
  }

  /** The type byte a map announces for its values. Go ranges over a nested map in random order;
      the first key in sorted order stands for whichever it meets. */
  function LeafType(v: Value): byte
  {
    match v
    case List(items) => if items == [] then 3 else LeafType(items[0])
    case Map(entries) =>
      if entries == map[] || !SortableKeys(entries.Keys) then 3
      else LeafType(entries[SortedMapKeys(entries.Keys)[0]])
    case _ => TypeByte(v)
  }

  /** The bytes after a value's type byte. */
  function Body(v: Value): seq<byte>
    requires Encodable(v)
    decreases v, 1
  {
    match v
    case Integer(n) => Varint.Encode(n)
    case Boolean(b) => Varint.Encode(if b then 1 else 0)
    case Str(text) => Varint.Encode(|text| + 1) + text + [0]
    case Blob(bytes) => Varint.Encode(|bytes|) + bytes
    case Struct(_) => EncodeStruct(v, false)
    case ArmedStruct(arm, _) => [arm] + EncodeStruct(v, false)
    case List(items) => [TypeByte(items[0])] + Varint.Encode(|items|) + Items(items)
    case TypedList(elemType, items) => [elemType] + Varint.Encode(|items|) + Items(items)
    case Map(entries) =>
      var keys := SortedMapKeys(entries.Keys);
      [TypeByte(keys[0]), LeafType(entries[keys[0]])] + Varint.Encode(|entries|) + Entries(v, keys)
    case Float(bits) => PutUint32(bits)
    case ObjectType(component, typ) => Varint.Encode(component) + Varint.Encode(typ)
    case ObjectID(component, typ, id) => Varint.Encode(component) + Varint.Encode(typ) + Varint.Encode(id)
    case Union(member, field, value) =>
      [member] + if InvalidMember(member) then [] else EncodeTag(field) + [TypeByte(value)] + Body(value)
    case Variable(tdfID, field, value) =>
      if value == Nil then [0]
      else [1] + Varint.Encode(tdfID) + EncodeTag(field) + [TypeByte(value)] + Body(value) + [0]
    case Nil => []
  }

  /** encodeStruct: the fields in tag order and, below the root, a terminator. */
  function EncodeStruct(v: Value, root: bool): seq<byte>
    requires v.HasFields() && Encodable(v)
    decreases v, 0, |v.fields| + 1
  {
    Fields(v, SortedKeys(v.fields.Keys)) + if root then [] else [0]
  }

  /** The fields of `v` named by `tags`, in that order. */
  function Fields(v: Value, tags: seq<Text>): seq<byte>
    requires v.HasFields() && Encodable(v)
    requires forall t | t in tags :: t in v.fields
    decreases v, 0, |tags|
  {
    if tags == [] then [] else Field(v, tags[0]) + Fields(v, tags[1..])
  }

  /** One field: nothing for an empty collection, else tag, type byte and body. */
  function Field(v: Value, tag: Text): seq<byte>
    requires v.HasFields() && Encodable(v) && tag in v.fields
    decreases v, 0, 0
  {
    var f := v.fields[tag];
    if IsEmptyCollection(f) then [] else EncodeTag(tag) + [TypeByte(f)] + Body(f)
  }

  function Items(items: seq<Value>): seq<byte>
    requires forall i | 0 <= i < |items| :: Encodable(items[i])
    decreases items, 0
  {
    if items == [] then [] else Body(items[0]) + Items(items[1..])
  }

  /** The entries of `v` at `keys`: each key's body, then its value's. */
  function Entries(v: Value, keys: seq<Value>): seq<byte>
    requires v.Map? && Encodable(v)
    requires forall k | k in keys :: k in v.entries
    decreases v, 0, |keys|
  {
    if keys == [] then []
    else
      assert keys[0] in v.entries;
      assert Encodable(keys[0]);
      Body(keys[0]) + Body(v.entries[keys[0]]) + Entries(v, keys[1..])
  }
}
