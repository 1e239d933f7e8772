/** The decoder as functions on byte sequences; TdfLoops holds the loops that compute them.
    Every reader gets the rest of the buffer and reports how much of it was consumed. */
module TdfDecoder {
  import opened Bytes
  import opened TdfValues
  import opened TdfTags
  import Varint = TdfVarint

  /** What a reader can do: panic (a negative slice bound, a negative allocation or an unhashable
      map key), report failure as a consumed count of -1, with the fields read so far for a struct,
      or succeed. */
  datatype Read<T> = Panic | Fail(partial: T) | Ok(value: T, read: nat)
  {
    /** The same outcome for a reader that started `n` bytes earlier. */
    function After(n: nat): Read<T>
    {
      if Ok? then Ok(value, n + read) else this
    }

    predicate Within(buffer: seq<byte>) { Ok? ==> read <= |buffer| }
  }

  /** Keys a Go map accepts at run time; slices and maps inside an interface panic. */
  predicate Hashable(v: Value)
  {
    match v
    case Blob(_) => false
    case Struct(_) => false
    case ArmedStruct(_, _) => false
    case List(_) => false
    case TypedList(_, _) => false
    case Map(_) => false
    case Union(_, _, value) => Hashable(value)
    case Variable(_, _, value) => Hashable(value)
    case _ => true
  }

  /** Where a length-prefixed run of bytes lies: the length's own size and the length, or how the
      reader gives up. `least` is the smallest length the reader accepts without failing. */
  function ReadLength(buffer: seq<byte>, least: int): (r: Read<nat>)
    requires least <= 1
    ensures r.Ok? ==> r.value >= least && r.read + r.value <= |buffer|
  {
    var (length, read) := Varint.Decode(buffer);
    if length < least && least > 0 then Fail(0)
    else if length < 0 || read + length >= TWO_63 then Panic
    else if read + length > |buffer| then Fail(0)
    else Ok(length, read)
  }

  function ReadValue(typ: byte, buffer: seq<byte>): (r: Read<Value>)
    ensures r.Within(buffer)
    decreases |buffer|, 2, 0
  {
    match typ
    case 0 => var (n, read) := Varint.Decode(buffer); Ok(Integer(n), read)
    case 1 => ReadString(buffer)
    case 2 => ReadBlob(buffer)
    case 3 =>
      (match ReadStruct(buffer)
       case Panic => Panic
       case Fail(_) => Fail(Nil)
       case Ok(fields, read) => Ok(Struct(fields), read))
    case 4 => ReadList(buffer)
    case 5 => ReadMap(buffer)
    case 6 => ReadUnion(buffer)
    case 7 => ReadVariable(buffer)
    case 8 => ReadObjectType(buffer)
    case 9 => ReadObjectID(buffer)
    case 10 => if |buffer| < 4 then Fail(Nil) else Ok(Float(GetUint32(buffer[..4])), 4)
    case 11 => var (n, read) := Varint.Decode(buffer); Ok(Integer(n), read)
    case 12 => ReadVariable(buffer)
    case _ => Fail(Nil)
  }

  function ReadObjectType(buffer: seq<byte>): (r: Read<Value>)
    ensures r.Within(buffer)
  {
    var (component, a) := Varint.Decode(buffer);
    var (typ, b) := Varint.Decode(buffer[a..]);
    Ok(ObjectType(component as int % 0x1_0000, typ as int % 0x1_0000), a + b)
  }

  function ReadObjectID(buffer: seq<byte>): (r: Read<Value>)
    ensures r.Within(buffer)
  {
    var (component, a) := Varint.Decode(buffer);
    var (typ, b) := Varint.Decode(buffer[a..]);
    var (id, c) := Varint.Decode(buffer[a + b..]);
    Ok(ObjectID(component as int % 0x1_0000, typ as int % 0x1_0000, id), a + b + c)
  }

  /** LIST: element type, count, elements. A negative count is a negative allocation. */
  function ReadList(buffer: seq<byte>): (r: Read<Value>)
    ensures r.Within(buffer)
    decreases |buffer|, 1, 0
  {
    if buffer == [] then Fail(Nil)
    else
      var (count, read) := Varint.Decode(buffer[1..]);
      if count < 0 then Panic
      else
        match ReadItems(buffer[0], count, buffer[1 + read..])
        case Panic => Panic
        case Fail(_) => Fail(Nil)
        case Ok(items, more) => Ok(List(items), 1 + read + more)
  }

  /** MAP: key type, value type, count, entries. A negative count reads as an empty map. */
  function ReadMap(buffer: seq<byte>): (r: Read<Value>)
    ensures r.Within(buffer)
    decreases |buffer|, 1, 0
  {
    if |buffer| < 2 then Fail(Nil)
    else
      var (count, read) := Varint.Decode(buffer[2..]);
      match ReadEntries(buffer[0], buffer[1], if count < 0 then 0 else count, map[], buffer[2 + read..])
      case Panic => Panic
      case Fail(_) => Fail(Nil)
      case Ok(entries, more) => Ok(Map(entries), 2 + read + more)
  }

  /** UNION: active member and, for a valid one, its element. */
  function ReadUnion(buffer: seq<byte>): (r: Read<Value>)
    ensures r.Within(buffer)
    decreases |buffer|, 1, 0
  {
    if buffer == [] then Fail(Nil)
    else if InvalidMember(buffer[0]) then Ok(Union(buffer[0], [], Nil), 1)
    else
      match ReadElement(buffer[1..])
      case Panic => Panic
      case Fail(_) => Fail(Nil)
      case Ok(element, read) => Ok(Union(buffer[0], element.0, element.1), 1 + read)
  }

  function ReadString(buffer: seq<byte>): (r: Read<Value>)
    ensures r.Within(buffer)
  {
    match ReadLength(buffer, 1)
    case Panic => Panic
    case Fail(_) => Fail(Nil)
    case Ok(length, read) => Ok(Str(buffer[read..read + length - 1]), read + length)
  }

  function ReadBlob(buffer: seq<byte>): (r: Read<Value>)
    ensures r.Within(buffer)
  {
    match ReadLength(buffer, 0)
    case Panic => Panic
    case Fail(_) => Fail(Nil)
    case Ok(length, read) => Ok(Blob(buffer[read..read + length]), read + length)
  }

  /** VARIABLE and GENERIC: presence byte, id, element, and a terminator if one is there. */
  function ReadVariable(buffer: seq<byte>): (r: Read<Value>)
    ensures r.Within(buffer)
    decreases |buffer|, 1, 0
  {
    if buffer == [] then Fail(Nil)
    else if buffer[0] == 0 then Ok(Variable(0, [], Nil), 1)
    else
      var (id, a) := Varint.Decode(buffer[1..]);
      var start := 1 + a;
      match ReadElement(buffer[start..])
      case Panic => Panic
      case Fail(_) => Fail(Nil)
      case Ok(element, b) =>
        var end := start + b;
        var terminated := end < |buffer| && buffer[end] == 0;
        Ok(Variable(id as int % 0x1_0000_0000, element.0, element.1), if terminated then end + 1 else end)
  }

  /** readElement: tag, type byte, value. */
  function ReadElement(buffer: seq<byte>): (r: Read<(Text, Value)>)
    ensures r.Within(buffer)
    decreases |buffer|, 1, 0
  {
    if |buffer| < 4 then Fail(([], Nil))
    else
      match ReadValue(buffer[3], buffer[4..])
      case Panic => Panic
      case Fail(_) => Fail(([], Nil))
      case Ok(v, read) => Ok((DecodeTag(buffer[..3]), v), 4 + read)
  }

  /** readStruct: fields up to a terminator or the end of the buffer. */
  function ReadStruct(buffer: seq<byte>): (r: Read<map<Text, Value>>)
    ensures r.Within(buffer)
    decreases |buffer|, 1, 0
  {
    ReadFields(map[], buffer)
  }

  function ReadFields(out: map<Text, Value>, buffer: seq<byte>): (r: Read<map<Text, Value>>)
    ensures r.Within(buffer)
    decreases |buffer|, 0, 0
  {
    if buffer == [] then Ok(out, 0)
    else if buffer[0] == 0 then Ok(out, 1)
    else if |buffer| < 4 then Fail(out)
    else
      match ReadValue(buffer[3], buffer[4..])
      case Panic => Panic
      case Fail(_) => Fail(out)
      case Ok(v, read) => ReadFields(out[DecodeTag(buffer[..3]) := v], buffer[4 + read..]).After(4 + read)
  }

  /** True when the next element of a struct list opens with a polymorphic arm. */
  predicate ArmAhead(elemType: byte, buffer: seq<byte>)
  {
    elemType == 3 && buffer != [] && buffer[0] != 0 && buffer[0] < 0x80
  }

  function ReadItem(elemType: byte, buffer: seq<byte>): (r: Read<Value>)
    ensures r.Within(buffer)
    decreases |buffer|, 3, 0
  {
    if ArmAhead(elemType, buffer) then
      match ReadStruct(buffer[1..])
      case Panic => Panic
      case Fail(_) => Fail(Nil)
      case Ok(fields, read) => Ok(ArmedStruct(buffer[0], fields), 1 + read)
    else
      ReadValue(elemType, buffer)
  }

  /** The next `count` list elements. Elements may be empty on the wire, so the count, not the
      buffer, bounds the recursion. */
  function ReadItems(elemType: byte, count: nat, buffer: seq<byte>): (r: Read<seq<Value>>)
    ensures r.Within(buffer)
    decreases |buffer|, 4, count
  {
    if count == 0 then Ok([], 0)
    else
      match ReadItem(elemType, buffer)
      case Panic => Panic
      case Fail(_) => Fail([])
      case Ok(first, read) =>
        match ReadItems(elemType, count - 1, buffer[read..])
        case Panic => Panic
        case Fail(_) => Fail([])
        case Ok(rest, more) => Ok([first] + rest, read + more)
  }

  /** The next `count` map entries, added to `out`; a repeated key keeps its last value. */
  function ReadEntries(keyType: byte, valType: byte, count: nat, out: map<Value, Value>, buffer: seq<byte>)
    : (r: Read<map<Value, Value>>)
    ensures r.Within(buffer)
    decreases |buffer|, 4, count
  {
    if count == 0 then Ok(out, 0)
    else
      match ReadValue(keyType, buffer)
      case Panic => Panic
      case Fail(_) => Fail(out)
      case Ok(key, a) =>
        match ReadValue(valType, buffer[a..])
        case Panic => Panic
        case Fail(_) => Fail(out)
        case Ok(v, b) =>
          if !Hashable(key) then Panic
          else ReadEntries(keyType, valType, count - 1, out[key := v], buffer[a + b..]).After(a + b)
  }
}
