/** The values a TDF packet carries: the Go types the encoder switches on and the decoder builds. */
module TdfValues {
  import opened Bytes
  import opened Ordering
  import opened TdfTags

  /** Integer is int64, Boolean is bool, Str is string, Blob is []byte, Struct is
      map[string]interface{}, List is []interface{}, Map is map[interface{}]interface{},
      Float is float32 by its bits and Nil is a nil interface. */
  datatype Value =
    | Integer(int_: int64)
    | Boolean(bool_: bool)
    | Str(text: Text)
    | Blob(bytes: seq<byte>)
    | Struct(fields: map<Text, Value>)
    | ArmedStruct(arm: byte, fields: map<Text, Value>)
    | List(items: seq<Value>)
    | TypedList(elemType: byte, items: seq<Value>)
    | Map(entries: map<Value, Value>)
    | Union(activeMember: byte, field: Text, value: Value)
    | Variable(tdfID: uint32, field: Text, value: Value)
    | ObjectType(component: uint16, typ: uint16)
    | ObjectID(component: uint16, typ: uint16, id: int64)
    | Float(bits: uint32)
    | Nil
  {
    predicate HasFields() { Struct? || ArmedStruct? }
  }

  function TypeByte(v: Value): byte
  {
    match v
    case Integer(_) => 0
    case Boolean(_) => 0
    case Str(_) => 1
    case Blob(_) => 2
    case Struct(_) => 3
    case ArmedStruct(_, _) => 3
    case List(_) => 4
    case TypedList(_, _) => 4
    case Map(_) => 5
    case Union(_, _, _) => 6
    case Variable(_, _, _) => 7
    case ObjectType(_, _) => 8
    case ObjectID(_, _, _) => 9
    case Float(_) => 10
    case Nil => 0xff
  }

  /** Collections the encoder leaves out when they are struct fields. */
  predicate IsEmptyCollection(v: Value)
  {
    (v.List? && v.items == []) || (v.Map? && v.entries == map[])
  }

  /** INVALID_MEMBER_INDEX, in either width: the union carries no element. */
  predicate InvalidMember(activeMember: byte)
  {
    activeMember == 0xff || activeMember == 0x7f
  }

  // ---- map keys as fmt prints them ---------------------------------------------------------

  function Digits(n: nat): Text
  {
    if n < 10 then [0x30 + n] else Digits(n / 10) + [0x30 + n % 10]
  }

  function PrintInt(n: int): Text
  {
    if n < 0 then [0x2d] + Digits(-n) else Digits(n)
  }

  /** fmt.Sprintf("%v", key) for the two key types the wire format uses. */
  function PrintKey(key: Value): Text
  {
    match key
    case Integer(n) => PrintInt(n)
    case Str(text) => text
    case _ => []
  }

  /** Keys of one printable type: their sorted order does not depend on the sort. */
  predicate SortableKeys(keys: set<Value>)
  {
    (forall k | k in keys :: k.Integer?) || (forall k | k in keys :: k.Str?)
  }

  lemma {:induction false} DigitsInjective(a: nat, b: nat)
    requires Digits(a) == Digits(b)
    ensures a == b
  {
    DigitsNonempty(a / 10);
    DigitsNonempty(b / 10);
    if a >= 10 && b >= 10 {
      var x, y := Digits(a), Digits(b);
      assert x[..|x| - 1] == Digits(a / 10) && y[..|y| - 1] == Digits(b / 10);
      assert x[|x| - 1] == 0x30 + a % 10 && y[|y| - 1] == 0x30 + b % 10;
      DigitsInjective(a / 10, b / 10);
    }
  }

  lemma {:induction false} DigitsNonempty(n: nat)
    ensures |Digits(n)| >= 1 && forall i | 0 <= i < |Digits(n)| :: 0x30 <= Digits(n)[i] <= 0x39
  {
    if n >= 10 {
      DigitsNonempty(n / 10);
    }
  }

  lemma PrintIntSign(n: int)
    ensures PrintInt(n) != [] && (PrintInt(n)[0] == 0x2d <==> n < 0)
  {
    DigitsNonempty(if n < 0 then -n else n);
  }

  lemma {:induction false} PrintIntInjective(a: int, b: int)
    requires PrintInt(a) == PrintInt(b)
    ensures a == b
  {
    PrintIntSign(a);
    PrintIntSign(b);
    if a < 0 {
      assert PrintInt(a)[1..] == Digits(-a) && PrintInt(b)[1..] == Digits(-b);
      DigitsInjective(-a, -b);
    } else {
      DigitsInjective(a, b);
    }
  }

  lemma SortableKeysDistinct(keys: set<Value>)
    requires SortableKeys(keys)
    ensures Distinct(keys, PrintKey)
  {
    forall a, b | a in keys && b in keys && PrintKey(a) == PrintKey(b)
      ensures a == b
    {
      if a.Integer? {
        PrintIntInjective(a.int_, b.int_);
      }
    }
  }

  /** sortedMapKeys */
  function SortedMapKeys(keys: set<Value>): (listing: seq<Value>)
    requires SortableKeys(keys)
    ensures |listing| == |keys| && forall k :: k in listing <==> k in keys
  {
    SortableKeysDistinct(keys);
    Sorted(keys, PrintKey)
  }

  /** sortedKeys */
  function SortedKeys(keys: set<Text>): (listing: seq<Text>)
    ensures |listing| == |keys| && forall k :: k in listing <==> k in keys
  {
    Sorted(keys, Itself)
  }

  function Itself(t: Text): Text { t }

  /** SortedKeys is the only increasing listing of the tags. */
  lemma SortedKeysUnique(listing: seq<Text>, keys: set<Text>)
    requires forall k :: k in listing <==> k in keys
    requires Increasing(listing, Itself)
    ensures listing == SortedKeys(keys)
  {
    SortedIsUnique(listing, keys, Itself);
  }

  lemma SortedKeysIncreasing(keys: set<Text>)
    ensures Increasing(SortedKeys(keys), Itself)
  {
  }
}
