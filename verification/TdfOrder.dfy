/** The order of fields on the wire. */
module TdfOrder {
  import opened Bytes
  import opened Ordering
  import opened TdfValues
  import opened TdfTags
  import opened TdfEncoder
  import opened TdfRoundTrip
  import opened TdfReencode

  /** The 24-bit number a field opens with. */
  function WireTag(field: seq<byte>): nat
    requires |field| >= 3
  {
    field[0] as int * 0x1_0000 + field[1] as int * 0x100 + field[2] as int
  }

  /** The fields a struct writes, in the order it writes them. */
  function WrittenFields(v: Value, tags: seq<Text>): seq<seq<byte>>
    requires v.HasFields() && Encodable(v) && forall t | t in tags :: t in v.fields
  {
    if tags == [] then [] else [Field(v, tags[0])] + WrittenFields(v, tags[1..])
  }

  function Join(parts: seq<seq<byte>>): seq<byte>
  {
    if parts == [] then [] else parts[0] + Join(parts[1..])
  }

  /** The nonempty fields of a struct. */
  function WireFields(v: Value): seq<seq<byte>>
    requires v.HasFields() && Encodable(v)
  {
    WrittenFields(v, Kept(v, KeptTags(v)))
  }

  function KeptTags(v: Value): (tags: seq<Text>)
    requires v.HasFields()
    ensures forall t | t in tags :: t in v.fields
    ensures forall t | t in Kept(v, tags) :: t in v.fields
  {
    SortedKeysIncreasing(v.fields.Keys);
    KeptSpec(v, SortedKeys(v.fields.Keys));
    SortedKeys(v.fields.Keys)
  }

  lemma {:induction false} WrittenSpec(v: Value, tags: seq<Text>)
    requires v.HasFields() && Encodable(v) && forall t | t in tags :: t in v.fields
    ensures |WrittenFields(v, tags)| == |tags|
    ensures forall i | 0 <= i < |tags| :: WrittenFields(v, tags)[i] == Field(v, tags[i])
    ensures Join(WrittenFields(v, tags)) == Fields(v, tags)
    decreases |tags|
  {
    hide Encodable, Field;
    if tags != [] {
      WrittenSpec(v, tags[1..]);
      assert WrittenFields(v, tags)[1..] == WrittenFields(v, tags[1..]);
    }
  }

  lemma {:induction false} KeptWrites(v: Value, tags: seq<Text>)
    requires v.HasFields() && Encodable(v) && (forall t | t in tags :: t in v.fields) && forall t | t in Kept(v, tags) :: t in v.fields
    ensures Fields(v, Kept(v, tags)) == Fields(v, tags)
    decreases |tags|
  {
    hide Encodable, Field;
    if tags != [] {
      KeptMore(v, tags);
      KeptWrites(v, tags[1..]);
      FieldOf(v, tags[0]);
      if !IsEmptyCollection(v.fields[tags[0]]) {
        assert Kept(v, tags)[1..] == Kept(v, tags[1..]);
      } else {
        assert Kept(v, tags) == Kept(v, tags[1..]);
      }
    }
  }

  lemma KeptMore(v: Value, tags: seq<Text>)
    requires v.HasFields() && tags != [] && (forall t | t in tags :: t in v.fields) && forall t | t in Kept(v, tags) :: t in v.fields
    ensures forall t | t in Kept(v, tags[1..]) :: t in v.fields
  {
    assert forall t | t in Kept(v, tags[1..]) :: t in Kept(v, tags);
  }

  /** A kept field opens with its tag. */
  lemma FieldOpens(v: Value, tag: Text)
    requires v.HasFields() && WellFormed(v) && Encodable(v) && tag in v.fields && !IsEmptyCollection(v.fields[tag])
    ensures |Field(v, tag)| >= 4 && Field(v, tag)[0] >= 0x80 && WireTag(Field(v, tag)) == Pack(tag, 4) && IsTag(tag)
  {
    FieldFacts(v, tag);
    FieldTagTopBit(tag);
    PackBound(tag, 4);
    var b := EncodeTag(tag);
    assert WireTag(b) == Pack(tag, 4);
    hide Encodable, WellFormed, Field, Body, Pack;
    assert Field(v, tag)[..3] == b;
  }

  /** A struct's encoding is its nonempty fields, each opening with a byte of at least 0x80, in
      strictly increasing order of their 24-bit tags, and below the root a terminator. */
  lemma FieldsInTagOrder(v: Value, root: bool)
    requires v.HasFields() && WellFormed(v) && Encodable(v)
    ensures EncodeStruct(v, root) == Join(WireFields(v)) + if root then [] else [0]
    ensures forall i | 0 <= i < |WireFields(v)| :: |WireFields(v)[i]| >= 4 && WireFields(v)[i][0] >= 0x80
    ensures forall i, j | 0 <= i < j < |WireFields(v)| :: WireTag(WireFields(v)[i]) < WireTag(WireFields(v)[j])
  {
    hide Encodable, WellFormed, Field, Fields, Kept, SortedKeys, WireTag, Pack;
    var tags := KeptTags(v);
    var kept := Kept(v, tags);
    SortedKeysIncreasing(v.fields.Keys);
    KeptSpec(v, tags);
    KeptWrites(v, tags);
    WrittenSpec(v, kept);
    forall i | 0 <= i < |kept|
      ensures |Field(v, kept[i])| >= 4 && Field(v, kept[i])[0] >= 0x80 && WireTag(Field(v, kept[i])) == Pack(kept[i], 4) && IsTag(kept[i])
    {
      FieldOpens(v, kept[i]);
    }
    forall i, j | 0 <= i < j < |kept|
      ensures Pack(kept[i], 4) < Pack(kept[j], 4)
    {
      assert Less(Itself(kept[i]), Itself(kept[j]));
      TagOrder(kept[i], kept[j]);
    }
  }
}
