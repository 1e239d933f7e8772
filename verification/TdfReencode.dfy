/** When encoding what was decoded gives the same bytes back. */
module TdfReencode {
  import opened Bytes
  import opened Ordering
  import opened TdfValues
  import opened TdfTags
  import opened TdfEncoder
  import opened TdfDecoder
  import opened TdfRoundTrip
  import Varint = TdfVarint

  /** Nothing in the value is lost on a decoder: typed lists are nonempty, so that a list can stand
      for them, and are not map values, whose announced type is a leaf's for a list. */
  predicate Stable(v: Value)
  {
    match v
    case Struct(fields) => forall t | t in fields :: IsEmptyCollection(fields[t]) || Stable(fields[t])
    case ArmedStruct(_, fields) => forall t | t in fields :: IsEmptyCollection(fields[t]) || Stable(fields[t])
    case List(items) => forall i | 0 <= i < |items| :: Stable(items[i])
    case TypedList(_, items) => items != [] && forall i | 0 <= i < |items| :: Stable(items[i])
    case Map(entries) => forall k | k in entries :: Stable(entries[k]) && !entries[k].TypedList?
    case Union(member, _, value) => InvalidMember(member) || Stable(value)
    case Variable(_, _, value) => value == Nil || Stable(value)
    case _ => true
  }

  /** `b` is what is left of `a`: never longer, and the same exactly if `same`. */
  predicate Left(b: seq<byte>, a: seq<byte>, same: bool)
  {
    |b| <= |a| && (b == a <==> same)
  }

  lemma LeftConcat(b: seq<byte>, a: seq<byte>, same: bool, b': seq<byte>, a': seq<byte>, same': bool)
    requires Left(b, a, same) && Left(b', a', same')
    ensures Left(b + b', a + a', same && same')
  {
    if b + b' == a + a' {
      assert |b + b'| == |a + a'|;
      assert (b + b')[..|b|] == (a + a')[..|a|];
      assert (b + b')[|b|..] == (a + a')[|a|..];
    }
  }

  lemma LeftSame(a: seq<byte>)
    ensures Left(a, a, true)
  {
  }

  /** Normalising a value keeps its type, and leaves of its bytes exactly what is stable. */
  predicate Shrinks(v: Value)
    requires Encodable(v)
  {
    && (v != Nil ==> TypeByte(Norm(v)) == TypeByte(v))
    && (Stable(v) ==> Encodable(Norm(v)))
    && (Encodable(Norm(v)) ==> Left(Body(Norm(v)), Body(v), Stable(v)))
  }

  lemma NormType(v: Value)
    ensures TypeByte(Norm(v)) == TypeByte(v) && !Norm(v).TypedList?
  {
  }

  // ---- lists -------------------------------------------------------------------------------

  ghost predicate AllEncodable(items: seq<Value>)
  {
    forall i | 0 <= i < |items| :: Encodable(items[i])
  }

  ghost predicate AllStable(items: seq<Value>)
  {
    forall i | 0 <= i < |items| :: Stable(items[i])
  }

  ghost predicate AllWellFormed(items: seq<Value>)
  {
    forall i | 0 <= i < |items| :: WellFormed(items[i])
  }

  lemma ItemsParts(items: seq<Value>)
    requires AllEncodable(items) && AllWellFormed(items)
    ensures NormItems(items) == if items == [] then [] else [Norm(items[0])] + NormItems(items[1..])
    ensures AllEncodable(NormItems(items)) <==> items == [] || (Encodable(Norm(items[0])) && AllEncodable(NormItems(items[1..])))
    ensures AllStable(items) <==> items == [] || (Stable(items[0]) && AllStable(items[1..]))
    ensures items != [] ==> Encodable(items[0]) && WellFormed(items[0]) && AllEncodable(items[1..]) && AllWellFormed(items[1..])
  {
    hide Encodable, Norm, Stable, WellFormed, AllEncodable, AllStable, AllWellFormed;
    AllOfTail(items);
    AllOfTail(NormItems(items));
    if items != [] {
      assert NormItems(items) == [Norm(items[0])] + NormItems(items[1..]);
      assert NormItems(items)[1..] == NormItems(items[1..]);
    }
  }

  lemma AllOfTail(items: seq<Value>)
    ensures AllEncodable(items) <==> items == [] || (Encodable(items[0]) && AllEncodable(items[1..]))
    ensures AllStable(items) <==> items == [] || (Stable(items[0]) && AllStable(items[1..]))
    ensures AllWellFormed(items) <==> items == [] || (WellFormed(items[0]) && AllWellFormed(items[1..]))
  {
    hide Encodable, Stable, WellFormed;
    if items != [] {
      assert items == [items[0]] + items[1..];
    }
  }

  lemma {:induction false} ItemsShrink(items: seq<Value>)
    requires AllEncodable(items) && AllWellFormed(items)
    ensures AllStable(items) ==> AllEncodable(NormItems(items))
    ensures AllEncodable(NormItems(items)) ==> Left(Items(NormItems(items)), Items(items), AllStable(items))
    decreases items, 4
  {
    hide Encodable, Norm, Stable, WellFormed, AllStable, AllWellFormed, NormItems, Items, Body, Left;
    ItemsParts(items);
    if items != [] {
      ItemsShrink(items[1..]);
      ValueShrinks(items[0]);
      ShrinksMeans(items[0]);
      if AllEncodable(NormItems(items)) {
        ItemsConcat(items);
        LeftConcat(Body(Norm(items[0])), Body(items[0]), Stable(items[0]),
                   Items(NormItems(items[1..])), Items(items[1..]), AllStable(items[1..]));
      }
    } else {
      NoItems();
    }
  }

  lemma ShrinksMeans(v: Value)
    requires Encodable(v) && Shrinks(v)
    ensures Stable(v) ==> Encodable(Norm(v))
    ensures Encodable(Norm(v)) ==> Left(Body(Norm(v)), Body(v), Stable(v))
  {
  }

  lemma NoItems()
    ensures NormItems([]) == [] && Items([]) == [] && AllStable([]) && AllEncodable([]) && Left([], [], true)
  {
  }

  lemma ItemsConcat(items: seq<Value>)
    requires items != [] && AllEncodable(items) && AllWellFormed(items) && AllEncodable(NormItems(items))
    ensures Encodable(items[0]) && Encodable(Norm(items[0])) && AllEncodable(items[1..]) && AllEncodable(NormItems(items[1..]))
    ensures Items(items) == Body(items[0]) + Items(items[1..])
    ensures Items(NormItems(items)) == Body(Norm(items[0])) + Items(NormItems(items[1..]))
  {
    ItemsParts(items);
    hide Encodable, Norm, WellFormed, Body, NormItems, AllWellFormed;
    assert NormItems(items)[1..] == NormItems(items[1..]);
  }

  lemma {:induction false} ListShrinks(v: Value)
    requires (v.List? || v.TypedList?) && WellFormed(v) && Encodable(v)
    ensures Shrinks(v)
    decreases v, 5
  {
    var items := v.items;
    assert AllEncodable(items) && AllWellFormed(items);
    assert Norm(v) == List(NormItems(items));
    if items == [] {
      return;
    }
    ItemsShrink(items);
    NormType(items[0]);
    var head := [TypeByte(items[0])] + Varint.Encode(|items|);
    ListParts(v);
    hide Norm, WellFormed, NormItems, Items, Body, Left;
    if AllEncodable(NormItems(items)) {
      LeftSame(head);
      LeftConcat(head, head, true, Items(NormItems(items)), Items(items), AllStable(items));
    }
  }

  lemma ListParts(v: Value)
    requires (v.List? || v.TypedList?) && v.items != [] && WellFormed(v) && Encodable(v)
    ensures var head := [TypeByte(v.items[0])] + Varint.Encode(|v.items|);
            && AllEncodable(v.items) && Body(v) == head + Items(v.items)
            && (Encodable(Norm(v)) <==> AllEncodable(NormItems(v.items)))
            && (Encodable(Norm(v)) ==> Body(Norm(v)) == head + Items(NormItems(v.items)))
            && (Stable(v) <==> AllStable(v.items))
  {
    NormType(v.items[0]);
    assert Norm(v) == List(NormItems(v.items));
    assert NormItems(v.items)[0] == Norm(v.items[0]);
    hide Varint.Encode, Items;
  }

  // ---- structs -----------------------------------------------------------------------------

  /** The tags whose fields are not empty collections, in order. */
  function Kept(v: Value, tags: seq<Text>): seq<Text>
    requires v.HasFields() && forall t | t in tags :: t in v.fields
  {
    if tags == [] then []
    else (if IsEmptyCollection(v.fields[tags[0]]) then [] else [tags[0]]) + Kept(v, tags[1..])
  }

  lemma {:induction false} KeptSpec(v: Value, tags: seq<Text>)
    requires v.HasFields() && (forall t | t in tags :: t in v.fields) && Increasing(tags, Itself)
    ensures Increasing(Kept(v, tags), Itself)
    ensures forall t | t in Kept(v, tags) :: t in tags && !IsEmptyCollection(v.fields[t])
    ensures forall t | t in tags && !IsEmptyCollection(v.fields[t]) :: t in Kept(v, tags)
    decreases |tags|
  {
    if tags != [] {
      var rest := Kept(v, tags[1..]);
      assert tags == [tags[0]] + tags[1..];
      KeptSpec(v, tags[1..]);
      forall j | 0 <= j < |rest|
        ensures Less(Itself(tags[0]), Itself(rest[j]))
      {
        assert rest[j] in tags[1..];
        var i :| 0 <= i < |tags| - 1 && tags[1..][i] == rest[j];
        assert Less(Itself(tags[0]), Itself(tags[i + 1]));
      }
    }
  }

  /** Normalising drops the empty fields and keeps the others in order. */
  lemma NormKeys(v: Value)
    requires v.HasFields()
    ensures var tags := SortedKeys(v.fields.Keys);
            && Norm(v).HasFields() && Kept(v, tags) == SortedKeys(Norm(v).fields.Keys)
            && (forall t | t in v.fields && !IsEmptyCollection(v.fields[t]) :: t in Norm(v).fields && Norm(v).fields[t] == Norm(v.fields[t]))
            && (forall t | t in Norm(v).fields :: t in v.fields && !IsEmptyCollection(v.fields[t]))
  {
    var tags := SortedKeys(v.fields.Keys);
    SortedKeysIncreasing(v.fields.Keys);
    KeptSpec(v, tags);
    SortedKeysUnique(Kept(v, tags), Norm(v).fields.Keys);
  }

  ghost predicate FieldsStable(v: Value, tags: seq<Text>)
    requires v.HasFields() && forall t | t in tags :: t in v.fields
  {
    forall t | t in tags :: IsEmptyCollection(v.fields[t]) || Stable(v.fields[t])
  }

  /** A kept field is an empty collection after normalisation only if it was an empty typed list. */
  lemma FieldShrinks(v: Value, tag: Text)
    requires v.HasFields() && WellFormed(v) && Encodable(v) && tag in v.fields && !IsEmptyCollection(v.fields[tag])
    requires Encodable(Norm(v)) && Encodable(v.fields[tag]) && Shrinks(v.fields[tag])
    ensures tag in Norm(v).fields && Left(Field(Norm(v), tag), Field(v, tag), Stable(v.fields[tag]))
  {
    var f := v.fields[tag];
    var n := Norm(v);
    FieldFacts(v, tag);
    NormKeys(v);
    NormType(f);
    FieldOf(n, tag);
    EmptyNorm(f);
    ShrinksMeans(f);
    hide WellFormed, Norm, Body, Stable, Field, EncodeTag, Shrinks, TypeByte, SortedKeys;
    if !IsEmptyCollection(Norm(f)) {
      var head := EncodeTag(tag) + [TypeByte(f)];
      LeftSame(head);
      LeftConcat(head, head, true, Body(Norm(f)), Body(f), Stable(f));
    }
  }

  lemma FieldOf(v: Value, tag: Text)
    requires v.HasFields() && Encodable(v) && tag in v.fields
    ensures var f := v.fields[tag];
            if IsEmptyCollection(f) then Field(v, tag) == []
            else Encodable(f) && Field(v, tag) == EncodeTag(tag) + [TypeByte(f)] + Body(f)
  {
    hide EncodeTag, Body, TypeByte;
  }

  lemma EmptyNorm(f: Value)
    requires WellFormed(f) && !IsEmptyCollection(f)
    ensures IsEmptyCollection(Norm(f)) ==> !Stable(f)
  {
    if f.Map? {
      var k :| k in f.entries;
      assert k in Norm(f).entries;
    }
  }

  lemma {:induction false} FieldsShrink(v: Value, tags: seq<Text>)
    requires v.HasFields() && WellFormed(v) && Encodable(v) && Encodable(Norm(v))
    requires forall t | t in tags :: t in v.fields
    ensures forall t | t in Kept(v, tags) :: t in Norm(v).fields
    ensures Norm(v).HasFields() && Left(Fields(Norm(v), Kept(v, tags)), Fields(v, tags), FieldsStable(v, tags))
    decreases v, 3, |tags|
  {
    NormKeys(v);
    hide WellFormed, Encodable, Norm, Body, Stable, Field, Fields, Left, Shrinks, SortedKeys;
    if tags == [] {
      NoFields(v);
    } else {
      FieldsShrink(v, tags[1..]);
      FieldsParts(v, tags);
      FieldFacts(v, tags[0]);
      if !IsEmptyCollection(v.fields[tags[0]]) {
        ValueShrinks(v.fields[tags[0]]);
        FieldShrinks(v, tags[0]);
        LeftConcat(Field(Norm(v), tags[0]), Field(v, tags[0]), Stable(v.fields[tags[0]]),
                   Fields(Norm(v), Kept(v, tags[1..])), Fields(v, tags[1..]), FieldsStable(v, tags[1..]));
      }
    }
  }

  lemma NoFields(v: Value)
    requires v.HasFields() && Encodable(v) && Encodable(Norm(v)) && Norm(v).HasFields()
    ensures Kept(v, []) == [] && Fields(v, []) == [] && Fields(Norm(v), []) == [] && FieldsStable(v, []) && Left([], [], true)
  {
  }

  lemma FieldsParts(v: Value, tags: seq<Text>)
    requires v.HasFields() && Encodable(v) && Encodable(Norm(v)) && Norm(v).HasFields()
    requires tags != [] && forall t | t in tags :: t in v.fields
    requires forall t | t in v.fields && !IsEmptyCollection(v.fields[t]) :: t in Norm(v).fields
    requires forall t | t in Kept(v, tags[1..]) :: t in Norm(v).fields
    ensures forall t | t in Kept(v, tags) :: t in Norm(v).fields
    ensures Fields(v, tags) == Field(v, tags[0]) + Fields(v, tags[1..])
    ensures IsEmptyCollection(v.fields[tags[0]]) ==>
              Fields(v, tags) == Fields(v, tags[1..]) && Kept(v, tags) == Kept(v, tags[1..])
    ensures !IsEmptyCollection(v.fields[tags[0]]) ==>
              Fields(Norm(v), Kept(v, tags)) == Field(Norm(v), tags[0]) + Fields(Norm(v), Kept(v, tags[1..]))
    ensures FieldsStable(v, tags) <==>
              (IsEmptyCollection(v.fields[tags[0]]) || Stable(v.fields[tags[0]])) && FieldsStable(v, tags[1..])
  {
    hide Encodable, Norm, Stable, Field, EncodeTag, Body, TypeByte, IsEmptyCollection;
    FieldOf(v, tags[0]);
    assert tags == [tags[0]] + tags[1..];
    if !IsEmptyCollection(v.fields[tags[0]]) {
      assert Kept(v, tags) == [tags[0]] + Kept(v, tags[1..]);
      assert Kept(v, tags)[1..] == Kept(v, tags[1..]);
    }
  }

  /** A struct's encoding, nested or root. */
  lemma {:induction false} StructShrinks(v: Value, root: bool)
    requires v.HasFields() && WellFormed(v) && Encodable(v)
    ensures Stable(v) ==> Encodable(Norm(v))
    ensures Norm(v).HasFields()
    ensures Encodable(Norm(v)) ==> Left(EncodeStruct(Norm(v), root), EncodeStruct(v, root), Stable(v))
    decreases v, 4
  {
    hide WellFormed, Encodable, Norm, Stable, Fields, Left, SortedKeys, Kept, FieldsStable;
    var tags := SortedKeys(v.fields.Keys);
    NormKeys(v);
    StableFields(v);
    forall t | t in v.fields && !IsEmptyCollection(v.fields[t])
      ensures Encodable(v.fields[t]) && (Stable(v.fields[t]) ==> Encodable(Norm(v.fields[t])))
    {
      FieldFacts(v, t);
      ValueShrinks(v.fields[t]);
      ShrinksMeans(v.fields[t]);
    }
    EncodableNorm(v);
    if Encodable(Norm(v)) {
      FieldsShrink(v, tags);
      var ending := if root then [] else [0];
      LeftSame(ending);
      LeftConcat(Fields(Norm(v), Kept(v, tags)), Fields(v, tags), FieldsStable(v, tags), ending, ending, true);
    }
  }

  lemma StableFields(v: Value)
    requires v.HasFields()
    ensures Stable(v) <==> FieldsStable(v, SortedKeys(v.fields.Keys))
  {
  }

  lemma EncodableNorm(v: Value)
    requires v.HasFields()
    requires forall t | t in v.fields && !IsEmptyCollection(v.fields[t]) :: Stable(v.fields[t]) ==> Encodable(Norm(v.fields[t]))
    ensures Stable(v) ==> Encodable(Norm(v))
  {
  }

  lemma {:induction false} NestedShrinks(v: Value)
    requires v.HasFields() && WellFormed(v) && Encodable(v)
    ensures Shrinks(v)
    decreases v, 5
  {
    hide WellFormed, Encodable, Norm, Stable, EncodeStruct;
    NormType(v);
    StructShrinks(v, false);
    NestedBodies(v);
    if v.ArmedStruct? && Encodable(Norm(v)) {
      LeftSame([v.arm]);
      LeftConcat([v.arm], [v.arm], true, EncodeStruct(Norm(v), false), EncodeStruct(v, false), Stable(v));
    }
  }

  lemma NestedBodies(v: Value)
    requires v.HasFields() && Encodable(v)
    ensures var opening := if v.ArmedStruct? then [v.arm] else [];
            && Body(v) == opening + EncodeStruct(v, false)
            && Norm(v).HasFields()
            && (Encodable(Norm(v)) ==> Body(Norm(v)) == opening + EncodeStruct(Norm(v), false))
            && [] + EncodeStruct(v, false) == EncodeStruct(v, false)
            && (Encodable(Norm(v)) ==> [] + EncodeStruct(Norm(v), false) == EncodeStruct(Norm(v), false))
  {
    hide EncodeStruct, Encodable;
  }

  // ---- maps --------------------------------------------------------------------------------

  /** After normalisation no leaf is a list. */
  lemma {:induction false} NormLeaf(v: Value)
    ensures LeafType(Norm(v)) != 4
  {
    hide LeafType, Norm, SortableKeys, SortedMapKeys;
    NormLeafIs(v);
    match v
    case List(items) =>
      if items != [] {
        NormLeaf(items[0]);
      }
    case TypedList(_, items) =>
      if items != [] {
        NormLeaf(items[0]);
      }
    case Map(entries) =>
      if entries != map[] && SortableKeys(entries.Keys) {
        NormLeaf(entries[SortedMapKeys(entries.Keys)[0]]);
      }
    case _ =>
  }

  lemma NormLeafIs(v: Value)
    ensures v.Map? && v.entries != map[] && SortableKeys(v.entries.Keys) ==>
              SortedMapKeys(v.entries.Keys) != [] && SortedMapKeys(v.entries.Keys)[0] in v.entries
    ensures LeafType(Norm(v)) ==
            match v
            case List(items) => if items == [] then 3 else LeafType(Norm(items[0]))
            case TypedList(_, items) => if items == [] then 3 else LeafType(Norm(items[0]))
            case Map(entries) =>
              if entries == map[] || !SortableKeys(entries.Keys) then 3
              else LeafType(Norm(entries[SortedMapKeys(entries.Keys)[0]]))
            case _ => TypeByte(v)
  {
    hide SortedMapKeys, SortableKeys;
    NormType(v);
    if v.Map? {
      MapNorm(v);
    }
  }

  /** The announced value type survives exactly for values that are not typed lists. */
  lemma LeafStays(w: Value)
    requires MapValueFits(w)
    ensures LeafType(Norm(w)) == LeafType(w) <==> !w.TypedList?
  {
    NormLeaf(w);
    NormType(w);
  }

  ghost predicate EntriesStable(v: Value, keys: seq<Value>)
    requires v.Map? && forall k | k in keys :: k in v.entries
  {
    forall k | k in keys :: Stable(v.entries[k])
  }

  lemma MapNorm(v: Value)
    requires v.Map?
    ensures Norm(v).Map? && Norm(v).entries.Keys == v.entries.Keys
    ensures forall k | k in v.entries :: Norm(v).entries[k] == Norm(v.entries[k])
  {
    hide Norm;
    assert Norm(v) == Map(map k | k in v.entries :: Norm(v.entries[k])) by { NormOfMap(v); }
  }

  lemma NormOfMap(v: Value)
    requires v.Map?
    ensures Norm(v) == Map(map k | k in v.entries :: Norm(v.entries[k]))
  {
  }

  lemma {:induction false} EntriesShrink(v: Value, keys: seq<Value>)
    requires v.Map? && WellFormed(v) && Encodable(v) && Norm(v).Map? && Encodable(Norm(v))
    requires Norm(v).entries.Keys == v.entries.Keys
    requires forall k | k in keys :: k in v.entries
    ensures Left(Entries(Norm(v), keys), Entries(v, keys), EntriesStable(v, keys))
    decreases v, 3, |keys|
  {
    hide WellFormed, Encodable, Norm, Body, Stable, Entries, Left, Shrinks, EntriesStable;
    if keys == [] {
      NoEntries(v);
    } else {
      var w := v.entries[keys[0]];
      EntriesShrink(v, keys[1..]);
      EntryFacts(v, keys[0]);
      MapNorm(v);
      EntriesParts(v, keys);
      ValueShrinks(w);
      ShrinksMeans(w);
      LeftSame(Body(keys[0]));
      LeftConcat(Body(keys[0]), Body(keys[0]), true, Body(Norm(w)), Body(w), Stable(w));
      LeftConcat(Body(keys[0]) + Body(Norm(w)), Body(keys[0]) + Body(w), Stable(w),
                 Entries(Norm(v), keys[1..]), Entries(v, keys[1..]), EntriesStable(v, keys[1..]));
    }
  }

  lemma NoEntries(v: Value)
    requires v.Map? && Encodable(v) && Norm(v).Map? && Encodable(Norm(v))
    ensures Entries(v, []) == [] && Entries(Norm(v), []) == [] && EntriesStable(v, []) && Left([], [], true)
  {
  }

  lemma EntriesParts(v: Value, keys: seq<Value>)
    requires v.Map? && Encodable(v) && Norm(v).Map? && Encodable(Norm(v)) && Norm(v).entries.Keys == v.entries.Keys
    requires keys != [] && forall k | k in keys :: k in v.entries
    ensures Encodable(keys[0]) && Encodable(v.entries[keys[0]]) && Encodable(Norm(v).entries[keys[0]])
    ensures Entries(v, keys) == Body(keys[0]) + Body(v.entries[keys[0]]) + Entries(v, keys[1..])
    ensures Entries(Norm(v), keys) == Body(keys[0]) + Body(Norm(v).entries[keys[0]]) + Entries(Norm(v), keys[1..])
    ensures EntriesStable(v, keys) <==> Stable(v.entries[keys[0]]) && EntriesStable(v, keys[1..])
  {
    EntriesUnfold(v, keys, []);
    EntriesUnfold(Norm(v), keys, []);
    hide Encodable, Norm, Body, Entries, Stable;
    assert keys == [keys[0]] + keys[1..];
  }

  lemma {:induction false} MapShrinks(v: Value)
    requires v.Map? && WellFormed(v) && Encodable(v)
    ensures Shrinks(v)
    decreases v, 5
  {
    hide WellFormed, Encodable, Norm, Body, Stable, Entries, Left, EntriesStable, SortedMapKeys, LeafType, Varint.Encode, TypeByte;
    NotEmpty(v);
    var keys := SortedMapKeys(v.entries.Keys);
    MapUnfold(v);
    MapNorm(v);
    NormType(v);
    MapEncodable(v);
    forall k | k in v.entries
      ensures Encodable(v.entries[k]) && (Stable(v.entries[k]) ==> Encodable(Norm(v.entries[k])))
    {
      EntryFacts(v, k);
      ValueShrinks(v.entries[k]);
      ShrinksMeans(v.entries[k]);
    }
    if Encodable(Norm(v)) {
      EntriesShrink(v, keys);
      MapBodies(v);
      MapStable(v);
      EntryFacts(v, keys[0]);
      MapHead(TypeByte(keys[0]), v.entries[keys[0]], Varint.Encode(|v.entries|),
              Entries(Norm(v), keys), Entries(v, keys), EntriesStable(v, keys));
    }
  }

  /** A map's types and count, then its entries. */
  lemma MapHead(keyType: byte, w: Value, count: seq<byte>, entries': seq<byte>, entries: seq<byte>, same: bool)
    requires MapValueFits(w) && Left(entries', entries, same)
    ensures Left([keyType, LeafType(Norm(w))] + count + entries', [keyType, LeafType(w)] + count + entries, !w.TypedList? && same)
  {
    LeafStays(w);
    hide LeafType, Norm, Left;
    var head, head' := [keyType, LeafType(w)], [keyType, LeafType(Norm(w))];
    assert head' == head <==> head'[1] == head[1];
    LeftHead(head', head, !w.TypedList?);
    LeftSame(count);
    LeftConcat(head', head, !w.TypedList?, count, count, true);
    LeftConcat(head' + count, head + count, !w.TypedList?, entries', entries, same);
  }

  lemma LeftHead(b: seq<byte>, a: seq<byte>, same: bool)
    requires |b| == |a| && (b == a <==> same)
    ensures Left(b, a, same)
  {
  }

  lemma MapEncodable(v: Value)
    requires v.Map? && Encodable(v) && WellFormed(v)
    ensures Stable(v) && (forall k | k in v.entries :: Stable(v.entries[k]) ==> Encodable(Norm(v.entries[k]))) ==> Encodable(Norm(v))
  {
    MapNorm(v);
    MapEncodableIf(Norm(v));
    hide Norm, Encodable, Stable;
    StableEntries(v);
    assert v.entries != map[] by { NotEmpty(v); }
    assert Norm(v).entries.Keys != {} by { assert v.entries.Keys != {}; }
  }

  lemma NotEmpty(v: Value)
    requires v.Map? && Encodable(v)
    ensures v.entries != map[] && v.entries.Keys != {} && SortableKeys(v.entries.Keys)
  {
    var k :| k in v.entries;
    assert k in v.entries.Keys;
  }

  lemma StableEntries(v: Value)
    requires v.Map?
    ensures Stable(v) ==> forall k | k in v.entries :: Stable(v.entries[k])
  {
  }

  lemma MapEncodableIf(v: Value)
    requires v.Map?
    ensures v.entries != map[] && SortableKeys(v.entries.Keys) && (forall k | k in v.entries :: Encodable(v.entries[k])) ==> Encodable(v)
  {
  }

  lemma MapBodies(v: Value)
    requires v.Map? && Encodable(v) && Encodable(Norm(v)) && Norm(v).Map? && Norm(v).entries.Keys == v.entries.Keys
    requires forall k | k in v.entries :: Norm(v).entries[k] == Norm(v.entries[k])
    ensures var keys := SortedMapKeys(v.entries.Keys);
            && keys != [] && (forall k | k in keys :: k in v.entries)
            && Body(v) == [TypeByte(keys[0]), LeafType(v.entries[keys[0]])] + Varint.Encode(|v.entries|) + Entries(v, keys)
            && Body(Norm(v)) == [TypeByte(keys[0]), LeafType(Norm(v.entries[keys[0]]))] + Varint.Encode(|v.entries|) + Entries(Norm(v), keys)
  {
    hide Norm, LeafType, TypeByte, SortedMapKeys, Varint.Encode, Entries;
    var n := Norm(v);
    assert |n.entries| == |n.entries.Keys| && |v.entries| == |v.entries.Keys|;
  }

  lemma MapStable(v: Value)
    requires v.Map? && WellFormed(v) && Encodable(v)
    ensures var keys := SortedMapKeys(v.entries.Keys);
            && keys != [] && (forall k | k in keys :: k in v.entries)
            && (Stable(v) <==> EntriesStable(v, keys) && !v.entries[keys[0]].TypedList?)
  {
    MapUnfold(v);
    var keys := SortedMapKeys(v.entries.Keys);
    assert forall k | k in v.entries :: k in keys;
    forall k | k in v.entries
      ensures v.entries[k].TypedList? <==> TypeByte(v.entries[k]) == 4
    {
      EntryFacts(v, k);
    }
  }

  // ---- everything --------------------------------------------------------------------------

  /** A union's or a variable's element. */
  lemma WrappedShrinks(before: seq<byte>, w: Value, after: seq<byte>)
    requires Encodable(w) && Shrinks(w) && Encodable(Norm(w))
    ensures Left(before + [TypeByte(Norm(w))] + Body(Norm(w)) + after, before + [TypeByte(w)] + Body(w) + after, Stable(w))
  {
    NormType(w);
    hide Norm, Body, Encodable, Stable, TypeByte, Left;
    ShrinksMeans(w);
    var head := before + [TypeByte(w)];
    LeftSame(head);
    LeftSame(after);
    LeftConcat(head, head, true, Body(Norm(w)), Body(w), Stable(w));
    LeftConcat(head + Body(Norm(w)), head + Body(w), Stable(w), after, after, true);
  }

  lemma {:induction false} UnionShrinks(v: Value)
    requires v.Union? && WellFormed(v) && Encodable(v)
    ensures Shrinks(v)
    decreases v, 5
  {
    if !InvalidMember(v.activeMember) {
      ValueShrinks(v.value);
      UnionParts(v);
      if Encodable(Norm(v.value)) {
        WrappedShrinks([v.activeMember] + EncodeTag(v.field), v.value, []);
      }
    }
  }

  lemma UnionParts(v: Value)
    requires v.Union? && !InvalidMember(v.activeMember) && Encodable(v)
    ensures Norm(v) == Union(v.activeMember, v.field, Norm(v.value))
    ensures Encodable(v.value) && (Encodable(Norm(v)) <==> Encodable(Norm(v.value))) && (Stable(v) <==> Stable(v.value))
    ensures Body(v) == [v.activeMember] + EncodeTag(v.field) + [TypeByte(v.value)] + Body(v.value) + []
    ensures Encodable(Norm(v)) ==>
              Body(Norm(v)) == [v.activeMember] + EncodeTag(v.field) + [TypeByte(Norm(v.value))] + Body(Norm(v.value)) + []
  {
    UnionBody(v);
    assert Norm(v) == Union(v.activeMember, v.field, Norm(v.value));
    hide EncodeTag, TypeByte, Body, Norm;
    if Encodable(Norm(v)) {
      UnionBody(Norm(v));
    }
  }

  lemma UnionBody(v: Value)
    requires v.Union? && !InvalidMember(v.activeMember) && Encodable(v)
    ensures Encodable(v.value)
    ensures Body(v) == [v.activeMember] + EncodeTag(v.field) + [TypeByte(v.value)] + Body(v.value) + []
  {
    hide EncodeTag, TypeByte;
  }

  lemma {:induction false} VariableShrinks(v: Value)
    requires v.Variable? && WellFormed(v) && Encodable(v)
    ensures Shrinks(v)
    decreases v, 5
  {
    if v.value != Nil {
      ValueShrinks(v.value);
      VariableParts(v);
      if Encodable(Norm(v.value)) {
        WrappedShrinks([1] + Varint.Encode(v.tdfID) + EncodeTag(v.field), v.value, [0]);
      }
    }
  }

  lemma NormIsNil(v: Value)
    ensures Norm(v) == Nil <==> v == Nil
  {
  }

  lemma VariableParts(v: Value)
    requires v.Variable? && v.value != Nil && Encodable(v)
    ensures Norm(v) == Variable(v.tdfID, v.field, Norm(v.value))
    ensures Encodable(v.value) && (Encodable(Norm(v)) <==> Encodable(Norm(v.value))) && (Stable(v) <==> Stable(v.value))
    ensures Body(v) == [1] + Varint.Encode(v.tdfID) + EncodeTag(v.field) + [TypeByte(v.value)] + Body(v.value) + [0]
    ensures Encodable(Norm(v)) ==>
              Body(Norm(v)) == [1] + Varint.Encode(v.tdfID) + EncodeTag(v.field) + [TypeByte(Norm(v.value))] + Body(Norm(v.value)) + [0]
  {
    NormIsNil(v.value);
    hide EncodeTag, TypeByte, Varint.Encode;
  }

  lemma {:induction false} ValueShrinks(v: Value)
    requires WellFormed(v) && Encodable(v)
    ensures Shrinks(v)
    decreases v, 6
  {
    match v
    case Struct(_) => NestedShrinks(v);
    case ArmedStruct(_, _) => NestedShrinks(v);
    case List(_) => ListShrinks(v);
    case TypedList(_, _) => ListShrinks(v);
    case Map(_) => MapShrinks(v);
    case Union(_, _, _) => UnionShrinks(v);
    case Variable(_, _, _) => VariableShrinks(v);
    case _ =>
  }

  /** Encoding what was decoded from a well-formed packet gives the packet back byte for byte
      exactly when every typed list in it is nonempty and none is a map's value. */
  lemma Reencode(v: Value)
    requires v.Struct? && WellFormed(v)
    ensures Encodable(v)
    ensures var decoded := ReadStruct(EncodeStruct(v, true));
            && decoded.Ok? && decoded.read == |EncodeStruct(v, true)|
            && (Encodable(Struct(decoded.value)) && EncodeStruct(Struct(decoded.value), true) == EncodeStruct(v, true) <==> Stable(v))
  {
    hide WellFormed, EncodeStruct, ReadStruct, Stable, Encodable, Norm;
    PacketRoundTrip(v, []);
    NormFieldsAll(v);
    StructShrinks(v, true);
  }
}
