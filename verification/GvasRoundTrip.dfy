/** Decoding an encoding gives the value back, whatever bytes follow. */
module GvasRoundTrip {
  import opened GvasDecode
  import opened GvasEncode
  import opened GvasNumbers
  import opened GvasText
  import opened GvasTypes
  import opened Options

  // ---------------------------------------------------------------- strings and headers

  lemma {:induction false} StringsPut(ss: seq<Bytes>, acc: seq<Bytes>, rest: Bytes)
    requires StringsOk(ss)
    ensures Strings(|ss|, acc, PutStrings(ss, rest)) == Ok(acc + ss, rest)
    decreases |ss|
  {
    hide FString, PutString;
    if ss == [] {
      assert acc + ss == acc;
    } else {
      StringPut(ss[0], PutStrings(ss[1..], rest));
      StringsPut(ss[1..], acc + [ss[0]], rest);
      assert acc + [ss[0]] + ss[1..] == acc + ss;
    }
  }

  lemma GuidPut(g: Guid, rest: Bytes)
    requires GuidOk(g)
    ensures GuidAt(PutGuid(g, rest)) == Ok(g, rest)
  {
    hide UInt, PutUInt, Take, PutBytes;
    U32Put(g.d, rest);
    TakePut(g.c, PutUInt(4, g.d, rest));
    TakePut(g.b, PutBytes(g.c, PutUInt(4, g.d, rest)));
    U32Put(g.a, PutBytes(g.b, PutBytes(g.c, PutUInt(4, g.d, rest))));
  }

  predicate CustomVersionsOk(vs: seq<CustomVersion>) {
    forall i | 0 <= i < |vs| :: GuidOk(vs[i].guid) && I32Ok(vs[i].value)
  }

  lemma {:induction false} CustomVersionsPut(vs: seq<CustomVersion>, acc: seq<CustomVersion>, rest: Bytes)
    requires CustomVersionsOk(vs)
    ensures CustomVersions(|vs|, acc, PutCustomVersions(vs, rest)) == Ok(acc + vs, rest)
    decreases |vs|
  {
    hide GuidAt, PutGuid, I32, PutI32;
    if vs == [] {
      assert acc + vs == acc;
    } else {
      var tail := PutCustomVersions(vs[1..], rest);
      I32Put(vs[0].value, tail);
      GuidPut(vs[0].guid, PutI32(vs[0].value, tail));
      CustomVersionsPut(vs[1..], acc + [vs[0]], rest);
      assert acc + [vs[0]] + vs[1..] == acc + vs;
    }
  }

  lemma OptionalU32Put(present: bool, x: nat, rest: Bytes)
    requires U32Ok(x) && (!present ==> x == 0)
    ensures OptionalU32(present, PutOptionalU32(present, x, rest)) == Ok(x, rest)
  {
    if present { U32Put(x, rest); }
  }

  lemma HeaderPut(h: Header, rest: Bytes)
    requires HeaderOk(h)
    ensures HeaderAt(PutHeader(h, rest)) == Ok(h, rest)
  {
    hide UInt, PutUInt, FString, PutString, CustomVersions, PutCustomVersions, OptionalU32, PutOptionalU32;
    var b11 := PutCustomVersions(h.customVersions, rest);
    var b10 := PutUInt(4, |h.customVersions|, b11);
    var b9 := PutUInt(4, 0, b10);
    var b8 := PutString(h.engineStr, b9);
    var b7 := PutUInt(4, h.engineBuild, b8);
    var b6 := PutUInt(2, h.enginePatch, b7);
    var b5 := PutUInt(2, h.engineMinor, b6);
    var b4 := PutUInt(2, h.engineMajor, b5);
    var b3 := PutOptionalU32(HasUE5Version(h.saveGameVersion), h.packageVersionUE5, b4);
    var b2 := PutUInt(4, h.packageVersionUE4, b3);
    var b1 := PutUInt(4, h.saveGameVersion, b2);
    CustomVersionsPut(h.customVersions, [], rest);
    assert [] + h.customVersions == h.customVersions;
    U32Put(|h.customVersions|, b11);
    U32Put(0, b10);
    StringPut(h.engineStr, b9);
    U32Put(h.engineBuild, b8);
    U16Put(h.enginePatch, b7);
    U16Put(h.engineMinor, b6);
    U16Put(h.engineMajor, b5);
    OptionalU32Put(HasUE5Version(h.saveGameVersion), h.packageVersionUE5, b4);
    U32Put(h.packageVersionUE4, b3);
    U32Put(h.saveGameVersion, b2);
    U32Put(h.magic, b1);
  }

  // ---------------------------------------------------------------- type trees

  lemma {:induction false} TreePut(t: TypeTree, depth: nat, rest: Bytes)
    requires TreeOk(t, depth)
    ensures Tree(depth, PutTree(t, rest)) == Ok(t, rest)
    decreases t, 0
  {
    hide FString, PutString, UInt, PutUInt;
    var b2 := PutTrees(t.children, rest);
    StringPut(t.name, PutUInt(4, |t.children|, b2));
    U32Put(|t.children|, b2);
    TreesPut(t.children, depth + 1, [], rest);
    assert [] + t.children == t.children;
  }

  lemma {:induction false} TreesPut(ts: seq<TypeTree>, depth: nat, acc: seq<TypeTree>, rest: Bytes)
    requires forall i | 0 <= i < |ts| :: TreeOk(ts[i], depth)
    ensures Trees(depth, |ts|, acc, PutTrees(ts, rest)) == Ok(acc + ts, rest)
    decreases ts, 1
  {
    hide Tree, PutTree, TreeOk;
    if ts == [] {
      assert acc + ts == acc;
    } else {
      TreePut(ts[0], depth, PutTrees(ts[1..], rest));
      TreesPut(ts[1..], depth, acc + [ts[0]], rest);
      assert acc + [ts[0]] + ts[1..] == acc + ts;
    }
  }

  // ---------------------------------------------------------------- values

  lemma LeafPut(k: Kind, nested: bool, v: Value, rest: Bytes)
    requires Leaf(k) && LeafOk(k, nested, v)
    ensures LeafAt(k, nested, PutMember(v, rest)) == Ok(v, rest)
  {
    hide FString, PutString, UInt, PutUInt, I32, PutI32, I64, FromI64;
    match v
    case IntValue(i) => I32Put(i, rest);
    case Int64Value(i) => I64Put(i, rest);
    case UInt32Value(u) => U32Put(u, rest);
    case UInt64Value(u) => U64Put(u, rest);
    case FloatValue(u) => U32Put(u, rest);
    case Float64Value(u) => U64Put(u, rest);
    case StrValue(s) => StringPut(s, rest);
    case NameValue(s) => StringPut(s, rest);
    case ObjectValue(s) => StringPut(s, rest);
    case EnumValue(s) => StringPut(s, rest);
    case ByteEnumValue(s) => StringPut(s, rest);
    case ByteValue(u) => U8Put(u, rest);
    case SoftObjectValue(_, _, _) => SoftObjectPut(k, nested, v, rest);
  }

  lemma SoftObjectPut(k: Kind, nested: bool, v: Value, rest: Bytes)
    requires v.SoftObjectValue? && Leaf(k) && LeafOk(k, nested, v)
    ensures LeafAt(k, nested, PutMember(v, rest)) == Ok(v, rest)
  {
    hide FString, PutString;
    StringPut(v.assetName, rest);
    StringPut(v.package, PutString(v.assetName, rest));
    StringPut(v.assetPath, PutString(v.package, PutString(v.assetName, rest)));
  }

  lemma FixedStructPut(k: StructKind, v: Value, rest: Bytes)
    requires !k.GenericS? && FixedStructOk(k, v)
    ensures FixedStruct(k, PutMember(v, rest)) == Ok(v, rest)
  {
    hide FString, PutString, UInt, PutUInt, I32, PutI32, GuidAt, PutGuid, Strings, PutStrings;
    hide GuidOk, StringsOk;
    match v
    case GuidValue(g) => GuidPut(g, rest);
    case DateTimeValue(u) => U64Put(u, rest);
    case VectorValue(x, y, z) => TriplePut(k, v, rest);
    case QuatValue(x, y, z, w) => QuatPut(v, rest);
    case RotatorValue(p, y, r) => TriplePut(k, v, rest);
    case LinearColorValue(r, g, b, a) => ColorPut(v, rest);
    case GameplayTagContainerValue(tags) => TagsPut(tags, rest);
    case Vector2DValue(x, y) =>
      U64Put(y, rest);
      U64Put(x, PutUInt(8, y, rest));
    case IntPointValue(x, y) =>
      I32Put(y, rest);
      I32Put(x, PutI32(y, rest));
  }

  lemma TriplePut(k: StructKind, v: Value, rest: Bytes)
    requires (v.VectorValue? || v.RotatorValue?) && !k.GenericS? && FixedStructOk(k, v)
    ensures FixedStruct(k, PutMember(v, rest)) == Ok(v, rest)
  {
    hide UInt, PutUInt;
    if v.VectorValue? {
      Put3(v.vx, v.vy, v.vz, rest);
    } else {
      Put3(v.pitch, v.yaw, v.roll, rest);
    }
  }

  lemma QuatPut(v: Value, rest: Bytes)
    requires FixedStructOk(QuatS, v)
    ensures FixedStruct(QuatS, PutMember(v, rest)) == Ok(v, rest)
  {
    hide UInt, PutUInt;
    Put3(v.qy, v.qz, v.qw, rest);
    U64Put(v.qx, PutUInt(8, v.qy, PutUInt(8, v.qz, PutUInt(8, v.qw, rest))));
  }

  lemma ColorPut(v: Value, rest: Bytes)
    requires FixedStructOk(LinearColorS, v)
    ensures FixedStruct(LinearColorS, PutMember(v, rest)) == Ok(v, rest)
  {
    hide UInt, PutUInt;
    U32Put(v.alpha, rest);
    U32Put(v.blue, PutUInt(4, v.alpha, rest));
    U32Put(v.green, PutUInt(4, v.blue, PutUInt(4, v.alpha, rest)));
    U32Put(v.red, PutUInt(4, v.green, PutUInt(4, v.blue, PutUInt(4, v.alpha, rest))));
  }

  lemma TagsPut(tags: seq<Bytes>, rest: Bytes)
    requires U32Ok(|tags|) && StringsOk(tags)
    ensures FixedStruct(TagsS, PutUInt(4, |tags|, PutStrings(tags, rest))) == Ok(GameplayTagContainerValue(tags), rest)
  {
    hide UInt, PutUInt, Strings, PutStrings;
    StringsPut(tags, [], rest);
    U32Put(|tags|, PutStrings(tags, rest));
    assert [] + tags == tags;
  }

  lemma Put3(x: nat, y: nat, z: nat, rest: Bytes)
    requires U64Ok(x) && U64Ok(y) && U64Ok(z)
    ensures UInt(8, PutUInt(8, z, rest)) == Ok(z, rest)
    ensures UInt(8, PutUInt(8, y, PutUInt(8, z, rest))) == Ok(y, PutUInt(8, z, rest))
    ensures UInt(8, PutUInt(8, x, PutUInt(8, y, PutUInt(8, z, rest)))) == Ok(x, PutUInt(8, y, PutUInt(8, z, rest)))
  {
    hide UInt, PutUInt;
    U64Put(z, rest);
    U64Put(y, PutUInt(8, z, rest));
    U64Put(x, PutUInt(8, y, PutUInt(8, z, rest)));
  }

  lemma {:induction false} StructPut(shortName: Bytes, fullPath: Bytes, v: Value, rest: Bytes)
    requires StructOk(shortName, fullPath, v)
    ensures StructAt(shortName, fullPath, PutMember(v, rest)) == Ok(v, rest)
    decreases v, 1
  {
    hide FixedStruct, FixedStructOk, StructKindOf, Properties, PutProperties, PropertiesOk;
    var k := StructKindOf(shortName);
    if !k.GenericS? {
      FixedStructPut(k, v, rest);
    } else {
      PropertiesPut(v.properties, [], rest);
      assert [] + v.properties == v.properties;
    }
  }

  lemma {:induction false} MemberPut(tree: TypeTree, v: Value, rest: Bytes)
    requires MemberOk(tree, v)
    ensures ByType(tree, PutMember(v, rest)) == Ok(v, rest)
    decreases v, 2
  {
    hide LeafAt, LeafOk, StructAt, StructOk, KindOf, ShortName, FullPath, UInt, PutUInt;
    var k := KindOf(tree.name);
    if Leaf(k) {
      LeafPut(k, |tree.children| > 0, v, rest);
    } else if k.BoolK? {
      U8Put(if v.b then 1 else 0, rest);
    } else {
      StructPut(ShortName(tree), FullPath(tree), v, rest);
    }
  }

  lemma {:induction false} MembersPut(tree: TypeTree, vs: seq<Value>, acc: seq<Value>, rest: Bytes)
    requires MembersOk(tree, vs)
    ensures Elements(tree, |vs|, acc, PutMembers(vs, rest)) == Ok(acc + vs, rest)
    decreases vs, 3
  {
    hide ByType, PutMember, MemberOk;
    if vs == [] {
      assert acc + vs == acc;
    } else {
      MemberPut(tree, vs[0], PutMembers(vs[1..], rest));
      MembersPut(tree, vs[1..], acc + [vs[0]], rest);
      assert acc + [vs[0]] + vs[1..] == acc + vs;
    }
  }

  lemma {:induction false} EntryPut(keyTree: TypeTree, valTree: TypeTree, e: MapEntry, rest: Bytes)
    requires EntryOk(keyTree, valTree, e)
    ensures ByType(keyTree, PutEntry(e, rest)) == Ok(e.key, PutMember(e.val, rest))
    ensures ByType(valTree, PutMember(e.val, rest)) == Ok(e.val, rest)
    decreases e, 3
  {
    hide ByType, PutMember;
    MemberPut(keyTree, e.key, PutMember(e.val, rest));
    MemberPut(valTree, e.val, rest);
  }

  lemma {:induction false} EntriesPut(keyTree: TypeTree, valTree: TypeTree, es: seq<MapEntry>, acc: seq<MapEntry>,
      rest: Bytes)
    requires EntriesOk(keyTree, valTree, es)
    ensures Entries(keyTree, valTree, |es|, acc, PutEntries(es, rest)) == Ok(acc + es, rest)
    decreases es, 4
  {
    hide ByType, PutEntry, EntryOk;
    if es == [] {
      assert acc + es == acc;
    } else {
      EntryPut(keyTree, valTree, es[0], PutEntries(es[1..], rest));
      EntriesPut(keyTree, valTree, es[1..], acc + [es[0]], rest);
      assert acc + [MapEntry(es[0].key, es[0].val)] + es[1..] == acc + es;
    }
  }

  lemma {:induction false} ArrayPut(tree: TypeTree, vs: seq<Value>, rest: Bytes)
    requires |tree.children| > 0 && |vs| <= MAX_ARRAY_COUNT && MembersOk(tree.children[0], vs)
    ensures ArrayAt(tree, PutUInt(4, |vs|, PutMembers(vs, rest))) == Ok(ArrayValue(vs), rest)
    ensures SetAt(tree, PutUInt(4, 0, PutUInt(4, |vs|, PutMembers(vs, rest)))) == Ok(ArrayValue(vs), rest)
    decreases vs, 5
  {
    hide UInt, PutUInt, PutMembers, MembersOk, ByType;
    var b := PutMembers(vs, rest);
    MembersPut(tree.children[0], vs, [], rest);
    assert [] + vs == vs;
    U32Put(|vs|, b);
    U32Put(0, PutUInt(4, |vs|, b));
  }

  lemma {:induction false} MapPut(tree: TypeTree, es: seq<MapEntry>, rest: Bytes)
    requires |tree.children| >= 2 && |es| <= MAX_ARRAY_COUNT
    requires EntriesOk(tree.children[0], tree.children[1], es)
    ensures MapAt(tree, PutUInt(4, 0, PutUInt(4, |es|, PutEntries(es, rest)))) == Ok(MapValue(es), rest)
    decreases es, 5
  {
    hide UInt, PutUInt, PutEntries, EntriesOk, ByType;
    var b := PutEntries(es, rest);
    EntriesPut(tree.children[0], tree.children[1], es, [], rest);
    assert [] + es == es;
    U32Put(|es|, b);
    U32Put(0, PutUInt(4, |es|, b));
  }

  lemma {:induction false} TagPut(tree: TypeTree, size: nat, flags: nat, v: Value, rest: Bytes)
    requires TagOk(tree, v)
    requires size == SizeField(KindOf(tree.name), v)
    requires v.BoolValue? ==> v.b == HasFlag(flags, BOOL_TRUE)
    requires v.RawStructValue? <==> HasFlag(flags, HAS_BINARY_OR_NATIVE)
    ensures TagValue(tree, size, flags, PutTagValue(KindOf(tree.name), v, rest)) == Ok(v, rest)
    decreases v, 6
  {
    hide LeafAt, LeafOk, StructAt, StructOk, KindOf, ShortName, FullPath, HasFlag, ArrayAt, MapAt, SetAt, Take,
        MembersOk, EntriesOk;
    var k := KindOf(tree.name);
    if Leaf(k) {
      LeafPut(k, |tree.children| > 0, v, rest);
      LeafIsMember(k, |tree.children| > 0, v);
    } else if k.StructK? && !v.RawStructValue? {
      StructPut(ShortName(tree), FullPath(tree), v, rest);
      StructIsMember(ShortName(tree), FullPath(tree), v);
    } else if k.ArrayK? || k.SetK? {
      ArrayPut(tree, v.elements, rest);
    } else if k.MapK? {
      MapPut(tree, v.entries, rest);
    } else if !k.BoolK? {
      RawPut(k, v, rest);
    }
  }

  lemma LeafIsMember(k: Kind, nested: bool, v: Value)
    requires Leaf(k) && LeafOk(k, nested, v)
    ensures !v.BoolValue? && !v.ArrayValue? && !v.MapValue?
  {
  }

  lemma StructIsMember(shortName: Bytes, fullPath: Bytes, v: Value)
    requires StructOk(shortName, fullPath, v)
    ensures !v.BoolValue? && !v.ArrayValue? && !v.MapValue?
  {
    hide StructKindOf;
  }

  function RawBytes(v: Value): Bytes
    requires v.TextValue? || v.RawStructValue? || v.RawValue?
  {
    match v
    case TextValue(d) => d
    case RawStructValue(_, d) => d
    case RawValue(_, d) => d
  }

  /** Values stored as raw bytes occupy exactly the number of bytes their tag announces. */
  lemma RawPut(k: Kind, v: Value, rest: Bytes)
    requires v.TextValue? || v.RawStructValue? || v.RawValue?
    requires U32Ok(|RawBytes(v)|)
    ensures SizeField(k, v) == |RawBytes(v)|
    ensures PutTagValue(k, v, rest) == PutBytes(RawBytes(v), rest)
    ensures Take(|RawBytes(v)|, PutBytes(RawBytes(v), rest)) == Ok(RawBytes(v), rest)
  {
    var d := RawBytes(v);
    TakePut(d, rest);
    RawLayout(k, v, rest);
    RawLayout(k, v, []);
    assert d + [] == d;
  }

  lemma RawLayout(k: Kind, v: Value, rest: Bytes)
    requires v.TextValue? || v.RawStructValue? || v.RawValue?
    ensures PutTagValue(k, v, rest) == PutBytes(RawBytes(v), rest)
  {
    assert PutTagValue(k, v, rest) == PutMember(v, rest);
  }

  // ---------------------------------------------------------------- properties and saves

  lemma FlagBits(p: Property)
    ensures U8Ok(Flags(p))
    ensures HasFlag(Flags(p), HAS_ARRAY_INDEX) <==> p.arrayIndex != 0
    ensures HasFlag(Flags(p), HAS_PROPERTY_GUID) <==> p.guid.Some?
    ensures HasFlag(Flags(p), BOOL_TRUE) <==> p.value == BoolValue(true)
    ensures HasFlag(Flags(p), HAS_BINARY_OR_NATIVE) <==> p.value.RawStructValue?
  {
  }

  lemma {:induction false} TagBodyPut(p: Property, rest: Bytes)
    requires PropertyOk(p)
    ensures TagBody(p.name, PutTagBody(p, rest)) == Ok(p, rest)
    decreases p, 7
  {
    hide Tree, PutTree, TreeOk, UInt, PutUInt, OptionalU32, PutOptionalU32, TagValue, PutTagValue, TagOk, SizeField,
        HasFlag, Flags, KindOf, GuidAt, PutGuid, GuidOk;
    var k := KindOf(p.tree.name);
    var b5 := PutTagValue(k, p.value, rest);
    var b4 := PutOptionalGuid(p.guid, b5);
    var b3 := PutOptionalU32(p.arrayIndex != 0, p.arrayIndex, b4);
    var b2 := PutUInt(1, Flags(p), b3);
    var b1 := PutUInt(4, SizeField(k, p.value), b2);
    FlagBits(p);
    SizeFits(k, p.value);
    TagPut(p.tree, SizeField(k, p.value), Flags(p), p.value, rest);
    if p.guid.Some? { GuidPut(p.guid.value, b5); }
    OptionalU32Put(p.arrayIndex != 0, p.arrayIndex, b4);
    U8Put(Flags(p), b3);
    U32Put(SizeField(k, p.value), b2);
    TreePut(p.tree, 0, b1);
  }

  lemma SizeFits(k: Kind, v: Value)
    ensures U32Ok(SizeField(k, v))
  {
  }

  lemma {:induction false} PropertiesPut(ps: seq<Property>, acc: seq<Property>, rest: Bytes)
    requires PropertiesOk(ps)
    ensures Properties(acc, PutProperties(ps, rest)) == Ok(acc + ps, rest)
    decreases ps, 8
  {
    hide FString, PutString, TagBody, PutTagBody, PropertyOk, Ascii;
    if ps == [] {
      assert acc + ps == acc;
      NoneFits();
      StringPut(Ascii("None"), rest);
    } else {
      var tail := PutProperties(ps[1..], rest);
      PropertyName(ps[0]);
      StringPut(ps[0].name, PutTagBody(ps[0], tail));
      TagBodyPut(ps[0], tail);
      PropertiesPut(ps[1..], acc + [ps[0]], rest);
      assert acc + [ps[0]] + ps[1..] == acc + ps;
    }
  }

  lemma NoneFits()
    ensures |Ascii("None")| == 4
  {
  }

  lemma PropertyName(p: Property)
    requires PropertyOk(p)
    ensures StringOk(p.name) && p.name != Ascii("None")
  {
    hide TagOk, TreeOk, Ascii;
  }

  /** Parsing the encoding of a well-formed save gives exactly that save, trailing bytes included. */
  lemma ParseEncode(s: Save)
    requires SaveOk(s)
    ensures Parse(Encode(s)) == Ok(s, [])
  {
    hide HeaderAt, PutHeader, HeaderOk, FString, PutString, Properties, PutProperties, PropertiesOk, Take, PutBytes;
    var b4 := PutProperties(s.properties, s.extra);
    var reserved: Bytes := if s.header.engineMajor > 5 || (s.header.engineMajor == 5 && s.header.engineMinor >= 4)
        then [0] else [];
    var b3 := PutBytes(reserved, b4);
    var b2 := PutString(s.saveGameType, b3);
    HeaderPut(s.header, b2);
    StringPut(s.saveGameType, b3);
    TakePut(reserved, b4);
    PropertiesPut(s.properties, [], s.extra);
    assert [] + s.properties == s.properties;
  }
}
