/** Which name in a type tree gives which value, and what the reader passes over. */
module GvasNames {
  import opened GvasConform
  import opened GvasDecode
  import opened GvasEncode
  import opened GvasNumbers
  import opened GvasRoundTrip
  import opened GvasTypes
  import opened Options

  /** Names are compared letter by letter with ASCII codes. */
  lemma AsciiCodes(s: string)
    requires forall i | 0 <= i < |s| :: s[i] < 128 as char
    ensures |Ascii(s)| == |s| && forall i | 0 <= i < |s| :: Ascii(s)[i] == s[i] as int
    ensures Ascii("None") == [0x4E, 0x6F, 0x6E, 0x65]
  {
  }

  /** The name that a type tree must have for a value that is no struct, list or map. */
  ghost predicate LeafNamed(name: Bytes, nested: bool, v: Value) {
    && (v.IntValue? ==> name == Ascii("IntProperty"))
    && (v.Int64Value? ==> name == Ascii("Int64Property"))
    && (v.UInt32Value? ==> name == Ascii("UInt32Property"))
    && (v.UInt64Value? ==> name == Ascii("UInt64Property"))
    && (v.FloatValue? ==> name == Ascii("FloatProperty"))
    && (v.Float64Value? ==> name == Ascii("DoubleProperty"))
    && (v.BoolValue? ==> name == Ascii("BoolProperty"))
    && (v.StrValue? ==> name == Ascii("StrProperty"))
    && (v.NameValue? ==> name == Ascii("NameProperty"))
    && (v.ObjectValue? ==> name == Ascii("ObjectProperty"))
    && (v.EnumValue? ==> name == Ascii("EnumProperty"))
    && (v.ByteEnumValue? ==> name == Ascii("ByteProperty") && nested)
    && (v.ByteValue? ==> name == Ascii("ByteProperty") && !nested)
    && (v.SoftObjectValue? ==> name == Ascii("SoftObjectProperty"))
    && (v.TextValue? ==> name == Ascii("TextProperty"))
  }

  /** The name of the struct type, which is that of the first child. */
  ghost predicate StructNamed(struct: Bytes, v: Value) {
    && (v.GuidValue? ==> struct == Ascii("Guid"))
    && (v.DateTimeValue? ==> struct == Ascii("DateTime"))
    && (v.VectorValue? ==> struct == Ascii("Vector"))
    && (v.QuatValue? ==> struct == Ascii("Quat"))
    && (v.RotatorValue? ==> struct == Ascii("Rotator"))
    && (v.LinearColorValue? ==> struct == Ascii("LinearColor"))
    && (v.GameplayTagContainerValue? ==> struct == Ascii("GameplayTagContainer"))
    && (v.Vector2DValue? ==> struct == Ascii("Vector2D"))
    && (v.IntPointValue? ==> struct == Ascii("IntPoint"))
    && (v.StructValue? ==>
        struct !in {Ascii("Guid"), Ascii("DateTime"), Ascii("Vector"), Ascii("Quat"), Ascii("Rotator"),
                    Ascii("LinearColor"), Ascii("GameplayTagContainer"), Ascii("Vector2D"), Ascii("IntPoint")})
  }

  predicate IsStruct(v: Value) {
    v.GuidValue? || v.DateTimeValue? || v.VectorValue? || v.QuatValue? || v.RotatorValue? || v.LinearColorValue?
    || v.GameplayTagContainerValue? || v.Vector2DValue? || v.IntPointValue? || v.StructValue?
  }

  /** The full name of a struct type: the first grandchild's and the first child's, with a dot. */
  ghost predicate PathNamed(tree: TypeTree, path: Bytes) {
    if |tree.children| == 0 then path == []
    else if |tree.children[0].children| == 0 then path == tree.children[0].name
    else path == tree.children[0].children[0].name + [0x2E] + tree.children[0].name
  }

  lemma PathIs(tree: TypeTree)
    ensures PathNamed(tree, FullPath(tree))
  {
    assert Ascii(".") == [0x2E];
  }

  lemma LeafNames(k: Kind, name: Bytes, nested: bool, v: Value)
    requires k == KindOf(name) && Leaf(k) && LeafOk(k, nested, v)
    ensures LeafNamed(name, nested, v) && !IsStruct(v) && !v.RawStructValue? && !v.RawValue?
    ensures !v.ArrayValue? && !v.MapValue?
  {
    hide Ascii, StringOk, KindOf;
    NumberKinds(name);
    TextKinds(name);
  }

  lemma NumberKinds(name: Bytes)
    ensures KindOf(name).IntK? ==> name == Ascii("IntProperty")
    ensures KindOf(name).UInt32K? ==> name == Ascii("UInt32Property")
    ensures KindOf(name).Int64K? ==> name == Ascii("Int64Property")
    ensures KindOf(name).UInt64K? ==> name == Ascii("UInt64Property")
    ensures KindOf(name).FloatK? ==> name == Ascii("FloatProperty")
    ensures KindOf(name).DoubleK? ==> name == Ascii("DoubleProperty")
  {
    hide Ascii;
  }

  lemma TextKinds(name: Bytes)
    ensures KindOf(name).NameK? ==> name == Ascii("NameProperty")
    ensures KindOf(name).StrK? ==> name == Ascii("StrProperty")
    ensures KindOf(name).ObjectK? ==> name == Ascii("ObjectProperty")
    ensures KindOf(name).EnumK? ==> name == Ascii("EnumProperty")
    ensures KindOf(name).ByteK? ==> name == Ascii("ByteProperty")
    ensures KindOf(name).SoftObjectK? ==> name == Ascii("SoftObjectProperty")
  {
    hide Ascii;
  }

  lemma StructNames(struct: Bytes, path: Bytes, v: Value)
    requires StructOk(struct, path, v)
    ensures StructNamed(struct, v) && IsStruct(v) && (v.StructValue? ==> v.structType == path)
  {
    hide Ascii, StringOk, PropertiesOk;
  }

  lemma BoolNamed(name: Bytes, nested: bool, v: Value)
    requires v.BoolValue? && KindOf(name).BoolK?
    ensures LeafNamed(name, nested, v)
  {
    hide Ascii;
  }

  lemma StructKindName(name: Bytes)
    ensures KindOf(name).StructK? ==> name == Ascii("StructProperty")
    ensures KindOf(name).ArrayK? ==> name == Ascii("ArrayProperty")
    ensures KindOf(name).SetK? ==> name == Ascii("SetProperty")
    ensures KindOf(name).MapK? ==> name == Ascii("MapProperty")
    ensures KindOf(name).TextK? ==> name == Ascii("TextProperty")
    ensures KindOf(name).BoolK? ==> name == Ascii("BoolProperty")
  {
    hide Ascii;
  }

  ghost predicate OtherName(name: Bytes) {
    name !in {Ascii("IntProperty"), Ascii("UInt32Property"), Ascii("Int64Property"), Ascii("UInt64Property"),
              Ascii("FloatProperty"), Ascii("DoubleProperty"), Ascii("BoolProperty"), Ascii("NameProperty"),
              Ascii("StrProperty"), Ascii("ObjectProperty"), Ascii("EnumProperty"), Ascii("ByteProperty"),
              Ascii("SoftObjectProperty"), Ascii("TextProperty"), Ascii("StructProperty"), Ascii("ArrayProperty"),
              Ascii("MapProperty"), Ascii("SetProperty")}
  }

  lemma OtherNames(name: Bytes)
    requires KindOf(name).OtherK?
    ensures OtherName(name)
  {
    hide Ascii;
  }

  lemma NotALeaf(name: Bytes, nested: bool, v: Value)
    requires IsStruct(v) || v.RawStructValue? || v.RawValue? || v.ArrayValue? || v.MapValue?
    ensures LeafNamed(name, nested, v)
  {
    hide Ascii;
  }

  lemma TextNamed(name: Bytes, nested: bool, v: Value)
    requires v.TextValue? && KindOf(name).TextK?
    ensures LeafNamed(name, nested, v)
  {
    hide Ascii;
  }

  /** A member of a list or a map: the kind of the value tells the name of its type. */
  lemma MemberNames(tree: TypeTree, v: Value)
    requires MemberOk(tree, v)
    ensures LeafNamed(tree.name, tree.children != [], v)
    ensures IsStruct(v) ==> tree.name == Ascii("StructProperty") && StructNamed(ShortName(tree), v)
    ensures v.StructValue? ==> PathNamed(tree, v.structType)
    ensures !v.RawStructValue? && !v.RawValue? && !v.ArrayValue? && !v.MapValue?
  {
    hide Ascii, KindOf, LeafOk, StructOk, LeafNamed, StructNamed, FullPath, ShortName, PathNamed;
    var k := KindOf(tree.name);
    PathIs(tree);
    StructKindName(tree.name);
    if Leaf(k) {
      LeafNames(k, tree.name, |tree.children| > 0, v);
    } else if k.BoolK? {
      BoolNamed(tree.name, tree.children != [], v);
    } else {
      StructNames(ShortName(tree), FullPath(tree), v);
      NotALeaf(tree.name, tree.children != [], v);
    }
  }

  /** Every property of every parsed save: the kind of its value tells the name of its type, and only a type
      with a name of none of these kinds is kept raw. */
  lemma PropertyNames(bs: Bytes, i: nat)
    requires Parse(bs).Ok? && i < |Parse(bs).value.properties|
    ensures var p := Parse(bs).value.properties[i];
            && LeafNamed(p.tree.name, p.tree.children != [], p.value)
            && (IsStruct(p.value) ==>
                p.tree.name == Ascii("StructProperty")
                && StructNamed(if p.tree.children == [] then [] else p.tree.children[0].name, p.value))
            && (p.value.StructValue? ==> PathNamed(p.tree, p.value.structType))
            && (p.value.RawStructValue? ==>
                p.tree.name == Ascii("StructProperty") && PathNamed(p.tree, p.value.rawType))
            && (p.value.ArrayValue? ==> p.tree.name == Ascii("ArrayProperty") || p.tree.name == Ascii("SetProperty"))
            && (p.value.MapValue? ==> p.tree.name == Ascii("MapProperty"))
            && (p.value.RawValue? ==> OtherName(p.tree.name) && p.value.typeName == p.tree.name)
  {
    hide Ascii, Parse, PropertyOk, TagOk, LeafNamed, StructNamed, PathNamed, OtherName, HeaderOk, StringOk;
    ParseConforms(bs);
    var p := Parse(bs).value.properties[i];
    assert PropertyOk(p);
    TagIsOk(p);
    TagNames(p.tree, p.value);
  }

  lemma TagIsOk(p: Property)
    requires PropertyOk(p)
    ensures TagOk(p.tree, p.value)
  {
    hide StringOk, TreeOk;
  }

  lemma TagNames(tree: TypeTree, v: Value)
    requires TagOk(tree, v)
    ensures LeafNamed(tree.name, tree.children != [], v)
    ensures IsStruct(v) ==> tree.name == Ascii("StructProperty") && StructNamed(ShortName(tree), v)
    ensures v.StructValue? ==> PathNamed(tree, v.structType)
    ensures v.RawStructValue? ==> tree.name == Ascii("StructProperty") && PathNamed(tree, v.rawType)
    ensures v.ArrayValue? ==> tree.name == Ascii("ArrayProperty") || tree.name == Ascii("SetProperty")
    ensures v.MapValue? ==> tree.name == Ascii("MapProperty")
    ensures v.RawValue? ==> OtherName(tree.name) && v.typeName == tree.name
  {
    hide Ascii, KindOf, LeafOk, StructOk, StructNamed, FullPath, ShortName, PathNamed, OtherName, MembersOk, EntriesOk,
        LeafNamed;
    var k := KindOf(tree.name);
    PathIs(tree);
    StructKindName(tree.name);
    if Leaf(k) {
      LeafNames(k, tree.name, |tree.children| > 0, v);
    } else if k.StructK? && !v.RawStructValue? {
      StructNames(ShortName(tree), FullPath(tree), v);
      NotALeaf(tree.name, tree.children != [], v);
    } else if k.BoolK? {
      BoolNamed(tree.name, tree.children != [], v);
    } else if k.TextK? {
      TextNamed(tree.name, tree.children != [], v);
    } else {
      NotALeaf(tree.name, tree.children != [], v);
      if k.OtherK? { OtherNames(tree.name); }
    }
  }

  // ---------------------------------------------------------------- what is passed over

  /** Removed keys are read as keys and dropped. */
  lemma MapSkips(tree: TypeTree, removed: seq<Value>, es: seq<MapEntry>, rest: Bytes)
    requires |tree.children| >= 2 && |removed| < 0x1_0000_0000 && |es| <= 1_000_000
    requires MembersOk(tree.children[0], removed) && EntriesOk(tree.children[0], tree.children[1], es)
    ensures MapAt(tree, PutUInt(4, |removed|, PutMembers(removed, PutUInt(4, |es|, PutEntries(es, rest)))))
            == Ok(MapValue(es), rest)
  {
    hide UInt, PutUInt, PutMembers, PutEntries, MembersOk, EntriesOk, ByType;
    var b := PutUInt(4, |es|, PutEntries(es, rest));
    U32Put(|removed|, PutMembers(removed, b));
    MembersPut(tree.children[0], removed, [], b);
    U32Put(|es|, PutEntries(es, rest));
    EntriesPut(tree.children[0], tree.children[1], es, [], rest);
    assert [] + es == es;
  }

  lemma SetSkips(tree: TypeTree, removed: seq<Value>, vs: seq<Value>, rest: Bytes)
    requires |tree.children| > 0 && |removed| < 0x1_0000_0000 && |vs| <= 1_000_000
    requires MembersOk(tree.children[0], removed) && MembersOk(tree.children[0], vs)
    ensures SetAt(tree, PutUInt(4, |removed|, PutMembers(removed, PutUInt(4, |vs|, PutMembers(vs, rest)))))
            == Ok(ArrayValue(vs), rest)
  {
    hide UInt, PutUInt, PutMembers, MembersOk, ByType;
    var b := PutUInt(4, |vs|, PutMembers(vs, rest));
    U32Put(|removed|, PutMembers(removed, b));
    MembersPut(tree.children[0], removed, [], b);
    U32Put(|vs|, PutMembers(vs, rest));
    MembersPut(tree.children[0], vs, [], rest);
    assert [] + vs == vs;
  }

  /** A bool in a list is true for every byte but zero. */
  lemma NestedBool(tree: TypeTree, x: Byte, rest: Bytes)
    requires KindOf(tree.name).BoolK?
    ensures ByType(tree, [x] + rest) == Ok(BoolValue(x != 0), rest)
  {
    hide KindOf;
    var bs := [x] + rest;
    assert bs[..1] == [x] && bs[1..] == rest && [x][1..] == [];
    assert FromLE([x]) == x + 256 * FromLE([]);
  }

  /** The flags of a property tag are the bits 0, 1, 2 and 4 of its flag byte. */
  lemma FlagsAreBits(flags: nat)
    ensures HasFlag(flags, HAS_ARRAY_INDEX) <==> flags % 2 >= 1
    ensures HasFlag(flags, HAS_PROPERTY_GUID) <==> flags % 4 >= 2
    ensures HasFlag(flags, BOOL_TRUE) <==> flags % 8 >= 4
    ensures HasFlag(flags, HAS_BINARY_OR_NATIVE) <==> flags % 32 >= 16
  {
    Halves2(flags);
    Halves4(flags);
    Halves16(flags);
  }

  lemma Halves2(x: nat)
    ensures x / 2 % 2 == 1 <==> x % 4 >= 2
  {
    var h, q, r := x / 2, x / 4, x % 4;
    assert 2 * h <= x < 2 * h + 2 && x == 4 * q + r;
    assert h == if r >= 2 then 2 * q + 1 else 2 * q;
  }

  lemma Halves4(x: nat)
    ensures x / 4 % 2 == 1 <==> x % 8 >= 4
  {
    var h, q, r := x / 4, x / 8, x % 8;
    assert 4 * h <= x < 4 * h + 4 && x == 8 * q + r;
    assert h == if r >= 4 then 2 * q + 1 else 2 * q;
  }

  lemma Halves16(x: nat)
    ensures x / 16 % 2 == 1 <==> x % 32 >= 16
  {
    var h, q, r := x / 16, x / 32, x % 32;
    assert 16 * h <= x < 16 * h + 16 && x == 32 * q + r;
    assert h == if r >= 16 then 2 * q + 1 else 2 * q;
  }
}
