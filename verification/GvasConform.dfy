/** Everything the decoder returns conforms to its type tree and stays within the stated limits, so a
    parsed save can be written out and parsed again to the same save. */
module GvasConform {
  import opened GvasDecode
  import opened GvasEncode
  import opened GvasNumbers
  import GvasRoundTrip
  import opened GvasText
  import opened GvasTypes
  import opened Options

  lemma UIntBounds(n: nat, bs: Bytes)
    requires UInt(n, bs).Ok?
    ensures n == 1 ==> U8Ok(UInt(n, bs).value)
    ensures n == 2 ==> U16Ok(UInt(n, bs).value)
    ensures n == 4 ==> U32Ok(UInt(n, bs).value)
    ensures n == 8 ==> U64Ok(UInt(n, bs).value)
  {
    hide UInt, Pow256;
    Powers();
  }

  lemma I32Bounds(bs: Bytes)
    requires I32(bs).Ok?
    ensures I32Ok(I32(bs).value)
  {
    hide UInt;
    UIntBounds(4, bs);
  }

  lemma I64Bounds(bs: Bytes)
    requires I64(bs).Ok?
    ensures I64Ok(I64(bs).value)
  {
    hide UInt;
    UIntBounds(8, bs);
  }

  // ---------------------------------------------------------------- strings

  lemma {:induction false} StringsBound(n: nat, acc: seq<Bytes>, bs: Bytes)
    requires StringsOk(acc) && Strings(n, acc, bs).Ok?
    ensures StringsOk(Strings(n, acc, bs).value) && |Strings(n, acc, bs).value| == |acc| + n
    decreases n
  {
    hide FString;
    if n > 0 {
      StringBound(bs);
      StringsBound(n - 1, acc + [FString(bs).value], FString(bs).rest);
    }
  }

  lemma GuidDecoded(bs: Bytes)
    requires GuidAt(bs).Ok?
    ensures GuidOk(GuidAt(bs).value)
  {
    hide UInt;
    var b1 := UInt(4, bs).rest;
    var b3 := Take(4, Take(4, b1).rest).rest;
    UIntBounds(4, bs);
    UIntBounds(4, b3);
  }

  // ---------------------------------------------------------------- header and type trees

  lemma {:induction false} CustomVersionsDecoded(n: nat, acc: seq<CustomVersion>, bs: Bytes)
    requires GvasRoundTrip.CustomVersionsOk(acc) && CustomVersions(n, acc, bs).Ok?
    ensures GvasRoundTrip.CustomVersionsOk(CustomVersions(n, acc, bs).value)
    ensures |CustomVersions(n, acc, bs).value| == |acc| + n
    decreases n
  {
    hide GuidAt, I32, GuidOk, I32Ok;
    if n > 0 {
      var g, b1 := GuidAt(bs).value, GuidAt(bs).rest;
      var v, b2 := I32(b1).value, I32(b1).rest;
      GuidDecoded(bs);
      I32Bounds(b1);
      CustomVersionsDecoded(n - 1, acc + [CustomVersion(g, v)], b2);
    }
  }

  lemma HeaderDecoded(bs: Bytes)
    requires HeaderAt(bs).Ok?
    ensures HeaderOk(HeaderAt(bs).value)
  {
    hide UInt, FString, CustomVersions, U32Ok, U16Ok, GuidOk, I32Ok;
    var b1 := UInt(4, bs).rest;
    var version, b2 := UInt(4, b1).value, UInt(4, b1).rest;
    var b3 := UInt(4, b2).rest;
    var b4 := OptionalU32(HasUE5Version(version), b3).rest;
    var b5 := UInt(2, b4).rest;
    var b6 := UInt(2, b5).rest;
    var b7 := UInt(2, b6).rest;
    var b8 := UInt(4, b7).rest;
    var b9 := FString(b8).rest;
    var b10 := UInt(4, b9).rest;
    var count, b11 := UInt(4, b10).value, UInt(4, b10).rest;
    UIntBounds(4, b1);
    UIntBounds(4, b2);
    OptionalBound(HasUE5Version(version), b3);
    UIntBounds(2, b4);
    UIntBounds(2, b5);
    UIntBounds(2, b6);
    UIntBounds(4, b7);
    StringBound(b8);
    UIntBounds(4, b10);
    CustomVersionsDecoded(count, [], b11);
  }

  lemma OptionalBound(present: bool, bs: Bytes)
    requires OptionalU32(present, bs).Ok?
    ensures U32Ok(OptionalU32(present, bs).value) && (!present ==> OptionalU32(present, bs).value == 0)
  {
    hide UInt;
    if present { UIntBounds(4, bs); }
  }

  ghost predicate TreesOk(ts: seq<TypeTree>, depth: nat) {
    forall i | 0 <= i < |ts| :: TreeOk(ts[i], depth)
  }

  lemma {:induction false} TreeDecoded(depth: nat, bs: Bytes)
    requires Tree(depth, bs).Ok?
    ensures TreeOk(Tree(depth, bs).value, depth)
    decreases |bs|, 0, 0
  {
    hide FString, UInt;
    var b1 := FString(bs).rest;
    var count, b2 := UInt(4, b1).value, UInt(4, b1).rest;
    StringBound(bs);
    TreesDecoded(depth + 1, count, [], b2);
  }

  lemma {:induction false} TreesDecoded(depth: nat, n: nat, acc: seq<TypeTree>, bs: Bytes)
    requires TreesOk(acc, depth) && Trees(depth, n, acc, bs).Ok?
    ensures TreesOk(Trees(depth, n, acc, bs).value, depth) && |Trees(depth, n, acc, bs).value| == |acc| + n
    decreases |bs|, 1, n
  {
    hide Tree, TreeOk;
    if n > 0 {
      TreeDecoded(depth, bs);
      TreesDecoded(depth, n - 1, acc + [Tree(depth, bs).value], Tree(depth, bs).rest);
    }
  }

  // ---------------------------------------------------------------- values

  lemma LeafDecoded(k: Kind, nested: bool, bs: Bytes)
    requires Leaf(k) && LeafAt(k, nested, bs).Ok?
    ensures LeafOk(k, nested, LeafAt(k, nested, bs).value)
  {
    hide UInt, FString, I32, I64;
    match k
    case IntK => I32Bounds(bs);
    case Int64K => I64Bounds(bs);
    case UInt32K => UIntBounds(4, bs);
    case FloatK => UIntBounds(4, bs);
    case UInt64K => UIntBounds(8, bs);
    case DoubleK => UIntBounds(8, bs);
    case NameK => StringBound(bs);
    case StrK => StringBound(bs);
    case ObjectK => StringBound(bs);
    case EnumK => StringBound(bs);
    case ByteK => if nested { StringBound(bs); } else { UIntBounds(1, bs); }
    case SoftObjectK =>
      var b1 := FString(bs).rest;
      StringBound(bs);
      StringBound(b1);
      StringBound(FString(b1).rest);
  }

  lemma NumbersBound(n: nat, count: nat, bs: Bytes)
    requires 1 <= count <= 4 && (n == 4 || n == 8) && UInt(n, bs).Ok?
    requires count > 1 ==> UInt(n, UInt(n, bs).rest).Ok?
    requires count > 2 ==> UInt(n, UInt(n, UInt(n, bs).rest).rest).Ok?
    requires count > 3 ==> UInt(n, UInt(n, UInt(n, UInt(n, bs).rest).rest).rest).Ok?
    ensures n == 8 ==> U64Ok(UInt(n, bs).value)
    ensures n == 8 && count > 1 ==> U64Ok(UInt(n, UInt(n, bs).rest).value)
    ensures n == 8 && count > 2 ==> U64Ok(UInt(n, UInt(n, UInt(n, bs).rest).rest).value)
    ensures n == 8 && count > 3 ==> U64Ok(UInt(n, UInt(n, UInt(n, UInt(n, bs).rest).rest).rest).value)
    ensures n == 4 && count > 3 ==>
              && U32Ok(UInt(n, bs).value) && U32Ok(UInt(n, UInt(n, bs).rest).value)
              && U32Ok(UInt(n, UInt(n, UInt(n, bs).rest).rest).value)
              && U32Ok(UInt(n, UInt(n, UInt(n, UInt(n, bs).rest).rest).rest).value)
  {
    hide UInt, U32Ok, U64Ok;
    UIntBounds(n, bs);
    if count > 1 { UIntBounds(n, UInt(n, bs).rest); }
    if count > 2 { UIntBounds(n, UInt(n, UInt(n, bs).rest).rest); }
    if count > 3 { UIntBounds(n, UInt(n, UInt(n, UInt(n, bs).rest).rest).rest); }
  }

  lemma FixedStructDecoded(k: StructKind, bs: Bytes)
    requires !k.GenericS? && FixedStruct(k, bs).Ok?
    ensures FixedStructOk(k, FixedStruct(k, bs).value)
  {
    hide UInt, I32, GuidAt, Strings, U32Ok, U64Ok, I32Ok, GuidOk, StringsOk;
    match k
    case GuidS => GuidDecoded(bs);
    case DateTimeS => NumbersBound(8, 1, bs);
    case VectorS => NumbersBound(8, 3, bs);
    case QuatS => NumbersBound(8, 4, bs);
    case RotatorS => NumbersBound(8, 3, bs);
    case LinearColorS => NumbersBound(4, 4, bs);
    case TagsS => TagsDecoded(bs);
    case Vector2DS => NumbersBound(8, 2, bs);
    case IntPointS =>
      I32Bounds(bs);
      I32Bounds(I32(bs).rest);
  }

  lemma TagsDecoded(bs: Bytes)
    requires UInt(4, bs).Ok? && Strings(UInt(4, bs).value, [], UInt(4, bs).rest).Ok?
    ensures var tags := Strings(UInt(4, bs).value, [], UInt(4, bs).rest).value;
            U32Ok(|tags|) && StringsOk(tags)
  {
    hide UInt, Strings;
    UIntBounds(4, bs);
    StringsBound(UInt(4, bs).value, [], UInt(4, bs).rest);
  }

  lemma {:induction false} StructDecoded(shortName: Bytes, fullPath: Bytes, bs: Bytes)
    requires StructAt(shortName, fullPath, bs).Ok?
    ensures StructOk(shortName, fullPath, StructAt(shortName, fullPath, bs).value)
    decreases |bs|, 1, 0
  {
    hide FixedStruct, FixedStructOk, StructKindOf, PropertiesOk;
    var k := StructKindOf(shortName);
    if !k.GenericS? {
      FixedStructDecoded(k, bs);
    } else {
      NoProperties();
      PropertiesDecoded([], bs);
    }
  }

  lemma NoProperties()
    ensures PropertiesOk([])
  {
  }

  lemma {:induction false} MemberDecoded(tree: TypeTree, bs: Bytes)
    requires ByType(tree, bs).Ok?
    ensures MemberOk(tree, ByType(tree, bs).value)
    decreases |bs|, 2, 0
  {
    hide LeafAt, LeafOk, StructAt, StructOk, KindOf, ShortName, FullPath, UInt;
    var k := KindOf(tree.name);
    if Leaf(k) {
      LeafDecoded(k, |tree.children| > 0, bs);
    } else if k.StructK? {
      StructDecoded(ShortName(tree), FullPath(tree), bs);
    }
  }

  lemma {:induction false} ElementsDecoded(tree: TypeTree, n: nat, acc: seq<Value>, bs: Bytes)
    requires MembersOk(tree, acc) && Elements(tree, n, acc, bs).Ok?
    ensures MembersOk(tree, Elements(tree, n, acc, bs).value)
    ensures |Elements(tree, n, acc, bs).value| == |acc| + n
    decreases |bs|, 3, n
  {
    hide ByType, MemberOk;
    if n > 0 {
      MemberDecoded(tree, bs);
      ElementsDecoded(tree, n - 1, acc + [ByType(tree, bs).value], ByType(tree, bs).rest);
    }
  }

  lemma {:induction false} EntriesDecoded(keyTree: TypeTree, valTree: TypeTree, n: nat, acc: seq<MapEntry>, bs: Bytes)
    requires EntriesOk(keyTree, valTree, acc) && Entries(keyTree, valTree, n, acc, bs).Ok?
    ensures EntriesOk(keyTree, valTree, Entries(keyTree, valTree, n, acc, bs).value)
    ensures |Entries(keyTree, valTree, n, acc, bs).value| == |acc| + n
    decreases |bs|, 3, n
  {
    hide ByType, MemberOk;
    if n > 0 {
      var k, b1 := ByType(keyTree, bs).value, ByType(keyTree, bs).rest;
      var v, b2 := ByType(valTree, b1).value, ByType(valTree, b1).rest;
      MemberDecoded(keyTree, bs);
      MemberDecoded(valTree, b1);
      EntriesDecoded(keyTree, valTree, n - 1, acc + [MapEntry(k, v)], b2);
    }
  }

  ghost predicate ArrayOk(tree: TypeTree, v: Value) {
    v.ArrayValue? && |tree.children| > 0 && |v.elements| <= MAX_ARRAY_COUNT && MembersOk(tree.children[0], v.elements)
  }

  lemma {:induction false} ArrayDecoded(tree: TypeTree, bs: Bytes)
    ensures ArrayAt(tree, bs).Ok? ==> ArrayOk(tree, ArrayAt(tree, bs).value)
    decreases |bs|, 4, 0
  {
    hide UInt, Elements, MembersOk;
    if ArrayAt(tree, bs).Ok? {
      NoMembers(tree.children[0]);
      ElementsDecoded(tree.children[0], UInt(4, bs).value, [], UInt(4, bs).rest);
    }
  }

  lemma NoMembers(tree: TypeTree)
    ensures MembersOk(tree, [])
  {
  }

  lemma {:induction false} SetDecoded(tree: TypeTree, bs: Bytes)
    ensures SetAt(tree, bs).Ok? ==> ArrayOk(tree, SetAt(tree, bs).value)
    decreases |bs|, 4, 0
  {
    hide UInt, Elements, MembersOk;
    if SetAt(tree, bs).Ok? {
      var removed, b1 := UInt(4, bs).value, UInt(4, bs).rest;
      var b2 := Elements(tree.children[0], removed, [], b1).rest;
      NoMembers(tree.children[0]);
      ElementsDecoded(tree.children[0], UInt(4, b2).value, [], UInt(4, b2).rest);
    }
  }

  lemma {:induction false} MapDecoded(tree: TypeTree, bs: Bytes)
    ensures MapAt(tree, bs).Ok? ==>
              var v := MapAt(tree, bs).value;
              v.MapValue? && |tree.children| >= 2 && |v.entries| <= MAX_ARRAY_COUNT
              && EntriesOk(tree.children[0], tree.children[1], v.entries)
    decreases |bs|, 4, 0
  {
    hide UInt, Elements, Entries, EntryOk;
    if MapAt(tree, bs).Ok? {
      var removed, b1 := UInt(4, bs).value, UInt(4, bs).rest;
      var b2 := Elements(tree.children[0], removed, [], b1).rest;
      EntriesDecoded(tree.children[0], tree.children[1], UInt(4, b2).value, [], UInt(4, b2).rest);
    }
  }

  lemma {:induction false} TagValueDecoded(tree: TypeTree, size: nat, flags: nat, bs: Bytes)
    requires TagValue(tree, size, flags, bs).Ok? && U32Ok(size)
    ensures TagOk(tree, TagValue(tree, size, flags, bs).value)
    decreases |bs|, 5, 0
  {
    hide LeafAt, LeafOk, StructAt, StructOk, ArrayAt, MapAt, SetAt, KindOf, ShortName, FullPath, HasFlag, MembersOk,
        EntriesOk;
    var k := KindOf(tree.name);
    if Leaf(k) {
      LeafDecoded(k, |tree.children| > 0, bs);
    } else if k.StructK? && !HasFlag(flags, HAS_BINARY_OR_NATIVE) {
      StructDecoded(ShortName(tree), FullPath(tree), bs);
      StructNotRaw(ShortName(tree), FullPath(tree), bs);
    } else if k.ArrayK? {
      ArrayDecoded(tree, bs);
    } else if k.MapK? {
      MapDecoded(tree, bs);
    } else if k.SetK? {
      SetDecoded(tree, bs);
    }
  }

  lemma StructNotRaw(shortName: Bytes, fullPath: Bytes, bs: Bytes)
    requires StructAt(shortName, fullPath, bs).Ok?
    ensures !StructAt(shortName, fullPath, bs).value.RawStructValue?
  {
    hide StructKindOf, UInt, I32, GuidAt, Strings;
  }

  // ---------------------------------------------------------------- properties and saves

  lemma {:induction false} TagBodyDecoded(name: Bytes, bs: Bytes)
    requires TagBody(name, bs).Ok? && StringOk(name) && name != Ascii("None")
    ensures PropertyOk(TagBody(name, bs).value)
    decreases |bs|, 6, 0
  {
    hide Tree, UInt, OptionalU32, TagValue, HasFlag, GuidAt, TreeOk, TagOk, GuidOk, U32Ok, Ascii;
    var tree, b1 := Tree(0, bs).value, Tree(0, bs).rest;
    var size, b2 := UInt(4, b1).value, UInt(4, b1).rest;
    var flags, b3 := UInt(1, b2).value, UInt(1, b2).rest;
    var b4 := OptionalU32(HasFlag(flags, HAS_ARRAY_INDEX), b3).rest;
    var b5 := OptionalGuid(HasFlag(flags, HAS_PROPERTY_GUID), b4).rest;
    TreeDecoded(0, bs);
    UIntBounds(4, b1);
    OptionalBound(HasFlag(flags, HAS_ARRAY_INDEX), b3);
    if HasFlag(flags, HAS_PROPERTY_GUID) { GuidDecoded(b4); }
    TagValueDecoded(tree, size, flags, b5);
  }

  lemma {:induction false} PropertiesDecoded(acc: seq<Property>, bs: Bytes)
    requires PropertiesOk(acc) && Properties(acc, bs).Ok?
    ensures PropertiesOk(Properties(acc, bs).value)
    decreases |bs|, 0, 0
  {
    hide FString, TagBody, PropertyOk, Ascii;
    var name, b1 := FString(bs).value, FString(bs).rest;
    if name != Ascii("None") {
      StringBound(bs);
      TagBodyDecoded(name, b1);
      PropertiesDecoded(acc + [TagBody(name, b1).value], TagBody(name, b1).rest);
    }
  }

  /** Whatever the input, a parsed save conforms to its type trees and limits. */
  lemma ParseConforms(bs: Bytes)
    requires Parse(bs).Ok?
    ensures SaveOk(Parse(bs).value)
  {
    hide HeaderAt, FString, Take, Properties, HeaderOk, PropertyOk;
    var h, b1 := HeaderAt(bs).value, HeaderAt(bs).rest;
    var b2 := FString(b1).rest;
    var b3 := Take(if HasReservedByte(h.engineMajor, h.engineMinor) then 1 else 0, b2).rest;
    HeaderDecoded(bs);
    StringBound(b1);
    PropertiesDecoded([], b3);
  }

  /** Saving a parsed file again loses nothing: parsing the new file gives the same save. */
  lemma ReencodeParsed(bs: Bytes)
    requires Parse(bs).Ok?
    ensures Parse(Encode(Parse(bs).value)) == Parse(bs)
  {
    hide Parse, Encode, SaveOk;
    ParseConforms(bs);
    ParseRestEmpty(bs);
    GvasRoundTrip.ParseEncode(Parse(bs).value);
  }

  /** The well-formed saves are exactly those the parser can return. */
  lemma WellFormedExactly(s: Save)
    ensures SaveOk(s) <==> exists bs :: Parse(bs).Ok? && Parse(bs).value == s
  {
    hide Parse, Encode, SaveOk;
    if SaveOk(s) {
      GvasRoundTrip.ParseEncode(s);
      assert Parse(Encode(s)).Ok? && Parse(Encode(s)).value == s;
    }
    forall bs | Parse(bs).Ok? ensures SaveOk(Parse(bs).value) {
      ParseConforms(bs);
    }
  }

  lemma ParseRestEmpty(bs: Bytes)
    ensures Parse(bs).Ok? ==> Parse(bs).rest == []
  {
    hide HeaderAt, FString, Take, Properties;
  }
}
