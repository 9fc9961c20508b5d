/** A successful decode depends only on the bytes it consumes: replacing the last `t` bytes, all of
    them left over, by any others changes neither the value nor what was consumed. */
module GvasLocality {
  import opened GvasDecode
  import opened GvasTypes
  import opened Options

  /** `x` with its last `t` bytes replaced by `ext`. */
  function Swap(x: Bytes, t: nat, ext: Bytes): Bytes
    requires t <= |x|
  {
    x[..|x| - t] + ext
  }

  ghost predicate Same<T>(before: Decoded<T>, after: Decoded<T>, t: nat, ext: Bytes)
    requires before.Ok? && t <= |before.rest|
  {
    after == Ok(before.value, Swap(before.rest, t, ext))
  }

  lemma TakeLocal(n: nat, bs: Bytes, t: nat, ext: Bytes)
    requires Take(n, bs).Ok? && t <= |Take(n, bs).rest|
    ensures Same(Take(n, bs), Take(n, Swap(bs, t, ext)), t, ext)
  {
    assert Swap(bs, t, ext)[..n] == bs[..n];
    assert Swap(bs, t, ext)[n..] == Swap(bs[n..], t, ext);
  }

  lemma UIntLocal(n: nat, bs: Bytes, t: nat, ext: Bytes)
    requires UInt(n, bs).Ok? && t <= |UInt(n, bs).rest|
    ensures Same(UInt(n, bs), UInt(n, Swap(bs, t, ext)), t, ext)
  {
    hide Swap;
    TakeLocal(n, bs, t, ext);
  }

  lemma I32Local(bs: Bytes, t: nat, ext: Bytes)
    requires I32(bs).Ok? && t <= |I32(bs).rest|
    ensures Same(I32(bs), I32(Swap(bs, t, ext)), t, ext)
  {
    hide Swap;
    UIntLocal(4, bs, t, ext);
  }

  lemma I64Local(bs: Bytes, t: nat, ext: Bytes)
    requires I64(bs).Ok? && t <= |I64(bs).rest|
    ensures Same(I64(bs), I64(Swap(bs, t, ext)), t, ext)
  {
    hide Swap;
    UIntLocal(8, bs, t, ext);
  }

  lemma FStringLocal(bs: Bytes, t: nat, ext: Bytes)
    requires FString(bs).Ok? && t <= |FString(bs).rest|
    ensures Same(FString(bs), FString(Swap(bs, t, ext)), t, ext)
  {
    hide Swap, Take, I32;
    I32Local(bs, t, ext);
    var length, b1 := I32(bs).value, I32(bs).rest;
    if length > 0 {
      TakeLocal(length, b1, t, ext);
    } else if length < 0 {
      TakeLocal(NegateI32(length) * 2, b1, t, ext);
    }
  }

  lemma {:induction false} StringsLocal(n: nat, acc: seq<Bytes>, bs: Bytes, t: nat, ext: Bytes)
    requires Strings(n, acc, bs).Ok? && t <= |Strings(n, acc, bs).rest|
    ensures Same(Strings(n, acc, bs), Strings(n, acc, Swap(bs, t, ext)), t, ext)
    decreases n
  {
    hide Swap, FString;
    if n > 0 {
      FStringLocal(bs, t, ext);
      StringsLocal(n - 1, acc + [FString(bs).value], FString(bs).rest, t, ext);
    }
  }

  lemma GuidLocal(bs: Bytes, t: nat, ext: Bytes)
    requires GuidAt(bs).Ok? && t <= |GuidAt(bs).rest|
    ensures Same(GuidAt(bs), GuidAt(Swap(bs, t, ext)), t, ext)
  {
    hide Swap, FromLE;
    var b1 := UInt(4, bs).rest;
    var b2 := Take(4, b1).rest;
    var b3 := Take(4, b2).rest;
    UIntLocal(4, bs, t, ext);
    TakeLocal(4, b1, t, ext);
    TakeLocal(4, b2, t, ext);
    UIntLocal(4, b3, t, ext);
  }

  lemma {:induction false} CustomVersionsLocal(n: nat, acc: seq<CustomVersion>, bs: Bytes, t: nat, ext: Bytes)
    requires CustomVersions(n, acc, bs).Ok? && t <= |CustomVersions(n, acc, bs).rest|
    ensures Same(CustomVersions(n, acc, bs), CustomVersions(n, acc, Swap(bs, t, ext)), t, ext)
    decreases n
  {
    hide Swap, GuidAt, I32;
    if n > 0 {
      var g, b1 := GuidAt(bs).value, GuidAt(bs).rest;
      var v, b2 := I32(b1).value, I32(b1).rest;
      GuidLocal(bs, t, ext);
      I32Local(b1, t, ext);
      CustomVersionsLocal(n - 1, acc + [CustomVersion(g, v)], b2, t, ext);
    }
  }

  lemma OptionalU32Local(present: bool, bs: Bytes, t: nat, ext: Bytes)
    requires OptionalU32(present, bs).Ok? && t <= |OptionalU32(present, bs).rest|
    ensures Same(OptionalU32(present, bs), OptionalU32(present, Swap(bs, t, ext)), t, ext)
  {
    hide Swap, UInt;
    if present { UIntLocal(4, bs, t, ext); }
  }

  lemma HeaderLocal(bs: Bytes, t: nat, ext: Bytes)
    requires HeaderAt(bs).Ok? && t <= |HeaderAt(bs).rest|
    ensures Same(HeaderAt(bs), HeaderAt(Swap(bs, t, ext)), t, ext)
  {
    hide Swap, UInt, FString, CustomVersions, OptionalU32;
    var b1 := UInt(4, bs).rest;
    var version, b2 := UInt(4, b1).value, UInt(4, b1).rest;
    var b3 := UInt(4, b2).rest;
    var b4 := OptionalU32(HasUE5Version(version), b3).rest;
    var b5 := UInt(2, b4).rest;
    var b6 := UInt(2, b5).rest;
    var b7 := UInt(2, b6).rest;
    var b8 := UInt(4, b7).rest;
    var b9 := FString(b8).rest;
    var b10 := UInt(4, b9).rest;
    var count, b11 := UInt(4, b10).value, UInt(4, b10).rest;
    UIntLocal(4, bs, t, ext);
    UIntLocal(4, b1, t, ext);
    UIntLocal(4, b2, t, ext);
    OptionalU32Local(HasUE5Version(version), b3, t, ext);
    UIntLocal(2, b4, t, ext);
    UIntLocal(2, b5, t, ext);
    UIntLocal(2, b6, t, ext);
    UIntLocal(4, b7, t, ext);
    FStringLocal(b8, t, ext);
    UIntLocal(4, b9, t, ext);
    UIntLocal(4, b10, t, ext);
    CustomVersionsLocal(count, [], b11, t, ext);
  }

  lemma {:induction false} TreeLocal(depth: nat, bs: Bytes, t: nat, ext: Bytes)
    requires Tree(depth, bs).Ok? && t <= |Tree(depth, bs).rest|
    ensures Same(Tree(depth, bs), Tree(depth, Swap(bs, t, ext)), t, ext)
    decreases |bs|, 0, 0
  {
    hide Swap, FString, UInt;
    var b1 := FString(bs).rest;
    var count, b2 := UInt(4, b1).value, UInt(4, b1).rest;
    FStringLocal(bs, t, ext);
    UIntLocal(4, b1, t, ext);
    TreesLocal(depth + 1, count, [], b2, t, ext);
  }

  lemma {:induction false} TreesLocal(depth: nat, n: nat, acc: seq<TypeTree>, bs: Bytes, t: nat, ext: Bytes)
    requires Trees(depth, n, acc, bs).Ok? && t <= |Trees(depth, n, acc, bs).rest|
    ensures Same(Trees(depth, n, acc, bs), Trees(depth, n, acc, Swap(bs, t, ext)), t, ext)
    decreases |bs|, 1, n
  {
    hide Swap, Tree;
    if n > 0 {
      TreeLocal(depth, bs, t, ext);
      TreesLocal(depth, n - 1, acc + [Tree(depth, bs).value], Tree(depth, bs).rest, t, ext);
    }
  }

  lemma LeafLocal(k: Kind, nested: bool, bs: Bytes, t: nat, ext: Bytes)
    requires Leaf(k) && LeafAt(k, nested, bs).Ok? && t <= |LeafAt(k, nested, bs).rest|
    ensures Same(LeafAt(k, nested, bs), LeafAt(k, nested, Swap(bs, t, ext)), t, ext)
  {
    hide Swap, FString, UInt, I32, I64;
    match k
    case IntK => I32Local(bs, t, ext);
    case Int64K => I64Local(bs, t, ext);
    case UInt32K => UIntLocal(4, bs, t, ext);
    case FloatK => UIntLocal(4, bs, t, ext);
    case UInt64K => UIntLocal(8, bs, t, ext);
    case DoubleK => UIntLocal(8, bs, t, ext);
    case NameK => FStringLocal(bs, t, ext);
    case StrK => FStringLocal(bs, t, ext);
    case ObjectK => FStringLocal(bs, t, ext);
    case EnumK => FStringLocal(bs, t, ext);
    case ByteK => if nested { FStringLocal(bs, t, ext); } else { UIntLocal(1, bs, t, ext); }
    case SoftObjectK =>
      var b1 := FString(bs).rest;
      var b2 := FString(b1).rest;
      FStringLocal(bs, t, ext);
      FStringLocal(b1, t, ext);
      FStringLocal(b2, t, ext);
  }

  /** Up to four numbers of the same width in a row. */
  lemma NumbersLocal(n: nat, count: nat, bs: Bytes, t: nat, ext: Bytes)
    requires 1 <= count <= 4 && UInt(n, bs).Ok? && t <= |UInt(n, bs).rest|
    requires count > 1 ==> UInt(n, UInt(n, bs).rest).Ok? && t <= |UInt(n, UInt(n, bs).rest).rest|
    requires count > 2 ==>
               var b2 := UInt(n, UInt(n, bs).rest).rest; UInt(n, b2).Ok? && t <= |UInt(n, b2).rest|
    requires count > 3 ==>
               var b3 := UInt(n, UInt(n, UInt(n, bs).rest).rest).rest; UInt(n, b3).Ok? && t <= |UInt(n, b3).rest|
    ensures Same(UInt(n, bs), UInt(n, Swap(bs, t, ext)), t, ext)
    ensures count > 1 ==> var b1 := UInt(n, bs).rest; Same(UInt(n, b1), UInt(n, Swap(b1, t, ext)), t, ext)
    ensures count > 2 ==> var b2 := UInt(n, UInt(n, bs).rest).rest; Same(UInt(n, b2), UInt(n, Swap(b2, t, ext)), t, ext)
    ensures count > 3 ==>
              var b3 := UInt(n, UInt(n, UInt(n, bs).rest).rest).rest;
                  Same(UInt(n, b3), UInt(n, Swap(b3, t, ext)), t, ext)
  {
    hide Swap, Same;
    UIntLocal(n, bs, t, ext);
    if count > 1 { UIntLocal(n, UInt(n, bs).rest, t, ext); }
    if count > 2 { UIntLocal(n, UInt(n, UInt(n, bs).rest).rest, t, ext); }
    if count > 3 { UIntLocal(n, UInt(n, UInt(n, UInt(n, bs).rest).rest).rest, t, ext); }
  }

  lemma FixedStructLocal(k: StructKind, bs: Bytes, t: nat, ext: Bytes)
    requires !k.GenericS? && FixedStruct(k, bs).Ok? && t <= |FixedStruct(k, bs).rest|
    ensures Same(FixedStruct(k, bs), FixedStruct(k, Swap(bs, t, ext)), t, ext)
  {
    hide Swap, GuidAt, UInt, I32, Strings;
    match k
    case GuidS => GuidLocal(bs, t, ext);
    case DateTimeS => NumbersLocal(8, 1, bs, t, ext);
    case VectorS => NumbersLocal(8, 3, bs, t, ext);
    case QuatS => NumbersLocal(8, 4, bs, t, ext);
    case RotatorS => NumbersLocal(8, 3, bs, t, ext);
    case LinearColorS => NumbersLocal(4, 4, bs, t, ext);
    case TagsS =>
      UIntLocal(4, bs, t, ext);
      StringsLocal(UInt(4, bs).value, [], UInt(4, bs).rest, t, ext);
    case Vector2DS => NumbersLocal(8, 2, bs, t, ext);
    case IntPointS =>
      I32Local(bs, t, ext);
      I32Local(I32(bs).rest, t, ext);
  }

  lemma {:induction false} StructLocal(shortName: Bytes, fullPath: Bytes, bs: Bytes, t: nat, ext: Bytes)
    requires StructAt(shortName, fullPath, bs).Ok? && t <= |StructAt(shortName, fullPath, bs).rest|
    ensures Same(StructAt(shortName, fullPath, bs), StructAt(shortName, fullPath, Swap(bs, t, ext)), t, ext)
    decreases |bs|, 1, 0
  {
    hide Swap, FixedStruct, StructKindOf;
    var k := StructKindOf(shortName);
    if !k.GenericS? {
      FixedStructLocal(k, bs, t, ext);
    } else {
      PropertiesLocal([], bs, t, ext);
    }
  }

  lemma {:induction false} MemberLocal(tree: TypeTree, bs: Bytes, t: nat, ext: Bytes)
    requires ByType(tree, bs).Ok? && t <= |ByType(tree, bs).rest|
    ensures Same(ByType(tree, bs), ByType(tree, Swap(bs, t, ext)), t, ext)
    decreases |bs|, 2, 0
  {
    hide Swap, LeafAt, UInt, StructAt, KindOf, ShortName, FullPath;
    var k := KindOf(tree.name);
    if Leaf(k) {
      LeafLocal(k, |tree.children| > 0, bs, t, ext);
    } else if k.BoolK? {
      UIntLocal(1, bs, t, ext);
    } else {
      StructLocal(ShortName(tree), FullPath(tree), bs, t, ext);
    }
  }

  lemma {:induction false} ElementsLocal(tree: TypeTree, n: nat, acc: seq<Value>, bs: Bytes, t: nat, ext: Bytes)
    requires Elements(tree, n, acc, bs).Ok? && t <= |Elements(tree, n, acc, bs).rest|
    ensures Same(Elements(tree, n, acc, bs), Elements(tree, n, acc, Swap(bs, t, ext)), t, ext)
    decreases |bs|, 3, n
  {
    hide Swap, ByType;
    if n > 0 {
      MemberLocal(tree, bs, t, ext);
      ElementsLocal(tree, n - 1, acc + [ByType(tree, bs).value], ByType(tree, bs).rest, t, ext);
    }
  }

  lemma {:induction false} EntriesLocal(keyTree: TypeTree, valTree: TypeTree, n: nat, acc: seq<MapEntry>, bs: Bytes,
      t: nat, ext: Bytes)
    requires Entries(keyTree, valTree, n, acc, bs).Ok? && t <= |Entries(keyTree, valTree, n, acc, bs).rest|
    ensures Same(Entries(keyTree, valTree, n, acc, bs), Entries(keyTree, valTree, n, acc, Swap(bs, t, ext)), t, ext)
    decreases |bs|, 3, n
  {
    hide Swap, ByType;
    if n > 0 {
      var k, b1 := ByType(keyTree, bs).value, ByType(keyTree, bs).rest;
      var v, b2 := ByType(valTree, b1).value, ByType(valTree, b1).rest;
      MemberLocal(keyTree, bs, t, ext);
      MemberLocal(valTree, b1, t, ext);
      EntriesLocal(keyTree, valTree, n - 1, acc + [MapEntry(k, v)], b2, t, ext);
    }
  }

  lemma {:induction false} ArrayLocal(tree: TypeTree, bs: Bytes, t: nat, ext: Bytes)
    requires ArrayAt(tree, bs).Ok? && t <= |ArrayAt(tree, bs).rest|
    ensures Same(ArrayAt(tree, bs), ArrayAt(tree, Swap(bs, t, ext)), t, ext)
    decreases |bs|, 4, 0
  {
    hide Swap, UInt, Elements;
    UIntLocal(4, bs, t, ext);
    ElementsLocal(tree.children[0], UInt(4, bs).value, [], UInt(4, bs).rest, t, ext);
  }

  lemma {:induction false} MapLocal(tree: TypeTree, bs: Bytes, t: nat, ext: Bytes)
    requires MapAt(tree, bs).Ok? && t <= |MapAt(tree, bs).rest|
    ensures Same(MapAt(tree, bs), MapAt(tree, Swap(bs, t, ext)), t, ext)
    decreases |bs|, 4, 0
  {
    hide Swap, UInt, Elements, Entries;
    var removed, b1 := UInt(4, bs).value, UInt(4, bs).rest;
    var b2 := Elements(tree.children[0], removed, [], b1).rest;
    var count, b3 := UInt(4, b2).value, UInt(4, b2).rest;
    UIntLocal(4, bs, t, ext);
    ElementsLocal(tree.children[0], removed, [], b1, t, ext);
    UIntLocal(4, b2, t, ext);
    EntriesLocal(tree.children[0], tree.children[1], count, [], b3, t, ext);
  }

  lemma {:induction false} SetLocal(tree: TypeTree, bs: Bytes, t: nat, ext: Bytes)
    requires SetAt(tree, bs).Ok? && t <= |SetAt(tree, bs).rest|
    ensures Same(SetAt(tree, bs), SetAt(tree, Swap(bs, t, ext)), t, ext)
    decreases |bs|, 4, 0
  {
    hide Swap, UInt, Elements;
    var removed, b1 := UInt(4, bs).value, UInt(4, bs).rest;
    var b2 := Elements(tree.children[0], removed, [], b1).rest;
    var count, b3 := UInt(4, b2).value, UInt(4, b2).rest;
    UIntLocal(4, bs, t, ext);
    ElementsLocal(tree.children[0], removed, [], b1, t, ext);
    UIntLocal(4, b2, t, ext);
    ElementsLocal(tree.children[0], count, [], b3, t, ext);
  }

  lemma {:induction false} TagValueLocal(tree: TypeTree, size: nat, flags: nat, bs: Bytes, t: nat, ext: Bytes)
    requires TagValue(tree, size, flags, bs).Ok? && t <= |TagValue(tree, size, flags, bs).rest|
    ensures Same(TagValue(tree, size, flags, bs), TagValue(tree, size, flags, Swap(bs, t, ext)), t, ext)
    decreases |bs|, 5, 0
  {
    hide Swap, LeafAt, Take, StructAt, ArrayAt, MapAt, SetAt, KindOf, ShortName, FullPath, HasFlag;
    var k := KindOf(tree.name);
    if Leaf(k) {
      LeafLocal(k, |tree.children| > 0, bs, t, ext);
    } else if k.StructK? && !HasFlag(flags, HAS_BINARY_OR_NATIVE) {
      StructLocal(ShortName(tree), FullPath(tree), bs, t, ext);
    } else if k.ArrayK? {
      ArrayLocal(tree, bs, t, ext);
    } else if k.MapK? {
      MapLocal(tree, bs, t, ext);
    } else if k.SetK? {
      SetLocal(tree, bs, t, ext);
    } else if !k.BoolK? {
      TakeLocal(size, bs, t, ext);
    }
  }

  lemma OptionalGuidLocal(present: bool, bs: Bytes, t: nat, ext: Bytes)
    requires OptionalGuid(present, bs).Ok? && t <= |OptionalGuid(present, bs).rest|
    ensures Same(OptionalGuid(present, bs), OptionalGuid(present, Swap(bs, t, ext)), t, ext)
  {
    hide Swap, GuidAt;
    if present { GuidLocal(bs, t, ext); }
  }

  lemma {:induction false} TagBodyLocal(name: Bytes, bs: Bytes, t: nat, ext: Bytes)
    requires TagBody(name, bs).Ok? && t <= |TagBody(name, bs).rest|
    ensures Same(TagBody(name, bs), TagBody(name, Swap(bs, t, ext)), t, ext)
    decreases |bs|, 6, 0
  {
    hide Swap, Tree, UInt, OptionalU32, OptionalGuid, TagValue, HasFlag;
    var tree, b1 := Tree(0, bs).value, Tree(0, bs).rest;
    var size, b2 := UInt(4, b1).value, UInt(4, b1).rest;
    var flags, b3 := UInt(1, b2).value, UInt(1, b2).rest;
    var b4 := OptionalU32(HasFlag(flags, HAS_ARRAY_INDEX), b3).rest;
    var b5 := OptionalGuid(HasFlag(flags, HAS_PROPERTY_GUID), b4).rest;
    TreeLocal(0, bs, t, ext);
    UIntLocal(4, b1, t, ext);
    UIntLocal(1, b2, t, ext);
    OptionalU32Local(HasFlag(flags, HAS_ARRAY_INDEX), b3, t, ext);
    OptionalGuidLocal(HasFlag(flags, HAS_PROPERTY_GUID), b4, t, ext);
    TagValueLocal(tree, size, flags, b5, t, ext);
  }

  lemma {:induction false} PropertiesLocal(acc: seq<Property>, bs: Bytes, t: nat, ext: Bytes)
    requires Properties(acc, bs).Ok? && t <= |Properties(acc, bs).rest|
    ensures Same(Properties(acc, bs), Properties(acc, Swap(bs, t, ext)), t, ext)
    decreases |bs|, 0, 0
  {
    hide Swap, FString, TagBody, Ascii;
    var name, b1 := FString(bs).value, FString(bs).rest;
    FStringLocal(bs, t, ext);
    if name != Ascii("None") {
      TagBodyLocal(name, b1, t, ext);
      PropertiesLocal(acc + [TagBody(name, b1).value], TagBody(name, b1).rest, t, ext);
    }
  }

  /** The input of a successful parse is what was consumed followed by Extra, and the bytes after the
      consumed part never influence anything but Extra. */
  lemma ParseConsumesPrefix(bs: Bytes, ext: Bytes)
    requires Parse(bs).Ok?
    ensures var s := Parse(bs).value;
            && |s.extra| <= |bs|
            && bs == bs[..|bs| - |s.extra|] + s.extra
            && Parse(bs[..|bs| - |s.extra|] + ext) == Ok(s.(extra := ext), [])
  {
    hide Parse;
    ParseLocal(bs, ext);
    ParseLocal(bs, bs[|bs| - |Parse(bs).value.extra|..]);
    var n := |bs| - |Parse(bs).value.extra|;
    assert bs[..n] + bs[n..] == bs;
  }

  lemma ParseLocal(bs: Bytes, ext: Bytes)
    requires Parse(bs).Ok?
    ensures |Parse(bs).value.extra| <= |bs|
    ensures Parse(bs[..|bs| - |Parse(bs).value.extra|] + ext) == Ok(Parse(bs).value.(extra := ext), [])
  {
    hide Swap, HeaderAt, FString, Take, Properties;
    var t := |Parse(bs).value.extra|;
    var h, b1 := HeaderAt(bs).value, HeaderAt(bs).rest;
    var b2 := FString(b1).rest;
    var n := if HasReservedByte(h.engineMajor, h.engineMinor) then 1 else 0;
    var b3 := Take(n, b2).rest;
    TakeShrinks(n, b2);
    HeaderLocal(bs, t, ext);
    FStringLocal(b1, t, ext);
    TakeLocal(n, b2, t, ext);
    PropertiesLocal([], b3, t, ext);
    SwapAll(Properties([], b3).rest, ext);
    SwapIs(bs, t, ext);
  }

  lemma TakeShrinks(n: nat, bs: Bytes)
    ensures Take(n, bs).Ok? ==> |Take(n, bs).rest| <= |bs|
  {
  }

  lemma SwapAll(x: Bytes, ext: Bytes)
    ensures Swap(x, |x|, ext) == ext
  {
  }

  lemma SwapIs(x: Bytes, t: nat, ext: Bytes)
    requires t <= |x|
    ensures Swap(x, t, ext) == x[..|x| - t] + ext
  {
  }
}
