/** The parser as the program runs it: one reader object whose position advances, loops that append
    to slices, and mutually recursive methods. Each method does what its decoder function says and
    leaves the reader at the bytes that function leaves over. */
module GvasReader {
  import opened GvasDecode
  import opened GvasTypes
  import opened Options

  datatype Outcome<+T> = Value(v: T) | Fail(error: Error) {
    predicate IsFailure() { Fail? }
    function PropagateFailure<U>(): Outcome<U>
      requires Fail?
    {
      Fail(error)
    }
    function Extract(): T
      requires Value?
    {
      v
    }
  }

  /** The method's outcome `r`, with `rest` left to read, is what the decoder says. */
  ghost predicate Agrees<T>(d: Decoded<T>, r: Outcome<T>, rest: Bytes) {
    match r
    case Value(v) => d == Ok(v, rest)
    case Fail(e) => d == Err(e)
  }

  class Reader {
    const data: Bytes
    var pos: nat

    constructor (input: Bytes)
      ensures data == input && pos == 0
    {
      data, pos := input, 0;
    }

    ghost predicate Valid()
      reads this
    {
      pos <= |data|
    }

    ghost function Rest(): Bytes
      requires Valid()
      reads this
    {
      data[pos..]
    }

    /** Reads exactly `n` bytes; a short read consumes what is there. */
    method Read(n: nat) returns (r: Outcome<Bytes>)
      requires Valid()
      modifies this`pos
      ensures Valid() && Agrees(Take(n, old(Rest())), r, Rest())
    {
      if |data| - pos < n {
        pos := |data|;
        return Fail(ShortRead);
      }
      assert Rest()[..n] == data[pos..pos + n] && Rest()[n..] == data[pos + n..];
      r := Value(data[pos..pos + n]);
      pos := pos + n;
    }

    method ReadUInt(width: nat) returns (r: Outcome<nat>)
      requires Valid()
      modifies this`pos
      ensures Valid() && Agrees(UInt(width, old(Rest())), r, Rest())
    {
      hide FromLE;
      var b :- Read(width);
      return Value(FromLE(b));
    }

    method ReadI32() returns (r: Outcome<int>)
      requires Valid()
      modifies this`pos
      ensures Valid() && Agrees(I32(old(Rest())), r, Rest())
    {
      hide UInt;
      var u :- ReadUInt(4);
      return Value(ToI32(u));
    }

    method ReadI64() returns (r: Outcome<int>)
      requires Valid()
      modifies this`pos
      ensures Valid() && Agrees(I64(old(Rest())), r, Rest())
    {
      hide UInt;
      var u :- ReadUInt(8);
      return Value(ToI64(u));
    }

    method ReadFString() returns (r: Outcome<Bytes>)
      requires Valid()
      modifies this`pos
      ensures Valid() && Agrees(FString(old(Rest())), r, Rest())
    {
      hide I32, WideText;
      var length :- ReadI32();
      if length == 0 {
        return Value([]);
      }
      var absLen := length;
      if absLen < 0 {
        absLen := NegateI32(absLen);
      }
      if absLen > MAX_STRING_BYTES {
        return Fail(StringTooLong);
      }
      if length > 0 {
        var bytes :- Read(length);
        return Value(StripNul(bytes));
      }
      var charCount := NegateI32(length);
      if charCount < 0 {
        return Fail(Panic);
      }
      var raw :- Read(charCount * 2);
      return Value(WideText(raw));
    }

    method ReadGuid() returns (r: Outcome<Guid>)
      requires Valid()
      modifies this`pos
      ensures Valid() && Agrees(GuidAt(old(Rest())), r, Rest())
    {
      hide UInt, Take;
      var a :- ReadUInt(4);
      var b :- Read(4);
      var c :- Read(4);
      var d :- ReadUInt(4);
      return Value(Guid(a, b, c, d));
    }
  }

  method ReadHeader(rd: Reader) returns (r: Outcome<Header>)
    requires rd.Valid()
    modifies rd`pos
    ensures rd.Valid() && Agrees(HeaderAt(old(rd.Rest())), r, rd.Rest())
  {
    hide UInt, FString, CustomVersions;
    var magic :- rd.ReadUInt(4);
    if magic != MAGIC {
      return Fail(BadMagic);
    }
    var version :- rd.ReadUInt(4);
    var ue4 :- rd.ReadUInt(4);
    var ue5 := 0;
    if version >= 3 && version != 34 {
      ue5 :- rd.ReadUInt(4);
    }
    var major :- rd.ReadUInt(2);
    var minor :- rd.ReadUInt(2);
    var patch :- rd.ReadUInt(2);
    var build :- rd.ReadUInt(4);
    var engine :- rd.ReadFString();
    var cvFormat :- rd.ReadUInt(4);
    var cvCount :- rd.ReadUInt(4);
    var versions :- ReadCustomVersions(rd, cvCount);
    return Value(Header(magic, version, ue4, ue5, major, minor, patch, build, engine, versions));
  }

  method ReadCustomVersions(rd: Reader, count: nat) returns (r: Outcome<seq<CustomVersion>>)
    requires rd.Valid()
    modifies rd`pos
    ensures rd.Valid() && Agrees(CustomVersions(count, [], old(rd.Rest())), r, rd.Rest())
  {
    hide GuidAt, I32;
    var versions: seq<CustomVersion> := [];
    for i := 0 to count
      invariant rd.Valid()
      invariant CustomVersions(count - i, versions, rd.Rest()) == CustomVersions(count, [], old(rd.Rest()))
    {
      var g :- rd.ReadGuid();
      var v :- rd.ReadI32();
      versions := versions + [CustomVersion(g, v)];
    }
    return Value(versions);
  }

  method ReadTypeTree(rd: Reader, depth: nat) returns (r: Outcome<TypeTree>)
    requires rd.Valid()
    modifies rd`pos
    ensures rd.Valid() && Agrees(Tree(depth, old(rd.Rest())), r, rd.Rest())
    decreases |rd.Rest()|
  {
    hide FString, UInt;
    if depth > MAX_RECURSE_DEPTH {
      return Fail(TreeTooDeep);
    }
    var name :- rd.ReadFString();
    var count :- rd.ReadUInt(4);
    if count > MAX_ARRAY_COUNT {
      return Fail(CountTooLarge);
    }
    var children: seq<TypeTree> := [];
    ghost var start := rd.Rest();
    for i := 0 to count
      invariant rd.Valid() && |rd.Rest()| <= |start| < |old(rd.Rest())|
      invariant Trees(depth + 1, count - i, children, rd.Rest()) == Trees(depth + 1, count, [], start)
    {
      var child :- ReadTypeTree(rd, depth + 1);
      children := children + [child];
    }
    return Value(TypeTree(name, children));
  }

  /** Kinds read the same way in and out of a property tag. */
  method ReadLeaf(rd: Reader, k: Kind, nested: bool) returns (r: Outcome<Value>)
    requires rd.Valid() && Leaf(k)
    modifies rd`pos
    ensures rd.Valid() && Agrees(LeafAt(k, nested, old(rd.Rest())), r, rd.Rest())
  {
    hide FString, UInt, I32, I64;
    match k
    case IntK => var v :- rd.ReadI32(); return Value(IntValue(v));
    case UInt32K => var v :- rd.ReadUInt(4); return Value(UInt32Value(v));
    case Int64K => var v :- rd.ReadI64(); return Value(Int64Value(v));
    case UInt64K => var v :- rd.ReadUInt(8); return Value(UInt64Value(v));
    case FloatK => var v :- rd.ReadUInt(4); return Value(FloatValue(v));
    case DoubleK => var v :- rd.ReadUInt(8); return Value(Float64Value(v));
    case NameK => var v :- rd.ReadFString(); return Value(NameValue(v));
    case StrK => var v :- rd.ReadFString(); return Value(StrValue(v));
    case ObjectK => var v :- rd.ReadFString(); return Value(ObjectValue(v));
    case EnumK => var v :- rd.ReadFString(); return Value(EnumValue(v));
    case ByteK =>
      if nested {
        var v :- rd.ReadFString();
        return Value(ByteEnumValue(v));
      }
      var v :- rd.ReadUInt(1);
      return Value(ByteValue(v));
    case SoftObjectK =>
      var s1 :- rd.ReadFString();
      var s2 :- rd.ReadFString();
      var s3 :- rd.ReadFString();
      return Value(SoftObjectValue(s1, s2, s3));
  }

  method ReadTags(rd: Reader) returns (r: Outcome<Value>)
    requires rd.Valid()
    modifies rd`pos
    ensures rd.Valid() && Agrees(FixedStruct(TagsS, old(rd.Rest())), r, rd.Rest())
  {
    hide FString, UInt;
    var count :- rd.ReadUInt(4);
    var tags: seq<Bytes> := [];
    ghost var start := rd.Rest();
    for i := 0 to count
      invariant rd.Valid()
      invariant Strings(count - i, tags, rd.Rest()) == Strings(count, [], start)
    {
      var tag :- rd.ReadFString();
      tags := tags + [tag];
    }
    return Value(GameplayTagContainerValue(tags));
  }

  method ReadFixedStruct(rd: Reader, k: StructKind) returns (r: Outcome<Value>)
    requires rd.Valid() && !k.GenericS?
    modifies rd`pos
    ensures rd.Valid() && Agrees(FixedStruct(k, old(rd.Rest())), r, rd.Rest())
  {
    hide UInt, I32, GuidAt, Strings;
    match k
    case GuidS => var g :- rd.ReadGuid(); return Value(GuidValue(g));
    case DateTimeS => var v :- rd.ReadUInt(8); return Value(DateTimeValue(v));
    case VectorS =>
      var x :- rd.ReadUInt(8); var y :- rd.ReadUInt(8); var z :- rd.ReadUInt(8);
      return Value(VectorValue(x, y, z));
    case QuatS =>
      var x :- rd.ReadUInt(8); var y :- rd.ReadUInt(8); var z :- rd.ReadUInt(8); var w :- rd.ReadUInt(8);
      return Value(QuatValue(x, y, z, w));
    case RotatorS =>
      var p :- rd.ReadUInt(8); var y :- rd.ReadUInt(8); var roll :- rd.ReadUInt(8);
      return Value(RotatorValue(p, y, roll));
    case LinearColorS =>
      var red :- rd.ReadUInt(4); var g :- rd.ReadUInt(4); var b :- rd.ReadUInt(4); var a :- rd.ReadUInt(4);
      return Value(LinearColorValue(red, g, b, a));
    case TagsS => r := ReadTags(rd);
    case Vector2DS =>
      var x :- rd.ReadUInt(8); var y :- rd.ReadUInt(8);
      return Value(Vector2DValue(x, y));
    case IntPointS =>
      var x :- rd.ReadI32(); var y :- rd.ReadI32();
      return Value(IntPointValue(x, y));
  }

  method ReadStructValue(rd: Reader, shortName: Bytes, fullPath: Bytes) returns (r: Outcome<Value>)
    requires rd.Valid()
    modifies rd`pos
    ensures rd.Valid() && Agrees(StructAt(shortName, fullPath, old(rd.Rest())), r, rd.Rest())
    decreases |rd.Rest()|, 1
  {
    hide FixedStruct, StructKindOf;
    var k := StructKindOf(shortName);
    if !k.GenericS? {
      r := ReadFixedStruct(rd, k);
      return;
    }
    var props :- ReadProperties(rd);
    return Value(StructValue(fullPath, props));
  }

  method ReadValueByType(rd: Reader, tree: TypeTree) returns (r: Outcome<Value>)
    requires rd.Valid()
    modifies rd`pos
    ensures rd.Valid() && Agrees(ByType(tree, old(rd.Rest())), r, rd.Rest())
    decreases |rd.Rest()|, 2
  {
    hide LeafAt, UInt, StructAt, KindOf, ShortName, FullPath;
    var k := KindOf(tree.name);
    if Leaf(k) {
      r := ReadLeaf(rd, k, |tree.children| > 0);
      return;
    }
    if k.BoolK? {
      var b :- rd.ReadUInt(1);
      return Value(BoolValue(b != 0));
    }
    if k.StructK? {
      r := ReadStructValue(rd, ShortName(tree), FullPath(tree));
      return;
    }
    return Fail(UnsupportedType);
  }

  /** The loop shared by set elements, removed keys and array elements of other types. */
  method ReadElements(rd: Reader, tree: TypeTree, count: nat) returns (r: Outcome<seq<Value>>)
    requires rd.Valid()
    modifies rd`pos
    ensures rd.Valid() && Agrees(Elements(tree, count, [], old(rd.Rest())), r, rd.Rest())
    decreases |rd.Rest()|, 3
  {
    hide ByType;
    var elements: seq<Value> := [];
    for i := 0 to count
      invariant rd.Valid() && |rd.Rest()| <= |old(rd.Rest())|
      invariant Elements(tree, count - i, elements, rd.Rest()) == Elements(tree, count, [], old(rd.Rest()))
    {
      var v :- ReadValueByType(rd, tree);
      elements := elements + [v];
    }
    return Value(elements);
  }

  method ReadArrayProperty(rd: Reader, tree: TypeTree) returns (r: Outcome<Value>)
    requires rd.Valid()
    modifies rd`pos
    ensures rd.Valid() && Agrees(ArrayAt(tree, old(rd.Rest())), r, rd.Rest())
    decreases |rd.Rest()|, 4
  {
    hide UInt, LeafAt, StructAt, KindOf, ShortName, FullPath;
    if |tree.children| == 0 {
      return Fail(MissingElementType);
    }
    var elemTree := tree.children[0];
    var count :- rd.ReadUInt(4);
    if count > MAX_ARRAY_COUNT {
      return Fail(CountTooLarge);
    }
    var elements: seq<Value> := [];
    ghost var start := rd.Rest();
    var k := KindOf(elemTree.name);
    if k.StructK? {
      for i := 0 to count
        invariant rd.Valid() && |rd.Rest()| <= |start|
        invariant Elements(elemTree, count - i, elements, rd.Rest()) == Elements(elemTree, count, [], start)
      {
        var v :- ReadStructValue(rd, ShortName(elemTree), FullPath(elemTree));
        elements := elements + [v];
      }
    } else if k.ByteK? {
      for i := 0 to count
        invariant rd.Valid() && |rd.Rest()| <= |start|
        invariant Elements(elemTree, count - i, elements, rd.Rest()) == Elements(elemTree, count, [], start)
      {
        var v :- ReadLeaf(rd, ByteK, |elemTree.children| > 0);
        elements := elements + [v];
      }
    } else {
      elements :- ReadElements(rd, elemTree, count);
    }
    return Value(ArrayValue(elements));
  }

  method ReadMapProperty(rd: Reader, tree: TypeTree) returns (r: Outcome<Value>)
    requires rd.Valid()
    modifies rd`pos
    ensures rd.Valid() && Agrees(MapAt(tree, old(rd.Rest())), r, rd.Rest())
    decreases |rd.Rest()|, 4
  {
    hide UInt, ByType, Elements;
    if |tree.children| < 2 {
      return Fail(MissingElementType);
    }
    var keyTree, valTree := tree.children[0], tree.children[1];
    var keysToRemove :- rd.ReadUInt(4);
    var skipped :- ReadElements(rd, keyTree, keysToRemove);
    var entryCount :- rd.ReadUInt(4);
    if entryCount > MAX_ARRAY_COUNT {
      return Fail(CountTooLarge);
    }
    var entries: seq<MapEntry> := [];
    ghost var start := rd.Rest();
    for i := 0 to entryCount
      invariant rd.Valid() && |rd.Rest()| <= |start|
      invariant Entries(keyTree, valTree, entryCount - i, entries, rd.Rest())
          == Entries(keyTree, valTree, entryCount, [], start)
    {
      var k :- ReadValueByType(rd, keyTree);
      var v :- ReadValueByType(rd, valTree);
      entries := entries + [MapEntry(k, v)];
    }
    return Value(MapValue(entries));
  }

  method ReadSetProperty(rd: Reader, tree: TypeTree) returns (r: Outcome<Value>)
    requires rd.Valid()
    modifies rd`pos
    ensures rd.Valid() && Agrees(SetAt(tree, old(rd.Rest())), r, rd.Rest())
    decreases |rd.Rest()|, 4
  {
    hide UInt, Elements;
    if |tree.children| == 0 {
      return Fail(MissingElementType);
    }
    var elemTree := tree.children[0];
    var keysToRemove :- rd.ReadUInt(4);
    var skipped :- ReadElements(rd, elemTree, keysToRemove);
    var count :- rd.ReadUInt(4);
    if count > MAX_ARRAY_COUNT {
      return Fail(CountTooLarge);
    }
    var elements :- ReadElements(rd, elemTree, count);
    return Value(ArrayValue(elements));
  }

  method ReadPropertyValue(rd: Reader, tree: TypeTree, size: nat, flags: nat) returns (r: Outcome<Value>)
    requires rd.Valid()
    modifies rd`pos
    ensures rd.Valid() && Agrees(TagValue(tree, size, flags, old(rd.Rest())), r, rd.Rest())
    decreases |rd.Rest()|, 5
  {
    hide LeafAt, Take, StructAt, ArrayAt, MapAt, SetAt, KindOf, ShortName, FullPath, HasFlag;
    var k := KindOf(tree.name);
    if Leaf(k) {
      r := ReadLeaf(rd, k, |tree.children| > 0);
    } else if k.BoolK? {
      r := Value(BoolValue(HasFlag(flags, BOOL_TRUE)));
    } else if k.TextK? {
      var text :- rd.Read(size);
      r := Value(TextValue(text));
    } else if k.StructK? {
      if HasFlag(flags, HAS_BINARY_OR_NATIVE) {
        var bytes :- rd.Read(size);
        return Value(RawStructValue(FullPath(tree), bytes));
      }
      r := ReadStructValue(rd, ShortName(tree), FullPath(tree));
    } else if k.ArrayK? {
      r := ReadArrayProperty(rd, tree);
    } else if k.MapK? {
      r := ReadMapProperty(rd, tree);
    } else if k.SetK? {
      r := ReadSetProperty(rd, tree);
    } else {
      var bytes :- rd.Read(size);
      r := Value(RawValue(tree.name, bytes));
    }
  }

  /** Everything of a property after its name. */
  method ReadTagBody(rd: Reader, name: Bytes) returns (r: Outcome<Property>)
    requires rd.Valid()
    modifies rd`pos
    ensures rd.Valid() && Agrees(TagBody(name, old(rd.Rest())), r, rd.Rest())
    decreases |rd.Rest()|, 6
  {
    hide Tree, UInt, GuidAt, TagValue, HasFlag;
    var tree :- ReadTypeTree(rd, 0);
    var size :- rd.ReadUInt(4);
    var flags :- rd.ReadUInt(1);
    var arrayIndex := 0;
    if HasFlag(flags, HAS_ARRAY_INDEX) {
      arrayIndex :- rd.ReadUInt(4);
    }
    var guid: Option<Guid> := None;
    if HasFlag(flags, HAS_PROPERTY_GUID) {
      var g :- rd.ReadGuid();
      guid := Some(g);
    }
    var value :- ReadPropertyValue(rd, tree, size, flags);
    return Value(Property(name, tree, arrayIndex, guid, value));
  }

  method ReadProperties(rd: Reader) returns (r: Outcome<seq<Property>>)
    requires rd.Valid()
    modifies rd`pos
    ensures rd.Valid() && Agrees(Properties([], old(rd.Rest())), r, rd.Rest())
    decreases |rd.Rest()|, 0
  {
    hide FString, TagBody, Ascii;
    var props: seq<Property> := [];
    while true
      invariant rd.Valid() && |rd.Rest()| <= |old(rd.Rest())|
      invariant Properties(props, rd.Rest()) == Properties([], old(rd.Rest()))
      decreases |rd.Rest()|
    {
      var name :- rd.ReadFString();
      if name == Ascii("None") {
        return Value(props);
      }
      var prop :- ReadTagBody(rd, name);
      props := props + [prop];
    }
  }

  /** Parsing a byte string: the result is the decoder's, and it always terminates. */
  method ParseBytes(input: Bytes) returns (r: Outcome<Save>)
    ensures Agrees(Parse(input), r, [])
  {
    hide HeaderAt, FString, Properties, UInt, FromLE;
    var rd := new Reader(input);
    assert rd.Rest() == input;
    var header :- ReadHeader(rd);
    var gameType :- rd.ReadFString();
    if HasReservedByte(header.engineMajor, header.engineMinor) {
      var reserved :- rd.Read(1);
    }
    var props :- ReadProperties(rd);
    var extra := rd.data[rd.pos..];
    return Value(Save(header, gameType, props, extra));
  }
}
