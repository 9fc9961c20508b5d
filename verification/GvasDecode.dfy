/** The decoder as functions from the remaining bytes to a value and the bytes left over. */
module GvasDecode {
  import opened GvasTypes
  import opened Options

  datatype Decoded<+T> = Ok(value: T, rest: Bytes) | Err(error: Error) {
    predicate IsFailure() { Err? }
    function PropagateFailure<U>(): Decoded<U>
      requires Err?
    {
      Err(error)
    }
    function Extract(): (T, Bytes)
      requires Ok?
    {
      (value, rest)
    }
  }

  // ---------------------------------------------------------------- primitive reads

  function Pow256(n: nat): nat {
    if n == 0 then 1 else 256 * Pow256(n - 1)
  }

  /** Little-endian value of a byte string. */
  function FromLE(bs: Bytes): (v: nat)
    ensures v < Pow256(|bs|)
  {
    if bs == [] then 0 else bs[0] + 256 * FromLE(bs[1..])
  }

  function Take(n: nat, bs: Bytes): Decoded<Bytes> {
    if |bs| < n then Err(ShortRead) else Ok(bs[..n], bs[n..])
  }

  function UInt(n: nat, bs: Bytes): (r: Decoded<nat>)
    ensures r.Ok? ==> r.value < Pow256(n) && |r.rest| + n == |bs|
  {
    var (b, rest) :- Take(n, bs);
    Ok(FromLE(b), rest)
  }

  function I32(bs: Bytes): (r: Decoded<int>)
    ensures r.Ok? ==> |r.rest| + 4 == |bs|
  {
    var (u, rest) :- UInt(4, bs);
    Ok(ToI32(u), rest)
  }

  function I64(bs: Bytes): (r: Decoded<int>)
    ensures r.Ok? ==> |r.rest| + 8 == |bs|
  {
    var (u, rest) :- UInt(8, bs);
    Ok(ToI64(u), rest)
  }

  // ---------------------------------------------------------------- strings

  function StripNul(data: Bytes): Bytes {
    if |data| > 0 && data[|data| - 1] == 0 then data[..|data| - 1] else data
  }

  function Unit(lo: Byte, hi: Byte): nat {
    lo + 256 * hi
  }

  function Units(raw: Bytes): seq<nat>
    requires |raw| % 2 == 0
  {
    if raw == [] then [] else [Unit(raw[0], raw[1])] + Units(raw[2..])
  }

  function StripNulUnit(us: seq<nat>): seq<nat> {
    if |us| > 0 && us[|us| - 1] == 0 then us[..|us| - 1] else us
  }

  const REPLACEMENT := 0xFFFD

  /** UTF-16 code units to code points, RFC 2781 section 2.2; a unit with no partner becomes U+FFFD. */
  function Utf16Decode(us: seq<nat>): seq<nat> {
    if us == [] then []
    else if us[0] < 0xD800 || 0xE000 <= us[0] then [us[0]] + Utf16Decode(us[1..])
    else if us[0] < 0xDC00 && |us| > 1 && 0xDC00 <= us[1] < 0xE000 then
      [(us[0] - 0xD800) * 0x400 + (us[1] - 0xDC00) + 0x10000] + Utf16Decode(us[2..])
    else [REPLACEMENT] + Utf16Decode(us[1..])
  }

  function Utf8Rune(c: nat): Bytes {
    if c < 0x80 then [c]
    else if c < 0x800 then [0xC0 + c / 0x40, 0x80 + c % 0x40]
    else if c < 0x10000 then [0xE0 + c / 0x1000, 0x80 + c / 0x40 % 0x40, 0x80 + c % 0x40]
    else [0xF0 + c / 0x40000 % 8, 0x80 + c / 0x1000 % 0x40, 0x80 + c / 0x40 % 0x40, 0x80 + c % 0x40]
  }

  function Utf8Encode(cs: seq<nat>): Bytes {
    if cs == [] then [] else Utf8Rune(cs[0]) + Utf8Encode(cs[1..])
  }

  function WideText(raw: Bytes): Bytes
    requires |raw| % 2 == 0
  {
    Utf8Encode(Utf16Decode(StripNulUnit(Units(raw))))
  }

  /** An FString: signed length, then bytes, or UTF-16 units when the length is negative. */
  function FString(bs: Bytes): (r: Decoded<Bytes>)
    ensures r.Ok? ==> |r.rest| + 4 <= |bs|
  {
    var (length, b1) :- I32(bs);
    if length == 0 then Ok([], b1)
    else
      var absLen := if length < 0 then NegateI32(length) else length;
      if absLen > MAX_STRING_BYTES then Err(StringTooLong)
      else if length > 0 then
        var (data, b2) :- Take(length, b1);
        Ok(StripNul(data), b2)
      else
        var charCount := NegateI32(length);
        if charCount < 0 then Err(Panic)
        else
          var (raw, b2) :- Take(charCount * 2, b1);
          Ok(WideText(raw), b2)
  }

  function Strings(n: nat, acc: seq<Bytes>, bs: Bytes): (r: Decoded<seq<Bytes>>)
    ensures r.Ok? ==> |r.rest| <= |bs|
    decreases n
  {
    if n == 0 then Ok(acc, bs)
    else
      var (s, b1) :- FString(bs);
      Strings(n - 1, acc + [s], b1)
  }

  function GuidAt(bs: Bytes): (r: Decoded<Guid>)
    ensures r.Ok? ==> |r.rest| <= |bs|
  {
    var (a, b1) :- UInt(4, bs);
    var (b, b2) :- Take(4, b1);
    var (c, b3) :- Take(4, b2);
    var (d, b4) :- UInt(4, b3);
    Ok(Guid(a, b, c, d), b4)
  }

  // ---------------------------------------------------------------- header

  function CustomVersions(n: nat, acc: seq<CustomVersion>, bs: Bytes): (r: Decoded<seq<CustomVersion>>)
    ensures r.Ok? ==> |r.rest| <= |bs|
    decreases n
  {
    if n == 0 then Ok(acc, bs)
    else
      var (g, b1) :- GuidAt(bs);
      var (v, b2) :- I32(b1);
      CustomVersions(n - 1, acc + [CustomVersion(g, v)], b2)
  }

  predicate HasUE5Version(saveGameVersion: nat) {
    saveGameVersion >= 3 && saveGameVersion != 34
  }

  function OptionalU32(present: bool, bs: Bytes): (r: Decoded<nat>)
    ensures r.Ok? ==> |r.rest| <= |bs|
  {
    if present then UInt(4, bs) else Ok(0, bs)
  }

  function HeaderAt(bs: Bytes): (r: Decoded<Header>)
    ensures r.Ok? ==> |r.rest| <= |bs|
  {
    var (magic, b1) :- UInt(4, bs);
    if magic != MAGIC then Err(BadMagic)
    else
      var (version, b2) :- UInt(4, b1);
      var (ue4, b3) :- UInt(4, b2);
      var (ue5, b4) :- OptionalU32(HasUE5Version(version), b3);
      var (major, b5) :- UInt(2, b4);
      var (minor, b6) :- UInt(2, b5);
      var (patch, b7) :- UInt(2, b6);
      var (build, b8) :- UInt(4, b7);
      var (engine, b9) :- FString(b8);
      var (cvFormat, b10) :- UInt(4, b9);
      var (cvCount, b11) :- UInt(4, b10);
      var (versions, b12) :- CustomVersions(cvCount, [], b11);
      Ok(Header(magic, version, ue4, ue5, major, minor, patch, build, engine, versions), b12)
  }

  // ---------------------------------------------------------------- type trees

  function Tree(depth: nat, bs: Bytes): (r: Decoded<TypeTree>)
    ensures r.Ok? ==> |r.rest| <= |bs|
    decreases |bs|, 0, 0
  {
    if depth > MAX_RECURSE_DEPTH then Err(TreeTooDeep)
    else
      var (name, b1) :- FString(bs);
      var (count, b2) :- UInt(4, b1);
      if count > MAX_ARRAY_COUNT then Err(CountTooLarge)
      else
        var (children, b3) :- Trees(depth + 1, count, [], b2);
        Ok(TypeTree(name, children), b3)
  }

  function Trees(depth: nat, n: nat, acc: seq<TypeTree>, bs: Bytes): (r: Decoded<seq<TypeTree>>)
    ensures r.Ok? ==> |r.rest| <= |bs|
    decreases |bs|, 1, n
  {
    if n == 0 then Ok(acc, bs)
    else
      var (t, b1) :- Tree(depth, bs);
      Trees(depth, n - 1, acc + [t], b1)
  }

  // ---------------------------------------------------------------- values

  function LeafAt(k: Kind, nested: bool, bs: Bytes): (r: Decoded<Value>)
    requires Leaf(k)
    ensures r.Ok? ==> |r.rest| <= |bs|
  {
    match k
    case IntK => var (v, b1) :- I32(bs); Ok(IntValue(v), b1)
    case UInt32K => var (v, b1) :- UInt(4, bs); Ok(UInt32Value(v), b1)
    case Int64K => var (v, b1) :- I64(bs); Ok(Int64Value(v), b1)
    case UInt64K => var (v, b1) :- UInt(8, bs); Ok(UInt64Value(v), b1)
    case FloatK => var (v, b1) :- UInt(4, bs); Ok(FloatValue(v), b1)
    case DoubleK => var (v, b1) :- UInt(8, bs); Ok(Float64Value(v), b1)
    case NameK => var (v, b1) :- FString(bs); Ok(NameValue(v), b1)
    case StrK => var (v, b1) :- FString(bs); Ok(StrValue(v), b1)
    case ObjectK => var (v, b1) :- FString(bs); Ok(ObjectValue(v), b1)
    case EnumK => var (v, b1) :- FString(bs); Ok(EnumValue(v), b1)
    case ByteK =>
      if nested then var (v, b1) :- FString(bs); Ok(ByteEnumValue(v), b1)
      else var (v, b1) :- UInt(1, bs); Ok(ByteValue(v), b1)
    case SoftObjectK =>
      var (s1, b1) :- FString(bs);
      var (s2, b2) :- FString(b1);
      var (s3, b3) :- FString(b2);
      Ok(SoftObjectValue(s1, s2, s3), b3)
  }

  /** Struct types with a fixed layout. */
  function FixedStruct(k: StructKind, bs: Bytes): (r: Decoded<Value>)
    requires !k.GenericS?
    ensures r.Ok? ==> |r.rest| <= |bs|
  {
    match k
    case GuidS => var (g, b1) :- GuidAt(bs); Ok(GuidValue(g), b1)
    case DateTimeS => var (v, b1) :- UInt(8, bs); Ok(DateTimeValue(v), b1)
    case VectorS =>
      var (x, b1) :- UInt(8, bs); var (y, b2) :- UInt(8, b1); var (z, b3) :- UInt(8, b2);
      Ok(VectorValue(x, y, z), b3)
    case QuatS =>
      var (x, b1) :- UInt(8, bs); var (y, b2) :- UInt(8, b1); var (z, b3) :- UInt(8, b2); var (w, b4) :- UInt(8, b3);
      Ok(QuatValue(x, y, z, w), b4)
    case RotatorS =>
      var (p, b1) :- UInt(8, bs); var (y, b2) :- UInt(8, b1); var (r, b3) :- UInt(8, b2);
      Ok(RotatorValue(p, y, r), b3)
    case LinearColorS =>
      var (r, b1) :- UInt(4, bs); var (g, b2) :- UInt(4, b1); var (b, b3) :- UInt(4, b2); var (a, b4) :- UInt(4, b3);
      Ok(LinearColorValue(r, g, b, a), b4)
    case TagsS =>
      var (count, b1) :- UInt(4, bs);
      var (tags, b2) :- Strings(count, [], b1);
      Ok(GameplayTagContainerValue(tags), b2)
    case Vector2DS =>
      var (x, b1) :- UInt(8, bs); var (y, b2) :- UInt(8, b1);
      Ok(Vector2DValue(x, y), b2)
    case IntPointS =>
      var (x, b1) :- I32(bs); var (y, b2) :- I32(b1);
      Ok(IntPointValue(x, y), b2)
  }

  function StructAt(shortName: Bytes, fullPath: Bytes, bs: Bytes): (r: Decoded<Value>)
    ensures r.Ok? ==> |r.rest| <= |bs|
    decreases |bs|, 1, 0
  {
    var k := StructKindOf(shortName);
    if !k.GenericS? then FixedStruct(k, bs)
    else
      var (props, b1) :- Properties([], bs);
      Ok(StructValue(fullPath, props), b1)
  }

  /** A value outside a property tag: array, set and map members. */
  function ByType(tree: TypeTree, bs: Bytes): (r: Decoded<Value>)
    ensures r.Ok? ==> |r.rest| <= |bs|
    decreases |bs|, 2, 0
  {
    var k := KindOf(tree.name);
    if Leaf(k) then LeafAt(k, |tree.children| > 0, bs)
    else if k.BoolK? then var (b, b1) :- UInt(1, bs); Ok(BoolValue(b != 0), b1)
    else if k.StructK? then StructAt(ShortName(tree), FullPath(tree), bs)
    else Err(UnsupportedType)
  }

  function Elements(tree: TypeTree, n: nat, acc: seq<Value>, bs: Bytes): (r: Decoded<seq<Value>>)
    ensures r.Ok? ==> |r.rest| <= |bs|
    decreases |bs|, 3, n
  {
    if n == 0 then Ok(acc, bs)
    else
      var (v, b1) :- ByType(tree, bs);
      Elements(tree, n - 1, acc + [v], b1)
  }

  function Entries(keyTree: TypeTree, valTree: TypeTree, n: nat, acc: seq<MapEntry>,
      bs: Bytes): (r: Decoded<seq<MapEntry>>)
    ensures r.Ok? ==> |r.rest| <= |bs|
    decreases |bs|, 3, n
  {
    if n == 0 then Ok(acc, bs)
    else
      var (k, b1) :- ByType(keyTree, bs);
      var (v, b2) :- ByType(valTree, b1);
      Entries(keyTree, valTree, n - 1, acc + [MapEntry(k, v)], b2)
  }

  function ArrayAt(tree: TypeTree, bs: Bytes): (r: Decoded<Value>)
    ensures r.Ok? ==> |r.rest| <= |bs|
    decreases |bs|, 4, 0
  {
    if |tree.children| == 0 then Err(MissingElementType)
    else
      var (count, b1) :- UInt(4, bs);
      if count > MAX_ARRAY_COUNT then Err(CountTooLarge)
      else
        var (vs, b2) :- Elements(tree.children[0], count, [], b1);
        Ok(ArrayValue(vs), b2)
  }

  function MapAt(tree: TypeTree, bs: Bytes): (r: Decoded<Value>)
    ensures r.Ok? ==> |r.rest| <= |bs|
    decreases |bs|, 4, 0
  {
    if |tree.children| < 2 then Err(MissingElementType)
    else
      var (removed, b1) :- UInt(4, bs);
      var (_, b2) :- Elements(tree.children[0], removed, [], b1);
      var (count, b3) :- UInt(4, b2);
      if count > MAX_ARRAY_COUNT then Err(CountTooLarge)
      else
        var (es, b4) :- Entries(tree.children[0], tree.children[1], count, [], b3);
        Ok(MapValue(es), b4)
  }

  function SetAt(tree: TypeTree, bs: Bytes): (r: Decoded<Value>)
    ensures r.Ok? ==> |r.rest| <= |bs|
    decreases |bs|, 4, 0
  {
    if |tree.children| == 0 then Err(MissingElementType)
    else
      var (removed, b1) :- UInt(4, bs);
      var (_, b2) :- Elements(tree.children[0], removed, [], b1);
      var (count, b3) :- UInt(4, b2);
      if count > MAX_ARRAY_COUNT then Err(CountTooLarge)
      else
        var (vs, b4) :- Elements(tree.children[0], count, [], b3);
        Ok(ArrayValue(vs), b4)
  }

  /** The value of a property tag. */
  function TagValue(tree: TypeTree, size: nat, flags: nat, bs: Bytes): (r: Decoded<Value>)
    ensures r.Ok? ==> |r.rest| <= |bs|
    decreases |bs|, 5, 0
  {
    var k := KindOf(tree.name);
    if Leaf(k) then LeafAt(k, |tree.children| > 0, bs)
    else if k.BoolK? then Ok(BoolValue(HasFlag(flags, BOOL_TRUE)), bs)
    else if k.TextK? then var (data, b1) :- Take(size, bs); Ok(TextValue(data), b1)
    else if k.StructK? then
      if HasFlag(flags, HAS_BINARY_OR_NATIVE) then
        var (data, b1) :- Take(size, bs);
        Ok(RawStructValue(FullPath(tree), data), b1)
      else StructAt(ShortName(tree), FullPath(tree), bs)
    else if k.ArrayK? then ArrayAt(tree, bs)
    else if k.MapK? then MapAt(tree, bs)
    else if k.SetK? then SetAt(tree, bs)
    else var (data, b1) :- Take(size, bs); Ok(RawValue(tree.name, data), b1)
  }

  function OptionalGuid(present: bool, bs: Bytes): (r: Decoded<Option<Guid>>)
    ensures r.Ok? ==> |r.rest| <= |bs|
  {
    if present then var (g, b1) :- GuidAt(bs); Ok(Some(g), b1) else Ok(None, bs)
  }

  /** The part of a property tag after its name. */
  function TagBody(name: Bytes, bs: Bytes): (r: Decoded<Property>)
    ensures r.Ok? ==> |r.rest| <= |bs|
    decreases |bs|, 6, 0
  {
    var (tree, b1) :- Tree(0, bs);
    var (size, b2) :- UInt(4, b1);
    var (flags, b3) :- UInt(1, b2);
    var (index, b4) :- OptionalU32(HasFlag(flags, HAS_ARRAY_INDEX), b3);
    var (guid, b5) :- OptionalGuid(HasFlag(flags, HAS_PROPERTY_GUID), b4);
    var (value, b6) :- TagValue(tree, size, flags, b5);
    Ok(Property(name, tree, index, guid, value), b6)
  }

  /** A property list up to and including the name that ends it. */
  function Properties(acc: seq<Property>, bs: Bytes): (r: Decoded<seq<Property>>)
    ensures r.Ok? ==> |r.rest| <= |bs|
    decreases |bs|, 0, 0
  {
    var (name, b1) :- FString(bs);
    if name == Ascii("None") then Ok(acc, b1)
    else
      var (p, b2) :- TagBody(name, b1);
      Properties(acc + [p], b2)
  }

  predicate HasReservedByte(major: nat, minor: nat) {
    major > 5 || (major == 5 && minor >= 4)
  }

  function Parse(bs: Bytes): Decoded<Save> {
    var (header, b1) :- HeaderAt(bs);
    var (gameType, b2) :- FString(b1);
    var (_, b3) :- Take(if HasReservedByte(header.engineMajor, header.engineMinor) then 1 else 0, b2);
    var (props, b4) :- Properties([], b3);
    Ok(Save(header, gameType, props, b4), [])
  }
}
