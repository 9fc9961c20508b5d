/** The values a GVAS save file is parsed into. Text is kept as the bytes of the Go string; floats are
    kept as their raw bit patterns. Integers carry their width in the well-formedness predicates. */
module GvasTypes {
  import opened Options

  type Byte = x: int | 0 <= x < 256
  type Bytes = seq<Byte>

  datatype Guid = Guid(a: nat, b: Bytes, c: Bytes, d: nat)

  datatype CustomVersion = CustomVersion(guid: Guid, value: int)

  datatype Header = Header(
    magic: nat, saveGameVersion: nat, packageVersionUE4: nat, packageVersionUE5: nat,
    engineMajor: nat, engineMinor: nat, enginePatch: nat, engineBuild: nat, engineStr: Bytes,
    customVersions: seq<CustomVersion>)

  datatype TypeTree = TypeTree(name: Bytes, children: seq<TypeTree>)

  datatype Value =
    | IntValue(i32: int)
    | Int64Value(i64: int)
    | UInt32Value(u32: nat)
    | UInt64Value(u64: nat)
    | FloatValue(f32: nat)
    | Float64Value(f64: nat)
    | BoolValue(b: bool)
    | StrValue(str: Bytes)
    | NameValue(name: Bytes)
    | ObjectValue(objectPath: Bytes)
    | EnumValue(enumName: Bytes)
    | ByteEnumValue(byteEnum: Bytes)
    | ByteValue(u8: nat)
    | SoftObjectValue(assetPath: Bytes, package: Bytes, assetName: Bytes)
    | StructValue(structType: Bytes, properties: seq<Property>)
    | GuidValue(guid: Guid)
    | DateTimeValue(ticks: nat)
    | VectorValue(vx: nat, vy: nat, vz: nat)
    | QuatValue(qx: nat, qy: nat, qz: nat, qw: nat)
    | RotatorValue(pitch: nat, yaw: nat, roll: nat)
    | LinearColorValue(red: nat, green: nat, blue: nat, alpha: nat)
    | GameplayTagContainerValue(tags: seq<Bytes>)
    | Vector2DValue(px: nat, py: nat)
    | IntPointValue(ix: int, iy: int)
    | RawStructValue(rawType: Bytes, rawData: Bytes)
    | ArrayValue(elements: seq<Value>)
    | MapValue(entries: seq<MapEntry>)
    | RawValue(typeName: Bytes, data: Bytes)
    | TextValue(text: Bytes)

  datatype MapEntry = MapEntry(key: Value, val: Value)

  datatype Property = Property(name: Bytes, tree: TypeTree, arrayIndex: nat, guid: Option<Guid>, value: Value)

  datatype Save = Save(header: Header, saveGameType: Bytes, properties: seq<Property>, extra: Bytes)

  const MAGIC := 0x53415647
  const MAX_STRING_BYTES := 10485760
  const MAX_ARRAY_COUNT := 1000000
  const MAX_RECURSE_DEPTH := 64

  /** `Panic` stands for the run-time failure of allocating a negative length. */
  datatype Error =
    | ShortRead | BadMagic | StringTooLong | TreeTooDeep | CountTooLarge
    | MissingElementType | UnsupportedType | Panic

  function Ascii(s: string): Bytes {
    seq(|s|, i requires 0 <= i < |s| => (s[i] as int) % 256)
  }

  // ---------------------------------------------------------------- classification by name

  datatype Kind =
    | IntK | UInt32K | Int64K | UInt64K | FloatK | DoubleK | NameK | StrK | ObjectK | EnumK
    | ByteK | SoftObjectK | BoolK | TextK | StructK | ArrayK | MapK | SetK | OtherK

  function KindOf(name: Bytes): Kind {
    if name == Ascii("IntProperty") then IntK
    else if name == Ascii("UInt32Property") then UInt32K
    else if name == Ascii("Int64Property") then Int64K
    else if name == Ascii("UInt64Property") then UInt64K
    else if name == Ascii("FloatProperty") then FloatK
    else if name == Ascii("DoubleProperty") then DoubleK
    else if name == Ascii("BoolProperty") then BoolK
    else if name == Ascii("NameProperty") then NameK
    else if name == Ascii("StrProperty") then StrK
    else if name == Ascii("ObjectProperty") then ObjectK
    else if name == Ascii("EnumProperty") then EnumK
    else if name == Ascii("ByteProperty") then ByteK
    else if name == Ascii("SoftObjectProperty") then SoftObjectK
    else if name == Ascii("TextProperty") then TextK
    else if name == Ascii("StructProperty") then StructK
    else if name == Ascii("ArrayProperty") then ArrayK
    else if name == Ascii("MapProperty") then MapK
    else if name == Ascii("SetProperty") then SetK
    else OtherK
  }

  datatype StructKind =
    | GuidS | DateTimeS | VectorS | QuatS | RotatorS | LinearColorS | TagsS | Vector2DS | IntPointS | GenericS

  function StructKindOf(name: Bytes): StructKind {
    if name == Ascii("Guid") then GuidS
    else if name == Ascii("DateTime") then DateTimeS
    else if name == Ascii("Vector") then VectorS
    else if name == Ascii("Quat") then QuatS
    else if name == Ascii("Rotator") then RotatorS
    else if name == Ascii("LinearColor") then LinearColorS
    else if name == Ascii("GameplayTagContainer") then TagsS
    else if name == Ascii("Vector2D") then Vector2DS
    else if name == Ascii("IntPoint") then IntPointS
    else GenericS
  }

  function ShortName(tree: TypeTree): Bytes {
    if |tree.children| == 0 then [] else tree.children[0].name
  }

  function FullPath(tree: TypeTree): Bytes {
    if |tree.children| == 0 then []
    else
      var node := tree.children[0];
      if |node.children| > 0 then node.children[0].name + Ascii(".") + node.name else node.name
  }

  /** Kinds read the same way inside a property tag and outside of one. */
  predicate Leaf(k: Kind) {
    k.IntK? || k.UInt32K? || k.Int64K? || k.UInt64K? || k.FloatK? || k.DoubleK? || k.NameK? || k.StrK?
    || k.ObjectK? || k.EnumK? || k.ByteK? || k.SoftObjectK?
  }

  // ---------------------------------------------------------------- property tag flags

  const HAS_ARRAY_INDEX := 1
  const HAS_PROPERTY_GUID := 2
  const BOOL_TRUE := 4
  const HAS_BINARY_OR_NATIVE := 16

  predicate HasFlag(flags: nat, flag: nat)
    requires flag > 0
  {
    (flags / flag) % 2 == 1
  }

  // ---------------------------------------------------------------- signed integers

  const TWO31 := 0x8000_0000
  const TWO32 := 0x1_0000_0000
  const TWO63 := 0x8000_0000_0000_0000
  const TWO64 := 0x1_0000_0000_0000_0000

  function ToI32(u: nat): int {
    if u >= TWO31 then u - TWO32 else u
  }

  function FromI32(i: int): nat {
    i % TWO32
  }

  function ToI64(u: nat): int {
    if u >= TWO63 then u - TWO64 else u
  }

  function FromI64(i: int): nat {
    i % TWO64
  }

  /** 32-bit negation: the least value is its own negation. */
  function NegateI32(i: int): int {
    if i == -TWO31 then i else -i
  }
}
