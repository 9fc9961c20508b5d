/** Which values a save may hold, and how each is laid out in bytes. Every encoder takes the bytes
    that follow, so that an encoding is read off from left to right. */
module GvasEncode {
  import opened GvasDecode
  import opened GvasTypes
  import opened Options

  // ---------------------------------------------------------------- well-formedness

  // The limits of the format, which those of the decoder are held against.
  const TEXT_LIMIT := 10_485_760
  const LIST_LIMIT := 1_000_000
  const DEPTH_LIMIT := 64

  predicate U8Ok(n: nat) { n < 256 }
  predicate U16Ok(n: nat) { n < 0x1_0000 }
  predicate U32Ok(n: nat) { n < 0x1_0000_0000 }
  predicate U64Ok(n: nat) { n < 0x1_0000_0000_0000_0000 }
  predicate I32Ok(i: int) { -TWO31 <= i < TWO31 }
  predicate I64Ok(i: int) { -TWO63 <= i < TWO63 }

  // ---------------------------------------------------------------- texts

  /** A Unicode scalar value: a code point that is not a surrogate. */
  predicate Scalar(c: nat) {
    c < 0xD800 || 0xE000 <= c < 0x11_0000
  }

  predicate Scalars(cs: seq<nat>) {
    forall i | 0 <= i < |cs| :: Scalar(cs[i])
  }

  /** RFC 2781 section 2.1. */
  function Utf16Rune(c: nat): seq<nat> {
    if c < 0x1_0000 then [c]
    else [0xD800 + (c - 0x1_0000) / 0x400, 0xDC00 + (c - 0x1_0000) % 0x400]
  }

  function Utf16Encode(cs: seq<nat>): seq<nat> {
    if cs == [] then [] else Utf16Rune(cs[0]) + Utf16Encode(cs[1..])
  }

  /** A list that fits in a text field: the terminating zero may be left out, but only where it would not
      be missed. */
  predicate Fits(xs: seq<nat>) {
    |xs| < TEXT_LIMIT || (|xs| == TEXT_LIMIT && xs[|xs| - 1] != 0)
  }

  predicate WideOk(cs: seq<nat>) {
    Scalars(cs) && Fits(Utf16Encode(cs))
  }

  /** A text that the format can hold: as it is, or as the UTF-8 form of a text whose UTF-16 form fits. */
  ghost predicate StringOk(s: Bytes) {
    Fits(s) || exists cs :: WideOk(cs) && Utf8Encode(cs) == s
  }

  predicate GuidOk(g: Guid) {
    U32Ok(g.a) && |g.b| == 4 && |g.c| == 4 && U32Ok(g.d)
  }

  ghost predicate TreeOk(t: TypeTree, depth: nat) {
    && depth <= DEPTH_LIMIT && StringOk(t.name) && |t.children| <= LIST_LIMIT
    && forall i | 0 <= i < |t.children| :: TreeOk(t.children[i], depth + 1)
  }

  ghost predicate LeafOk(k: Kind, nested: bool, v: Value)
    requires Leaf(k)
  {
    match k
    case IntK => v.IntValue? && I32Ok(v.i32)
    case UInt32K => v.UInt32Value? && U32Ok(v.u32)
    case Int64K => v.Int64Value? && I64Ok(v.i64)
    case UInt64K => v.UInt64Value? && U64Ok(v.u64)
    case FloatK => v.FloatValue? && U32Ok(v.f32)
    case DoubleK => v.Float64Value? && U64Ok(v.f64)
    case NameK => v.NameValue? && StringOk(v.name)
    case StrK => v.StrValue? && StringOk(v.str)
    case ObjectK => v.ObjectValue? && StringOk(v.objectPath)
    case EnumK => v.EnumValue? && StringOk(v.enumName)
    case ByteK => if nested then v.ByteEnumValue? && StringOk(v.byteEnum) else v.ByteValue? && U8Ok(v.u8)
    case SoftObjectK => v.SoftObjectValue? && StringOk(v.assetPath) && StringOk(v.package) && StringOk(v.assetName)
  }

  ghost predicate FixedStructOk(k: StructKind, v: Value)
    requires !k.GenericS?
  {
    match k
    case GuidS => v.GuidValue? && GuidOk(v.guid)
    case DateTimeS => v.DateTimeValue? && U64Ok(v.ticks)
    case VectorS => v.VectorValue? && U64Ok(v.vx) && U64Ok(v.vy) && U64Ok(v.vz)
    case QuatS => v.QuatValue? && U64Ok(v.qx) && U64Ok(v.qy) && U64Ok(v.qz) && U64Ok(v.qw)
    case RotatorS => v.RotatorValue? && U64Ok(v.pitch) && U64Ok(v.yaw) && U64Ok(v.roll)
    case LinearColorS => v.LinearColorValue? && U32Ok(v.red) && U32Ok(v.green) && U32Ok(v.blue) && U32Ok(v.alpha)
    case TagsS => v.GameplayTagContainerValue? && U32Ok(|v.tags|) && StringsOk(v.tags)
    case Vector2DS => v.Vector2DValue? && U64Ok(v.px) && U64Ok(v.py)
    case IntPointS => v.IntPointValue? && I32Ok(v.ix) && I32Ok(v.iy)
  }

  ghost predicate StringsOk(ss: seq<Bytes>) {
    forall i | 0 <= i < |ss| :: StringOk(ss[i])
  }

  ghost predicate StructOk(shortName: Bytes, fullPath: Bytes, v: Value)
    decreases v, 1
  {
    var k := StructKindOf(shortName);
    if !k.GenericS? then FixedStructOk(k, v)
    else v.StructValue? && v.structType == fullPath && PropertiesOk(v.properties)
  }

  /** A value outside a property tag conforms to its type tree. */
  ghost predicate MemberOk(tree: TypeTree, v: Value)
    decreases v, 2
  {
    var k := KindOf(tree.name);
    if Leaf(k) then LeafOk(k, |tree.children| > 0, v)
    else if k.BoolK? then v.BoolValue?
    else k.StructK? && StructOk(ShortName(tree), FullPath(tree), v)
  }

  ghost predicate MembersOk(tree: TypeTree, vs: seq<Value>)
    decreases vs, 3
  {
    forall i | 0 <= i < |vs| :: MemberOk(tree, vs[i])
  }

  ghost predicate EntryOk(keyTree: TypeTree, valTree: TypeTree, e: MapEntry)
    decreases e, 3
  {
    MemberOk(keyTree, e.key) && MemberOk(valTree, e.val)
  }

  ghost predicate EntriesOk(keyTree: TypeTree, valTree: TypeTree, es: seq<MapEntry>)
    decreases es, 3
  {
    forall i | 0 <= i < |es| :: EntryOk(keyTree, valTree, es[i])
  }

  /** The value of a property tag conforms to the tag's type tree. */
  ghost predicate TagOk(tree: TypeTree, v: Value)
    decreases v, 4
  {
    var k := KindOf(tree.name);
    if Leaf(k) then LeafOk(k, |tree.children| > 0, v)
    else match k
      case BoolK => v.BoolValue?
      case TextK => v.TextValue? && U32Ok(|v.text|)
      case StructK =>
        if v.RawStructValue? then v.rawType == FullPath(tree) && U32Ok(|v.rawData|)
        else StructOk(ShortName(tree), FullPath(tree), v)
      case ArrayK =>
        v.ArrayValue? && |tree.children| > 0 && |v.elements| <= LIST_LIMIT
            && MembersOk(tree.children[0], v.elements)
      case SetK =>
        v.ArrayValue? && |tree.children| > 0 && |v.elements| <= LIST_LIMIT
            && MembersOk(tree.children[0], v.elements)
      case MapK =>
        v.MapValue? && |tree.children| >= 2 && |v.entries| <= LIST_LIMIT
        && EntriesOk(tree.children[0], tree.children[1], v.entries)
      case OtherK => v.RawValue? && v.typeName == tree.name && U32Ok(|v.data|)
  }

  ghost predicate PropertyOk(p: Property)
    decreases p, 5
  {
    && StringOk(p.name) && p.name != Ascii("None") && TreeOk(p.tree, 0) && U32Ok(p.arrayIndex)
    && (p.guid.Some? ==> GuidOk(p.guid.value))
    && TagOk(p.tree, p.value)
  }

  ghost predicate PropertiesOk(ps: seq<Property>)
    decreases ps, 6
  {
    forall i | 0 <= i < |ps| :: PropertyOk(ps[i])
  }

  ghost predicate HeaderOk(h: Header) {
    && h.magic == MAGIC && U32Ok(h.saveGameVersion) && U32Ok(h.packageVersionUE4) && U32Ok(h.packageVersionUE5)
    && (!(h.saveGameVersion >= 3 && h.saveGameVersion != 34) ==> h.packageVersionUE5 == 0)
    && U16Ok(h.engineMajor) && U16Ok(h.engineMinor) && U16Ok(h.enginePatch) && U32Ok(h.engineBuild)
    && StringOk(h.engineStr) && U32Ok(|h.customVersions|)
    && forall i | 0 <= i < |h.customVersions| :: GuidOk(h.customVersions[i].guid) && I32Ok(h.customVersions[i].value)
  }

  ghost predicate SaveOk(s: Save) {
    HeaderOk(s.header) && StringOk(s.saveGameType) && PropertiesOk(s.properties)
  }

  // ---------------------------------------------------------------- encoders

  function ToLE(n: nat, x: nat): Bytes {
    if n == 0 then [] else [x % 256] + ToLE(n - 1, x / 256)
  }

  function PutUInt(n: nat, x: nat, rest: Bytes): Bytes {
    ToLE(n, x) + rest
  }

  function PutI32(i: int, rest: Bytes): Bytes {
    PutUInt(4, FromI32(i), rest)
  }

  function PutBytes(data: Bytes, rest: Bytes): Bytes {
    data + rest
  }

  function UnitBytes(us: seq<nat>): Bytes {
    if us == [] then [] else [us[0] % 256, us[0] / 256 % 256] + UnitBytes(us[1..])
  }

  /** With a terminating zero if there is room for it. */
  function Terminated(xs: seq<nat>): seq<nat> {
    if |xs| < TEXT_LIMIT then xs + [0] else xs
  }

  /** Negative length, then the UTF-16 units. */
  function PutWide(cs: seq<nat>, rest: Bytes): Bytes {
    var us := Terminated(Utf16Encode(cs));
    PutI32(-|us|, PutBytes(UnitBytes(us), rest))
  }

  function PutNarrow(s: Bytes, rest: Bytes): Bytes {
    if s == [] then PutI32(0, rest)
    else
      var data: Bytes := if |s| < TEXT_LIMIT then s + [0] else s;
      PutI32(|data|, PutBytes(data, rest))
  }

  /** As bytes where they fit, else as UTF-16. */
  ghost function PutString(s: Bytes, rest: Bytes): Bytes {
    if Fits(s) then PutNarrow(s, rest)
    else if exists cs :: WideOk(cs) && Utf8Encode(cs) == s then
      var cs :| WideOk(cs) && Utf8Encode(cs) == s;
      PutWide(cs, rest)
    else rest
  }

  ghost function PutStrings(ss: seq<Bytes>, rest: Bytes): Bytes {
    if ss == [] then rest else PutString(ss[0], PutStrings(ss[1..], rest))
  }

  function PutGuid(g: Guid, rest: Bytes): Bytes {
    PutUInt(4, g.a, PutBytes(g.b, PutBytes(g.c, PutUInt(4, g.d, rest))))
  }

  function PutCustomVersions(vs: seq<CustomVersion>, rest: Bytes): Bytes {
    if vs == [] then rest
    else PutGuid(vs[0].guid, PutI32(vs[0].value, PutCustomVersions(vs[1..], rest)))
  }

  function PutOptionalU32(present: bool, x: nat, rest: Bytes): Bytes {
    if present then PutUInt(4, x, rest) else rest
  }

  ghost function PutHeader(h: Header, rest: Bytes): Bytes {
    PutUInt(4, h.magic, PutUInt(4, h.saveGameVersion, PutUInt(4, h.packageVersionUE4,
      PutOptionalU32(h.saveGameVersion >= 3 && h.saveGameVersion != 34, h.packageVersionUE5,
        PutUInt(2, h.engineMajor, PutUInt(2, h.engineMinor, PutUInt(2, h.enginePatch, PutUInt(4, h.engineBuild,
          PutString(h.engineStr, PutUInt(4, 0, PutUInt(4, |h.customVersions|,
            PutCustomVersions(h.customVersions, rest)))))))))))
    )
  }

  ghost function PutTree(t: TypeTree, rest: Bytes): Bytes
    decreases t, 0
  {
    PutString(t.name, PutUInt(4, |t.children|, PutTrees(t.children, rest)))
  }

  ghost function PutTrees(ts: seq<TypeTree>, rest: Bytes): Bytes
    decreases ts, 1
  {
    if ts == [] then rest else PutTree(ts[0], PutTrees(ts[1..], rest))
  }

  /** A value outside a property tag. */
  ghost function PutMember(v: Value, rest: Bytes): Bytes
    decreases v, 0
  {
    match v
    case IntValue(i) => PutI32(i, rest)
    case Int64Value(i) => PutUInt(8, FromI64(i), rest)
    case UInt32Value(u) => PutUInt(4, u, rest)
    case UInt64Value(u) => PutUInt(8, u, rest)
    case FloatValue(u) => PutUInt(4, u, rest)
    case Float64Value(u) => PutUInt(8, u, rest)
    case BoolValue(b) => PutUInt(1, if b then 1 else 0, rest)
    case StrValue(s) => PutString(s, rest)
    case NameValue(s) => PutString(s, rest)
    case ObjectValue(s) => PutString(s, rest)
    case EnumValue(s) => PutString(s, rest)
    case ByteEnumValue(s) => PutString(s, rest)
    case ByteValue(u) => PutUInt(1, u, rest)
    case SoftObjectValue(s1, s2, s3) => PutString(s1, PutString(s2, PutString(s3, rest)))
    case StructValue(_, ps) => PutProperties(ps, rest)
    case GuidValue(g) => PutGuid(g, rest)
    case DateTimeValue(u) => PutUInt(8, u, rest)
    case VectorValue(x, y, z) => PutUInt(8, x, PutUInt(8, y, PutUInt(8, z, rest)))
    case QuatValue(x, y, z, w) => PutUInt(8, x, PutUInt(8, y, PutUInt(8, z, PutUInt(8, w, rest))))
    case RotatorValue(p, y, r) => PutUInt(8, p, PutUInt(8, y, PutUInt(8, r, rest)))
    case LinearColorValue(r, g, b, a) => PutUInt(4, r, PutUInt(4, g, PutUInt(4, b, PutUInt(4, a, rest))))
    case GameplayTagContainerValue(tags) => PutUInt(4, |tags|, PutStrings(tags, rest))
    case Vector2DValue(x, y) => PutUInt(8, x, PutUInt(8, y, rest))
    case IntPointValue(x, y) => PutI32(x, PutI32(y, rest))
    case RawStructValue(_, data) => PutBytes(data, rest)
    case ArrayValue(_) => rest
    case MapValue(_) => rest
    case RawValue(_, data) => PutBytes(data, rest)
    case TextValue(data) => PutBytes(data, rest)
  }

  ghost function PutMembers(vs: seq<Value>, rest: Bytes): Bytes
    decreases vs, 1
  {
    if vs == [] then rest else PutMember(vs[0], PutMembers(vs[1..], rest))
  }

  ghost function PutEntry(e: MapEntry, rest: Bytes): Bytes
    decreases e, 1
  {
    PutMember(e.key, PutMember(e.val, rest))
  }

  ghost function PutEntries(es: seq<MapEntry>, rest: Bytes): Bytes
    decreases es, 1
  {
    if es == [] then rest else PutEntry(es[0], PutEntries(es[1..], rest))
  }

  /** The value of a property tag: a bool is carried by the flags, a set or map starts with an empty
      list of removed keys. */
  ghost function PutTagValue(k: Kind, v: Value, rest: Bytes): Bytes
    decreases v, 2
  {
    match v
    case BoolValue(_) => rest
    case ArrayValue(vs) =>
      if k.SetK? then PutUInt(4, 0, PutUInt(4, |vs|, PutMembers(vs, rest)))
      else PutUInt(4, |vs|, PutMembers(vs, rest))
    case MapValue(es) => PutUInt(4, 0, PutUInt(4, |es|, PutEntries(es, rest)))
    case _ => PutMember(v, rest)
  }

  function Flags(p: Property): nat {
    (if p.arrayIndex != 0 then 0x01 else 0)
    + (if p.guid.Some? then 0x02 else 0)
    + (if p.value == BoolValue(true) then 0x04 else 0)
    + (if p.value.RawStructValue? then 0x10 else 0)
  }

  /** The number of bytes the value takes; a length that does not fit in the field is written as 0. */
  ghost function SizeField(k: Kind, v: Value): nat
    decreases v, 3
  {
    var n := |PutTagValue(k, v, [])|;
    if n < TWO32 then n else 0
  }

  function PutOptionalGuid(g: Option<Guid>, rest: Bytes): Bytes {
    if g.Some? then PutGuid(g.value, rest) else rest
  }

  ghost function PutTagBody(p: Property, rest: Bytes): Bytes
    decreases p, 4
  {
    var k := KindOf(p.tree.name);
    PutTree(p.tree, PutUInt(4, SizeField(k, p.value), PutUInt(1, Flags(p),
      PutOptionalU32(p.arrayIndex != 0, p.arrayIndex, PutOptionalGuid(p.guid, PutTagValue(k, p.value, rest))))))
  }

  ghost function PutProperties(ps: seq<Property>, rest: Bytes): Bytes
    decreases ps, 5
  {
    if ps == [] then PutString(Ascii("None"), rest)
    else PutString(ps[0].name, PutTagBody(ps[0], PutProperties(ps[1..], rest)))
  }

  ghost function Encode(s: Save): Bytes {
    PutHeader(s.header, PutString(s.saveGameType,
      PutBytes(if s.header.engineMajor > 5 || (s.header.engineMajor == 5 && s.header.engineMinor >= 4) then [0] else [],
        PutProperties(s.properties, s.extra))))
  }
}
