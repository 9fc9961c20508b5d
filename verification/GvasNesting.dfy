/** Structs may be nested to any depth: the limit on nesting guards type trees only. */
module GvasNesting {
  import opened GvasDecode
  import opened GvasEncode
  import GvasRoundTrip
  import opened GvasTypes
  import opened Options

  const STRUCT_TREE := TypeTree(Ascii("StructProperty"), [])

  /** A struct property holding a struct property, `depth` times over. */
  function Nested(depth: nat): Property {
    Property([], STRUCT_TREE, 0, None, StructValue([], if depth == 0 then [] else [Nested(depth - 1)]))
  }

  /** How many structs are nested in a property, counting along the first property of each. */
  function Depth(p: Property): nat
    decreases p
  {
    if p.value.StructValue? && p.value.properties != [] then 1 + Depth(p.value.properties[0]) else 0
  }

  lemma {:induction false} NestedDepth(depth: nat)
    ensures Depth(Nested(depth)) == depth
  {
    if depth > 0 { NestedDepth(depth - 1); }
  }

  lemma OtherName(name: string, i: nat)
    requires |name| != 14 || (i < 14 && name[i] as int % 256 != "StructProperty"[i] as int % 256)
    ensures Ascii("StructProperty") != Ascii(name)
  {
    if |name| == 14 { assert Ascii(name)[i] != Ascii("StructProperty")[i]; }
  }

  lemma StructName()
    ensures KindOf(STRUCT_TREE.name) == StructK
  {
    hide Ascii;
    OtherName("IntProperty", 0);
    OtherName("UInt32Property", 0);
    OtherName("Int64Property", 0);
    OtherName("UInt64Property", 0);
    OtherName("FloatProperty", 0);
    OtherName("DoubleProperty", 0);
    OtherName("BoolProperty", 0);
    OtherName("NameProperty", 0);
    OtherName("StrProperty", 0);
    OtherName("ObjectProperty", 0);
    OtherName("EnumProperty", 0);
    OtherName("ByteProperty", 0);
    OtherName("SoftObjectProperty", 0);
    OtherName("TextProperty", 0);
  }

  lemma NoStructName()
    ensures StructKindOf([]) == GenericS && [] != Ascii("None")
  {
  }

  lemma OneStruct(p: Property)
    requires p.name == [] && p.arrayIndex == 0 && p.guid.None? && p.value.StructValue? && p.value.structType == []
    requires KindOf(p.tree.name) == StructK && p.tree.children == [] && TreeOk(p.tree, 0)
        && PropertiesOk(p.value.properties)
    ensures PropertyOk(p)
  {
    hide Ascii, KindOf, StructKindOf, TreeOk, StringOk;
    NoStructName();
    NameFits();
    assert StructOk([], [], p.value);
  }

  lemma {:induction false} NestedOk(depth: nat)
    ensures PropertyOk(Nested(depth))
  {
    hide Ascii, KindOf, PropertyOk, TreeOk, StringOk;
    StructName();
    NameFits();
    if depth > 0 { NestedOk(depth - 1); }
    OneStruct(Nested(depth));
  }

  lemma NameFits()
    ensures StringOk([]) && StringOk(STRUCT_TREE.name) && TreeOk(STRUCT_TREE, 0)
  {
  }

  /** A save with structs nested `depth` deep is read in full, whatever `depth` is. */
  lemma AnyDepthIsRead(depth: nat, header: Header)
    requires HeaderOk(header)
    ensures var s := Save(header, [], [Nested(depth)], []);
            Parse(Encode(s)) == Ok(s, []) && Depth(s.properties[0]) == depth
  {
    hide HeaderOk, PropertyOk, Parse, Encode;
    NestedOk(depth);
    NestedDepth(depth);
    NameFits();
    GvasRoundTrip.ParseEncode(Save(header, [], [Nested(depth)], []));
  }
}
