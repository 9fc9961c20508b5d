/** What the texts of the format mean as Unicode: UTF-8 and UTF-16 as their standards define them, and every
    byte of a text field accounted for. Nothing here goes through the decoder's own conversions. */
module GvasUnicode {
  import opened GvasDecode
  import opened GvasEncode
  import opened GvasTypes
  import opened Options

  // ---------------------------------------------------------------- the standards

  /** A continuation octet, 10xxxxxx. */
  predicate Tail(b: Byte) {
    0x80 <= b < 0xC0
  }

  function Then(c: nat, rest: Option<seq<nat>>): Option<seq<nat>> {
    if rest.None? then None else Some([c] + rest.value)
  }

  function Octet(bs: Bytes, i: nat): nat
    requires i < |bs|
  {
    bs[i]
  }

  /** What the bits after the marks of `n` octets make, highest first. */
  function Bits(bs: Bytes, n: nat): int
    requires 2 <= n <= 4 && |bs| >= n
  {
    if n == 2 then (Octet(bs, 0) - 0xC0) * 0x40 + (Octet(bs, 1) - 0x80)
    else if n == 3 then (Octet(bs, 0) - 0xE0) * 0x1000 + (Octet(bs, 1) - 0x80) * 0x40 + (Octet(bs, 2) - 0x80)
    else
      (Octet(bs, 0) - 0xF0) * 0x4_0000 + (Octet(bs, 1) - 0x80) * 0x1000 + (Octet(bs, 2) - 0x80) * 0x40
      + (Octet(bs, 3) - 0x80)
  }

  /** UTF-8 by the table of RFC 3629 section 3: the first octet tells how many follow, each code point has its
      shortest form only, and surrogates have none. */
  function Utf8Decode(bs: Bytes): Option<seq<nat>> {
    if bs == [] then Some([])
    else if bs[0] < 0x80 then Then(bs[0], Utf8Decode(bs[1..]))
    else if 0xC0 <= bs[0] < 0xE0 && |bs| >= 2 && Tail(bs[1]) && 0x80 <= Bits(bs, 2) then
      Then(Bits(bs, 2), Utf8Decode(bs[2..]))
    else if 0xE0 <= bs[0] < 0xF0 && |bs| >= 3 && Tail(bs[1]) && Tail(bs[2])
            && 0x800 <= Bits(bs, 3) && !(0xD800 <= Bits(bs, 3) < 0xE000) then
      Then(Bits(bs, 3), Utf8Decode(bs[3..]))
    else if 0xF0 <= bs[0] < 0xF8 && |bs| >= 4 && Tail(bs[1]) && Tail(bs[2]) && Tail(bs[3])
            && 0x1_0000 <= Bits(bs, 4) < 0x11_0000 then
      Then(Bits(bs, 4), Utf8Decode(bs[4..]))
    else None
  }

  predicate High(u: nat) {
    0xD800 <= u < 0xDC00
  }

  predicate Low(u: nat) {
    0xDC00 <= u < 0xE000
  }

  /** `us` is the UTF-16 form of `cs`, RFC 2781 section 2: one unit, or a high and a low surrogate that carry
      the upper and the lower ten bits of what exceeds 0x10000. */
  predicate Utf16Form(cs: seq<nat>, us: seq<nat>) {
    if cs == [] then us == []
    else if cs[0] < 0x1_0000 then us != [] && us[0] == cs[0] && Utf16Form(cs[1..], us[1..])
    else
      && |us| >= 2 && High(us[0]) && Low(us[1])
      && cs[0] == 0x1_0000 + (us[0] - 0xD800) * 0x400 + (us[1] - 0xDC00)
      && Utf16Form(cs[1..], us[2..])
  }

  /** A surrogate without its partner next to it. */
  predicate Lone(us: seq<nat>, i: nat)
    requires i < |us|
  {
    || (High(us[i]) && !(i + 1 < |us| && Low(us[i + 1])))
    || (Low(us[i]) && !(i > 0 && High(us[i - 1])))
  }

  /** The units with U+FFFD in the place of every lone surrogate. */
  function Mended(us: seq<nat>): seq<nat> {
    seq(|us|, i requires 0 <= i < |us| => if Lone(us, i) then 0xFFFD else us[i])
  }

  // ---------------------------------------------------------------- the conversions meet the standards

  lemma TwoOctets(c: nat, bs: Bytes)
    requires 0x80 <= c < 0x800 && |bs| >= 2 && bs[..2] == Utf8Rune(c)
    ensures 0xC0 <= bs[0] < 0xE0 && Tail(bs[1]) && Bits(bs, 2) == c
  {
    assert bs[0] == bs[..2][0] && bs[1] == bs[..2][1];
  }

  lemma ThreeOctets(c: nat, bs: Bytes)
    requires 0x800 <= c < 0x1_0000 && |bs| >= 3 && bs[..3] == Utf8Rune(c)
    ensures 0xE0 <= bs[0] < 0xF0 && Tail(bs[1]) && Tail(bs[2]) && Bits(bs, 3) == c
  {
    assert bs[0] == bs[..3][0] && bs[1] == bs[..3][1] && bs[2] == bs[..3][2];
  }

  lemma FourOctets(c: nat, bs: Bytes)
    requires 0x1_0000 <= c < 0x11_0000 && |bs| >= 4 && bs[..4] == Utf8Rune(c)
    ensures 0xF0 <= bs[0] < 0xF8 && Tail(bs[1]) && Tail(bs[2]) && Tail(bs[3]) && Bits(bs, 4) == c
  {
    assert bs[0] == bs[..4][0] && bs[1] == bs[..4][1] && bs[2] == bs[..4][2] && bs[3] == bs[..4][3];
    SixBits(c);
  }

  lemma SixBits(c: nat)
    requires c < 0x11_0000
    ensures c / 0x4_0000 % 8 * 0x4_0000 + c / 0x1000 % 0x40 * 0x1000 + c / 0x40 % 0x40 * 0x40 + c % 0x40 == c
  {
    var a, b := c / 0x40, c / 0x1000;
    assert a / 0x40 == b && b / 0x40 == c / 0x4_0000;
    assert c == a * 0x40 + c % 0x40 && a == b * 0x40 + a % 0x40 && b == c / 0x4_0000 * 0x40 + b % 0x40;
  }

  lemma Utf8Char(c: nat, rest: Bytes)
    requires Scalar(c)
    ensures Utf8Decode(Utf8Rune(c) + rest) == Then(c, Utf8Decode(rest))
  {
    hide Bits, Tail, Then;
    var bs := Utf8Rune(c) + rest;
    if c < 0x80 {
      assert bs[1..] == rest;
    } else if c < 0x800 {
      assert bs[2..] == rest && bs[..2] == Utf8Rune(c);
      TwoOctets(c, bs);
    } else if c < 0x1_0000 {
      assert bs[3..] == rest && bs[..3] == Utf8Rune(c);
      ThreeOctets(c, bs);
    } else {
      assert bs[4..] == rest && bs[..4] == Utf8Rune(c);
      FourOctets(c, bs);
    }
  }

  /** What is written as UTF-8 is UTF-8, and of this text. */
  lemma {:induction false} Utf8Inverse(cs: seq<nat>)
    requires Scalars(cs)
    ensures Utf8Decode(Utf8Encode(cs)) == Some(cs)
  {
    hide Utf8Rune, Bits, Tail;
    if cs != [] {
      Utf8Inverse(cs[1..]);
      Utf8Char(cs[0], Utf8Encode(cs[1..]));
      assert [cs[0]] + cs[1..] == cs;
    }
  }

  /** How many units the first character of a sequence takes. */
  function Step(us: seq<nat>): nat
    requires us != []
  {
    if High(us[0]) && |us| > 1 && Low(us[1]) then 2 else 1
  }

  lemma MendedRest(us: seq<nat>)
    requires us != []
    ensures Mended(us)[Step(us)..] == Mended(us[Step(us)..])
  {
    forall i | 0 <= i < |us[Step(us)..]| ensures Lone(us[Step(us)..], i) <==> Lone(us, i + Step(us)) {
    }
  }

  lemma MendedFirst(us: seq<nat>)
    requires us != []
    ensures |Mended(us)| == |us|
    ensures Step(us) == 2 ==> Mended(us)[0] == us[0] && Mended(us)[1] == us[1]
    ensures Step(us) == 1 ==> Mended(us)[0] == if High(us[0]) || Low(us[0]) then 0xFFFD else us[0]
  {
  }

  lemma DecodeFirst(us: seq<nat>)
    requires us != []
    ensures var c := if Step(us) == 2 then 0x1_0000 + (us[0] - 0xD800) * 0x400 + (us[1] - 0xDC00)
                     else if High(us[0]) || Low(us[0]) then 0xFFFD else us[0];
            Utf16Decode(us) == [c] + Utf16Decode(us[Step(us)..])
  {
  }

  /** Decoding gives the text whose UTF-16 form are the units, with U+FFFD for what is not UTF-16. */
  lemma {:induction false} Utf16Means(us: seq<nat>)
    requires forall i | 0 <= i < |us| :: us[i] < 0x1_0000
    ensures Scalars(Utf16Decode(us)) && Utf16Form(Utf16Decode(us), Mended(us))
  {
    hide Mended, Lone;
    if us != [] {
      Utf16Means(us[Step(us)..]);
      MendedRest(us);
      MendedFirst(us);
      var cs, rest := Utf16Decode(us), Utf16Decode(us[Step(us)..]);
      DecodeFirst(us);
      assert cs[1..] == rest && forall i | 1 <= i < |cs| :: cs[i] == rest[i - 1];
    } else {
      assert Mended(us) == [] by { MendedNone(us); }
    }
  }

  lemma MendedNone(us: seq<nat>)
    requires us == []
    ensures Mended(us) == []
  {
  }

  /** The encoder's UTF-16 is UTF-16. */
  lemma {:induction false} Utf16Formed(cs: seq<nat>)
    requires Scalars(cs)
    ensures Utf16Form(cs, Utf16Encode(cs))
  {
    if cs != [] {
      Utf16Formed(cs[1..]);
      assert Utf16Encode(cs)[|Utf16Rune(cs[0])|..] == Utf16Encode(cs[1..]);
    }
  }

  // ---------------------------------------------------------------- a text field, byte by byte

  /** The four bytes of a length field, lowest first, in two's complement. */
  function LengthAt(bs: Bytes): int
    requires |bs| >= 4
  {
    var u := Octet(bs, 0) + 0x100 * Octet(bs, 1) + 0x1_0000 * Octet(bs, 2) + 0x100_0000 * Octet(bs, 3);
    if u < 0x8000_0000 then u else u - 0x1_0000_0000
  }

  lemma LengthRead(bs: Bytes)
    requires |bs| >= 4
    ensures I32(bs) == Ok(LengthAt(bs), bs[4..])
  {
    var b := bs[..4];
    assert b[1..][1..] == b[2..] && b[1..][1..][1..] == b[3..] && b[1..][1..][1..][1..] == [];
    assert FromLE(b[3..]) == Octet(bs, 3) && FromLE(b[2..]) == Octet(bs, 2) + 0x100 * Octet(bs, 3);
    assert FromLE(b[1..]) == Octet(bs, 1) + 0x100 * FromLE(b[2..]);
    assert FromLE(b) == Octet(bs, 0) + 0x100 * FromLE(b[1..]);
    assert UInt(4, bs) == Ok(FromLE(b), bs[4..]);
  }

  /** A length that is not negative: that many bytes as they are, without a terminating zero. Ten mebibytes
      is the limit, checked before the bytes are. */
  lemma NarrowMeans(bs: Bytes)
    requires |bs| >= 4 && LengthAt(bs) >= 0
    ensures var n := LengthAt(bs);
            FString(bs) == if n > 10_485_760 then Err(StringTooLong)
                           else if |bs| < 4 + n then Err(ShortRead)
                           else Ok(if n > 0 && bs[3 + n] == 0 then bs[4..3 + n] else bs[4..4 + n], bs[4 + n..])
  {
    LengthRead(bs);
    var n := LengthAt(bs);
    if n <= 10_485_760 && |bs| >= 4 + n {
      assert bs[4..][..n] == bs[4..4 + n] && bs[4..][n..] == bs[4 + n..];
      if n > 0 { assert bs[4..4 + n][..n - 1] == bs[4..3 + n]; }
    }
  }

  /** The 16-bit units of a text field, lower byte first, without a terminating zero. */
  function UnitsAt(bs: Bytes, n: nat): seq<nat>
    requires |bs| >= 4 + 2 * n
  {
    var m := if n > 0 && bs[2 + 2 * n] == 0 && bs[3 + 2 * n] == 0 then n - 1 else n;
    seq(m, i requires 0 <= i < m => Octet(bs, 4 + 2 * i) + 0x100 * Octet(bs, 5 + 2 * i))
  }

  lemma {:induction false} UnitAt(raw: Bytes, i: nat)
    requires |raw| % 2 == 0 && 2 * i < |raw|
    ensures |Units(raw)| == |raw| / 2 && Units(raw)[i] == Octet(raw, 2 * i) + 0x100 * Octet(raw, 2 * i + 1)
  {
    if |raw| > 2 {
      UnitAt(raw[2..], if i == 0 then 0 else i - 1);
      assert i > 0 ==> Units(raw)[i] == Units(raw[2..])[i - 1];
    } else {
      assert raw[2..] == [];
    }
  }

  lemma UnitsAre(bs: Bytes, n: nat)
    requires n > 0 && |bs| >= 4 + 2 * n
    ensures var us := Units(bs[4..4 + 2 * n]);
            && |us| == n && (us[n - 1] == 0 <==> bs[2 + 2 * n] == 0 && bs[3 + 2 * n] == 0)
            && forall i | 0 <= i < n :: us[i] == Octet(bs, 4 + 2 * i) + 0x100 * Octet(bs, 5 + 2 * i)
  {
    hide Units;
    var raw := bs[4..4 + 2 * n];
    forall i | 0 <= i < n
      ensures |Units(raw)| == n && Units(raw)[i] == Octet(bs, 4 + 2 * i) + 0x100 * Octet(bs, 5 + 2 * i)
    {
      UnitAt(raw, i);
    }
    assert |Units(raw)| == n && Units(raw)[n - 1] == Octet(bs, 2 + 2 * n) + 0x100 * Octet(bs, 3 + 2 * n);
  }

  lemma UnitsRead(bs: Bytes, n: nat)
    requires n > 0 && |bs| >= 4 + 2 * n
    ensures StripNulUnit(Units(bs[4..4 + 2 * n])) == UnitsAt(bs, n)
  {
    hide Units, Octet;
    UnitsAre(bs, n);
  }

  /** A negative length: that many 16-bit units follow, and what is read is the UTF-8 form of the text whose
      UTF-16 form they are, with U+FFFD for every lone surrogate. */
  lemma WideMeans(bs: Bytes)
    requires |bs| >= 4 && LengthAt(bs) < 0
    ensures var n := -LengthAt(bs);
            && (n == 0x8000_0000 <==> FString(bs) == Err(Panic))
            && (10_485_760 < n < 0x8000_0000 <==> FString(bs) == Err(StringTooLong))
            && (n <= 10_485_760 && |bs| < 4 + 2 * n <==> FString(bs) == Err(ShortRead))
            && (n <= 10_485_760 && |bs| >= 4 + 2 * n <==> FString(bs).Ok?)
            && (FString(bs).Ok? ==>
                && FString(bs).rest == bs[4 + 2 * n..]
                && var text := Utf8Decode(FString(bs).value);
                   text.Some? && Scalars(text.value) && Utf16Form(text.value, Mended(UnitsAt(bs, n))))
  {
    hide Units, StripNulUnit, Utf16Decode, Utf8Encode, Utf8Decode, Utf16Form, Mended, UnitsAt;
    LengthRead(bs);
    var n := -LengthAt(bs);
    if n <= 10_485_760 && |bs| >= 4 + 2 * n {
      assert bs[4..][..2 * n] == bs[4..4 + 2 * n] && bs[4..][2 * n..] == bs[4 + 2 * n..];
      UnitsRead(bs, n);
      UnitsSmall(bs, n);
      var us := UnitsAt(bs, n);
      Utf16Means(us);
      Utf8Inverse(Utf16Decode(us));
    }
  }

  lemma UnitsSmall(bs: Bytes, n: nat)
    requires |bs| >= 4 + 2 * n
    ensures forall i | 0 <= i < |UnitsAt(bs, n)| :: UnitsAt(bs, n)[i] < 0x1_0000
  {
  }

  /** A field too short for its length. */
  lemma LengthMissing(bs: Bytes)
    requires |bs| < 4
    ensures FString(bs) == Err(ShortRead)
  {
  }
}
