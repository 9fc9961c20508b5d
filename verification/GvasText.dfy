/** Texts: both forms of an FString read back, which texts can be read, and the one length field on which
    the reader cannot answer. */
module GvasText {
  import opened GvasDecode
  import opened GvasEncode
  import opened GvasNumbers
  import opened GvasTypes
  import opened GvasUnicode
  import opened Options

  // ---------------------------------------------------------------- UTF-16

  lemma {:induction false} Utf16Inverse(cs: seq<nat>)
    requires Scalars(cs)
    ensures Utf16Decode(Utf16Encode(cs)) == cs
  {
    if cs != [] {
      Utf16Inverse(cs[1..]);
      var tail := Utf16Encode(cs[1..]);
      var us := Utf16Rune(cs[0]) + tail;
      if cs[0] < 0x1_0000 {
        assert us[1..] == tail;
      } else {
        assert us[2..] == tail;
        assert us[0] < 0xDC00 && 0xDC00 <= us[1] < 0xE000;
      }
    }
  }

  lemma {:induction false} Utf16Small(cs: seq<nat>)
    requires Scalars(cs)
    ensures forall i | 0 <= i < |Utf16Encode(cs)| :: Utf16Encode(cs)[i] < 0x1_0000
  {
    if cs != [] { Utf16Small(cs[1..]); }
  }

  lemma {:induction false} UnitsInverse(us: seq<nat>)
    requires forall i | 0 <= i < |us| :: us[i] < 0x1_0000
    ensures |UnitBytes(us)| == 2 * |us| && Units(UnitBytes(us)) == us
  {
    if us != [] {
      UnitsInverse(us[1..]);
      assert UnitBytes(us)[2..] == UnitBytes(us[1..]);
    }
  }

  /** A text written as UTF-16 is read back as its UTF-8 form, surrogate pairs included. */
  lemma WidePut(cs: seq<nat>, rest: Bytes)
    requires WideOk(cs) && cs != []
    ensures FString(PutWide(cs, rest)) == Ok(Utf8Encode(cs), rest)
    ensures Utf8Decode(Utf8Encode(cs)) == Some(cs)
  {
    hide I32, PutI32, Take, PutBytes, Utf16Encode, Units, UnitBytes, Utf8Encode, Utf8Decode, Utf16Decode, Scalars;
    Utf8Inverse(cs);
    var us := Terminated(Utf16Encode(cs));
    var raw := UnitBytes(us);
    Utf16Small(cs);
    UnitsInverse(us);
    I32Put(-|us|, PutBytes(raw, rest));
    TakePut(raw, rest);
    assert StripNulUnit(us) == Utf16Encode(cs);
    Utf16Inverse(cs);
  }

  lemma NarrowPut(s: Bytes, rest: Bytes)
    requires Fits(s)
    ensures FString(PutNarrow(s, rest)) == Ok(s, rest)
  {
    hide I32, PutI32, PutBytes, Take;
    if s == [] {
      I32Put(0, rest);
    } else {
      var data: Bytes := if |s| < MAX_STRING_BYTES then s + [0] else s;
      I32Put(|data|, PutBytes(data, rest));
      TakePut(data, rest);
      assert StripNul(data) == s;
    }
  }

  /** Every text that the format can hold is read back. */
  lemma StringPut(s: Bytes, rest: Bytes)
    requires StringOk(s)
    ensures FString(PutString(s, rest)) == Ok(s, rest)
  {
    hide FString, PutWide, PutNarrow, WideOk, Utf8Encode;
    if Fits(s) {
      NarrowPut(s, rest);
    } else {
      NothingWide();
      forall cs | WideOk(cs) && Utf8Encode(cs) == s ensures FString(PutWide(cs, rest)) == Ok(s, rest) {
        WidePut(cs, rest);
      }
    }
  }

  lemma NothingWide()
    ensures Utf8Encode([]) == [] && Fits([])
  {
  }

  // ---------------------------------------------------------------- what can be read

  lemma {:induction false} UnitsBounded(raw: Bytes)
    requires |raw| % 2 == 0
    ensures |Units(raw)| == |raw| / 2 && forall i | 0 <= i < |Units(raw)| :: Units(raw)[i] < 0x1_0000
  {
    if raw != [] {
      UnitsBounded(raw[2..]);
    }
  }

  /** Decoded units are scalar values, and writing them again takes as many units, with the same last one
      being zero: unpaired surrogates have become U+FFFD. */
  lemma {:induction false} Rewritten(us: seq<nat>)
    requires forall i | 0 <= i < |us| :: us[i] < 0x1_0000
    ensures var again := Utf16Encode(Utf16Decode(us));
            Scalars(Utf16Decode(us)) && |again| == |us| && (us != [] ==> (again[|us| - 1] == 0 <==> us[|us| - 1] == 0))
  {
    if us != [] {
      var n := if us[0] < 0xD800 || 0xE000 <= us[0] then 1
               else if us[0] < 0xDC00 && |us| > 1 && 0xDC00 <= us[1] < 0xE000 then 2 else 1;
      Rewritten(us[n..]);
      assert Utf16Decode(us)[1..] == Utf16Decode(us[n..]);
      if |us| > n { assert us[n..][|us| - n - 1] == us[|us| - 1]; }
    }
  }

  lemma WideTextOk(raw: Bytes)
    requires |raw| % 2 == 0 && |raw| <= 2 * MAX_STRING_BYTES
    ensures StringOk(WideText(raw))
  {
    hide Units, Utf16Decode, Utf16Encode, Utf8Encode;
    UnitsBounded(raw);
    var us := StripNulUnit(Units(raw));
    Rewritten(us);
    assert WideOk(Utf16Decode(us));
  }

  /** Whatever is read as a text is one that the format can hold. */
  lemma StringBound(bs: Bytes)
    requires FString(bs).Ok?
    ensures StringOk(FString(bs).value)
  {
    hide I32, WideText, WideOk;
    var length, b1 := I32(bs).value, I32(bs).rest;
    if length < 0 {
      WideTextOk(Take(NegateI32(length) * 2, b1).value);
    }
  }

  // ---------------------------------------------------------------- the bad length

  /** The reader fails at run time exactly on the least 32-bit length, the one equal to its own negation. */
  lemma PanicExactly(bs: Bytes)
    ensures FString(bs) == Err(Panic) <==> |bs| >= 4 && FromLE(bs[..4]) == TWO31
  {
    hide FromLE, WideText;
    Powers();
  }
}
