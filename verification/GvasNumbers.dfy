/** Reading back fixed-width numbers and raw bytes. */
module GvasNumbers {
  import opened GvasDecode
  import opened GvasEncode
  import opened GvasTypes
  import opened Options

  lemma {:induction false} ToLEInverse(n: nat, x: nat)
    requires x < Pow256(n)
    ensures |ToLE(n, x)| == n && FromLE(ToLE(n, x)) == x
  {
    if n > 0 {
      ToLEInverse(n - 1, x / 256);
      assert ToLE(n, x)[1..] == ToLE(n - 1, x / 256);
    }
  }

  lemma Powers()
    ensures Pow256(1) == 256 && Pow256(2) == 0x1_0000 && Pow256(4) == TWO32 && Pow256(8) == TWO64
  {
    assert Pow256(3) == 256 * Pow256(2);
    assert Pow256(5) == 256 * Pow256(4);
    assert Pow256(7) == 256 * Pow256(6);
  }

  lemma TakePut(data: Bytes, rest: Bytes)
    ensures Take(|data|, PutBytes(data, rest)) == Ok(data, rest)
  {
  }

  lemma UIntPut(n: nat, x: nat, rest: Bytes)
    requires x < Pow256(n)
    ensures UInt(n, PutUInt(n, x, rest)) == Ok(x, rest)
  {
    ToLEInverse(n, x);
    TakePut(ToLE(n, x), rest);
  }

  lemma U32Put(x: nat, rest: Bytes)
    requires U32Ok(x)
    ensures UInt(4, PutUInt(4, x, rest)) == Ok(x, rest)
  {
    Powers();
    UIntPut(4, x, rest);
  }

  lemma U64Put(x: nat, rest: Bytes)
    requires U64Ok(x)
    ensures UInt(8, PutUInt(8, x, rest)) == Ok(x, rest)
  {
    Powers();
    UIntPut(8, x, rest);
  }

  lemma U16Put(x: nat, rest: Bytes)
    requires U16Ok(x)
    ensures UInt(2, PutUInt(2, x, rest)) == Ok(x, rest)
  {
    Powers();
    UIntPut(2, x, rest);
  }

  lemma U8Put(x: nat, rest: Bytes)
    requires U8Ok(x)
    ensures UInt(1, PutUInt(1, x, rest)) == Ok(x, rest)
  {
    Powers();
    UIntPut(1, x, rest);
  }

  lemma I32Put(i: int, rest: Bytes)
    requires I32Ok(i)
    ensures I32(PutI32(i, rest)) == Ok(i, rest)
  {
    hide UInt, PutUInt;
    U32Put(FromI32(i), rest);
  }

  lemma I64Put(i: int, rest: Bytes)
    requires I64Ok(i)
    ensures I64(PutUInt(8, FromI64(i), rest)) == Ok(i, rest)
  {
    hide UInt, PutUInt;
    U64Put(FromI64(i), rest);
  }
}
