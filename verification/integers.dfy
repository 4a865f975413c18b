// The machine integers of the sources.

module Integers {
  newtype int32 = x: int | -2147483648 <= x <= 2147483647
  newtype uint32 = x: int | 0 <= x <= 4294967295
  newtype uint16 = x: int | 0 <= x <= 65535

  // A number kept in an int, in two's complement.
  function Wrap32(i: int): (r: int)
    ensures -0x8000_0000 <= r < 0x8000_0000
  {
    (i + 0x8000_0000) % 0x1_0000_0000 - 0x8000_0000
  }

  lemma Wrap32Around(i: int, k: int)
    ensures Wrap32(i + k * 0x1_0000_0000) == Wrap32(i)
  {
    var d := (i + k * 0x1_0000_0000 + 0x8000_0000) / 0x1_0000_0000 - (i + 0x8000_0000) / 0x1_0000_0000;
    assert d == k;
  }

  lemma Wrap32Sum(a: int, b: int)
    ensures Wrap32(Wrap32(a) + b) == Wrap32(a + b)
  {
  }

  lemma Wrap32Small(i: int)
    requires -0x8000_0000 <= i < 0x8000_0000
    ensures Wrap32(i) == i
  {
  }
}
