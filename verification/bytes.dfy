/** Bytes, fixed-width little-endian integers, and the outcome type shared by all layers. */
module Bytes {
  import Octets

  type Byte = Octets.Byte

  const U16_LIMIT := 0x1_0000
  const U32_LIMIT := 0x1_0000_0000
  const U64_LIMIT := 0x1_0000_0000_0000_0000

  type U64 = n: nat | n < 0x1_0000_0000_0000_0000

  datatype Option<+T> = None | Some(value: T)

  function ByteOf(n: nat): (b: Byte)
    requires n < 256
    ensures b as int == n
  {
    Octets.ByteFits(n); n as Byte
  }

  function Num(b: Byte): (n: nat)
    ensures n == b as int && n < 256
  {
    b as nat
  }

  /** The low `width` bytes of `n`, least significant first (`to_le_bytes`). */
  function ToLe(n: nat, width: nat): (s: seq<Byte>)
    ensures |s| == width
    decreases width, n
  {
    if width == 0 then [] else [ByteOf(n % 256)] + ToLe(n / 256, width - 1)
  }

  /** The number whose little-endian bytes are `s` (`from_le_bytes`). */
  function FromLe(s: seq<Byte>): nat {
    if s == [] then 0 else Num(s[0]) + 256 * FromLe(s[1..])
  }

  function Pow256(width: nat): nat {
    if width == 0 then 1 else 256 * Pow256(width - 1)
  }

  lemma {:induction false} LeRoundTrip(n: nat, width: nat)
    requires n < Pow256(width)
    ensures FromLe(ToLe(n, width)) == n
  {
    hide ByteOf, Num;
    if width != 0 {
      LeRoundTrip(n / 256, width - 1);
      assert ToLe(n, width)[1..] == ToLe(n / 256, width - 1);
    }
  }

  lemma {:induction false} FromLeBound(s: seq<Byte>)
    ensures FromLe(s) < Pow256(|s|)
  {
    hide Num;
    if s != [] {
      FromLeBound(s[1..]);
    }
  }

  lemma Widths()
    ensures Pow256(2) == U16_LIMIT && Pow256(4) == U32_LIMIT && Pow256(8) == U64_LIMIT
  {
    assert Pow256(1) == 256;
    assert Pow256(2) == 256 * Pow256(1);
    assert Pow256(3) == 256 * Pow256(2);
    assert Pow256(4) == 256 * Pow256(3);
    assert Pow256(5) == 256 * Pow256(4);
    assert Pow256(6) == 256 * Pow256(5);
    assert Pow256(7) == 256 * Pow256(6);
    assert Pow256(8) == 256 * Pow256(7);
  }
}
