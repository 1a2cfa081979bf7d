/** An eight-bit byte and the numbers it stands for. */
module Octets {

  type Byte = bv8

  lemma ByteFits(n: nat)
    requires n < 256
    ensures (n as bv8) as int == n
  {
    var b := Counted(n);
    CastBack(b, n);
  }

  lemma Counted(n: nat) returns (b: bv8)
    requires n < 256
    ensures b as int == n
  {
    if n == 0 {
      b := 0;
    } else {
      var before := Counted(n - 1);
      b := before + 1;
    }
  }

  lemma CastBack(b: bv8, n: int)
    requires b as int == n
    ensures n as bv8 == b
  {
  }
}
