/** CRC-32 of section 3.2.9 of IEEE 802.3, bit by bit, and the errors it always detects. */
module Crc {
  import opened Bytes

  type Word = bv32

  const POLYNOMIAL: Word := 0xEDB8_8320
  const START: Word := 0xFFFF_FFFF

  function Mix(a: Word, b: Word): Word {
    a ^ b
  }

  function Wide(b: Byte): Word {
    b as Word
  }

  function Flipped(a: Word): Word {
    !a
  }

  /** One division step on the reflected register. */
  function BitStep(c: Word): Word {
    if c & 1 == 1 then (c >> 1) ^ POLYNOMIAL else c >> 1
  }

  function BitSteps(c: Word, n: nat): Word
    decreases n
  {
    if n == 0 then c else BitSteps(BitStep(c), n - 1)
  }

  function ByteStep(c: Word, b: Byte): Word {
    BitSteps(Mix(c, Wide(b)), 8)
  }

  /** The register after all of `data`. */
  function Register(c: Word, data: seq<Byte>): Word {
    if data == [] then c else ByteStep(Register(c, data[..|data| - 1]), data[|data| - 1])
  }

  function Checksum(data: seq<Byte>): Word {
    Flipped(Register(START, data))
  }

  method Crc32(data: seq<Byte>) returns (r: Word)
    ensures r == Checksum(data)
  {
    hide BitSteps, BitStep, Mix, Wide, Flipped;
    var crc: Word := START;
    for i := 0 to |data|
      invariant crc == Register(START, data[..i])
    {
      assert data[..i + 1][..i] == data[..i];
      crc := EightSteps(Mix(crc, Wide(data[i])));
    }
    assert data[..|data|] == data;
    return Flipped(crc);
  }

  method EightSteps(start: Word) returns (crc: Word)
    ensures crc == BitSteps(start, 8)
  {
    hide BitStep;
    crc := start;
    for j := 0 to 8
      invariant BitSteps(start, 8) == BitSteps(crc, 8 - j)
    {
      var mask: Word := 0 - (crc & 1);
      MaskedStep(crc, mask);
      crc := (crc >> 1) ^ (POLYNOMIAL & mask);
    }
  }

  lemma MaskedStep(c: Word, mask: Word)
    requires mask == 0 - (c & 1)
    ensures (c >> 1) ^ (POLYNOMIAL & mask) == BitStep(c)
  {
    if c & 1 == 1 {
      assert mask == 0xFFFF_FFFF;
    } else {
      assert c & 1 == 0;
    }
  }

  /** The standard's values for no bytes, for the letter `a` and for the digits 1 to 9. */
  lemma KnownVectors()
    ensures Checksum([]) == 0 && Checksum([0x61]) == 0xE8B7_BE43
    ensures Checksum([0x31, 0x32, 0x33, 0x34, 0x35, 0x36, 0x37, 0x38, 0x39]) == 0xCBF4_3926
  {
    hide Register;
    Fed([], 0x61, [0x61], 0xFFFF_FFFF);
    Fed([], 0x31, [0x31], 0xFFFF_FFFF);
    Fed([0x31], 0x32, [0x31, 0x32], 0x7C23_1048);
    Fed([0x31, 0x32], 0x33, [0x31, 0x32, 0x33], 0xB0AC_BB32);
    Fed([0x31, 0x32, 0x33], 0x34, [0x31, 0x32, 0x33, 0x34], 0x77B7_9C2D);
    Fed([0x31, 0x32, 0x33, 0x34], 0x35, [0x31, 0x32, 0x33, 0x34, 0x35], 0x641C_1F5C);
    Fed([0x31, 0x32, 0x33, 0x34, 0x35], 0x36, [0x31, 0x32, 0x33, 0x34, 0x35, 0x36], 0x340A_C5E3);
    Fed([0x31, 0x32, 0x33, 0x34, 0x35, 0x36], 0x37, [0x31, 0x32, 0x33, 0x34, 0x35, 0x36, 0x37], 0xF68D_2C9E);
    Fed([0x31, 0x32, 0x33, 0x34, 0x35, 0x36, 0x37], 0x38,
        [0x31, 0x32, 0x33, 0x34, 0x35, 0x36, 0x37, 0x38], 0xAFFC_9660);
    Fed([0x31, 0x32, 0x33, 0x34, 0x35, 0x36, 0x37, 0x38], 0x39,
        [0x31, 0x32, 0x33, 0x34, 0x35, 0x36, 0x37, 0x38, 0x39], 0x651F_2550);
  }

  /** One more byte on a register that is known. */
  lemma Fed(data: seq<Byte>, b: Byte, next: seq<Byte>, c: Word)
    requires next == data + [b] && (data == [] ==> c == START) && (data != [] ==> Register(START, data) == c)
    ensures Register(START, []) == START
    ensures Register(START, next)
      == BitStep(BitStep(BitStep(BitStep(BitStep(BitStep(BitStep(BitStep(Mix(c, Wide(b))))))))))
  {
    hide BitStep, Mix, Wide;
    assert next[..|data|] == data;
  }

  // ----- Steps lose nothing -----

  lemma BitStepInjective(a: Word, b: Word)
    requires BitStep(a) == BitStep(b)
    ensures a == b
  {
  }

  lemma {:induction false} BitStepsInjective(a: Word, b: Word, n: nat)
    requires BitSteps(a, n) == BitSteps(b, n)
    ensures a == b
    decreases n
  {
    hide BitStep;
    if n > 0 {
      BitStepsInjective(BitStep(a), BitStep(b), n - 1);
      BitStepInjective(a, b);
    }
  }

  lemma XorInjective(a: Word, b: Word, x: Word)
    requires a != b
    ensures Mix(a, x) != Mix(b, x) && Mix(x, a) != Mix(x, b)
  {
  }

  lemma ByteStepInjective(a: Word, b: Word, x: Byte)
    requires a != b
    ensures ByteStep(a, x) != ByteStep(b, x)
  {
    hide BitSteps, BitStep, Mix, Wide;
    XorInjective(a, b, Wide(x));
    if ByteStep(a, x) == ByteStep(b, x) {
      BitStepsInjective(Mix(a, Wide(x)), Mix(b, Wide(x)), 8);
    }
  }

  /** From different registers the same data leads to different registers. */
  lemma {:induction false} RegisterInjective(a: Word, b: Word, data: seq<Byte>)
    requires a != b
    ensures Register(a, data) != Register(b, data)
  {
    hide ByteStep;
    if data != [] {
      var start := data[..|data| - 1];
      RegisterInjective(a, b, start);
      ByteStepInjective(Register(a, start), Register(b, start), data[|data| - 1]);
    }
  }

  lemma {:induction false} RegisterParts(c: Word, front: seq<Byte>, back: seq<Byte>)
    ensures Register(c, front + back) == Register(Register(c, front), back)
  {
    hide ByteStep;
    if back == [] {
      assert front + back == front;
    } else {
      var start := back[..|back| - 1];
      RegisterParts(c, front, start);
      assert (front + back)[..|front + back| - 1] == front + start;
    }
  }

  // ----- Four bytes act as one word -----

  function Twice(z: Word): Word {
    z << 1
  }

  function Raised(z: Word, n: nat): Word {
    if n == 0 then z else Twice(Raised(z, n - 1))
  }

  ghost predicate Small(z: Word) {
    z < 0x8000_0000
  }

  /** A word of three bytes. */
  ghost predicate Short(z: Word) {
    z < 0x100_0000
  }

  function Half(c: Word): Word {
    c >> 1
  }

  ghost predicate Odd(c: Word) {
    c & 1 == 1
  }

  lemma BitStepParts(c: Word)
    ensures BitStep(c) == if Odd(c) then Mix(Half(c), POLYNOMIAL) else Half(c)
  {
  }

  /** Bits above the low one only move down. */
  lemma BitStepCarries(a: Word, z: Word)
    requires Small(z)
    ensures BitStep(Mix(a, Twice(z))) == Mix(BitStep(a), z)
  {
    hide BitStep, Mix, Twice, Half, Odd, Small;
    BitStepParts(a);
    BitStepParts(Mix(a, Twice(z)));
    OddKept(a, z);
    HalfCarries(a, z);
    MixSwaps(Half(a), z, POLYNOMIAL);
  }

  lemma OddKept(a: Word, z: Word)
    ensures Odd(Mix(a, Twice(z))) <==> Odd(a)
  {
  }

  lemma HalfCarries(a: Word, z: Word)
    requires Small(z)
    ensures Half(Mix(a, Twice(z))) == Mix(Half(a), z)
  {
  }

  lemma MixSwaps(a: Word, b: Word, c: Word)
    ensures Mix(Mix(a, b), c) == Mix(Mix(a, c), b)
  {
    hide Mix;
    MixAssociates(a, b, c);
    MixAssociates(a, c, b);
    MixCommutes(b, c);
  }

  lemma MixCommutes(a: Word, b: Word)
    ensures Mix(a, b) == Mix(b, a)
  {
  }

  lemma {:induction false} BitStepsCarry(a: Word, y: Word, n: nat)
    requires forall k :: 0 <= k < n ==> Small(Raised(y, k))
    ensures BitSteps(Mix(a, Raised(y, n)), n) == Mix(BitSteps(a, n), y)
    decreases n
  {
    hide BitStep, Mix, Twice, Small;
    if n > 0 {
      BitStepCarries(a, Raised(y, n - 1));
      BitStepsCarry(BitStep(a), y, n - 1);
    }
  }

  lemma RaisedSmall(y: Word, n: nat)
    requires Short(y) && n < 8
    ensures Small(Raised(y, n))
  {
    hide Twice, Small, Short;
    TwiceSmall(y);
    var y1 := Twice(y);
    var y2 := Twice(y1);
    var y3 := Twice(y2);
    var y4 := Twice(y3);
    var y5 := Twice(y4);
    var y6 := Twice(y5);
    var y7 := Twice(y6);
    assert Raised(y, 1) == y1;
    assert Raised(y, 2) == y2;
    assert Raised(y, 3) == y3;
    assert Raised(y, 4) == y4;
    assert Raised(y, 5) == y5;
    assert Raised(y, 6) == y6;
    assert Raised(y, 7) == y7;
  }

  lemma TwiceSmall(y: Word)
    requires Short(y)
    ensures Small(y) && Small(Twice(y)) && Small(Twice(Twice(y))) && Small(Twice(Twice(Twice(y))))
    ensures Small(Twice(Twice(Twice(Twice(y))))) && Small(Twice(Twice(Twice(Twice(Twice(y))))))
    ensures Small(Twice(Twice(Twice(Twice(Twice(Twice(y)))))))
    ensures Small(Twice(Twice(Twice(Twice(Twice(Twice(Twice(y))))))))
  {
  }

  lemma ByteCarries(a: Word, y: Word)
    requires Short(y)
    ensures BitSteps(Mix(a, Raised(y, 8)), 8) == Mix(BitSteps(a, 8), y)
  {
    hide BitStep, BitSteps, Mix, Raised, Small, Short;
    forall k | 0 <= k < 8
      ensures Small(Raised(y, k))
    {
      RaisedSmall(y, k);
    }
    BitStepsCarry(a, y, 8);
  }

  /** Bytes read as a little-endian number; four of them fill the word. */
  function WordOf(s: seq<Byte>): Word {
    if s == [] then 0 else Mix(Wide(s[0]), Raised(WordOf(s[1..]), 8))
  }

  /** Feeding up to four bytes is adding their number and stepping. */
  lemma {:induction false} Window(c: Word, s: seq<Byte>)
    requires |s| <= 4
    ensures Register(c, s) == BitSteps(Mix(c, WordOf(s)), 8 * |s|)
    decreases |s|
  {
    hide BitStep, BitSteps, Mix, Wide, Raised, Short, Register, WordOf;
    if s == [] {
      Nothing(c);
    } else {
      var b, rest := s[0], s[1..];
      var y, d := WordOf(rest), Mix(c, Wide(b));
      WordShort(rest);
      ByteCarries(d, y);
      Window(ByteStep(c, b), rest);
      RegisterFirst(c, s);
      StepsAdd(Mix(d, Raised(y, 8)), 8, 8 * |rest|);
      MixAssociates(c, Wide(b), Raised(y, 8));
      WordFirst(s);
    }
  }

  lemma Nothing(c: Word)
    ensures Register(c, []) == BitSteps(Mix(c, WordOf([])), 0)
  {
  }

  lemma RegisterFirst(c: Word, s: seq<Byte>)
    requires s != []
    ensures Register(c, s) == Register(ByteStep(c, s[0]), s[1..])
  {
    hide ByteStep;
    RegisterParts(c, s[..1], s[1..]);
    assert s == s[..1] + s[1..];
    assert Register(c, s[..1]) == ByteStep(Register(c, []), s[0]);
  }

  lemma WordFirst(s: seq<Byte>)
    requires s != []
    ensures WordOf(s) == Mix(Wide(s[0]), Raised(WordOf(s[1..]), 8))
  {
  }

  lemma {:induction false} StepsAdd(c: Word, m: nat, n: nat)
    ensures BitSteps(c, m + n) == BitSteps(BitSteps(c, m), n)
    decreases m
  {
    hide BitStep;
    if m > 0 {
      StepsAdd(BitStep(c), m - 1, n);
    }
  }

  lemma MixAssociates(a: Word, b: Word, c: Word)
    ensures Mix(Mix(a, b), c) == Mix(a, Mix(b, c))
  {
  }

  function Up(y: Word): Word {
    y << 8
  }

  lemma RaisedByte(y: Word)
    ensures Raised(y, 8) == Up(y)
  {
    hide Twice;
    assert Raised(y, 1) == Twice(y);
    assert Raised(y, 2) == Twice(Raised(y, 1));
    assert Raised(y, 4) == Twice(Twice(Raised(y, 2)));
    assert Raised(y, 6) == Twice(Twice(Raised(y, 4)));
    assert Raised(y, 8) == Twice(Twice(Raised(y, 6)));
    EightTimes(y);
  }

  lemma EightTimes(y: Word)
    ensures Twice(Twice(Twice(Twice(Twice(Twice(Twice(Twice(y)))))))) == Up(y)
  {
  }

  /** `z` takes at most `n` bytes. */
  ghost predicate Within(z: Word, n: nat) {
    if n == 0 then z == 0
    else if n == 1 then z < 0x100
    else if n == 2 then z < 0x1_0000
    else if n == 3 then Short(z)
    else true
  }

  lemma OneMore(b: Byte, z: Word, n: nat)
    requires Within(z, n)
    ensures Within(Mix(Wide(b), Up(z)), n + 1)
  {
  }

  lemma {:induction false} WordWithin(s: seq<Byte>)
    ensures Within(WordOf(s), |s|)
  {
    hide Mix, Wide, Raised, Short, Up;
    if s == [] {
      NoneWithin();
    } else {
      WordWithin(s[1..]);
      RaisedByte(WordOf(s[1..]));
      OneMore(s[0], WordOf(s[1..]), |s| - 1);
    }
  }

  lemma NoneWithin()
    ensures Within(WordOf([]), 0)
  {
  }

  lemma WordShort(s: seq<Byte>)
    requires |s| <= 3
    ensures Short(WordOf(s))
  {
    hide WordOf;
    WordWithin(s);
  }

  lemma Unmixed(a: Byte, y: Word, b: Byte, z: Word)
    requires Short(y) && Short(z) && Mix(Wide(a), Up(y)) == Mix(Wide(b), Up(z))
    ensures a == b && y == z
  {
  }

  lemma {:induction false} WordInjective(s: seq<Byte>, t: seq<Byte>)
    requires |s| == |t| <= 4 && WordOf(s) == WordOf(t)
    ensures s == t
  {
    hide Mix, Wide, Raised, Short, Up;
    if s != [] {
      var y, z := WordOf(s[1..]), WordOf(t[1..]);
      WordShort(s[1..]);
      WordShort(t[1..]);
      RaisedByte(y);
      RaisedByte(z);
      Unmixed(s[0], y, t[0], z);
      WordInjective(s[1..], t[1..]);
      assert s == [s[0]] + s[1..] && t == [t[0]] + t[1..];
    }
  }

  /** Any change confined to four consecutive bytes changes the checksum, whatever the length. */
  lemma BurstDetected(front: seq<Byte>, s: seq<Byte>, t: seq<Byte>, back: seq<Byte>)
    requires |s| == |t| <= 4 && s != t
    ensures Checksum(front + s + back) != Checksum(front + t + back)
  {
    hide Register, BitSteps, Mix, WordOf, Flipped;
    var c := Register(START, front);
    if WordOf(s) == WordOf(t) {
      WordInjective(s, t);
    }
    XorInjective(WordOf(s), WordOf(t), c);
    Window(c, s);
    Window(c, t);
    if Register(c, s) == Register(c, t) {
      BitStepsInjective(Mix(c, WordOf(s)), Mix(c, WordOf(t)), 8 * |s|);
    }
    RegisterInjective(Register(c, s), Register(c, t), back);
    RegisterParts(START, front, s);
    RegisterParts(START, front, t);
    RegisterParts(START, front + s, back);
    RegisterParts(START, front + t, back);
    FlippedInjective(Register(START, front + s + back), Register(START, front + t + back));
  }

  lemma FlippedInjective(a: Word, b: Word)
    requires a != b
    ensures Flipped(a) != Flipped(b)
  {
    hide Flipped;
    FlippedTwice(a);
    FlippedTwice(b);
  }

  lemma FlippedTwice(a: Word)
    ensures Flipped(Flipped(a)) == a
  {
  }

  // ----- The checksum as stored -----

  /** `to_le_bytes` of a word. */
  function WordBytes(c: Word): (s: seq<Byte>)
    ensures |s| == 4
  {
    [LowByte(c), LowByte(Down(c)), LowByte(Down(Down(c))), LowByte(Down(Down(Down(c))))]
  }

  function LowByte(c: Word): Byte {
    (c & 0xFF) as Byte
  }

  function Down(c: Word): Word {
    c >> 8
  }

  lemma WordRoundTrip(c: Word)
    ensures WordOf(WordBytes(c)) == c
  {
    hide Raised, Mix, Wide, LowByte, Down, Up, WordOf;
    var s := WordBytes(c);
    var w3 := Mix(Wide(s[3]), Up(0));
    var w2 := Mix(Wide(s[2]), Up(w3));
    var w1 := Mix(Wide(s[1]), Up(w2));
    assert s[1..][1..] == s[2..] && s[2..][1..] == s[3..] && s[3..][1..] == [];
    WordNext(s[3..], 0);
    WordNext(s[2..], w3);
    WordNext(s[1..], w2);
    WordNext(s, w1);
    Reassembled(c);
  }

  lemma WordNext(s: seq<Byte>, y: Word)
    requires s != [] && (s[1..] == [] ==> y == 0) && (s[1..] != [] ==> WordOf(s[1..]) == y)
    ensures WordOf(s) == Mix(Wide(s[0]), Up(y))
  {
    hide Raised, Mix, Wide, Up;
    RaisedByte(y);
  }

  lemma Reassembled(c: Word)
    ensures Mix(Wide(LowByte(c)), Up(Mix(Wide(LowByte(Down(c))), Up(
      Mix(Wide(LowByte(Down(Down(c)))), Up(Mix(Wide(LowByte(Down(Down(Down(c))))), Up(0)))))))) == c
  {
  }
}
