/** The bitwise CRC-32 behind the revision digest. */
module Crc32 {
  import opened Prelude
  import CrcBits

  // ----- the algorithm

  /** One bit of the register's own arithmetic. */
  function Shift(c: bv32): bv32 {
    if c & 1 == 1 then (c >> 1) ^ 0xEDB8_8320 else c >> 1
  }

  /** The branch-free form of the same step. */
  lemma MaskedShift(c: bv32)
    ensures (c >> 1) ^ (0xEDB8_8320 & (0 - (c & 1))) == Shift(c)
  {
    LowBit(c);
    if c & 1 == 1 {
      assert 0xEDB8_8320 & (0 - (1 as bv32)) == 0xEDB8_8320;
    } else {
      assert 0xEDB8_8320 & (0 - (0 as bv32)) == 0;
      assert (c >> 1) ^ 0 == c >> 1;
    }
  }

  lemma LowBit(c: bv32)
    ensures c & 1 == 0 || c & 1 == 1
  {
  }

  function Shift8(c: bv32): bv32 {
    Shift(Shift(Shift(Shift(Shift(Shift(Shift(Shift(c))))))))
  }

  function Update(c: bv32, b: byte): bv32 {
    Shift8(c ^ b as bv32)
  }

  function Register(s: seq<byte>, c: bv32): bv32 {
    if s == [] then c else Register(s[1..], Update(c, s[0]))
  }

  function Crc(s: seq<byte>): bv32 {
    0xFFFF_FFFF ^ Register(s, 0xFFFF_FFFF)
  }

  function Shifts(n: nat, c: bv32): bv32 {
    if n == 0 then c else Shifts(n - 1, Shift(c))
  }

  lemma EightShifts(c: bv32)
    ensures Shifts(8, c) == Shift8(c)
  {
    var a := Shift(Shift(c));
    var b := Shift(Shift(a));
    var d := Shift(Shift(b));
    assert Shifts(8, c) == Shifts(7, Shift(c)) == Shifts(6, a);
    assert Shifts(6, a) == Shifts(5, Shift(a)) == Shifts(4, b);
    assert Shifts(4, b) == Shifts(3, Shift(b)) == Shifts(2, d);
    assert Shifts(2, d) == Shifts(1, Shift(d)) == Shifts(0, Shift(Shift(d)));
  }

  /** The step as it is computed, without a branch. */
  function MaskedStep(c: bv32): (r: bv32)
    ensures r == Shift(c)
  {
    MaskedShift(c);
    (c >> 1) ^ (0xEDB8_8320 & (0 - (c & 1)))
  }

  method ShiftByte(start: bv32) returns (crc: bv32)
    ensures crc == Shift8(start)
  {
    EightShifts(start);
    crc := start;
    for k := 0 to 8
      invariant Shifts(8 - k, crc) == Shifts(8, start)
    {
      crc := MaskedStep(crc);
    }
  }

  method Crc32Of(bytes: seq<byte>) returns (r: bv32)
    ensures r == Crc(bytes)
  {
    var crc: bv32 := 0xFFFF_FFFF;
    for i := 0 to |bytes|
      invariant Register(bytes[i..], crc) == Register(bytes, 0xFFFF_FFFF)
    {
      assert bytes[i..][1..] == bytes[i + 1..];
      crc := ShiftByte(crc ^ bytes[i] as bv32);
    }
    r := 0xFFFF_FFFF ^ crc;
  }

  // ----- linearity

  lemma XorHalves(a: bv32, b: bv32)
    ensures (a ^ b) >> 1 == (a >> 1) ^ (b >> 1)
    ensures (a ^ b) & 1 == (a & 1) ^ (b & 1)
  {
  }

  lemma XorBoth(a: bv32, b: bv32, p: bv32)
    ensures (a ^ p) ^ (b ^ p) == a ^ b
  {
  }

  lemma XorOne(a: bv32, b: bv32, p: bv32)
    ensures (a ^ b) ^ p == (a ^ p) ^ b == a ^ (b ^ p)
  {
  }

  lemma ShiftLinear(a: bv32, b: bv32)
    ensures Shift(a ^ b) == Shift(a) ^ Shift(b)
  {
    XorHalves(a, b);
    LowBit(a);
    LowBit(b);
    if a & 1 == 1 && b & 1 == 1 {
      XorBoth(a >> 1, b >> 1, 0xEDB8_8320);
    } else if a & 1 == 1 || b & 1 == 1 {
      XorOne(a >> 1, b >> 1, 0xEDB8_8320);
    }
  }

  lemma ShiftZero(a: bv32)
    ensures Shift(a) == 0 <==> a == 0
  {
  }

  /** The bit step loses nothing. */
  lemma ShiftInjective(a: bv32, b: bv32)
    requires Shift(a) == Shift(b)
    ensures a == b
  {
    ShiftLinear(a, b);
    ShiftZero(a ^ b);
  }

  // ----- the register bit by bit

  /** The word with a one at position `i`. */
  function Single(i: nat): bv32 {
    if i == 0 then 1 else Single(i - 1) << 1
  }

  function ToBits(c: bv32): CrcBits.Word {
    seq(32, i requires 0 <= i < 32 => c & Single(i) != 0)
  }

  lemma Doubled(m: bv32, k: bv32)
    requires m & (m - 1) == 0 && k == m << 1
    ensures k & (k - 1) == 0
  {
  }

  lemma {:induction false} SingleIsOne(i: nat, m: bv32)
    requires m == Single(i)
    ensures m & (m - 1) == 0
  {
    if i > 0 {
      var half := Single(i - 1);
      SingleIsOne(i - 1, half);
      Doubled(half, m);
    }
  }

  lemma {:induction false} SingleOf31()
    ensures Single(31) == 0x8000_0000
  {
    assert Single(4) == 0x10;
    assert Single(8) == 0x100;
    assert Single(12) == 0x1000;
    assert Single(16) == 0x1_0000;
    assert Single(20) == 0x10_0000;
    assert Single(24) == 0x100_0000;
    assert Single(28) == 0x1000_0000;
  }

  lemma SingleNext(i: nat)
    ensures Single(i + 1) == Single(i) << 1
  {
  }

  lemma HalfNotZero(m: bv32, k: bv32)
    requires k == m << 1 && k != 0
    ensures m != 0
  {
  }

  lemma {:induction false} SingleNotZero(i: nat, m: bv32)
    requires i <= 31 && m == Single(i)
    ensures m != 0
    decreases 31 - i
  {
    if i == 31 {
      SingleOf31();
    } else {
      var k := Single(i + 1);
      SingleNotZero(i + 1, k);
      SingleNext(i);
      HalfNotZero(m, k);
    }
  }

  lemma OneBit(a: bv32, m: bv32)
    requires m & (m - 1) == 0
    ensures a & m == 0 || a & m == m
  {
  }

  lemma XorAt(a: bv32, b: bv32, m: bv32)
    requires m & (m - 1) == 0
    ensures ((a ^ b) & m != 0) == ((a & m != 0) != (b & m != 0))
  {
    assert (a ^ b) & m == (a & m) ^ (b & m);
    OneBit(a, m);
    OneBit(b, m);
  }

  lemma XorBits(a: bv32, b: bv32)
    ensures ToBits(a ^ b) == CrcBits.Xor(ToBits(a), ToBits(b))
  {
    forall i | 0 <= i < 32
      ensures ToBits(a ^ b)[i] == CrcBits.Xor(ToBits(a), ToBits(b))[i]
    {
      var m := Single(i);
      SingleIsOne(i, m);
      XorAt(a, b, m);
    }
  }

  lemma HalfAt(c: bv32, m: bv32, above: bv32)
    requires m & (m - 1) == 0 && above == m << 1 && above != 0
    ensures ((c >> 1) & m != 0) == (c & above != 0)
  {
  }

  lemma HalfBits(c: bv32)
    ensures ToBits(c >> 1) == CrcBits.Down(ToBits(c))
  {
    forall i | 0 <= i < 32
      ensures ToBits(c >> 1)[i] == CrcBits.Down(ToBits(c))[i]
    {
      if i == 31 {
        SingleOf31();
        assert (c >> 1) & 0x8000_0000 == 0;
      } else {
        var m, above := Single(i), Single(i + 1);
        SingleIsOne(i, m);
        SingleNotZero(i + 1, above);
        HalfAt(c, m, above);
      }
    }
  }

  /** The reflected generator of clause 3.2.9 of IEEE 802.3, bit by bit. */
  function Generator(): CrcBits.Poly {
    SingleOf31();
    ToBits(0xEDB8_8320)
  }

  /** The word step is the bit step. */
  lemma ShiftIsStep(c: bv32)
    ensures ToBits(Shift(c)) == CrcBits.Step(ToBits(c), Generator())
  {
    HalfBits(c);
    LowBit(c);
    assert ToBits(c)[0] == (c & 1 == 1);
    if c & 1 == 1 {
      XorBits(c >> 1, 0xEDB8_8320);
    }
  }

  lemma {:induction false} ShiftsAreSteps(n: nat, c: bv32)
    ensures ToBits(Shifts(n, c)) == CrcBits.StepN(n, ToBits(c), Generator())
  {
    if n > 0 {
      ShiftIsStep(c);
      ShiftsAreSteps(n - 1, Shift(c));
    }
  }

  // ----- bytes

  function ByteBits(b: byte): seq<bool> {
    ToBits(b as bv32)[..8]
  }

  lemma LowZero(m: bv32, k: bv32)
    requires m & 0xFF == 0 && k == m << 1
    ensures k & 0xFF == 0
  {
  }

  lemma {:induction false} SingleHigh(i: nat, m: bv32)
    requires i >= 8 && m == Single(i)
    ensures m & 0xFF == 0
  {
    if i == 8 {
      assert Single(4) == 0x10;
      assert Single(8) == 0x100;
    } else {
      var half := Single(i - 1);
      SingleHigh(i - 1, half);
      LowZero(half, m);
    }
  }

  lemma Disjoint(x: bv32, m: bv32)
    requires x & 0xFF == x && m & 0xFF == 0
    ensures x & m == 0
  {
  }

  lemma ByteIsLow(b: byte)
    ensures b as bv32 & 0xFF == b as bv32
  {
  }

  lemma PaddedByte(b: byte)
    ensures ToBits(b as bv32) == CrcBits.Pad(ByteBits(b))
  {
    var x := b as bv32;
    ByteIsLow(b);
    forall i | 8 <= i < 32
      ensures !ToBits(x)[i]
    {
      var m := Single(i);
      SingleHigh(i, m);
      Disjoint(x, m);
    }
  }

  /** Updating with a byte is feeding its eight bits. */
  lemma UpdateFeeds(c: bv32, b: byte)
    ensures ToBits(Update(c, b)) == CrcBits.Fed(ByteBits(b), ToBits(c), Generator())
  {
    var x := c ^ b as bv32;
    EightShifts(x);
    ShiftsAreSteps(8, x);
    XorBits(c, b as bv32);
    PaddedByte(b);
    CrcBits.FedIsSteps(ByteBits(b), ToBits(c), Generator());
  }

  function MessageBits(s: seq<byte>): (w: seq<bool>)
    ensures |w| == 8 * |s|
  {
    if s == [] then [] else ByteBits(s[0]) + MessageBits(s[1..])
  }

  lemma {:induction false} RegisterFeeds(s: seq<byte>, c: bv32)
    ensures ToBits(Register(s, c)) == CrcBits.Fed(MessageBits(s), ToBits(c), Generator())
  {
    if s != [] {
      UpdateFeeds(c, s[0]);
      RegisterFeeds(s[1..], Update(c, s[0]));
      CrcBits.FedAppend(ByteBits(s[0]), MessageBits(s[1..]), ToBits(c), Generator());
    }
  }

  lemma {:induction false} SmallSingles()
    ensures Single(0) == 1 && Single(1) == 2 && Single(2) == 4 && Single(3) == 8
    ensures Single(4) == 0x10 && Single(5) == 0x20 && Single(6) == 0x40 && Single(7) == 0x80
  {
    assert Single(3) == 8;
    assert Single(5) == 0x20;
  }

  lemma SameLow(x: bv32, y: bv32)
    requires x & 0xFF == x && y & 0xFF == y
    requires x & 1 == y & 1 && x & 2 == y & 2 && x & 4 == y & 4 && x & 8 == y & 8
    requires x & 0x10 == y & 0x10 && x & 0x20 == y & 0x20 && x & 0x40 == y & 0x40 && x & 0x80 == y & 0x80
    ensures x == y
  {
  }

  lemma SameBit(x: bv32, y: bv32, m: bv32)
    requires m & (m - 1) == 0 && (x & m != 0) == (y & m != 0)
    ensures x & m == y & m
  {
    OneBit(x, m);
    OneBit(y, m);
  }

  lemma SameBitAt(b: byte, d: byte, i: nat)
    requires i < 8 && ByteBits(b) == ByteBits(d)
    ensures b as bv32 & Single(i) == d as bv32 & Single(i)
  {
    var m := Single(i);
    assert ByteBits(b)[i] == ByteBits(d)[i];
    SingleIsOne(i, m);
    SameBit(b as bv32, d as bv32, m);
  }

  lemma SameByte(b: byte, d: byte)
    ensures b as bv32 == d as bv32 ==> b == d
  {
  }

  lemma ByteBitsInjective(b: byte, d: byte)
    requires ByteBits(b) == ByteBits(d)
    ensures b == d
  {
    var x, y := b as bv32, d as bv32;
    forall i | 0 <= i < 8
      ensures x & Single(i) == y & Single(i)
    {
      SameBitAt(b, d, i);
    }
    SmallSingles();
    ByteIsLow(b);
    ByteIsLow(d);
    SameLow(x, y);
    SameByte(b, d);
  }

  lemma {:induction false} MessageBitsInjective(s: seq<byte>, t: seq<byte>)
    requires |s| == |t| && MessageBits(s) == MessageBits(t)
    ensures s == t
  {
    if s != [] {
      assert ByteBits(s[0]) == MessageBits(s)[..8] && ByteBits(t[0]) == MessageBits(t)[..8];
      assert MessageBits(s[1..]) == MessageBits(s)[8..] && MessageBits(t[1..]) == MessageBits(t)[8..];
      ByteBitsInjective(s[0], t[0]);
      MessageBitsInjective(s[1..], t[1..]);
      assert s == [s[0]] + s[1..] && t == [t[0]] + t[1..];
    }
  }

  lemma Complement(a: bv32, b: bv32)
    requires 0xFFFF_FFFF ^ a == 0xFFFF_FFFF ^ b
    ensures a == b
  {
  }

  /** Two different messages of equal length that differ only inside a burst of at most 32 bits have
      different checksums. */
  lemma BurstDetected(s: seq<byte>, t: seq<byte>, from: nat, n: nat)
    requires |s| == |t| && s != t && n <= 32 && from + n <= 8 * |s|
    requires MessageBits(s)[..from] == MessageBits(t)[..from]
    requires MessageBits(s)[from + n..] == MessageBits(t)[from + n..]
    ensures Crc(s) != Crc(t)
  {
    var x, y, r := MessageBits(s), MessageBits(t), ToBits(0xFFFF_FFFF);
    assert x != y by {
      if x == y {
        MessageBitsInjective(s, t);
      }
    }
    CrcBits.BurstDetected(x, y, from, n, r, Generator());
    RegisterFeeds(s, 0xFFFF_FFFF);
    RegisterFeeds(t, 0xFFFF_FFFF);
    if Crc(s) == Crc(t) {
      Complement(Register(s, 0xFFFF_FFFF), Register(t, 0xFFFF_FFFF));
    }
  }

  lemma {:induction false} BitsAppend(s: seq<byte>, t: seq<byte>)
    ensures MessageBits(s + t) == MessageBits(s) + MessageBits(t)
  {
    if s == [] {
      assert s + t == t;
    } else {
      assert (s + t)[1..] == s[1..] + t;
      BitsAppend(s[1..], t);
    }
  }

  /** In particular any change confined to four consecutive bytes is detected. */
  lemma FourByteWindow(prefix: seq<byte>, w: seq<byte>, v: seq<byte>, suffix: seq<byte>)
    requires |w| == |v| <= 4 && w != v
    ensures Crc(prefix + w + suffix) != Crc(prefix + v + suffix)
  {
    var s, t := prefix + w + suffix, prefix + v + suffix;
    BitsAppend(prefix + w, suffix);
    BitsAppend(prefix + v, suffix);
    BitsAppend(prefix, w);
    BitsAppend(prefix, v);
    assert s[|prefix|..|prefix| + |w|] == w && t[|prefix|..|prefix| + |w|] == v;
    BurstDetected(s, t, 8 * |prefix|, 8 * |w|);
  }

  // ----- the published check value

  lemma ThreeBytes(a: byte, b: byte, d: byte, rest: seq<byte>, r0: bv32, r1: bv32, r2: bv32, r3: bv32)
    requires Update(r0, a) == r1 && Update(r1, b) == r2 && Update(r2, d) == r3
    ensures Register([a, b, d] + rest, r0) == Register(rest, r3)
  {
    var s := [a, b, d] + rest;
    assert s[1..][1..][1..] == rest;
    assert Register(s, r0) == Register(s[1..], r1);
    assert Register(s[1..], r1) == Register(s[1..][1..], r2);
  }

  /** The checksum of the digits one to nine is the value that identifies this CRC. */
  lemma CheckValue()
    ensures Crc([0x31, 0x32, 0x33] + ([0x34, 0x35, 0x36] + ([0x37, 0x38, 0x39] + []))) == 0xCBF4_3926
  {
    ThreeBytes(0x31, 0x32, 0x33, [0x34, 0x35, 0x36] + ([0x37, 0x38, 0x39] + []),
               0xFFFF_FFFF, 0x7C23_1048, 0xB0AC_BB32, 0x77B7_9C2D);
    ThreeBytes(0x34, 0x35, 0x36, [0x37, 0x38, 0x39] + [], 0x77B7_9C2D, 0x641C_1F5C, 0x340A_C5E3, 0xF68D_2C9E);
    ThreeBytes(0x37, 0x38, 0x39, [], 0xF68D_2C9E, 0xAFFC_9660, 0x651F_2550, 0x340B_C6D9);
  }
}
