// Fixed-width unsigned words as the C++ code uses them: wrap-around arithmetic, bitwise
// operations, little-endian layout in a buffer and the byte order swap of htonl and htons.
module Words {
  const W32 := 0x1_0000_0000

  type byte = x: int | 0 <= x < 0x100
  type u16 = x: int | 0 <= x < 0x1_0000
  type u32 = x: int | 0 <= x < 0x1_0000_0000

  function Add(a: u32, b: u32): u32 {
    if a + b < W32 then a + b else a + b - W32
  }

  function Sub(a: u32, b: u32): u32 {
    if b <= a then a - b else a - b + W32
  }

  function And(a: u32, b: u32): u32 {
    Masked(a as bv32, b as bv32) as int
  }

  function Masked(a: bv32, b: bv32): bv32 {
    a & b
  }

  lemma AddSub(a: u32, b: u32)
    ensures Sub(Add(a, b), b) == a && Add(Sub(a, b), b) == a
  {
  }

  // A word read as a number and put back is the same word.
  lemma Reread(b: bv32)
    ensures 0 <= b as int < W32 && (b as int) as bv32 == b
  {
  }

  lemma MaskedLaw(a: bv32, b: bv32)
    ensures Masked(a, b) == a & b && Masked(a, b) == Masked(b, a)
  {
  }

  lemma AndLaw(x: bv32, y: bv32)
    ensures And(x as int, y as int) == (x & y) as int
  {
    MaskedLaw(x, y);
    hide Masked;
    Reread(x);
    Reread(y);
  }

  lemma AndAll(x: bv32)
    ensures And(x as int, 0xFFFF_FFFF) == x as int
  {
    AndLaw(x, 0xFFFF_FFFF);
    hide Masked;
    assert x & 0xFFFF_FFFF == x;
  }

  lemma AndZero(a: u32)
    ensures And(a, 0) == 0
  {
    assert (a as bv32) & 0 == 0;
  }

  // A u32 stored in memory, least significant byte first, and read back.
  function Le32(w: u32): (s: seq<byte>)
    ensures |s| == 4
  {
    var w1 := w / 0x100;
    var w2 := w1 / 0x100;
    var w3 := w2 / 0x100;
    [Low(w), Low(w1), Low(w2), Low(w3)]
  }

  function Low(w: nat): byte {
    w % 0x100
  }

  function FromLe32(s: seq<byte>): u32
    requires |s| == 4
  {
    s[0] as int + 0x100 * (s[1] as int + 0x100 * (s[2] as int + 0x100 * (s[3] as int)))
  }

  function Le16(w: u16): (s: seq<byte>)
    ensures |s| == 2
  {
    [Low(w), Low(w / 0x100)]
  }

  function FromLe16(s: seq<byte>): u16
    requires |s| == 2
  {
    s[0] as int + 0x100 * (s[1] as int)
  }

  lemma LowHigh(b: byte, rest: nat)
    ensures Low(b + 0x100 * rest) == b && (b + 0x100 * rest) / 0x100 == rest
  {
  }

  lemma Split(w: nat)
    ensures w == Low(w) + 0x100 * (w / 0x100)
  {
  }

  lemma Le32RoundTrip(w: u32)
    ensures FromLe32(Le32(w)) == w
  {
    hide Low;
    var w1 := w / 0x100;
    var w2 := w1 / 0x100;
    Split(w);
    Split(w1);
    Split(w2);
    assert w2 / 0x100 < 0x100;
    LowHigh(w2 / 0x100, 0);
  }

  lemma Le32RoundTripBytes(s: seq<byte>)
    requires |s| == 4
    ensures Le32(FromLe32(s)) == s
  {
    hide Low;
    var s0: int, s1: int, s2: int, s3: int := s[0], s[1], s[2], s[3];
    LowHigh(s0, s1 + 0x100 * (s2 + 0x100 * s3));
    LowHigh(s1, s2 + 0x100 * s3);
    LowHigh(s2, s3);
    LowHigh(s3, 0);
  }

  lemma Le16RoundTrip(w: u16)
    ensures FromLe16(Le16(w)) == w
  {
  }

  // htonl and htons on the little-endian hosts the program is built for.
  function Swap32(w: u32): u32 {
    var s := Le32(w);
    FromLe32([s[3], s[2], s[1], s[0]])
  }

  function Swap16(w: u16): u16 {
    w % 0x100 * 0x100 + w / 0x100
  }

  // What the bytes of a word are worth, in memory order and swapped.
  lemma ByteOrder(a: byte, b: byte, c: byte, d: byte)
    ensures var w := a as int + 0x100 * (b as int) + 0x1_0000 * (c as int) + 0x100_0000 * (d as int);
            && 0 <= w < W32 && FromLe32([a, b, c, d]) == w && Le32(w) == [a, b, c, d]
            && Swap32(w) == d as int + 0x100 * (c as int) + 0x1_0000 * (b as int) + 0x100_0000 * (a as int)
    ensures Swap16(a as int + 0x100 * (b as int)) == b as int + 0x100 * (a as int)
  {
    Le32RoundTripBytes([a, b, c, d]);
    hide Le32;
  }

  lemma Swap32Involution(w: u32)
    ensures Swap32(Swap32(w)) == w
  {
    var s := Le32(w);
    var t := [s[3], s[2], s[1], s[0]];
    Le32RoundTripBytes(t);
    Le32RoundTrip(w);
    assert [t[3], t[2], t[1], t[0]] == s;
  }

  lemma SwapZero()
    ensures Swap32(0) == 0 && Swap16(0) == 0
  {
  }

  lemma Swap16Involution(w: u16)
    ensures Swap16(Swap16(w)) == w
  {
  }
}
