// SHA-1 as FIPS 180-4 states it: padding (section 5.1.1), parsing (5.2.1), the
// initial value (5.3.1), the functions and constants (4.1.1, 4.2.1) and the
// two-phase computation (6.1.2).  This is the reference that Packer.dfy refines.
module Fips180 {

  const IV: seq<bv32> := [0x67452301, 0xefcdab89, 0x98badcfe, 0x10325476, 0xc3d2e1f0]

  // Addition modulo 2^32 (section 3.2).
  function Add(x: bv32, y: bv32): bv32 {
    x + y
  }

  // ROTL of section 3.2.
  function Rotl(x: bv32, n: bv6): bv32
    requires n <= 32
  {
    (x << n) | (x >> (32 - n))
  }

  // f_t of section 4.1.1: Ch, Parity, Maj, Parity.
  function F(t: nat, x: bv32, y: bv32, z: bv32): bv32 {
    if t < 20 then (x & y) ^ (!x & z)
    else if t < 40 then x ^ y ^ z
    else if t < 60 then (x & y) ^ (x & z) ^ (y & z)
    else x ^ y ^ z
  }

  function K(t: nat): bv32 {
    if t < 20 then 0x5a827999
    else if t < 40 then 0x6ed9eba1
    else if t < 60 then 0x8f1bbcdc
    else 0xca62c1d6
  }

  function Expand(w3: bv32, w8: bv32, w14: bv32, w16: bv32): bv32 {
    Rotl(w3 ^ w8 ^ w14 ^ w16, 1)
  }

  // The message schedule: n words prepared from the 16 words of a block.
  function Schedule(m: seq<bv32>, n: nat): (w: seq<bv32>)
    requires |m| == 16
    ensures |w| == n
  {
    if n <= 16 then m[..n]
    else
      var w := Schedule(m, n - 1);
      w + [Expand(w[n - 4], w[n - 9], w[n - 15], w[n - 17])]
  }

  datatype Vars = Vars(a: bv32, b: bv32, c: bv32, d: bv32, e: bv32)

  function Round(v: Vars, t: nat, w: bv32): Vars {
    Vars(Add(Add(Add(Add(Rotl(v.a, 5), F(t, v.b, v.c, v.d)), v.e), K(t)), w), v.a, Rotl(v.b, 30), v.c, v.d)
  }

  function Rounds(v: Vars, w: seq<bv32>, t: nat): Vars
    requires t <= |w|
  {
    if t == 0 then v else Round(Rounds(v, w, t - 1), t - 1, w[t - 1])
  }

  function Start(h: seq<bv32>): Vars
    requires |h| == 5
  {
    Vars(h[0], h[1], h[2], h[3], h[4])
  }

  // One step of section 6.1.2: prepare all 80 words first, then run the 80 rounds.
  function Compress(h: seq<bv32>, m: seq<bv32>): (r: seq<bv32>)
    requires |h| == 5 && |m| == 16
    ensures |r| == 5
  {
    var v := Rounds(Start(h), Schedule(m, 80), 80);
    [Add(h[0], v.a), Add(h[1], v.b), Add(h[2], v.c), Add(h[3], v.d), Add(h[4], v.e)]
  }

  function BigEndian(b0: bv8, b1: bv8, b2: bv8, b3: bv8): bv32 {
    ((b0 as bv32) << 24) | ((b1 as bv32) << 16) | ((b2 as bv32) << 8) | (b3 as bv32)
  }

  function Words(b: seq<bv8>): (m: seq<bv32>)
    requires |b| == 64
    ensures |m| == 16
  {
    seq(16, i requires 0 <= i < 16 =>
      BigEndian(b[4 * i], b[4 * i + 1], b[4 * i + 2], b[4 * i + 3]))
  }

  // The hash value after all 64-byte blocks of b.
  function Blocks(b: seq<bv8>): (h: seq<bv32>)
    requires |b| % 64 == 0
    ensures |h| == 5
  {
    if |b| == 0 then IV
    else Compress(Blocks(b[..|b| - 64]), Words(b[|b| - 64..]))
  }

  // FIPS 180-4 hashes messages of fewer than 2^64 bits.
  const LIMIT: nat := 0x2000_0000_0000_0000

  function Byte(x: nat): bv8 {
    (x % 0x100) as bv8
  }

  // A length below 2^64 as a 64-bit block, most significant byte first.
  function LengthBytes(l: nat): (b: seq<bv8>)
    requires l < 8 * LIMIT
    ensures |b| == 8
  {
    [Byte(l / 0x100_0000_0000_0000), Byte(l / 0x1_0000_0000_0000),
     Byte(l / 0x100_0000_0000), Byte(l / 0x1_0000_0000),
     Byte(l / 0x100_0000), Byte(l / 0x1_0000), Byte(l / 0x100), Byte(l)]
  }

  function Zeros(n: nat): (z: seq<bv8>)
    ensures |z| == n
  {
    seq(n, i => 0)
  }

  // The marker byte and the smallest number of zero bytes that leaves room for the length.
  function Filler(n: nat): (f: seq<bv8>)
    ensures (n + |f| + 8) % 64 == 0 && 1 <= |f| <= 64
  {
    [0x80] + Zeros((55 - n) % 64)
  }

  function Pad(msg: seq<bv8>): (p: seq<bv8>)
    requires |msg| < LIMIT
    ensures |p| % 64 == 0
  {
    msg + Filler(|msg|) + LengthBytes(8 * |msg|)
  }

  function Bytes(w: bv32): (b: seq<bv8>)
    ensures |b| == 4
  {
    [((w >> 24) & 0xff) as bv8, ((w >> 16) & 0xff) as bv8, ((w >> 8) & 0xff) as bv8, (w & 0xff) as bv8]
  }

  function Digest(h: seq<bv32>): (d: seq<bv8>)
    requires |h| == 5
    ensures |d| == 20
  {
    Bytes(h[0]) + Bytes(h[1]) + Bytes(h[2]) + Bytes(h[3]) + Bytes(h[4])
  }

  function Sha1(msg: seq<bv8>): (d: seq<bv8>)
    requires |msg| < LIMIT
    ensures |d| == 20
  {
    Digest(Blocks(Pad(msg)))
  }

  // The recurrence of section 6.1.2 holds at every place of the finished schedule.
  lemma {:induction false} ScheduleRecurrence(m: seq<bv32>, n: nat, t: nat)
    requires |m| == 16 && t < n
    ensures Schedule(m, n)[t] ==
            if t < 16 then m[t]
            else Expand(Schedule(m, n)[t - 3], Schedule(m, n)[t - 8], Schedule(m, n)[t - 14], Schedule(m, n)[t - 16])
  {
    hide Expand;
    if n > 16 && t < n - 1 {
      ScheduleRecurrence(m, n - 1, t);
    }
  }

  // ----- values that the standard and its published example give -----

  // The constants are the first 32 bits of the square roots of 2, 3, 5 and 10, over 4.
  lemma ConstantsAreRoots()
    ensures IsRoot(K(0) as int, 2) && IsRoot(K(20) as int, 3) && IsRoot(K(40) as int, 5) && IsRoot(K(60) as int, 10)
    ensures forall t: nat :: K(t) == K(if t < 80 then t / 20 * 20 else 60)
  {
    assert K(0) as int == 0x5a827999 && K(20) as int == 0x6ed9eba1;
    assert K(40) as int == 0x8f1bbcdc && K(60) as int == 0xca62c1d6;
  }

  // k / 2^30 is the square root of n, rounded down.
  predicate IsRoot(k: int, n: int) {
    k * k <= n * 0x1000_0000_0000_0000 < (k + 1) * (k + 1)
  }

  // The initial value counts up and down in its bytes, lowest byte first.
  lemma InitialValueCounts()
    ensures Bytes(IV[0]) == [0x67, 0x45, 0x23, 0x01] && Bytes(IV[1]) == [0xef, 0xcd, 0xab, 0x89]
    ensures Bytes(IV[2]) == [0x98, 0xba, 0xdc, 0xfe] && Bytes(IV[3]) == [0x10, 0x32, 0x54, 0x76]
    ensures Bytes(IV[4]) == [0xc3, 0xd2, 0xe1, 0xf0]
  {
  }

  // The functions on the eight combinations of bits.
  lemma FunctionTables(t: nat)
    ensures F(t, 0xf0, 0xcc, 0xaa) & 0xff == if t < 20 then 0xca else if 40 <= t < 60 then 0xe8 else 0x96
  {
  }

  // The message "abc": its first word, its length, the first expanded word and the first round.
  lemma ExampleWords()
    ensures BigEndian(0x61, 0x62, 0x63, 0x80) == 0x6162_6380
    ensures Expand(0, 0, 0, 0x6162_6380) == 0xc2c4_c700
  {
  }

  // Lengths are written with the most significant byte first.
  lemma ExampleLengths()
    ensures LengthBytes(0x0102_0304)[4..] == [1, 2, 3, 4]
    ensures LengthBytes(0x0102_0304_0000_0000)[..4] == [1, 2, 3, 4]
  {
    hide Byte;
    OneAndTwo();
    ThreeAndFour();
    LowByte(0x0102);
    LowByte(0x01_0203);
    LowByte(0x0102_0304);
  }

  lemma LowByte(x: nat)
    ensures Byte(x) == Byte(x % 0x100)
  {
  }

  lemma OneAndTwo()
    ensures Byte(1) == 1 && Byte(2) == 2
  {
  }

  lemma ThreeAndFour()
    ensures Byte(3) == 3 && Byte(4) == 4
  {
  }

  // The message comes first, then the marker, zeros and the length, in as few blocks as hold
  // them.
  lemma PadExactly(msg: seq<bv8>, i: nat)
    requires |msg| < LIMIT && i < |Pad(msg)|
    ensures var p, n := Pad(msg), |msg|;
            && |p| % 64 == 0 && n + 9 <= |p| < n + 9 + 64
            && p[|p| - 8..] == LengthBytes(8 * n)
            && (i < |p| - 8 ==> p[i] == if i < n then msg[i] else if i == n then 0x80 else 0)
  {
    hide LengthBytes;
  }

  lemma ExampleRotations()
    ensures Rotl(0x6745_2301, 5) == 0xe8a4_602c && Rotl(0xefcd_ab89, 30) == 0x7bf3_6ae2
    ensures F(0, 0xefcd_ab89, 0x98ba_dcfe, 0x1032_5476) == 0x98ba_dcfe
  {
  }

  lemma ExampleRound()
    ensures Round(Start(IV), 0, 0x6162_6380) == Vars(0x0116_fc33, 0x6745_2301, 0x7bf3_6ae2, 0x98ba_dcfe, 0x1032_5476)
  {
    ExampleRotations();
    assert Add(Add(Add(Add(0xe8a4_602c, 0x98ba_dcfe), 0xc3d2_e1f0), 0x5a82_7999), 0x6162_6380) == 0x0116_fc33;
    hide Rotl, F, Add;
  }
}
