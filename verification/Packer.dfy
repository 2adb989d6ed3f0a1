// The SHA-1 digest of the update packer.  Words are bv32; the uint32 counters are
// integers below UINT32 with the wrap-around of their additions written out.
module Packer {
  import opened Fips180

  const UINT32: int := 0x1_0000_0000

  function Add32(x: int, y: int): int {
    (x + y) % UINT32
  }

  // len << 3 on a uint32.
  function ShiftLeft3(len: nat): nat {
    8 * len % UINT32
  }

  // The four bytes of a uint32, and its bit pattern as a word.
  function UintBytes(n: nat): (b: seq<bv8>)
    ensures |b| == 4
  {
    [Byte(n / 0x100_0000), Byte(n / 0x1_0000), Byte(n / 0x100), Byte(n)]
  }

  function UintWord(n: nat): bv32 {
    BigEndian(UintBytes(n)[0], UintBytes(n)[1], UintBytes(n)[2], UintBytes(n)[3])
  }

  function Sha1Shift(v: bv32, shift: bv6): bv32
    requires shift <= 32
  {
    (v << shift) | (v >> (32 - shift))
  }

  // The schedule word computed inside a round.
  function NextWord(w3: bv32, w8: bv32, w14: bv32, w16: bv32): bv32 {
    Sha1Shift(w3 ^ w8 ^ w14 ^ w16, 1)
  }

  lemma SameShift(v: bv32, shift: bv6)
    requires shift <= 32
    ensures Sha1Shift(v, shift) == Rotl(v, shift)
  {
  }

  lemma SameWord(w3: bv32, w8: bv32, w14: bv32, w16: bv32)
    ensures NextWord(w3, w8, w14, w16) == Expand(w3, w8, w14, w16)
  {
    hide Sha1Shift, Rotl;
    SameShift(w3 ^ w8 ^ w14 ^ w16, 1);
  }

  // The logical functions of the loops, in the OR forms of the code.
  function Choice(b: bv32, c: bv32, d: bv32): bv32 {
    (b & c) | (!b & d)
  }

  function Majority(b: bv32, c: bv32, d: bv32): bv32 {
    (b & c) | (b & d) | (c & d)
  }

  function Parity(b: bv32, c: bv32, d: bv32): bv32 {
    b ^ c ^ d
  }

  // In its own rounds each is the f_t of the standard.
  lemma SameChoice(t: nat, b: bv32, c: bv32, d: bv32)
    requires t < 20
    ensures Choice(b, c, d) == F(t, b, c, d)
    ensures K(t) == 0x5a827999
  {
    assert (b & c) | (!b & d) == F(t, b, c, d);
  }

  lemma SameMajority(t: nat, b: bv32, c: bv32, d: bv32)
    requires 40 <= t < 60
    ensures Majority(b, c, d) == F(t, b, c, d)
    ensures K(t) == 0x8f1bbcdc
  {
    assert (b & c) | (b & d) | (c & d) == F(t, b, c, d);
  }

  lemma SameParity(t: nat, b: bv32, c: bv32, d: bv32)
    requires 20 <= t < 40 || 60 <= t
    ensures Parity(b, c, d) == F(t, b, c, d)
    ensures K(t) == if t < 40 then 0x6ed9eba1 else 0xca62c1d6
  {
  }

  // One round: the assignments of the macro in their order, on the five variables of v.
  method ShiftSwap(v: Vars, f: bv32, k: bv32, w: bv32, ghost round: nat) returns (u: Vars)
    requires f == F(round, v.b, v.c, v.d) && k == K(round)
    ensures u == Round(v, round, w)
  {
    hide F, K, Add, Rotl, Sha1Shift;
    var a, b, c, d, e := v.a, v.b, v.c, v.d, v.e;
    SameShift(a, 5);
    SameShift(b, 30);
    var t := Add(Add(Add(Add(Sha1Shift(a, 5), f), e), k), w);
    e := d;
    d := c;
    c := Sha1Shift(b, 30);
    b := a;
    a := t;
    u := Vars(a, b, c, d, e);
  }

  // The first n words of temp are those of the schedule of block m.
  ghost predicate Filled(temp: array<bv32>, m: seq<bv32>, n: nat)
    requires temp.Length == 80 && |m| == 16 && n <= 80
    reads temp
  {
    temp[..n] == Schedule(m, 80)[..n]
  }

  // One round of the later loops: the schedule word is computed in place first.
  method ShiftShiftSwap(temp: array<bv32>, round: nat, v: Vars, f: bv32, k: bv32, ghost m: seq<bv32>)
    returns (u: Vars)
    requires temp.Length == 80 && |m| == 16 && 16 <= round < 80
    requires Filled(temp, m, round)
    requires f == F(round, v.b, v.c, v.d) && k == K(round)
    modifies temp
    ensures Filled(temp, m, round + 1)
    ensures u == Round(v, round, Schedule(m, 80)[round])
  {
    hide F, K, Rotl, Add, Sha1Shift, Round, Schedule, Expand, NextWord;
    ghost var w := Schedule(m, 80);
    assert forall i :: 0 <= i < round ==> temp[..round][i] == w[..round][i];
    ScheduleRecurrence(m, 80, round);
    SameWord(w[round - 3], w[round - 8], w[round - 14], w[round - 16]);
    temp[round] := NextWord(temp[round - 3], temp[round - 8], temp[round - 14], temp[round - 16]);
    u := ShiftSwap(v, f, k, temp[round], round);
    assert temp[..round + 1] == temp[..round] + [temp[round]];
    assert w[..round + 1] == w[..round] + [w[round]];
  }

  // The additions to the chaining value that end a block.
  method AddTo(sha: array<bv32>, v: Vars)
    requires sha.Length == 5
    modifies sha
    ensures var h := old(sha[..]);
            sha[..] == [Add(h[0], v.a), Add(h[1], v.b), Add(h[2], v.c), Add(h[3], v.d), Add(h[4], v.e)]
  {
    hide Add;
    sha[0] := Add(sha[0], v.a);
    sha[1] := Add(sha[1], v.b);
    sha[2] := Add(sha[2], v.c);
    sha[3] := Add(sha[3], v.d);
    sha[4] := Add(sha[4], v.e);
  }

  // One block.  Words 16 to 79 of temp on entry do not occur in the result.
  method Sha1PartHash(sha: array<bv32>, temp: array<bv32>)
    requires sha.Length == 5 && temp.Length == 80
    requires sha != temp
    modifies sha, temp
    ensures sha[..] == Compress(old(sha[..]), old(temp[..16]))
    ensures temp[..16] == old(temp[..16])
  {
    hide F, K, Rotl, Add, Sha1Shift, Round, Schedule, Choice, Majority, Parity;
    ghost var h, m := sha[..], temp[..16];
    ghost var w := Schedule(m, 80);
    var v, round := Vars(sha[0], sha[1], sha[2], sha[3], sha[4]), 0;
    assert w[..16] == m by {
      forall i | 0 <= i < 16 ensures m[i] == w[i] {
        ScheduleRecurrence(m, 80, i);
      }
    }
    while round < 16
      invariant 0 <= round <= 16
      invariant temp[..16] == m && sha[..] == h
      invariant v == Rounds(Start(h), w, round)
    {
      assert temp[round] == m[round] == w[round];
      SameChoice(round, v.b, v.c, v.d);
      v := ShiftSwap(v, Choice(v.b, v.c, v.d), 0x5a827999, temp[round], round);
      round := round + 1;
    }
    while round < 20
      invariant 16 <= round <= 20
      invariant Filled(temp, m, round) && sha[..] == h
      invariant v == Rounds(Start(h), w, round)
    {
      SameChoice(round, v.b, v.c, v.d);
      v := ShiftShiftSwap(temp, round, v, Choice(v.b, v.c, v.d), 0x5a827999, m);
      round := round + 1;
    }
    while round < 40
      invariant 20 <= round <= 40
      invariant Filled(temp, m, round) && sha[..] == h
      invariant v == Rounds(Start(h), w, round)
    {
      SameParity(round, v.b, v.c, v.d);
      v := ShiftShiftSwap(temp, round, v, Parity(v.b, v.c, v.d), 0x6ed9eba1, m);
      round := round + 1;
    }
    while round < 60
      invariant 40 <= round <= 60
      invariant Filled(temp, m, round) && sha[..] == h
      invariant v == Rounds(Start(h), w, round)
    {
      SameMajority(round, v.b, v.c, v.d);
      v := ShiftShiftSwap(temp, round, v, Majority(v.b, v.c, v.d), 0x8f1bbcdc, m);
      round := round + 1;
    }
    while round < 80
      invariant 60 <= round <= 80
      invariant Filled(temp, m, round) && sha[..] == h
      invariant v == Rounds(Start(h), w, round)
    {
      SameParity(round, v.b, v.c, v.d);
      v := ShiftShiftSwap(temp, round, v, Parity(v.b, v.c, v.d), 0xca62c1d6, m);
      round := round + 1;
    }
    assert temp[..16] == w[..80][..16];
    AddTo(sha, v);
  }

  // The four bytes of a word, in the order in which the code joins them.
  function LoadWord(b0: bv8, b1: bv8, b2: bv8, b3: bv8): bv32 {
    (b3 as bv32) | ((b2 as bv32) << 8) | ((b1 as bv32) << 16) | ((b0 as bv32) << 24)
  }

  lemma SameLoad(b0: bv8, b1: bv8, b2: bv8, b3: bv8)
    ensures LoadWord(b0, b1, b2, b3) == BigEndian(b0, b1, b2, b3)
  {
  }

  // Byte number last of the block, shifted to its place in word last / 4: the shift
  // (3 - (last & 3)) << 3 is 24, 16, 8 or 0.
  function Place(b: bv8, last: nat): bv32 {
    if last % 4 == 0 then (b as bv32) << 24
    else if last % 4 == 1 then (b as bv32) << 16
    else if last % 4 == 2 then (b as bv32) << 8
    else b as bv32
  }

  lemma Place0(b1: bv8, b2: bv8, b3: bv8, v: bv8, last: nat)
    requires last % 4 == 0
    ensures BigEndian(0, b1, b2, b3) | Place(v, last) == BigEndian(v, b1, b2, b3)
  {
  }

  lemma Place1(b0: bv8, b2: bv8, b3: bv8, v: bv8, last: nat)
    requires last % 4 == 1
    ensures BigEndian(b0, 0, b2, b3) | Place(v, last) == BigEndian(b0, v, b2, b3)
  {
  }

  lemma Place2(b0: bv8, b1: bv8, b3: bv8, v: bv8, last: nat)
    requires last % 4 == 2
    ensures BigEndian(b0, b1, 0, b3) | Place(v, last) == BigEndian(b0, b1, v, b3)
  {
  }

  lemma Place3(b0: bv8, b1: bv8, b2: bv8, v: bv8, last: nat)
    requires last % 4 == 3
    ensures BigEndian(b0, b1, b2, 0) | Place(v, last) == BigEndian(b0, b1, b2, v)
  {
  }

  // ORing a byte into its zero place in word j.
  lemma PutInWord(s: seq<bv8>, k: nat, j: nat, v: bv8)
    requires |s| == 64 && 4 * j <= k < 4 * j + 4 <= 64 && s[k] == 0
    ensures var t := s[k := v];
            BigEndian(s[4 * j], s[4 * j + 1], s[4 * j + 2], s[4 * j + 3]) | Place(v, k) ==
            BigEndian(t[4 * j], t[4 * j + 1], t[4 * j + 2], t[4 * j + 3])
  {
    hide BigEndian, Place;
    var b0, b1, b2, b3 := s[4 * j], s[4 * j + 1], s[4 * j + 2], s[4 * j + 3];
    if
    case k == 4 * j => Place0(b1, b2, b3, v, k);
    case k == 4 * j + 1 => Place1(b0, b2, b3, v, k);
    case k == 4 * j + 2 => Place2(b0, b1, b3, v, k);
    case k == 4 * j + 3 => Place3(b0, b1, b2, v, k);
  }

  lemma WordAt(s: seq<bv8>, j: nat)
    requires |s| == 64 && j < 16
    ensures Words(s)[j] == BigEndian(s[4 * j], s[4 * j + 1], s[4 * j + 2], s[4 * j + 3])
  {
    hide BigEndian;
  }

  lemma PutByte(s: seq<bv8>, k: nat, v: bv8)
    requires |s| == 64 && k < 64 && s[k] == 0
    ensures Words(s[k := v]) == Words(s)[k / 4 := Words(s)[k / 4] | Place(v, k)]
  {
    hide BigEndian, Place, Words;
    forall i | 0 <= i < 16
      ensures Words(s[k := v])[i] == if i == k / 4 then Words(s)[i] | Place(v, k) else Words(s)[i]
    {
      WordAt(s, i);
      WordAt(s[k := v], i);
      if i == k / 4 {
        PutInWord(s, k, i, v);
      }
    }
  }

  lemma ZeroWords()
    ensures Words(Zeros(64)) == seq(16, i => 0)
  {
    assert BigEndian(0, 0, 0, 0) == 0;
  }

  // Overwriting the last word of a block whose last four bytes are t.
  lemma PutWord(s: seq<bv8>, t: seq<bv8>, u: seq<bv8>)
    requires |s| == 60 && |t| == 4 && |u| == 4
    ensures Words(s + u) == Words(s + t)[15 := BigEndian(u[0], u[1], u[2], u[3])]
  {
    hide BigEndian;
    var x, y := s + t, s + u;
    assert forall i :: 0 <= i < 60 ==> x[i] == y[i];
    assert y[60] == u[0] && y[61] == u[1] && y[62] == u[2] && y[63] == u[3];
  }

  lemma NoBlocks()
    ensures Blocks([]) == IV
  {
  }

  lemma OneMoreBlock(b: seq<bv8>, c: seq<bv8>)
    requires |b| % 64 == 0 && |c| == 64
    ensures Blocks(b + c) == Compress(Blocks(b), Words(c))
  {
    hide Compress, Words;
    assert (b + c)[..|b + c| - 64] == b && (b + c)[|b + c| - 64..] == c;
  }

  // The first n bytes of r in a block of zeros.
  function Partial(r: seq<bv8>, n: nat): (s: seq<bv8>)
    requires n <= |r| < 64
    ensures |s| == 64
  {
    r[..n] + Zeros(64 - n)
  }

  function Marked(r: seq<bv8>): (s: seq<bv8>)
    requires |r| < 64
    ensures |s| == 64
  {
    r + [0x80] + Zeros(63 - |r|)
  }

  // What the code hashes: the padded message, with a length word of 32 bits only.
  function CodePad(msg: seq<bv8>): (p: seq<bv8>)
    requires |msg| < UINT32
    ensures |p| % 64 == 0
  {
    msg + Filler(|msg|) + Zeros(4) + UintBytes(ShiftLeft3(|msg|))
  }

  // The inner loop that reads one block and moves block to end.
  method LoadBlock(data: array<bv8>, start: nat, end: nat, temp: array<bv32>) returns (block: nat)
    requires end == start + 64 <= data.Length && temp.Length == 80
    modifies temp
    ensures block == end
    ensures temp[..16] == Words(data[start..end])
  {
    hide BigEndian, LoadWord;
    ghost var c := data[start..end];
    var i := 0;
    block := start;
    while block < end
      invariant 0 <= i <= 16 && block == start + 4 * i
      invariant forall j :: 0 <= j < i ==> temp[j] == Words(c)[j]
    {
      SameLoad(data[block], data[block + 1], data[block + 2], data[block + 3]);
      temp[i] := LoadWord(data[block], data[block + 1], data[block + 2], data[block + 3]);
      block := block + 4;
      i := i + 1;
    }
  }

  method ClearBlock(temp: array<bv32>)
    requires temp.Length == 80
    modifies temp
    ensures temp[..16] == Words(Zeros(64))
  {
    forall i | 0 <= i < 16 {
      temp[i] := 0;
    }
    ZeroWords();
  }

  method OrByte(temp: array<bv32>, last: nat, b: bv8, ghost s: seq<bv8>)
    requires temp.Length == 80 && last < 64
    requires |s| == 64 && s[last] == 0 && temp[..16] == Words(s)
    modifies temp
    ensures temp[..16] == Words(s[last := b])
  {
    hide Place, Words;
    PutByte(s, last, b);
    temp[last / 4] := temp[last / 4] | Place(b, last);
  }

  // The bytes left over after the whole blocks, ORed one by one into a zero block.
  method FillTail(data: array<bv8>, block: nat, end: nat, temp: array<bv32>)
    requires block + end <= data.Length && end < 64 && temp.Length == 80
    requires temp[..16] == Words(Zeros(64))
    modifies temp
    ensures temp[..16] == Words(Marked(data[block..block + end]))
  {
    hide Words;
    ghost var r := data[block..block + end];
    assert Partial(r, 0) == Zeros(64);
    var last := 0;
    while last < end
      invariant 0 <= last <= end
      invariant temp[..16] == Words(Partial(r, last))
    {
      OrByte(temp, last, data[last + block], Partial(r, last));
      assert Partial(r, last)[last := r[last]] == Partial(r, last + 1);
      last := last + 1;
    }
    OrByte(temp, last, 0x80, Partial(r, last));
    assert Partial(r, last)[last := 0x80] == Marked(r);
  }

  // Byte i of the digest, taken from its word: the shift ((3 - i) & 3) << 3 on an int32
  // is 24, 16, 8 or 0.
  function OutByte(w: bv32, i: nat): bv8 {
    if (3 - i) % 4 == 3 then ((w >> 24) & 0xff) as bv8
    else if (3 - i) % 4 == 2 then ((w >> 16) & 0xff) as bv8
    else if (3 - i) % 4 == 1 then ((w >> 8) & 0xff) as bv8
    else (w & 0xff) as bv8
  }

  lemma OutByteOfWord(w: bv32, i: nat)
    ensures OutByte(w, i) == Bytes(w)[i % 4]
  {
  }

  lemma DigestAt(sha: seq<bv32>, i: nat)
    requires |sha| == 5 && i < 20
    ensures Digest(sha)[i] == OutByte(sha[i / 4], i)
  {
    hide OutByte, Bytes;
    OutByteOfWord(sha[i / 4], i);
    var j := i / 4;
    assert j == 0 || j == 1 || j == 2 || j == 3 || j == 4;
  }

  method WriteDigest(sha: array<bv32>, dest: array<bv8>)
    requires sha.Length == 5 && dest.Length >= 20
    modifies dest
    ensures dest[..20] == Digest(sha[..])
    ensures dest[20..] == old(dest[20..])
  {
    hide OutByte, Digest;
    var i := 19;
    while i >= 0
      invariant -1 <= i <= 19
      invariant forall j :: i < j < 20 ==> dest[j] == Digest(sha[..])[j]
      invariant dest[20..] == old(dest[20..])
    {
      DigestAt(sha[..], i);
      dest[i] := OutByte(sha[i / 4], i);
      i := i - 1;
    }
  }

  lemma ByteZero(x: nat)
    requires x < 8
    ensures Byte(x) == 0 <==> x == 0
  {
  }

  // The high half of the bit length is zero exactly when the message is short.
  lemma HighBytes(n: nat)
    requires n < UINT32
    ensures LengthBytes(8 * n)[..4] == Zeros(4) <==> n < 0x2000_0000
  {
    hide Byte;
    ByteZero(0);
    ByteZero(8 * n / 0x1_0000_0000);
    var b := LengthBytes(8 * n);
    assert b[0] == Byte(0) && b[1] == Byte(0) && b[2] == Byte(0) && b[3] == Byte(8 * n / 0x1_0000_0000);
    assert b[..4] == [b[0], b[1], b[2], b[3]];
    assert Zeros(4) == [0, 0, 0, 0];
  }

  lemma ByteModulo(x: nat, y: nat)
    requires x % 0x100 == y % 0x100
    ensures Byte(x) == Byte(y)
  {
  }

  // The low half is what the wrapping shift leaves.
  lemma LowBytes(n: nat)
    requires n < UINT32
    ensures LengthBytes(8 * n)[4..] == UintBytes(ShiftLeft3(n))
  {
    hide Byte;
    var l, s := 8 * n, ShiftLeft3(n);
    var q := l / UINT32;
    assert l == s + UINT32 * q;
    Digit3(s, q);
    Digit2(s, q);
    Digit1(s, q);
    Digit0(s, q);
    ByteModulo(l / 0x100_0000, s / 0x100_0000);
    ByteModulo(l / 0x1_0000, s / 0x1_0000);
    ByteModulo(l / 0x100, s / 0x100);
    ByteModulo(l, s);
  }

  lemma Divided(x: nat, d: nat, y: nat, r: nat)
    requires x == d * y + r && r < d
    ensures x / d == y && x % d == r
  {
    var q := x / d;
    assert x == d * q + x % d;
    if q < y {
      MulMonotone(d, q + 1, y);
    } else if q > y {
      MulMonotone(d, y + 1, q);
    }
  }

  lemma MulMonotone(d: nat, x: nat, y: nat)
    requires x <= y
    ensures d * x <= d * y
  {
  }

  // A length l = s + 2^32 * q and its remainder s have the same four low digits.
  lemma Digit3(s: nat, q: nat)
    ensures (s + UINT32 * q) / 0x100_0000 % 0x100 == s / 0x100_0000 % 0x100
  {
    var a := s / 0x100_0000;
    Divided(s + UINT32 * q, 0x100_0000, a + 0x100 * q, s % 0x100_0000);
    Divided(a + 0x100 * q, 0x100, a / 0x100 + 1 * q, a % 0x100);
  }

  lemma Digit2(s: nat, q: nat)
    ensures (s + UINT32 * q) / 0x1_0000 % 0x100 == s / 0x1_0000 % 0x100
  {
    var a := s / 0x1_0000;
    Divided(s + UINT32 * q, 0x1_0000, a + 0x1_0000 * q, s % 0x1_0000);
    Divided(a + 0x1_0000 * q, 0x100, a / 0x100 + 0x100 * q, a % 0x100);
  }

  lemma Digit1(s: nat, q: nat)
    ensures (s + UINT32 * q) / 0x100 % 0x100 == s / 0x100 % 0x100
  {
    var a := s / 0x100;
    Divided(s + UINT32 * q, 0x100, a + 0x100_0000 * q, s % 0x100);
    Divided(a + 0x100_0000 * q, 0x100, a / 0x100 + 0x1_0000 * q, a % 0x100);
  }

  lemma Digit0(s: nat, q: nat)
    ensures (s + UINT32 * q) % 0x100 == s % 0x100
  {
    Divided(s + UINT32 * q, 0x100, s / 0x100 + 0x100_0000 * q, s % 0x100);
  }

  // The code pads as the standard does exactly when the message is shorter than 2^29 bytes.
  lemma PaddingAgrees(msg: seq<bv8>)
    requires |msg| < UINT32
    ensures CodePad(msg) == Pad(msg) <==> |msg| < 0x2000_0000
  {
    hide LengthBytes, UintBytes;
    var n := |msg|;
    HighBytes(n);
    LowBytes(n);
    var front, length := msg + Filler(n), LengthBytes(8 * n);
    assert Pad(msg)[|front|..] == length;
    assert CodePad(msg)[|front|..] == Zeros(4) + length[4..];
    assert length == length[..4] + length[4..];
    assert (Zeros(4) + length[4..])[..4] == Zeros(4);
  }

  // The head of the block loop after n iterations: the guard compares a wrapped sum.
  function BlockAfter(n: nat): (block: nat)
    ensures block < UINT32 && block % 64 == 0
  {
    if n == 0 then 0
    else
      var end := Add32(BlockAfter(n - 1), 64);
      if BlockAfter(n - 1) < end then end else BlockAfter(n - 1)
  }

  predicate LoopGuard(block: nat, len: nat) {
    Add32(block, 64) <= len
  }

  lemma {:induction false} BlockValue(n: nat)
    ensures BlockAfter(n) == if 64 * n < UINT32 then 64 * n else UINT32 - 64
  {
    if n > 0 {
      BlockValue(n - 1);
    }
  }

  // The block loop ends exactly for lengths below 2^32 - 64; above, the last block is
  // compressed for ever because its end wraps to 0.
  lemma BlockLoopEnds(len: nat)
    requires len < UINT32
    ensures (exists n: nat :: !LoopGuard(BlockAfter(n), len)) <==> len < UINT32 - 64
  {
    if len < UINT32 - 64 {
      BlockValue(len / 64);
      assert !LoopGuard(BlockAfter(len / 64), len);
    } else {
      forall n: nat ensures LoopGuard(BlockAfter(n), len) {
        BlockValue(n);
      }
    }
  }

  // The words of the padded tail, in one or two blocks.
  lemma TailBlocks(msg: seq<bv8>, block: nat)
    requires |msg| < UINT32 && block <= |msg| < block + 64 && block % 64 == 0
    ensures var r := msg[block..];
            CodePad(msg) ==
            if |r| >= 56 then msg[..block] + Marked(r) + (Zeros(60) + UintBytes(ShiftLeft3(|msg|)))
            else msg[..block] + (Marked(r)[..60] + UintBytes(ShiftLeft3(|msg|)))
  {
    hide UintBytes;
    var r, n := msg[block..], |msg|;
    assert msg == msg[..block] + r;
    assert (55 - n) % 64 == (55 - |r|) % 64;
    if |r| >= 56 {
      assert Zeros((55 - n) % 64) + Zeros(4) == Zeros(63 - |r|) + Zeros(60);
    } else {
      assert Zeros((55 - n) % 64) + Zeros(4) == Zeros(59 - |r|);
      assert Marked(r)[..60] == r + [0x80] + Zeros(59 - |r|);
    }
  }

  // temp[15] = len << 3
  method LastWord(temp: array<bv32>, len: nat, ghost tail: seq<bv8>)
    requires temp.Length == 80 && |tail| == 60 && temp[..16] == Words(tail + Zeros(4))
    modifies temp
    ensures temp[..16] == Words(tail + UintBytes(ShiftLeft3(len)))
  {
    hide Words, UintBytes, BigEndian;
    var w := UintWord(ShiftLeft3(len));
    PutWord(tail, Zeros(4), UintBytes(ShiftLeft3(len)));
    temp[15] := w;
  }

  lemma TailZeros(r: seq<bv8>)
    requires |r| < 64
    ensures Zeros(60) + Zeros(4) == Zeros(64)
    ensures |r| < 56 ==> Marked(r)[..60] + Zeros(4) == Marked(r)
  {
  }

  // The last one or two blocks: tail bytes, marker, zeros and length.
  method HashTail(data: array<bv8>, block: nat, len: nat, sha: array<bv32>, temp: array<bv32>)
    requires block <= len < block + 64 && len <= data.Length && len < UINT32 && block % 64 == 0
    requires sha.Length == 5 && temp.Length == 80 && sha != temp
    requires sha[..] == Blocks(data[..block])
    modifies sha, temp
    ensures sha[..] == Blocks(CodePad(data[..len]))
  {
    hide Blocks, CodePad, Words, UintBytes, Marked;
    ghost var msg := data[..len];
    ghost var front, r := msg[..block], msg[block..];
    var end := len - block;
    assert r == data[block..block + end];
    assert front == data[..block];
    ClearBlock(temp);
    FillTail(data, block, end, temp);
    TailBlocks(msg, block);
    if end >= 56 {
      OneMoreBlock(front, Marked(r));
      Sha1PartHash(sha, temp);
      ClearBlock(temp);
      front := front + Marked(r);
    }
    ghost var tail := if end >= 56 then Zeros(60) else Marked(r)[..60];
    TailZeros(r);
    LastWord(temp, len, tail);
    OneMoreBlock(front, tail + UintBytes(ShiftLeft3(len)));
    Sha1PartHash(sha, temp);
  }

  // The whole blocks of the first len bytes.
  method HashBlocks(data: array<bv8>, len: nat, sha: array<bv32>, temp: array<bv32>) returns (block: nat)
    requires len <= data.Length && len < UINT32 - 64
    requires sha.Length == 5 && temp.Length == 80 && sha != temp
    requires sha[..] == IV
    modifies sha, temp
    ensures block <= len < block + 64 && block % 64 == 0
    ensures sha[..] == Blocks(data[..block])
  {
    hide Blocks, Words;
    NoBlocks();
    assert data[..0] == [];
    block := 0;
    var end := Add32(block, 64);
    while LoopGuard(block, len)
      invariant block % 64 == 0 && block <= len && end == block + 64
      invariant sha[..] == Blocks(data[..block])
      decreases len - block
    {
      OneMoreBlock(data[..block], data[block..end]);
      assert data[..end] == data[..block] + data[block..end];
      block := LoadBlock(data, block, end, temp);
      Sha1PartHash(sha, temp);
      end := Add32(block, 64);
    }
  }

  // The digest of the first len bytes of data, written to the first 20 bytes of dest.
  method HashSha1(data: array<bv8>, len: nat, dest: array<bv8>)
    requires len <= data.Length && len < UINT32 - 64
    requires dest.Length >= 20
    modifies dest
    ensures dest[..20] == Digest(Blocks(CodePad(old(data[..len]))))
    ensures len < 0x2000_0000 ==> dest[..20] == Sha1(old(data[..len]))
    ensures dest[20..] == old(dest[20..])
  {
    hide Blocks, Digest, CodePad, Pad;
    ghost var msg := data[..len];
    var temp := new bv32[80];
    var sha := new bv32[5] [0x67452301, 0xefcdab89, 0x98badcfe, 0x10325476, 0xc3d2e1f0];
    var block := HashBlocks(data, len, sha, temp);
    HashTail(data, block, len, sha, temp);
    PaddingAgrees(msg);
    WriteDigest(sha, dest);
  }
}
