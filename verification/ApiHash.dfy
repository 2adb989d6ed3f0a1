// The 64-bit list hash of api_hash.h: values are bit patterns (bv64 and bv32).
module ApiHash {

  // The three xorshift statements of HashUpdate and its wrapping addition.
  function Right21(x: bv64): bv64 {
    x ^ (x >> 21)
  }

  function Left35(x: bv64): bv64 {
    x ^ (x << 35)
  }

  function Right4(x: bv64): bv64 {
    x ^ (x >> 4)
  }

  function Plus(x: bv64, y: bv64): bv64 {
    x + y
  }

  // What HashUpdate leaves in its reference argument.
  function Updated(already: bv64, value: bv64): bv64 {
    Plus(Right4(Left35(Right21(already))), value)
  }

  function HashInit(): bv64 {
    0
  }

  function HashFinalize(already: bv64): bv64 {
    already
  }

  // The integer types CountHash is used with; each has its own HashUpdate overload.
  datatype Value = U64(bits: bv64) | I64(bits: bv64) | U32(word: bv32) | I32(word: bv32) {
    predicate SameType(v: Value) {
      U64? == v.U64? && I64? == v.I64? && U32? == v.U32? && I32? == v.I32?
    }
  }

  function SignExtended(word: bv32): bv64 {
    if word & 0x8000_0000 == 0 then word as bv64 else (word as bv64) | 0xffff_ffff_0000_0000
  }

  // The uint64 that the overload for v's type passes on.
  function Widened(v: Value): bv64 {
    match v
    case U64(bits) => bits
    case I64(bits) => bits
    case U32(word) => word as bv64
    case I32(word) => SignExtended(word)
  }

  function HashFrom(already: bv64, range: seq<Value>): bv64
    decreases |range|
  {
    if range == [] then already
    else HashFrom(Updated(already, Widened(range[0])), range[1..])
  }

  function Hash(range: seq<Value>): bv64 {
    HashFrom(0, range)
  }

  method CountHash(range: seq<Value>) returns (result: bv64)
    ensures result == Hash(range)
  {
    hide Updated, Widened;
    result := HashInit();
    var i := 0;
    while i < |range|
      invariant 0 <= i <= |range|
      invariant HashFrom(result, range[i..]) == Hash(range)
    {
      assert range[i..][0] == range[i] && range[i..][1..] == range[i + 1..];
      result := HashUpdate(result, Widened(range[i]));
      i := i + 1;
    }
    result := HashFinalize(result);
  }

  // The inverses of the statements.
  function UnRight21(y: bv64): bv64 {
    y ^ (y >> 21) ^ (y >> 42) ^ (y >> 63)
  }

  function UnLeft35(y: bv64): bv64 {
    y ^ (y << 35)
  }

  function UnRight4(y: bv64): bv64 {
    y ^ (y >> 4) ^ (y >> 8) ^ (y >> 12)
    ^ (y >> 16) ^ (y >> 20) ^ (y >> 24) ^ (y >> 28)
    ^ (y >> 32) ^ (y >> 36) ^ (y >> 40) ^ (y >> 44)
    ^ (y >> 48) ^ (y >> 52) ^ (y >> 56) ^ (y >> 60)
  }

  function Minus(x: bv64, y: bv64): bv64 {
    x - y
  }

  // The state before an update with value that left h.
  function Downdated(h: bv64, value: bv64): bv64 {
    UnRight21(UnLeft35(UnRight4(Minus(h, value))))
  }

  lemma Right21Inverse(x: bv64)
    ensures UnRight21(Right21(x)) == x && Right21(UnRight21(x)) == x
  {
    assert UnRight21(x ^ (x >> 21)) == x;
    assert Right21(x ^ (x >> 21) ^ (x >> 42) ^ (x >> 63)) == x;
  }

  lemma Left35Inverse(x: bv64)
    ensures UnLeft35(Left35(x)) == x && Left35(UnLeft35(x)) == x
  {
    assert UnLeft35(x ^ (x << 35)) == x;
    assert Left35(x ^ (x << 35)) == x;
  }

  lemma Right4Undone(x: bv64)
    ensures UnRight4(Right4(x)) == x
  {
    assert UnRight4(x ^ (x >> 4)) == x;
  }

  lemma Right4Redone(y: bv64)
    ensures Right4(UnRight4(y)) == y
  {
    assert Right4(y ^ (y >> 4) ^ (y >> 8) ^ (y >> 12) ^ (y >> 16) ^ (y >> 20) ^ (y >> 24) ^ (y >> 28) ^ (y >> 32) ^ (y >> 36) ^ (y >> 40) ^ (y >> 44) ^ (y >> 48) ^ (y >> 52) ^ (y >> 56) ^ (y >> 60)) == y;
  }

  lemma PlusInverse(x: bv64, v: bv64)
    ensures Minus(Plus(x, v), v) == x && Plus(Minus(x, v), v) == x
  {
    assert Minus(x + v, v) == x;
    assert Plus(x - v, v) == x;
  }

  // For a fixed value an update is a bijection on states, with inverse Downdated.
  lemma UpdateIsBijection(x: bv64, value: bv64)
    ensures Downdated(Updated(x, value), value) == x
    ensures Updated(Downdated(x, value), value) == x
  {
    hide Right21, Left35, Right4, Plus, UnRight21, UnLeft35, UnRight4, Minus;
    var a := Right21(x);
    var b := Left35(a);
    var c := Right4(b);
    Right21Inverse(x);
    Left35Inverse(a);
    Right4Undone(b);
    PlusInverse(c, value);
    var d := Minus(x, value);
    var e := UnRight4(d);
    var f := UnLeft35(e);
    Right21Inverse(f);
    Left35Inverse(e);
    Right4Redone(d);
    PlusInverse(x, value);
  }

  // For a fixed state every result is reached, by exactly one value.
  function ValueFor(already: bv64, h: bv64): bv64 {
    Minus(h, Right4(Left35(Right21(already))))
  }

  lemma PlusCommutes(x: bv64, y: bv64)
    ensures Plus(x, y) == Plus(y, x)
  {
    assert Plus(x, y) == y + x;
  }

  lemma PlusDetermines(m: bv64, v: bv64, h: bv64)
    ensures Plus(m, v) == h <==> v == Minus(h, m)
  {
    hide Plus, Minus;
    PlusInverse(v, m);
    PlusInverse(h, m);
    PlusCommutes(m, v);
  }

  lemma UpdateDeterminesValue(already: bv64, value: bv64, h: bv64)
    ensures Updated(already, value) == h <==> value == ValueFor(already, h)
  {
    hide Plus, Minus, Right21, Left35, Right4;
    PlusDetermines(Right4(Left35(Right21(already))), value, h);
  }

  // The new state together with the value gives the old state back, and together with the
  // old state it gives the value back.
  method HashUpdate(already: bv64, value: bv64) returns (updated: bv64)
    ensures Downdated(updated, value) == already
    ensures ValueFor(already, updated) == value
    ensures updated == Updated(already, value)
  {
    UpdateIsBijection(already, value);
    UpdateDeterminesValue(already, value, Updated(already, value));
    hide Right21, Left35, Right4, Plus, Downdated, ValueFor;
    updated := Right21(already);
    updated := Left35(updated);
    updated := Right4(updated);
    updated := Plus(updated, value);
  }

  function Truncated(x: bv64): bv32 {
    (x & 0xffff_ffff) as bv32
  }

  lemma SignExtensionUndone(v: bv32)
    ensures Truncated(SignExtended(v)) == v
  {
    assert Truncated(v as bv64) == v;
    assert Truncated((v as bv64) | 0xffff_ffff_0000_0000) == v;
    hide Truncated;
  }

  lemma WideningInjective(v: Value, w: Value)
    requires v.SameType(w)
    ensures Widened(v) == Widened(w) ==> v == w
  {
    match v
    case U32(word) =>
      assert Truncated(word as bv64) == word && Truncated(w.word as bv64) == w.word;
    case I32(word) =>
      SignExtensionUndone(word);
      SignExtensionUndone(w.word);
    case _ =>
  }

  lemma {:induction false} HashAppend(already: bv64, s: seq<Value>, t: seq<Value>)
    ensures HashFrom(already, s + t) == HashFrom(HashFrom(already, s), t)
    decreases |s|
  {
    hide Updated, Widened;
    if s == [] {
      assert s + t == t;
    } else {
      assert (s + t)[0] == s[0] && (s + t)[1..] == s[1..] + t;
      HashAppend(Updated(already, Widened(s[0])), s[1..], t);
    }
  }

  // The state from which the values of range lead to h.
  function Rewound(h: bv64, range: seq<Value>): bv64
    decreases |range|
  {
    if range == [] then h
    else Downdated(Rewound(h, range[1..]), Widened(range[0]))
  }

  lemma {:induction false} HashFromIsBijection(x: bv64, range: seq<Value>)
    ensures Rewound(HashFrom(x, range), range) == x
    ensures HashFrom(Rewound(x, range), range) == x
    decreases |range|
  {
    hide Updated, Downdated, Widened;
    if range != [] {
      var v := Widened(range[0]);
      HashFromIsBijection(Updated(x, v), range[1..]);
      UpdateIsBijection(x, v);
      HashFromIsBijection(x, range[1..]);
      UpdateIsBijection(Rewound(x, range[1..]), v);
    }
  }

  // Appending the same suffix keeps equal hashes equal and unequal hashes unequal.
  lemma SuffixKeepsDifference(s: seq<Value>, t: seq<Value>, suffix: seq<Value>)
    ensures Hash(s + suffix) == Hash(t + suffix) <==> Hash(s) == Hash(t)
  {
    hide HashFrom;
    HashAppend(0, s, suffix);
    HashAppend(0, t, suffix);
    HashFromIsBijection(Hash(s), suffix);
    HashFromIsBijection(Hash(t), suffix);
  }

  // At any place of a range of uint64, whatever surrounds it, exactly one value gives a
  // wanted hash.
  lemma OneValueForEachHash(prefix: seq<Value>, v: bv64, suffix: seq<Value>, h: bv64)
    ensures Hash(prefix + [U64(v)] + suffix) == h <==> v == ValueFor(Hash(prefix), Rewound(h, suffix))
  {
    hide HashFrom, Rewound, Updated, ValueFor;
    var middle := HashFrom(Hash(prefix), [U64(v)]);
    HashAppend(0, prefix, [U64(v)]);
    HashAppend(0, prefix + [U64(v)], suffix);
    assert middle == Updated(Hash(prefix), v) by {
      OneStep(Hash(prefix), U64(v));
    }
    HashFromIsBijection(middle, suffix);
    HashFromIsBijection(h, suffix);
    UpdateDeterminesValue(Hash(prefix), v, Rewound(h, suffix));
  }

  lemma OneStep(already: bv64, v: Value)
    ensures HashFrom(already, [v]) == Updated(already, Widened(v))
  {
    hide Updated, Widened;
    assert [v][1..] == [];
  }

  // Two ranges of one integer type that differ in exactly one place hash differently.
  lemma OnePlaceDistinguishes(s: seq<Value>, t: seq<Value>, i: nat)
    requires |s| == |t| && i < |s| && s[i].SameType(t[i])
    requires forall j :: 0 <= j < |s| && j != i ==> s[j] == t[j]
    ensures Hash(s) == Hash(t) <==> s[i] == t[i]
  {
    hide HashFrom, Updated, Widened, ValueFor;
    var p, x := s[..i], Hash(s[..i]);
    assert s[..i] == t[..i] && s[i + 1..] == t[i + 1..];
    assert s == (p + [s[i]]) + s[i + 1..] && t == (p + [t[i]]) + s[i + 1..];
    SuffixKeepsDifference(p + [s[i]], p + [t[i]], s[i + 1..]);
    HashAppend(0, p, [s[i]]);
    HashAppend(0, p, [t[i]]);
    OneStep(x, s[i]);
    OneStep(x, t[i]);
    var h := Hash(p + [s[i]]);
    UpdateDeterminesValue(x, Widened(s[i]), h);
    UpdateDeterminesValue(x, Widened(t[i]), h);
    WideningInjective(s[i], t[i]);
  }

  // Values that fix the shifts of the statements.
  lemma StepValues()
    ensures Right21(0x20_0000) == 0x20_0001
    ensures Left35(1) == 0x8_0000_0001
    ensures Right4(0x10) == 0x11
    ensures Updated(1, 2) == 0x8_8000_0003
  {
  }

  lemma HashValues()
    ensures Hash([]) == 0 && Hash([U64(1), U64(2)]) == 0x8_8000_0003
  {
    StepValues();
    assert Updated(0, 1) == 1;
    OneStep(0, U64(1));
    OneStep(1, U64(2));
    HashAppend(0, [U64(1)], [U64(2)]);
    assert [U64(1)] + [U64(2)] == [U64(1), U64(2)];
  }

  // A 32-bit value keeps its bits; the upper half repeats the sign of a signed one and is
  // zero for an unsigned one.
  lemma UnsignedHalves(word: bv32)
    ensures Truncated(Widened(U32(word))) == word && Upper(Widened(U32(word))) == 0
  {
    assert Truncated(word as bv64) == word;
    assert Upper(word as bv64) == 0;
  }

  lemma SignedHalves(word: bv32)
    ensures Truncated(Widened(I32(word))) == word
    ensures Upper(Widened(I32(word))) == if word < 0x8000_0000 then 0 else 0xffff_ffff
  {
    SignExtensionUndone(word);
    UnsignedHalves(word);
    UpperOnes(word as bv64);
    SignBit(word);
    hide Truncated, Upper;
  }

  function Upper(x: bv64): bv64 {
    x >> 32
  }

  lemma UpperOnes(x: bv64)
    requires Upper(x) == 0
    ensures Upper(x | 0xffff_ffff_0000_0000) == 0xffff_ffff
  {
  }

  lemma SignBit(word: bv32)
    ensures word & 0x8000_0000 == 0 <==> word < 0x8000_0000
  {
  }
}
