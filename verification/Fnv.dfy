/** The FNV-1a hash of the test runner and of the schema compiler. */
module Fnv {
  import opened Arithmetic
  import opened Utf8

  const OFFSET: nat := 0xcbf2_9ce4_8422_2325
  const PRIME: nat := 0x100_0000_01b3
  const PRIME_INVERSE: nat := 0xce96_5057_aff6_957b

  type U64 = n: nat | n < TWO_64

  /** Exclusive or, bit by bit. */
  function Xor(a: nat, b: nat): nat {
    if a == 0 && b == 0 then 0 else (a + b) % 2 + 2 * Xor(a / 2, b / 2)
  }

  function Pow2(k: nat): nat {
    if k == 0 then 1 else 2 * Pow2(k - 1)
  }

  lemma {:induction false} XorBounded(a: nat, b: nat, k: nat)
    requires a < Pow2(k) && b < Pow2(k)
    ensures Xor(a, b) < Pow2(k)
    decreases k
  {
    if k > 0 {
      XorBounded(a / 2, b / 2, k - 1);
    }
  }

  lemma Parity(x: nat, a: nat, b: nat)
    requires x % 2 == (a + b) % 2
    ensures (x + b) % 2 == a % 2
  {
  }

  lemma {:induction false} XorTwice(a: nat, b: nat)
    ensures Xor(Xor(a, b), b) == a
    decreases a + b
  {
    if a != 0 || b != 0 {
      XorTwice(a / 2, b / 2);
      var y := Xor(a / 2, b / 2);
      var x := Xor(a, b);
      assert x == (a + b) % 2 + 2 * y;
      Parity(x, a, b);
      assert x / 2 == y;
      assert Xor(x, b) == (x + b) % 2 + 2 * Xor(y, b / 2) || (x == 0 && b == 0);
    }
  }

  lemma {:induction false} XorCommutes(a: nat, b: nat)
    ensures Xor(a, b) == Xor(b, a)
    decreases a + b
  {
    if a != 0 || b != 0 {
      XorCommutes(a / 2, b / 2);
    }
  }

  lemma Pow2Byte(k: nat)
    ensures Pow2(k + 8) == 0x100 * Pow2(k)
  {
    assert Pow2(k + 2) == 4 * Pow2(k);
    assert Pow2(k + 4) == 4 * Pow2(k + 2);
    assert Pow2(k + 6) == 4 * Pow2(k + 4);
    assert Pow2(k + 8) == 4 * Pow2(k + 6);
  }

  lemma {:induction false} Pow2At64()
    ensures Pow2(64) == TWO_64
  {
    assert Pow2(0) == 1;
    Pow2Byte(0);
    Pow2Byte(8);
    Pow2Byte(16);
    Pow2Byte(24);
    Pow2Byte(32);
    Pow2Byte(40);
    Pow2Byte(48);
    Pow2Byte(56);
  }

  lemma XorU64(h: U64, b: Byte)
    ensures Xor(h, b) < TWO_64
  {
    Pow2At64();
    XorBounded(h, b, 64);
  }

  /** One step of the hash with wrapping multiplication. */
  function Step(h: U64, b: Byte): U64 {
    Xor(h, b) * PRIME % TWO_64
  }

  /** The step that leads back. */
  function StepBack(h: U64, b: Byte): (r: U64) {
    XorU64(h * PRIME_INVERSE % TWO_64, b);
    Xor(h * PRIME_INVERSE % TWO_64, b)
  }

  /** Multiplying by the prime and then by its inverse changes nothing. */
  lemma InverseUndoes(h: U64)
    ensures (h * PRIME % TWO_64) * PRIME_INVERSE % TWO_64 == h
    ensures (h * PRIME_INVERSE % TWO_64) * PRIME % TWO_64 == h
  {
    assert PRIME * PRIME_INVERSE % TWO_64 == 1;
    ModProduct(h * PRIME, PRIME_INVERSE, TWO_64);
    ModProduct(h * PRIME_INVERSE, PRIME, TWO_64);
    var k := PRIME * PRIME_INVERSE / TWO_64;
    assert PRIME * PRIME_INVERSE == k * TWO_64 + 1;
    assert h * PRIME * PRIME_INVERSE == h + (h * k) * TWO_64;
    assert h * PRIME_INVERSE * PRIME == h + (h * k) * TWO_64;
    ModShift(h, h * k, TWO_64);
  }

  /** For each byte a step is a bijection of the 64-bit states. */
  lemma StepBijective(h: U64, b: Byte)
    ensures StepBack(Step(h, b), b) == h
    ensures Step(StepBack(h, b), b) == h
  {
    XorU64(h, b);
    InverseUndoes(Xor(h, b));
    XorTwice(h, b);
    var g := h * PRIME_INVERSE % TWO_64;
    XorTwice(g, b);
    InverseUndoes(h);
  }

  /** For each state a step is injective in the byte. */
  lemma StepInjectiveInByte(h: U64, b: Byte, c: Byte)
    requires Step(h, b) == Step(h, c)
    ensures b == c
  {
    XorU64(h, b);
    XorU64(h, c);
    InverseUndoes(Xor(h, b));
    InverseUndoes(Xor(h, c));
    XorCommutes(h, b);
    XorCommutes(h, c);
    XorTwice(b, h);
    XorTwice(c, h);
  }

  function Hash(h: U64, bytes: seq<Byte>): U64
    decreases |bytes|
  {
    if bytes == [] then h else Step(Hash(h, bytes[..|bytes| - 1]), bytes[|bytes| - 1])
  }

  lemma {:induction false} HashConcat(h: U64, xs: seq<Byte>, ys: seq<Byte>)
    ensures Hash(h, xs + ys) == Hash(Hash(h, xs), ys)
    decreases |ys|
  {
    if ys == [] {
      assert xs + ys == xs;
    } else {
      HashConcat(h, xs, ys[..|ys| - 1]);
      assert (xs + ys)[..|xs + ys| - 1] == xs + ys[..|ys| - 1];
    }
  }

  lemma {:induction false} HashInjectiveInState(g: U64, h: U64, bytes: seq<Byte>)
    requires Hash(g, bytes) == Hash(h, bytes)
    ensures g == h
    decreases |bytes|
  {
    if bytes != [] {
      var b, rest := bytes[|bytes| - 1], bytes[..|bytes| - 1];
      StepBijective(Hash(g, rest), b);
      StepBijective(Hash(h, rest), b);
      HashInjectiveInState(g, h, rest);
    }
  }

  /** Two byte strings that differ in exactly one byte never collide, whatever surrounds it. */
  lemma SingleByteNeverCollides(h: U64, before: seq<Byte>, b: Byte, c: Byte, after: seq<Byte>)
    requires b != c
    ensures Hash(h, before + [b] + after) != Hash(h, before + [c] + after)
  {
    HashConcat(h, before + [b], after);
    HashConcat(h, before + [c], after);
    HashConcat(h, before, [b]);
    HashConcat(h, before, [c]);
    assert [b][..0] == [] && [c][..0] == [];
    if Hash(h, before + [b] + after) == Hash(h, before + [c] + after) {
      HashInjectiveInState(Hash(h, before + [b]), Hash(h, before + [c]), after);
      StepInjectiveInByte(Hash(h, before), b, c);
    }
  }

  /** The test runner's hash. */
  method Fnv1a(bytes: seq<Byte>) returns (hash: U64)
    ensures hash == Hash(OFFSET, bytes)
  {
    hash := OFFSET;
    var i := 0;
    while i < |bytes|
      invariant 0 <= i <= |bytes|
      invariant hash == Hash(OFFSET, bytes[..i])
    {
      assert bytes[..i + 1][..i] == bytes[..i];
      var mixed := Xor(hash, bytes[i]);
      hash := mixed * PRIME % TWO_64;
      i := i + 1;
    }
    assert bytes[..i] == bytes;
  }

  lemma {:induction false} XorZero(a: nat)
    ensures Xor(a, 0) == a
  {
    if a != 0 {
      XorZero(a / 2);
    }
  }

  /** The published hashes of the empty string and of "a". */
  lemma {:induction false} KnownHashes()
    ensures Hash(OFFSET, []) == 0xcbf2_9ce4_8422_2325
    ensures Hash(OFFSET, [0x61]) == 0xaf63_dc4c_8601_ec8c
  {
    XorZero(114812351869895750);
    assert Xor(0x32fca739210888c, 0x1) == 0x32fca739210888d;
    assert Xor(0x65f94e724211119, 0x3) == 0x65f94e72421111a;
    assert Xor(0xcbf29ce48422232, 0x6) == 0xcbf29ce48422234;
    assert Xor(0x197e539c90844464, 0xc) == 0x197e539c90844468;
    assert Xor(0x32fca739210888c9, 0x18) == 0x32fca739210888d1;
    assert Xor(0x65f94e7242111192, 0x30) == 0x65f94e72421111a2;
    assert Xor(0xcbf29ce484222325, 0x61) == 0xcbf29ce484222344;
    assert [0x61][..0] == [];
  }

  // ---- the schema compiler's hash of a string against the generated program's ----

  /** The code units of a character, each cut to eight bits: what the compiler feeds to its hash. */
  function UnitBytes(c: Scalar): seq<Byte> {
    if c < 0x1_0000 then [c % 0x100]
    else [(0xD800 + (c - 0x1_0000) / 0x400) % 0x100, (0xDC00 + (c - 0x1_0000) % 0x400) % 0x100]
  }

  function AllUnitBytes(s: seq<Scalar>): seq<Byte> {
    if s == [] then [] else UnitBytes(s[0]) + AllUnitBytes(s[1..])
  }

  predicate IsAscii(s: seq<Scalar>) {
    forall i | 0 <= i < |s| :: s[i] < 0x80
  }

  lemma {:induction false} NeverShorter(s: seq<Scalar>)
    ensures |AllUnitBytes(s)| <= |TextBytes(s)|
    ensures IsAscii(s) ==> AllUnitBytes(s) == TextBytes(s)
    ensures !IsAscii(s) ==> |AllUnitBytes(s)| < |TextBytes(s)|
  {
    if s != [] {
      NeverShorter(s[1..]);
      assert s == [s[0]] + s[1..];
      assert IsAscii(s) <==> IsAscii(s[1..]) && s[0] < 0x80;
      assert s[0] < 0x80 ==> UnitBytes(s[0]) == Utf8Bytes(s[0]);
    }
  }

  /** The compiler adds a string with masked unbounded arithmetic, the generated program with wrapping arithmetic; both
    * add a zero byte at the end.
    */
  method AddString(hash: U64, s: seq<Scalar>) returns (r: U64)
    ensures r == Hash(hash, AllUnitBytes(s) + [0])
    ensures IsAscii(s) ==> r == Hash(hash, TextBytes(s) + [0])
  {
    var units := AllUnitBytes(s);
    r := hash;
    var i := 0;
    while i < |units|
      invariant 0 <= i <= |units|
      invariant r == Hash(hash, units[..i])
    {
      assert units[..i + 1][..i] == units[..i];
      r := AddByte(r, units[i]);
      i := i + 1;
    }
    assert units[..i] == units && (units + [0])[..|units|] == units;
    r := AddByte(r, 0);
    NeverShorter(s);
  }

  /** Masking with 2^64 - 1 is taking the remainder. */
  method AddByte(hash: U64, b: Byte) returns (r: U64)
    ensures r == Step(hash, b)
  {
    var product := Xor(hash, b) * PRIME;
    r := product % TWO_64;
  }

  /** The two programs feed the same bytes to their hashes exactly for ASCII strings. */
  lemma SameBytesIffAscii(s: seq<Scalar>)
    ensures AllUnitBytes(s) == TextBytes(s) <==> IsAscii(s)
  {
    NeverShorter(s);
  }
}
