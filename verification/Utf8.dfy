/** UTF-8 (section 4 of RFC 3629): the code of a character, and which byte strings are codes of texts. */
module Utf8 {
  import opened Arithmetic

  /** A code point, surrogates included. */
  type Scalar = n: nat | n < 0x11_0000

  predicate IsSurrogate(c: Scalar) {
    0xD800 <= c <= 0xDFFF
  }

  function Utf8Bytes(c: Scalar): seq<Byte> {
    if c < 0x80 then [c]
    else if c < 0x800 then [0xC0 + c / 0x40, 0x80 + c % 0x40]
    else if c < 0x1_0000 then [0xE0 + c / 0x1000, 0x80 + c / 0x40 % 0x40, 0x80 + c % 0x40]
    else [0xF0 + c / 0x4_0000, 0x80 + c / 0x1000 % 0x40, 0x80 + c / 0x40 % 0x40, 0x80 + c % 0x40]
  }

  function TextBytes(s: seq<Scalar>): seq<Byte> {
    if s == [] then [] else Utf8Bytes(s[0]) + TextBytes(s[1..])
  }

  predicate Tail(b: Byte) {
    0x80 <= b <= 0xBF
  }

  predicate ValidUtf8(s: seq<Byte>) {
    if s == [] then true
    else if s[0] <= 0x7F then ValidUtf8(s[1..])
    else if 0xC2 <= s[0] <= 0xDF then |s| >= 2 && Tail(s[1]) && ValidUtf8(s[2..])
    else if 0xE0 <= s[0] <= 0xEF then
      && |s| >= 3 && Tail(s[1]) && Tail(s[2])
      && (s[0] == 0xE0 ==> s[1] >= 0xA0) && (s[0] == 0xED ==> s[1] <= 0x9F)
      && ValidUtf8(s[3..])
    else
      && 0xF0 <= s[0] <= 0xF4 && |s| >= 4 && Tail(s[1]) && Tail(s[2]) && Tail(s[3])
      && (s[0] == 0xF0 ==> s[1] >= 0x90) && (s[0] == 0xF4 ==> s[1] <= 0x8F)
      && ValidUtf8(s[4..])
  }

  /** The code of a character that is no surrogate may stand at the beginning of a valid byte string. */
  lemma {:induction false} CharacterValid(c: Scalar, rest: seq<Byte>)
    requires !IsSurrogate(c)
    ensures ValidUtf8(Utf8Bytes(c) + rest) <==> ValidUtf8(rest)
  {
    var u := Utf8Bytes(c);
    var s := u + rest;
    assert s[|u|..] == rest;
    assert forall i | 0 <= i < |u| :: s[i] == u[i];
    if 0x800 <= c < 0x1_0000 {
      ThreeBytes(c);
    } else if c >= 0x1_0000 {
      FourBytes(c);
    }
  }

  lemma ThreeBytes(c: Scalar)
    requires 0x800 <= c < 0x1_0000 && !IsSurrogate(c)
    ensures var u := Utf8Bytes(c);
            && 0xE0 <= u[0] <= 0xEF && Tail(u[1]) && Tail(u[2])
            && (u[0] == 0xE0 ==> u[1] >= 0xA0) && (u[0] == 0xED ==> u[1] <= 0x9F)
  {
    var q := c / 0x40;
    assert c / 0x1000 == q / 0x40;
    assert q == q / 0x40 * 0x40 + q % 0x40;
  }

  lemma FourBytes(c: Scalar)
    requires 0x1_0000 <= c
    ensures var u := Utf8Bytes(c);
            && 0xF0 <= u[0] <= 0xF4 && Tail(u[1]) && Tail(u[2]) && Tail(u[3])
            && (u[0] == 0xF0 ==> u[1] >= 0x90) && (u[0] == 0xF4 ==> u[1] <= 0x8F)
  {
    var q := c / 0x1000;
    assert c / 0x4_0000 == q / 0x40;
    assert q == q / 0x40 * 0x40 + q % 0x40;
  }

  /** The character at the beginning of a valid byte string. */
  lemma {:induction false} FirstCharacter(s: seq<Byte>) returns (c: Scalar)
    requires s != [] && ValidUtf8(s)
    ensures !IsSurrogate(c) && |Utf8Bytes(c)| <= |s| && Utf8Bytes(c) == s[..|Utf8Bytes(c)|]
    ensures ValidUtf8(s[|Utf8Bytes(c)|..])
  {
    if s[0] <= 0x7F {
      c := s[0];
    } else if s[0] <= 0xDF {
      var a: nat, b: nat := s[0] - 0xC0, s[1] - 0x80;
      c := a * 0x40 + b;
      assert c / 0x40 == a && c % 0x40 == b;
      assert Utf8Bytes(c) == s[..2];
    } else if s[0] <= 0xEF {
      c := FromThree(s[0] - 0xE0, s[1] - 0x80, s[2] - 0x80);
      assert Utf8Bytes(c) == s[..3];
    } else {
      c := FromFour(s[0] - 0xF0, s[1] - 0x80, s[2] - 0x80, s[3] - 0x80);
      assert Utf8Bytes(c) == s[..4];
    }
  }

  lemma FromThree(a: nat, b: nat, d: nat) returns (c: Scalar)
    requires a < 0x10 && b < 0x40 && d < 0x40 && (a == 0 ==> b >= 0x20) && (a == 0xD ==> b <= 0x1F)
    ensures 0x800 <= c < 0x1_0000 && !IsSurrogate(c)
    ensures c / 0x1000 == a && c / 0x40 % 0x40 == b && c % 0x40 == d
  {
    var q := a * 0x40 + b;
    c := q * 0x40 + d;
    assert c / 0x40 == q && c / 0x1000 == q / 0x40;
  }

  lemma FromFour(a: nat, b: nat, d: nat, e: nat) returns (c: Scalar)
    requires a < 5 && b < 0x40 && d < 0x40 && e < 0x40 && (a == 0 ==> b >= 0x10) && (a == 4 ==> b <= 0xF)
    ensures 0x1_0000 <= c && !IsSurrogate(c)
    ensures c / 0x4_0000 == a && c / 0x1000 % 0x40 == b && c / 0x40 % 0x40 == d && c % 0x40 == e
  {
    var p := a * 0x40 + b;
    var q := p * 0x40 + d;
    var n := q * 0x40 + e;
    assert n / 0x40 == q && q / 0x40 == p && p / 0x40 == a;
    assert n / 0x1000 == p && n / 0x4_0000 == a;
    assert n < 0x11_0000;
    c := n;
  }

  lemma {:induction false} TextIsValid(cs: seq<Scalar>)
    requires forall c | c in cs :: !IsSurrogate(c)
    ensures ValidUtf8(TextBytes(cs))
  {
    if cs != [] {
      TextIsValid(cs[1..]);
      CharacterValid(cs[0], TextBytes(cs[1..]));
    }
  }

  lemma {:induction false} ValidIsText(s: seq<Byte>) returns (cs: seq<Scalar>)
    requires ValidUtf8(s)
    ensures TextBytes(cs) == s && forall c | c in cs :: !IsSurrogate(c)
    decreases |s|
  {
    cs := [];
    if s != [] {
      var c := FirstCharacter(s);
      var n := |Utf8Bytes(c)|;
      var more := ValidIsText(s[n..]);
      cs := [c] + more;
      assert s == s[..n] + s[n..];
    }
  }

  /** The valid byte strings are exactly the codes of texts without surrogates. */
  lemma ValidIffText(s: seq<Byte>)
    ensures ValidUtf8(s) <==> exists cs: seq<Scalar> :: TextBytes(cs) == s && forall c | c in cs :: !IsSurrogate(c)
  {
    if ValidUtf8(s) {
      var cs := ValidIsText(s);
    }
    if cs: seq<Scalar> :| TextBytes(cs) == s && forall c | c in cs :: !IsSurrogate(c) {
      TextIsValid(cs);
    }
  }
}
