/** Message framing: tuples of a message type and two byte strings in the MessagePack format, read from and written to
  * byte streams, and the marker object that carries raw bytes through JSON.
  */
module MsgPack {
  import opened Arithmetic
  import opened JsonValues
  import opened Options
  import opened Utf8

  type Bytes = seq<Byte>

  const FIXED_ARRAY_3: Byte := 0x93
  const BIN_8: Byte := 0xC4
  const BIN_16: Byte := 0xC5
  const BIN_32: Byte := 0xC6
  const UINT_8: Byte := 0xCC
  const FIRST_TYPE: Byte := 1
  const LAST_TYPE: Byte := 6

  datatype Error =
    | UnexpectedEof
    | NotATuple(found: Byte)
    | NotAType(found: Byte)
    | UnknownType(kind: Byte)
    | NotBinary(found: Byte)
    | InvalidUtf8

  datatype Tuple = Tuple(kind: Byte, name: Bytes, payload: Bytes)

  predicate ValidType(t: Byte) {
    FIRST_TYPE <= t <= LAST_TYPE
  }

  // ---- the format ----

  function Be16(n: nat): (r: Bytes)
    ensures |r| == 2
  {
    [n / 0x100 % 0x100, n % 0x100]
  }

  function Be32(n: nat): (r: Bytes)
    ensures |r| == 4
  {
    [n / 0x100_0000 % 0x100, n / 0x1_0000 % 0x100, n / 0x100 % 0x100, n % 0x100]
  }

  function FromBe(s: Bytes): nat {
    if s == [] then 0 else FromBe(s[..|s| - 1]) * 0x100 + s[|s| - 1]
  }

  /** Lengths are cast to the width of the header; only the widest header can lose something. */
  function EncodeBin(d: Bytes): Bytes {
    if |d| < 0x100 then [BIN_8, |d|] + d
    else if |d| < 0x1_0000 then [BIN_16] + Be16(|d|) + d
    else [BIN_32] + Be32(|d| % TWO_32) + d
  }

  function EncodeTuple(t: Tuple): Bytes {
    [FIXED_ARRAY_3, t.kind] + EncodeBin(t.name) + EncodeBin(t.payload)
  }

  function EncodeAll(ts: seq<Tuple>): Bytes {
    if ts == [] then [] else EncodeTuple(ts[0]) + EncodeAll(ts[1..])
  }

  /** How many bytes of length follow a binary marker. */
  function LengthWidth(marker: Byte): Option<nat> {
    if marker == BIN_8 then Some(1) else if marker == BIN_16 then Some(2)
    else if marker == BIN_32 then Some(4) else None
  }

  function Split(s: Bytes, n: nat): Result<(Bytes, Bytes), Error> {
    if n <= |s| then Ok((s[..n], s[n..])) else Err(UnexpectedEof)
  }

  function DecodeBin(s: Bytes): Result<(Bytes, Bytes), Error> {
    if s == [] then Err(UnexpectedEof)
    else if LengthWidth(s[0]).None? then Err(NotBinary(s[0]))
    else
      var header := Split(s[1..], LengthWidth(s[0]).value);
      if header.Err? then header else Split(header.value.1, FromBe(header.value.0))
  }

  /** A message type is a positive fixint or an unsigned byte. */
  function DecodeType(s: Bytes): Result<(Byte, Bytes), Error> {
    if s == [] then Err(UnexpectedEof)
    else if s[0] <= 0x7F then (if ValidType(s[0]) then Ok((s[0], s[1..])) else Err(UnknownType(s[0])))
    else if s[0] != UINT_8 then Err(NotAType(s[0]))
    else if |s| == 1 then Err(UnexpectedEof)
    else if ValidType(s[1]) then Ok((s[1], s[2..]))
    else Err(UnknownType(s[1]))
  }

  function DecodeTuple(s: Bytes): Result<(Tuple, Bytes), Error> {
    if s == [] then Err(UnexpectedEof)
    else if s[0] != FIXED_ARRAY_3 then Err(NotATuple(s[0]))
    else
      var kind := DecodeType(s[1..]);
      if kind.Err? then Err(kind.error)
      else
        var name := DecodeBin(kind.value.1);
        if name.Err? then Err(name.error)
        else if !ValidUtf8(name.value.0) then Err(InvalidUtf8)
        else
          var payload := DecodeBin(name.value.1);
          if payload.Err? then Err(payload.error)
          else Ok((Tuple(kind.value.0, name.value.0, payload.value.0), payload.value.1))
  }

  function DecodeAll(s: Bytes, n: nat): Result<(seq<Tuple>, Bytes), Error>
    decreases n
  {
    hide DecodeTuple;
    if n == 0 then Ok(([], s))
    else
      match DecodeTuple(s)
      case Err(e) => Err(e)
      case Ok((first, rest)) =>
        match DecodeAll(rest, n - 1)
        case Err(e) => Err(e)
        case Ok((more, rest')) => Ok(([first] + more, rest'))
  }

  // ---- round trips ----

  lemma {:induction false} Be16RoundTrip(n: nat)
    requires n < 0x1_0000
    ensures FromBe(Be16(n)) == n
  {
    var s := Be16(n);
    assert s[..1] == [n / 0x100] && s[..1][..0] == [];
    assert FromBe(s[..1]) == n / 0x100;
  }

  lemma {:induction false} Be32RoundTrip(n: nat)
    requires n < TWO_32
    ensures FromBe(Be32(n)) == n
  {
    var s := Be32(n);
    var a: nat, b: nat, c: nat := s[0], s[1], s[2];
    assert s[..3][..2] == s[..2] && s[..2][..1] == s[..1] && s[..1][..0] == [];
    assert FromBe(s[..1]) == a;
    assert FromBe(s[..2]) == a * 0x100 + b;
    assert FromBe(s[..3]) == (a * 0x100 + b) * 0x100 + c;
    BytesOf(n);
  }

  lemma BytesOf(n: nat)
    requires n < TWO_32
    ensures (((n / 0x100_0000 % 0x100) * 0x100 + n / 0x1_0000 % 0x100) * 0x100 + n / 0x100 % 0x100)
              * 0x100 + n % 0x100 == n
  {
    var q := n / 0x100;
    var r := q / 0x100;
    assert n == q * 0x100 + n % 0x100;
    assert q == r * 0x100 + q % 0x100;
    assert r == r / 0x100 * 0x100 + r % 0x100;
    assert n / 0x1_0000 == r && n / 0x100_0000 == r / 0x100;
    assert r / 0x100 < 0x100;
  }

  /** The three headers of the bin format family. */
  datatype Form = Bin8 | Bin16 | Bin32

  function Header(f: Form, n: nat): Bytes
    requires CanHold(f, n)
  {
    match f
    case Bin8 => [BIN_8, n]
    case Bin16 => [BIN_16] + Be16(n)
    case Bin32 => [BIN_32] + Be32(n)
  }

  predicate CanHold(f: Form, n: nat) {
    match f
    case Bin8 => n < 0x100
    case Bin16 => n < 0x1_0000
    case Bin32 => n < TWO_32
  }

  lemma {:induction false} DecodeParts(marker: Byte, length: Bytes, d: Bytes, rest: Bytes)
    requires LengthWidth(marker) == Some(|length|) && FromBe(length) == |d|
    ensures DecodeBin([marker] + length + d + rest) == Ok((d, rest))
  {
    var s := [marker] + length + d + rest;
    assert s[1..] == length + (d + rest);
    assert s[1..][..|length|] == length && s[1..][|length|..] == d + rest;
    assert (d + rest)[..|d|] == d && (d + rest)[|d|..] == rest;
  }

  /** Reading accepts every header that can hold the length, not only the one writing would choose. */
  lemma {:induction false} AnyHeaderReads(f: Form, d: Bytes, rest: Bytes)
    requires CanHold(f, |d|)
    ensures DecodeBin(Header(f, |d|) + d + rest) == Ok((d, rest))
  {
    hide Be16, Be32;
    match f {
      case Bin8 =>
        assert FromBe([|d|]) == |d| by {
          assert [|d|][..0] == [];
        }
        assert Header(f, |d|) == [BIN_8] + [|d|];
        DecodeParts(BIN_8, [|d|], d, rest);
      case Bin16 =>
        Be16RoundTrip(|d|);
        DecodeParts(BIN_16, Be16(|d|), d, rest);
      case Bin32 =>
        Be32RoundTrip(|d|);
        DecodeParts(BIN_32, Be32(|d|), d, rest);
    }
  }

  /** Writing chooses the shortest header that can hold the length. */
  lemma {:induction false} ShortestHeader(d: Bytes, f: Form)
    requires CanHold(f, |d|)
    ensures |EncodeBin(d)| <= |Header(f, |d|) + d|
    ensures exists g :: CanHold(g, |d|) && EncodeBin(d) == Header(g, |d|) + d
  {
    hide Be16, Be32;
    var g := if |d| < 0x100 then Bin8 else if |d| < 0x1_0000 then Bin16 else Bin32;
    assert EncodeBin(d) == Header(g, |d|) + d;
  }

  /** Binary data comes back exactly when its length fits into 32 bits. */
  lemma {:induction false} BinRoundTrip(d: Bytes, rest: Bytes)
    ensures DecodeBin(EncodeBin(d) + rest) == Ok((d, rest)) <==> |d| < TWO_32
  {
    hide Be16, Be32;
    if |d| < TWO_32 {
      var g := if |d| < 0x100 then Bin8 else if |d| < 0x1_0000 then Bin16 else Bin32;
      assert EncodeBin(d) == Header(g, |d|) + d;
      AnyHeaderReads(g, d, rest);
    } else {
      BinTruncated(d, rest);
    }
  }

  /** Longer data is cut to its length modulo 2^32, and what is cut off is taken for what follows. */
  lemma {:induction false} BinTruncated(d: Bytes, rest: Bytes)
    requires |d| >= TWO_32
    ensures var n := |d| % TWO_32; DecodeBin(EncodeBin(d) + rest) == Ok((d[..n], d[n..] + rest))
  {
    hide Be16, Be32;
    var n := |d| % TWO_32;
    AnyHeaderReads(Bin32, d[..n], d[n..] + rest);
    assert Header(Bin32, n) + d[..n] + (d[n..] + rest) == EncodeBin(d) + rest;
  }

  predicate GoodTuple(t: Tuple) {
    ValidType(t.kind) && ValidUtf8(t.name) && |t.name| < TWO_32 && |t.payload| < TWO_32
  }

  /** A tuple comes back, and leaves what follows it untouched, exactly when its type is known, its name is text and
    * both lengths fit.
    */
  lemma {:induction false} TupleRoundTrip(t: Tuple, rest: Bytes)
    ensures DecodeTuple(EncodeTuple(t) + rest) == Ok((t, rest)) <==> GoodTuple(t)
  {
    hide DecodeBin, EncodeBin, ValidUtf8;
    var s := EncodeTuple(t) + rest;
    var after := EncodeBin(t.name) + (EncodeBin(t.payload) + rest);
    assert s[1..] == [t.kind] + after;
    if ValidType(t.kind) {
      assert s[1..][1..] == after;
      assert DecodeType(s[1..]) == Ok((t.kind, after));
      BinRoundTrip(t.name, EncodeBin(t.payload) + rest);
      BinRoundTrip(t.payload, rest);
      if |t.name| >= TWO_32 {
        BinTruncated(t.name, EncodeBin(t.payload) + rest);
      }
    } else {
      MarkerFirst(t.name);
      assert DecodeType(s[1..]).Err?;
    }
  }

  lemma MarkerFirst(d: Bytes)
    ensures EncodeBin(d) != [] && !ValidType(EncodeBin(d)[0])
  {
  }

  /** A concatenation of written tuples reads back as the same list, followed by what followed it. */
  lemma {:induction false} StreamRoundTrip(ts: seq<Tuple>, rest: Bytes)
    requires forall t | t in ts :: GoodTuple(t)
    ensures DecodeAll(EncodeAll(ts) + rest, |ts|) == Ok((ts, rest))
    decreases |ts|
  {
    hide DecodeTuple, EncodeTuple, GoodTuple;
    if ts == [] {
      assert EncodeAll(ts) + rest == rest;
    } else {
      TupleRoundTrip(ts[0], EncodeAll(ts[1..]) + rest);
      assert EncodeAll(ts) + rest == EncodeTuple(ts[0]) + (EncodeAll(ts[1..]) + rest);
      StreamRoundTrip(ts[1..], rest);
      assert [ts[0]] + ts[1..] == ts;
    }
  }

  /** No code of a tuple begins another one's. */
  lemma {:induction false} PrefixFree(a: Tuple, b: Tuple, x: Bytes, y: Bytes)
    requires GoodTuple(a) && GoodTuple(b) && EncodeTuple(a) + x == EncodeTuple(b) + y
    ensures a == b && x == y
  {
    hide DecodeTuple, EncodeTuple, GoodTuple;
    TupleRoundTrip(a, x);
    TupleRoundTrip(b, y);
  }

  // ---- the format in numbers (the bin and array format families and the int formats of MessagePack) ----

  /** Two bytes as a number. */
  function Number16(a: Byte, b: Byte): nat {
    a * 0x100 + b
  }

  function Number32(a: Byte, b: Byte, c: Byte, d: Byte): nat {
    Number16(a, b) * 0x1_0000 + Number16(c, d)
  }

  /** `code` is a binary header for `n` bytes in one of the three forms. */
  ghost predicate IsHeader(code: Bytes, n: nat) {
    || (|code| == 2 && code[0] == 0xC4 && code[1] == n)
    || (|code| == 3 && code[0] == 0xC5 && Number16(code[1], code[2]) == n)
    || (|code| == 5 && code[0] == 0xC6 && Number32(code[1], code[2], code[3], code[4]) == n)
  }

  /** `code` stands for a message type: a number from 1 to 6 as it is or after the mark of an unsigned byte. */
  predicate IsTypeCode(code: Bytes, kind: Byte) {
    1 <= kind <= 6 && (code == [kind] || code == [0xCC, kind])
  }

  lemma {:induction false} FromBeIs(s: Bytes)
    ensures |s| == 1 ==> FromBe(s) == s[0]
    ensures |s| == 2 ==> FromBe(s) == Number16(s[0], s[1])
    ensures |s| == 4 ==> FromBe(s) == Number32(s[0], s[1], s[2], s[3])
  {
    if |s| > 0 {
      FromBeIs(s[..|s| - 1]);
      if |s| == 4 {
        FromBeIs(s[..2]);
        assert s[..3][..2] == s[..2];
        assert FromBe(s[..3]) == FromBe(s[..2]) * 0x100 + s[2];
      }
    }
    assert FromBe([]) == 0;
  }

  /** What is written for binary data begins with the shortest header that can hold its length. */
  lemma {:induction false} WrittenHeader(d: Bytes) returns (header: Bytes)
    requires |d| < TWO_32
    ensures EncodeBin(d) == header + d && IsHeader(header, |d|)
    ensures |header| == if |d| <= 0xFF then 2 else if |d| <= 0xFFFF then 3 else 5
  {
    hide Be16, Be32, FromBe, Number16, Number32;
    if |d| < 0x100 {
      header := [BIN_8, |d|];
    } else if |d| < 0x1_0000 {
      header := [BIN_16] + Be16(|d|);
      Be16RoundTrip(|d|);
      FromBeIs(Be16(|d|));
    } else {
      header := [BIN_32] + Be32(|d|);
      Be32RoundTrip(|d|);
      FromBeIs(Be32(|d|));
    }
  }

  /** Binary data is read exactly from what begins with a header for its length and the data. */
  lemma {:induction false} BinAccepted(s: Bytes, d: Bytes, rest: Bytes)
    ensures DecodeBin(s) == Ok((d, rest)) <==> exists header: Bytes :: IsHeader(header, |d|) && s == header + d + rest
  {
    if DecodeBin(s) == Ok((d, rest)) {
      var header := HeaderRead(s, d, rest);
    }
    if header: Bytes :| IsHeader(header, |d|) && s == header + d + rest {
      hide FromBe, Number16, Number32;
      FromBeIs(header[1..]);
      assert header == [header[0]] + header[1..];
      DecodeParts(header[0], header[1..], d, rest);
    }
  }

  lemma {:induction false} HeaderRead(s: Bytes, d: Bytes, rest: Bytes) returns (header: Bytes)
    requires DecodeBin(s) == Ok((d, rest))
    ensures IsHeader(header, |d|) && s == header + d + rest
  {
    hide FromBe, Number16, Number32;
    var w := LengthWidth(s[0]).value;
    var length := s[1..][..w];
    FromBeIs(length);
    header := [s[0]] + length;
    assert s == header + s[1..][w..];
  }

  lemma {:induction false} TypeAccepted(s: Bytes, kind: Byte, rest: Bytes)
    ensures DecodeType(s) == Ok((kind, rest)) <==> exists code: Bytes :: IsTypeCode(code, kind) && s == code + rest
  {
    if DecodeType(s) == Ok((kind, rest)) {
      if s[0] <= 0x7F {
        assert IsTypeCode([kind], kind) && s == [kind] + rest;
      } else {
        assert IsTypeCode([0xCC, kind], kind) && s == [0xCC, kind] + rest;
      }
    }
    if code: Bytes :| IsTypeCode(code, kind) && s == code + rest {
      assert s[|code|..] == rest;
      assert s[0] == code[0];
    }
  }

  /** The five parts of a tuple: array of three, type, name, payload, and what follows. */
  ghost predicate IsTuple(s: Bytes, t: Tuple, rest: Bytes) {
    exists code: Bytes, h: Bytes, g: Bytes ::
      IsTypeCode(code, t.kind) && IsHeader(h, |t.name|) && IsHeader(g, |t.payload|)
      && s == [0x93] + code + (h + t.name + (g + t.payload + rest))
  }

  /** A tuple is read exactly from its five parts, if its name is UTF-8. */
  lemma {:induction false} TupleAccepted(s: Bytes, t: Tuple, rest: Bytes)
    ensures DecodeTuple(s) == Ok((t, rest)) <==> IsTuple(s, t, rest) && ValidUtf8(t.name)
  {
    hide DecodeBin, DecodeType, ValidUtf8, IsHeader, IsTypeCode;
    if DecodeTuple(s) == Ok((t, rest)) {
      var afterType := DecodeType(s[1..]).value.1;
      var afterName := DecodeBin(afterType).value.1;
      TypeAccepted(s[1..], t.kind, afterType);
      BinAccepted(afterType, t.name, afterName);
      BinAccepted(afterName, t.payload, rest);
      var code: Bytes :| IsTypeCode(code, t.kind) && s[1..] == code + afterType;
      var h: Bytes :| IsHeader(h, |t.name|) && afterType == h + t.name + afterName;
      var g: Bytes :| IsHeader(g, |t.payload|) && afterName == g + t.payload + rest;
      assert s == [0x93] + s[1..];
      assert s == [0x93] + code + (h + t.name + (g + t.payload + rest));
    }
    if IsTuple(s, t, rest) && ValidUtf8(t.name) {
      var code: Bytes, h: Bytes, g: Bytes :|
        IsTypeCode(code, t.kind) && IsHeader(h, |t.name|) && IsHeader(g, |t.payload|)
        && s == [0x93] + code + (h + t.name + (g + t.payload + rest));
      var afterName := g + t.payload + rest;
      var afterType := h + t.name + afterName;
      assert s[1..] == code + afterType;
      TypeAccepted(s[1..], t.kind, afterType);
      BinAccepted(afterType, t.name, afterName);
      BinAccepted(afterName, t.payload, rest);
    }
  }

  /** Anything else is an error, and the first thing that is wrong decides which. */
  lemma {:induction false} FirstErrors(s: Bytes)
    ensures s == [] ==> DecodeTuple(s) == Err(UnexpectedEof)
    ensures s != [] && s[0] != 0x93 ==> DecodeTuple(s) == Err(NotATuple(s[0]))
    ensures s == [0x93] ==> DecodeTuple(s) == Err(UnexpectedEof)
    ensures |s| >= 2 && s[0] == 0x93 && s[1] > 0x7F && s[1] != 0xCC ==> DecodeTuple(s) == Err(NotAType(s[1]))
    ensures |s| >= 2 && s[0] == 0x93 && s[1] <= 0x7F && !(1 <= s[1] <= 6) ==> DecodeTuple(s) == Err(UnknownType(s[1]))
    ensures |s| >= 3 && s[0] == 0x93 && s[1] == 0xCC && !(1 <= s[2] <= 6) ==> DecodeTuple(s) == Err(UnknownType(s[2]))
  {
    hide DecodeBin, ValidUtf8;
  }

  // ---- the streams ----

  class Reader {
    const input: Bytes
    var pos: nat

    ghost predicate Valid()
      reads this
    {
      pos <= |input|
    }

    /** What is still to be read. */
    function Rest(): Bytes
      reads this
      requires Valid()
    {
      input[pos..]
    }

    constructor (input: Bytes)
      ensures this.input == input && Valid() && pos == 0 && Rest() == input
    {
      this.input := input;
      this.pos := 0;
    }

    method ReadByte() returns (r: Result<Byte, Error>)
      requires Valid()
      modifies this
      ensures Valid() && pos >= old(pos)
      ensures r == if old(Rest()) == [] then Err(UnexpectedEof) else Ok(old(Rest())[0])
      ensures r.Ok? ==> Rest() == old(Rest())[1..]
    {
      if pos == |input| {
        return Err(UnexpectedEof);
      }
      r := Ok(input[pos]);
      pos := pos + 1;
    }

    method ReadExact(n: nat) returns (r: Result<Bytes, Error>)
      requires Valid()
      modifies this
      ensures Valid() && pos >= old(pos)
      ensures r.Ok? <==> n <= |old(Rest())|
      ensures r.Ok? ==> Split(old(Rest()), n) == Ok((r.value, Rest()))
      ensures r.Err? ==> r.error == UnexpectedEof
    {
      if n > |input| - pos {
        return Err(UnexpectedEof);
      }
      assert Rest()[..n] == input[pos..pos + n] && Rest()[n..] == input[pos + n..];
      r := Ok(input[pos..pos + n]);
      pos := pos + n;
    }

    method ReadBin() returns (r: Result<Bytes, Error>)
      requires Valid()
      modifies this
      ensures Valid() && pos >= old(pos)
      ensures var d := DecodeBin(old(Rest()));
              if d.Ok? then r == Ok(d.value.0) && Rest() == d.value.1 else r == Err(d.error)
    {
      var marker := ReadByte();
      if marker.Err? {
        return Err(marker.error);
      }
      var width := LengthWidth(marker.value);
      if width.None? {
        return Err(NotBinary(marker.value));
      }
      var length := ReadExact(width.value);
      if length.Err? {
        return length;
      }
      r := ReadExact(FromBe(length.value));
    }

    method ReadType() returns (r: Result<Byte, Error>)
      requires Valid()
      modifies this
      ensures Valid() && pos >= old(pos)
      ensures var d := DecodeType(old(Rest()));
              if d.Ok? then r == Ok(d.value.0) && Rest() == d.value.1 else r == Err(d.error)
    {
      var first := ReadByte();
      if first.Err? {
        return first;
      }
      var kind := first.value;
      if kind > 0x7F {
        if kind != UINT_8 {
          return Err(NotAType(kind));
        }
        var second := ReadByte();
        if second.Err? {
          return second;
        }
        kind := second.value;
      }
      r := if ValidType(kind) then Ok(kind) else Err(UnknownType(kind));
    }

    method ReadTuple() returns (r: Result<Tuple, Error>)
      requires Valid()
      modifies this
      ensures Valid() && pos >= old(pos)
      ensures var d := DecodeTuple(old(Rest()));
              if d.Ok? then r == Ok(d.value.0) && Rest() == d.value.1 else r == Err(d.error)
    {
      hide DecodeBin, DecodeType, ValidUtf8;
      var marker := ReadByte();
      if marker.Err? {
        return Err(marker.error);
      }
      if marker.value != FIXED_ARRAY_3 {
        return Err(NotATuple(marker.value));
      }
      var kind := ReadType();
      if kind.Err? {
        return Err(kind.error);
      }
      var name := ReadBin();
      if name.Err? {
        return Err(name.error);
      }
      if !ValidUtf8(name.value) {
        return Err(InvalidUtf8);
      }
      var payload := ReadBin();
      if payload.Err? {
        return Err(payload.error);
      }
      r := Ok(Tuple(kind.value, name.value, payload.value));
    }
  }

  lemma Grouped(a: Bytes, b: Bytes, c: Bytes)
    ensures a + b + c == a + (b + c)
  {
  }

  class Writer {
    var output: Bytes

    constructor ()
      ensures output == []
    {
      output := [];
    }

    method WriteAll(data: Bytes)
      modifies this
      ensures output == old(output) + data
    {
      output := output + data;
    }

    method WriteBin(data: Bytes)
      modifies this
      ensures output == old(output) + EncodeBin(data)
    {
      hide Be16, Be32;
      var length := |data|;
      ghost var header: Bytes;
      if length < 0x100 {
        header := [BIN_8, length];
        WriteAll([BIN_8, length]);
      } else if length < 0x1_0000 {
        WriteAll([BIN_16]);
        WriteAll(Be16(length));
        header := [BIN_16] + Be16(length);
        Grouped(old(output), [BIN_16], Be16(length));
      } else {
        WriteAll([BIN_32]);
        WriteAll(Be32(length % TWO_32));
        header := [BIN_32] + Be32(length % TWO_32);
        Grouped(old(output), [BIN_32], Be32(length % TWO_32));
      }
      assert EncodeBin(data) == header + data;
      hide EncodeBin;
      WriteAll(data);
      Grouped(old(output), header, data);
    }

    method WriteTuple(t: Tuple)
      modifies this
      ensures output == old(output) + EncodeTuple(t)
    {
      hide EncodeBin;
      WriteAll([FIXED_ARRAY_3]);
      WriteAll([t.kind]);
      WriteBin(t.name);
      WriteBin(t.payload);
    }
  }

  // ---- raw bytes inside JSON ----

  const RAW_BINARY_MARKER := "__ts_raw_binary"

  function RawBinary(data: Bytes): Json {
    JObject(map[RAW_BINARY_MARKER := JArray(seq(|data|, i requires 0 <= i < |data| => JInteger(data[i])))])
  }

  /** Recognizes exactly the objects that stand for raw bytes, and gives those bytes back. */
  method RawBinaryPayload(value: Json) returns (r: Option<Bytes>)
    ensures forall data: Bytes :: r == Some(data) <==> value == RawBinary(data)
    ensures r.Some? ==>
              && value.JObject? && value.fields.Keys == {"__ts_raw_binary"}
              && value.fields["__ts_raw_binary"].JArray?
              && var items := value.fields["__ts_raw_binary"].items;
                 |items| == |r.value| && forall i | 0 <= i < |items| :: items[i].JInteger? && items[i].i == r.value[i]
  {
    if !value.JObject? || |value.fields| != 1 || RAW_BINARY_MARKER !in value.fields
       || !value.fields[RAW_BINARY_MARKER].JArray? {
      NotRawBinary(value);
      return None;
    }
    OnlyKey(value.fields, RAW_BINARY_MARKER);
    var items := value.fields[RAW_BINARY_MARKER].items;
    var payload: Bytes := [];
    while |payload| < |items|
      invariant |payload| <= |items|
      invariant forall i | 0 <= i < |payload| :: items[i] == JInteger(payload[i])
    {
      var item := items[|payload|];
      if !item.JInteger? || item.i < 0 || item.i > 0xFF {
        NotAllBytes(value, items, |payload|);
        return None;
      }
      payload := payload + [item.i];
    }
    r := Some(payload);
    assert RawBinary(payload).fields[RAW_BINARY_MARKER].items == items;
    assert value.fields == map[RAW_BINARY_MARKER := JArray(items)];
    forall data: Bytes | value == RawBinary(data) ensures data == payload {
      assert RawBinary(data).fields[RAW_BINARY_MARKER].items == items;
    }
  }

  lemma NotRawBinary(value: Json)
    requires !value.JObject? || |value.fields| != 1 || RAW_BINARY_MARKER !in value.fields
             || !value.fields[RAW_BINARY_MARKER].JArray?
    ensures forall data: Bytes :: value != RawBinary(data)
  {
  }

  lemma NotAllBytes(value: Json, items: seq<Json>, k: nat)
    requires value.JObject? && RAW_BINARY_MARKER in value.fields && value.fields[RAW_BINARY_MARKER] == JArray(items)
    requires k < |items| && (!items[k].JInteger? || items[k].i < 0 || items[k].i > 0xFF)
    ensures forall data: Bytes :: value != RawBinary(data)
  {
    forall data: Bytes ensures value != RawBinary(data) {
      var other := RawBinary(data).fields[RAW_BINARY_MARKER].items;
      assert k < |other| ==> other[k] == JInteger(data[k]);
    }
  }

  lemma OnlyKey(m: map<string, Json>, k: string)
    requires |m| == 1 && k in m
    ensures m == map[k := m[k]]
  {
    assert m.Keys == {k} by {
      assert |m.Keys - {k}| == 0;
    }
  }
}
