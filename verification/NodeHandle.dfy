/** Node handles: position, end, kind and path in one text with dots in between. */
module NodeHandles {
  import opened Decimals
  import opened Options

  datatype Handle = Handle(pos: int, end: int, kind: nat, path: string)

  const I32_MIN := -0x8000_0000
  const I32_MAX := 0x7fff_ffff
  const I16_MIN := -0x8000
  const I16_MAX := 0x7fff

  // ---- kinds ----

  const KIND_UNKNOWN := 0
  const KIND_COUNT := 314

  /** Kinds are numbered one after the other; the count follows the last one and itself. */
  function NextKind(k: nat): nat {
    if k < KIND_COUNT then k + 1 else KIND_COUNT
  }

  /** The kind of a number, `Unknown` for numbers of no kind. */
  function KindOf(value: int): nat {
    if 0 <= value < KIND_COUNT then value else KIND_UNKNOWN
  }

  /** Walks from the first kind to the kind of the number. */
  method KindFromI16(value: int) returns (kind: nat)
    ensures kind == KindOf(value)
  {
    if value < 0 || value >= KIND_COUNT {
      return KIND_UNKNOWN;
    }
    kind := KIND_UNKNOWN;
    for i := 0 to value
      invariant kind == i
    {
      kind := NextKind(kind);
    }
  }

  // ---- handles ----

  /** The handle of a node; `kind` is the text the kind is shown as. */
  function Print(pos: int, end: int, kind: string, path: string): string {
    Decimal(pos) + "." + Decimal(end) + "." + kind + "." + path
  }

  /** The text before the first dot and the text after it. */
  function SplitDot(s: string): Option<(string, string)> {
    if s == "" then None
    else if s[0] == '.' then Some(("", s[1..]))
    else
      match SplitDot(s[1..])
      case None => None
      case Some((a, b)) => Some(([s[0]] + a, b))
  }

  /** Four parts, of which the last may contain dots; the first three must be numbers of the right width. */
  function Parse(s: string): Option<Handle> {
    match SplitDot(s)
    case None => None
    case Some((pos, rest)) =>
      match SplitDot(rest)
      case None => None
      case Some((end, rest')) =>
        match SplitDot(rest')
        case None => None
        case Some((kind, path)) =>
          var p, e, k := ParseInt(pos, I32_MIN, I32_MAX), ParseInt(end, I32_MIN, I32_MAX),
                         ParseInt(kind, I16_MIN, I16_MAX);
          if p.None? || e.None? || k.None? then None else Some(Handle(p.value, e.value, KindOf(k.value), path))
  }

  lemma {:induction false} SplitDotFirst(a: string, b: string)
    requires '.' !in a
    ensures SplitDot(a + "." + b) == Some((a, b))
  {
    if a == "" {
      assert a + "." + b == "." + b;
    } else {
      assert a[0] in a && forall c | c in a[1..] :: c in a;
      SplitDotFirst(a[1..], b);
      assert (a + "." + b)[1..] == a[1..] + "." + b;
      assert [a[0]] + a[1..] == a;
    }
  }

  lemma DecimalNoDot(n: int)
    ensures '.' !in Decimal(n)
  {
    DecimalNatDigits(if n < 0 then -n else n);
  }

  /** Parsing reads the kind of a printed handle as a number and the rest as it was printed. */
  lemma PrintedParses(pos: int, end: int, kind: string, path: string)
    requires '.' !in kind
    ensures Print(pos, end, kind, path) == Decimal(pos) + "." + Decimal(end) + "." + kind + "." + path
    ensures Parse(Decimal(pos) + "." + Decimal(end) + "." + kind + "." + path) ==
              var k := ParseInt(kind, I16_MIN, I16_MAX);
              if k.None? || !(-0x8000_0000 <= pos <= 0x7fff_ffff) || !(-0x8000_0000 <= end <= 0x7fff_ffff) then None
              else Some(Handle(pos, end, KindOf(k.value), path))
  {
    hide SplitDot, ParseInt, Decimal;
    var rest' := kind + "." + path;
    var rest := Decimal(end) + "." + rest';
    DecimalNoDot(pos);
    DecimalNoDot(end);
    assert Print(pos, end, kind, path) == Decimal(pos) + "." + rest;
    SplitDotFirst(Decimal(pos), rest);
    SplitDotFirst(Decimal(end), rest');
    SplitDotFirst(kind, path);
    ParseDecimal(pos, I32_MIN, I32_MAX);
    ParseDecimal(end, I32_MIN, I32_MAX);
  }

  /** Kinds are shown by name, so no handle that is given out for a node can be parsed again. */
  lemma IssuedHandleNeverParses(pos: int, end: int, name: string, path: string)
    requires '.' !in name
    ensures Parse(Decimal(pos) + "." + Decimal(end) + ".Kind" + name + "." + path).None?
  {
    PrintedParses(pos, end, "Kind" + name, path);
    NotANumeral("Kind" + name, I16_MIN, I16_MAX);
    hide Parse, Decimal;
    assert Decimal(pos) + "." + Decimal(end) + "." + ("Kind" + name) + "." + path
           == Decimal(pos) + "." + Decimal(end) + ".Kind" + name + "." + path;
  }

  /** With the number of the kind in its place every handle of a kind would come back, dots in the path included; a
    * number of no kind would come back as `Unknown`, and numbers that are too wide would be refused.
    */
  lemma NumericHandleRoundTrip(pos: int, end: int, kind: int, path: string)
    ensures var text := Decimal(pos) + "." + Decimal(end) + "." + Decimal(kind) + "." + path;
            var fits := -0x8000_0000 <= pos <= 0x7fff_ffff && -0x8000_0000 <= end <= 0x7fff_ffff;
            && (fits && 0 <= kind < 314 ==> Parse(text) == Some(Handle(pos, end, kind, path)))
            && (fits && -0x8000 <= kind <= 0x7fff && !(0 <= kind < 314) ==>
                  Parse(text) == Some(Handle(pos, end, 0, path)))
            && (!fits || !(-0x8000 <= kind <= 0x7fff) ==> Parse(text) == None)
  {
    DecimalNoDot(kind);
    PrintedParses(pos, end, Decimal(kind), path);
    ParseDecimal(kind, I16_MIN, I16_MAX);
  }
}
