/** `parse_value` and its helpers as they run: a position that moves through the text,
    and child lists that grow at the end. A position is the text from there on. */
module JsonReader {
  import opened CText
  import opened Json
  import opened JsonParser
  import opened JsonStrings
  import JsonPrinter
  import JsonRoundTrip

  method SkipBlanks(s: Text) returns (r: Text)
    ensures r == Skip(s)
  {
    r := s;
    while r != [] && r[0] <= 32
      invariant Skip(r) == Skip(s)
    {
      r := r[1..];
    }
  }

  method ReadDigits(start: real, s: Text) returns (n: real, r: Text)
    ensures n == DigitsValue(start, s) && r == s[DigitCount(s)..]
  {
    n, r := start, s;
    ghost var k := 0;
    while r != [] && IsDigit(r[0])
      invariant k <= |s| && r == s[k..]
      invariant DigitsValue(start, s) == DigitsValue(n, r) && DigitCount(s) == k + DigitCount(r)
      decreases |r|
    {
      n := n * 10.0 + HexValue(r[0]) as real;
      r := r[1..];
      k := k + 1;
    }
  }

  method ReadFraction(start: real, s: Text) returns (n: real, rest: Text, scale: nat)
    ensures (n, rest, scale) == Fraction(start, s)
  {
    if At(s, 0) != DOT || !IsDigit(At(s, 1)) { return start, s, 0; }
    var digits := s[1..];
    n, rest := ReadDigits(start, digits);
    assert digits[DigitCount(digits)..] == s[1 + DigitCount(digits)..];
    scale := |digits| - |rest|;
  }

  method ReadExponent(s: Text) returns (subscale: int, rest: Text)
    ensures (subscale, rest) == Exponent(s)
  {
    if At(s, 0) != 101 && At(s, 0) != 69 { return 0, s; }
    var negative := false;
    rest := s[1..];
    if At(rest, 0) == 43 {
      rest := rest[1..];
    } else if At(rest, 0) == MINUS {
      negative, rest := true, rest[1..];
    }
    assert |s| >= 2 ==> s[1..][1..] == s[2..];
    var e;
    e, rest := ReadDigits(0.0, rest);
    subscale := if negative then -e.Floor else e.Floor;
  }

  method ReadMantissa(s: Text) returns (negative: bool, n: real, rest: Text)
    ensures (negative, n, rest) == Mantissa(s)
  {
    negative, n, rest := false, 0.0, s;
    if At(rest, 0) == MINUS { negative, rest := true, rest[1..]; }
    if At(rest, 0) == 48 { rest := rest[1..]; }
    if 49 <= At(rest, 0) <= 57 { n, rest := ReadDigits(n, rest); }
  }

  /** `parse_number`. */
  method ReadNumber(s: Text) returns (value: real, rest: Text)
    ensures (value, rest) == ParseNumber(s)
  {
    var negative, n, scale, subscale;
    negative, n, rest := ReadMantissa(s);
    n, rest, scale := ReadFraction(n, rest);
    subscale, rest := ReadExponent(rest);
    value := Scaled(negative, n, subscale - scale);
  }

  /** What the element loop still has to do: `items` are parsed and `s` follows them. */
  function MoreItems(items: seq<Json>, s: Text): Parsed<seq<Json>> {
    if At(s, 0) == COMMA then
      match ParseItems(s[1..])
      case Ok(vs, rest) => Ok(items + vs, rest)
      case Fail => Fail
      case Overrun => Overrun
    else if At(s, 0) == CLOSE_BRACKET then Ok(items, s[1..])
    else Fail
  }

  lemma MoreItemsStep(items: seq<Json>, s: Text, v: Json, rest: Text)
    requires At(s, 0) == COMMA && ParseValue(Skip(s[1..])) == Ok(v, rest)
    ensures MoreItems(items, s) == MoreItems(items + [v], Skip(rest))
  {
    ItemsBegin(s[1..], v, rest);
    var s1 := Skip(rest);
    if At(s1, 0) == COMMA && ParseItems(s1[1..]).Ok? {
      var vs := ParseItems(s1[1..]).value;
      assert items + ([v] + vs) == items + [v] + vs;
    }
  }

  lemma ItemsBegin(s: Text, v: Json, rest: Text)
    requires ParseValue(Skip(s)) == Ok(v, rest)
    ensures ParseItems(s) == MoreItems([v], Skip(rest))
  {
  }

  function MoreMembers(members: seq<Member>, s: Text): Parsed<seq<Member>> {
    if At(s, 0) == COMMA then
      match ParseMembers(s[1..])
      case Ok(ms, rest) => Ok(members + ms, rest)
      case Fail => Fail
      case Overrun => Overrun
    else if At(s, 0) == CLOSE_BRACE then Ok(members, s[1..])
    else Fail
  }

  lemma MoreMembersStep(members: seq<Member>, s: Text, m: Member, rest: Text)
    requires At(s, 0) == COMMA && ParseMember(s[1..]) == Ok(m, rest)
    ensures MoreMembers(members, s) == MoreMembers(members + [m], Skip(rest))
  {
    MembersBegin(s[1..], m, rest);
    var s1 := Skip(rest);
    if At(s1, 0) == COMMA && ParseMembers(s1[1..]).Ok? {
      var ms := ParseMembers(s1[1..]).value;
      assert members + ([m] + ms) == members + [m] + ms;
    }
  }

  lemma MembersBegin(s: Text, m: Member, rest: Text)
    requires ParseMember(s) == Ok(m, rest)
    ensures ParseMembers(s) == MoreMembers([m], Skip(rest))
  {
  }

  lemma Unfold(s: Text)
    ensures !ParseMember(s).Ok? ==> ParseMembers(s) == (if ParseMember(s).Fail? then Fail else Overrun)
    ensures !ParseValue(Skip(s)).Ok? ==> ParseItems(s) == (if ParseValue(Skip(s)).Fail? then Fail else Overrun)
  {
  }

  /** `parse_value`. */
  method ReadValue(s: Text) returns (r: Parsed<Json>)
    ensures r == ParseValue(s)
    decreases |s|, 3
  {
    if StartsWith(s, NULL_TEXT) { return Ok(Null, s[4..]); }
    if StartsWith(s, FALSE_TEXT) { return Ok(False, s[5..]); }
    if StartsWith(s, TRUE_TEXT) { return Ok(True, s[4..]); }
    if At(s, 0) == QUOTE {
      var t := ParseStringLiteral(s);
      return match t case Ok(v, rest) => Ok(Str(v), rest) case Fail => Fail case Overrun => Overrun;
    }
    if At(s, 0) == MINUS || IsDigit(At(s, 0)) {
      var n, rest := ReadNumber(s);
      return Ok(Number(n), rest);
    }
    if At(s, 0) == OPEN_BRACKET {
      r := ReadArray(s);
    } else if At(s, 0) == OPEN_BRACE {
      r := ReadObject(s);
    } else {
      r := Fail;
    }
  }

  method ReadArray(s: Text) returns (r: Parsed<Json>)
    requires At(s, 0) == OPEN_BRACKET
    ensures r == ParseArray(s)
    decreases |s|, 2
  {
    var value := SkipBlanks(s[1..]);
    if At(value, 0) == CLOSE_BRACKET { return Ok(Arr([]), value[1..]); }
    ghost var first := value;
    Unfold(value);
    value := SkipBlanks(value);
    var child := ReadValue(value);
    if !child.Ok? { return if child.Fail? then Fail else Overrun; }
    var items := [child.value];
    ItemsBegin(first, child.value, child.rest);
    value := SkipBlanks(child.rest);
    while At(value, 0) == COMMA
      invariant |value| < |s|
      invariant ParseItems(first) == MoreItems(items, value)
      decreases |value|
    {
      Unfold(value[1..]);
      var next := SkipBlanks(value[1..]);
      child := ReadValue(next);
      if !child.Ok? { return if child.Fail? then Fail else Overrun; }
      MoreItemsStep(items, value, child.value, child.rest);
      items := items + [child.value];
      value := SkipBlanks(child.rest);
    }
    if At(value, 0) == CLOSE_BRACKET { return Ok(Arr(items), value[1..]); }
    return Fail;
  }

  /** A key, a colon and a value, with the blanks between them. */
  method ReadMember(s: Text) returns (r: Parsed<Member>)
    ensures r == ParseMember(s)
    decreases |s|, 4
  {
    var value := SkipBlanks(s);
    var key := ParseStringLiteral(value);
    if !key.Ok? { return if key.Fail? then Fail else Overrun; }
    value := SkipBlanks(key.rest);
    if At(value, 0) != COLON { return Fail; }
    value := SkipBlanks(value[1..]);
    var v := ReadValue(value);
    if !v.Ok? { return if v.Fail? then Fail else Overrun; }
    return Ok(Member(key.value, v.value), v.rest);
  }

  method ReadObject(s: Text) returns (r: Parsed<Json>)
    requires At(s, 0) == OPEN_BRACE
    ensures r == ParseObject(s)
    decreases |s|, 2
  {
    var value := SkipBlanks(s[1..]);
    if At(value, 0) == CLOSE_BRACE { return Ok(Obj([]), value[1..]); }
    ghost var first := value;
    Unfold(value);
    var child := ReadMember(value);
    if !child.Ok? { return if child.Fail? then Fail else Overrun; }
    var members := [child.value];
    MembersBegin(first, child.value, child.rest);
    value := SkipBlanks(child.rest);
    while At(value, 0) == COMMA
      invariant |value| < |s|
      invariant ParseMembers(first) == MoreMembers(members, value)
      decreases |value|
    {
      Unfold(value[1..]);
      child := ReadMember(value[1..]);
      if !child.Ok? { return if child.Fail? then Fail else Overrun; }
      MoreMembersStep(members, value, child.value, child.rest);
      members := members + [child.value];
      value := SkipBlanks(child.rest);
    }
    if At(value, 0) == CLOSE_BRACE { return Ok(Obj(members), value[1..]); }
    return Fail;
  }

  /** `cJSON_ParseWithOpts`: blanks in front are skipped, and nothing but blanks may
      follow when `requireEnd` is set. */
  method ReadDocument(text: Text, requireEnd: bool) returns (r: Parsed<Json>)
    ensures r == ParseDocument(text, requireEnd)
  {
    var value := SkipBlanks(text);
    r := ReadValue(value);
    if r.Ok? && requireEnd {
      var end := SkipBlanks(r.rest);
      if end != [] { return Fail; }
      r := Ok(r.value, end);
    }
  }

  function ParseDocument(text: Text, requireEnd: bool): Parsed<Json> {
    match ParseValue(Skip(text))
    case Ok(v, rest) =>
      if !requireEnd then Ok(v, rest)
      else if Skip(rest) != [] then Fail
      else Ok(v, [])
    case Fail => Fail
    case Overrun => Overrun
  }

  predicate Blanks(s: Text) {
    forall i | 0 <= i < |s| :: s[i] <= 32
  }

  lemma {:induction false} SkipBlankPrefix(b: Text, s: Text)
    requires Blanks(b)
    ensures Skip(b + s) == Skip(s)
    decreases |b|
  {
    if b == [] {
      assert b + s == s;
    } else {
      assert (b + s)[1..] == b[1..] + s;
      SkipBlankPrefix(b[1..], s);
    }
  }

  /** Printing and parsing a document: blanks around the text do not matter, and the
      strict mode accepts it. */
  lemma DocumentRoundTrip(v: Json, fmt: bool, before: Text, after: Text)
    requires Printable(v) && Blanks(before) && Blanks(after)
    ensures ParseDocument(before + JsonPrinter.ValueText(v, 0, fmt) + after, true) == Ok(v, [])
  {
    var t := JsonPrinter.ValueText(v, 0, fmt);
    assert before + t + after == before + (t + after);
    SkipBlankPrefix(before, t + after);
    JsonRoundTrip.ValueStart(v, 0, fmt);
    assert Skip(t + after) == t + after;
    JsonRoundTrip.ValueRoundTrip(v, 0, fmt, after);
    SkipBlankPrefix(after, []);
    assert after + [] == after;
  }
}
