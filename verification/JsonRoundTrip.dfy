/** Parsing what was printed gives back the value and stops where the printed text ends. */
module JsonRoundTrip {
  import opened CText
  import opened Json
  import opened JsonPrinter
  import opened JsonParser
  import opened JsonLiteral

  /** The text after a value does not continue a number. */
  predicate Terminated(rest: Text) {
    rest == [] || !(IsDigit(rest[0]) || rest[0] == DOT || rest[0] == 101 || rest[0] == 69)
  }

  // ----- strings

  lemma UnescapeEscapedChar(c: Ch, rest: Text)
    ensures Unescape(EscapeChar(c) + rest) == Prepend([c], Unescape(rest))
  {
    var s := EscapeChar(c) + rest;
    if |EscapeChar(c)| == 6 {
      assert s[2..][0] == 48 && s[2..][1] == 48;
      assert s[2..][2] == HexDigit(c / 16) && s[2..][3] == HexDigit(c % 16);
      assert Hex4(s[2..]) == c;
      assert UnicodeEscape(s) == ([c], 6);
      assert s[6..] == rest;
    } else if |EscapeChar(c)| == 2 {
      assert s[2..] == rest;
    } else {
      assert s[1..] == rest;
    }
  }

  lemma {:induction false} UnescapeEscaped(s: Text, rest: Text)
    ensures Unescape(Escape(s) + ([QUOTE] + rest)) == Ok(s, rest)
  {
    if s == [] {
      assert Escape(s) + ([QUOTE] + rest) == [QUOTE] + rest;
    } else {
      var tail := Escape(s[1..]) + ([QUOTE] + rest);
      assert Escape(s) + ([QUOTE] + rest) == EscapeChar(s[0]) + tail;
      UnescapeEscapedChar(s[0], tail);
      UnescapeEscaped(s[1..], rest);
      assert [s[0]] + s[1..] == s;
    }
  }

  /** The two passes agree on what the printer writes: no escape reaches over the closing quote. */
  lemma {:induction false} EscapedContained(s: Text, rest: Text)
    ensures var t := Escape(s) + ([QUOTE] + rest);
            Paired(t) && Reach(t) == |Escape(s)| && Contained(t, Reach(t))
  {
    var t := Escape(s) + ([QUOTE] + rest);
    if s == [] {
      assert t == [QUOTE] + rest;
    } else {
      var tail := Escape(s[1..]) + ([QUOTE] + rest);
      assert t == EscapeChar(s[0]) + tail;
      EscapedContained(s[1..], rest);
      EscapedCharContained(s[0], tail);
    }
  }

  lemma EscapedCharContained(c: Ch, tail: Text)
    requires Paired(tail) && Contained(tail, Reach(tail))
    ensures var t := EscapeChar(c) + tail;
            Paired(t) && Reach(t) == |EscapeChar(c)| + Reach(tail) && Contained(t, Reach(t))
  {
    var e, t := EscapeChar(c), EscapeChar(c) + tail;
    assert t[|e|..] == tail;
    if |e| == 6 {
      FourDigits(t, tail);
      EscapedUnit(c, t);
    }
  }

  lemma EscapedUnit(c: Ch, t: Text)
    requires c < 32 && |t| >= 6 && t[2] == 48 && t[3] == 48 && t[4] == HexDigit(c / 16) && t[5] == HexDigit(c % 16)
    ensures UnicodeEscape(t).1 == 6
  {
    var d := t[2..];
    assert d[0] == 48 && d[1] == 48 && d[2] == HexDigit(c / 16) && d[3] == HexDigit(c % 16);
    assert Hex4(d) == c;
  }

  /** The first pass goes over the digits of an escape one by one. */
  lemma FourDigits(t: Text, tail: Text)
    requires |t| >= 6 && t[0] == BACKSLASH && t[6..] == tail && Paired(tail)
    requires forall i | 2 <= i < 6 :: t[i] != QUOTE && t[i] != BACKSLASH
    ensures Paired(t) && Reach(t) == 6 + Reach(tail)
  {
    assert t[5..][1..] == tail && t[4..][1..] == t[5..] && t[3..][1..] == t[4..] && t[2..][1..] == t[3..];
    assert Paired(t[5..]) && Reach(t[5..]) == 1 + Reach(tail);
    assert Paired(t[4..]) && Reach(t[4..]) == 2 + Reach(tail);
    assert Paired(t[3..]) && Reach(t[3..]) == 3 + Reach(tail);
    assert Paired(t[2..]) && Reach(t[2..]) == 4 + Reach(tail);
  }

  lemma StringRoundTrip(s: Text, rest: Text)
    ensures ParseString(StringText(s) + rest) == Ok(s, rest)
  {
    UnescapeEscaped(s, rest);
    EscapedContained(s, rest);
    var body := Escape(s) + ([QUOTE] + rest);
    assert StringText(s) + rest == [QUOTE] + body;
    LiteralRead([QUOTE] + body, body, s, rest);
  }

  // ----- numbers

  lemma {:induction false} DigitsThen(n: real, d: Text, rest: Text)
    requires forall i | 0 <= i < |d| :: IsDigit(d[i])
    ensures DigitsValue(n, d + rest) == DigitsValue(DigitsValue(n, d), rest)
    ensures DigitCount(d + rest) == |d| + DigitCount(rest)
    decreases |d|
  {
    if d == [] {
      assert d + rest == rest;
    } else {
      assert (d + rest)[1..] == d[1..] + rest;
      DigitsThen(n * 10.0 + HexValue(d[0]) as real, d[1..], rest);
    }
  }

  lemma {:induction false} DecimalDigits(n: nat)
    ensures forall i | 0 <= i < |Decimal(n)| :: IsDigit(Decimal(n)[i])
    ensures DigitsValue(0.0, Decimal(n)) == n as real
    ensures |Decimal(n)| >= 1 && (n > 0 ==> Decimal(n)[0] != 48)
  {
    if n >= 10 {
      DecimalDigits(n / 10);
      DigitsThen(0.0, Decimal(n / 10), [48 + n % 10]);
      assert DigitsValue((n / 10) as real, [48 + n % 10]) == (n / 10) as real * 10.0 + (n % 10) as real;
    }
  }

  lemma DecimalMantissa(n: nat, rest: Text)
    requires Terminated(rest)
    ensures Mantissa(Decimal(n) + rest) == (false, n as real, rest)
  {
    DecimalDigits(n);
    DigitsThen(0.0, Decimal(n), rest);
    var s := Decimal(n) + rest;
    assert DigitCount(rest) == 0;
    assert s[|Decimal(n)|..] == rest;
    if n == 0 {
      assert s[1..] == rest;
    }
  }

  lemma WholeNumber(s: Text, n: int, rest: Text)
    requires Terminated(rest) && Mantissa(s) == (n < 0, (if n < 0 then -n else n) as real, rest)
    ensures ParseNumber(s) == (n as real, rest)
  {
    assert Pow10(0) == 1.0;
  }

  lemma IntParses(n: int, rest: Text)
    requires Terminated(rest)
    ensures ParseNumber(IntText(n) + rest) == (n as real, rest)
    ensures At(IntText(n) + rest, 0) == MINUS || IsDigit(At(IntText(n) + rest, 0))
  {
    IntMantissa(n, rest);
    WholeNumber(IntText(n) + rest, n, rest);
  }

  lemma NegativeMantissa(s: Text, n: real, rest: Text)
    requires Mantissa(s) == (false, n, rest)
    ensures Mantissa([MINUS] + s) == (true, n, rest)
  {
    assert ([MINUS] + s)[1..] == s;
  }

  lemma IntMantissa(n: int, rest: Text)
    requires Terminated(rest)
    ensures Mantissa(IntText(n) + rest) == (n < 0, (if n < 0 then -n else n) as real, rest)
    ensures At(IntText(n) + rest, 0) == MINUS || IsDigit(At(IntText(n) + rest, 0))
  {
    if n < 0 {
      DecimalDigits(-n);
      DecimalMantissa(-n, rest);
      NegativeMantissa(Decimal(-n) + rest, (-n) as real, rest);
      assert [MINUS] + Decimal(-n) + rest == [MINUS] + (Decimal(-n) + rest);
    } else {
      DecimalDigits(n);
      DecimalMantissa(n, rest);
    }
  }

  lemma NumberRoundTrip(n: int, rest: Text)
    requires Terminated(rest)
    ensures ParseValue(IntText(n) + rest) == Ok(Number(n as real), rest)
  {
    IntParses(n, rest);
    ParseValueAt(IntText(n) + rest);
  }

  // ----- one step of each parser

  /** The first character picks the parser. */
  lemma ParseValueAt(s: Text)
    ensures At(s, 0) == QUOTE ==>
              match ParseString(s)
              case Ok(t, rest) => ParseValue(s) == Ok(Str(t), rest)
              case _ => true
    ensures At(s, 0) == MINUS || IsDigit(At(s, 0)) ==>
              ParseValue(s) == Ok(Number(ParseNumber(s).0), ParseNumber(s).1)
    ensures At(s, 0) == OPEN_BRACKET ==> ParseValue(s) == ParseArray(s)
    ensures At(s, 0) == OPEN_BRACE ==> ParseValue(s) == ParseObject(s)
  {
    if StartsWith(s, NULL_TEXT) { assert s[..4][0] == 110; }
    if StartsWith(s, FALSE_TEXT) { assert s[..5][0] == 102; }
    if StartsWith(s, TRUE_TEXT) { assert s[..4][0] == 116; }
  }

  lemma ParseWords(rest: Text)
    ensures ParseValue(NULL_TEXT + rest) == Ok(Null, rest)
    ensures ParseValue(FALSE_TEXT + rest) == Ok(False, rest)
    ensures ParseValue(TRUE_TEXT + rest) == Ok(True, rest)
  {
    var s := FALSE_TEXT + rest;
    assert s[0] == 102 && s[..4][0] == 102;
    assert s[..5] == FALSE_TEXT && s[5..] == rest;
    s := TRUE_TEXT + rest;
    assert s[..4] == TRUE_TEXT && s[4..] == rest;
    s := NULL_TEXT + rest;
    assert s[..4] == NULL_TEXT && s[4..] == rest;
  }

  /** The last element: printed as `t`. */
  lemma ParseItemsLast(t: Text, v: Json, rest: Text)
    requires t != [] && t[0] > 32
    requires ParseValue(t + ([CLOSE_BRACKET] + rest)) == Ok(v, [CLOSE_BRACKET] + rest)
    ensures ParseItems(t + ([CLOSE_BRACKET] + rest)) == Ok([v], rest)
  {
    var close := [CLOSE_BRACKET] + rest;
    assert Skip(t + close) == t + close;
    assert Skip(close) == close && close[1..] == rest;
  }

  /** An element with others behind it. */
  lemma ParseItemsMore(s: Text, items: seq<Json>, fmt: bool, tail: Text, rest: Text)
    requires |items| > 1 && ParseValue(Skip(s)) == Ok(items[0], ItemSeparator(fmt) + tail)
    requires ParseItems(tail) == Ok(items[1..], rest)
    ensures ParseItems(s) == Ok(items, rest)
  {
    SkipItemSeparator(fmt, tail);
    ParseItemsStep(s, items[0], ItemSeparator(fmt) + tail, items[1..], rest);
    assert [items[0]] + items[1..] == items;
  }

  lemma SkipItemSeparator(fmt: bool, tail: Text)
    ensures var after := ItemSeparator(fmt) + tail;
            Skip(after) == after && after[0] == COMMA && ParseItems(after[1..]) == ParseItems(tail)
  {
    var after := ItemSeparator(fmt) + tail;
    assert after[1..] == if fmt then [SPACE] + tail else tail;
    ParseItemsAfterSpace(tail);
  }

  lemma ParseItemsStep(s: Text, v: Json, after: Text, items: seq<Json>, rest: Text)
    requires ParseValue(Skip(s)) == Ok(v, after) && after != [] && Skip(after) == after && after[0] == COMMA
    requires ParseItems(after[1..]) == Ok(items, rest)
    ensures ParseItems(s) == Ok([v] + items, rest)
  {
  }

  lemma ParseMembersLast(s: Text, m: Member, fmt: bool, n: int, rest: Text)
    requires ParseMember(s) == Ok(m, NewLine(fmt) + (Indent(n, fmt) + ([CLOSE_BRACE] + rest)))
    ensures ParseMembers(s) == Ok([m], rest)
  {
    SkipToBrace(fmt, n, rest);
    MembersLast(s, m, NewLine(fmt) + (Indent(n, fmt) + ([CLOSE_BRACE] + rest)), rest);
  }

  lemma SkipToBrace(fmt: bool, n: int, rest: Text)
    ensures Skip(NewLine(fmt) + (Indent(n, fmt) + ([CLOSE_BRACE] + rest))) == [CLOSE_BRACE] + rest
  {
    var line, tabs, close := NewLine(fmt), Indent(n, fmt), [CLOSE_BRACE] + rest;
    SkipLine(fmt, n, close);
    Assoc(line, tabs, close);
    assert Skip(close) == close;
  }

  lemma Assoc(a: Text, b: Text, c: Text)
    ensures a + b + c == a + (b + c)
  {
  }

  lemma MembersLast(s: Text, m: Member, after: Text, rest: Text)
    requires ParseMember(s) == Ok(m, after) && Skip(after) == [CLOSE_BRACE] + rest
    ensures ParseMembers(s) == Ok([m], rest)
  {
    assert ([CLOSE_BRACE] + rest)[1..] == rest;
  }

  lemma ParseMembersMore(s: Text, m: Member, fmt: bool, next: Text)
    requires ParseMember(s) == Ok(m, [COMMA] + (NewLine(fmt) + next))
    requires ParseMembers(next).Ok?
    ensures ParseMembers(s) == Ok([m] + ParseMembers(next).value, ParseMembers(next).rest)
  {
    var after := [COMMA] + (NewLine(fmt) + next);
    assert Skip(after) == after && after[1..] == NewLine(fmt) + next;
    ParseMembersLine(fmt, next);
  }

  /** A member printed as an indented key and the value text `t`. */
  lemma ParseMemberStep(n: int, fmt: bool, key: Text, t: Text, v: Json, rest: Text)
    requires t != [] && t[0] > 32
    requires ParseValue(t + rest) == Ok(v, rest)
    ensures var s := Indent(n, fmt) + (StringText(key) + (KeySeparator(fmt) + (t + rest)));
            ParseMember(s) == Ok(Member(key, v), rest) && At(Skip(s), 0) == QUOTE
  {
    var colon := KeySeparator(fmt) + (t + rest);
    var fromKey := StringText(key) + colon;
    SkipLine(fmt, n, fromKey);
    assert Skip(fromKey) == fromKey;
    StringRoundTrip(key, colon);
    SkipKeySeparator(fmt, t + rest);
    MemberParsed(Indent(n, fmt) + fromKey, key, colon, v, rest);
  }

  lemma SkipKeySeparator(fmt: bool, t: Text)
    requires t != [] && t[0] > 32
    ensures var colon := KeySeparator(fmt) + t;
            Skip(colon) == colon && colon[0] == COLON && Skip(colon[1..]) == t
  {
    var colon := KeySeparator(fmt) + t;
    assert colon[1..] == if fmt then [TAB] + t else t;
    assert ([TAB] + t)[1..] == t;
  }

  lemma MemberParsed(s: Text, key: Text, colon: Text, v: Json, rest: Text)
    requires ParseString(Skip(s)) == Ok(key, colon) && colon != [] && Skip(colon) == colon && colon[0] == COLON
    requires ParseValue(Skip(colon[1..])) == Ok(v, rest)
    ensures ParseMember(s) == Ok(Member(key, v), rest)
  {
  }

  /** The body of an object, after the opening brace. */
  lemma ParseObjectStep(s: Text, body: Text)
    requires s == [OPEN_BRACE] + body
    ensures At(Skip(body), 0) == CLOSE_BRACE ==> ParseObject(s) == Ok(Obj([]), Skip(body)[1..])
    ensures At(Skip(body), 0) == QUOTE && ParseMembers(Skip(body)).Ok? ==>
              var r := ParseMembers(Skip(body));
              ParseObject(s) == Ok(Obj(r.value), r.rest)
  {
    assert s[1..] == body;
  }

  // ----- concatenation

  lemma Reassociate(a: Text, b: Text, c: Text, d: Text)
    ensures a + (b + c) + d == a + (b + (c + d))
  {
  }

  lemma Regroup(a: Text, b: Text, c: Text, d: Text, e: Text)
    ensures a + b + c + d + e == a + (b + (c + (d + e)))
  {
  }

  // ----- whitespace

  lemma {:induction false} SkipTabs(n: int, s: Text)
    ensures Skip(Tabs(n) + s) == Skip(s)
  {
    if n <= 0 {
      assert Tabs(n) + s == s;
    } else {
      assert (Tabs(n) + s)[1..] == Tabs(n - 1) + s;
      SkipTabs(n - 1, s);
    }
  }

  lemma SkipLine(fmt: bool, n: int, s: Text)
    ensures Skip(NewLine(fmt) + Indent(n, fmt) + s) == Skip(s)
    ensures Skip(Indent(n, fmt) + s) == Skip(s)
    ensures Skip(NewLine(fmt) + s) == Skip(s)
  {
    SkipTabs(n, s);
    assert (NewLine(fmt) + s)[|NewLine(fmt)|..] == s;
    if fmt {
      var t := NewLine(fmt) + Indent(n, fmt) + s;
      assert t[1..] == Tabs(n) + s;
    } else {
      assert NewLine(fmt) + Indent(n, fmt) + s == s;
      assert Indent(n, fmt) + s == s;
      assert NewLine(fmt) + s == s;
    }
  }

  /** Printed values start with a character that is neither blank nor a closing bracket. */
  lemma ValueStart(v: Json, depth: nat, fmt: bool)
    requires Printable(v)
    ensures var t := ValueText(v, depth, fmt); |t| > 0 && t[0] > 32 && t[0] != CLOSE_BRACKET
  {
    if v.Number? {
      var n := v.value.Floor;
      DecimalDigits(if n < 0 then -n else n);
    }
  }

  // ----- values

  /** The round trip: every tree of null, booleans, 32-bit integers, strings, arrays and
      objects, at every depth and in both formats, before every terminating text. */
  lemma {:induction false} ValueRoundTrip(v: Json, depth: nat, fmt: bool, rest: Text)
    requires Printable(v) && Terminated(rest)
    ensures ParseValue(ValueText(v, depth, fmt) + rest) == Ok(v, rest)
    decreases v, 1
  {
    var s := ValueText(v, depth, fmt) + rest;
    match v
    case Null => ParseWords(rest);
    case False => ParseWords(rest);
    case True => ParseWords(rest);
    case Number(r) => NumberRoundTrip(r.Floor, rest);
    case Str(t) =>
      StringRoundTrip(t, rest);
      ParseValueAt(s);
    case Arr(items) =>
      ParseValueAt(s);
      ArrayRoundTrip(items, depth, fmt, rest);
    case Obj(members) =>
      ParseValueAt(s);
      ObjectRoundTrip(members, depth, fmt, rest);
  }

  lemma {:induction false} ArrayRoundTrip(items: seq<Json>, depth: nat, fmt: bool, rest: Text)
    requires PrintableItems(items)
    ensures ParseArray([OPEN_BRACKET] + ItemsText(items, depth + 1, fmt) + [CLOSE_BRACKET] + rest) == Ok(Arr(items), rest)
    decreases items, 1
  {
    var s := [OPEN_BRACKET] + ItemsText(items, depth + 1, fmt) + [CLOSE_BRACKET] + rest;
    var body := ItemsText(items, depth + 1, fmt) + ([CLOSE_BRACKET] + rest);
    assert s[1..] == body;
    if items == [] {
      assert body == [CLOSE_BRACKET] + rest;
    } else {
      ValueStart(items[0], depth + 1, fmt);
      assert Skip(body) == body;
      ItemsRoundTrip(items, depth + 1, fmt, rest);
    }
  }

  lemma {:induction false} ItemsRoundTrip(items: seq<Json>, depth: nat, fmt: bool, rest: Text)
    requires items != [] && PrintableItems(items)
    ensures ParseItems(ItemsText(items, depth, fmt) + ([CLOSE_BRACKET] + rest)) == Ok(items, rest)
    decreases items, 0
  {
    var close := [CLOSE_BRACKET] + rest;
    var t := ValueText(items[0], depth, fmt);
    ValueStart(items[0], depth, fmt);
    ItemsTextSplit(items, depth, fmt, close);
    if |items| == 1 {
      ValueRoundTrip(items[0], depth, fmt, close);
      ParseItemsLast(t, items[0], rest);
      assert [items[0]] == items;
    } else {
      var tail := ItemsText(items[1..], depth, fmt) + close;
      ValueRoundTrip(items[0], depth, fmt, ItemSeparator(fmt) + tail);
      ItemsRoundTrip(items[1..], depth, fmt, rest);
      assert Skip(t + (ItemSeparator(fmt) + tail)) == t + (ItemSeparator(fmt) + tail);
      ParseItemsMore(t + (ItemSeparator(fmt) + tail), items, fmt, tail, rest);
    }
  }

  lemma ItemsTextSplit(items: seq<Json>, depth: nat, fmt: bool, rest: Text)
    requires items != [] && PrintableItems(items)
    ensures var t := ValueText(items[0], depth, fmt);
            ItemsText(items, depth, fmt) + rest
            == if |items| == 1 then t + rest
               else t + (ItemSeparator(fmt) + (ItemsText(items[1..], depth, fmt) + rest))
  {
    var t := ValueText(items[0], depth, fmt);
    if |items| == 1 {
      assert t + [] == t;
    } else {
      Reassociate(t, ItemSeparator(fmt), ItemsText(items[1..], depth, fmt), rest);
    }
  }

  lemma ParseItemsAfterSpace(s: Text)
    ensures ParseItems([SPACE] + s) == ParseItems(s)
  {
    assert ([SPACE] + s)[1..] == s;
  }

  lemma {:induction false} ObjectRoundTrip(members: seq<Member>, depth: nat, fmt: bool, rest: Text)
    requires PrintableMembers(members)
    ensures ParseObject(ValueText(Obj(members), depth, fmt) + rest) == Ok(Obj(members), rest)
    decreases members, 3
  {
    if members == [] {
      EmptyRoundTrip(depth, fmt, rest);
    } else {
      var inner := MembersText(members, depth + 1, fmt) + (Indent(depth, fmt) + ([CLOSE_BRACE] + rest));
      Nested([OPEN_BRACE], NewLine(fmt), MembersText(members, depth + 1, fmt), Indent(depth, fmt), [CLOSE_BRACE], rest);
      MembersRoundTrip(members, depth + 1, fmt, depth, rest);
      InnerRoundTrip(inner, fmt, members, rest);
    }
  }

  lemma Nested(a: Text, b: Text, c: Text, d: Text, e: Text, rest: Text)
    ensures a + b + c + d + e + rest == a + (b + (c + (d + (e + rest))))
    ensures a + b + c + d + rest == a + (b + (c + (d + rest)))
  {
  }

  lemma EmptyRoundTrip(depth: nat, fmt: bool, rest: Text)
    ensures ParseObject(ValueText(Obj([]), depth, fmt) + rest) == Ok(Obj([]), rest)
  {
    var line, tabs := NewLine(fmt), Indent(depth - 1, fmt);
    var body := line + (tabs + ([CLOSE_BRACE] + rest));
    Nested([OPEN_BRACE], line, tabs, [CLOSE_BRACE], [], rest);
    SkipToBrace(fmt, depth - 1, rest);
    assert ([CLOSE_BRACE] + rest)[1..] == rest;
    ParseObjectStep([OPEN_BRACE] + body, body);
  }

  lemma InnerRoundTrip(inner: Text, fmt: bool, members: seq<Member>, rest: Text)
    requires ParseMembers(inner) == Ok(members, rest) && At(Skip(inner), 0) == QUOTE
    ensures ParseObject([OPEN_BRACE] + (NewLine(fmt) + inner)) == Ok(Obj(members), rest)
  {
    SkipLine(fmt, 0, inner);
    ParseMembersSkips(inner);
    ParseObjectStep([OPEN_BRACE] + (NewLine(fmt) + inner), NewLine(fmt) + inner);
  }

  /** `n` is the depth of the closing brace. */
  lemma {:induction false} MembersRoundTrip(members: seq<Member>, depth: nat, fmt: bool, n: int, rest: Text)
    requires members != [] && PrintableMembers(members)
    ensures var s := MembersText(members, depth, fmt) + (Indent(n, fmt) + ([CLOSE_BRACE] + rest));
            && ParseMembers(s) == Ok(members, rest)
            && At(Skip(s), 0) == QUOTE
    decreases members, 2
  {
    var m := members[0];
    var t := MemberText(m, depth, fmt);
    var end := Indent(n, fmt) + ([CLOSE_BRACE] + rest);
    MembersTextSplit(members, depth, fmt, end);
    if |members| == 1 {
      MemberRoundTrip(m, depth, fmt, NewLine(fmt) + end);
      ParseMembersLast(t + (NewLine(fmt) + end), m, fmt, n, rest);
      assert [m] == members;
    } else {
      var next := MembersText(members[1..], depth, fmt) + end;
      var after := [COMMA] + (NewLine(fmt) + next);
      MemberRoundTrip(m, depth, fmt, after);
      MembersRoundTrip(members[1..], depth, fmt, n, rest);
      ParseMembersMore(t + after, m, fmt, next);
      assert [m] + members[1..] == members;
    }
  }

  lemma MembersTextSplit(members: seq<Member>, depth: nat, fmt: bool, end: Text)
    requires members != [] && PrintableMembers(members)
    ensures var t := MemberText(members[0], depth, fmt);
            MembersText(members, depth, fmt) + end ==
              t + (if |members| == 1 then NewLine(fmt) + end
                   else [COMMA] + (NewLine(fmt) + (MembersText(members[1..], depth, fmt) + end)))
  {
    var t := MemberText(members[0], depth, fmt);
    if |members| == 1 {
      Reassociate(t, [], NewLine(fmt), end);
      assert [] + NewLine(fmt) == NewLine(fmt) && [] + (NewLine(fmt) + end) == NewLine(fmt) + end;
    } else {
      var tail := MembersText(members[1..], depth, fmt);
      Reassociate(t, [COMMA], NewLine(fmt) + tail, end);
      Reassociate([], NewLine(fmt), tail, end);
      assert [] + (NewLine(fmt) + tail) == NewLine(fmt) + tail;
      assert [] + (NewLine(fmt) + (tail + end)) == NewLine(fmt) + (tail + end);
    }
  }

  /** Blanks in front of the first key do not matter. */
  lemma ParseMembersSkips(s: Text)
    ensures ParseMembers(Skip(s)) == ParseMembers(s)
  {
    SkipTwice(s);
    assert ParseMember(Skip(s)) == ParseMember(s);
  }

  lemma ParseMembersLine(fmt: bool, s: Text)
    ensures ParseMembers(NewLine(fmt) + s) == ParseMembers(s)
  {
    SkipLine(fmt, 0, s);
    ParseMembersSkips(s);
    ParseMembersSkips(NewLine(fmt) + s);
  }

  lemma {:induction false} SkipTwice(s: Text)
    ensures Skip(Skip(s)) == Skip(s)
    decreases |s|
  {
    if s != [] && s[0] <= 32 { SkipTwice(s[1..]); }
  }

  lemma {:induction false} MemberRoundTrip(m: Member, depth: nat, fmt: bool, rest: Text)
    requires Printable(m.value) && Terminated(rest)
    ensures ParseMember(MemberText(m, depth, fmt) + rest) == Ok(m, rest)
    ensures At(Skip(MemberText(m, depth, fmt) + rest), 0) == QUOTE
    decreases m, 2
  {
    var t := ValueText(m.value, depth, fmt);
    ValueStart(m.value, depth, fmt);
    ValueRoundTrip(m.value, depth, fmt, rest);
    ParseMemberStep(depth, fmt, m.key, t, m.value, rest);
    Regroup(Indent(depth, fmt), StringText(m.key), KeySeparator(fmt), t, rest);
  }
}
