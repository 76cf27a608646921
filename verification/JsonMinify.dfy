/** `cJSON_Minify`: blanks and comments go, string literals stay. */
module JsonMinify {
  import opened CText
  import opened Json
  import opened JsonPrinter
  import opened JsonRoundTrip

  /** `Overrun` is a pass that steps over the terminator: an unclosed literal or comment. */
  datatype Minified = Minified(text: Text) | Overrun

  function Then(p: Text, r: Minified): Minified {
    match r
    case Minified(t) => Minified(p + t)
    case Overrun => Overrun
  }

  predicate Blank(c: byte) {
    c == SPACE || c == TAB || c == CR || c == LF
  }

  /** From the start of a `//` comment to the line feed that ends it, or the terminator. */
  function LineEnd(s: Text): (r: Text)
    ensures |r| <= |s| && (s != [] && s[0] != LF ==> |r| < |s|)
  {
    if s == [] || s[0] == LF then s else LineEnd(s[1..])
  }

  /** The first star-slash at or after the start, or the terminator. */
  function CommentEnd(s: Text): (r: Text)
    ensures |r| <= |s|
    ensures r != [] ==> |r| >= 2
  {
    if s == [] || (s[0] == STAR && At(s, 1) == SLASH) then s else CommentEnd(s[1..])
  }

  /** Length of a literal's rest, closing quote included; 0 when it is not closed. */
  function LiteralRest(s: Text): (n: nat)
    ensures n <= |s|
  {
    if s == [] then 0
    else if s[0] == QUOTE then 1
    else if s[0] == BACKSLASH then
      (if |s| == 1 || LiteralRest(s[2..]) == 0 then 0 else 2 + LiteralRest(s[2..]))
    else if LiteralRest(s[1..]) == 0 then 0 else 1 + LiteralRest(s[1..])
  }

  function Minify(s: Text): Minified
    decreases |s|
  {
    if s == [] then Minified([])
    else if Blank(s[0]) then Minify(s[1..])
    else if s[0] == SLASH && At(s, 1) == SLASH then Minify(LineEnd(s))
    else if s[0] == SLASH && At(s, 1) == STAR then
      (if CommentEnd(s) == [] then Overrun else Minify(CommentEnd(s)[2..]))
    else if s[0] == QUOTE then
      var n := LiteralRest(s[1..]);
      if n == 0 then Overrun else Then(s[..n + 1], Minify(s[n + 1..]))
    else Then([s[0]], Minify(s[1..]))
  }

  // ----- when the pass stays inside the text

  /** Where a character stands: in a literal or behind a backslash there, in a line comment,
      in a block comment or at the slash that closes it, or outside all of these. */
  datatype Place = Outside | Literal | Escaped | Line | Block | Closing

  /** The place of the character behind `c`, given the one `c` has and the character next to it. */
  function Move(p: Place, c: Ch, next: byte): Place {
    match p
    case Outside =>
      if c == QUOTE then Literal
      else if c == SLASH && next == SLASH then Line
      else if c == SLASH && next == STAR then Block
      else Outside
    case Literal => if c == QUOTE then Outside else if c == BACKSLASH then Escaped else Literal
    case Escaped => Literal
    case Line => if c == LF then Outside else Line
    case Block => if c == STAR && next == SLASH then Closing else Block
    case Closing => Outside
  }

  /** The place of the terminator. */
  function EndPlace(p: Place, s: Text): Place
    decreases |s|
  {
    if s == [] then p else EndPlace(Move(p, s[0], At(s, 1)), s[1..])
  }

  /** Every literal and every block comment is closed. */
  predicate Closed(s: Text) {
    EndPlace(Outside, s) == Outside || EndPlace(Outside, s) == Line
  }

  /** The pass stays inside the text exactly when every literal and block comment is closed. */
  lemma {:induction false} MinifyStaysInside(s: Text)
    ensures Minify(s).Minified? <==> Closed(s)
    decreases |s|
  {
    if s == [] {
    } else if s[0] == SLASH && At(s, 1) == SLASH {
      LineCloses(s[1..]);
      if s[0] != LF { assert LineEnd(s) == LineEnd(s[1..]); }
      MinifyStaysInside(LineEnd(s));
    } else if s[0] == SLASH && At(s, 1) == STAR {
      BlockCloses(s[1..]);
      assert CommentEnd(s) == CommentEnd(s[1..]);
      if CommentEnd(s) != [] { MinifyStaysInside(CommentEnd(s)[2..]); }
    } else if s[0] == QUOTE {
      LiteralCloses(s[1..]);
      var n := LiteralRest(s[1..]);
      assert s[1..][n..] == s[n + 1..];
      if n > 0 { MinifyStaysInside(s[n + 1..]); }
    } else {
      MinifyStaysInside(s[1..]);
    }
  }

  /** The character is kept: it stands in a literal, or outside and is no blank and begins no comment. */
  predicate Stays(p: Place, c: Ch, next: byte) {
    match p
    case Outside => c != 32 && c != 9 && c != 13 && c != 10 && !(c == SLASH && (next == SLASH || next == STAR))
    case Literal => true
    case Escaped => true
    case _ => false
  }

  /** The characters that are kept, from this place on. */
  function Kept(p: Place, s: Text): Text
    decreases |s|
  {
    if s == [] then []
    else (if Stays(p, s[0], At(s, 1)) then [s[0]] else []) + Kept(Move(p, s[0], At(s, 1)), s[1..])
  }

  /** The pass keeps exactly these, in their order. */
  lemma {:induction false} MinifyKeeps(s: Text)
    requires Closed(s)
    ensures Minify(s) == Minified(Kept(Outside, s))
    decreases |s|
  {
    if s == [] {
    } else if s[0] == SLASH && At(s, 1) == SLASH {
      LineOver(s);
      MinifyKeeps(LineEnd(s));
    } else if s[0] == SLASH && At(s, 1) == STAR {
      BlockOver(s);
      MinifyKeeps(CommentEnd(s)[2..]);
    } else if s[0] == QUOTE {
      LiteralOver(s);
      MinifyKeeps(s[LiteralRest(s[1..]) + 1..]);
    } else {
      MinifyKeeps(s[1..]);
    }
  }

  lemma LineOver(s: Text)
    requires s != [] && s[0] == SLASH && At(s, 1) == SLASH && Closed(s)
    ensures Closed(LineEnd(s)) && Kept(Outside, s) == Kept(Outside, LineEnd(s))
  {
    LineCloses(s[1..]);
    LineKept(s[1..]);
    assert LineEnd(s) == LineEnd(s[1..]);
  }

  lemma BlockOver(s: Text)
    requires s != [] && s[0] == SLASH && At(s, 1) == STAR && Closed(s)
    ensures CommentEnd(s) != [] && Closed(CommentEnd(s)[2..]) && Kept(Outside, s) == Kept(Outside, CommentEnd(s)[2..])
  {
    BlockCloses(s[1..]);
    assert CommentEnd(s) == CommentEnd(s[1..]);
    BlockKept(s[1..]);
  }

  lemma LiteralOver(s: Text)
    requires s != [] && s[0] == QUOTE && Closed(s)
    ensures var n := LiteralRest(s[1..]);
            n > 0 && Closed(s[n + 1..]) && Kept(Outside, s) == s[..n + 1] + Kept(Outside, s[n + 1..])
  {
    LiteralCloses(s[1..]);
    LiteralKept(s[1..]);
    Joined(s, 1, LiteralRest(s[1..]), Kept(Outside, s[LiteralRest(s[1..]) + 1..]));
  }

  /** The first `k` characters and the `n` behind them, in front of a text. */
  lemma Joined(s: Text, k: nat, n: nat, t: Text)
    requires k + n <= |s|
    ensures s[k..][n..] == s[n + k..] && s[..k] + (s[k..][..n] + t) == s[..n + k] + t
  {
    assert s[..n + k] == s[..k] + s[k..][..n];
  }

  lemma {:induction false} LineKept(s: Text)
    ensures Kept(Line, s) == Kept(Outside, LineEnd(s))
  {
    if s != [] && s[0] != LF { LineKept(s[1..]); }
  }

  lemma {:induction false} BlockKept(s: Text)
    requires CommentEnd(s) != []
    ensures Kept(Block, s) == Kept(Outside, CommentEnd(s)[2..])
  {
    if s[0] == STAR && At(s, 1) == SLASH {
      assert s[1..][1..] == s[2..];
    } else {
      BlockKept(s[1..]);
    }
  }

  lemma {:induction false} LiteralKept(s: Text)
    requires LiteralRest(s) > 0
    ensures Kept(Literal, s) == s[..LiteralRest(s)] + Kept(Outside, s[LiteralRest(s)..])
    decreases |s|
  {
    var n := LiteralRest(s);
    if s[0] == QUOTE {
    } else if s[0] == BACKSLASH {
      assert s[1..][1..] == s[2..] && s[..2] == [s[0]] + [s[1]];
      LiteralKept(s[2..]);
      Joined(s, 2, n - 2, Kept(Outside, s[n..]));
    } else {
      LiteralKept(s[1..]);
      Joined(s, 1, n - 1, Kept(Outside, s[n..]));
    }
  }

  /** A line comment ends at the line feed, which is outside again, or with the text. */
  lemma {:induction false} LineCloses(s: Text)
    ensures EndPlace(Line, s) == if LineEnd(s) == [] then Line else EndPlace(Outside, LineEnd(s))
  {
    if s != [] && s[0] != LF { LineCloses(s[1..]); }
  }

  lemma {:induction false} BlockCloses(s: Text)
    ensures EndPlace(Block, s) == if CommentEnd(s) == [] then Block else EndPlace(Outside, CommentEnd(s)[2..])
  {
    if s == [] {
    } else if s[0] == STAR && At(s, 1) == SLASH {
      assert s[1..][1..] == s[2..];
    } else {
      BlockCloses(s[1..]);
    }
  }

  lemma {:induction false} LiteralCloses(s: Text)
    ensures LiteralRest(s) == 0 ==> EndPlace(Literal, s) == Literal || EndPlace(Literal, s) == Escaped
    ensures LiteralRest(s) > 0 ==> EndPlace(Literal, s) == EndPlace(Outside, s[LiteralRest(s)..])
    decreases |s|
  {
    if s == [] || s[0] == QUOTE {
    } else if s[0] == BACKSLASH {
      if |s| >= 2 {
        assert s[1..][1..] == s[2..];
        LiteralCloses(s[2..]);
        assert LiteralRest(s[2..]) > 0 ==> s[2..][LiteralRest(s[2..])..] == s[LiteralRest(s)..];
      }
    } else {
      LiteralCloses(s[1..]);
      assert LiteralRest(s[1..]) > 0 ==> s[1..][LiteralRest(s[1..])..] == s[LiteralRest(s)..];
    }
  }

  /** The shortest texts on which the pass steps over the terminator. */
  lemma UnclosedOverruns()
    ensures Minify([QUOTE]) == Overrun && Minify([SLASH, STAR]) == Overrun && Minify([QUOTE, BACKSLASH, QUOTE]) == Overrun
  {
    assert [QUOTE][1..] == [];
    assert [SLASH, STAR][1..] == [STAR] && [STAR][1..] == [];
    var s: Text := [QUOTE, BACKSLASH, QUOTE];
    assert s[1..] == [BACKSLASH, QUOTE] && s[1..][2..] == [];
  }

  // ----- what minifying does to printed texts

  lemma ThenTwice(a: Text, b: Text, r: Minified)
    ensures Then(a, Then(b, r)) == Then(a + b, r)
  {
    if r.Minified? { assert a + (b + r.text) == a + b + r.text; }
  }

  lemma ThenNothing(r: Minified)
    ensures Then([], r) == r
  {
    if r.Minified? { assert [] + r.text == r.text; }
  }

  /** Characters that are copied one by one. */
  predicate Plain(s: Text) {
    forall i | 0 <= i < |s| :: !Blank(s[i]) && s[i] != SLASH && s[i] != QUOTE
  }

  lemma {:induction false} MinifyPlain(s: Text, rest: Text)
    requires Plain(s)
    ensures Minify(s + rest) == Then(s, Minify(rest))
    decreases |s|
  {
    if s == [] {
      assert s + rest == rest;
      ThenNothing(Minify(rest));
    } else {
      assert (s + rest)[1..] == s[1..] + rest;
      MinifyPlain(s[1..], rest);
      ThenTwice([s[0]], s[1..], Minify(rest));
      assert [s[0]] + s[1..] == s;
    }
  }

  lemma {:induction false} MinifyBlanks(s: Text, rest: Text)
    requires forall i | 0 <= i < |s| :: Blank(s[i])
    ensures Minify(s + rest) == Minify(rest)
    decreases |s|
  {
    if s == [] {
      assert s + rest == rest;
    } else {
      assert (s + rest)[1..] == s[1..] + rest;
      MinifyBlanks(s[1..], rest);
    }
  }

  lemma {:induction false} TabsBlank(n: int)
    ensures forall i | 0 <= i < |Tabs(n)| :: Tabs(n)[i] == TAB
  {
    if n > 0 { TabsBlank(n - 1); }
  }

  lemma MinifyLine(fmt: bool, n: int, rest: Text)
    ensures Minify(NewLine(fmt) + rest) == Minify(rest)
    ensures Minify(Indent(n, fmt) + rest) == Minify(rest)
  {
    TabsBlank(n);
    MinifyBlanks(NewLine(fmt), rest);
    MinifyBlanks(Indent(n, fmt), rest);
  }

  lemma {:induction false} LiteralRestEscaped(s: Text, rest: Text)
    ensures LiteralRest(Escape(s) + ([QUOTE] + rest)) == |Escape(s)| + 1
  {
    var t := Escape(s) + ([QUOTE] + rest);
    if s == [] {
      assert t == [QUOTE] + rest;
    } else {
      var tail := Escape(s[1..]) + ([QUOTE] + rest);
      assert t == EscapeChar(s[0]) + tail;
      LiteralRestEscaped(s[1..], rest);
      LiteralRestChar(s[0], tail);
    }
  }

  lemma LiteralRestChar(c: Ch, tail: Text)
    requires LiteralRest(tail) != 0
    ensures LiteralRest(EscapeChar(c) + tail) == |EscapeChar(c)| + LiteralRest(tail)
  {
    var t := EscapeChar(c) + tail;
    if |EscapeChar(c)| == 1 {
      assert t[1..] == tail;
    } else if |EscapeChar(c)| == 2 {
      assert t[2..] == tail;
    } else {
      assert t[5..][1..] == tail;
      assert LiteralRest(t[5..]) == 1 + LiteralRest(tail);
      assert t[4..][1..] == t[5..] && t[3..][1..] == t[4..] && t[2..][1..] == t[3..];
      assert LiteralRest(t[4..]) == 2 + LiteralRest(tail);
      assert LiteralRest(t[3..]) == 3 + LiteralRest(tail);
    }
  }

  lemma MinifyString(s: Text, rest: Text)
    ensures Minify(StringText(s) + rest) == Then(StringText(s), Minify(rest))
  {
    var t := StringText(s) + rest;
    LiteralRestEscaped(s, rest);
    assert t[1..] == Escape(s) + ([QUOTE] + rest);
    assert t[..|StringText(s)|] == StringText(s) && t[|StringText(s)|..] == rest;
  }

  lemma IntTextPlain(n: int)
    ensures Plain(IntText(n))
  {
    DecimalDigits(if n < 0 then -n else n);
  }

  /** Minifying a printed value, in either format and at any depth, leaves the
      unformatted text of the value. */
  lemma {:induction false} MinifyValue(v: Json, depth: nat, fmt: bool, rest: Text)
    requires Printable(v)
    ensures Minify(ValueText(v, depth, fmt) + rest) == Then(ValueText(v, 0, false), Minify(rest))
    decreases v, 1
  {
    match v
    case Null => MinifyPlain(NULL_TEXT, rest);
    case False => MinifyPlain(FALSE_TEXT, rest);
    case True => MinifyPlain(TRUE_TEXT, rest);
    case Number(r) =>
      IntTextPlain(r.Floor);
      MinifyPlain(IntText(r.Floor), rest);
    case Str(s) => MinifyString(s, rest);
    case Arr(items) =>
      var close := [CLOSE_BRACKET] + rest;
      MinifyItems(items, depth + 1, fmt, close);
      MinifyPlain([CLOSE_BRACKET], rest);
      MinifyBracketed(OPEN_BRACKET, ItemsText(items, depth + 1, fmt), close, ItemsText(items, 1, false), CLOSE_BRACKET, rest);
      CloseShape([OPEN_BRACKET] + ItemsText(items, depth + 1, fmt), CLOSE_BRACKET, rest);
    case Obj(members) => MinifyObject(members, depth, fmt, rest);
  }

  lemma CloseShape(body: Text, close: Ch, rest: Text)
    ensures body + [close] + rest == body + ([close] + rest)
  {
  }

  /** An opening bracket, text that minifies to `inner`, and what follows. */
  lemma MinifyBracketed(open: Ch, body: Text, after: Text, inner: Text, close: Ch, rest: Text)
    requires Plain([open])
    requires Minify(body + after) == Then(inner, Minify(after))
    requires Minify(after) == Then([close], Minify(rest))
    ensures Minify([open] + body + after) == Then([open] + inner + [close], Minify(rest))
  {
    assert [open] + body + after == [open] + (body + after);
    MinifyPlain([open], body + after);
    ThenTwice(inner, [close], Minify(rest));
    ThenTwice([open], inner + [close], Minify(rest));
    assert [open] + (inner + [close]) == [open] + inner + [close];
  }

  lemma {:induction false} MinifyItems(items: seq<Json>, depth: nat, fmt: bool, rest: Text)
    requires PrintableItems(items)
    ensures Minify(ItemsText(items, depth, fmt) + rest) == Then(ItemsText(items, 1, false), Minify(rest))
    decreases items, 0
  {
    if items == [] {
      assert ItemsText(items, depth, fmt) + rest == rest;
      ThenNothing(Minify(rest));
    } else {
      var t := ValueText(items[0], depth, fmt);
      if |items| == 1 {
        MinifyValue(items[0], depth, fmt, rest);
        assert t + [] == t;
        UnformattedDepth(items[0], 1);
        assert ValueText(items[0], 1, false) + [] == ValueText(items[0], 1, false);
      } else {
        var tail := ItemsText(items[1..], depth, fmt) + rest;
        Reassociate(t, ItemSeparator(fmt), ItemsText(items[1..], depth, fmt), rest);
        MinifyValue(items[0], depth, fmt, ItemSeparator(fmt) + tail);
        MinifySeparator(fmt, tail);
        MinifyItems(items[1..], depth, fmt, rest);
        UnformattedDepth(items[0], 1);
        ThenTwice([COMMA], ItemsText(items[1..], 1, false), Minify(rest));
        ThenTwice(ValueText(items[0], 0, false), [COMMA] + ItemsText(items[1..], 1, false), Minify(rest));
      }
    }
  }

  lemma MinifySeparator(fmt: bool, rest: Text)
    ensures Minify(ItemSeparator(fmt) + rest) == Then([COMMA], Minify(rest))
    ensures Minify(KeySeparator(fmt) + rest) == Then([COLON], Minify(rest))
  {
    MinifyMark(COMMA, if fmt then [SPACE] else [], rest);
    assert ItemSeparator(fmt) == [COMMA] + (if fmt then [SPACE] else []);
    MinifyMark(COLON, if fmt then [TAB] else [], rest);
    assert KeySeparator(fmt) == [COLON] + (if fmt then [TAB] else []);
  }

  lemma MinifyMark(c: Ch, blanks: Text, rest: Text)
    requires Plain([c]) && forall i | 0 <= i < |blanks| :: Blank(blanks[i])
    ensures Minify([c] + blanks + rest) == Then([c], Minify(rest))
  {
    MinifyBlanks(blanks, rest);
    MinifyPlain([c], blanks + rest);
    assert [c] + blanks + rest == [c] + (blanks + rest);
  }

  lemma {:induction false} MinifyObject(members: seq<Member>, depth: nat, fmt: bool, rest: Text)
    requires PrintableMembers(members)
    ensures Minify(ValueText(Obj(members), depth, fmt) + rest) == Then(ValueText(Obj(members), 0, false), Minify(rest))
    decreases members, 4
  {
    if members == [] {
      MinifyEmptyObject(depth, fmt, rest);
    } else {
      var close := [CLOSE_BRACE] + rest;
      MinifyMembers(members, depth + 1, fmt, Indent(depth, fmt) + close);
      MinifyBraces(MembersText(members, depth + 1, fmt), MembersText(members, 1, false), depth, fmt, rest);
      UnformattedBraces(MembersText(members, 1, false));
    }
  }

  lemma MinifyEmptyObject(depth: nat, fmt: bool, rest: Text)
    ensures Minify(ValueText(Obj([]), depth, fmt) + rest) == Then(ValueText(Obj([]), 0, false), Minify(rest))
  {
    var after := Indent(depth - 1, fmt) + ([CLOSE_BRACE] + rest);
    ThenNothing(Minify(after));
    assert [] + after == after;
    MinifyBraces([], [], depth - 1, fmt, rest);
    assert [OPEN_BRACE] + NewLine(fmt) + [] == [OPEN_BRACE] + NewLine(fmt);
  }

  lemma MinifyBraces(body: Text, flat: Text, depth: int, fmt: bool, rest: Text)
    requires var close := [CLOSE_BRACE] + rest;
             Minify(body + (Indent(depth, fmt) + close)) == Then(flat, Minify(Indent(depth, fmt) + close))
    ensures Minify([OPEN_BRACE] + NewLine(fmt) + body + Indent(depth, fmt) + [CLOSE_BRACE] + rest)
            == Then([OPEN_BRACE] + flat + [CLOSE_BRACE], Minify(rest))
  {
    var indent, close := Indent(depth, fmt), [CLOSE_BRACE] + rest;
    MinifyPlain([CLOSE_BRACE], rest);
    MinifyLine(fmt, depth, close);
    MinifyLine(fmt, 0, body + (indent + close));
    ObjectShape(body, indent, fmt, close, rest, [OPEN_BRACE] + NewLine(fmt) + body + indent + [CLOSE_BRACE] + rest);
    MinifyBracketed(OPEN_BRACE, NewLine(fmt) + body + indent, close, flat, CLOSE_BRACE, rest);
  }

  lemma UnformattedBraces(body: Text)
    ensures [OPEN_BRACE] + NewLine(false) + body + Indent(0, false) + [CLOSE_BRACE] == [OPEN_BRACE] + body + [CLOSE_BRACE]
  {
  }

  lemma ObjectShape(body: Text, indent: Text, fmt: bool, close: Text, rest: Text, t: Text)
    requires close == [CLOSE_BRACE] + rest
    requires t == [OPEN_BRACE] + NewLine(fmt) + body + indent + [CLOSE_BRACE] + rest
    ensures t == [OPEN_BRACE] + (NewLine(fmt) + body + indent) + close
    ensures NewLine(fmt) + body + indent + close == NewLine(fmt) + (body + (indent + close))
  {
  }

  lemma {:induction false} MinifyMembers(members: seq<Member>, depth: nat, fmt: bool, rest: Text)
    requires members != [] && PrintableMembers(members)
    ensures Minify(MembersText(members, depth, fmt) + rest) == Then(MembersText(members, 1, false), Minify(rest))
    decreases members, 3
  {
    var m := members[0];
    MembersTextSplit(members, depth, fmt, rest);
    FlatMembers(members);
    if |members| == 1 {
      MinifyMember(m, depth, fmt, NewLine(fmt) + rest);
      MinifyLine(fmt, 0, rest);
      assert MemberText(m, 1, false) + [] == MemberText(m, 1, false);
    } else {
      var next := MembersText(members[1..], depth, fmt) + rest;
      var flatTail := MembersText(members[1..], 1, false);
      MinifyMember(m, depth, fmt, [COMMA] + (NewLine(fmt) + next));
      MinifyMark(COMMA, NewLine(fmt), next);
      assert [COMMA] + NewLine(fmt) + next == [COMMA] + (NewLine(fmt) + next);
      MinifyMembers(members[1..], depth, fmt, rest);
      ThenTwice([COMMA], flatTail, Minify(rest));
      ThenTwice(MemberText(m, 1, false), [COMMA] + flatTail, Minify(rest));
    }
  }

  lemma FlatMembers(members: seq<Member>)
    requires members != [] && PrintableMembers(members)
    ensures MembersText(members, 1, false) == MemberText(members[0], 1, false)
              + (if |members| == 1 then [] else [COMMA] + MembersText(members[1..], 1, false))
  {
    if |members| > 1 {
      var tail := MembersText(members[1..], 1, false);
      assert NewLine(false) + tail == tail;
    }
  }

  lemma {:induction false} MinifyMember(m: Member, depth: nat, fmt: bool, rest: Text)
    requires Printable(m.value)
    ensures Minify(MemberText(m, depth, fmt) + rest) == Then(MemberText(m, 1, false), Minify(rest))
    decreases m, 2
  {
    var t, flat := ValueText(m.value, depth, fmt), ValueText(m.value, 0, false);
    Regroup(Indent(depth, fmt), StringText(m.key), KeySeparator(fmt), t, rest);
    MinifyLine(fmt, depth, StringText(m.key) + (KeySeparator(fmt) + (t + rest)));
    MinifyString(m.key, KeySeparator(fmt) + (t + rest));
    MinifySeparator(fmt, t + rest);
    MinifyValue(m.value, depth, fmt, rest);
    ThenTwice([COLON], flat, Minify(rest));
    ThenTwice(StringText(m.key), [COLON] + flat, Minify(rest));
    UnformattedDepth(m.value, 1);
    FlatMember(StringText(m.key), flat);
  }

  lemma FlatMember(key: Text, value: Text)
    ensures Indent(1, false) + key + KeySeparator(false) + value == key + ([COLON] + value)
  {
  }

  /** Without formatting the depth does not show. */
  lemma {:induction false} UnformattedDepth(v: Json, depth: nat)
    requires Printable(v)
    ensures ValueText(v, depth, false) == ValueText(v, 0, false)
    decreases v, 1
  {
    if v.Arr? {
      UnformattedItems(v.items, depth + 1);
    } else if v.Obj? && v.members != [] {
      UnformattedMembers(v.members, depth + 1);
    }
  }

  lemma {:induction false} UnformattedItems(items: seq<Json>, depth: nat)
    requires PrintableItems(items)
    ensures ItemsText(items, depth, false) == ItemsText(items, 1, false)
    decreases items, 0
  {
    if items != [] {
      UnformattedDepth(items[0], depth);
      UnformattedDepth(items[0], 1);
      UnformattedItems(items[1..], depth);
    }
  }

  lemma {:induction false} UnformattedMembers(members: seq<Member>, depth: nat)
    requires PrintableMembers(members)
    ensures MembersText(members, depth, false) == MembersText(members, 1, false)
    decreases members, 0
  {
    if members != [] {
      UnformattedDepth(members[0].value, depth);
      UnformattedDepth(members[0].value, 1);
      UnformattedMembers(members[1..], depth);
    }
  }

  /** `cJSON_Minify` of either printed form is `cJSON_PrintUnformatted`. */
  lemma MinifyPrinted(v: Json, fmt: bool)
    requires Printable(v)
    ensures Minify(ValueText(v, 0, fmt)) == Minified(ValueText(v, 0, false))
  {
    MinifyValue(v, 0, fmt, []);
    assert ValueText(v, 0, fmt) + [] == ValueText(v, 0, fmt);
    assert ValueText(v, 0, false) + [] == ValueText(v, 0, false);
  }

  /** What is printed can be minified in place. */
  lemma PrintedIsClosed(v: Json, fmt: bool)
    requires Printable(v)
    ensures Closed(ValueText(v, 0, fmt))
  {
    MinifyPrinted(v, fmt);
    MinifyStaysInside(ValueText(v, 0, fmt));
  }

  // ----- the pass itself

  /** `done` is written, the text from `pos` on is unread and what is behind the terminator is `after`. */
  ghost predicate Copied(json: array<byte>, text: Text, done: seq<byte>, after: seq<byte>, into: nat, pos: nat)
    reads json
  {
    into <= pos <= |text| && Unread(json, text, pos) && json[..into] == done && json[|text| + 1..] == after
  }

  /** What the pass has not read yet is still there. */
  ghost predicate Unread(json: array<byte>, text: Text, pos: nat)
    reads json
  {
    |text| < json.Length && json[|text|] == 0 && forall i | pos <= i < |text| :: json[i] == text[i]
  }

  /** `cJSON_Minify` on a terminated buffer: in place, the write position never ahead of
      the read position. */
  method MinifyInPlace(json: array<byte>, ghost text: Text) returns (into: nat)
    requires Unread(json, text, 0) && Closed(text)
    modifies json
    ensures into <= |text| && json[into] == 0
    ensures Minify(text).Minified? && json[..into] == Minify(text).text
    ensures json[|text| + 1..] == old(json[|text| + 1..])
  {
    into := 0;
    var pos := 0;
    ghost var done, after := [], json[|text| + 1..];
    assert text[0..] == text;
    MinifyStaysInside(text);
    ThenNothing(Minify(text));
    while json[pos] != 0
      invariant Copied(json, text, done, after, into, pos) && Minify(text) == Then(done, Minify(text[pos..]))
      decreases |text| - pos
    {
      ghost var was := pos;
      if json[pos] == SPACE || json[pos] == TAB || json[pos] == CR || json[pos] == LF {
        BlankStep(text, pos);
        pos := pos + 1;
      } else if json[pos] == SLASH && json[pos + 1] == SLASH {
        pos := SkipLineComment(json, text, pos);
      } else if json[pos] == SLASH && json[pos + 1] == STAR {
        pos := SkipBlockComment(json, text, pos);
      } else {
        PieceSplit(text, was);
        into, pos := CopyPiece(json, text, done, after, into, pos);
        ThenTwice(done, text[was..pos], Minify(text[pos..]));
        done := done + text[was..pos];
      }
    }
    assert text[pos..] == [] && done + [] == done;
    json[into] := 0;
  }

  predicate CommentStart(s: Text) {
    At(s, 0) == SLASH && (At(s, 1) == SLASH || At(s, 1) == STAR)
  }

  /** Where the literal or the single character at `start` ends. */
  ghost function PieceEnd(text: Text, start: nat): nat
    requires start < |text|
  {
    start + 1 + if text[start] == QUOTE then LiteralRest(text[start + 1..]) else 0
  }

  lemma PieceSplit(text: Text, start: nat)
    requires start < |text| && !Blank(text[start]) && !CommentStart(text[start..])
    requires Minify(text[start..]).Minified?
    ensures text[start] == QUOTE ==> LiteralRest(text[start + 1..]) > 0
    ensures var pos := PieceEnd(text, start);
            pos <= |text| && Minify(text[start..]) == Then(text[start..pos], Minify(text[pos..]))
  {
    if text[start] == QUOTE { LiteralSplit(text, start); } else { PlainStep(text, start); }
  }

  /** A literal or a single character goes across, as it is. */
  method CopyPiece(json: array<byte>, ghost text: Text, ghost done: seq<byte>, ghost after: seq<byte>, into: nat, start: nat)
    returns (into1: nat, pos: nat)
    requires start < |text| && Copied(json, text, done, after, into, start)
    requires text[start] == QUOTE ==> LiteralRest(text[start + 1..]) > 0
    modifies json
    ensures pos == PieceEnd(text, start) && pos <= |text|
    ensures Copied(json, text, done + text[start..pos], after, into1, pos)
  {
    if json[start] == QUOTE {
      into1, pos := CopyLiteral(json, text, done, after, into, start);
    } else {
      assert text[start..start] == [] && done + [] == done;
      into1, pos := CopyByte(json, text, done, after, start, into, start);
    }
  }

  lemma BlankStep(text: Text, pos: nat)
    requires pos < |text| && Blank(text[pos])
    ensures Minify(text[pos..]) == Minify(text[pos + 1..])
  {
    assert text[pos..][1..] == text[pos + 1..];
  }

  lemma PlainStep(text: Text, pos: nat)
    requires pos < |text| && !Blank(text[pos]) && text[pos] != QUOTE
    requires !CommentStart(text[pos..])
    ensures Minify(text[pos..]) == Then(text[pos..pos + 1], Minify(text[pos + 1..]))
  {
    assert text[pos..][1..] == text[pos + 1..];
    assert text[pos..pos + 1] == [text[pos]];
  }

  method SkipLineComment(json: array<byte>, ghost text: Text, start: nat) returns (pos: nat)
    requires start < |text| && Unread(json, text, start)
    requires text[start] == SLASH && At(text[start..], 1) == SLASH
    ensures start < pos <= |text| && Minify(text[start..]) == Minify(text[pos..])
  {
    pos := start;
    while json[pos] != 0 && json[pos] != LF
      invariant start <= pos <= |text|
      invariant LineEnd(text[start..]) == LineEnd(text[pos..])
      invariant pos == start ==> json[pos] == SLASH
      decreases |text| - pos
    {
      assert text[pos..][1..] == text[pos + 1..];
      pos := pos + 1;
    }
    assert LineEnd(text[pos..]) == text[pos..];
  }

  method SkipBlockComment(json: array<byte>, ghost text: Text, start: nat) returns (pos: nat)
    requires start < |text| && Unread(json, text, start)
    requires text[start] == SLASH && At(text[start..], 1) == STAR
    requires !Minify(text[start..]).Overrun?
    ensures start < pos <= |text| && Minify(text[start..]) == Minify(text[pos..])
  {
    pos := start;
    while json[pos] != 0 && !(json[pos] == STAR && json[pos + 1] == SLASH)
      invariant start <= pos <= |text|
      invariant CommentEnd(text[start..]) == CommentEnd(text[pos..])
      decreases |text| - pos
    {
      assert At(text[pos..], 1) == json[pos + 1];
      assert text[pos..][1..] == text[pos + 1..];
      pos := pos + 1;
    }
    ghost var end := text[pos..];
    assert pos < |text| ==> At(end, 1) == json[pos + 1];
    assert CommentEnd(end) == end;
    assert end[2..] == text[pos + 2..];
    pos := pos + 2;
  }

  /** A literal is copied whole, escapes and all. */
  method CopyLiteral(json: array<byte>, ghost text: Text, ghost done: seq<byte>, ghost after: seq<byte>, start2: nat, start: nat)
    returns (into: nat, pos: nat)
    requires start < |text| && Copied(json, text, done, after, start2, start)
    requires text[start] == QUOTE && LiteralRest(text[start + 1..]) > 0
    modifies json
    ensures pos == start + 1 + LiteralRest(text[start + 1..])
    ensures Copied(json, text, done + text[start..pos], after, into, pos)
  {
    ghost var end := start + 1 + LiteralRest(text[start + 1..]);
    assert text[start..start] == [] && done + [] == done;
    into, pos := CopyByte(json, text, done, after, start, start2, start);
    while json[pos] != 0 && json[pos] != QUOTE
      invariant start < pos < |text| && Copied(json, text, done + text[start..pos], after, into, pos)
      invariant LiteralRest(text[pos..]) > 0 && pos + LiteralRest(text[pos..]) == end
      decreases |text| - pos
    {
      into, pos := CopyInner(json, text, done, after, start, into, pos);
    }
    into, pos := CopyByte(json, text, done, after, start, into, pos);
  }

  /** One character of a literal, with the backslash before it if there is one. */
  method CopyInner(json: array<byte>, ghost text: Text, ghost done: seq<byte>, ghost after: seq<byte>, ghost start: nat,
                   into: nat, pos: nat)
    returns (into1: nat, pos1: nat)
    requires start <= pos < |text| && Copied(json, text, done + text[start..pos], after, into, pos)
    requires text[pos] != QUOTE && LiteralRest(text[pos..]) > 0
    modifies json
    ensures pos < pos1 < |text| && Copied(json, text, done + text[start..pos1], after, into1, pos1)
    ensures LiteralRest(text[pos1..]) > 0 && pos1 + LiteralRest(text[pos1..]) == pos + LiteralRest(text[pos..])
  {
    LiteralStep(text, pos);
    into1, pos1 := into, pos;
    if json[pos1] == BACKSLASH {
      into1, pos1 := CopyByte(json, text, done, after, start, into1, pos1);
    }
    into1, pos1 := CopyByte(json, text, done, after, start, into1, pos1);
  }

  method CopyByte(json: array<byte>, ghost text: Text, ghost done: seq<byte>, ghost after: seq<byte>, ghost start: nat, into: nat, pos: nat)
    returns (into1: nat, pos1: nat)
    requires start <= pos < |text| && Copied(json, text, done + text[start..pos], after, into, pos)
    modifies json
    ensures into1 == into + 1 && pos1 == pos + 1 && Copied(json, text, done + text[start..pos1], after, into1, pos1)
  {
    json[into] := json[pos];
    assert done + text[start..pos + 1] == done + text[start..pos] + [text[pos]];
    return into + 1, pos + 1;
  }

  lemma LiteralSplit(text: Text, start: nat)
    requires start < |text| && text[start] == QUOTE && !Minify(text[start..]).Overrun?
    ensures var n := LiteralRest(text[start + 1..]);
            && n > 0 && start + 1 + n <= |text|
            && Minify(text[start..]) == Then(text[start..start + 1 + n], Minify(text[start + 1 + n..]))
  {
    var rest, n := text[start..], LiteralRest(text[start + 1..]);
    assert rest[1..] == text[start + 1..];
    assert rest[..n + 1] == text[start..start + 1 + n] && rest[n + 1..] == text[start + 1 + n..];
  }

  lemma LiteralStep(text: Text, pos: nat)
    requires pos < |text| && text[pos] != QUOTE && LiteralRest(text[pos..]) > 0
    ensures var step := if text[pos] == BACKSLASH then 2 else 1;
            && pos + step < |text| && LiteralRest(text[pos + step..]) > 0
            && LiteralRest(text[pos..]) == step + LiteralRest(text[pos + step..])
  {
    assert text[pos..][1..] == text[pos + 1..];
    assert pos + 2 <= |text| ==> text[pos..][2..] == text[pos + 2..];
  }
}
