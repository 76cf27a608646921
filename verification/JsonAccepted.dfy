/** Every derivation is parsed to its value. */
module JsonAccepted {
  import opened CText
  import opened Json
  import opened JsonParser
  import opened JsonStrings
  import opened JsonGrammar
  import JsonRoundTrip

  // ----- numbers

  lemma DigitsRead(n: real, ds: Text, rest: Text)
    requires Digits(ds) && !DigitNext(rest)
    ensures DigitsValue(n, ds + rest) == DigitsValue(n, ds) && DigitCount(ds + rest) == |ds| && (ds + rest)[|ds|..] == rest
  {
    JsonRoundTrip.DigitsThen(n, ds, rest);
  }

  lemma {:induction false} NaturalRead(ds: Text)
    requires Digits(ds)
    ensures DigitsValue(0.0, ds) == Natural(ds) as real
  {
    if ds != [] {
      var init, last := ds[..|ds| - 1], ds[|ds| - 1..];
      NaturalRead(init);
      assert ds == init + last;
      JsonRoundTrip.DigitsThen(0.0, init, last);
      var n := Natural(init) as real;
      assert DigitsValue(n * 10.0 + HexValue(last[0]) as real, last[1..]) == n * 10.0 + HexValue(last[0]) as real;
    }
  }

  lemma PowerRead(e: Power, rest: Text)
    requires TakenPower(e, rest)
    ensures Exponent(SpellPower(e, rest)) == (PowerValue(e), rest)
  {
    if e.Power? {
      var s, body := SpellPower(e, rest), e.digits + rest;
      DigitsFloor(e.digits, rest);
      assert s[1..] == e.sign + body;
      if e.sign == [] {
        assert s[1..] == body;
      } else {
        assert s[2..] == body && s[1] == e.sign[0];
      }
      ExponentIs(s, e.sign, body);
    }
  }

  lemma DigitsFloor(ds: Text, rest: Text)
    requires Digits(ds) && !DigitNext(rest)
    ensures DigitsValue(0.0, ds + rest).Floor == Natural(ds) && (ds + rest)[DigitCount(ds + rest)..] == rest
  {
    DigitsRead(0.0, ds, rest);
    NaturalRead(ds);
  }

  lemma ExponentIs(s: Text, sign: Text, body: Text)
    requires s != [] && (s[0] == 101 || s[0] == 69)
    requires if sign == [] then body == s[1..] && (body == [] || (body[0] != 43 && body[0] != MINUS))
             else |s| >= 2 && body == s[2..] && sign == [s[1]] && (s[1] == 43 || s[1] == MINUS)
    ensures var n := DigitsValue(0.0, body).Floor;
            Exponent(s) == (if sign == [MINUS] then -n else n, body[DigitCount(body)..])
  {
  }

  lemma FractionRead(n: real, f: Text, rest: Text)
    requires TakenFraction(f, rest)
    ensures Fraction(n, SpellFraction(f, rest)) == (DigitsValue(n, f), rest, |f|)
  {
    if f != [] {
      var s := SpellFraction(f, rest);
      assert s[1..] == f + rest;
      DigitsRead(n, f, rest);
      FractionIs(n, s, f + rest, |f|);
      assert (f + rest)[|f|..] == rest;
    }
  }

  lemma FractionIs(n: real, s: Text, body: Text, k: nat)
    requires s == [DOT] + body && DigitNext(body) && k == DigitCount(body)
    ensures Fraction(n, s) == (DigitsValue(n, body), body[k..], k)
  {
    assert s[1..] == body && s[1 + k..] == body[k..];
  }

  lemma WholeRead(negative: bool, zero: bool, digits: Text, rest: Text)
    requires TakenWhole(negative, zero, digits, rest)
    ensures Mantissa(SpellWhole(negative, zero, digits, rest)) == (negative, DigitsValue(0.0, digits), rest)
  {
    var s2 := digits + rest;
    var s1 := (if zero then [48] else []) + s2;
    var s := SpellWhole(negative, zero, digits, rest);
    assert s == (if negative then [MINUS] else []) + s1;
    assert (if negative then s[1..] else s) == s1;
    assert At(s1, 0) == 48 <==> zero;
    assert (if zero then s1[1..] else s1) == s2;
    if digits == [] {
      assert s2 == rest;
    } else {
      DigitsRead(0.0, digits, rest);
    }
  }

  lemma NumeralRead(n: Numeral, rest: Text)
    requires TakenNumeral(n, rest)
    ensures ParseNumber(SpellNumeral(n, rest)) == (NumeralValue(n), rest)
  {
    var e := SpellPower(n.power, rest);
    var f := SpellFraction(n.fraction, e);
    WholeRead(n.negative, n.zero, n.digits, f);
    FractionRead(DigitsValue(0.0, n.digits), n.fraction, e);
    PowerRead(n.power, rest);
    JsonRoundTrip.DigitsThen(0.0, n.digits, n.fraction);
    NaturalRead(n.digits + n.fraction);
    PartsTogether(n, SpellNumeral(n, rest), DigitsValue(0.0, n.digits), f, e, rest);
  }

  lemma PartsTogether(n: Numeral, s: Text, n0: real, f: Text, e: Text, rest: Text)
    requires Mantissa(s) == (n.negative, n0, f)
    requires Fraction(n0, f) == (Natural(n.digits + n.fraction) as real, e, |n.fraction|)
    requires Exponent(e) == (PowerValue(n.power), rest)
    ensures ParseNumber(s) == (NumeralValue(n), rest)
  {
    var m, k := Natural(n.digits + n.fraction), PowerValue(n.power) - |n.fraction|;
    var m1 := m as real;
    assert ParseNumber(s) == (Scaled(n.negative, m1, k), rest);
    ScaledIs(n.negative, m, k);
  }

  lemma ScaledIs(negative: bool, n: int, e: int)
    ensures Scaled(negative, n as real, e) == TimesTen(negative, n, e)
  {
  }

  /** `Pow10` is the power of ten, for negative exponents as well. */
  lemma PowersOfTen(e: int)
    ensures Pow10(0) == 1.0 && Pow10(e + 1) == 10.0 * Pow10(e)
  {
  }

  lemma NumeralStart(n: Numeral, rest: Text)
    requires TakenNumeral(n, rest)
    ensures var s := SpellNumeral(n, rest);
            s != [] && (s[0] == MINUS || IsDigit(s[0]))
  {
  }

  // ----- strings

  /** `HexValue` knows the hex digits of either case, and no other character. */
  lemma HexDigits(c: byte)
    ensures var lower, upper := [48, 49, 50, 51, 52, 53, 54, 55, 56, 57, 97, 98, 99, 100, 101, 102],
                                [48, 49, 50, 51, 52, 53, 54, 55, 56, 57, 65, 66, 67, 68, 69, 70];
            && (HexValue(c) >= 0 ==> c == lower[HexValue(c)] || c == upper[HexValue(c)])
            && forall d | 0 <= d < 16 :: HexValue(lower[d]) == d && HexValue(upper[d]) == d
  {
  }

  lemma UnitRead(s: Text, i: nat)
    requires i + 4 <= |s|
    ensures Hex4(s[i..]) == if Unit(s[i..i + 4]) < 0 then 0 else Unit(s[i..i + 4])
  {
    var d := s[i..i + 4];
    assert forall k | 0 <= k < 4 :: s[i..][k] == d[k];
  }

  lemma VoidRead(t: Text, tail: Text)
    requires VoidEscape(t, tail)
    ensures UnicodeEscape(t + tail) == ([], |t|)
  {
    var s := t + tail;
    Within(t, tail, 2);
    UnitRead(s, 2);
    if |t| == 6 {
      assert At(s, 6) == At(tail, 0) && At(s, 7) == At(tail, 1);
    } else {
      Within(t, tail, 8);
      UnitRead(s, 8);
    }
  }

  lemma Within(t: Text, tail: Text, i: nat)
    requires i + 4 <= |t|
    ensures (t + tail)[i..i + 4] == t[i..i + 4]
  {
  }

  lemma PieceRead(p: Piece, tail: Text)
    requires TakenPiece(p, tail)
    ensures Unescape(PieceText(p) + tail) == Prepend(PieceValue(p), Unescape(tail))
  {
    var t := PieceText(p);
    assert (t + tail)[|t|..] == tail;
    match p
    case Plain(c) =>
    case Short(c) =>
    case Units(cp, first, second) => EscapedCharacter(cp, first, second, tail);
    case Void(v) => VoidRead(v, tail);
  }

  lemma {:induction false} PiecesRead(ps: seq<Piece>, closed: bool, rest: Text)
    requires TakenPieces(ps, StringEnd(closed, rest)) && (closed || rest == [])
    ensures Unescape(SpellPieces(ps, StringEnd(closed, rest))) == Ok(PiecesValue(ps), rest)
  {
    if ps == [] {
      assert closed ==> StringEnd(closed, rest)[1..] == rest;
    } else {
      PiecesRead(ps[1..], closed, rest);
      PieceRead(ps[0], SpellPieces(ps[1..], StringEnd(closed, rest)));
    }
  }

  lemma StringAccepted(ps: seq<Piece>, closed: bool, rest: Text)
    requires TakenString(ps, closed, rest)
    ensures ParseString(SpellString(ps, closed, rest)) == Ok(PiecesValue(ps), rest)
  {
    PiecesRead(ps, closed, rest);
    var s, body := SpellString(ps, closed, rest), SpellPieces(ps, StringEnd(closed, rest));
    assert s[1..] == body;
  }

  // ----- blanks

  lemma {:induction false} SkipsBlanks(w: Text, s: Text)
    requires Blanks(w)
    ensures Skip(w + s) == Skip(s)
    ensures s != [] && s[0] > 32 ==> Skip(w + s) == s
    decreases |w|
  {
    if w == [] {
      assert w + s == s;
    } else {
      assert (w + s)[1..] == w[1..] + s;
      SkipsBlanks(w[1..], s);
    }
  }

  // ----- steps of the parser

  lemma ItemsLast(s: Text, v: Json, after: Text, rest: Text)
    requires ParseValue(Skip(s)) == Ok(v, after) && Skip(after) == [CLOSE_BRACKET] + rest
    ensures ParseItems(s) == Ok([v], rest)
  {
    assert ([CLOSE_BRACKET] + rest)[1..] == rest;
  }

  lemma ItemsMore(s: Text, v: Json, after: Text, next: Text, vs: seq<Json>, rest: Text)
    requires ParseValue(Skip(s)) == Ok(v, after) && Skip(after) == [COMMA] + next && ParseItems(next) == Ok(vs, rest)
    ensures ParseItems(s) == Ok([v] + vs, rest)
  {
    assert ([COMMA] + next)[1..] == next;
  }

  lemma MembersMore(s: Text, m: Member, after: Text, next: Text, ms: seq<Member>, rest: Text)
    requires ParseMember(s) == Ok(m, after) && Skip(after) == [COMMA] + next && ParseMembers(next) == Ok(ms, rest)
    ensures ParseMembers(s) == Ok([m] + ms, rest)
  {
    assert ([COMMA] + next)[1..] == next;
  }

  lemma MemberRead(s: Text, key: Text, after: Text, next: Text, v: Json, rest: Text)
    requires ParseString(Skip(s)) == Ok(key, after) && Skip(after) == [COLON] + next && ParseValue(Skip(next)) == Ok(v, rest)
    ensures ParseMember(s) == Ok(Member(key, v), rest)
  {
    assert ([COLON] + next)[1..] == next;
  }

  /** A value starts with a character that is no blank. */
  lemma PhraseStart(p: Phrase, rest: Text)
    requires Taken(p, rest)
    ensures Spell(p, rest) != [] && Spell(p, rest)[0] > 32
    ensures At(Spell(p, rest), 0) != CLOSE_BRACKET
  {
    if p.Figure? { NumeralStart(p.n, rest); }
  }

  // ----- derivations are accepted

  /** Every derivation is parsed to its value, and the parser stops where it ends. */
  lemma {:induction false} Accepted(p: Phrase, rest: Text)
    requires Taken(p, rest)
    ensures ParseValue(Spell(p, rest)) == Ok(ValueOf(p), rest)
    decreases p, 1
  {
    match p
    case NullWord => JsonRoundTrip.ParseWords(rest);
    case FalseWord => JsonRoundTrip.ParseWords(rest);
    case TrueWord => JsonRoundTrip.ParseWords(rest);
    case Figure(n) =>
      NumeralRead(n, rest);
      NumeralStart(n, rest);
      JsonRoundTrip.ParseValueAt(Spell(p, rest));
    case Chars(ps, closed) =>
      StringAccepted(ps, closed, rest);
      JsonRoundTrip.ParseValueAt(Spell(p, rest));
    case Array(w, items) => ArrayAccepted(w, items, rest);
    case Object(w, entries) => ObjectAccepted(w, entries, rest);
  }

  lemma {:induction false} ArrayAccepted(w: Text, items: seq<Item>, rest: Text)
    requires Blanks(w) && (items == [] || TakenItems(items, rest))
    ensures ParseValue(Spell(Array(w, items), rest)) == Ok(Arr(ItemValues(items)), rest)
    decreases items, 2
  {
    if items == [] {
      EmptyArrayAccepted(w, rest);
    } else {
      ItemsAccepted(items, rest);
      ItemsStart(items, rest);
      ArrayFrom(SpellItems(items, rest), ItemValues(items), rest);
    }
  }

  lemma EmptyArrayAccepted(w: Text, rest: Text)
    requires Blanks(w)
    ensures ParseValue([OPEN_BRACKET] + (w + ([CLOSE_BRACKET] + rest))) == Ok(Arr([]), rest)
  {
    var body := w + ([CLOSE_BRACKET] + rest);
    SkipsBlanks(w, [CLOSE_BRACKET] + rest);
    JsonRoundTrip.ParseValueAt([OPEN_BRACKET] + body);
    assert ([OPEN_BRACKET] + body)[1..] == body && ([CLOSE_BRACKET] + rest)[1..] == rest;
  }

  lemma ArrayFrom(body: Text, vs: seq<Json>, rest: Text)
    requires ParseItems(body) == Ok(vs, rest) && At(Skip(body), 0) != CLOSE_BRACKET
    ensures ParseValue([OPEN_BRACKET] + body) == Ok(Arr(vs), rest)
  {
    ParseItemsSkips(body);
    JsonRoundTrip.ParseValueAt([OPEN_BRACKET] + body);
    assert ([OPEN_BRACKET] + body)[1..] == body;
  }

  lemma ParseItemsSkips(s: Text)
    ensures ParseItems(Skip(s)) == ParseItems(s)
  {
    JsonRoundTrip.SkipTwice(s);
  }

  lemma ItemsStart(items: seq<Item>, rest: Text)
    requires items != [] && TakenItems(items, rest)
    ensures At(Skip(SpellItems(items, rest)), 0) != CLOSE_BRACKET
  {
    var i := items[0];
    var t := Spell(i.value, i.after + AfterItem(items, rest));
    PhraseStart(i.value, i.after + AfterItem(items, rest));
    SkipsBlanks(i.before, t);
  }

  lemma {:induction false} ItemsAccepted(items: seq<Item>, rest: Text)
    requires items != [] && TakenItems(items, rest)
    ensures ParseItems(SpellItems(items, rest)) == Ok(ItemValues(items), rest)
    decreases items, 0
  {
    var i, tail := items[0], AfterItem(items, rest);
    var after := i.after + tail;
    Accepted(i.value, after);
    PhraseStart(i.value, after);
    SkipsBlanks(i.before, Spell(i.value, after));
    SkipsBlanks(i.after, tail);
    if |items| == 1 {
      ItemsLast(SpellItems(items, rest), ValueOf(i.value), after, rest);
      assert ItemValues(items[1..]) == [] && [ValueOf(i.value)] + [] == [ValueOf(i.value)];
    } else {
      ItemsAccepted(items[1..], rest);
      ItemsMore(SpellItems(items, rest), ValueOf(i.value), after, SpellItems(items[1..], rest), ItemValues(items[1..]), rest);
    }
  }

  lemma {:induction false} ObjectAccepted(w: Text, entries: seq<Entry>, rest: Text)
    requires Blanks(w) && (entries == [] || TakenEntries(entries, rest))
    ensures ParseValue(Spell(Object(w, entries), rest)) == Ok(Obj(EntryValues(entries)), rest)
    decreases entries, 2
  {
    if entries == [] {
      EmptyObjectAccepted(w, rest);
    } else {
      EntriesAccepted(entries, rest);
      ObjectFrom(SpellEntries(entries, rest), EntryValues(entries), rest);
    }
  }

  lemma EmptyObjectAccepted(w: Text, rest: Text)
    requires Blanks(w)
    ensures ParseValue([OPEN_BRACE] + (w + ([CLOSE_BRACE] + rest))) == Ok(Obj([]), rest)
  {
    var body := w + ([CLOSE_BRACE] + rest);
    SkipsBlanks(w, [CLOSE_BRACE] + rest);
    JsonRoundTrip.ParseValueAt([OPEN_BRACE] + body);
    JsonRoundTrip.ParseObjectStep([OPEN_BRACE] + body, body);
    assert ([CLOSE_BRACE] + rest)[1..] == rest;
  }

  lemma ObjectFrom(body: Text, ms: seq<Member>, rest: Text)
    requires ParseMembers(body) == Ok(ms, rest) && At(Skip(body), 0) == QUOTE
    ensures ParseValue([OPEN_BRACE] + body) == Ok(Obj(ms), rest)
  {
    JsonRoundTrip.ParseMembersSkips(body);
    JsonRoundTrip.ParseValueAt([OPEN_BRACE] + body);
    JsonRoundTrip.ParseObjectStep([OPEN_BRACE] + body, body);
  }

  lemma {:induction false} EntriesAccepted(es: seq<Entry>, rest: Text)
    requires es != [] && TakenEntries(es, rest)
    ensures ParseMembers(SpellEntries(es, rest)) == Ok(EntryValues(es), rest)
    ensures At(Skip(SpellEntries(es, rest)), 0) == QUOTE
    decreases es, 0
  {
    var e, s, tail := es[0], SpellEntries(es, rest), AfterEntry(es, rest);
    EntryAccepted(e, tail);
    SkipsBlanks(e.after, tail);
    var m := Member(PiecesValue(e.key), ValueOf(e.value));
    if |es| == 1 {
      JsonRoundTrip.MembersLast(s, m, e.after + tail, rest);
      assert EntryValues(es[1..]) == [] && [m] + [] == [m];
    } else {
      EntriesAccepted(es[1..], rest);
      MembersMore(s, m, e.after + tail, SpellEntries(es[1..], rest), EntryValues(es[1..]), rest);
    }
  }

  lemma {:induction false} EntryAccepted(e: Entry, tail: Text)
    requires TakenEntry(e, tail)
    ensures ParseMember(SpellEntry(e, tail)) == Ok(Member(PiecesValue(e.key), ValueOf(e.value)), e.after + tail)
    ensures At(Skip(SpellEntry(e, tail)), 0) == QUOTE
    decreases e, 0
  {
    var value := Spell(e.value, e.after + tail);
    var colon := [COLON] + (e.between + value);
    var fromKey := SpellString(e.key, true, e.middle + colon);
    SkipsBlanks(e.before, fromKey);
    StringAccepted(e.key, true, e.middle + colon);
    SkipsBlanks(e.middle, colon);
    PhraseStart(e.value, e.after + tail);
    SkipsBlanks(e.between, value);
    Accepted(e.value, e.after + tail);
    MemberRead(SpellEntry(e, tail), PiecesValue(e.key), e.middle + colon, e.between + value, ValueOf(e.value), e.after + tail);
  }
}
