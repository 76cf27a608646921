/** Whatever the parser accepts has a derivation: it takes no other text. */
module JsonDerived {
  import opened CText
  import opened Json
  import opened JsonParser
  import opened JsonStrings
  import opened JsonGrammar
  import opened JsonAccepted
  import JsonLiteral
  import JsonRoundTrip
  import JsonReader

  // ----- blanks and digits

  lemma {:induction false} BlanksBefore(s: Text) returns (w: Text)
    ensures Blanks(w) && s == w + Skip(s) && (Skip(s) == [] || Skip(s)[0] > 32)
  {
    if s != [] && s[0] <= 32 {
      var w1 := BlanksBefore(s[1..]);
      w := [s[0]] + w1;
      assert s == [s[0]] + s[1..];
    } else {
      w := [];
    }
  }

  lemma {:induction false} DigitsBefore(s: Text)
    ensures Digits(s[..DigitCount(s)]) && !DigitNext(s[DigitCount(s)..])
    ensures s == s[..DigitCount(s)] + s[DigitCount(s)..]
  {
    if DigitNext(s) {
      DigitsBefore(s[1..]);
      var k := DigitCount(s[1..]);
      assert s[..k + 1] == [s[0]] + s[1..][..k] && s[k + 1..] == s[1..][k..];
    }
  }

  // ----- numbers

  lemma PowerOf(s: Text) returns (e: Power)
    ensures var rest := Exponent(s).1;
            TakenPower(e, rest) && SpellPower(e, rest) == s
  {
    if s == [] || (s[0] != 101 && s[0] != 69) {
      e := NoPower;
    } else if |s| >= 2 && (s[1] == 43 || s[1] == MINUS) {
      e := MarkedPower(s, [s[1]], s[2..]);
    } else {
      e := MarkedPower(s, [], s[1..]);
    }
  }

  lemma MarkedPower(s: Text, sign: Text, digits: Text) returns (e: Power)
    requires s != [] && (s[0] == 101 || s[0] == 69) && (sign == [] || sign == [43] || sign == [MINUS])
    requires s == [s[0]] + (sign + digits) && (sign == [] && digits != [] ==> digits[0] != 43 && digits[0] != MINUS)
    ensures var rest := digits[DigitCount(digits)..];
            TakenPower(e, rest) && SpellPower(e, rest) == s
  {
    DigitsBefore(digits);
    e := Power(s[0], sign, digits[..DigitCount(digits)]);
  }

  lemma FractionOf(n: real, s: Text) returns (f: Text)
    ensures var rest := Fraction(n, s).1;
            TakenFraction(f, rest) && SpellFraction(f, rest) == s
  {
    if |s| >= 2 && s[0] == DOT && IsDigit(s[1]) {
      var k := DigitCount(s[1..]);
      DigitsBefore(s[1..]);
      f := s[1..][..k];
      assert s[1..][k..] == s[1 + k..] && s == [DOT] + s[1..];
    } else {
      f := [];
      assert s != [] ==> (DigitNext(s[1..]) <==> |s| >= 2 && IsDigit(s[1]));
    }
  }

  lemma WholeOf(s: Text) returns (negative: bool, zero: bool, digits: Text)
    requires At(s, 0) == MINUS || IsDigit(At(s, 0))
    ensures var rest := Mantissa(s).2;
            TakenWhole(negative, zero, digits, rest) && SpellWhole(negative, zero, digits, rest) == s
  {
    negative := At(s, 0) == MINUS;
    var s1 := if negative then s[1..] else s;
    zero := At(s1, 0) == 48;
    var s2 := if zero then s1[1..] else s1;
    assert s == (if negative then [MINUS] else []) + s1;
    assert s1 == (if zero then [48] else []) + s2;
    if 49 <= At(s2, 0) <= 57 {
      DigitsBefore(s2);
      digits := s2[..DigitCount(s2)];
    } else {
      digits := [];
      assert [] + s2 == s2;
    }
  }

  lemma NumeralOf(s: Text) returns (n: Numeral)
    requires At(s, 0) == MINUS || IsDigit(At(s, 0))
    ensures var rest := ParseNumber(s).1;
            TakenNumeral(n, rest) && SpellNumeral(n, rest) == s
  {
    var negative, zero, digits := WholeOf(s);
    var (_, n0, s0) := Mantissa(s);
    var fraction := FractionOf(n0, s0);
    var power := PowerOf(Fraction(n0, s0).1);
    n := Numeral(negative, zero, digits, fraction, power);
  }

  // ----- strings

  lemma SurrogatesOf(uc: nat, uc2: nat)
    requires 0xD800 <= uc <= 0xDBFF && 0xDC00 <= uc2 <= 0xDFFF
    ensures Scalar(SurrogatePair(uc, uc2)) && Utf16Encode(SurrogatePair(uc, uc2)) == [uc, uc2]
  {
    var a, b := uc - 0xD800, uc2 - 0xDC00;
    assert uc % 0x400 == a && uc2 % 0x400 == b;
    assert (a * 0x400 + b) / 0x400 == a && (a * 0x400 + b) % 0x400 == b;
  }

  lemma UnitEscapeOf(s: Text, i: nat)
    requires i + 6 <= |s| && s[i] == BACKSLASH && s[i + 1] == 117 && Hex4(s[i + 2..]) > 0
    ensures UnitEscape(s[i..i + 6], Hex4(s[i + 2..]))
  {
    var e, d := s[i..i + 6], s[i + 2..];
    assert e[2] == d[0] && e[3] == d[1] && e[4] == d[2] && e[5] == d[3];
  }

  /** The piece at the start of a literal that begins with a `\u` escape. */
  lemma EscapeOf(s: Text) returns (p: Piece)
    requires EscapeNext(s) && UnicodeEscape(s).1 <= |s|
    ensures var (bytes, step) := UnicodeEscape(s);
            TakenPiece(p, s[step..]) && PieceText(p) == s[..step] && PieceValue(p) == bytes
  {
    var (bytes, step) := UnicodeEscape(s);
    if bytes == [] {
      p := Void(s[..step]);
      VoidOf(s);
    } else if step == 6 {
      p := OneUnit(s);
    } else {
      p := TwoUnits(s);
    }
  }

  lemma OneUnit(s: Text) returns (p: Piece)
    requires EscapeNext(s) && UnicodeEscape(s).1 == 6 <= |s| && UnicodeEscape(s).0 != []
    ensures TakenPiece(p, s[6..]) && PieceText(p) == s[..6] && PieceValue(p) == UnicodeEscape(s).0
  {
    UnitEscapeOf(s, 0);
    p := Units(Hex4(s[2..]), s[..6], []);
    assert s[..6] + [] == s[..6] && s[0..6] == s[..6];
  }

  lemma TwoUnits(s: Text) returns (p: Piece)
    requires EscapeNext(s) && UnicodeEscape(s).1 == 12 <= |s| && UnicodeEscape(s).0 != []
    ensures TakenPiece(p, s[12..]) && PieceText(p) == s[..12] && PieceValue(p) == UnicodeEscape(s).0
  {
    var uc, uc2 := Hex4(s[2..]), Hex4(s[8..]);
    PairOf(s);
    UnitEscapeOf(s, 0);
    UnitEscapeOf(s, 6);
    SurrogatesOf(uc, uc2);
    p := Units(SurrogatePair(uc, uc2), s[..6], s[6..12]);
    assert s[..6] + s[6..12] == s[..12] && s[0..6] == s[..6];
  }

  lemma PairOf(s: Text)
    requires EscapeNext(s) && UnicodeEscape(s).1 == 12 && UnicodeEscape(s).0 != []
    ensures |s| >= 12 && s[6] == BACKSLASH && s[7] == 117
    ensures var uc, uc2 := Hex4(s[2..]), Hex4(s[8..]);
            && 0xD800 <= uc <= 0xDBFF && 0xDC00 <= uc2 <= 0xDFFF
            && UnicodeEscape(s).0 == Transcode(SurrogatePair(uc, uc2), Utf8Length(SurrogatePair(uc, uc2)))
  {
  }

  lemma VoidOf(s: Text)
    requires EscapeNext(s) && UnicodeEscape(s).1 <= |s| && UnicodeEscape(s).0 == []
    ensures var step := UnicodeEscape(s).1;
            VoidEscape(s[..step], s[step..])
  {
    var step := UnicodeEscape(s).1;
    var t := s[..step];
    UnitRead(s, 2);
    assert t[2..6] == s[2..6];
    if step == 6 {
      assert EscapeNext(s[6..]) <==> At(s, 6) == BACKSLASH && At(s, 7) == 117;
    } else {
      UnitRead(s, 8);
      assert t[8..12] == s[8..12];
    }
  }

  lemma {:induction false} PiecesOf(s: Text) returns (ps: seq<Piece>, closed: bool)
    requires Unescape(s).Ok?
    ensures var Ok(value, rest) := Unescape(s);
            && (closed || rest == []) && TakenPieces(ps, StringEnd(closed, rest))
            && SpellPieces(ps, StringEnd(closed, rest)) == s && PiecesValue(ps) == value
    decreases |s|
  {
    if s == [] || s[0] == QUOTE {
      ps, closed := [], s != [];
      assert s != [] ==> s == [QUOTE] + s[1..];
    } else {
      ChunkStep(s);
      var step := Chunk(s).1;
      var p := PieceOf(s);
      var tail;
      tail, closed := PiecesOf(s[step..]);
      ps := [p] + tail;
      MorePieces(p, tail, StringEnd(closed, Unescape(s).rest), s, step);
    }
  }

  lemma MorePieces(p: Piece, tail: seq<Piece>, end: Text, s: Text, step: nat)
    requires step <= |s| && TakenPieces(tail, end) && SpellPieces(tail, end) == s[step..]
    requires TakenPiece(p, s[step..]) && PieceText(p) == s[..step]
    ensures var ps := [p] + tail;
            TakenPieces(ps, end) && SpellPieces(ps, end) == s && PiecesValue(ps) == PieceValue(p) + PiecesValue(tail)
  {
    assert ([p] + tail)[1..] == tail && s == s[..step] + s[step..];
  }

  lemma PieceOf(s: Text) returns (p: Piece)
    requires s != [] && s[0] != QUOTE && Chunk(s).1 <= |s|
    ensures var (bytes, step) := Chunk(s);
            TakenPiece(p, s[step..]) && PieceText(p) == s[..step] && PieceValue(p) == bytes
  {
    if s[0] != BACKSLASH {
      p := Plain(s[0]);
    } else if s[1] != 117 {
      p := Short(s[1]);
    } else {
      p := EscapeOf(s);
    }
  }

  lemma StringOf(s: Text) returns (ps: seq<Piece>, closed: bool)
    requires ParseString(s).Ok?
    ensures var Ok(value, rest) := ParseString(s);
            TakenString(ps, closed, rest) && SpellString(ps, closed, rest) == s && PiecesValue(ps) == value
  {
    ps, closed := PiecesOf(s[1..]);
    assert s == [QUOTE] + s[1..];
  }

  // ----- values

  /** What is accepted has a derivation with this value, in front of what is left. */
  lemma {:induction false} Derived(s: Text, v: Json, rest: Text) returns (p: Phrase)
    requires ParseValue(s) == Ok(v, rest)
    ensures Taken(p, rest) && Spell(p, rest) == s && ValueOf(p) == v
    decreases |s|, 1
  {
    if StartsWith(s, NULL_TEXT) {
      p := NullWord;
      assert s == s[..4] + s[4..];
    } else if StartsWith(s, FALSE_TEXT) {
      p := FalseWord;
      assert s == s[..5] + s[5..];
    } else if StartsWith(s, TRUE_TEXT) {
      p := TrueWord;
      assert s == s[..4] + s[4..];
    } else if At(s, 0) == QUOTE {
      var ps, closed := StringOf(s);
      p := Chars(ps, closed);
    } else if At(s, 0) == MINUS || IsDigit(At(s, 0)) {
      var n := NumeralOf(s);
      NumeralRead(n, ParseNumber(s).1);
      p := Figure(n);
    } else if At(s, 0) == OPEN_BRACKET {
      p := ArrayDerived(s, v, rest);
    } else {
      p := ObjectDerived(s, v, rest);
    }
  }

  /** A value with the blanks around it. */
  lemma {:induction false} ValueDerived(s: Text, v: Json, rest: Text) returns (before: Text, p: Phrase, after: Text)
    requires ParseValue(Skip(s)) == Ok(v, rest)
    ensures Blanks(before) && Blanks(after) && rest == after + Skip(rest)
    ensures s == before + Spell(p, rest) && Taken(p, rest) && ValueOf(p) == v
    decreases |s|, 2
  {
    before := BlanksBefore(s);
    p := Derived(Skip(s), v, rest);
    after := BlanksBefore(rest);
  }

  // ----- arrays

  lemma {:induction false} ArrayDerived(s: Text, v: Json, rest: Text) returns (p: Phrase)
    requires At(s, 0) == OPEN_BRACKET && ParseArray(s) == Ok(v, rest)
    ensures Taken(p, rest) && Spell(p, rest) == s && ValueOf(p) == v
    decreases |s|, 0
  {
    var vs := ArrayParts(s, v, rest);
    if vs == [] {
      var w := BlanksBefore(s[1..]);
      p := EmptyArray(s, w, rest);
    } else {
      var items := ItemsDerived(s[1..], vs, rest);
      p := FullArray(s, items, rest);
    }
  }

  /** What an accepted array is made of. */
  lemma ArrayParts(s: Text, v: Json, rest: Text) returns (vs: seq<Json>)
    requires At(s, 0) == OPEN_BRACKET && ParseArray(s) == Ok(v, rest)
    ensures v == Arr(vs) && if vs == [] then Skip(s[1..]) == [CLOSE_BRACKET] + rest else ParseItems(s[1..]) == Ok(vs, rest)
  {
    ParseItemsSkips(s[1..]);
    vs := v.items;
    if At(Skip(s[1..]), 0) == CLOSE_BRACKET {
      assert Skip(s[1..]) == [CLOSE_BRACKET] + Skip(s[1..])[1..];
    } else {
      var _, _, _ := ItemsParts(s[1..], vs, rest);
    }
  }

  lemma EmptyArray(s: Text, w: Text, rest: Text) returns (p: Phrase)
    requires s != [] && s[0] == OPEN_BRACKET && Blanks(w) && s[1..] == w + ([CLOSE_BRACKET] + rest)
    ensures Taken(p, rest) && Spell(p, rest) == s && ValueOf(p) == Arr([])
  {
    p := Array(w, []);
    assert s == [s[0]] + s[1..];
  }

  lemma FullArray(s: Text, items: seq<Item>, rest: Text) returns (p: Phrase)
    requires s != [] && s[0] == OPEN_BRACKET && items != [] && TakenItems(items, rest) && s[1..] == SpellItems(items, rest)
    ensures Taken(p, rest) && Spell(p, rest) == s && ValueOf(p) == Arr(ItemValues(items))
  {
    p := Array([], items);
    assert s == [s[0]] + s[1..];
  }

  lemma {:induction false} ItemsDerived(s: Text, vs: seq<Json>, rest: Text) returns (items: seq<Item>)
    requires ParseItems(s) == Ok(vs, rest)
    ensures items != [] && TakenItems(items, rest) && SpellItems(items, rest) == s && ItemValues(items) == vs
    decreases |s|, 3
  {
    var v, rest1, vs1 := ItemsParts(s, vs, rest);
    var before, p, after := ValueDerived(s, v, rest1);
    var s1, i := Skip(rest1), Item(before, p, after);
    if s1[0] == COMMA {
      var more := ItemsDerived(s1[1..], vs1, rest);
      assert s1 == [COMMA] + s1[1..];
      items := [i] + more;
      MoreItems(i, more, s1, rest);
    } else {
      items := [i];
      LastItem(i, s1, rest);
    }
  }

  /** What an accepted list of elements is made of. */
  lemma ItemsParts(s: Text, vs: seq<Json>, rest: Text) returns (v: Json, rest1: Text, vs1: seq<Json>)
    requires ParseItems(s) == Ok(vs, rest)
    ensures ParseValue(Skip(s)) == Ok(v, rest1) && vs == [v] + vs1 && Skip(rest1) != [] && |Skip(rest1)| <= |s|
    ensures if Skip(rest1)[0] == COMMA then ParseItems(Skip(rest1)[1..]) == Ok(vs1, rest)
            else Skip(rest1) == [CLOSE_BRACKET] + rest && vs1 == []
  {
    v, rest1 := ParseValue(Skip(s)).value, ParseValue(Skip(s)).rest;
    var s1 := Skip(rest1);
    vs1 := vs[1..];
    assert s1 == [s1[0]] + s1[1..];
    if s1[0] == COMMA {
      var r := ParseItems(s1[1..]);
      assert ([v] + r.value)[1..] == r.value;
    }
  }

  lemma MoreItems(i: Item, more: seq<Item>, tail: Text, rest: Text)
    requires more != [] && TakenItems(more, rest) && tail == [COMMA] + SpellItems(more, rest)
    requires Blanks(i.before) && Blanks(i.after) && Taken(i.value, i.after + tail)
    ensures var items := [i] + more;
            && TakenItems(items, rest) && SpellItems(items, rest) == i.before + Spell(i.value, i.after + tail)
            && ItemValues(items) == [ValueOf(i.value)] + ItemValues(more)
  {
    assert ([i] + more)[1..] == more;
  }

  lemma LastItem(i: Item, tail: Text, rest: Text)
    requires tail == [CLOSE_BRACKET] + rest && Blanks(i.before) && Blanks(i.after) && Taken(i.value, i.after + tail)
    ensures && TakenItems([i], rest) && SpellItems([i], rest) == i.before + Spell(i.value, i.after + tail)
            && ItemValues([i]) == [ValueOf(i.value)]
  {
    assert [i][1..] == [];
  }

  // ----- objects

  lemma {:induction false} ObjectDerived(s: Text, v: Json, rest: Text) returns (p: Phrase)
    requires At(s, 0) == OPEN_BRACE && ParseObject(s) == Ok(v, rest)
    ensures Taken(p, rest) && Spell(p, rest) == s && ValueOf(p) == v
    decreases |s|, 0
  {
    var ms := ObjectParts(s, v, rest);
    if ms == [] {
      var w := BlanksBefore(s[1..]);
      p := EmptyObject(s, w, rest);
    } else {
      var entries := EntriesDerived(s[1..], ms, rest);
      p := FullObject(s, entries, rest);
    }
  }

  /** What an accepted object is made of. */
  lemma ObjectParts(s: Text, v: Json, rest: Text) returns (ms: seq<Member>)
    requires At(s, 0) == OPEN_BRACE && ParseObject(s) == Ok(v, rest)
    ensures v == Obj(ms) && if ms == [] then Skip(s[1..]) == [CLOSE_BRACE] + rest else ParseMembers(s[1..]) == Ok(ms, rest)
  {
    JsonRoundTrip.ParseMembersSkips(s[1..]);
    ms := v.members;
    if At(Skip(s[1..]), 0) == CLOSE_BRACE {
      assert Skip(s[1..]) == [CLOSE_BRACE] + Skip(s[1..])[1..];
    } else {
      var _, _, _ := MembersParts(s[1..], ms, rest);
    }
  }

  lemma EmptyObject(s: Text, w: Text, rest: Text) returns (p: Phrase)
    requires s != [] && s[0] == OPEN_BRACE && Blanks(w) && s[1..] == w + ([CLOSE_BRACE] + rest)
    ensures Taken(p, rest) && Spell(p, rest) == s && ValueOf(p) == Obj([])
  {
    p := Object(w, []);
    assert s == [s[0]] + s[1..];
  }

  lemma FullObject(s: Text, es: seq<Entry>, rest: Text) returns (p: Phrase)
    requires s != [] && s[0] == OPEN_BRACE && es != [] && TakenEntries(es, rest) && s[1..] == SpellEntries(es, rest)
    ensures Taken(p, rest) && Spell(p, rest) == s && ValueOf(p) == Obj(EntryValues(es))
  {
    p := Object([], es);
    assert s == [s[0]] + s[1..];
  }

  lemma {:induction false} EntriesDerived(s: Text, ms: seq<Member>, rest: Text) returns (es: seq<Entry>)
    requires ParseMembers(s) == Ok(ms, rest)
    ensures es != [] && TakenEntries(es, rest) && SpellEntries(es, rest) == s && EntryValues(es) == ms
    decreases |s|, 3
  {
    var m, rest1, ms1 := MembersParts(s, ms, rest);
    var e := EntryDerived(s, m, rest1);
    var s1 := Skip(rest1);
    if s1[0] == COMMA {
      var more := EntriesDerived(s1[1..], ms1, rest);
      assert s1 == [COMMA] + s1[1..];
      es := [e] + more;
      MoreEntries(e, more, s1, rest);
    } else {
      es := [e];
      LastEntry(e, s1, rest);
    }
  }

  /** What an accepted list of members is made of. */
  lemma MembersParts(s: Text, ms: seq<Member>, rest: Text) returns (m: Member, rest1: Text, ms1: seq<Member>)
    requires ParseMembers(s) == Ok(ms, rest)
    ensures ParseMember(s) == Ok(m, rest1) && ms == [m] + ms1 && Skip(rest1) != [] && |Skip(rest1)| <= |s|
    ensures if Skip(rest1)[0] == COMMA then ParseMembers(Skip(rest1)[1..]) == Ok(ms1, rest)
            else Skip(rest1) == [CLOSE_BRACE] + rest && ms1 == []
  {
    m, rest1 := ParseMember(s).value, ParseMember(s).rest;
    var s1 := Skip(rest1);
    ms1 := ms[1..];
    assert s1 == [s1[0]] + s1[1..];
    if s1[0] == COMMA {
      var r := ParseMembers(s1[1..]);
      assert ([m] + r.value)[1..] == r.value;
    }
  }

  /** A key, a colon and a value: the entry, with blanks of its own behind the value. */
  lemma {:induction false} EntryDerived(s: Text, m: Member, rest: Text) returns (e: Entry)
    requires ParseMember(s) == Ok(m, rest)
    ensures rest == e.after + Skip(rest) && TakenEntry(e, Skip(rest)) && SpellEntry(e, Skip(rest)) == s
    ensures m == Member(PiecesValue(e.key), ValueOf(e.value))
    decreases |s|, 2
  {
    var rest1, s2 := MemberParts(s, m, rest);
    var before, key := KeyDerived(s, m.key, rest1);
    var middle := BlanksBefore(rest1);
    var between, p, after := ValueDerived(s2, m.value, rest);
    e := Entry(before, key, middle, between, p, after);
    EntryTogether(e, s, rest1, [COLON] + s2, Skip(rest), rest);
  }

  /** What an accepted member is made of. */
  lemma MemberParts(s: Text, m: Member, rest: Text) returns (rest1: Text, s2: Text)
    requires ParseMember(s) == Ok(m, rest)
    ensures ParseString(Skip(s)) == Ok(m.key, rest1) && Skip(rest1) == [COLON] + s2 && |s2| < |s|
    ensures ParseValue(Skip(s2)) == Ok(m.value, rest)
  {
    rest1 := ParseString(Skip(s)).rest;
    s2 := Skip(rest1)[1..];
    assert Skip(rest1) == [COLON] + s2;
  }

  lemma KeyDerived(s: Text, k: Text, rest: Text) returns (before: Text, key: seq<Piece>)
    requires ParseString(Skip(s)) == Ok(k, rest) && rest != []
    ensures Blanks(before) && s == before + SpellString(key, true, rest) && TakenString(key, true, rest) && PiecesValue(key) == k
  {
    before := BlanksBefore(s);
    var closed;
    key, closed := StringOf(Skip(s));
  }

  lemma EntryTogether(e: Entry, s: Text, rest1: Text, s1: Text, tail: Text, rest: Text)
    requires Blanks(e.before) && Blanks(e.middle) && Blanks(e.between) && Blanks(e.after) && rest == e.after + tail
    requires s == e.before + SpellString(e.key, true, rest1) && TakenString(e.key, true, rest1)
    requires rest1 == e.middle + s1 && s1 == [COLON] + (e.between + Spell(e.value, rest)) && Taken(e.value, rest)
    ensures TakenEntry(e, tail) && SpellEntry(e, tail) == s
  {
  }

  lemma MoreEntries(e: Entry, more: seq<Entry>, tail: Text, rest: Text)
    requires more != [] && TakenEntries(more, rest) && tail == [COMMA] + SpellEntries(more, rest) && TakenEntry(e, tail)
    ensures var es := [e] + more;
            && TakenEntries(es, rest) && SpellEntries(es, rest) == SpellEntry(e, tail)
            && EntryValues(es) == [Member(PiecesValue(e.key), ValueOf(e.value))] + EntryValues(more)
  {
    assert ([e] + more)[1..] == more;
  }

  lemma LastEntry(e: Entry, tail: Text, rest: Text)
    requires tail == [CLOSE_BRACE] + rest && TakenEntry(e, tail)
    ensures && TakenEntries([e], rest) && SpellEntries([e], rest) == SpellEntry(e, tail)
            && EntryValues([e]) == [Member(PiecesValue(e.key), ValueOf(e.value))]
  {
    assert [e][1..] == [];
  }

  // ----- exactly these texts

  /** The parser accepts a text with this value and this rest exactly when a derivation of the
      value, in front of that rest, spells the text. */
  lemma ParsesExactly(s: Text, v: Json, rest: Text)
    ensures ParseValue(s) == Ok(v, rest) <==> exists p :: Taken(p, rest) && Spell(p, rest) == s && ValueOf(p) == v
  {
    if ParseValue(s) == Ok(v, rest) { var p := Derived(s, v, rest); }
    forall p | Taken(p, rest) && Spell(p, rest) == s ensures ParseValue(s) == Ok(ValueOf(p), rest) {
      Accepted(p, rest);
    }
  }

  /** The same for a document that need not end with the value: blanks may stand in front. */
  lemma DocumentBegins(text: Text, v: Json, rest: Text)
    ensures JsonReader.ParseDocument(text, false) == Ok(v, rest) <==>
              exists before, p :: Blanks(before) && Taken(p, rest) && text == before + Spell(p, rest) && ValueOf(p) == v
  {
    if JsonReader.ParseDocument(text, false) == Ok(v, rest) {
      var before := BlanksBefore(text);
      var p := Derived(Skip(text), v, rest);
    }
    forall before, p | Blanks(before) && Taken(p, rest) && text == before + Spell(p, rest)
      ensures JsonReader.ParseDocument(text, false) == Ok(ValueOf(p), rest)
    {
      Accepted(p, rest);
      PhraseStart(p, rest);
      SkipsBlanks(before, Spell(p, rest));
    }
  }

  /** The same for a document in the mode that requires the text to end: blanks around a value,
      and nothing else. */
  lemma DocumentExactly(text: Text, v: Json, rest: Text)
    ensures JsonReader.ParseDocument(text, true) == Ok(v, rest) <==>
              && rest == []
              && exists before, p, after ::
                   && Blanks(before) && Blanks(after) && Taken(p, after)
                   && text == before + Spell(p, after) && ValueOf(p) == v
  {
    if JsonReader.ParseDocument(text, true) == Ok(v, rest) {
      var before := BlanksBefore(text);
      var end := ParseValue(Skip(text)).rest;
      var p := Derived(Skip(text), v, end);
      var after := BlanksBefore(end);
      assert after + [] == after;
      assert Blanks(before) && Blanks(end) && Taken(p, end) && text == before + Spell(p, end) && ValueOf(p) == v;
    }
    forall before, p, after | Blanks(before) && Blanks(after) && Taken(p, after) && text == before + Spell(p, after)
      ensures JsonReader.ParseDocument(text, true) == Ok(ValueOf(p), [])
    {
      Accepted(p, after);
      PhraseStart(p, after);
      SkipsBlanks(before, Spell(p, after));
      SkipsBlanks(after, []);
      assert after + [] == after;
    }
  }

  /** Some texts it refuses: nothing, a word it does not know, a bracket with only a comma, and a
      value, colon or bracket too few. */
  lemma Refused()
    ensures ParseValue([]) == Fail && ParseValue([120]) == Fail
    ensures ParseValue([OPEN_BRACKET, COMMA, CLOSE_BRACKET]) == Fail
    ensures ParseValue([OPEN_BRACKET]) == Fail && ParseValue([OPEN_BRACE]) == Fail
  {
    var s: Text := [OPEN_BRACKET, COMMA, CLOSE_BRACKET];
    var t: Text := [COMMA, CLOSE_BRACKET];
    assert s[1..] == t && Skip(t) == t && ParseValue(t) == Fail;
    assert ParseItems(t) == Fail && ParseArray(s) == Fail;
    assert ([OPEN_BRACKET])[1..] == [] && ([OPEN_BRACE])[1..] == [];
    assert ParseItems([]) == Fail;
    assert ParseString([]) == Fail && ParseMember([]) == Fail && ParseMembers([]) == Fail;
  }

  // ----- overruns

  /** A literal in the text on which the two passes of `parse_string` disagree. */
  predicate BadLiteral(s: Text) {
    s != [] && ((s[0] == QUOTE && ParseString(s).Overrun?) || BadLiteral(s[1..]))
  }

  /** `t` is what is left of `s`. */
  predicate Ends(s: Text, t: Text) {
    s == t || (s != [] && Ends(s[1..], t))
  }

  lemma {:induction false} EndsOn(s: Text, t: Text, u: Text)
    requires Ends(s, t) && Ends(t, u)
    ensures Ends(s, u)
  {
    if s != t { EndsOn(s[1..], t, u); }
  }

  lemma {:induction false} BadBehind(s: Text, t: Text)
    requires Ends(s, t) && BadLiteral(t)
    ensures BadLiteral(s)
  {
    if s != t { BadBehind(s[1..], t); }
  }

  lemma {:induction false} DropEnds(s: Text, k: nat)
    requires k <= |s|
    ensures Ends(s, s[k..])
  {
    if k > 0 {
      DropEnds(s[1..], k - 1);
      assert s[1..][k - 1..] == s[k..];
    } else {
      assert s[0..] == s;
    }
  }

  lemma {:induction false} SkipEnds(s: Text)
    ensures Ends(s, Skip(s))
  {
    if s != [] && s[0] <= 32 { SkipEnds(s[1..]); }
  }

  lemma StringEnds(s: Text)
    ensures ParseString(s).Ok? ==> Ends(s, ParseString(s).rest)
    ensures ParseString(s).Overrun? ==> BadLiteral(s)
  {
    if ParseString(s).Ok? {
      JsonLiteral.StopIsWhereItEnds(s[1..]);
      var k := |s| - |ParseString(s).rest|;
      DropEnds(s, k);
      assert s[k..] == ParseString(s).rest;
    }
  }

  lemma WholeEnds(s: Text)
    ensures Ends(s, Mantissa(s).2)
  {
    var s1 := if At(s, 0) == MINUS then s[1..] else s;
    var s2 := if At(s1, 0) == 48 then s1[1..] else s1;
    DropEnds(s, |s| - |s1|);
    DropEnds(s1, |s1| - |s2|);
    EndsOn(s, s1, s2);
    DropEnds(s2, DigitCount(s2));
    if 49 <= At(s2, 0) <= 57 { EndsOn(s, s2, s2[DigitCount(s2)..]); }
  }

  lemma PowerEnds(s: Text)
    ensures Ends(s, Exponent(s).1)
  {
    if s != [] && (s[0] == 101 || s[0] == 69) {
      var k := if |s| >= 2 && (s[1] == 43 || s[1] == MINUS) then 2 else 1;
      DropEnds(s, k);
      DropEnds(s[k..], DigitCount(s[k..]));
      EndsOn(s, s[k..], Exponent(s).1);
    }
  }

  lemma NumberEnds(s: Text)
    ensures Ends(s, ParseNumber(s).1)
  {
    var n0, s0 := Mantissa(s).1, Mantissa(s).2;
    var s1 := Fraction(n0, s0).1;
    var s2 := Exponent(s1).1;
    WholeEnds(s);
    FractionEnds(n0, s0);
    PowerEnds(s1);
    EndsOn(s0, s1, s2);
    EndsOn(s, s0, s2);
    LastPart(s);
  }

  lemma FractionEnds(n: real, s: Text)
    ensures Ends(s, Fraction(n, s).1)
  {
    DropEnds(s, |s| - |Fraction(n, s).1|);
  }

  lemma LastPart(s: Text)
    ensures ParseNumber(s).1 == Exponent(Fraction(Mantissa(s).1, Mantissa(s).2).1).1
  {
  }

  /** The parser leaves the text or a buffer only in such a literal; every other text that it does
      not accept it refuses. */
  lemma {:induction false} OverrunsInLiteral(s: Text)
    ensures ParseValue(s).Ok? ==> Ends(s, ParseValue(s).rest)
    ensures ParseValue(s).Overrun? ==> BadLiteral(s)
    decreases |s|, 1
  {
    if StartsWith(s, NULL_TEXT) || StartsWith(s, TRUE_TEXT) {
      DropEnds(s, 4);
    } else if StartsWith(s, FALSE_TEXT) {
      DropEnds(s, 5);
    } else if At(s, 0) == QUOTE {
      StringEnds(s);
    } else if At(s, 0) == MINUS || IsDigit(At(s, 0)) {
      NumberEnds(s);
    } else if At(s, 0) == OPEN_BRACKET {
      SkipEnds(s[1..]);
      ItemsOverrun(Skip(s[1..]));
      ArrayEnds(s);
    } else if At(s, 0) == OPEN_BRACE {
      SkipEnds(s[1..]);
      MembersOverrun(Skip(s[1..]));
      ObjectEnds(s);
    }
  }

  lemma ArrayEnds(s: Text)
    requires At(s, 0) == OPEN_BRACKET && Ends(s[1..], Skip(s[1..]))
    requires var r := ParseItems(Skip(s[1..]));
             (r.Ok? ==> Ends(Skip(s[1..]), r.rest)) && (r.Overrun? ==> BadLiteral(Skip(s[1..])))
    ensures ParseArray(s).Ok? ==> Ends(s, ParseArray(s).rest)
    ensures ParseArray(s).Overrun? ==> BadLiteral(s)
  {
    var s1 := Skip(s[1..]);
    if ParseArray(s).Ok? {
      EndsOn(s[1..], s1, ParseArray(s).rest);
    } else if ParseArray(s).Overrun? {
      BadBehind(s[1..], s1);
    }
  }

  lemma ObjectEnds(s: Text)
    requires At(s, 0) == OPEN_BRACE && Ends(s[1..], Skip(s[1..]))
    requires var r := ParseMembers(Skip(s[1..]));
             (r.Ok? ==> Ends(Skip(s[1..]), r.rest)) && (r.Overrun? ==> BadLiteral(Skip(s[1..])))
    ensures ParseObject(s).Ok? ==> Ends(s, ParseObject(s).rest)
    ensures ParseObject(s).Overrun? ==> BadLiteral(s)
  {
    var s1 := Skip(s[1..]);
    if ParseObject(s).Ok? {
      EndsOn(s[1..], s1, ParseObject(s).rest);
    } else if ParseObject(s).Overrun? {
      BadBehind(s[1..], s1);
    }
  }

  /** From `s` to the next value behind a blank, a separator and blanks again. */
  lemma NextEnds(s: Text, rest: Text)
    requires Ends(s, rest)
    ensures Ends(s, Skip(rest)) && (Skip(rest) != [] ==> Ends(s, Skip(rest)[1..]))
  {
    SkipEnds(rest);
    EndsOn(s, rest, Skip(rest));
    if Skip(rest) != [] { EndsOn(s, Skip(rest), Skip(rest)[1..]); }
  }

  lemma {:induction false} ItemsOverrun(s: Text)
    ensures ParseItems(s).Ok? ==> Ends(s, ParseItems(s).rest)
    ensures ParseItems(s).Overrun? ==> BadLiteral(s)
    decreases |s|, 2
  {
    SkipEnds(s);
    OverrunsInLiteral(Skip(s));
    match ParseValue(Skip(s))
    case Fail =>
    case Overrun => BadBehind(s, Skip(s));
    case Ok(v, rest) =>
      EndsOn(s, Skip(s), rest);
      NextEnds(s, rest);
      var s1 := Skip(rest);
      if At(s1, 0) == COMMA {
        ItemsOverrun(s1[1..]);
        if ParseItems(s1[1..]).Ok? { EndsOn(s, s1[1..], ParseItems(s1[1..]).rest); }
        if ParseItems(s1[1..]).Overrun? { BadBehind(s, s1[1..]); }
      }
  }

  lemma {:induction false} MemberOverrun(s: Text)
    ensures ParseMember(s).Ok? ==> Ends(s, ParseMember(s).rest)
    ensures ParseMember(s).Overrun? ==> BadLiteral(s)
    decreases |s|, 2
  {
    SkipEnds(s);
    StringEnds(Skip(s));
    match ParseString(Skip(s))
    case Fail =>
    case Overrun => BadBehind(s, Skip(s));
    case Ok(key, rest) =>
      EndsOn(s, Skip(s), rest);
      NextEnds(s, rest);
      var s1 := Skip(rest);
      if At(s1, 0) == COLON {
        NextEnds(s, s1[1..]);
        var s2 := Skip(s1[1..]);
        OverrunsInLiteral(s2);
        if ParseValue(s2).Ok? { EndsOn(s, s2, ParseValue(s2).rest); }
        if ParseValue(s2).Overrun? { BadBehind(s, s2); }
      }
  }

  lemma {:induction false} MembersOverrun(s: Text)
    ensures ParseMembers(s).Ok? ==> Ends(s, ParseMembers(s).rest)
    ensures ParseMembers(s).Overrun? ==> BadLiteral(s)
    decreases |s|, 3
  {
    MemberOverrun(s);
    if ParseMember(s).Ok? {
      var rest := ParseMember(s).rest;
      NextEnds(s, rest);
      var s1 := Skip(rest);
      if At(s1, 0) == COMMA {
        MembersOverrun(s1[1..]);
        if ParseMembers(s1[1..]).Ok? { EndsOn(s, s1[1..], ParseMembers(s1[1..]).rest); }
        if ParseMembers(s1[1..]).Overrun? { BadBehind(s, s1[1..]); }
      }
    }
  }
}
