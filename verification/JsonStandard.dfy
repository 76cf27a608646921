/** Every text of RFC 8259 is among those that the parser takes. */
module JsonStandard {
  import opened CText
  import opened Json
  import opened JsonParser
  import opened JsonLiteral
  import opened JsonStrings
  import opened JsonRoundTrip
  import opened JsonGrammar
  import JsonAccepted
  import JsonReader

  // ----- strings

  /** The bytes were counted: no escape reaches beyond the closing quote. */
  lemma PieceInside(p: Piece, tail: Text)
    requires ProperPiece(p) && Paired(tail) && Contained(tail, Reach(tail))
    ensures var t := PieceText(p) + tail;
            TakenPiece(p, tail) && Paired(t) && Contained(t, Reach(t))
  {
    match p
    case Plain(c) => assert ([c] + tail)[1..] == tail;
    case Short(c) => assert ([BACKSLASH, c] + tail)[2..] == tail;
    case Units(cp, first, second) => UnitsInside(cp, first, second, tail);
  }

  lemma UnitsInside(cp: nat, first: Text, second: Text, tail: Text)
    requires TakenPiece(Units(cp, first, second), []) && Paired(tail) && Contained(tail, Reach(tail))
    ensures var t := first + second + tail;
            Paired(t) && Contained(t, Reach(t))
  {
    var t, n := first + second + tail, |first + second|;
    EscapedCharacter(cp, first, second, tail);
    UnitsPaired(first, second, tail);
    SpanInside(t, n, tail);
  }

  lemma SpanInside(t: Text, n: nat, tail: Text)
    requires EscapeNext(t) && UnicodeEscape(t).1 == n <= |t| && t[n..] == tail && Paired(tail) && Contained(tail, Reach(tail))
    requires Paired(t) && Reach(t) == n + Reach(tail)
    ensures Contained(t, Reach(t))
  {
    assert EscapeSpan(t) == n;
  }

  predicate FourHex(e: Text) {
    |e| == 6 && e[0] == BACKSLASH && e[1] == 117 && forall i | 2 <= i < 6 :: HexValue(e[i]) >= 0
  }

  lemma UnitsPaired(first: Text, second: Text, tail: Text)
    requires FourHex(first) && (second == [] || FourHex(second)) && Paired(tail)
    ensures var t := first + second + tail;
            Paired(t) && Reach(t) == |first + second| + Reach(tail)
  {
    var t := first + second + tail;
    if second == [] {
      assert t == first + tail;
      UnitPaired(first, tail);
    } else {
      assert t == first + (second + tail);
      UnitPaired(second, tail);
      UnitPaired(first, second + tail);
    }
  }

  lemma UnitPaired(e: Text, tail: Text)
    requires FourHex(e) && Paired(tail)
    ensures Paired(e + tail) && Reach(e + tail) == 6 + Reach(tail)
  {
    var t := e + tail;
    assert t[6..] == tail;
    assert forall i | 2 <= i < 6 :: t[i] == e[i];
    FourDigits(t, tail);
  }

  lemma {:induction false} PiecesInside(ps: seq<Piece>, rest: Text)
    requires ProperPieces(ps)
    ensures var t := SpellPieces(ps, [QUOTE] + rest);
            TakenPieces(ps, [QUOTE] + rest) && Paired(t) && Contained(t, Reach(t))
  {
    if ps != [] {
      PiecesInside(ps[1..], rest);
      PieceInside(ps[0], SpellPieces(ps[1..], [QUOTE] + rest));
    }
  }

  lemma StringStandard(ps: seq<Piece>, rest: Text)
    requires ProperPieces(ps)
    ensures TakenString(ps, true, rest)
  {
    PiecesInside(ps, rest);
    JsonAccepted.PiecesRead(ps, true, rest);
    LiteralFits(SpellPieces(ps, [QUOTE] + rest));
  }

  // ----- values

  lemma BlanksEnd(w: Text, s: Text)
    requires Spaces(w) && s != [] && !(IsDigit(s[0]) || s[0] == DOT || s[0] == 101 || s[0] == 69)
    ensures Terminated(w + s)
  {
  }

  /** A derivation of the RFC, in front of a text that does not continue a number. */
  lemma {:induction false} Standard(p: Phrase, rest: Text)
    requires Proper(p) && Terminated(rest)
    ensures Taken(p, rest)
    decreases p, 1
  {
    match p
    case Chars(ps, _) => StringStandard(ps, rest);
    case Array(_, items) => if items != [] { ItemsStandard(items, rest); }
    case Object(_, entries) => if entries != [] { EntriesStandard(entries, rest); }
    case _ =>
  }

  lemma {:induction false} ItemsStandard(items: seq<Item>, rest: Text)
    requires items != [] && ProperItems(items)
    ensures TakenItems(items, rest)
    decreases items, 0
  {
    var i, tail := items[0], AfterItem(items, rest);
    BlanksEnd(i.after, tail);
    Standard(i.value, i.after + tail);
    if |items| > 1 { ItemsStandard(items[1..], rest); }
  }

  lemma {:induction false} EntriesStandard(es: seq<Entry>, rest: Text)
    requires es != [] && ProperEntries(es)
    ensures TakenEntries(es, rest)
    decreases es, 0
  {
    EntryStandard(es[0], AfterEntry(es, rest));
    if |es| > 1 { EntriesStandard(es[1..], rest); }
  }

  lemma {:induction false} EntryStandard(e: Entry, tail: Text)
    requires Spaces(e.before) && Spaces(e.middle) && Spaces(e.between) && Spaces(e.after)
    requires ProperPieces(e.key) && Proper(e.value) && tail != [] && (tail[0] == COMMA || tail[0] == CLOSE_BRACE)
    ensures TakenEntry(e, tail)
    decreases e, 0
  {
    BlanksEnd(e.after, tail);
    Standard(e.value, e.after + tail);
    StringStandard(e.key, e.middle + ([COLON] + (e.between + Spell(e.value, e.after + tail))));
  }

  /** So it is parsed to its value, and the parser stops where that text begins. */
  lemma StandardAccepted(p: Phrase, rest: Text)
    requires Proper(p) && Terminated(rest)
    ensures ParseValue(Spell(p, rest)) == Ok(ValueOf(p), rest)
  {
    Standard(p, rest);
    JsonAccepted.Accepted(p, rest);
  }

  /** A whole document, with blanks around it, in the mode that requires the text to end. */
  lemma DocumentAccepted(p: Phrase, before: Text, after: Text)
    requires Proper(p) && Spaces(before) && Spaces(after)
    ensures JsonReader.ParseDocument(before + Spell(p, after), true) == Ok(ValueOf(p), [])
  {
    StandardAccepted(p, after);
    Standard(p, after);
    JsonAccepted.PhraseStart(p, after);
    JsonAccepted.SkipsBlanks(before, Spell(p, after));
    JsonAccepted.SkipsBlanks(after, []);
    assert after + [] == after;
  }
}
