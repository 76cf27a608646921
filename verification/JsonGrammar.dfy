/** The texts cJSON takes for a value, as derivations: the grammar of RFC 8259, sections 2 to 7,
    and what the parser lets through beyond it. */
module JsonGrammar {
  import opened CText
  import opened Json
  import opened JsonParser
  import opened JsonStrings

  // ----- derivations

  /** A piece of a string: a character as it is, with a two-character escape, or as the escapes of
      its UTF-16 units; or a `\u` escape that stands for no character. */
  datatype Piece = Plain(c: Ch) | Short(c: Ch) | Units(cp: nat, first: Text, second: Text) | Void(text: Text)

  datatype Power = NoPower | Power(mark: Ch, sign: Text, digits: Text)

  /** A number: sign, leading zero, digits, the digits behind a point, and an exponent. */
  datatype Numeral = Numeral(negative: bool, zero: bool, digits: Text, fraction: Text, power: Power)

  /** A derivation of a value. `blank` is what stands between empty brackets; a string that is not
      `closed` ends with the text. */
  datatype Phrase =
    | NullWord
    | FalseWord
    | TrueWord
    | Figure(n: Numeral)
    | Chars(pieces: seq<Piece>, closed: bool)
    | Array(blank: Text, items: seq<Item>)
    | Object(blank: Text, entries: seq<Entry>)

  datatype Item = Item(before: Text, value: Phrase, after: Text)

  datatype Entry = Entry(before: Text, key: seq<Piece>, middle: Text, between: Text, value: Phrase, after: Text)

  // ----- texts

  function PieceText(p: Piece): Text {
    match p
    case Plain(c) => [c]
    case Short(c) => [BACKSLASH, c]
    case Units(_, first, second) => first + second
    case Void(t) => t
  }

  /** The text in front of `rest`. */
  function SpellPieces(ps: seq<Piece>, rest: Text): Text {
    if ps == [] then rest else PieceText(ps[0]) + SpellPieces(ps[1..], rest)
  }

  /** What follows the pieces of a string. */
  function StringEnd(closed: bool, rest: Text): Text {
    if closed then [QUOTE] + rest else []
  }

  function SpellString(ps: seq<Piece>, closed: bool, rest: Text): Text {
    [QUOTE] + SpellPieces(ps, StringEnd(closed, rest))
  }

  function SpellPower(e: Power, rest: Text): Text {
    if e.NoPower? then rest else [e.mark] + (e.sign + (e.digits + rest))
  }

  function SpellFraction(f: Text, rest: Text): Text {
    if f == [] then rest else [DOT] + (f + rest)
  }

  function SpellWhole(negative: bool, zero: bool, digits: Text, rest: Text): Text {
    (if negative then [MINUS] else []) + ((if zero then [48] else []) + (digits + rest))
  }

  function SpellNumeral(n: Numeral, rest: Text): Text {
    SpellWhole(n.negative, n.zero, n.digits, SpellFraction(n.fraction, SpellPower(n.power, rest)))
  }

  /** The text of a value in front of `rest`. */
  function Spell(p: Phrase, rest: Text): Text
    decreases p, 1
  {
    match p
    case NullWord => NULL_TEXT + rest
    case FalseWord => FALSE_TEXT + rest
    case TrueWord => TRUE_TEXT + rest
    case Figure(n) => SpellNumeral(n, rest)
    case Chars(ps, closed) => SpellString(ps, closed, rest)
    case Array(w, items) =>
      [OPEN_BRACKET] + if items == [] then w + ([CLOSE_BRACKET] + rest) else SpellItems(items, rest)
    case Object(w, entries) =>
      [OPEN_BRACE] + if entries == [] then w + ([CLOSE_BRACE] + rest) else SpellEntries(entries, rest)
  }

  function SpellItems(items: seq<Item>, rest: Text): Text
    requires items != []
    decreases items, 0
  {
    var i := items[0];
    i.before + Spell(i.value, i.after + AfterItem(items, rest))
  }

  /** What follows the first item and its blanks. */
  function AfterItem(items: seq<Item>, rest: Text): Text
    requires items != []
    decreases items, 0, 0
  {
    if |items| == 1 then [CLOSE_BRACKET] + rest else [COMMA] + SpellItems(items[1..], rest)
  }

  function SpellEntries(es: seq<Entry>, rest: Text): Text
    requires es != []
    decreases es, 0
  {
    SpellEntry(es[0], AfterEntry(es, rest))
  }

  function SpellEntry(e: Entry, tail: Text): Text
    decreases e, 0
  {
    e.before + SpellString(e.key, true, e.middle + ([COLON] + (e.between + Spell(e.value, e.after + tail))))
  }

  function AfterEntry(es: seq<Entry>, rest: Text): Text
    requires es != []
    decreases es, 0, 0
  {
    if |es| == 1 then [CLOSE_BRACE] + rest else [COMMA] + SpellEntries(es[1..], rest)
  }

  // ----- values

  /** The bytes a piece stands for: a character in UTF-8. */
  function PieceValue(p: Piece): Text {
    match p
    case Plain(c) => [c]
    case Short(c) =>
      (match c
       case 98 => [8]
       case 102 => [12]
       case 110 => [10]
       case 114 => [13]
       case 116 => [9]
       case _ => [c])
    case Units(cp, _, _) => if 0 < cp < 0x110000 then Transcode(cp, Utf8Length(cp)) else []
    case Void(_) => []
  }

  function PiecesValue(ps: seq<Piece>): Text {
    if ps == [] then [] else PieceValue(ps[0]) + PiecesValue(ps[1..])
  }

  /** The natural number that decimal digits stand for. */
  function Natural(ds: Text): int {
    if ds == [] then 0
    else
      var last: int := ds[|ds| - 1];
      10 * Natural(ds[..|ds| - 1]) + (last - 48)
  }

  function PowerValue(e: Power): int {
    if e.NoPower? then 0 else if e.sign == [MINUS] then -Natural(e.digits) else Natural(e.digits)
  }

  function TimesTen(negative: bool, n: int, e: int): real {
    (if negative then -1.0 else 1.0) * n as real * Pow10(e)
  }

  function NumeralValue(n: Numeral): real {
    TimesTen(n.negative, Natural(n.digits + n.fraction), PowerValue(n.power) - |n.fraction|)
  }

  function ValueOf(p: Phrase): Json
    decreases p, 1
  {
    match p
    case NullWord => Null
    case FalseWord => False
    case TrueWord => True
    case Figure(n) => Number(NumeralValue(n))
    case Chars(ps, _) => Str(PiecesValue(ps))
    case Array(_, items) => Arr(ItemValues(items))
    case Object(_, entries) => Obj(EntryValues(entries))
  }

  function ItemValues(items: seq<Item>): seq<Json>
    decreases items, 0
  {
    if items == [] then [] else [ValueOf(items[0].value)] + ItemValues(items[1..])
  }

  function EntryValues(es: seq<Entry>): seq<Member>
    decreases es, 0
  {
    if es == [] then [] else [Member(PiecesValue(es[0].key), ValueOf(es[0].value))] + EntryValues(es[1..])
  }

  // ----- what the parser takes

  predicate Blanks(w: Text) {
    forall i | 0 <= i < |w| :: w[i] <= 32
  }

  predicate Digits(ds: Text) {
    forall i | 0 <= i < |ds| :: 48 <= ds[i] <= 57
  }

  predicate DigitNext(s: Text) {
    s != [] && 48 <= s[0] <= 57
  }

  predicate EscapeNext(s: Text) {
    |s| >= 2 && s[0] == BACKSLASH && s[1] == 117
  }

  /** The unit that four hex digits stand for, -1 for four other characters. */
  function Unit(d: Text): int
    requires |d| == 4
  {
    if HexValue(d[0]) < 0 || HexValue(d[1]) < 0 || HexValue(d[2]) < 0 || HexValue(d[3]) < 0 then -1
    else HexValue(d[0]) * 0x1000 + HexValue(d[1]) * 0x100 + HexValue(d[2]) * 0x10 + HexValue(d[3])
  }

  /** An escape for no character: of NUL or of no unit at all, of a low surrogate, of a high one
      with no escape behind it, or of a high one with an escape behind it that is not a low one. */
  predicate VoidEscape(t: Text, after: Text) {
    && |t| >= 6 && t[0] == BACKSLASH && t[1] == 117
    && var w := Unit(t[2..6]);
    && if |t| == 6 then
         w <= 0 || 0xDC00 <= w <= 0xDFFF || (0xD800 <= w <= 0xDBFF && !EscapeNext(after))
       else
         |t| == 12 && 0xD800 <= w <= 0xDBFF && t[6] == BACKSLASH && t[7] == 117 && !(0xDC00 <= Unit(t[8..12]) <= 0xDFFF)
  }

  predicate TakenPiece(p: Piece, after: Text) {
    match p
    case Plain(c) => c != QUOTE && c != BACKSLASH
    case Short(c) => c != 117
    case Units(cp, first, second) =>
      && Scalar(cp) && cp > 0 && UnitEscape(first, Utf16Encode(cp)[0])
      && if cp < 0x10000 then second == [] else UnitEscape(second, Utf16Encode(cp)[1])
    case Void(t) => VoidEscape(t, after)
  }

  predicate TakenPieces(ps: seq<Piece>, end: Text) {
    ps == [] || (TakenPiece(ps[0], SpellPieces(ps[1..], end)) && TakenPieces(ps[1..], end))
  }

  /** A string ends with a quote or with the text, and the first pass over it stays inside the text
      and counts enough bytes. */
  predicate TakenString(ps: seq<Piece>, closed: bool, rest: Text) {
    var body := SpellPieces(ps, StringEnd(closed, rest));
    && (closed || rest == []) && TakenPieces(ps, StringEnd(closed, rest))
    && Paired(body) && |PiecesValue(ps)| <= Count(body)
  }

  /** The parts of a number: each takes as many characters as it can. */
  predicate TakenPower(e: Power, rest: Text) {
    if e.NoPower? then rest == [] || (rest[0] != 101 && rest[0] != 69)
    else
      && (e.mark == 101 || e.mark == 69) && (e.sign == [] || e.sign == [43] || e.sign == [MINUS])
      && Digits(e.digits) && !DigitNext(rest)
      && (e.sign == [] && e.digits == [] && rest != [] ==> rest[0] != 43 && rest[0] != MINUS)
  }

  predicate TakenFraction(f: Text, rest: Text) {
    if f == [] then !(rest != [] && rest[0] == DOT && DigitNext(rest[1..])) else Digits(f) && !DigitNext(rest)
  }

  predicate TakenWhole(negative: bool, zero: bool, digits: Text, rest: Text) {
    && (negative || zero || digits != []) && Digits(digits) && (digits != [] ==> digits[0] != 48)
    && if digits != [] then !DigitNext(rest) else DigitNext(rest) ==> zero && rest[0] == 48
  }

  predicate TakenNumeral(n: Numeral, rest: Text) {
    && TakenPower(n.power, rest) && TakenFraction(n.fraction, SpellPower(n.power, rest))
    && TakenWhole(n.negative, n.zero, n.digits, SpellFraction(n.fraction, SpellPower(n.power, rest)))
  }

  predicate Taken(p: Phrase, rest: Text)
    decreases p, 1
  {
    match p
    case Figure(n) => TakenNumeral(n, rest)
    case Chars(ps, closed) => TakenString(ps, closed, rest)
    case Array(w, items) => Blanks(w) && (items == [] || TakenItems(items, rest))
    case Object(w, entries) => Blanks(w) && (entries == [] || TakenEntries(entries, rest))
    case _ => true
  }

  predicate TakenItems(items: seq<Item>, rest: Text)
    requires items != []
    decreases items, 0
  {
    && Blanks(items[0].before) && Blanks(items[0].after)
    && Taken(items[0].value, items[0].after + AfterItem(items, rest))
    && (|items| == 1 || TakenItems(items[1..], rest))
  }

  predicate TakenEntries(es: seq<Entry>, rest: Text)
    requires es != []
    decreases es, 0
  {
    TakenEntry(es[0], AfterEntry(es, rest)) && (|es| == 1 || TakenEntries(es[1..], rest))
  }

  predicate TakenEntry(e: Entry, tail: Text)
    decreases e, 0
  {
    && Blanks(e.before) && Blanks(e.middle) && Blanks(e.between) && Blanks(e.after)
    && TakenString(e.key, true, e.middle + ([COLON] + (e.between + Spell(e.value, e.after + tail))))
    && Taken(e.value, e.after + tail)
  }

  // ----- what RFC 8259 has of that

  predicate Spaces(w: Text) {
    forall i | 0 <= i < |w| :: w[i] == SPACE || w[i] == TAB || w[i] == LF || w[i] == CR
  }

  predicate ProperPiece(p: Piece) {
    match p
    case Plain(c) => c >= 32 && c != QUOTE && c != BACKSLASH
    case Short(c) => c in {QUOTE, BACKSLASH, SLASH, 98, 102, 110, 114, 116}
    case Units(_, _, _) => TakenPiece(p, [])
    case Void(_) => false
  }

  predicate ProperPieces(ps: seq<Piece>) {
    forall i | 0 <= i < |ps| :: ProperPiece(ps[i])
  }

  predicate ProperNumeral(n: Numeral) {
    && n.zero == (n.digits == []) && Digits(n.digits) && (n.digits != [] ==> n.digits[0] != 48) && Digits(n.fraction)
    && (n.power.Power? ==>
          && (n.power.mark == 101 || n.power.mark == 69)
          && (n.power.sign == [] || n.power.sign == [43] || n.power.sign == [MINUS])
          && n.power.digits != [] && Digits(n.power.digits))
  }

  predicate Proper(p: Phrase) {
    match p
    case Figure(n) => ProperNumeral(n)
    case Chars(ps, closed) => closed && ProperPieces(ps)
    case Array(w, items) => Spaces(w) && ProperItems(items)
    case Object(w, entries) => Spaces(w) && ProperEntries(entries)
    case _ => true
  }

  predicate ProperItems(items: seq<Item>) {
    forall i | 0 <= i < |items| :: Spaces(items[i].before) && Spaces(items[i].after) && Proper(items[i].value)
  }

  predicate ProperEntries(es: seq<Entry>) {
    forall i | 0 <= i < |es| ::
      && Spaces(es[i].before) && ProperPieces(es[i].key) && Spaces(es[i].middle)
      && Spaces(es[i].between) && Proper(es[i].value) && Spaces(es[i].after)
  }
}
