/** The JSON values cJSON holds, and the texts `print_value` and `parse_value`
    relate to them. */
module Json {
  import opened CText

  /** A cJSON item. `child`/`next` chains are sequences. */
  datatype Json =
    | Null
    | False
    | True
    | Number(value: real)
    | Str(text: Text)
    | Arr(items: seq<Json>)
    | Obj(members: seq<Member>)

  datatype Member = Member(key: Text, value: Json)

  const INT_MIN := -0x8000_0000
  const INT_MAX := 0x7fff_ffff

  /** Numbers that `print_number` renders with `%d`. */
  predicate IntNumber(r: real) {
    r == r.Floor as real && INT_MIN <= r.Floor <= INT_MAX
  }

  /** Trees whose numbers are all 32-bit integers. */
  predicate Printable(v: Json) {
    match v
    case Number(r) => IntNumber(r)
    case Arr(items) => forall i | 0 <= i < |items| :: Printable(items[i])
    case Obj(members) => forall i | 0 <= i < |members| :: Printable(members[i].value)
    case _ => true
  }

  predicate PrintableItems(items: seq<Json>) {
    forall i | 0 <= i < |items| :: Printable(items[i])
  }

  predicate PrintableMembers(members: seq<Member>) {
    forall i | 0 <= i < |members| :: Printable(members[i].value)
  }

  const NULL_TEXT: Text := [110, 117, 108, 108]
  const FALSE_TEXT: Text := [102, 97, 108, 115, 101]
  const TRUE_TEXT: Text := [116, 114, 117, 101]
}

/** The text cJSON prints for a value. */
module JsonPrinter {
  import opened CText
  import opened Json

  // ----- strings

  function HexDigit(n: nat): Ch
    requires n < 16
  {
    if n < 10 then 48 + n else 87 + n
  }

  /** The letter of a two-character escape, 0 for a character that has none. */
  function EscapeLetter(c: Ch): byte {
    if c == BACKSLASH || c == QUOTE then c
    else if c == 8 then 98
    else if c == 12 then 102
    else if c == 10 then 110
    else if c == 13 then 114
    else if c == 9 then 116
    else 0
  }

  function EscapeChar(c: Ch): Text {
    if c > 31 && c != QUOTE && c != BACKSLASH then [c]
    else if EscapeLetter(c) != 0 then [BACKSLASH, EscapeLetter(c)]
    else [BACKSLASH, 117, 48, 48, HexDigit(c / 16), HexDigit(c % 16)]
  }

  function Escape(s: Text): Text {
    if s == [] then [] else EscapeChar(s[0]) + Escape(s[1..])
  }

  function StringText(s: Text): Text {
    [QUOTE] + Escape(s) + [QUOTE]
  }

  // ----- numbers

  /** Decimal digits of a natural number, as `%d` prints them. */
  function Decimal(n: nat): Text {
    if n < 10 then [48 + n] else Decimal(n / 10) + [48 + n % 10]
  }

  function IntText(n: int): Text {
    if n < 0 then [MINUS] + Decimal(-n) else Decimal(n)
  }

  // ----- values

  function NewLine(fmt: bool): Text {
    if fmt then [LF] else []
  }

  function Indent(n: int, fmt: bool): Text {
    if fmt then Tabs(n) else []
  }

  function ItemSeparator(fmt: bool): Text {
    if fmt then [COMMA, SPACE] else [COMMA]
  }

  function KeySeparator(fmt: bool): Text {
    if fmt then [COLON, TAB] else [COLON]
  }

  function ValueText(v: Json, depth: nat, fmt: bool): Text
    requires Printable(v)
    decreases v, 1
  {
    match v
    case Null => NULL_TEXT
    case False => FALSE_TEXT
    case True => TRUE_TEXT
    case Number(r) => IntText(r.Floor)
    case Str(s) => StringText(s)
    case Arr(items) => [OPEN_BRACKET] + ItemsText(items, depth + 1, fmt) + [CLOSE_BRACKET]
    case Obj(members) =>
      if members == [] then
        [OPEN_BRACE] + NewLine(fmt) + Indent(depth - 1, fmt) + [CLOSE_BRACE]
      else
        [OPEN_BRACE] + NewLine(fmt) + MembersText(members, depth + 1, fmt) + Indent(depth, fmt) + [CLOSE_BRACE]
  }

  /** Array elements with separators between them. */
  function ItemsText(items: seq<Json>, depth: nat, fmt: bool): Text
    requires PrintableItems(items)
    decreases items, 0
  {
    if items == [] then []
    else ValueText(items[0], depth, fmt)
         + (if |items| == 1 then [] else ItemSeparator(fmt) + ItemsText(items[1..], depth, fmt))
  }

  function MemberText(m: Member, depth: nat, fmt: bool): Text
    requires Printable(m.value)
    decreases m, 2
  {
    Indent(depth, fmt) + StringText(m.key) + KeySeparator(fmt) + ValueText(m.value, depth, fmt)
  }

  /** Object members, each on its own line when formatting. */
  function MembersText(members: seq<Member>, depth: nat, fmt: bool): Text
    requires PrintableMembers(members)
    decreases members, 0
  {
    if members == [] then []
    else MemberText(members[0], depth, fmt)
         + (if |members| == 1 then NewLine(fmt)
            else [COMMA] + (NewLine(fmt) + MembersText(members[1..], depth, fmt)))
  }
}

/** What `parse_value` makes of a text. Texts are suffixes: the parse position is
    the start of the sequence, and index |s| holds the terminator. */
module JsonParser {
  import opened CText
  import opened Json

  /** `Overrun` is a text on which the C code leaves the text or its buffer: a string literal on
      which the two passes of `parse_string` disagree. */
  datatype Parsed<+T> = Ok(value: T, rest: Text) | Fail | Overrun

  function Skip(s: Text): (r: Text)
    ensures |r| <= |s|
  {
    if s != [] && s[0] <= 32 then Skip(s[1..]) else s
  }

  predicate StartsWith(s: Text, p: Text) {
    |p| <= |s| && s[..|p|] == p
  }

  /** The value of a hex digit, -1 for any other byte. */
  function HexValue(c: byte): (n: int)
    ensures -1 <= n < 16
  {
    if IsDigit(c) then c - 48
    else if 65 <= c <= 70 then c - 55
    else if 97 <= c <= 102 then c - 87
    else -1
  }

  // ----- numbers

  /** The digits at the start of `s`, folded into `n`. */
  function DigitsValue(n: real, s: Text): real
    decreases |s|
  {
    if s != [] && IsDigit(s[0]) then DigitsValue(n * 10.0 + HexValue(s[0]) as real, s[1..]) else n
  }

  function DigitCount(s: Text): (k: nat)
    ensures k <= |s|
  {
    if s != [] && IsDigit(s[0]) then 1 + DigitCount(s[1..]) else 0
  }

  function Pow10(e: int): real
    decreases if e < 0 then -e else e
  {
    if e == 0 then 1.0 else if e > 0 then 10.0 * Pow10(e - 1) else Pow10(e + 1) / 10.0
  }

  /** `n` and what is left after the fraction, and the number of fraction digits. */
  function Fraction(n: real, s: Text): (real, Text, nat) {
    if |s| >= 2 && s[0] == DOT && IsDigit(s[1]) then
      var k := DigitCount(s[1..]);
      (DigitsValue(n, s[1..]), s[1 + k..], k)
    else (n, s, 0)
  }

  /** The exponent and what is left after it. */
  function Exponent(s: Text): (int, Text) {
    if s != [] && (s[0] == 101 || s[0] == 69) then
      var negative := |s| >= 2 && s[1] == MINUS;
      var digits := if |s| >= 2 && (s[1] == 43 || s[1] == MINUS) then s[2..] else s[1..];
      var e := DigitsValue(0.0, digits).Floor;
      (if negative then -e else e, digits[DigitCount(digits)..])
    else (0, s)
  }

  /** The sign, the digits before any fraction, and what is left. */
  function Mantissa(s: Text): (bool, real, Text) {
    var negative := At(s, 0) == MINUS;
    var s1 := if negative then s[1..] else s;
    var s2 := if At(s1, 0) == 48 then s1[1..] else s1;
    if 49 <= At(s2, 0) <= 57 then (negative, DigitsValue(0.0, s2), s2[DigitCount(s2)..])
    else (negative, 0.0, s2)
  }

  function Scaled(negative: bool, n: real, e: int): real {
    (if negative then -1.0 else 1.0) * n * Pow10(e)
  }

  function ParseNumber(s: Text): (real, Text) {
    var (negative, n0, s0) := Mantissa(s);
    var (n1, s1, places) := Fraction(n0, s0);
    var (e, s2) := Exponent(s1);
    (Scaled(negative, n1, e - places), s2)
  }

  // ----- strings

  /** `parse_hex4`: the four hex digits at the start of `s`, or 0. */
  function Hex4(s: Text): (h: nat)
    ensures h < 0x10000
    ensures h != 0 ==> |s| >= 4
  {
    var a, b, c, d := HexValue(At(s, 0)), HexValue(At(s, 1)), HexValue(At(s, 2)), HexValue(At(s, 3));
    if a < 0 || b < 0 || c < 0 || d < 0 then 0
    else Base16(a, b, c, d)
  }

  function Base16(a: int, b: int, c: int, d: int): (h: nat)
    requires 0 <= a < 16 && 0 <= b < 16 && 0 <= c < 16 && 0 <= d < 16
    ensures h < 0x10000
  {
    ((a * 16 + b) * 16 + c) * 16 + d
  }

  /** How many bytes the transcoder emits for code point `uc`. */
  function Utf8Length(uc: nat): nat {
    if uc < 0x80 then 1 else if uc < 0x800 then 2 else if uc < 0x10000 then 3 else 4
  }

  function FirstByteMark(len: nat): byte {
    match len
    case 2 => 0xC0
    case 3 => 0xE0
    case 4 => 0xF0
    case _ => 0
  }

  /** The transcoder: `len - 1` continuation bytes taken off the low end of `uc`,
      then the lead byte. */
  function Transcode(uc: nat, len: nat): (r: Text)
    requires 1 <= len <= 4 && 0 < uc < 0x110000 && len == Utf8Length(uc)
    ensures |r| == len
  {
    if len == 1 then [uc]
    else Lead(uc, len, len)
  }

  function Lead(uc: nat, len: nat, left: nat): (r: Text)
    requires 2 <= len <= 4 && 1 <= left <= len
    requires left == 1 ==> uc + FirstByteMark(len) < 256
    requires left == 2 ==> uc / 64 + FirstByteMark(len) < 256
    requires left == 3 ==> uc / 64 / 64 + FirstByteMark(len) < 256
    requires left == 4 ==> uc / 64 / 64 / 64 + FirstByteMark(len) < 256
    ensures |r| == left
    decreases left
  {
    if left == 1 then [uc + FirstByteMark(len)]
    else Lead(uc / 64, len, left - 1) + [0x80 + uc % 64]
  }

  /** One `\u` escape. `s` starts at the backslash, with `u` next: the bytes it
      yields and how far it moves. */
  function UnicodeEscape(s: Text): (r: (Text, nat))
    requires |s| >= 2
    ensures r.1 == 6 || (r.1 == 12 && |s| >= 8)
    ensures r.0 != [] ==> r.1 <= |s|
  {
    var uc := Hex4(s[2..]);
    if 0xDC00 <= uc <= 0xDFFF || uc == 0 then ([], 6)
    else if 0xD800 <= uc <= 0xDBFF then
      if At(s, 6) != BACKSLASH || At(s, 7) != 117 then ([], 6)
      else
        var uc2 := Hex4(s[8..]);
        if uc2 < 0xDC00 || uc2 > 0xDFFF then ([], 12)
        else
          var cp := SurrogatePair(uc, uc2);
          (Transcode(cp, Utf8Length(cp)), 12)
    else (Transcode(uc, Utf8Length(uc)), 6)
  }

  /** `0x10000 + (((uc & 0x3FF) << 10) | (uc2 & 0x3FF))`. */
  function SurrogatePair(uc: nat, uc2: nat): (cp: nat)
    ensures 0x10000 <= cp < 0x110000
  {
    0x10000 + uc % 0x400 * 0x400 + uc2 % 0x400
  }

  /** The character a two-character escape stands for. */
  function SimpleEscape(c: Ch): Ch {
    if c == 98 then 8 else if c == 102 then 12 else if c == 110 then 10
    else if c == 114 then 13 else if c == 116 then 9 else c
  }

  function Prepend(p: Text, r: Parsed<Text>): Parsed<Text> {
    match r
    case Ok(v, rest) => Ok(p + v, rest)
    case _ => r
  }

  /** The body of a string literal: everything up to the closing quote or the terminator. */
  function Unescape(s: Text): (r: Parsed<Text>)
    ensures r.Ok? ==> |r.rest| <= |s|
    ensures !r.Fail?
    decreases |s|
  {
    if s == [] then Ok([], [])
    else if s[0] == QUOTE then Ok([], s[1..])
    else if s[0] != BACKSLASH then Prepend([s[0]], Unescape(s[1..]))
    else if |s| == 1 then Overrun
    else if s[1] != 117 then Prepend([SimpleEscape(s[1])], Unescape(s[2..]))
    else
      var (bytes, step) := UnicodeEscape(s);
      if step > |s| then Overrun else Prepend(bytes, Unescape(s[step..]))
  }

  /** The first pass takes a backslash and what follows it as one: it stays inside the text if
      no backslash is the last character. */
  predicate Paired(s: Text) {
    if s == [] || s[0] == QUOTE then true
    else if s[0] != BACKSLASH then Paired(s[1..])
    else |s| >= 2 && Paired(s[2..])
  }

  /** Where the first pass stops: at a quote or at the terminator. */
  function Reach(s: Text): (n: nat)
    requires Paired(s)
    ensures n <= |s| && (n < |s| ==> s[n] == QUOTE)
  {
    if s == [] || s[0] == QUOTE then 0
    else if s[0] != BACKSLASH then 1 + Reach(s[1..])
    else 2 + Reach(s[2..])
  }

  /** What the first pass counts: its turns. */
  function Count(s: Text): nat
    requires Paired(s)
  {
    if s == [] || s[0] == QUOTE then 0
    else if s[0] != BACKSLASH then 1 + Count(s[1..])
    else 1 + Count(s[2..])
  }

  /** `parse_string`. Its two passes do not agree on every text: the outcome is `Overrun` if the
      first one leaves the text, or the second one leaves the text or the buffer. */
  function ParseString(s: Text): (r: Parsed<Text>)
    ensures r.Ok? ==> |r.rest| < |s|
  {
    if At(s, 0) != QUOTE then Fail
    else if !Paired(s[1..]) then Overrun
    else if Unescape(s[1..]).Ok? && |Unescape(s[1..]).value| > Count(s[1..]) then Overrun
    else Unescape(s[1..])
  }

  // ----- values

  function ParseValue(s: Text): (r: Parsed<Json>)
    ensures r.Ok? ==> |r.rest| <= |s|
    decreases |s|, 1
  {
    if StartsWith(s, NULL_TEXT) then Ok(Null, s[4..])
    else if StartsWith(s, FALSE_TEXT) then Ok(False, s[5..])
    else if StartsWith(s, TRUE_TEXT) then Ok(True, s[4..])
    else if At(s, 0) == QUOTE then
      match ParseString(s)
      case Ok(t, rest) => Ok(Str(t), rest)
      case Fail => Fail
      case Overrun => Overrun
    else if At(s, 0) == MINUS || IsDigit(At(s, 0)) then
      var (n, rest) := ParseNumber(s);
      Ok(Number(n), rest)
    else if At(s, 0) == OPEN_BRACKET then ParseArray(s)
    else if At(s, 0) == OPEN_BRACE then ParseObject(s)
    else Fail
  }

  function ParseArray(s: Text): (r: Parsed<Json>)
    requires At(s, 0) == OPEN_BRACKET
    ensures r.Ok? ==> |r.rest| <= |s|
    decreases |s|, 0
  {
    var s1 := Skip(s[1..]);
    if At(s1, 0) == CLOSE_BRACKET then Ok(Arr([]), s1[1..])
    else
      match ParseItems(s1)
      case Ok(items, rest) => Ok(Arr(items), rest)
      case Fail => Fail
      case Overrun => Overrun
  }

  /** One element, and the rest of the array. */
  function ParseItems(s: Text): (r: Parsed<seq<Json>>)
    ensures r.Ok? ==> |r.rest| <= |s|
    decreases |s|, 2
  {
    match ParseValue(Skip(s))
    case Fail => Fail
    case Overrun => Overrun
    case Ok(v, rest) =>
      var s1 := Skip(rest);
      if At(s1, 0) == COMMA then
        match ParseItems(s1[1..])
        case Ok(vs, rest1) => Ok([v] + vs, rest1)
        case Fail => Fail
        case Overrun => Overrun
      else if At(s1, 0) == CLOSE_BRACKET then Ok([v], s1[1..])
      else Fail
  }

  function ParseObject(s: Text): (r: Parsed<Json>)
    requires At(s, 0) == OPEN_BRACE
    ensures r.Ok? ==> |r.rest| <= |s|
    decreases |s|, 0
  {
    var s1 := Skip(s[1..]);
    if At(s1, 0) == CLOSE_BRACE then Ok(Obj([]), s1[1..])
    else
      match ParseMembers(s1)
      case Ok(members, rest) => Ok(Obj(members), rest)
      case Fail => Fail
      case Overrun => Overrun
  }

  /** A key, a colon and a value. */
  function ParseMember(s: Text): (r: Parsed<Member>)
    ensures r.Ok? ==> |r.rest| <= |s|
    decreases |s|, 2
  {
    match ParseString(Skip(s))
    case Fail => Fail
    case Overrun => Overrun
    case Ok(key, rest) =>
      var s1 := Skip(rest);
      if At(s1, 0) != COLON then Fail
      else
        match ParseValue(Skip(s1[1..]))
        case Fail => Fail
        case Overrun => Overrun
        case Ok(v, rest1) => Ok(Member(key, v), rest1)
  }

  function ParseMembers(s: Text): (r: Parsed<seq<Member>>)
    ensures r.Ok? ==> |r.rest| <= |s|
    decreases |s|, 3
  {
    match ParseMember(s)
    case Fail => Fail
    case Overrun => Overrun
    case Ok(m, rest) =>
      var s1 := Skip(rest);
      if At(s1, 0) == COMMA then
        match ParseMembers(s1[1..])
        case Ok(ms, rest1) => Ok([m] + ms, rest1)
        case Fail => Fail
        case Overrun => Overrun
      else if At(s1, 0) == CLOSE_BRACE then Ok([m], s1[1..])
      else Fail
  }
}
