/** String literals: the UTF-16 to UTF-8 transcoder against the two RFCs, and the
    two-pass `print_string_ptr` and `parse_string`, whose first pass sizes the
    buffer that the second one fills. */
module JsonStrings {
  import opened CText
  import opened Json
  import opened JsonPrinter
  import opened JsonParser

  // ----- UTF-8 and UTF-16, as their standards define them

  /** Unicode scalar values: code points that are not surrogates. */
  predicate Scalar(cp: nat) {
    cp < 0xD800 || 0xE000 <= cp < 0x110000
  }

  predicate Tail(b: byte) {
    0x80 <= b <= 0xBF
  }

  /** The well-formed byte sequences for one character: the ABNF of section 4 of RFC 3629. */
  predicate Utf8Char(b: seq<byte>) {
    match |b|
    case 1 => b[0] <= 0x7F
    case 2 => 0xC2 <= b[0] <= 0xDF && Tail(b[1])
    case 3 =>
      && Tail(b[2])
      && (|| (b[0] == 0xE0 && 0xA0 <= b[1] <= 0xBF)
          || (0xE1 <= b[0] <= 0xEC && Tail(b[1]))
          || (b[0] == 0xED && 0x80 <= b[1] <= 0x9F)
          || (0xEE <= b[0] <= 0xEF && Tail(b[1])))
    case 4 =>
      && Tail(b[2]) && Tail(b[3])
      && (|| (b[0] == 0xF0 && 0x90 <= b[1] <= 0xBF)
          || (0xF1 <= b[0] <= 0xF3 && Tail(b[1]))
          || (b[0] == 0xF4 && 0x80 <= b[1] <= 0x8F))
    case _ => false
  }

  /** The character a well-formed sequence encodes: section 3 of RFC 3629, the free bits
      of each byte in order. */
  function Utf8Decode(b: seq<byte>): nat
    requires Utf8Char(b)
  {
    match |b|
    case 1 => b[0]
    case 2 => FreeBits(b[0], 0xC0) * 0x40 + FreeBits(b[1], 0x80)
    case 3 => FreeBits(b[0], 0xE0) * 0x1000 + FreeBits(b[1], 0x80) * 0x40 + FreeBits(b[2], 0x80)
    case _ => FreeBits(b[0], 0xF0) * 0x40000 + FreeBits(b[1], 0x80) * 0x1000
              + FreeBits(b[2], 0x80) * 0x40 + FreeBits(b[3], 0x80)
  }

  function FreeBits(b: byte, mark: byte): nat
    requires mark <= b
  {
    b - mark
  }

  /** The UTF-16 units of a character: section 2.1 of RFC 2781. */
  function Utf16Encode(cp: nat): (w: seq<nat>)
    requires Scalar(cp)
    ensures forall i | 0 <= i < |w| :: w[i] < 0x10000
  {
    if cp < 0x10000 then [cp]
    else [0xD800 + (cp - 0x10000) / 0x400, 0xDC00 + (cp - 0x10000) % 0x400]
  }

  lemma TranscodeBytes(cp: nat)
    requires 0 < cp < 0x110000
    ensures Transcode(cp, Utf8Length(cp)) ==
            match Utf8Length(cp)
            case 1 => [cp]
            case 2 => [cp / 64 + 0xC0, 0x80 + cp % 64]
            case 3 => [cp / 64 / 64 + 0xE0, 0x80 + cp / 64 % 64, 0x80 + cp % 64]
            case _ => [cp / 64 / 64 / 64 + 0xF0, 0x80 + cp / 64 / 64 % 64, 0x80 + cp / 64 % 64, 0x80 + cp % 64]
  {
    var len := Utf8Length(cp);
    if len == 2 {
      assert Lead(cp, 2, 2) == Lead(cp / 64, 2, 1) + [0x80 + cp % 64];
    } else if len == 3 {
      assert Lead(cp, 3, 3) == Lead(cp / 64, 3, 2) + [0x80 + cp % 64];
      assert Lead(cp / 64, 3, 2) == Lead(cp / 64 / 64, 3, 1) + [0x80 + cp / 64 % 64];
    } else if len == 4 {
      assert Lead(cp, 4, 4) == Lead(cp / 64, 4, 3) + [0x80 + cp % 64];
      assert Lead(cp / 64, 4, 3) == Lead(cp / 64 / 64, 4, 2) + [0x80 + cp / 64 % 64];
      assert Lead(cp / 64 / 64, 4, 2) == Lead(cp / 64 / 64 / 64, 4, 1) + [0x80 + cp / 64 / 64 % 64];
    }
  }

  lemma SixBits(n: nat)
    ensures n == n / 64 * 64 + n % 64 && n % 64 < 64
  {
  }

  /** The transcoder emits the well-formed UTF-8 sequence of the character it is given. */
  lemma TranscodeIsUtf8(cp: nat)
    requires Scalar(cp) && cp > 0
    ensures Utf8Char(Transcode(cp, Utf8Length(cp)))
    ensures Utf8Decode(Transcode(cp, Utf8Length(cp))) == cp
  {
    if cp < 0x80 {
      TranscodeBytes(cp);
    } else if cp < 0x800 {
      TwoIsUtf8(cp);
    } else if cp < 0x10000 {
      ThreeIsUtf8(cp);
    } else {
      FourIsUtf8(cp);
    }
  }

  lemma TwoIsUtf8(cp: nat)
    requires 0x80 <= cp < 0x800
    ensures Utf8Char(Transcode(cp, 2)) && Utf8Decode(Transcode(cp, 2)) == cp
  {
    TranscodeBytes(cp);
    SixBits(cp);
    TwoBytes(cp, cp / 64, cp % 64);
  }

  lemma ThreeIsUtf8(cp: nat)
    requires 0x800 <= cp < 0x10000 && Scalar(cp)
    ensures Utf8Char(Transcode(cp, 3)) && Utf8Decode(Transcode(cp, 3)) == cp
  {
    TranscodeBytes(cp);
    SixBits(cp);
    SixBits(cp / 64);
    ThreeBytes(cp, cp / 64 / 64, cp / 64 % 64, cp % 64);
  }

  lemma FourIsUtf8(cp: nat)
    requires 0x10000 <= cp < 0x110000
    ensures Utf8Char(Transcode(cp, 4)) && Utf8Decode(Transcode(cp, 4)) == cp
  {
    TranscodeBytes(cp);
    SixBits(cp);
    SixBits(cp / 64);
    SixBits(cp / 64 / 64);
    FourBytes(cp, cp / 64 / 64 / 64, cp / 64 / 64 % 64, cp / 64 % 64, cp % 64);
  }

  lemma TwoBytes(cp: nat, h: nat, a: nat)
    requires 0x80 <= cp < 0x800 && cp == h * 64 + a && a < 64
    ensures h + 0xC0 < 256
    ensures var u := [h + 0xC0, 0x80 + a];
            Utf8Char(u) && Utf8Decode(u) == cp
  {
  }

  lemma ThreeBytes(cp: nat, h: nat, b: nat, a: nat)
    requires 0x800 <= cp < 0x10000 && Scalar(cp) && cp == (h * 64 + b) * 64 + a && b < 64 && a < 64
    ensures h + 0xE0 < 256
    ensures var u := [h + 0xE0, 0x80 + b, 0x80 + a];
            Utf8Char(u) && Utf8Decode(u) == cp
  {
  }

  lemma FourBytes(cp: nat, h: nat, c: nat, b: nat, a: nat)
    requires 0x10000 <= cp < 0x110000 && cp == ((h * 64 + c) * 64 + b) * 64 + a && c < 64 && b < 64 && a < 64
    ensures h + 0xF0 < 256
    ensures var u := [h + 0xF0, 0x80 + c, 0x80 + b, 0x80 + a];
            Utf8Char(u) && Utf8Decode(u) == cp
  {
  }

  /** A `\u` escape: backslash, `u` and four hex digits of either case. */
  predicate UnitEscape(e: Text, w: nat) {
    && |e| == 6 && e[0] == BACKSLASH && e[1] == 117
    && (forall i | 2 <= i < 6 :: HexValue(e[i]) >= 0)
    && w == ((HexValue(e[2]) * 16 + HexValue(e[3])) * 16 + HexValue(e[4])) * 16 + HexValue(e[5])
  }

  /** A character written as the escapes of its UTF-16 units, in any mix of hex digit
      cases, is read as its UTF-8 bytes. */
  lemma EscapedCharacter(cp: nat, e1: Text, e2: Text, rest: Text)
    requires Scalar(cp) && cp > 0
    requires UnitEscape(e1, Utf16Encode(cp)[0])
    requires if cp < 0x10000 then e2 == [] else UnitEscape(e2, Utf16Encode(cp)[1])
    ensures UnicodeEscape(e1 + e2 + rest) == (Transcode(cp, Utf8Length(cp)), |e1 + e2|)
    ensures Unescape(e1 + e2 + rest) == Prepend(Transcode(cp, Utf8Length(cp)), Unescape(rest))
  {
    var s := e1 + e2 + rest;
    var w := Utf16Encode(cp);
    assert Hex4(s[2..]) == w[0];
    if cp < 0x10000 {
      assert UnicodeEscape(s) == (Transcode(cp, Utf8Length(cp)), 6);
      assert s[6..] == rest;
    } else {
      assert Hex4(s[8..]) == w[1];
      SurrogatesDecode(cp);
      assert UnicodeEscape(s) == (Transcode(cp, 4), 12);
      assert s[12..] == rest;
    }
  }

  /** Section 2.2 of RFC 2781 undoes section 2.1. */
  lemma SurrogatesDecode(cp: nat)
    requires 0x10000 <= cp < 0x110000
    ensures SurrogatePair(Utf16Encode(cp)[0], Utf16Encode(cp)[1]) == cp
  {
  }

  // ----- parse_string

  /** The first pass: whether it stays inside the text, and what it counts then. */
  method CountPass(s: Text) returns (inside: bool, len: nat)
    requires At(s, 0) == QUOTE
    ensures inside == Paired(s[1..]) && (inside ==> len == Count(s[1..]))
  {
    var ptr := 1;
    len := 0;
    while At(s, ptr) != QUOTE && At(s, ptr) != 0
      invariant 1 <= ptr <= |s| && Paired(s[ptr..]) == Paired(s[1..])
      invariant Paired(s[1..]) ==> len + Count(s[ptr..]) == Count(s[1..])
      decreases |s| - ptr
    {
      len := len + 1;
      if s[ptr] == BACKSLASH {
        if ptr + 1 == |s| { return false, len; }
        assert s[ptr..][2..] == s[ptr + 2..];
        ptr := ptr + 2;
      } else {
        assert s[ptr..][1..] == s[ptr + 1..];
        ptr := ptr + 1;
      }
    }
    inside := true;
  }

  /** The transcoder's store: the bytes of `uc`, last one first. */
  method WriteUtf8(out: array<byte>, pos: nat, code: nat) returns (next: nat)
    requires 0 < code < 0x110000
    requires pos + Utf8Length(code) <= out.Length
    modifies out
    ensures next == pos + Utf8Length(code)
    ensures out[..pos] == old(out[..pos]) && out[pos..next] == Transcode(code, Utf8Length(code))
  {
    var len := Utf8Length(code);
    var uc := code;
    next := pos + len;
    var ptr := next;
    if len >= 4 {
      ptr := ptr - 1;
      out[ptr], uc := 0x80 + uc % 64, uc / 64;
    }
    if len >= 3 {
      ptr := ptr - 1;
      out[ptr], uc := 0x80 + uc % 64, uc / 64;
    }
    if len >= 2 {
      ptr := ptr - 1;
      out[ptr], uc := 0x80 + uc % 64, uc / 64;
    }
    out[pos] := uc + FirstByteMark(len);
    TranscodeBytes(code);
  }

  /** The bytes the next character or escape of a literal yields, and its length. */
  function Chunk(s: Text): (r: (Text, nat))
    requires s != [] && s[0] != QUOTE
    ensures r.1 >= 1
  {
    if s[0] != BACKSLASH then ([s[0]], 1)
    else if |s| == 1 then ([], 2)
    else if s[1] != 117 then ([SimpleEscape(s[1])], 2)
    else UnicodeEscape(s)
  }

  lemma ChunkStep(s: Text)
    requires s != [] && s[0] != QUOTE
    ensures var (bytes, step) := Chunk(s);
            Unescape(s) == if step > |s| then Overrun else Prepend(bytes, Unescape(s[step..]))
  {
  }

  /** The `\u` case of the escape switch, entered with `pos` at the `u`. */
  method UnicodeCase(s: Text, pos: nat, out: array<byte>, pos2: nat) returns (ptr: nat, ptr2: nat)
    requires 1 <= pos < |s| && s[pos - 1] == BACKSLASH && s[pos] == 117
    requires pos2 + |UnicodeEscape(s[pos - 1..]).0| <= out.Length
    modifies out
    ensures var (bytes, step) := UnicodeEscape(s[pos - 1..]);
            && ptr == pos - 1 + step - 1 && ptr2 == pos2 + |bytes|
            && out[..pos2] == old(out[..pos2]) && out[pos2..ptr2] == bytes
  {
    ghost var e := s[pos - 1..];
    ptr, ptr2 := pos, pos2;
    assert pos + 1 <= |s| ==> s[pos + 1..] == e[2..];
    var uc := Hex4(s[ptr + 1..]);
    ptr := ptr + 4;
    if 0xDC00 <= uc <= 0xDFFF || uc == 0 {
      return;
    }
    if 0xD800 <= uc <= 0xDBFF {
      assert At(s, ptr + 1) == At(e, 6) && At(s, ptr + 2) == At(e, 7);
      if At(s, ptr + 1) != BACKSLASH || At(s, ptr + 2) != 117 {
        return;
      }
      assert s[ptr + 3..] == e[8..];
      var uc2 := Hex4(s[ptr + 3..]);
      ptr := ptr + 6;
      if uc2 < 0xDC00 || uc2 > 0xDFFF {
        return;
      }
      uc := SurrogatePair(uc, uc2);
    }
    ptr2 := WriteUtf8(out, ptr2, uc);
  }

  /** One turn of the second pass. */
  method ParseChunk(s: Text, pos: nat, out: array<byte>, pos2: nat) returns (ptr: nat, ptr2: nat)
    requires pos < |s| && s[pos] != QUOTE && pos + Chunk(s[pos..]).1 <= |s|
    requires pos2 + |Chunk(s[pos..]).0| <= out.Length
    modifies out
    ensures ptr == pos + Chunk(s[pos..]).1 && ptr2 == pos2 + |Chunk(s[pos..]).0|
    ensures out[..ptr2] == old(out[..pos2]) + Chunk(s[pos..]).0
  {
    if s[pos] != BACKSLASH {
      out[pos2] := s[pos];
      return pos + 1, pos2 + 1;
    }
    ptr := pos + 1;
    if s[ptr] != 117 {
      out[pos2] := SimpleEscape(s[ptr]);
      ptr2 := pos2 + 1;
    } else {
      ptr, ptr2 := UnicodeCase(s, ptr, out, pos2);
      assert out[..ptr2] == out[..pos2] + out[pos2..ptr2];
    }
    ptr := ptr + 1;
  }

  /** `parse_string`. The buffer holds the counted length and a terminator. */
  method ParseStringLiteral(s: Text) returns (r: Parsed<Text>)
    ensures r == ParseString(s)
  {
    if At(s, 0) != QUOTE { return Fail; }
    var inside, len := CountPass(s);
    if !inside { return Overrun; }
    var out := new byte[len + 1];
    var ptr, ptr2;
    ghost var done;
    inside, ptr, ptr2, done := FillLiteral(s, out);
    if !inside { return Overrun; }
    out[ptr2] := 0;
    r := Ok(out[..ptr2], if At(s, ptr) == QUOTE then s[ptr + 1..] else s[ptr..]);
    assert s[ptr..] == [] || s[ptr..][1..] == s[ptr + 1..];
    assert done + [] == done;
  }

  /** The second pass, up to a quote or the end: where it stopped in the text and in the
      buffer, unless it would leave one of them. */
  method FillLiteral(s: Text, out: array<byte>) returns (inside: bool, ptr: nat, ptr2: nat, ghost done: Text)
    requires At(s, 0) == QUOTE && out.Length >= 1
    modifies out
    ensures inside <==> Unescape(s[1..]).Ok? && |Unescape(s[1..]).value| < out.Length
    ensures inside ==>
              && 1 <= ptr <= |s| && (ptr < |s| ==> s[ptr] == QUOTE)
              && ptr2 < out.Length && out[..ptr2] == done
              && Unescape(s[1..]) == Prepend(done, Unescape(s[ptr..]))
  {
    ptr, ptr2, done := 1, 0, [];
    PrependNothing(Unescape(s[1..]));
    while At(s, ptr) != QUOTE && At(s, ptr) != 0
      invariant 1 <= ptr <= |s| && ptr2 < out.Length && out[..ptr2] == done
      invariant Unescape(s[1..]) == Prepend(done, Unescape(s[ptr..]))
      decreases |s| - ptr
    {
      var (bytes, step) := Chunk(s[ptr..]);
      ChunkStep(s[ptr..]);
      if ptr + step > |s| || ptr2 + |bytes| >= out.Length {
        ghost var from := s[ptr..];
        if ptr + step <= |s| { PrependTwice(done, bytes, Unescape(from[step..])); }
        return false, ptr, ptr2, done;
      }
      assert s[ptr..][step..] == s[ptr + step..];
      PrependTwice(done, bytes, Unescape(s[ptr + step..]));
      ptr, ptr2 := ParseChunk(s, ptr, out, ptr2);
      done := done + bytes;
    }
    inside := true;
  }

  lemma PrependNothing(r: Parsed<Text>)
    ensures Prepend([], r) == r
  {
    if r.Ok? { assert [] + r.value == r.value; }
  }

  lemma PrependTwice(a: Text, b: Text, r: Parsed<Text>)
    ensures Prepend(a, Prepend(b, r)) == Prepend(a + b, r)
  {
    if r.Ok? { assert a + (b + r.value) == a + b + r.value; }
  }

  // ----- print_string_ptr

  /** What the size pass adds for one character. */
  function EscapedLength(c: Ch): nat {
    if c in {QUOTE, BACKSLASH, 8, 12, LF, CR, TAB} then 2 else if c < 32 then 6 else 1
  }

  lemma EscapeLength(c: Ch)
    ensures |EscapeChar(c)| == EscapedLength(c)
  {
  }

  /** `print_string_ptr`. The buffer is exactly the size the first pass counted: the
      literal, its quotes and the terminator. */
  method PrintStringLiteral(str: Text) returns (text: Text)
    ensures text == StringText(str)
  {
    var len := MeasureEscaped(str);
    var out := new byte[len + 3];
    var ptr2 := FillEscaped(out, str);
    out[ptr2] := QUOTE;
    out[ptr2 + 1] := 0;
    assert out[..ptr2 + 1] == out[..ptr2] + [QUOTE];
    text := out[..ptr2 + 1];
  }

  method MeasureEscaped(str: Text) returns (len: nat)
    ensures len == |Escape(str)|
  {
    len := 0;
    var ptr := 0;
    while ptr < |str|
      invariant 0 <= ptr <= |str|
      invariant len + |Escape(str[ptr..])| == |Escape(str)|
    {
      EscapeLength(str[ptr]);
      assert str[ptr..][1..] == str[ptr + 1..];
      len := len + EscapedLength(str[ptr]);
      ptr := ptr + 1;
    }
  }

  method FillEscaped(out: array<byte>, str: Text) returns (ptr2: nat)
    requires out.Length == |Escape(str)| + 3
    modifies out
    ensures ptr2 == out.Length - 2 && out[..ptr2] == [QUOTE] + Escape(str)
  {
    out[0] := QUOTE;
    ptr2 := 1;
    var ptr := 0;
    while ptr < |str|
      invariant 0 <= ptr <= |str| && 1 <= ptr2
      invariant ptr2 + |Escape(str[ptr..])| == out.Length - 2
      invariant out[..ptr2] + Escape(str[ptr..]) == [QUOTE] + Escape(str)
    {
      ghost var before := out[..ptr2];
      var c := str[ptr];
      assert str[ptr..][1..] == str[ptr + 1..];
      ptr2 := WriteEscape(out, ptr2, c);
      assert before + EscapeChar(c) + Escape(str[ptr + 1..]) == before + Escape(str[ptr..]);
      ptr := ptr + 1;
    }
    assert out[..ptr2] == [QUOTE] + Escape(str);
  }

  /** One turn of the write pass. */
  method WriteEscape(out: array<byte>, pos: nat, c: Ch) returns (ptr2: nat)
    requires pos + |EscapeChar(c)| <= out.Length
    modifies out
    ensures ptr2 == pos + |EscapeChar(c)|
    ensures out[..ptr2] == old(out[..pos]) + EscapeChar(c)
  {
    if c > 31 && c != QUOTE && c != BACKSLASH {
      out[pos] := c;
      return pos + 1;
    }
    out[pos] := BACKSLASH;
    if EscapeLetter(c) != 0 {
      out[pos + 1] := EscapeLetter(c);
      return pos + 2;
    }
    ptr2 := WriteUnit(out, pos, c);
  }

  /** The rest of an escape as four hex digits, behind the backslash. */
  method WriteUnit(out: array<byte>, pos: nat, c: Ch) returns (ptr2: nat)
    requires c < 32 && pos + 6 <= out.Length && out[pos] == BACKSLASH
    modifies out
    ensures ptr2 == pos + 6
    ensures out[..ptr2] == old(out[..pos]) + [BACKSLASH, 117, 48, 48, HexDigit(c / 16), HexDigit(c % 16)]
  {
    out[pos + 1], out[pos + 2], out[pos + 3] := 117, 48, 48;
    out[pos + 4], out[pos + 5] := HexDigit(c / 16), HexDigit(c % 16);
    ptr2 := pos + 6;
    assert out[..ptr2] == out[..pos] + out[pos..ptr2];
    assert out[pos..ptr2] == [BACKSLASH, 117, 48, 48, HexDigit(c / 16), HexDigit(c % 16)];
  }
}
