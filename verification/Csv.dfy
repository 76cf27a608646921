/** CSV as the bundled SQLite shell writes and reads it. */
module Csv {
  import opened CText

  const EOF := -1

  // ----- writing

  /** Characters that put a field in quotes. */
  predicate NeedsQuote(c: Ch) {
    c <= 32 || c == QUOTE || c == 39 || c >= 127
  }

  /** Column separators the round trip is about. */
  predicate Separator(sep: Ch) {
    sep != QUOTE && sep != CR && sep != LF && sep < 128
  }

  predicate PlainField(z: Text, sep: Ch) {
    z != [] && forall i | 0 <= i < |z| :: !NeedsQuote(z[i]) && z[i] != sep
  }

  function CharText(c: Ch): Text {
    if c == QUOTE then [QUOTE, QUOTE] else [c]
  }

  function DoubleQuotes(z: Text): Text {
    if z == [] then [] else CharText(z[0]) + DoubleQuotes(z[1..])
  }

  function FieldText(z: Text, sep: Ch): Text {
    if PlainField(z, sep) then z else [QUOTE] + DoubleQuotes(z) + [QUOTE]
  }

  /** A row: fields with separators between them and a carriage return and line feed behind. */
  function RowText(fields: seq<Text>, sep: Ch): Text
    requires fields != []
  {
    if |fields| == 1 then FieldText(fields[0], sep) + [CR, LF]
    else FieldText(fields[0], sep) + [sep] + RowText(fields[1..], sep)
  }

  /** A field stays as it is exactly if it is not empty and has only visible ASCII characters, none of
      them a quote, an apostrophe or the separator; else it is longer than before. */
  lemma Unquoted(z: Text, sep: Ch)
    ensures FieldText(z, sep) == z <==>
              z != [] && forall i | 0 <= i < |z| :: 33 <= z[i] <= 126 && z[i] != 34 && z[i] != 39 && z[i] != sep
    ensures FieldText(z, sep) == z || |FieldText(z, sep)| >= |z| + 2
  {
    DoubledLonger(z);
  }

  lemma {:induction false} DoubledLonger(z: Text)
    ensures |DoubleQuotes(z)| >= |z|
  {
    if z != [] { DoubledLonger(z[1..]); }
  }

  /** `output_csv` with a separator of one character. */
  method OutputCsv(z: Text, sep: Ch, bSep: bool) returns (out: Text)
    ensures out == FieldText(z, sep) + if bSep then [sep] else []
  {
    var i := 0;
    while i < |z|
      invariant 0 <= i <= |z| && forall j | 0 <= j < i :: !NeedsQuote(z[j]) && z[j] != sep
    {
      if NeedsQuote(z[i]) || z[i] == sep {
        i := 0;
        break;
      }
      i := i + 1;
    }
    if i == 0 {
      out := OutputQuoted(z);
    } else {
      out := z;
    }
    assert out == FieldText(z, sep) && out + [] == out;
    if bSep { out := out + [sep]; }
  }

  method OutputQuoted(z: Text) returns (out: Text)
    ensures out == [QUOTE] + DoubleQuotes(z) + [QUOTE]
  {
    out := [QUOTE];
    var i := 0;
    assert z[0..] == z;
    while i < |z|
      invariant 0 <= i <= |z| && out + DoubleQuotes(z[i..]) == [QUOTE] + DoubleQuotes(z)
    {
      assert z[i..][1..] == z[i + 1..];
      Associate(out, CharText(z[i]), DoubleQuotes(z[i + 1..]), []);
      ghost var before := out;
      if z[i] == QUOTE { out := out + [QUOTE]; }
      out := out + [z[i]];
      assert out == before + CharText(z[i]);
      i := i + 1;
    }
    assert z[i..] == [] && out + [] == out;
    out := out + [QUOTE];
  }

  // ----- reading

  /** What one call reads: the field, the character that ended it, and what is left. `NoField` is
      the end of the file. */
  datatype Field = NoField | Field(z: seq<byte>, term: int, rest: seq<byte>)

  function Head(s: seq<byte>): int {
    if s == [] then EOF else s[0]
  }

  function Rest(s: seq<byte>): seq<byte> {
    if s == [] then [] else s[1..]
  }

  predicate HasQuote(z: seq<byte>) {
    exists i | 0 <= i < |z| :: z[i] == QUOTE
  }

  /** Cut at the last quote. */
  function BeforeLastQuote(z: seq<byte>): (r: seq<byte>)
    ensures r <= z
  {
    if z == [] then [] else if z[|z| - 1] == QUOTE then z[..|z| - 1] else BeforeLastQuote(z[..|z| - 1])
  }

  /** The character ends a quoted field. */
  predicate Ends(c: int, sep: byte, rsep: byte, pc: int, ppc: int) {
    || (pc == QUOTE && (c == sep || c == rsep || c == EOF))
    || (c == rsep && pc == CR && ppc == QUOTE)
  }

  /** Behind the opening quote: `z` was read so far, `pc` and `ppc` are the last two characters. */
  function ReadQuoted(s: seq<byte>, sep: byte, rsep: byte, z: seq<byte>, pc: int, ppc: int): Field
    decreases |s|
  {
    var c := Head(s);
    if c == QUOTE && pc == QUOTE then ReadQuoted(s[1..], sep, rsep, z, 0, ppc)
    else if Ends(c, sep, rsep, pc, ppc) then Field(BeforeLastQuote(z), c, Rest(s))
    else if c == EOF then Field(z, EOF, [])
    else ReadQuoted(s[1..], sep, rsep, z + [s[0]], c, pc)
  }

  /** Reading a field from here puts something in the buffer. */
  predicate Appends(s: seq<byte>, sep: byte, rsep: byte) {
    s != [] && if s[0] == QUOTE then |s| > 1 else s[0] != sep && s[0] != rsep
  }

  function DropCr(z: seq<byte>): seq<byte> {
    if z != [] && z[|z| - 1] == CR then z[..|z| - 1] else z
  }

  function ReadPlain(s: seq<byte>, sep: byte, rsep: byte, z: seq<byte>): Field
    decreases |s|
  {
    var c := Head(s);
    if c == EOF || c == sep || c == rsep then Field(if c == rsep then DropCr(z) else z, c, Rest(s))
    else ReadPlain(s[1..], sep, rsep, z + [s[0]])
  }

  /** `csv_read_one_field`. */
  function ReadField(s: seq<byte>, sep: byte, rsep: byte): Field {
    if s == [] then NoField
    else if s[0] == QUOTE then ReadQuoted(s[1..], sep, rsep, [], 0, 0)
    else ReadPlain(s, sep, rsep, [])
  }

  // ----- the round trip

  /** The last characters are not the end of a quoted field. */
  predicate Inside(pc: int, ppc: int) {
    pc != QUOTE && !(pc == CR && ppc == QUOTE)
  }

  lemma {:induction false} ReadContent(z: Text, after: seq<byte>, sep: Ch, got: seq<byte>, pc: int, ppc: int)
    returns (pc': int, ppc': int)
    requires Separator(sep) && Inside(pc, ppc)
    ensures Inside(pc', ppc')
    ensures ReadQuoted(DoubleQuotes(z) + after, sep, LF, got, pc, ppc) == ReadQuoted(after, sep, LF, got + z, pc', ppc')
    decreases |z|
  {
    if z == [] {
      assert DoubleQuotes(z) + after == after && got + z == got;
      return pc, ppc;
    }
    var tail := DoubleQuotes(z[1..]) + after;
    assert DoubleQuotes(z) + after == CharText(z[0]) + tail;
    ReadChar(z[0], tail, sep, got, pc, ppc);
    pc', ppc' := ReadContent(z[1..], after, sep, got + [z[0]], if z[0] == QUOTE then 0 else z[0], pc);
    assert got + [z[0]] + z[1..] == got + z;
  }

  /** One character of a quoted field; a quote comes twice and leaves no trace in `pc`. */
  lemma ReadChar(c: Ch, tail: seq<byte>, sep: Ch, got: seq<byte>, pc: int, ppc: int)
    requires Separator(sep) && Inside(pc, ppc)
    ensures ReadQuoted(CharText(c) + tail, sep, LF, got, pc, ppc)
         == ReadQuoted(tail, sep, LF, got + [c], if c == QUOTE then 0 else c, pc)
  {
    var s := CharText(c) + tail;
    if c == QUOTE {
      var s1 := [QUOTE] + tail;
      assert s[1..] == s1 && s1[1..] == tail;
      assert ReadQuoted(s, sep, LF, got, pc, ppc) == ReadQuoted(s1, sep, LF, got + [QUOTE], QUOTE, pc);
    } else {
      assert s[1..] == tail;
    }
  }

  /** The closing quote before a separator, */
  lemma ReadClosedBySeparator(z: seq<byte>, rest: seq<byte>, sep: Ch, pc: int, ppc: int)
    requires Separator(sep) && Inside(pc, ppc)
    ensures ReadQuoted([QUOTE] + ([sep] + rest), sep, LF, z, pc, ppc) == Field(z, sep, rest)
  {
    var s := [QUOTE] + ([sep] + rest);
    assert s[1..] == [sep] + rest && ([sep] + rest)[1..] == rest;
    assert BeforeLastQuote(z + [QUOTE]) == z;
  }

  /** or before the end of the row. */
  lemma ReadClosedByRow(z: seq<byte>, rest: seq<byte>, sep: Ch, pc: int, ppc: int)
    requires Separator(sep) && Inside(pc, ppc)
    ensures ReadQuoted([QUOTE] + ([CR, LF] + rest), sep, LF, z, pc, ppc) == Field(z, LF, rest)
  {
    var s1, s2 := [CR, LF] + rest, [LF] + rest;
    assert ([QUOTE] + s1)[1..] == s1 && s1[1..] == s2 && s2[1..] == rest;
    var z1 := z + [QUOTE];
    var z2 := z1 + [CR];
    assert ReadQuoted([QUOTE] + s1, sep, LF, z, pc, ppc) == ReadQuoted(s1, sep, LF, z1, QUOTE, pc);
    assert ReadQuoted(s1, sep, LF, z1, QUOTE, pc) == ReadQuoted(s2, sep, LF, z2, CR, QUOTE);
    assert z2[..|z2| - 1] == z1 && BeforeLastQuote(z1) == z;
    assert BeforeLastQuote(z2) == z;
  }

  lemma {:induction false} ReadPlainContent(z: Text, after: seq<byte>, sep: Ch, got: seq<byte>)
    requires forall i | 0 <= i < |z| :: z[i] != sep && z[i] != LF
    ensures ReadPlain(z + after, sep, LF, got) == ReadPlain(after, sep, LF, got + z)
    decreases |z|
  {
    if z == [] {
      assert z + after == after && got + z == got;
    } else {
      assert (z + after)[1..] == z[1..] + after;
      ReadPlainContent(z[1..], after, sep, got + [z[0]]);
      assert got + [z[0]] + z[1..] == got + z;
    }
  }

  /** One field, followed by the separator or by the end of the row. */
  lemma FieldRoundTrip(z: Text, sep: Ch, last: bool, rest: seq<byte>)
    requires Separator(sep)
    ensures ReadField(FieldText(z, sep) + (FieldEnd(sep, last) + rest), sep, LF)
         == Field(z, if last then LF else sep, rest)
  {
    if PlainField(z, sep) {
      PlainRoundTrip(z, sep, last, rest);
    } else {
      QuotedRoundTrip(z, sep, last, rest);
    }
  }

  /** A field at the very end of the file. */
  lemma FieldAtEnd(z: Text, sep: Ch)
    requires Separator(sep)
    ensures ReadField(FieldText(z, sep), sep, LF) == Field(z, EOF, [])
  {
    if PlainField(z, sep) {
      assert z + [] == z && [] + z == z;
      ReadPlainContent(z, [], sep, []);
    } else {
      var s := [QUOTE] + DoubleQuotes(z) + [QUOTE];
      assert s[1..] == DoubleQuotes(z) + [QUOTE] && [] + z == z;
      var pc, ppc := ReadContent(z, [QUOTE], sep, [], 0, 0);
      assert [QUOTE][1..] == [] && BeforeLastQuote(z + [QUOTE]) == z;
      assert ReadQuoted([QUOTE], sep, LF, z, pc, ppc) == ReadQuoted([], sep, LF, z + [QUOTE], QUOTE, pc);
    }
  }

  /** What stands behind a field. */
  function FieldEnd(sep: Ch, last: bool): Text {
    if last then [CR, LF] else [sep]
  }

  lemma PlainRoundTrip(z: Text, sep: Ch, last: bool, rest: seq<byte>)
    requires Separator(sep) && PlainField(z, sep)
    ensures ReadField(z + (FieldEnd(sep, last) + rest), sep, LF) == Field(z, if last then LF else sep, rest)
  {
    ReadPlainContent(z, FieldEnd(sep, last) + rest, sep, []);
    assert [] + z == z;
    PlainEnds(z, sep, last, rest);
  }

  lemma QuotedRoundTrip(z: Text, sep: Ch, last: bool, rest: seq<byte>)
    requires Separator(sep)
    ensures ReadField([QUOTE] + DoubleQuotes(z) + [QUOTE] + (FieldEnd(sep, last) + rest), sep, LF)
         == Field(z, if last then LF else sep, rest)
  {
    var after := FieldEnd(sep, last) + rest;
    var s := [QUOTE] + DoubleQuotes(z) + [QUOTE] + after;
    assert s[1..] == DoubleQuotes(z) + ([QUOTE] + after);
    var pc, ppc := ReadContent(z, [QUOTE] + after, sep, [], 0, 0);
    assert [] + z == z;
    ReadClosed(z, rest, sep, last, pc, ppc);
  }

  lemma ReadClosed(z: seq<byte>, rest: seq<byte>, sep: Ch, last: bool, pc: int, ppc: int)
    requires Separator(sep) && Inside(pc, ppc)
    ensures ReadQuoted([QUOTE] + (FieldEnd(sep, last) + rest), sep, LF, z, pc, ppc) == Field(z, if last then LF else sep, rest)
  {
    if last {
      ReadClosedByRow(z, rest, sep, pc, ppc);
    } else {
      ReadClosedBySeparator(z, rest, sep, pc, ppc);
    }
  }

  lemma PlainEnds(z: Text, sep: Ch, last: bool, rest: seq<byte>)
    requires Separator(sep) && PlainField(z, sep)
    ensures ReadPlain(FieldEnd(sep, last) + rest, sep, LF, z) == Field(z, if last then LF else sep, rest)
  {
    if last {
      var s := [CR, LF] + rest;
      assert s[1..] == [LF] + rest && s[1..][1..] == rest;
      assert DropCr(z + [CR]) == z;
    } else {
      assert ([sep] + rest)[1..] == rest;
    }
  }

  /** The fields up to the end of a row, as the import loop collects them. */
  function ReadRow(s: seq<byte>, sep: byte, rsep: byte): (seq<seq<byte>>, seq<byte>)
    decreases |s|
  {
    match ReadField(s, sep, rsep)
    case NoField => ([], [])
    case Field(z, term, rest) =>
      if term == sep && |rest| < |s| then
        var (zs, end) := ReadRow(rest, sep, rsep);
        ([z] + zs, end)
      else ([z], rest)
  }

  /** Any row of NUL-free fields, with quotes, separators and line breaks in them, is read back
      field by field, up to whatever follows it. */
  lemma {:induction false} RowRoundTrip(fields: seq<Text>, sep: Ch, rest: seq<byte>)
    requires fields != [] && Separator(sep)
    ensures ReadRow(RowText(fields, sep) + rest, sep, LF) == (fields, rest)
    decreases |fields|
  {
    var z, t := fields[0], FieldText(fields[0], sep);
    if |fields| == 1 {
      LastRoundTrip(z, sep, rest);
      assert fields == [z];
    } else {
      var tail := RowText(fields[1..], sep) + rest;
      Associate(t, [sep], RowText(fields[1..], sep), rest);
      FieldRoundTrip(z, sep, false, tail);
      RowRoundTrip(fields[1..], sep, rest);
      ReadRowMore(t + ([sep] + tail), sep, z, tail);
      assert [z] + fields[1..] == fields;
    }
  }

  lemma LastRoundTrip(z: Text, sep: Ch, rest: seq<byte>)
    requires Separator(sep)
    ensures ReadRow(FieldText(z, sep) + [CR, LF] + rest, sep, LF) == ([z], rest)
  {
    var t := FieldText(z, sep);
    Associate(t, [CR, LF], [], rest);
    assert [CR, LF] + [] == [CR, LF] && [] + rest == rest;
    FieldRoundTrip(z, sep, true, rest);
    ReadRowLast(t + ([CR, LF] + rest), sep, z, rest);
  }

  lemma Associate(a: Text, b: Text, c: Text, d: seq<byte>)
    ensures a + b + c + d == a + (b + (c + d))
    ensures a + (b + c) + d == a + (b + (c + d))
  {
  }

  lemma ReadRowLast(s: seq<byte>, sep: Ch, z: seq<byte>, rest: seq<byte>)
    requires Separator(sep) && ReadField(s, sep, LF) == Field(z, LF, rest)
    ensures ReadRow(s, sep, LF) == ([z], rest)
  {
  }

  lemma ReadRowMore(s: seq<byte>, sep: Ch, z: seq<byte>, rest: seq<byte>)
    requires ReadField(s, sep, LF) == Field(z, sep, rest) && |rest| < |s|
    ensures ReadRow(s, sep, LF) == ([z] + ReadRow(rest, sep, LF).0, ReadRow(rest, sep, LF).1)
  {
  }

  function RowsText(rows: seq<seq<Text>>, sep: Ch): Text
    requires forall i | 0 <= i < |rows| :: rows[i] != []
  {
    if rows == [] then [] else RowText(rows[0], sep) + RowsText(rows[1..], sep)
  }

  function ReadRows(s: seq<byte>, sep: byte, rsep: byte, n: nat): (seq<seq<seq<byte>>>, seq<byte>)
    decreases n
  {
    if n == 0 then ([], s)
    else
      var (row, rest) := ReadRow(s, sep, rsep);
      var (rows, end) := ReadRows(rest, sep, rsep, n - 1);
      ([row] + rows, end)
  }

  lemma ReadRowsMore(s: seq<byte>, sep: Ch, n: nat, row: seq<seq<byte>>, rest: seq<byte>)
    requires n > 0 && ReadRow(s, sep, LF) == (row, rest)
    ensures ReadRows(s, sep, LF, n)
            == ([row] + ReadRows(rest, sep, LF, n - 1).0, ReadRows(rest, sep, LF, n - 1).1)
  {
  }

  /** And so is a whole file of rows. */
  lemma {:induction false} FileRoundTrip(rows: seq<seq<Text>>, sep: Ch, rest: seq<byte>)
    requires Separator(sep) && forall i | 0 <= i < |rows| :: rows[i] != []
    ensures ReadRows(RowsText(rows, sep) + rest, sep, LF, |rows|) == (rows, rest)
    decreases |rows|
  {
    if rows == [] {
      assert RowsText(rows, sep) + rest == rest;
    } else {
      var row, below := RowText(rows[0], sep), RowsText(rows[1..], sep);
      var tail := below + rest;
      assert row + below + rest == row + tail;
      RowRoundTrip(rows[0], sep, tail);
      FileRoundTrip(rows[1..], sep, rest);
      ReadRowsMore(row + tail, sep, |rows|, rows[0], tail);
      assert [rows[0]] + rows[1..] == rows;
    }
  }
}

/** `csv_read_one_field` on its buffer, which grows as characters are appended. */
module CsvImport {
  import opened CText
  import opened Csv

  class ImportCtx {
    var input: seq<byte>
    var z: array<byte>
    var n: nat
    var cTerm: int
    const cColSep: byte
    const cRowSep: byte

    /** A buffer of no length is the null pointer of a context that nothing was appended to. */
    ghost predicate Valid()
      reads this
    {
      n < z.Length || (n == 0 && z.Length == 0)
    }

    constructor (bytes: seq<byte>, colSep: byte, rowSep: byte)
      ensures Valid() && input == bytes && n == 0 && cColSep == colSep && cRowSep == rowSep && fresh(z)
    {
      input, n, cTerm, cColSep, cRowSep := bytes, 0, EOF, colSep, rowSep;
      z := new byte[0];
    }

    /** `fgetc`. */
    method GetChar() returns (c: int)
      modifies this`input
      ensures c == Head(old(input)) && input == Rest(old(input))
    {
      if input == [] { return EOF; }
      c := input[0];
      input := input[1..];
    }

    /** `import_append_char`: the buffer doubles and then some when it is full. */
    method AppendChar(c: byte)
      requires Valid()
      modifies this`z, this`n, z
      ensures Valid() && n == old(n) + 1 && z.Length > 0 && (z == old(z) || fresh(z))
      ensures z[..n] == old(z[..n]) + [c]
    {
      if n + 1 >= z.Length {
        var bigger := new byte[z.Length + z.Length + 100];
        forall i | 0 <= i < n {
          bigger[i] := z[i];
        }
        z := bigger;
      }
      z[n] := c;
      n := n + 1;
    }

    /** The loop behind an opening quote. */
    method ReadQuotedLoop()
      requires Valid() && n == 0
      modifies this, z
      ensures Valid() && (z == old(z) || fresh(z))
      ensures Field(z[..n], cTerm, input) == ReadQuoted(old(input), cColSep, cRowSep, [], 0, 0)
      ensures z.Length > 0 <==> old(z.Length) > 0 || old(input) != []
    {
      var pc, ppc := 0, 0;
      ghost var result := ReadQuoted(input, cColSep, cRowSep, [], 0, 0);
      while true
        invariant Valid() && (z == old(z) || fresh(z))
        invariant ReadQuoted(input, cColSep, cRowSep, z[..n], pc, ppc) == result
        invariant pc == QUOTE ==> n >= 1 && z[n - 1] == QUOTE
        invariant pc == CR && ppc == QUOTE ==> n >= 2 && z[n - 2] == QUOTE
        invariant if input == old(input) then z == old(z) && pc == 0 else z.Length > 0
        decreases |input|
      {
        ghost var before := input;
        var c := GetChar();
        if c == QUOTE && pc == QUOTE {
          pc := 0;
          continue;
        }
        if Ends(c, cColSep, cRowSep, pc, ppc) {
          CutAtQuote();
          cTerm := c;
          return;
        }
        if c == EOF {
          cTerm := c;
          return;
        }
        AppendChar(c);
        ppc := pc;
        pc := c;
      }
    }

    /** `do p->n--; while( p->z[p->n] != cQuote )`. */
    method CutAtQuote()
      requires Valid() && HasQuote(z[..n])
      modifies this`n
      ensures Valid() && z[..n] == BeforeLastQuote(old(z[..n]))
    {
      ghost var all := z[..n];
      n := n - 1;
      assert all[..|all| - 1] == z[..n];
      while z[n] != QUOTE
        invariant 0 <= n < |all| && n < z.Length && HasQuote(z[..n + 1])
        invariant BeforeLastQuote(all) == BeforeLastQuote(z[..n + 1])
        decreases n
      {
        assert z[..n + 1][..n] == z[..n];
        n := n - 1;
      }
      assert z[..n + 1][..n] == z[..n];
    }

    /** The loop for a field without quotes, with its first character already taken. */
    method ReadPlainLoop(first: byte)
      requires Valid() && n == 0
      modifies this, z
      ensures Valid() && (z == old(z) || fresh(z))
      ensures Field(z[..n], cTerm, input) == ReadPlain([first] + old(input), cColSep, cRowSep, [])
      ensures z.Length > 0 <==> old(z.Length) > 0 || (first != cColSep && first != cRowSep)
    {
      var c: int := first;
      ghost var s := [first] + input;
      ghost var result := ReadPlain(s, cColSep, cRowSep, []);
      while c != EOF && c != cColSep && c != cRowSep
        invariant Valid() && (z == old(z) || fresh(z))
        invariant c == Head(s) && input == Rest(s) && ReadPlain(s, cColSep, cRowSep, z[..n]) == result
        invariant if c == first && input == old(input) then z == old(z) else z.Length > 0
        decreases |s|
      {
        AppendChar(c);
        s := input;
        c := GetChar();
      }
      if c == cRowSep && n > 0 && z[n - 1] == CR {
        assert z[..n][..n - 1] == z[..n - 1];
        n := n - 1;
      }
      cTerm := c;
    }

    /** `csv_read_one_field`: whether it returns a pointer. It returns the buffer, so as long as
        nothing was ever appended a field that leaves the buffer alone looks like the end. */
    method ReadOneField() returns (some: bool)
      requires Valid()
      modifies this, z
      ensures Valid() && (z == old(z) || fresh(z))
      ensures match ReadField(old(input), cColSep, cRowSep)
              case NoField => !some && cTerm == EOF && input == []
              case Field(field, term, rest) =>
                && z[..n] == field && cTerm == term && input == rest
                && (some <==> old(z.Length) > 0 || Appends(old(input), cColSep, cRowSep))
    {
      n := 0;
      var c := GetChar();
      if c == EOF {
        cTerm := EOF;
        return false;
      }
      assert [c] + input == old(input);
      if c == QUOTE {
        ReadQuotedLoop();
      } else {
        ReadPlainLoop(c);
      }
      if z.Length > 0 { z[n] := 0; }
      some := z.Length > 0;
    }
  }
}
