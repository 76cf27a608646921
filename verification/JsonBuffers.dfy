/** `print_value` and its helpers as they run: every text is built in a buffer whose
    size was added up beforehand, so each store below is also a bounds proof. */
module JsonBuffers {
  import opened CText
  import opened Json
  import opened JsonPrinter
  import opened JsonStrings

  /** `strcpy` at a position: the text and its terminator. */
  method StrCpy(out: array<byte>, pos: nat, s: Text) returns (ptr: nat)
    requires pos + |s| + 1 <= out.Length
    modifies out
    ensures ptr == pos + |s|
    ensures out[..ptr] == old(out[..pos]) + s
  {
    ghost var before := out[..pos];
    forall i | 0 <= i < |s| {
      out[pos + i] := s[i];
    }
    ptr := pos + |s|;
    out[ptr] := 0;
    assert out[..pos] == before && out[pos..ptr] == s;
    assert out[..ptr] == out[..pos] + out[pos..ptr];
  }

  method Put(out: array<byte>, pos: nat, c: Ch) returns (ptr: nat)
    requires pos < out.Length
    modifies out
    ensures ptr == pos + 1 && out[..ptr] == old(out[..pos]) + [c]
  {
    out[pos] := c;
    ptr := pos + 1;
  }

  method PutTabs(out: array<byte>, pos: nat, n: int) returns (ptr: nat)
    requires pos + |Tabs(n)| <= out.Length
    modifies out
    ensures ptr == pos + |Tabs(n)| && out[..ptr] == old(out[..pos]) + Tabs(n)
  {
    ptr := pos;
    var i := 0;
    assert out[..pos] + [] == out[..pos];
    TabsLength(n);
    while i < n
      invariant 0 <= i && (i <= n || i == 0)
      invariant ptr == pos + |Tabs(i)| && |Tabs(i)| == i
      invariant out[..ptr] == old(out[..pos]) + Tabs(i)
    {
      TabsSnoc(i);
      ptr := Put(out, ptr, TAB);
      assert old(out[..pos]) + Tabs(i) + [TAB] == old(out[..pos]) + (Tabs(i) + [TAB]);
      i := i + 1;
    }
  }

  lemma {:induction false} TabsSnoc(n: nat)
    ensures Tabs(n + 1) == Tabs(n) + [TAB]
  {
    if n > 0 { TabsSnoc(n - 1); }
  }

  // ----- numbers

  lemma {:induction false} DecimalLength(n: nat, k: nat, bound: nat)
    requires k >= 1 && n < bound && bound == TenTo(k)
    ensures |Decimal(n)| <= k
  {
    if n >= 10 {
      DecimalLength(n / 10, k - 1, TenTo(k - 1));
    }
  }

  function TenTo(k: nat): nat {
    if k == 0 then 1 else 10 * TenTo(k - 1)
  }

  /** A printed integer and its terminator fit the 21 bytes set aside for them. */
  lemma IntFits(n: int)
    requires INT_MIN <= n <= INT_MAX
    ensures |IntText(n)| + 1 <= 12
  {
    assert TenTo(4) == 10000;
    assert TenTo(7) == 10_000_000;
    assert TenTo(10) == 10_000_000_000;
    DecimalLength(if n < 0 then -n else n, 10, TenTo(10));
  }

  // ----- arrays

  /** What the size pass adds for the entries. */
  function EntriesSize(entries: seq<Text>, fmt: bool): nat {
    if entries == [] then 0 else |entries[0]| + 2 + (if fmt then 1 else 0) + EntriesSize(entries[1..], fmt)
  }

  lemma {:induction false} EntriesSizeSnoc(entries: seq<Text>, e: Text, fmt: bool)
    ensures EntriesSize(entries + [e], fmt) == EntriesSize(entries, fmt) + |e| + 2 + (if fmt then 1 else 0)
  {
    if entries == [] {
      assert entries + [e] == [e];
    } else {
      assert (entries + [e])[1..] == entries[1..] + [e];
      EntriesSizeSnoc(entries[1..], e, fmt);
    }
  }

  function Join(entries: seq<Text>, fmt: bool): Text {
    if entries == [] then []
    else entries[0] + (if |entries| == 1 then [] else ItemSeparator(fmt) + Join(entries[1..], fmt))
  }

  /** The composed array never outgrows the size that was added up for it. */
  lemma {:induction false} JoinFits(entries: seq<Text>, fmt: bool)
    ensures 1 + |Join(entries, fmt)| + 2 <= 5 + EntriesSize(entries, fmt)
  {
    if entries != [] { JoinFits(entries[1..], fmt); }
  }

  lemma {:induction false} JoinItems(items: seq<Json>, entries: seq<Text>, depth: nat, fmt: bool)
    requires |entries| == |items| && PrintableItems(items)
    requires forall i | 0 <= i < |items| :: entries[i] == ValueText(items[i], depth, fmt)
    ensures Join(entries, fmt) == ItemsText(items, depth, fmt)
  {
    if items != [] { JoinItems(items[1..], entries[1..], depth, fmt); }
  }

  method ComposeArray(entries: seq<Text>, len: nat, fmt: bool) returns (text: Text)
    requires len == 5 + EntriesSize(entries, fmt)
    ensures text == [OPEN_BRACKET] + Join(entries, fmt) + [CLOSE_BRACKET]
  {
    var out := new byte[len];
    var ptr := Put(out, 0, OPEN_BRACKET);
    out[ptr] := 0;
    ptr := ComposeItems(out, ptr, entries, fmt);
    ptr := Put(out, ptr, CLOSE_BRACKET);
    out[ptr] := 0;
    text := out[..ptr];
  }

  method ComposeItems(out: array<byte>, pos: nat, entries: seq<Text>, fmt: bool) returns (ptr: nat)
    requires pos + EntriesSize(entries, fmt) + 1 <= out.Length
    modifies out
    ensures ptr <= pos + EntriesSize(entries, fmt)
    ensures out[..ptr] == old(out[..pos]) + Join(entries, fmt)
  {
    ghost var all := out[..pos] + Join(entries, fmt);
    ptr := pos;
    var i := 0;
    assert entries[0..] == entries;
    while i < |entries|
      invariant 0 <= i <= |entries|
      invariant ptr + EntriesSize(entries[i..], fmt) <= pos + EntriesSize(entries, fmt)
      invariant out[..ptr] + Join(entries[i..], fmt) == all
    {
      assert entries[i..][1..] == entries[i + 1..];
      JoinStep(out[..ptr], entries, i, fmt);
      ptr := ComposeItem(out, ptr, entries[i], i == |entries| - 1, fmt);
      i := i + 1;
    }
    assert entries[i..] == [];
  }

  method ComposeItem(out: array<byte>, pos: nat, entry: Text, last: bool, fmt: bool) returns (ptr: nat)
    requires pos + |entry| + (if last then 0 else |ItemSeparator(fmt)|) + 1 <= out.Length
    modifies out
    ensures ptr == pos + |entry| + (if last then 0 else |ItemSeparator(fmt)|)
    ensures out[..ptr] == if last then old(out[..pos]) + entry else old(out[..pos]) + entry + ItemSeparator(fmt)
  {
    ptr := StrCpy(out, pos, entry);
    if !last {
      ptr := Put(out, ptr, COMMA);
      if fmt { ptr := Put(out, ptr, SPACE); }
      out[ptr] := 0;
    }
  }

  lemma JoinStep(done: seq<byte>, entries: seq<Text>, i: nat, fmt: bool)
    requires i < |entries|
    ensures done + Join(entries[i..], fmt)
         == (if i == |entries| - 1 then done + entries[i] else done + entries[i] + ItemSeparator(fmt))
            + Join(entries[i + 1..], fmt)
  {
    assert entries[i..][1..] == entries[i + 1..];
    if i == |entries| - 1 {
      assert entries[i..] == [entries[i]];
    } else {
      var tail := Join(entries[i + 1..], fmt);
      assert done + (entries[i] + (ItemSeparator(fmt) + tail)) == done + entries[i] + ItemSeparator(fmt) + tail;
    }
  }

  // ----- objects

  function MemberSize(name: Text, entry: Text, depth: nat, fmt: bool): nat {
    |entry| + |name| + 2 + if fmt then 2 + depth else 0
  }

  function MembersSize(names: seq<Text>, entries: seq<Text>, depth: nat, fmt: bool): nat
    requires |names| == |entries|
  {
    if entries == [] then 0
    else MemberSize(names[0], entries[0], depth, fmt) + MembersSize(names[1..], entries[1..], depth, fmt)
  }

  lemma {:induction false} MembersSizeSnoc(names: seq<Text>, entries: seq<Text>, n: Text, e: Text, depth: nat, fmt: bool)
    requires |names| == |entries|
    ensures MembersSize(names + [n], entries + [e], depth, fmt)
         == MembersSize(names, entries, depth, fmt) + MemberSize(n, e, depth, fmt)
  {
    if entries == [] {
      assert entries + [e] == [e] && names + [n] == [n];
    } else {
      assert (entries + [e])[1..] == entries[1..] + [e] && (names + [n])[1..] == names[1..] + [n];
      MembersSizeSnoc(names[1..], entries[1..], n, e, depth, fmt);
    }
  }

  function Line(name: Text, entry: Text, depth: nat, fmt: bool): Text {
    Indent(depth, fmt) + name + KeySeparator(fmt) + entry
  }

  /** A member's line with what ends it. */
  function FullLine(name: Text, entry: Text, last: bool, depth: nat, fmt: bool): Text {
    Line(name, entry, depth, fmt) + ((if last then [] else [COMMA]) + NewLine(fmt))
  }

  function JoinMembers(names: seq<Text>, entries: seq<Text>, depth: nat, fmt: bool): Text
    requires |names| == |entries|
  {
    if entries == [] then []
    else Line(names[0], entries[0], depth, fmt)
         + (if |entries| == 1 then NewLine(fmt)
            else [COMMA] + (NewLine(fmt) + JoinMembers(names[1..], entries[1..], depth, fmt)))
  }

  lemma {:induction false} JoinMembersText(members: seq<Member>, names: seq<Text>, entries: seq<Text>, depth: nat, fmt: bool)
    requires |entries| == |names| == |members| && PrintableMembers(members)
    requires forall i | 0 <= i < |members| ::
               names[i] == StringText(members[i].key) && entries[i] == ValueText(members[i].value, depth, fmt)
    ensures JoinMembers(names, entries, depth, fmt) == MembersText(members, depth, fmt)
  {
    if members != [] { JoinMembersText(members[1..], names[1..], entries[1..], depth, fmt); }
  }

  /** The composed object never outgrows the size that was added up for it. */
  lemma {:induction false} JoinMembersFits(names: seq<Text>, entries: seq<Text>, depth: nat, fmt: bool)
    requires |names| == |entries|
    ensures |JoinMembers(names, entries, depth, fmt)| <= MembersSize(names, entries, depth, fmt)
  {
    TabsLength(depth);
    if entries != [] { JoinMembersFits(names[1..], entries[1..], depth, fmt); }
  }

  /** One member's line, with its comma and line feed. */
  method ComposeMember(out: array<byte>, pos: nat, name: Text, entry: Text, last: bool, depth: nat, fmt: bool)
    returns (ptr: nat)
    requires pos + MemberSize(name, entry, depth, fmt) + 2 <= out.Length
    modifies out
    ensures ptr <= pos + MemberSize(name, entry, depth, fmt)
    ensures out[..ptr] == old(out[..pos]) + FullLine(name, entry, last, depth, fmt)
  {
    ghost var before := out[..pos];
    TabsLength(depth);
    ptr := pos;
    if fmt { ptr := PutTabs(out, ptr, depth); }
    assert out[..ptr] == before + Indent(depth, fmt);
    ptr := StrCpy(out, ptr, name);
    ptr := Put(out, ptr, COLON);
    if fmt { ptr := Put(out, ptr, TAB); }
    assert out[..ptr] == before + (Indent(depth, fmt) + name + KeySeparator(fmt));
    ptr := StrCpy(out, ptr, entry);
    if !last { ptr := Put(out, ptr, COMMA); }
    if fmt { ptr := Put(out, ptr, LF); }
    out[ptr] := 0;
    LineGroup(before, Indent(depth, fmt) + name + KeySeparator(fmt), entry, if last then [] else [COMMA], NewLine(fmt), out[..ptr]);
  }

  lemma LineGroup(a: seq<byte>, b: Text, c: Text, d: Text, e: Text, whole: seq<byte>)
    requires whole == a + b + c + d + e
    ensures whole == a + (b + c + (d + e))
  {
  }

  method ComposeObject(names: seq<Text>, entries: seq<Text>, len: nat, depth: nat, fmt: bool) returns (text: Text)
    requires |names| == |entries| && depth >= 1
    requires len == 7 + (if fmt then depth else 0) + MembersSize(names, entries, depth, fmt)
    ensures text == [OPEN_BRACE] + NewLine(fmt) + JoinMembers(names, entries, depth, fmt) + Indent(depth - 1, fmt) + [CLOSE_BRACE]
  {
    var out := new byte[len];
    var ptr := OpenObject(out, fmt);
    ptr := ComposeMembers(out, ptr, names, entries, depth, fmt);
    ptr := CloseObject(out, ptr, depth, fmt);
    text := out[..ptr];
  }

  method OpenObject(out: array<byte>, fmt: bool) returns (ptr: nat)
    requires 3 <= out.Length
    modifies out
    ensures ptr <= 2 && out[..ptr] == [OPEN_BRACE] + NewLine(fmt)
  {
    ptr := Put(out, 0, OPEN_BRACE);
    if fmt { ptr := Put(out, ptr, LF); }
    out[ptr] := 0;
  }

  method CloseObject(out: array<byte>, pos: nat, depth: nat, fmt: bool) returns (ptr: nat)
    requires depth >= 1 && pos + 2 + (if fmt then depth else 0) <= out.Length
    modifies out
    ensures ptr < out.Length && out[..ptr] == old(out[..pos]) + Indent(depth - 1, fmt) + [CLOSE_BRACE] && out[ptr] == 0
  {
    ptr := pos;
    TabsLength(depth - 1);
    if fmt { ptr := PutTabs(out, ptr, depth - 1); }
    ptr := Put(out, ptr, CLOSE_BRACE);
    out[ptr] := 0;
  }

  method ComposeMembers(out: array<byte>, pos: nat, names: seq<Text>, entries: seq<Text>, depth: nat, fmt: bool)
    returns (ptr: nat)
    requires |names| == |entries|
    requires pos + MembersSize(names, entries, depth, fmt) + 2 <= out.Length
    modifies out
    ensures ptr <= pos + MembersSize(names, entries, depth, fmt)
    ensures out[..ptr] == old(out[..pos]) + JoinMembers(names, entries, depth, fmt)
  {
    ghost var all := out[..pos] + JoinMembers(names, entries, depth, fmt);
    ghost var size := MembersSize(names, entries, depth, fmt);
    ptr := pos;
    var i := 0;
    assert entries[0..] == entries && names[0..] == names;
    while i < |entries|
      invariant 0 <= i <= |entries|
      invariant ptr + MembersSize(names[i..], entries[i..], depth, fmt) <= pos + size
      invariant out[..ptr] + JoinMembers(names[i..], entries[i..], depth, fmt) == all
    {
      assert entries[i..][1..] == entries[i + 1..] && names[i..][1..] == names[i + 1..];
      JoinMembersStep(out[..ptr], names, entries, i, depth, fmt);
      ptr := ComposeMember(out, ptr, names[i], entries[i], i == |entries| - 1, depth, fmt);
      i := i + 1;
    }
    assert entries[i..] == [];
  }

  lemma JoinMembersStep(done: seq<byte>, names: seq<Text>, entries: seq<Text>, i: nat, depth: nat, fmt: bool)
    requires |names| == |entries| && i < |entries|
    ensures done + JoinMembers(names[i..], entries[i..], depth, fmt)
         == done + FullLine(names[i], entries[i], i == |entries| - 1, depth, fmt)
            + JoinMembers(names[i + 1..], entries[i + 1..], depth, fmt)
  {
    assert entries[i..][1..] == entries[i + 1..] && names[i..][1..] == names[i + 1..];
    var line, tail := Line(names[i], entries[i], depth, fmt), JoinMembers(names[i + 1..], entries[i + 1..], depth, fmt);
    if i == |entries| - 1 {
      assert [] + NewLine(fmt) == NewLine(fmt) && tail == [];
    } else {
      assert done + (line + ([COMMA] + (NewLine(fmt) + tail))) == done + (line + ([COMMA] + NewLine(fmt))) + tail;
    }
  }

  // ----- the recursion

  /** `print_value`. */
  method PrintValue(v: Json, depth: nat, fmt: bool) returns (text: Text)
    requires Printable(v)
    ensures text == ValueText(v, depth, fmt)
    decreases v, 2
  {
    match v
    case Null => text := NULL_TEXT;
    case False => text := FALSE_TEXT;
    case True => text := TRUE_TEXT;
    case Number(r) => text := PrintNumber(r);
    case Str(s) => text := PrintStringLiteral(s);
    case Arr(_) => text := PrintArray(v, depth, fmt);
    case Obj(_) => text := PrintObject(v, depth, fmt);
  }

  /** `print_number`, in the branch that uses `%d`. */
  method PrintNumber(r: real) returns (text: Text)
    requires IntNumber(r)
    ensures text == IntText(r.Floor)
  {
    var str := new byte[21];
    IntFits(r.Floor);
    var ptr := StrCpy(str, 0, IntText(r.Floor));
    assert str[..0] == [];
    text := str[..ptr];
  }

  method PrintArray(v: Json, depth: nat, fmt: bool) returns (text: Text)
    requires v.Arr? && Printable(v)
    ensures text == ValueText(v, depth, fmt)
    decreases v, 1
  {
    var items := v.items;
    if |items| == 0 {
      var out := new byte[3];
      var end := StrCpy(out, 0, [OPEN_BRACKET, CLOSE_BRACKET]);
      return out[..end];
    }
    var entries: seq<Text> := [];
    var len, i := 5, 0;
    while i < |items|
      invariant 0 <= i <= |items| && |entries| == i && 0 <= len
      invariant forall k | 0 <= k < i :: entries[k] == ValueText(items[k], depth + 1, fmt)
      invariant len == 5 + EntriesSize(entries, fmt)
    {
      var ret := PrintValue(items[i], depth + 1, fmt);
      EntriesSizeSnoc(entries, ret, fmt);
      entries := entries + [ret];
      len := len + |ret| + 2 + (if fmt then 1 else 0);
      i := i + 1;
    }
    JoinItems(items, entries, depth + 1, fmt);
    text := ComposeArray(entries, len, fmt);
  }

  method PrintObject(v: Json, outer: nat, fmt: bool) returns (text: Text)
    requires v.Obj? && Printable(v)
    ensures text == ValueText(v, outer, fmt)
    decreases v, 1
  {
    var members := v.members;
    if |members| == 0 {
      text := PrintEmptyObject(outer, fmt);
      return;
    }
    var names, entries, len := PrintMembers(v, outer + 1, fmt);
    JoinMembersText(members, names, entries, outer + 1, fmt);
    text := ComposeObject(names, entries, len, outer + 1, fmt);
  }

  method PrintMembers(v: Json, depth: nat, fmt: bool) returns (names: seq<Text>, entries: seq<Text>, len: nat)
    requires v.Obj? && Printable(v)
    ensures |entries| == |names| == |v.members|
    ensures forall k | 0 <= k < |names| ::
              names[k] == StringText(v.members[k].key) && entries[k] == ValueText(v.members[k].value, depth, fmt)
    ensures len == 7 + (if fmt then depth else 0) + MembersSize(names, entries, depth, fmt)
    decreases v, 0
  {
    var members := v.members;
    names, entries := [], [];
    len := if fmt then 7 + depth else 7;
    var i := 0;
    while i < |members|
      invariant 0 <= i <= |members| && |entries| == |names| == i
      invariant forall k | 0 <= k < i ::
                  names[k] == StringText(members[k].key) && entries[k] == ValueText(members[k].value, depth, fmt)
      invariant len == 7 + (if fmt then depth else 0) + MembersSize(names, entries, depth, fmt)
    {
      var str := PrintStringLiteral(members[i].key);
      var ret := PrintValue(members[i].value, depth, fmt);
      MembersSizeSnoc(names, entries, str, ret, depth, fmt);
      names, entries := names + [str], entries + [ret];
      len := len + |ret| + |str| + 2 + (if fmt then 2 + depth else 0);
      i := i + 1;
    }
  }

  method PrintEmptyObject(depth: nat, fmt: bool) returns (text: Text)
    ensures text == ValueText(Obj([]), depth, fmt)
  {
    var out := new byte[if fmt then depth + 4 else 3];
    TabsLength(depth - 1);
    var ptr := Put(out, 0, OPEN_BRACE);
    if fmt {
      ptr := Put(out, ptr, LF);
      ptr := PutTabs(out, ptr, depth - 1);
    }
    ptr := Put(out, ptr, CLOSE_BRACE);
    out[ptr] := 0;
    text := out[..ptr];
  }
}
