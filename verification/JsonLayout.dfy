/** How printed values look: which escapes strings have, and where formatted text has its blanks. */
module JsonLayout {
  import opened CText
  import opened Json
  import opened JsonPrinter

  const HEX: Text := [48, 49, 50, 51, 52, 53, 54, 55, 56, 57, 97, 98, 99, 100, 101, 102]

  /** Characters are printed as they are from the blank on, quote and backslash behind a backslash,
      and the others with their letter, if they have one, or as four hex digits. */
  lemma EscapesPrinted(c: Ch)
    ensures EscapeChar(c) ==
              match c
              case 34 => [92, 34]
              case 92 => [92, 92]
              case 8 => [92, 98]
              case 12 => [92, 102]
              case 10 => [92, 110]
              case 13 => [92, 114]
              case 9 => [92, 116]
              case _ => if c >= 32 then [c] else [92, 117, 48, 48, HEX[c / 16], HEX[c % 16]]
  {
  }

  function Repeat(n: nat, c: Ch): Text {
    seq(n, _ => c)
  }

  /** The texts with a separator between any two. */
  function Joined(ts: seq<Text>, separator: Text): Text {
    if ts == [] then [] else if |ts| == 1 then ts[0] else ts[0] + separator + Joined(ts[1..], separator)
  }

  lemma {:induction false} TabsAre(n: int)
    ensures Tabs(n) == Repeat(if n < 0 then 0 else n, 9)
  {
    if n > 0 {
      TabsAre(n - 1);
      assert Repeat(n, 9) == [9] + Repeat(n - 1, 9);
    }
  }

  /** The elements of an array: between brackets, behind each comma a blank when formatted. */
  function Elements(items: seq<Json>, depth: nat, fmt: bool): (ts: seq<Text>)
    requires PrintableItems(items)
    ensures |ts| == |items| && forall i | 0 <= i < |items| :: ts[i] == ValueText(items[i], depth, fmt)
  {
    seq(|items|, i requires 0 <= i < |items| => ValueText(items[i], depth, fmt))
  }

  lemma {:induction false} ItemsJoined(items: seq<Json>, depth: nat, fmt: bool)
    requires PrintableItems(items)
    ensures ItemsText(items, depth, fmt) == Joined(Elements(items, depth, fmt), if fmt then [44, 32] else [44])
  {
    if items != [] {
      ItemsJoined(items[1..], depth, fmt);
      var ts := Elements(items, depth, fmt);
      assert ts[1..] == Elements(items[1..], depth, fmt);
      Front(ts[0], if fmt then [44, 32] else [44], Joined(ts[1..], if fmt then [44, 32] else [44]));
    }
  }

  lemma Front(a: Text, b: Text, c: Text)
    ensures a + (b + c) == a + b + c && a + [] == a
  {
  }

  lemma ArrayPrinted(items: seq<Json>, depth: nat, fmt: bool)
    requires Printable(Arr(items))
    ensures ValueText(Arr(items), depth, fmt) ==
              [91] + Joined(Elements(items, depth + 1, fmt), if fmt then [44, 32] else [44]) + [93]
  {
    ItemsJoined(items, depth + 1, fmt);
  }

  /** The members of an object: formatted, each stands on a line of its own, behind as many tabs as
      it is deep, with a tab between colon and value. */
  function Lines(members: seq<Member>, depth: nat, fmt: bool): (ts: seq<Text>)
    requires PrintableMembers(members)
    ensures |ts| == |members|
    ensures forall i | 0 <= i < |members| ::
              ts[i] == (if fmt then Repeat(depth, 9) else []) + StringText(members[i].key)
                       + (if fmt then [58, 9] else [58]) + ValueText(members[i].value, depth, fmt)
  {
    seq(|members|, i requires 0 <= i < |members| =>
      (if fmt then Repeat(depth, 9) else []) + StringText(members[i].key)
      + (if fmt then [58, 9] else [58]) + ValueText(members[i].value, depth, fmt))
  }

  lemma {:induction false} MembersJoined(members: seq<Member>, depth: nat, fmt: bool)
    requires members != [] && PrintableMembers(members)
    ensures MembersText(members, depth, fmt) ==
              Joined(Lines(members, depth, fmt), if fmt then [44, 10] else [44]) + if fmt then [10] else []
  {
    var ts := Lines(members, depth, fmt);
    FirstLine(members, depth, fmt);
    if |members| > 1 {
      MembersJoined(members[1..], depth, fmt);
      LaterLines(members, depth, fmt);
      Behind(ts[0], if fmt then [10] else [], Joined(ts[1..], if fmt then [44, 10] else [44]), if fmt then [10] else []);
    }
  }

  lemma FirstLine(members: seq<Member>, depth: nat, fmt: bool)
    requires members != [] && PrintableMembers(members)
    ensures MemberText(members[0], depth, fmt) == Lines(members, depth, fmt)[0]
  {
    TabsAre(depth);
  }

  lemma LaterLines(members: seq<Member>, depth: nat, fmt: bool)
    requires members != [] && PrintableMembers(members)
    ensures Lines(members, depth, fmt)[1..] == Lines(members[1..], depth, fmt)
  {
  }

  lemma Behind(a: Text, line: Text, b: Text, c: Text)
    ensures a + ([44] + (line + (b + c))) == a + ([44] + line) + b + c
  {
  }

  /** An object: its lines between braces, the closing one under the beginning of the line; an
      empty one has a line break as well, and one tab less. */
  lemma ObjectPrinted(members: seq<Member>, depth: nat, fmt: bool)
    requires Printable(Obj(members))
    ensures var line := if fmt then [10] else [];
            ValueText(Obj(members), depth, fmt) ==
              if members == [] then
                [123] + line + (if fmt && depth > 0 then Repeat(depth - 1, 9) else []) + [125]
              else
                [123] + line + (Joined(Lines(members, depth + 1, fmt), if fmt then [44, 10] else [44]) + line)
                + (if fmt then Repeat(depth, 9) else []) + [125]
  {
    TabsAre(depth);
    TabsAre(depth - 1);
    if members != [] { MembersJoined(members, depth + 1, fmt); }
  }
}
