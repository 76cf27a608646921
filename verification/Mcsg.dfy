/** `mcsg.c`: from the JSON list of commands to the enumeration and the command tables, and how
    `mcs_create_packet` takes an enumeration value apart again. */
module Mcsg {
  import opened CText
  import opened Mcs

  /** What the generator reads of a command: its name and its type. */
  datatype Command = Command(name: Text, typeName: Text)

  datatype Enum = Enum(name: Text, value: nat)

  datatype CommandList = CommandList(
    messages: seq<Command>, states: seq<Command>, payloads: seq<Command>, enums: seq<Enum>)

  const MESSAGE_DEC := 0
  const STATE_DEC := 65536
  const PAYLOAD_DEC := 131072

  const STATE_NAME: Text := [115, 116, 97, 116, 101]
  const PAYLOAD_NAME: Text := [112, 97, 121, 108, 111, 97, 100]

  const UNDERSCORE: Ch := 95
  const MESSAGE_PREFIX: Text := [77, 67, 83, 95, 77, 69, 83, 83, 65, 71, 69, 95]
  const STATE_PREFIX: Text := [77, 67, 83, 95, 83, 84, 65, 84, 69, 95]
  const PAYLOAD_PREFIX: Text := [77, 67, 83, 95, 80, 65, 89, 76, 79, 65, 68, 95]

  // ----- what is generated

  /** `mcsg_type_identifier`: anything it does not know is a message. */
  function TypeOf(c: Command): byte {
    if c.typeName == STATE_NAME then STATE
    else if c.typeName == PAYLOAD_NAME then PAYLOAD
    else MESSAGE
  }

  function Base(kind: byte): nat {
    if kind == STATE then STATE_DEC else if kind == PAYLOAD then PAYLOAD_DEC else MESSAGE_DEC
  }

  function Prefix(kind: byte): Text {
    if kind == STATE then STATE_PREFIX else if kind == PAYLOAD then PAYLOAD_PREFIX else MESSAGE_PREFIX
  }

  function ToUpper(c: Ch): Ch {
    if 97 <= c <= 122 then c - 32 else c
  }

  function Upper(s: Text): (r: Text)
    ensures |r| == |s| && forall i | 0 <= i < |s| :: r[i] == ToUpper(s[i])
  {
    seq(|s|, i requires 0 <= i < |s| => ToUpper(s[i]))
  }

  /** The table of one type: its commands in order. */
  function OfType(cs: seq<Command>, kind: byte): seq<Command> {
    if cs == [] then []
    else OfType(cs[..|cs| - 1], kind) + if TypeOf(cs[|cs| - 1]) == kind then [cs[|cs| - 1]] else []
  }

  /** The enumeration entry of command `j`. */
  function EnumOf(cs: seq<Command>, j: nat): Enum
    requires j < |cs|
  {
    var kind := TypeOf(cs[j]);
    Enum(Prefix(kind) + Upper(cs[j].name), Base(kind) + |OfType(cs[..j], kind)|)
  }

  // ----- the generator loops

  /** `str_to_upper`. */
  method StrToUpper(s: Text) returns (r: Text)
    ensures r == Upper(s)
    ensures |r| == |s| && forall i | 0 <= i < |s| :: if 97 <= s[i] <= 122 then r[i] == s[i] - 32 else r[i] == s[i]
  {
    r := [];
    var i := 0;
    while i < |s|
      invariant 0 <= i <= |s| && |r| == i && forall j | 0 <= j < i :: r[j] == ToUpper(s[j])
    {
      r := r + [ToUpper(s[i])];
      i := i + 1;
    }
  }

  /** `mcsg_commands_reader`. */
  method CommandsReader(cs: seq<Command>) returns (l: CommandList)
    requires cs != []
    ensures l.messages == OfType(cs, MESSAGE) && l.states == OfType(cs, STATE) && l.payloads == OfType(cs, PAYLOAD)
    ensures |l.enums| == |cs| && forall j | 0 <= j < |cs| :: l.enums[j] == EnumOf(cs, j)
  {
    l := CommandList([], [], [], []);
    var messages, states, payloads, i := 0, 0, 0, 0;
    while i < |cs|
      invariant 0 <= i <= |cs| && |l.enums| == i
      invariant l.messages == OfType(cs[..i], MESSAGE) && messages == |l.messages|
      invariant l.states == OfType(cs[..i], STATE) && states == |l.states|
      invariant l.payloads == OfType(cs[..i], PAYLOAD) && payloads == |l.payloads|
      invariant forall j | 0 <= j < i :: l.enums[j] == EnumOf(cs, j)
    {
      assert cs[..i + 1][..i] == cs[..i];
      l, messages, states, payloads := AddCommand(l, cs[i], messages, states, payloads);
      i := i + 1;
    }
    assert cs[..i] == cs;
  }

  /** One turn: the command joins the list of its type, and the enumeration. */
  method AddCommand(l: CommandList, c: Command, messages: nat, states: nat, payloads: nat)
    returns (l1: CommandList, messages1: nat, states1: nat, payloads1: nat)
    requires messages == |l.messages| && states == |l.states| && payloads == |l.payloads|
    ensures messages1 == |l1.messages| && states1 == |l1.states| && payloads1 == |l1.payloads|
    ensures l1.messages == l.messages + (if TypeOf(c) == MESSAGE then [c] else [])
    ensures l1.states == l.states + (if TypeOf(c) == STATE then [c] else [])
    ensures l1.payloads == l.payloads + (if TypeOf(c) == PAYLOAD then [c] else [])
    ensures var count := if TypeOf(c) == STATE then states else if TypeOf(c) == PAYLOAD then payloads else messages;
            l1.enums == l.enums + [Enum(Prefix(TypeOf(c)) + Upper(c.name), Base(TypeOf(c)) + count)]
  {
    l1, messages1, states1, payloads1 := l, messages, states, payloads;
    var name := StrToUpper(c.name);
    match TypeOf(c) {
      case 1 =>
        l1 := l.(states := l.states + [c], enums := l.enums + [Enum(STATE_PREFIX + name, STATE_DEC + states)]);
        states1 := states + 1;
      case 2 =>
        l1 := l.(payloads := l.payloads + [c], enums := l.enums + [Enum(PAYLOAD_PREFIX + name, PAYLOAD_DEC + payloads)]);
        payloads1 := payloads + 1;
      case _ =>
        l1 := l.(messages := l.messages + [c], enums := l.enums + [Enum(MESSAGE_PREFIX + name, MESSAGE_DEC + messages)]);
        messages1 := messages + 1;
    }
  }

  /** The number `mcsg_commands_translator` prints after a table, counted while it walks it. */
  method TableSize(list: seq<Command>) returns (size: nat)
    requires list != []
    ensures size == |list|
  {
    var rest := list;
    size := 1;
    while |rest| > 1
      invariant rest != [] && size + |rest| == |list| + 1
    {
      rest := rest[1..];
      size := size + 1;
    }
  }

  /** The name `mcsg_java_translator` prints: what follows the second underscore. */
  method JavaName(name: Text) returns (r: Text)
    ensures r == AfterUnderscores(name, 2)
  {
    r := [];
    var understroke, i := 0, 0;
    assert name[0..] == name;
    while i < |name|
      invariant 0 <= i <= |name| && 0 <= understroke
      invariant AfterUnderscores(name, 2) == r + AfterUnderscores(name[i..], if understroke >= 2 then 0 else 2 - understroke)
    {
      assert name[i..][1..] == name[i + 1..];
      if understroke >= 2 { r := r + [name[i]]; }
      if name[i] == UNDERSCORE { understroke := understroke + 1; }
      i := i + 1;
    }
  }

  /** The text behind the first `n` underscores. */
  function AfterUnderscores(s: Text, n: nat): Text {
    if s == [] || n == 0 then s
    else AfterUnderscores(s[1..], if s[0] == UNDERSCORE then n - 1 else n)
  }

  // ----- the tables and the run time agree

  /** `mcs_create_packet`: `(cmd & 0xF0000) >> 16` and `cmd & 0xFFFF`. */
  function SplitType(value: nat): nat {
    value / 0x1_0000 % 16
  }

  function SplitIndex(value: nat): nat {
    value % 0x1_0000
  }

  lemma {:induction false} OfTypePrefix(cs: seq<Command>, j: nat, kind: byte)
    requires j < |cs|
    ensures |OfType(cs[..j], kind)| <= |OfType(cs, kind)|
    ensures TypeOf(cs[j]) == kind ==>
              |OfType(cs[..j], kind)| < |OfType(cs, kind)| && OfType(cs, kind)[|OfType(cs[..j], kind)|] == cs[j]
  {
    if j < |cs| - 1 {
      var init := cs[..|cs| - 1];
      assert init[..j] == cs[..j];
      OfTypePrefix(init, j, kind);
    }
  }

  /** Fewer than 65536 commands of each type. */
  predicate Fits(cs: seq<Command>) {
    |OfType(cs, MESSAGE)| < 0x1_0000 && |OfType(cs, STATE)| < 0x1_0000 && |OfType(cs, PAYLOAD)| < 0x1_0000
  }

  /** The value in the enumeration leads back to the command's own row: the right table, and the
      right place in it. */
  lemma SplitFindsRow(cs: seq<Command>, j: nat)
    requires j < |cs| && Fits(cs)
    ensures var value := EnumOf(cs, j).value;
            && SplitType(value) == TypeOf(cs[j])
            && SplitIndex(value) < |OfType(cs, TypeOf(cs[j]))|
            && OfType(cs, TypeOf(cs[j]))[SplitIndex(value)] == cs[j]
  {
    OfTypePrefix(cs, j, TypeOf(cs[j]));
    SplitValue(TypeOf(cs[j]), |OfType(cs[..j], TypeOf(cs[j]))|);
  }

  lemma SplitValue(kind: byte, i: nat)
    requires kind <= PAYLOAD && i < 0x1_0000
    ensures SplitType(Base(kind) + i) == kind && SplitIndex(Base(kind) + i) == i
  {
  }

  /** No two commands share a value. */
  lemma EnumsDistinct(cs: seq<Command>, i: nat, j: nat)
    requires i < j < |cs| && Fits(cs)
    ensures EnumOf(cs, i).value != EnumOf(cs, j).value
  {
    OfTypePrefix(cs, i, TypeOf(cs[i]));
    OfTypePrefix(cs, j, TypeOf(cs[j]));
    if TypeOf(cs[i]) == TypeOf(cs[j]) {
      OfTypePrefix(cs[..j], i, TypeOf(cs[i]));
      assert cs[..j][..i] == cs[..i];
    }
  }

  /** The sizes printed are those of the tables, and every command is in exactly one. */
  lemma {:induction false} TablesCover(cs: seq<Command>)
    ensures |OfType(cs, MESSAGE)| + |OfType(cs, STATE)| + |OfType(cs, PAYLOAD)| == |cs|
  {
    if cs != [] { TablesCover(cs[..|cs| - 1]); }
  }

  /** Each table has the commands whose type is named so, and the messages all the others. */
  lemma {:induction false} TablesByName(cs: seq<Command>)
    ensures forall c | c in cs :: c in OfType(cs, STATE) <==> c.typeName == [115, 116, 97, 116, 101]
    ensures forall c | c in cs :: c in OfType(cs, PAYLOAD) <==> c.typeName == [112, 97, 121, 108, 111, 97, 100]
    ensures forall c | c in cs :: c in OfType(cs, MESSAGE) <==> c !in OfType(cs, STATE) && c !in OfType(cs, PAYLOAD)
    ensures forall kind, c | c in OfType(cs, kind) :: c in cs
  {
    if cs != [] {
      var init := cs[..|cs| - 1];
      TablesByName(init);
      forall kind, c ensures c in OfType(cs, kind) <==> c in OfType(init, kind) || (c == cs[|cs| - 1] && TypeOf(c) == kind) {
      }
      assert forall c :: c in cs <==> c in init || c == cs[|cs| - 1];
    }
  }

  /** What the enumeration calls a command: by its type, and its name in capital letters. */
  lemma EnumNames(cs: seq<Command>, j: nat)
    requires j < |cs|
    ensures EnumOf(cs, j).name ==
              [77, 67, 83, 95]
              + (if cs[j].typeName == [115, 116, 97, 116, 101] then [83, 84, 65, 84, 69, 95]
                 else if cs[j].typeName == [112, 97, 121, 108, 111, 97, 100] then [80, 65, 89, 76, 79, 65, 68, 95]
                 else [77, 69, 83, 83, 65, 71, 69, 95])
              + Upper(cs[j].name)
  {
    assert STATE_PREFIX == [77, 67, 83, 95] + [83, 84, 65, 84, 69, 95];
    assert PAYLOAD_PREFIX == [77, 67, 83, 95] + [80, 65, 89, 76, 79, 65, 68, 95];
    assert MESSAGE_PREFIX == [77, 67, 83, 95] + [77, 69, 83, 83, 65, 71, 69, 95];
  }

  /** The Java name of a command is its name with small letters made capital. */
  lemma JavaNameIsUpper(cs: seq<Command>, j: nat)
    requires j < |cs|
    ensures var name, java := cs[j].name, AfterUnderscores(EnumOf(cs, j).name, 2);
            && java == Upper(name) && |java| == |name|
            && forall i | 0 <= i < |name| :: if 97 <= name[i] <= 122 then java[i] == name[i] - 32 else java[i] == name[i]
  {
    StripPrefix(TypeOf(cs[j]), Upper(cs[j].name));
  }

  lemma StripPrefix(kind: byte, s: Text)
    ensures AfterUnderscores(Prefix(kind) + s, 2) == s
  {
    var p := Prefix(kind);
    var mcs, word := [77, 67, 83], p[4..|p| - 1];
    var rest := word + [UNDERSCORE] + s;
    assert p == mcs + [UNDERSCORE] + word + [UNDERSCORE];
    assert p + s == mcs + [UNDERSCORE] + rest;
    SkipWord(mcs, rest, 2);
    SkipWord(word, s, 1);
  }

  lemma {:induction false} SkipWord(w: Text, s: Text, n: nat)
    requires n >= 1 && UNDERSCORE !in w
    ensures AfterUnderscores(w + [UNDERSCORE] + s, n) == AfterUnderscores(s, n - 1)
  {
    var t := w + [UNDERSCORE] + s;
    if w == [] {
      assert t[1..] == s;
    } else {
      assert t[1..] == w[1..] + [UNDERSCORE] + s;
      SkipWord(w[1..], s, n);
    }
  }

  // ----- and the other way round

  function OrBit(n: nat, bit: nat): nat
    requires bit > 0
  {
    if n / bit % 2 == 1 then n else n + bit
  }

  /** `mcs_command`: `(type << 2) | cmd` for the three command types. */
  function Recombine(kind: nat, cmd: nat): nat {
    if kind == 1 then OrBit(cmd, 4) else if kind == 2 then OrBit(cmd, 8) else cmd
  }

  /** Putting type and index together again gives the enumeration value back for messages, and
      for messages only. */
  lemma RecombinesMessagesOnly(cs: seq<Command>, j: nat)
    requires j < |cs| && Fits(cs)
    ensures var value := EnumOf(cs, j).value;
            Recombine(SplitType(value), SplitIndex(value)) == value <==> TypeOf(cs[j]) == MESSAGE
  {
    OfTypePrefix(cs, j, TypeOf(cs[j]));
    SplitValue(TypeOf(cs[j]), |OfType(cs[..j], TypeOf(cs[j]))|);
  }

  /** The first state command already comes back as another value. */
  lemma StateLost(name: Text)
    ensures var value := EnumOf([Command(name, STATE_NAME)], 0).value;
            value == STATE_DEC && Recombine(SplitType(value), SplitIndex(value)) == 4
  {
    assert OfType([Command(name, STATE_NAME)][..0], STATE) == [];
  }
}
