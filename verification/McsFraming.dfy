/** What the wire format promises: packets written one after another are read back one by
    one, and an accepted packet is written back as the bytes it was read from. */
module McsFraming {
  import opened CText
  import opened Mcs

  /** Packets the reader can find again: checked, with a name exactly where the table has
      `@`, short enough and free of NULs, and with an `int` as error data. */
  predicate Framed(t: Table, p: Packet) {
    && Checked(t, p) && Sized(p)
    && (p.kind == ERR ==> p.dataSize == 4)
    && (!IsAnswer(p) ==>
          && p.dest.Some? == NamedDestination(t, p.kind, p.cmd)
          && (p.dest.Some? ==> |p.dest.value| <= NAME_SIZE && 0 !in p.dest.value))
  }

  /** What travels: pointers with nothing behind them and fields an answer does not carry
      come back blank. */
  function Carried(p: Packet): Packet {
    var data := if p.dataSize == 0 then None else p.data;
    if IsAnswer(p) then Packet(p.id, p.kind, 0, 0, None, None, p.dataSize, data)
    else p.(args := if p.nargs == 0 then None else p.args, data := data)
  }

  lemma DecodeHeader(t: Table, p: Packet, body: seq<byte>)
    ensures Decode(t, Header(p) + body) == DecodeKind(t, Blank(p.id, p.kind), body)
  {
    ReadLe32(p.id);
    var s := Header(p) + body;
    assert s[..4] == Le32(p.id) && s[5..] == body;
  }

  lemma DecodeWrittenData(q: Packet, p: Packet, rest: seq<byte>)
    requires Sized(p) && p.data.Some?
    ensures DecodeData(q, Le16(p.dataSize) + Bytes(p.data) + rest)
         == Got(q.(dataSize := p.dataSize, data := p.data), rest)
  {
    LittleEndian16(p.dataSize, []);
    var s := Le16(p.dataSize) + Bytes(p.data) + rest;
    assert s[..2] == Le16(p.dataSize);
    assert s[2..2 + p.dataSize] == p.data.value;
    assert s[2 + p.dataSize..] == rest;
  }

  lemma DecodeWrittenDest(t: Table, q: Packet, p: Packet, rest: seq<byte>)
    requires q.kind < COMMAND_TYPES && q.cmd < ListSize(t, q.kind) && q.dest == None
    requires p.dest.Some? == NamedDestination(t, q.kind, q.cmd)
    requires p.dest.Some? ==> |p.dest.value| <= NAME_SIZE && 0 !in p.dest.value
    ensures DecodeDest(t, q, DestField(p) + rest) == DecodeRaw(t, q.(dest := p.dest), rest)
  {
    var s := DestField(p) + rest;
    if p.dest.None? {
      assert s == rest;
      assert q.(dest := None) == q;
    } else {
      var name := p.dest.value;
      assert CString(name) == name && s[0] == |name|;
      assert s[1..1 + |name|] == name;
      assert s[1 + |name|..] == rest;
    }
  }

  /** A command: its index, arguments, destination and data. */
  lemma DecodeWrittenCommand(t: Table, p: Packet, rest: seq<byte>)
    requires Framed(t, p) && !IsAnswer(p)
    ensures DecodeKind(t, Blank(p.id, p.kind),
              Le16(p.cmd) + ((if p.nargs == 0 then [] else Bytes(p.args)) + (DestField(p) + (DataField(p) + rest))))
         == Got(Carried(p), rest)
  {
    var args := if p.nargs == 0 then [] else Bytes(p.args);
    var s2 := DataField(p) + rest;
    var s1 := DestField(p) + s2;
    var s := Le16(p.cmd) + (args + s1);
    LittleEndian16(p.cmd, []);
    assert s[..2] == Le16(p.cmd) && s[2..] == args + s1;
    var q := Blank(p.id, p.kind).(cmd := p.cmd);
    var q1 := q.(nargs := p.nargs, args := if p.nargs == 0 then None else p.args);
    assert (args + s1)[..p.nargs] == args && (args + s1)[p.nargs..] == s1;
    assert DecodeArgs(t, q, args + s1) == DecodeDest(t, q1, s1);
    DecodeWrittenDest(t, q1, p, s2);
    var q2 := q1.(dest := p.dest);
    if p.dataSize == 0 {
      assert s2 == rest;
    } else {
      DecodeWrittenData(q2, p, rest);
    }
  }

  /** One packet before any suffix. */
  lemma PacketRoundTrip(t: Table, p: Packet, rest: seq<byte>)
    requires Framed(t, p)
    ensures Decode(t, Image(p) + rest) == Got(Carried(p), rest)
  {
    var body := Image(p)[5..];
    assert Image(p) + rest == Header(p) + (body + rest);
    DecodeHeader(t, p, body + rest);
    if p.kind == ERR {
      assert body == Bytes(p.data);
      assert (body + rest)[..4] == p.data.value && (body + rest)[4..] == rest;
    } else if p.kind == OK_DATA {
      assert body == Le16(p.dataSize) + Bytes(p.data);
      DecodeWrittenData(Blank(p.id, p.kind), p, rest);
    } else if p.kind == OK {
      assert body == [] && body + rest == rest;
    } else {
      CommandBody(p, body, rest);
      DecodeWrittenCommand(t, p, rest);
    }
  }

  lemma CommandBody(p: Packet, body: seq<byte>, rest: seq<byte>)
    requires !IsAnswer(p) && body == Image(p)[5..]
    ensures body + rest == Le16(p.cmd) + ((if p.nargs == 0 then [] else Bytes(p.args)) + (DestField(p) + (DataField(p) + rest)))
  {
    Assemble(Le16(p.cmd), if p.nargs == 0 then [] else Bytes(p.args), DestField(p), DataField(p), rest);
  }

  // ----- streams of packets

  function Images(ps: seq<Packet>): seq<byte> {
    if ps == [] then [] else Image(ps[0]) + Images(ps[1..])
  }

  /** Read `n` packets in a row. */
  function DecodeMany(t: Table, s: seq<byte>, n: nat): Option<(seq<Packet>, seq<byte>)> {
    if n == 0 then Some(([], s))
    else
      match Decode(t, s)
      case Got(p, rest) =>
        (match DecodeMany(t, rest, n - 1)
         case Some((ps, end)) => Some(([p] + ps, end))
         case None => None)
      case _ => None
  }

  function CarriedAll(ps: seq<Packet>): seq<Packet> {
    seq(|ps|, i requires 0 <= i < |ps| => Carried(ps[i]))
  }

  /** Framing: whatever the table and the packets, the reader finds each packet again and
      leaves whatever follows the last one. */
  lemma {:induction false} StreamRoundTrip(t: Table, ps: seq<Packet>, suffix: seq<byte>)
    requires forall i | 0 <= i < |ps| :: Framed(t, ps[i])
    ensures DecodeMany(t, Images(ps) + suffix, |ps|) == Some((CarriedAll(ps), suffix))
  {
    if ps == [] {
      assert Images(ps) + suffix == suffix && CarriedAll(ps) == [];
    } else {
      var first, after := Image(ps[0]), Images(ps[1..]) + suffix;
      Associate(first, Images(ps[1..]), suffix);
      PacketRoundTrip(t, ps[0], after);
      StreamRoundTrip(t, ps[1..], suffix);
      DecodeManyMore(t, first + after, |ps|, Carried(ps[0]), after);
      CarriedMore(ps);
    }
  }

  lemma Associate(a: seq<byte>, b: seq<byte>, c: seq<byte>)
    ensures a + b + c == a + (b + c)
  {
  }

  lemma CarriedMore(ps: seq<Packet>)
    requires ps != []
    ensures CarriedAll(ps) == [Carried(ps[0])] + CarriedAll(ps[1..])
  {
  }

  lemma DecodeManyMore(t: Table, s: seq<byte>, n: nat, p: Packet, rest: seq<byte>)
    requires n > 0 && Decode(t, s) == Got(p, rest) && DecodeMany(t, rest, n - 1).Some?
    ensures var (ps, end) := DecodeMany(t, rest, n - 1).value;
            DecodeMany(t, s, n) == Some(([p] + ps, end))
  {
  }

  // ----- from bytes to bytes

  /** Accepted packets that the writer accepts too and writes in full. */
  predicate Rewritable(t: Table, p: Packet) {
    && (p.kind == OK_DATA ==> p.dataSize != 0)
    && (p.kind < COMMAND_TYPES && p.cmd < ListSize(t, p.kind) && RowOf(t, p.kind, p.cmd).raw ==> p.dataSize != 0)
    && (p.dest.Some? ==> 0 !in p.dest.value)
  }

  /** What the reader took apart, put together again. */
  function Consumed(p: Packet): seq<byte> {
    Header(p) + ConsumedBody(p)
  }

  function ConsumedBody(p: Packet): seq<byte> {
    if p.kind == ERR then Bytes(p.data)
    else if p.kind == OK_DATA then Le16(p.dataSize) + Bytes(p.data)
    else if p.kind == OK then []
    else Le16(p.cmd) + (Bytes(p.args) + (ReadDestField(p) + ReadDataField(p)))
  }

  function ReadDestField(p: Packet): seq<byte> {
    if p.dest.None? then [] else [|p.dest.value| % 256] + p.dest.value
  }

  function ReadDataField(p: Packet): seq<byte> {
    if p.data.None? then [] else Le16(p.dataSize) + p.data.value
  }

  lemma DataConsumed(q: Packet, s: seq<byte>)
    ensures match DecodeData(q, s)
            case Got(p, rest) =>
              && p == q.(dataSize := p.dataSize, data := p.data)
              && p.data.Some? && |p.data.value| == p.dataSize
              && s == Le16(p.dataSize) + p.data.value + rest
            case _ => true
  {
    if |s| >= 2 && |s| >= 2 + FromLe16(s[..2]) {
      LittleEndian16(0, s[..2]);
      var n := FromLe16(s[..2]);
      assert s == s[..2] + s[2..2 + n] + s[2 + n..];
    }
  }

  lemma RawConsumed(t: Table, q: Packet, s: seq<byte>)
    requires q.kind < COMMAND_TYPES && q.cmd < ListSize(t, q.kind) && q.data == None && q.dataSize == 0
    ensures match DecodeRaw(t, q, s)
            case Got(p, rest) =>
              && p == q.(dataSize := p.dataSize, data := p.data) && Sized(p.(args := None))
              && p.data.Some? == RowOf(t, q.kind, q.cmd).raw
              && (p.data.None? ==> p.dataSize == 0)
              && s == ReadDataField(p) + rest
            case _ => true
  {
    DataConsumed(q, s);
    if !RowOf(t, q.kind, q.cmd).raw { assert s == [] + s; }
  }

  lemma DestConsumed(t: Table, q: Packet, s: seq<byte>)
    requires q.kind < COMMAND_TYPES && q.cmd < ListSize(t, q.kind)
    requires q.data == None && q.dataSize == 0 && q.dest == None
    ensures match DecodeDest(t, q, s)
            case Got(p, rest) =>
              && p == q.(dest := p.dest, dataSize := p.dataSize, data := p.data) && Sized(p.(args := None))
              && p.data.Some? == RowOf(t, q.kind, q.cmd).raw && (p.data.None? ==> p.dataSize == 0)
              && (p.dest.Some? ==> |p.dest.value| <= NAME_SIZE)
              && s == ReadDestField(p) + (ReadDataField(p) + rest)
            case _ => true
  {
    if !NamedDestination(t, q.kind, q.cmd) {
      RawConsumed(t, q, s);
      PrependNothing(s);
    } else if |s| >= 1 && s[0] <= NAME_SIZE && |s| >= 1 + s[0] {
      var n: int := s[0];
      match DecodeRaw(t, q.(dest := Some(s[1..1 + n])), s[1 + n..]) {
        case Got(p, rest) => NameConsumed(t, q, s, n, p, rest);
        case _ =>
      }
    }
  }

  lemma NameConsumed(t: Table, q: Packet, s: seq<byte>, n: nat, p: Packet, rest: seq<byte>)
    requires q.kind < COMMAND_TYPES && q.cmd < ListSize(t, q.kind)
    requires q.data == None && q.dataSize == 0 && q.dest == None
    requires 1 + n <= |s| && n == s[0] && n <= NAME_SIZE
    requires DecodeRaw(t, q.(dest := Some(s[1..1 + n])), s[1 + n..]) == Got(p, rest)
    ensures p == q.(dest := p.dest, dataSize := p.dataSize, data := p.data) && Sized(p.(args := None))
    ensures p.data.Some? == RowOf(t, q.kind, q.cmd).raw && (p.data.None? ==> p.dataSize == 0)
    ensures p.dest == Some(s[1..1 + n])
    ensures s == ReadDestField(p) + (ReadDataField(p) + rest)
  {
    var named := q.(dest := Some(s[1..1 + n]));
    RawConsumed(t, named, s[1 + n..]);
    DestSplit(s, n, p);
  }

  lemma PrependNothing(s: seq<byte>)
    ensures s == [] + s
  {
  }

  lemma DestSplit(s: seq<byte>, n: nat, p: Packet)
    requires 1 + n <= |s| && n == s[0] && p.dest == Some(s[1..1 + n])
    ensures s == ReadDestField(p) + s[1 + n..]
  {
  }

  lemma ArgsConsumed(t: Table, q: Packet, s: seq<byte>)
    requires q.kind < COMMAND_TYPES && q == Blank(q.id, q.kind).(cmd := q.cmd)
    ensures match DecodeArgs(t, q, s)
            case Got(p, rest) =>
              && p.kind == q.kind && p.id == q.id && p.cmd == q.cmd && Sized(p)
              && p.cmd < ListSize(t, p.kind) && p.nargs == RowOf(t, p.kind, p.cmd).nargs
              && (p.nargs == 0 <==> p.args.None?)
              && p.data.Some? == RowOf(t, q.kind, q.cmd).raw && (p.data.None? ==> p.dataSize == 0)
              && (p.dest.Some? ==> |p.dest.value| <= NAME_SIZE)
              && s == Bytes(p.args) + (ReadDestField(p) + (ReadDataField(p) + rest))
            case _ => true
  {
    if q.cmd < ListSize(t, q.kind) && |s| >= RowOf(t, q.kind, q.cmd).nargs {
      var n := RowOf(t, q.kind, q.cmd).nargs;
      var q1 := q.(nargs := n, args := if n == 0 then None else Some(s[..n]));
      DestConsumed(t, q1, s[n..]);
      assert s == s[..n] + s[n..];
    }
  }

  /** Facts about every packet the reader accepts. */
  predicate Accepted(t: Table, p: Packet) {
    && Sized(p)
    && (IsAnswer(p) ==> p.nargs == 0 && p.args.None? && p.dest.None?)
    && (p.kind == OK ==> p.dataSize == 0 && p.data.None?)
    && (p.kind == ERR ==> p.dataSize == 4 && p.data.Some?)
    && (p.kind == OK_DATA ==> p.data.Some?)
    && (!IsAnswer(p) ==>
          && p.kind < COMMAND_TYPES && p.cmd < ListSize(t, p.kind) && p.nargs == RowOf(t, p.kind, p.cmd).nargs
          && (p.nargs == 0 <==> p.args.None?)
          && p.data.Some? == RowOf(t, p.kind, p.cmd).raw && (p.data.None? ==> p.dataSize == 0)
          && (p.dest.Some? ==> |p.dest.value| <= NAME_SIZE))
  }

  lemma CommandConsumed(t: Table, id: uint, kind: byte, s: seq<byte>)
    requires kind < COMMAND_TYPES
    ensures match DecodeKind(t, Blank(id, kind), s)
            case Got(p, rest) =>
              p.id == id && p.kind == kind && Accepted(t, p) && s == ConsumedBody(p) + rest
            case _ => true
  {
    if |s| >= 2 {
      LittleEndian16(0, s[..2]);
      var q := Blank(id, kind).(cmd := FromLe16(s[..2]));
      ArgsConsumed(t, q, s[2..]);
      match DecodeArgs(t, q, s[2..])
      case Got(p, rest) =>
        assert s == s[..2] + s[2..];
        Assemble(Le16(p.cmd), Bytes(p.args), ReadDestField(p), ReadDataField(p), rest);
      case _ =>
    }
  }

  lemma Assemble(a: seq<byte>, b: seq<byte>, c: seq<byte>, d: seq<byte>, rest: seq<byte>)
    ensures a + (b + (c + d)) + rest == a + (b + (c + (d + rest)))
  {
  }

  lemma KindConsumed(t: Table, id: uint, kind: byte, s: seq<byte>)
    ensures match DecodeKind(t, Blank(id, kind), s)
            case Got(p, rest) =>
              p.id == id && p.kind == kind && Accepted(t, p) && s == ConsumedBody(p) + rest
            case _ => true
  {
    var q := Blank(id, kind);
    if kind < COMMAND_TYPES {
      CommandConsumed(t, id, kind, s);
    } else if kind == ERR {
      if |s| >= 4 { assert s == s[..4] + s[4..]; }
    } else if kind == OK_DATA {
      DataConsumed(q, s);
    } else if kind == OK {
      assert s == [] + s;
    }
  }

  lemma ReadConsumes(t: Table, s: seq<byte>)
    ensures match Decode(t, s)
            case Got(p, rest) => Accepted(t, p) && s == Consumed(p) + rest
            case _ => true
  {
    if |s| >= 5 {
      KindConsumed(t, FromLe32(s[..4]), s[4], s[5..]);
      WriteLe32(s[..4]);
      assert s == s[..4] + [s[4]] + s[5..];
    }
  }

  /** Whatever the reader accepts has its blocks behind it. */
  lemma ReaderBacks(t: Table, s: seq<byte>)
    requires Decode(t, s).Got?
    ensures Backed(Decode(t, s).pkt)
  {
    ReadConsumes(t, s);
  }

  lemma RewrittenDest(p: Packet)
    requires p.dest.Some? ==> |p.dest.value| <= NAME_SIZE
    ensures (p.dest.Some? ==> 0 !in p.dest.value) ==> DestField(p) == ReadDestField(p)
    ensures !(p.dest.Some? ==> 0 !in p.dest.value) ==> |DestField(p)| < |ReadDestField(p)|
  {
    if p.dest.Some? && 0 in p.dest.value {
      assert CString(p.dest.value) != p.dest.value;
    }
  }

  /** Conversely, what was accepted is written back byte for byte exactly when it has the
      data its type calls for and no NUL in its destination. */
  lemma AcceptedRewrites(t: Table, s: seq<byte>)
    requires Decode(t, s).Got?
    ensures var Got(p, rest) := Decode(t, s);
            && |rest| <= |s| && rest == s[|s| - |rest|..]
            && (Encode(t, p) == Some(s[..|s| - |rest|]) <==> Rewritable(t, p))
  {
    ReadConsumes(t, s);
    var Got(p, rest) := Decode(t, s);
    assert s[..|s| - |rest|] == Consumed(p);
    RewrittenDest(p);
    if Rewritable(t, p) {
      assert Checked(t, p);
      assert DataField(p) == ReadDataField(p) || IsAnswer(p);
    } else if Checked(t, p) {
      assert !IsAnswer(p) && |Image(p)| < |Consumed(p)|;
    }
  }

  /** An answer that announces data of length zero is read, but not written again. */
  lemma EmptyAnswerIsLost(t: Table, id: uint)
    ensures var s := Le32(id) + [OK_DATA] + Le16(0);
            var p := Blank(id, OK_DATA).(data := Some([]));
            Decode(t, s) == Got(p, []) && Encode(t, p) == None
  {
    var s := Le32(id) + [OK_DATA] + Le16(0);
    ReadLe32(id);
    assert s[..4] == Le32(id) && s[4] == OK_DATA && s[5..] == Le16(0);
    assert s[5..][..2] == Le16(0) && s[5..][2..2] == [] && s[5..][2..] == [];
  }
}
