/** The wire format byte by byte: where each field of a packet stands in what is written, and
    what is made of each byte that is read. */
module McsBytes {
  import opened CText
  import opened Mcs

  /** Two bytes, the low one first. */
  function Word(s: seq<byte>, i: nat): (n: ushort)
    requires i + 2 <= |s|
  {
    var low: int, high: int := s[i], s[i + 1];
    low + 256 * high
  }

  /** Four bytes, the lowest first. */
  function LongWord(s: seq<byte>, i: nat): (n: uint)
    requires i + 4 <= |s|
  {
    var b0: int, b1: int, b2: int, b3: int := s[i], s[i + 1], s[i + 2], s[i + 3];
    b0 + 0x100 * b1 + 0x1_0000 * b2 + 0x100_0000 * b3
  }

  /** The table that each type has its rows in, and the rows with the destination in the packet:
      messages whose destination begins with an at sign. */
  lemma TableRows(t: Table, kind: byte, cmd: nat)
    ensures ListSize(t, 0) == |t.messages| && ListSize(t, 1) == |t.states| && ListSize(t, 2) == |t.payloads|
    ensures cmd < |t.messages| ==> RowOf(t, 0, cmd) == t.messages[cmd].row
    ensures cmd < |t.states| ==> RowOf(t, 1, cmd) == t.states[cmd]
    ensures cmd < |t.payloads| ==> RowOf(t, 2, cmd) == t.payloads[cmd]
    ensures NamedDestination(t, kind, cmd) <==>
              && kind == 0 && cmd < |t.messages|
              && match t.messages[cmd].destination case None => false case Some(d) => |d| > 0 && d[0] == 64
  {
  }

  // ----- what is written

  lemma IdBytes(n: uint)
    ensures var b := Le32(n);
            |b| == 4 && b[0] == n % 256 && b[1] == n / 0x100 % 256 && b[2] == n / 0x1_0000 % 256 && b[3] == n / 0x100_0000
  {
    var low, high := n % 0x1_0000, n / 0x1_0000;
    assert n == low + 0x1_0000 * high;
    assert low % 256 == n % 256 && low / 256 == n / 0x100 % 256;
    assert high / 256 == n / 0x100_0000;
  }

  /** Every image begins with the id, its lowest byte first, and the type. */
  lemma HeaderWritten(p: Packet)
    ensures var b := Image(p);
            && |b| >= 5 && b[4] == p.kind
            && b[0] == p.id % 256 && b[1] == p.id / 0x100 % 256 && b[2] == p.id / 0x1_0000 % 256 && b[3] == p.id / 0x100_0000
  {
    IdBytes(p.id);
  }

  /** Behind it an answer has nothing, the error code, or the size, low byte first, and the data. */
  lemma AnswerWritten(p: Packet)
    requires IsAnswer(p)
    ensures var b := Image(p);
            && |b| >= 5
            && match p.kind
               case 253 => |b| == 5
               case 254 =>
                 |b| == 7 + |Bytes(p.data)| && b[5] == p.dataSize % 256 && b[6] == p.dataSize / 256 && b[7..] == Bytes(p.data)
               case _ => b[5..] == Bytes(p.data)
  {
    IdBytes(p.id);
  }

  /** And a command has its index, low byte first, its arguments, the length and the characters of
      its destination, and, low byte first, the size of its data and the data, if it has them. */
  lemma CommandWritten(p: Packet)
    requires !IsAnswer(p) && Sized(p) && (p.nargs != 0 ==> p.args.Some?) && (p.dataSize != 0 ==> p.data.Some?)
    ensures var b, name := Image(p), CString(Bytes(p.dest));
            var d := 7 + p.nargs;
            var e := if p.dest.None? then d else d + 1 + |name|;
            && |b| == e + (if p.dataSize == 0 then 0 else 2 + p.dataSize)
            && b[5] == p.cmd % 256 && b[6] == p.cmd / 256
            && (p.nargs != 0 ==> b[7..d] == p.args.value)
            && (p.dest.Some? ==> b[d] == |name| % 256 && b[d + 1..e] == name)
            && (p.dataSize != 0 ==>
                  b[e] == p.dataSize % 256 && b[e + 1] == p.dataSize / 256 && b[e + 2..] == p.data.value)
  {
    var b, d := Image(p), 7 + p.nargs;
    var e := FieldsWritten(p);
    DestWritten(p, b, d, e);
    DataWritten(p, b, e);
  }

  lemma FieldsWritten(p: Packet) returns (e: nat)
    requires !IsAnswer(p) && Sized(p) && (p.nargs != 0 ==> p.args.Some?)
    ensures var b, d := Image(p), 7 + p.nargs;
            && d <= e <= |b| && b[5] == p.cmd % 256 && b[6] == p.cmd / 256 && (p.nargs != 0 ==> b[7..d] == p.args.value)
            && b[d..e] == DestField(p) && b[e..] == DataField(p)
  {
    IdBytes(p.id);
    var args := if p.nargs == 0 then [] else Bytes(p.args);
    Pieces(Header(p), Le16(p.cmd), args, DestField(p), DataField(p));
    e := 7 + |args| + |DestField(p)|;
  }

  lemma DestWritten(p: Packet, b: seq<byte>, d: nat, e: nat)
    requires d <= e <= |b| && b[d..e] == DestField(p)
    ensures var name := CString(Bytes(p.dest));
            && e == (if p.dest.None? then d else d + 1 + |name|)
            && (p.dest.Some? ==> b[d] == |name| % 256 && b[d + 1..e] == name)
  {
    if p.dest.Some? { Behind(b, d, e, [|CString(p.dest.value)| % 256], CString(p.dest.value)); }
  }

  lemma DataWritten(p: Packet, b: seq<byte>, e: nat)
    requires e <= |b| && b[e..] == DataField(p) && Sized(p) && (p.dataSize != 0 ==> p.data.Some?)
    ensures |b| == e + (if p.dataSize == 0 then 0 else 2 + p.dataSize)
    ensures p.dataSize != 0 ==>
              b[e] == p.dataSize % 256 && b[e + 1] == p.dataSize / 256 && b[e + 2..] == p.data.value
  {
    assert b[e..|b|] == b[e..];
    if p.dataSize != 0 { Behind(b, e, |b|, Le16(p.dataSize), p.data.value); }
  }

  lemma Behind(b: seq<byte>, i: nat, e: nat, x: seq<byte>, y: seq<byte>)
    requires i <= e <= |b| && b[i..e] == x + y
    ensures e == i + |x| + |y| && b[i + |x|..e] == y && forall k | 0 <= k < |x| :: b[i + k] == x[k]
  {
    assert b[i + |x|..e] == b[i..e][|x|..];
    assert forall k | 0 <= k < |x| :: b[i + k] == b[i..e][k];
  }

  lemma Pieces(h: seq<byte>, c: seq<byte>, a: seq<byte>, d: seq<byte>, e: seq<byte>)
    requires |h| == 5 && |c| == 2
    ensures var b := h + (c + (a + (d + e)));
            var k := 7 + |a|;
            && |b| == k + |d| + |e| && b[5] == c[0] && b[6] == c[1]
            && b[7..k] == a && b[k..k + |d|] == d && b[k + |d|..] == e
  {
  }

  /** What is not written at all: an answer with arguments, without the data or with data it must
      not have, a command that the table does not have or has differently, and null pointers
      where something is to be sent. */
  lemma NotWritten(t: Table, p: Packet)
    ensures Encode(t, p).None? <==>
              || (p.kind in {OK, OK_DATA, ERR} && p.nargs != 0)
              || (p.kind == OK && p.dataSize != 0) || (p.kind == OK_DATA && p.dataSize == 0)
              || 3 <= p.kind < 253
              || (p.kind == MESSAGE && p.cmd >= |t.messages|)
              || (p.kind == STATE && p.cmd >= |t.states|) || (p.kind == PAYLOAD && p.cmd >= |t.payloads|)
              || (p.kind < 3 && p.cmd < ListSize(t, p.kind) &&
                    (RowOf(t, p.kind, p.cmd).nargs != p.nargs || RowOf(t, p.kind, p.cmd).raw != (p.dataSize > 0)))
              || (p.nargs > 0 && p.args == None) || (p.dataSize > 0 && p.data == None)
  {
  }

  // ----- what is read

  lemma LongWordRead(s: seq<byte>)
    requires |s| >= 4
    ensures FromLe32(s[..4]) == LongWord(s, 0)
  {
    var b := s[..4];
    assert b[..2][0] == s[0] && b[..2][1] == s[1] && b[2..][0] == s[2] && b[2..][1] == s[3];
  }

  lemma WordRead(s: seq<byte>, i: nat)
    requires i + 2 <= |s|
    ensures FromLe16(s[i..][..2]) == Word(s, i)
  {
    assert s[i..][..2][0] == s[i] && s[i..][..2][1] == s[i + 1];
  }

  /** What the data of a packet is made of, from byte `i` on. */
  lemma DataRead(p: Packet, s: seq<byte>, i: nat)
    requires i <= |s|
    ensures DecodeData(p, s[i..]) ==
              if |s| < i + 2 || |s| < i + 2 + Word(s, i) then Rejected(p.id, [])
              else
                var e := i + 2 + Word(s, i);
                Got(p.(dataSize := Word(s, i), data := Some(s[i + 2..e])), s[e..])
  {
    if i + 2 <= |s| {
      WordRead(s, i);
      var n := Word(s, i);
      if i + 2 + n <= |s| {
        assert s[i..][2..2 + n] == s[i + 2..i + 2 + n] && s[i..][2 + n..] == s[i + 2 + n..];
      }
    }
  }

  /** Without four bytes there is no packet; else the id is those four, the lowest first, whatever
      becomes of the rest, and the type is the next one. */
  lemma HeaderRead(t: Table, s: seq<byte>)
    ensures Decode(t, s).NoPacket? <==> |s| < 4
    ensures Decode(t, s).Rejected? ==> Decode(t, s).id == LongWord(s, 0)
    ensures Decode(t, s).Got? ==> |s| >= 5 && Decode(t, s).pkt.id == LongWord(s, 0) && Decode(t, s).pkt.kind == s[4]
  {
    if |s| >= 4 { LongWordRead(s); }
  }

  /** An answer, and a type that there is not. */
  lemma AnswerRead(t: Table, s: seq<byte>)
    requires |s| >= 5 && s[4] >= 3
    ensures var id := LongWord(s, 0);
            Decode(t, s) ==
              match s[4]
              case 253 => Got(Packet(id, 253, 0, 0, None, None, 0, None), s[5..])
              case 254 =>
                if |s| < 7 || |s| < 7 + Word(s, 5) then Rejected(id, [])
                else
                  var e := 7 + Word(s, 5);
                  Got(Packet(id, 254, 0, 0, None, None, Word(s, 5), Some(s[7..e])), s[e..])
              case 255 =>
                if |s| < 9 then Rejected(id, []) else Got(Packet(id, 255, 0, 0, None, None, 4, Some(s[5..9])), s[9..])
              case _ => Rejected(id, s[5..])
  {
    LongWordRead(s);
    DataRead(Blank(LongWord(s, 0), s[4]), s, 5);
    if |s| >= 9 { assert s[5..][..4] == s[5..9] && s[5..][4..] == s[9..]; }
  }

  /** The data of a command, from byte `e` on, if its row has data. */
  function FromData(t: Table, q: Packet, s: seq<byte>, e: nat): Read
    requires e <= |s| && q.kind < 3 && q.cmd < ListSize(t, q.kind)
  {
    if !RowOf(t, q.kind, q.cmd).raw then Got(q, s[e..])
    else if |s| < e + 2 || |s| < e + 2 + Word(s, e) then Rejected(q.id, [])
    else
      var end := e + 2 + Word(s, e);
      Got(q.(dataSize := Word(s, e), data := Some(s[e + 2..end])), s[end..])
  }

  /** The destination, from byte `d` on, if its row has one in the packet: at most ten characters
      behind their number. */
  function FromDestination(t: Table, q: Packet, s: seq<byte>, d: nat): Read
    requires d <= |s| && q.kind < 3 && q.cmd < ListSize(t, q.kind)
  {
    if !NamedDestination(t, q.kind, q.cmd) then FromData(t, q, s, d)
    else if |s| < d + 1 then Rejected(q.id, [])
    else if s[d] > 10 then Rejected(q.id, s[d + 1..])
    else
      var e := d + 1 + s[d];
      if |s| < e then Rejected(q.id, []) else FromData(t, q.(dest := Some(s[d + 1..e])), s, e)
  }

  /** A command: refused without an index in the table or with fewer bytes than its row calls for.
      Else its arguments stand behind the index, and its destination and data behind those. */
  lemma CommandRead(t: Table, s: seq<byte>)
    requires |s| >= 5 && s[4] < 3
    ensures var id := LongWord(s, 0);
            if |s| < 7 then Decode(t, s) == Rejected(id, [])
            else if Word(s, 5) >= ListSize(t, s[4]) then Decode(t, s) == Rejected(id, s[7..])
            else
              var n := RowOf(t, s[4], Word(s, 5)).nargs;
              if |s| < 7 + n then Decode(t, s) == Rejected(id, [])
              else
                var args := if n == 0 then None else Some(s[7..7 + n]);
                Decode(t, s) == FromDestination(t, Packet(id, s[4], Word(s, 5), n, args, None, 0, None), s, 7 + n)
  {
    LongWordRead(s);
    if |s| >= 7 {
      IndexRead(t, s);
      var q := Packet(LongWord(s, 0), s[4], Word(s, 5), 0, None, None, 0, None);
      if q.cmd < ListSize(t, q.kind) { ArgsRead(t, q, s); }
    }
  }

  lemma IndexRead(t: Table, s: seq<byte>)
    requires |s| >= 7 && s[4] < 3
    ensures Decode(t, s) == DecodeArgs(t, Packet(LongWord(s, 0), s[4], Word(s, 5), 0, None, None, 0, None), s[7..])
  {
    LongWordRead(s);
    WordRead(s, 5);
    assert s[5..][2..] == s[7..];
  }

  lemma ArgsRead(t: Table, q: Packet, s: seq<byte>)
    requires |s| >= 7 && q.kind < 3 && q.cmd < ListSize(t, q.kind) && q == Blank(q.id, q.kind).(cmd := q.cmd)
    ensures var n := RowOf(t, q.kind, q.cmd).nargs;
            DecodeArgs(t, q, s[7..]) ==
              if |s| < 7 + n then Rejected(q.id, [])
              else FromDestination(t, q.(nargs := n, args := if n == 0 then None else Some(s[7..7 + n])), s, 7 + n)
  {
    var n: int := RowOf(t, q.kind, q.cmd).nargs;
    if |s| >= 7 + n {
      assert s[7..][..n] == s[7..7 + n] && s[7..][n..] == s[7 + n..];
      DestRead(t, q.(nargs := n, args := if n == 0 then None else Some(s[7..7 + n])), s, 7 + n);
    }
  }

  lemma DestRead(t: Table, q: Packet, s: seq<byte>, d: nat)
    requires d <= |s| && q.kind < 3 && q.cmd < ListSize(t, q.kind)
    ensures DecodeDest(t, q, s[d..]) == FromDestination(t, q, s, d)
  {
    if !NamedDestination(t, q.kind, q.cmd) {
      RawRead(t, q, s, d);
    } else if |s| >= d + 1 {
      var n: int := s[d];
      if n <= 10 && |s| >= d + 1 + n {
        assert s[d..][1..1 + n] == s[d + 1..d + 1 + n] && s[d..][1 + n..] == s[d + 1 + n..];
        RawRead(t, q.(dest := Some(s[d + 1..d + 1 + n])), s, d + 1 + n);
      } else {
        assert s[d..][1..] == s[d + 1..];
      }
    }
  }

  lemma RawRead(t: Table, q: Packet, s: seq<byte>, e: nat)
    requires e <= |s| && q.kind < 3 && q.cmd < ListSize(t, q.kind)
    ensures DecodeRaw(t, q, s[e..]) == FromData(t, q, s, e)
  {
    DataRead(q, s, e);
  }
}
