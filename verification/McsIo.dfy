/** `mcs_write_command` and `mcs_read_command` as they run: a buffer of a precomputed size
    filled from left to right, and a descriptor drained a few bytes at a time. */
module McsIo {
  import opened CText
  import opened Mcs

  method MemCpy(raw: array<byte>, pos: nat, b: seq<byte>) returns (act: nat)
    requires pos + |b| <= raw.Length
    modifies raw
    ensures act == pos + |b| && raw[..act] == old(raw[..pos]) + b
  {
    ghost var before := raw[..pos];
    forall i | 0 <= i < |b| {
      raw[pos + i] := b[i];
    }
    act := pos + |b|;
    assert raw[..pos] == before && raw[pos..act] == b;
    assert raw[..act] == raw[..pos] + raw[pos..act];
  }

  /** `mcs_write_command`: the bytes written, or none for a packet that fails the check. */
  method WriteCommand(t: Table, p: Packet) returns (r: Option<seq<byte>>)
    requires Sized(p)
    ensures r == Encode(t, p)
  {
    if !Checked(t, p) { return None; }
    var raw;
    if p.kind == ERR {
      raw := WriteFields(5 + p.dataSize, Header(p), Bytes(p.data), []);
    } else if p.kind == OK_DATA {
      raw := WriteFields(5 + 2 + p.dataSize, Header(p), Le16(p.dataSize), Bytes(p.data));
    } else if p.kind == OK {
      raw := WriteFields(5, Header(p), [], []);
    } else {
      raw := WriteRequest(p);
    }
    r := Some(raw[..]);
    assert Header(p) + [] + [] == Header(p) + [] && Header(p) + Bytes(p.data) + [] == Header(p) + Bytes(p.data);
    assert Header(p) + Le16(p.dataSize) + Bytes(p.data) == Header(p) + (Le16(p.dataSize) + Bytes(p.data));
  }

  /** A buffer of `size` bytes filled by three copies. */
  method WriteFields(size: nat, a: seq<byte>, b: seq<byte>, c: seq<byte>) returns (raw: array<byte>)
    requires size == |a| + |b| + |c|
    ensures raw[..] == a + b + c
  {
    raw := new byte[size];
    var act := MemCpy(raw, 0, a);
    assert raw[..act] == a;
    act := MemCpy(raw, act, b);
    act := MemCpy(raw, act, c);
    assert raw[..] == raw[..act];
  }

  method WriteRequest(p: Packet) returns (raw: array<byte>)
    requires !IsAnswer(p) && Sized(p)
    requires (p.nargs != 0 ==> p.args.Some?) && (p.dataSize != 0 ==> p.data.Some?)
    ensures raw[..] == Image(p)
  {
    var totSize := 5 + 2 + p.nargs;
    if p.dest.Some? { totSize := totSize + 1 + |CString(p.dest.value)|; }
    if p.dataSize != 0 { totSize := totSize + 2 + p.dataSize; }
    raw := new byte[totSize];
    ghost var a, b, c, d, e := Header(p), Le16(p.cmd), if p.nargs == 0 then [] else Bytes(p.args), DestField(p), DataField(p);
    assert totSize == |a| + |b| + |c| + |d| + |e|;
    var act := MemCpy(raw, 0, Header(p));
    act := MemCpy(raw, act, Le16(p.cmd));
    assert raw[..act] == a + b by { assert raw[..0] == []; }
    if p.nargs != 0 { act := MemCpy(raw, act, p.args.value); }
    assert raw[..act] == a + b + c;
    if p.dest.Some? { act := WriteDest(raw, act, p); }
    assert raw[..act] == a + b + c + d;
    if p.dataSize != 0 { act := WriteData(raw, act, p); }
    assert raw[..act] == a + b + c + d + e;
    assert raw[..] == raw[..act];
    Grouped(a, b, c, d, e, raw[..]);
  }

  method WriteDest(raw: array<byte>, pos: nat, p: Packet) returns (act: nat)
    requires p.dest.Some? && pos + |DestField(p)| <= raw.Length
    modifies raw
    ensures act == pos + |DestField(p)| && raw[..act] == old(raw[..pos]) + DestField(p)
  {
    var name := CString(p.dest.value);
    var size: byte := |name| % 256;
    assert DestField(p) == [size] + name;
    act := MemCpy(raw, pos, [size]);
    act := MemCpy(raw, act, name);
    Behind(old(raw[..pos]), size, name);
  }

  lemma Behind(a: seq<byte>, b: byte, c: seq<byte>)
    ensures a + [b] + c == a + ([b] + c)
  {
  }

  method WriteData(raw: array<byte>, pos: nat, p: Packet) returns (act: nat)
    requires p.dataSize != 0 && p.data.Some? && pos + |DataField(p)| <= raw.Length
    modifies raw
    ensures act == pos + |DataField(p)| && raw[..act] == old(raw[..pos]) + DataField(p)
  {
    act := MemCpy(raw, pos, Le16(p.dataSize));
    act := MemCpy(raw, act, p.data.value);
  }

  lemma Grouped(a: seq<byte>, b: seq<byte>, c: seq<byte>, d: seq<byte>, e: seq<byte>, all: seq<byte>)
    requires all == a + b + c + d + e
    ensures all == a + (b + (c + (d + e)))
  {
  }

  /** `mcs_err_packet_id`. */
  function ErrPacket(id: uint, code: int): Packet {
    Packet(id, ERR, 0, 0, None, None, 4, Some(Le32(code % 0x1_0000_0000)))
  }

  /** The error packets the bus sends survive their own wire format. */
  lemma ErrPacketChecked(t: Table, id: uint, code: int)
    ensures Checked(t, ErrPacket(id, code)) && Sized(ErrPacket(id, code))
    ensures FromLe32(ErrPacket(id, code).data.value) == code % 0x1_0000_0000
  {
    ReadLe32(code % 0x1_0000_0000);
  }

  /** A pair of descriptors: what is there to read, and what was written. */
  class Connection {
    var input: seq<byte>
    var output: seq<byte>

    constructor (bytes: seq<byte>)
      ensures input == bytes && output == []
    {
      input, output := bytes, [];
    }

    /** `abs_read`: one byte at a time; when they run out, those taken are gone. */
    method AbsRead(n: nat) returns (r: Option<seq<byte>>)
      modifies this`input
      ensures |old(input)| >= n ==> r == Some(old(input)[..n]) && input == old(input)[n..]
      ensures |old(input)| < n ==> r == None && input == []
    {
      var buffer := [];
      while |buffer| < n
        invariant |buffer| <= n && |buffer| <= |old(input)|
        invariant buffer == old(input)[..|buffer|] && input == old(input)[|buffer|..]
      {
        if input == [] { return None; }
        buffer := buffer + [input[0]];
        input := input[1..];
      }
      r := Some(buffer);
    }

    /** The raw data of a packet: its size and its bytes. */
    method ReadData(p: Packet) returns (r: Option<Packet>)
      modifies this`input
      ensures match DecodeData(p, old(input))
              case Got(q, rest) => r == Some(q) && input == rest
              case Rejected(_, rest) => r == None && input == rest
              case NoPacket => false
    {
      var size := AbsRead(2);
      if size.None? { return None; }
      var n := FromLe16(size.value);
      ghost var all := old(input);
      var data := AbsRead(n);
      if data.None? { return None; }
      assert all[2..][..n] == all[2..2 + n] && all[2..][n..] == all[2 + n..];
      return Some(p.(dataSize := n, data := data));
    }

    method ReadDest(t: Table, p: Packet) returns (r: Option<Packet>)
      requires p.kind < COMMAND_TYPES && p.cmd < ListSize(t, p.kind)
      modifies this`input
      ensures match DecodeDest(t, p, old(input))
              case Got(q, rest) => r == Some(q) && input == rest
              case Rejected(_, rest) => r == None && input == rest
              case NoPacket => false
    {
      var q := p;
      if NamedDestination(t, p.kind, p.cmd) {
        ghost var all := old(input);
        var size := AbsRead(1);
        if size.None? { return None; }
        var n := size.value[0];
        if n > NAME_SIZE { return None; }
        var dest := AbsRead(n);
        if dest.None? { return None; }
        assert all[1..][..n] == all[1..1 + n] && all[1..][n..] == all[1 + n..];
        q := p.(dest := dest);
      }
      if RowOf(t, p.kind, p.cmd).raw {
        r := ReadData(q);
      } else {
        r := Some(q);
      }
    }

    /** `read_check_config`. */
    method ReadCheckConfig(t: Table, p: Packet) returns (r: Option<Packet>)
      requires p.kind < COMMAND_TYPES
      modifies this`input
      ensures match DecodeArgs(t, p, old(input))
              case Got(q, rest) => r == Some(q) && input == rest
              case Rejected(_, rest) => r == None && input == rest
              case NoPacket => false
    {
      if p.cmd >= ListSize(t, p.kind) { return None; }
      var n := RowOf(t, p.kind, p.cmd).nargs;
      var q := p.(nargs := n, args := None);
      if n > 0 {
        var args := AbsRead(n);
        if args.None? { return None; }
        q := p.(nargs := n, args := args);
      }
      r := ReadDest(t, q);
    }

    method ReadKind(t: Table, p: Packet) returns (r: Option<Packet>)
      modifies this`input
      ensures match DecodeKind(t, p, old(input))
              case Got(q, rest) => r == Some(q) && input == rest
              case Rejected(_, rest) => r == None && input == rest
              case NoPacket => false
    {
      if p.kind < COMMAND_TYPES {
        var cmd := AbsRead(2);
        if cmd.None? { return None; }
        r := ReadCheckConfig(t, p.(cmd := FromLe16(cmd.value)));
      } else if p.kind == ERR {
        var data := AbsRead(4);
        if data.None? { return None; }
        r := Some(p.(dataSize := 4, data := data));
      } else if p.kind == OK_DATA {
        r := ReadData(p);
      } else if p.kind == OK {
        r := Some(p);
      } else {
        r := None;
      }
    }

    /** `mcs_read_command`. A malformed packet is answered with an error that carries its id;
        without an id there is nothing to answer. */
    method ReadCommand(t: Table) returns (r: Option<Packet>)
      modifies this
      ensures match Decode(t, old(input))
              case Got(p, rest) => r == Some(p) && input == rest && output == old(output)
              case Rejected(id, rest) =>
                r == None && input == rest && output == old(output) + Image(ErrPacket(id, EBADFORMAT))
              case NoPacket => r == None && input == [] && output == old(output)
    {
      ghost var all := input;
      var idBytes := AbsRead(4);
      if idBytes.None? { return None; }
      var id := FromLe32(idBytes.value);
      var kind := AbsRead(1);
      if kind.Some? {
        assert all[4..][1..] == all[5..];
        r := ReadKind(t, Blank(id, kind.value[0]));
        SameId(t, Blank(id, kind.value[0]), all[5..]);
      } else {
        r := None;
      }
      if r.None? {
        ErrPacketChecked(t, id, EBADFORMAT);
        var answer := WriteCommand(t, ErrPacket(id, EBADFORMAT));
        output := output + answer.value;
      }
    }
  }

  lemma SameId(t: Table, p: Packet, s: seq<byte>)
    ensures DecodeKind(t, p, s).Rejected? ==> DecodeKind(t, p, s).id == p.id
  {
  }
}
