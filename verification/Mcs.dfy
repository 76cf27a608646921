/** The MCS wire format: packets, the command table, the writer and the reader. */
module Mcs {
  import opened CText

  datatype Option<+T> = None | Some(value: T)

  // ----- packets and the command table

  const MESSAGE: byte := 0
  const STATE: byte := 1
  const PAYLOAD: byte := 2
  const OK: byte := 253
  const OK_DATA: byte := 254
  const ERR: byte := 255

  const COMMAND_TYPES := 3
  const NAME_SIZE := 10
  const EBADFORMAT := -113
  const AT_SIGN: Ch := 64

  type ushort = x: int | 0 <= x < 0x1_0000
  type uint = x: int | 0 <= x < 0x1_0000_0000

  /** `MCSPacket`. A null pointer is `None`; `dest` is the memory up to the terminator
      that the reader or the caller put behind it. */
  datatype Packet = Packet(
    id: uint, kind: byte, cmd: ushort,
    nargs: ushort, args: Option<seq<byte>>,
    dest: Option<seq<byte>>,
    dataSize: ushort, data: Option<seq<byte>>)

  /** The blocks behind the pointers have the size the packet gives them. */
  predicate Sized(p: Packet) {
    (p.args.Some? ==> |p.args.value| == p.nargs) && (p.data.Some? ==> |p.data.value| == p.dataSize)
  }

  datatype Group = SysCore | ProcMan | SdbGroup | HwMod | App | GroupMax | AnyGroup

  datatype Row = Row(nargs: ushort, raw: bool)

  datatype MessageRow = MessageRow(
    row: Row, destination: Option<Text>, originGroups: seq<Group>, destinationGroups: seq<Group>)

  datatype Table = Table(messages: seq<MessageRow>, states: seq<Row>, payloads: seq<Row>)

  function ListSize(t: Table, kind: byte): nat
    requires kind < COMMAND_TYPES
  {
    if kind == MESSAGE then |t.messages| else if kind == STATE then |t.states| else |t.payloads|
  }

  function RowOf(t: Table, kind: byte, cmd: nat): Row
    requires kind < COMMAND_TYPES && cmd < ListSize(t, kind)
  {
    if kind == MESSAGE then t.messages[cmd].row
    else if kind == STATE then t.states[cmd]
    else t.payloads[cmd]
  }

  /** The packet carries a destination name: a message row whose destination starts with `@`. */
  predicate NamedDestination(t: Table, kind: byte, cmd: nat) {
    kind == MESSAGE && cmd < |t.messages| && t.messages[cmd].destination.Some?
    && t.messages[cmd].destination.value != [] && t.messages[cmd].destination.value[0] == AT_SIGN
  }

  predicate IsAnswer(p: Packet) {
    p.kind == OK || p.kind == OK_DATA || p.kind == ERR
  }

  /** What `mcs_read_command` hands over: the blocks are there and have their sizes, and an
      answer has no destination. */
  predicate Backed(p: Packet) {
    && Sized(p)
    && (p.nargs != 0 ==> p.args.Some?) && (p.dataSize != 0 ==> p.data.Some?)
    && (IsAnswer(p) ==> p.dest.None?)
  }

  /** `check_packet`. */
  predicate Checked(t: Table, p: Packet) {
    && (if IsAnswer(p) then
          && p.nargs == 0
          && (p.kind == OK_DATA ==> p.dataSize != 0)
          && (p.kind == OK ==> p.dataSize == 0)
        else
          && p.kind < COMMAND_TYPES
          && p.cmd < ListSize(t, p.kind)
          && RowOf(t, p.kind, p.cmd).nargs == p.nargs
          && RowOf(t, p.kind, p.cmd).raw == (p.dataSize != 0))
    && (p.nargs != 0 ==> p.args.Some?)
    && (p.dataSize != 0 ==> p.data.Some?)
  }

  // ----- integers in memory

  function Le16(n: ushort): seq<byte> {
    [n % 256, n / 256]
  }

  function Le32(n: uint): seq<byte> {
    Le16(n % 0x1_0000) + Le16(n / 0x1_0000)
  }

  function FromLe16(b: seq<byte>): ushort
    requires |b| == 2
  {
    var n: int := b[1];
    b[0] + 256 * n
  }

  function FromLe32(b: seq<byte>): uint
    requires |b| == 4
  {
    var low: int, high: int := FromLe16(b[..2]), FromLe16(b[2..]);
    low + 0x1_0000 * high
  }

  lemma LittleEndian16(n: ushort, b: seq<byte>)
    ensures FromLe16(Le16(n)) == n
    ensures |b| == 2 ==> Le16(FromLe16(b)) == b
  {
  }

  lemma ReadLe32(n: uint)
    ensures FromLe32(Le32(n)) == n
  {
    LittleEndian16(n % 0x1_0000, []);
    LittleEndian16(n / 0x1_0000, []);
    assert Le32(n)[..2] == Le16(n % 0x1_0000) && Le32(n)[2..] == Le16(n / 0x1_0000);
  }

  lemma WriteLe32(b: seq<byte>)
    requires |b| == 4
    ensures Le32(FromLe32(b)) == b
  {
    var low: int, high: int := FromLe16(b[..2]), FromLe16(b[2..]);
    Halves(low, high);
    LittleEndian16(0, b[..2]);
    LittleEndian16(0, b[2..]);
    assert b == b[..2] + b[2..];
  }

  lemma Halves(low: int, high: int)
    requires 0 <= low < 0x1_0000
    ensures (low + 0x1_0000 * high) % 0x1_0000 == low && (low + 0x1_0000 * high) / 0x1_0000 == high
  {
  }

  // ----- the writer

  function Bytes(m: Option<seq<byte>>): seq<byte> {
    if m.None? then [] else m.value
  }

  /** The bytes `strlen` covers. */
  function CString(b: seq<byte>): (r: seq<byte>)
    ensures |r| <= |b| && r == b[..|r|] && 0 !in r
    ensures r == b <==> 0 !in b
  {
    if b == [] || b[0] == 0 then [] else [b[0]] + CString(b[1..])
  }

  /** The length byte and the name. */
  function DestField(p: Packet): seq<byte> {
    if p.dest.None? then [] else [|CString(p.dest.value)| % 256] + CString(p.dest.value)
  }

  function DataField(p: Packet): seq<byte> {
    if p.dataSize == 0 then [] else Le16(p.dataSize) + Bytes(p.data)
  }

  function Header(p: Packet): seq<byte> {
    Le32(p.id) + [p.kind]
  }

  /** What `mcs_write_command` puts on the wire for a checked packet. */
  function Image(p: Packet): seq<byte> {
    Header(p) + (
    if p.kind == ERR then Bytes(p.data)
    else if p.kind == OK_DATA then Le16(p.dataSize) + Bytes(p.data)
    else if p.kind == OK then []
    else Le16(p.cmd) + ((if p.nargs == 0 then [] else Bytes(p.args)) + (DestField(p) + DataField(p))))
  }

  function Encode(t: Table, p: Packet): Option<seq<byte>> {
    if Checked(t, p) then Some(Image(p)) else None
  }

  // ----- the reader

  /** `Rejected` sends an error answer with the id that was read. `NoPacket` sends nothing.
      A read that runs dry consumes what was there. */
  datatype Read = Got(pkt: Packet, rest: seq<byte>) | Rejected(id: uint, rest: seq<byte>) | NoPacket

  function Blank(id: uint, kind: byte): Packet {
    Packet(id, kind, 0, 0, None, None, 0, None)
  }

  function Decode(t: Table, s: seq<byte>): Read {
    if |s| < 4 then NoPacket
    else
      var id := FromLe32(s[..4]);
      if |s| < 5 then Rejected(id, [])
      else DecodeKind(t, Blank(id, s[4]), s[5..])
  }

  function DecodeKind(t: Table, p: Packet, s: seq<byte>): Read {
    if p.kind < COMMAND_TYPES then
      if |s| < 2 then Rejected(p.id, [])
      else DecodeArgs(t, p.(cmd := FromLe16(s[..2])), s[2..])
    else if p.kind == ERR then
      if |s| < 4 then Rejected(p.id, [])
      else Got(p.(dataSize := 4, data := Some(s[..4])), s[4..])
    else if p.kind == OK_DATA then DecodeData(p, s)
    else if p.kind == OK then Got(p, s)
    else Rejected(p.id, s)
  }

  function DecodeArgs(t: Table, p: Packet, s: seq<byte>): Read
    requires p.kind < COMMAND_TYPES
  {
    if p.cmd >= ListSize(t, p.kind) then Rejected(p.id, s)
    else
      var n := RowOf(t, p.kind, p.cmd).nargs;
      if |s| < n then Rejected(p.id, [])
      else DecodeDest(t, p.(nargs := n, args := if n == 0 then None else Some(s[..n])), s[n..])
  }

  function DecodeDest(t: Table, p: Packet, s: seq<byte>): Read
    requires p.kind < COMMAND_TYPES && p.cmd < ListSize(t, p.kind)
  {
    if !NamedDestination(t, p.kind, p.cmd) then DecodeRaw(t, p, s)
    else if |s| < 1 then Rejected(p.id, [])
    else if s[0] > NAME_SIZE then Rejected(p.id, s[1..])
    else if |s| < 1 + s[0] then Rejected(p.id, [])
    else DecodeRaw(t, p.(dest := Some(s[1..1 + s[0]])), s[1 + s[0]..])
  }

  function DecodeRaw(t: Table, p: Packet, s: seq<byte>): Read
    requires p.kind < COMMAND_TYPES && p.cmd < ListSize(t, p.kind)
  {
    if RowOf(t, p.kind, p.cmd).raw then DecodeData(p, s) else Got(p, s)
  }

  function DecodeData(p: Packet, s: seq<byte>): Read {
    if |s| < 2 then Rejected(p.id, [])
    else
      var n := FromLe16(s[..2]);
      if |s| < 2 + n then Rejected(p.id, [])
      else Got(p.(dataSize := n, data := Some(s[2..2 + n])), s[2 + n..])
  }
}
