/** The memory behind a mailbox, on values: the sender's id, the packet structure, and past it the
    bytes its pointers lead to. */
module Mailbox {
  import opened CText
  import opened Mcs

  const MODULE_DATA_SIZE := 1024
  const ID_SIZE := 4

  datatype Mail = Mail(from: nat, pkt: Packet)

  /** The fields of the packet structure that are not pointers. */
  datatype Header = Header(id: uint, kind: byte, cmd: ushort, nargs: ushort, dataSize: ushort)

  function HeaderOf(p: Packet): Header {
    Header(p.id, p.kind, p.cmd, p.nargs, p.dataSize)
  }

  /** A pointer field of the structure: null, to a place behind the structure, or to a block of
      whoever wrote it. */
  datatype Ptr = Null | Inside(pos: nat) | Outside(block: seq<byte>)

  function PtrTo(m: Option<seq<byte>>): Ptr {
    if m.None? then Null else Outside(m.value)
  }

  /** A filled slot. `tail` are the bytes behind the structure. */
  datatype Image = Image(sender: nat, header: Header, args: Ptr, dest: Ptr, data: Ptr, tail: seq<byte>)

  /** The bytes of the destination, with the terminator. */
  function DestBytes(p: Packet): seq<byte> {
    if p.dest.None? then [] else CString(p.dest.value) + [0]
  }

  /** How many bytes there are behind a structure of this size. */
  function Room(headerSize: nat): int {
    MODULE_DATA_SIZE - ID_SIZE - headerSize
  }

  /** A copy behind what was copied before, unless it runs over the end. */
  function Append(tail: Option<seq<byte>>, headerSize: nat, b: seq<byte>): Option<seq<byte>> {
    if tail.None? || |tail.value| + |b| > Room(headerSize) then None else Some(tail.value + b)
  }

  function DestTail(headerSize: nat, p: Packet): Option<seq<byte>> {
    if Room(headerSize) < 0 then None
    else if p.dest.None? then Some([])
    else Append(Some([]), headerSize, DestBytes(p))
  }

  function ArgsTail(headerSize: nat, p: Packet): Option<seq<byte>> {
    if p.nargs == 0 then DestTail(headerSize, p) else Append(DestTail(headerSize, p), headerSize, Bytes(p.args))
  }

  function DataTail(headerSize: nat, p: Packet): Option<seq<byte>> {
    if p.dataSize == 0 then ArgsTail(headerSize, p) else Append(ArgsTail(headerSize, p), headerSize, Bytes(p.data))
  }

  /** The copies of `sdb_module_write_mcs_packet`, one behind the other, each pointer set to its
      copy; `None` if one of them runs over the end of the block. */
  function WriteImage(headerSize: nat, from: nat, p: Packet): Option<Image> {
    if DataTail(headerSize, p).None? then None
    else
      Some(Image(from, HeaderOf(p),
                 if p.nargs == 0 then PtrTo(p.args) else Inside(|DestTail(headerSize, p).value|),
                 if p.dest.None? then Null else Inside(0),
                 if p.dataSize == 0 then PtrTo(p.data) else Inside(|ArgsTail(headerSize, p).value|),
                 DataTail(headerSize, p).value))
  }

  /** `n` bytes from a pointer into the block. */
  function Block(img: Image, ptr: Ptr, n: nat): Option<seq<byte>> {
    match ptr
    case Null => None
    case Outside(block) => Some(block)
    case Inside(pos) => if pos + n <= |img.tail| then Some(img.tail[pos..pos + n]) else None
  }

  /** The string at a pointer into the block. */
  function Name(img: Image, ptr: Ptr): Option<seq<byte>> {
    if ptr.Inside? && ptr.pos <= |img.tail| then Some(CString(img.tail[ptr.pos..])) else None
  }

  /** What `sdb_module_read_mcs_packet` copies out of a slot. */
  function ReadImage(img: Image): Mail {
    var h := img.header;
    Mail(img.sender, Packet(h.id, h.kind, h.cmd, h.nargs, Block(img, img.args, h.nargs), Name(img, img.dest),
                            h.dataSize, Block(img, img.data, h.dataSize)))
  }

  /** What arrives: names end at their terminator. */
  function Arrived(p: Packet): Packet {
    p.(dest := if p.dest.None? then None else Some(CString(p.dest.value)))
  }

  /** There is room for everything: the sender's id, the structure, the destination with its
      terminator, the arguments and the data. */
  predicate Roomy(headerSize: nat, p: Packet) {
    ID_SIZE + headerSize + (if p.dest.None? then 0 else |CString(p.dest.value)| + 1) + p.nargs + p.dataSize <= MODULE_DATA_SIZE
  }

  /** No copy runs over the end exactly when there is room for everything. */
  lemma FitsWhenRoomy(headerSize: nat, from: nat, p: Packet)
    requires Backed(p)
    ensures WriteImage(headerSize, from, p).Some? <==> Roomy(headerSize, p)
    ensures WriteImage(headerSize, from, p).Some? <==>
              4 + headerSize + (if p.dest.None? then 0 else |CString(p.dest.value)| + 1) + p.nargs + p.dataSize <= 1024
  {
    if Roomy(headerSize, p) { Tails(headerSize, p); }
  }

  /** Where everything stands: the id and the fields as they are, and behind the structure the
      destination with its terminator, the arguments and the data, each pointer to its own. */
  lemma Places(headerSize: nat, from: nat, p: Packet)
    requires Backed(p) && WriteImage(headerSize, from, p).Some?
    ensures var img := WriteImage(headerSize, from, p).value;
            var d := if p.dest.None? then 0 else |CString(p.dest.value)| + 1;
            && img.sender == from && img.header == Header(p.id, p.kind, p.cmd, p.nargs, p.dataSize)
            && |img.tail| == d + p.nargs + p.dataSize
            && (if p.dest.None? then img.dest == Null
                else img.dest == Inside(0) && img.tail[..d] == CString(p.dest.value) + [0])
            && (p.nargs != 0 ==> img.args == Inside(d) && img.tail[d..d + p.nargs] == p.args.value)
            && (p.dataSize != 0 ==> img.data == Inside(d + p.nargs) && img.tail[d + p.nargs..] == p.data.value)
  {
    FitsWhenRoomy(headerSize, from, p);
    Tails(headerSize, p);
    Pieces(DestBytes(p), if p.nargs == 0 then [] else p.args.value, if p.dataSize == 0 then [] else p.data.value);
  }

  lemma Tails(headerSize: nat, p: Packet)
    requires Backed(p) && Roomy(headerSize, p)
    ensures DestTail(headerSize, p) == Some(DestBytes(p))
    ensures ArgsTail(headerSize, p) == Some(DestBytes(p) + if p.nargs == 0 then [] else p.args.value)
    ensures DataTail(headerSize, p) ==
              Some(DestBytes(p) + (if p.nargs == 0 then [] else p.args.value) + if p.dataSize == 0 then [] else p.data.value)
  {
    var d := DestBytes(p);
    var a := d + if p.nargs == 0 then [] else p.args.value;
    assert [] + d == d && d + [] == d && a + [] == a;
  }

  /** A pointer into the block leads to that many bytes of it. */
  predicate Leads(img: Image, ptr: Ptr, n: nat) {
    ptr.Inside? && ptr.pos + n <= |img.tail|
  }

  /** Nothing that is read lies outside the block, and the name in it ends. */
  predicate Legible(img: Image) {
    && (img.header.nargs != 0 ==> Leads(img, img.args, img.header.nargs))
    && (img.header.dataSize != 0 ==> Leads(img, img.data, img.header.dataSize))
    && (img.header.nargs == 0 ==> !img.args.Inside?) && (img.header.dataSize == 0 ==> !img.data.Inside?)
    && (img.dest == Null || (Leads(img, img.dest, 0) && 0 in img.tail[img.dest.pos..]))
  }

  /** What was written with room for everything is read as it was sent, name, arguments and
      data, and reading does not leave the block. */
  lemma ReadsBack(headerSize: nat, from: nat, p: Packet)
    requires Backed(p) && Roomy(headerSize, p)
    ensures WriteImage(headerSize, from, p).Some?
    ensures var img := WriteImage(headerSize, from, p).value;
            && Legible(img) && ReadImage(img) == Mail(from, Arrived(p))
            && ReadImage(img).pkt == p.(dest := if p.dest.None? then None else Some(CString(p.dest.value)))
  {
    Tails(headerSize, p);
    var img := WriteImage(headerSize, from, p).value;
    var d, a := DestBytes(p), if p.nargs == 0 then [] else p.args.value;
    var b := if p.dataSize == 0 then [] else p.data.value;
    ArgsStand(img, p, d, a, b);
    DataStand(img, p, d, a, b);
    DestStands(img, p, a, b);
  }

  lemma ArgsStand(img: Image, p: Packet, d: seq<byte>, a: seq<byte>, b: seq<byte>)
    requires Backed(p) && img.tail == d + a + b && a == if p.nargs == 0 then [] else p.args.value
    requires img.args == if p.nargs == 0 then PtrTo(p.args) else Inside(|d|)
    ensures Block(img, img.args, p.nargs) == p.args && (p.nargs != 0 ==> Leads(img, img.args, p.nargs))
  {
    Pieces(d, a, b);
  }

  lemma DataStand(img: Image, p: Packet, d: seq<byte>, a: seq<byte>, b: seq<byte>)
    requires Backed(p) && img.tail == d + a + b && b == if p.dataSize == 0 then [] else p.data.value
    requires img.data == if p.dataSize == 0 then PtrTo(p.data) else Inside(|d + a|)
    ensures Block(img, img.data, p.dataSize) == p.data && (p.dataSize != 0 ==> Leads(img, img.data, p.dataSize))
  {
    Pieces(d, a, b);
  }

  lemma DestStands(img: Image, p: Packet, a: seq<byte>, b: seq<byte>)
    requires img.tail == DestBytes(p) + a + b && img.dest == if p.dest.None? then Null else Inside(0)
    ensures Name(img, img.dest) == Arrived(p).dest
    ensures img.dest == Null || (Leads(img, img.dest, 0) && 0 in img.tail[img.dest.pos..])
  {
    if p.dest.Some? { NameStands(CString(p.dest.value), a, b); }
  }

  lemma Pieces(d: seq<byte>, a: seq<byte>, b: seq<byte>)
    ensures var t := d + a + b;
            t[|d|..|d| + |a|] == a && t[|d + a|..|d + a| + |b|] == b
  {
  }

  lemma NameStands(name: seq<byte>, a: seq<byte>, b: seq<byte>)
    requires 0 !in name
    ensures var t := name + [0] + a + b;
            CString(t[0..]) == name && 0 in t[0..]
  {
    var t := name + [0] + a + b;
    assert t[0..] == name + ([0] + a + b);
    assert t[0..][|name|] == 0;
    Terminated(name, [0] + a + b);
  }

  lemma {:induction false} Terminated(name: seq<byte>, rest: seq<byte>)
    requires 0 !in name && rest != [] && rest[0] == 0
    ensures CString(name + rest) == name
  {
    if name == [] {
      assert name + rest == rest;
    } else {
      assert (name + rest)[1..] == name[1..] + rest;
      Terminated(name[1..], rest);
      assert name == [name[0]] + name[1..];
    }
  }

  /** Answers carry no name, so they arrive as they are. */
  lemma AnswerArrives(p: Packet)
    requires Backed(p)
    ensures Backed(Arrived(p)) && IsAnswer(Arrived(p)) == IsAnswer(p) && (IsAnswer(p) ==> Arrived(p) == p)
  {
  }
}
