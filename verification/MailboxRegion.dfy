/** The block of memory behind a mailbox, as it is written and read. */
module MailboxRegion {
  import opened CText
  import opened Mcs
  import opened Mailbox

  /** `used` bytes behind the structure are filled. */
  class Region {
    const headerSize: nat
    const bytes: array<byte>
    var sender: nat
    var header: Header
    var args: Ptr
    var dest: Ptr
    var data: Ptr
    var used: nat
    var valid: bool

    ghost predicate Valid()
      reads this
    {
      bytes.Length == MODULE_DATA_SIZE && (valid ==> used <= Room(headerSize))
    }

    /** The bytes behind the structure. */
    ghost function Tail(): seq<byte>
      requires Valid() && used <= Room(headerSize)
      reads this, bytes
    {
      bytes[ID_SIZE + headerSize..ID_SIZE + headerSize + used]
    }

    /** What is in the slot. */
    ghost function Slot(): Option<Image>
      requires Valid()
      reads this, bytes
    {
      if valid then Some(Image(sender, header, args, dest, data, Tail())) else None
    }

    constructor (size: nat)
      ensures Valid() && Slot() == None && headerSize == size && fresh(bytes)
    {
      headerSize, bytes := size, new byte[MODULE_DATA_SIZE];
      sender, header, used, valid := 0, HeaderOf(Blank(0, OK)), 0, false;
      args, dest, data := Null, Null, Null;
    }

    /** One `memcpy` behind the others, if it stays inside the block. */
    method CopyIn(b: seq<byte>) returns (fits: bool)
      requires Valid() && used <= Room(headerSize)
      modifies this`used, bytes
      ensures Valid() && used <= Room(headerSize) && fits == Append(Some(old(Tail())), headerSize, b).Some?
      ensures fits ==> Tail() == old(Tail()) + b && used == old(used) + |b|
    {
      if used + |b| > Room(headerSize) { return false; }
      var pos := ID_SIZE + headerSize + used;
      ghost var was := Tail();
      forall i | 0 <= i < |b| {
        bytes[pos + i] := b[i];
      }
      used := used + |b|;
      assert bytes[pos - |was|..pos] == was && bytes[pos..pos + |b|] == b;
      fits := true;
    }

    /** The copies of `sdb_module_write_mcs_packet`: the structure as it is, then what its pointers
        lead to, each pointer set to the copy. A copy that would run over the end is not made. */
    method Write(from: nat, p: Packet) returns (fits: bool)
      requires Valid() && !valid && Backed(p)
      modifies this, bytes
      ensures Valid() && Slot() == WriteImage(headerSize, from, p) && fits == Slot().Some?
    {
      sender, header := from, HeaderOf(p);
      args, dest, data := PtrTo(p.args), Null, PtrTo(p.data);
      fits := CopyBlocks(p);
      valid := fits;
    }

    method CopyBlocks(p: Packet) returns (fits: bool)
      requires Valid() && !valid && Backed(p) && args == PtrTo(p.args) && dest == Null && data == PtrTo(p.data)
      modifies this`used, this`args, this`dest, this`data, bytes
      ensures Valid() && fits == DataTail(headerSize, p).Some?
      ensures fits ==>
                && used <= Room(headerSize) && Some(Tail()) == DataTail(headerSize, p)
                && args == (if p.nargs == 0 then PtrTo(p.args) else Inside(|DestTail(headerSize, p).value|))
                && dest == (if p.dest.None? then Null else Inside(0))
                && data == (if p.dataSize == 0 then PtrTo(p.data) else Inside(|ArgsTail(headerSize, p).value|))
    {
      fits := CopyDest(p);
      if fits { fits := CopyArgs(p); }
      if fits { fits := CopyData(p); }
    }

    method CopyDest(p: Packet) returns (fits: bool)
      requires Valid() && !valid && dest == Null
      modifies this`used, this`dest, bytes
      ensures Valid() && fits == DestTail(headerSize, p).Some?
      ensures fits ==> used <= Room(headerSize) && Some(Tail()) == DestTail(headerSize, p)
      ensures dest == if p.dest.None? || Room(headerSize) < 0 then Null else Inside(0)
    {
      used := 0;
      if Room(headerSize) < 0 { return false; }
      assert Tail() == [];
      fits := true;
      if p.dest.Some? {
        dest := Inside(used);
        fits := CopyIn(CString(p.dest.value) + [0]);
      }
    }

    method CopyArgs(p: Packet) returns (fits: bool)
      requires Valid() && !valid && Backed(p) && used <= Room(headerSize) && Some(Tail()) == DestTail(headerSize, p)
      modifies this`used, this`args, bytes
      ensures Valid() && used <= Room(headerSize) && fits == ArgsTail(headerSize, p).Some?
      ensures fits ==> Some(Tail()) == ArgsTail(headerSize, p)
      ensures args == if p.nargs == 0 then old(args) else Inside(|DestTail(headerSize, p).value|)
    {
      fits := true;
      if p.nargs != 0 {
        args := Inside(used);
        fits := CopyIn(p.args.value);
      }
    }

    method CopyData(p: Packet) returns (fits: bool)
      requires Valid() && !valid && Backed(p) && used <= Room(headerSize) && Some(Tail()) == ArgsTail(headerSize, p)
      modifies this`used, this`data, bytes
      ensures Valid() && used <= Room(headerSize) && fits == DataTail(headerSize, p).Some?
      ensures fits ==> Some(Tail()) == DataTail(headerSize, p)
      ensures data == if p.dataSize == 0 then old(data) else Inside(|ArgsTail(headerSize, p).value|)
    {
      fits := true;
      if p.dataSize != 0 {
        data := Inside(used);
        fits := CopyIn(p.data.value);
      }
    }

    /** `strlen` of a string that ends inside the block. */
    method StrLen(pos: nat, ghost s: seq<byte>) returns (n: nat)
      requires Valid() && used <= Room(headerSize) && pos <= used && s == Tail()[pos..] && 0 in s
      ensures n < |s| && s[n] == 0 && forall i | 0 <= i < n :: s[i] != 0
    {
      ghost var k :| 0 <= k < |s| && s[k] == 0;
      var start := ID_SIZE + headerSize + pos;
      n := 0;
      assert bytes[start] == s[0];
      while bytes[start + n] != 0
        invariant n <= k && bytes[start + n] == s[n]
        invariant forall i | 0 <= i < n :: s[i] != 0
        decreases k - n
      {
        n := n + 1;
        assert bytes[start + n] == s[n];
      }
    }

    /** A copy of a name that ends inside the block. */
    method CopyName(pos: nat) returns (r: seq<byte>)
      requires Valid() && used <= Room(headerSize) && pos <= used && 0 in Tail()[pos..]
      ensures r == CString(Tail()[pos..])
    {
      ghost var t := Tail();
      var n := StrLen(pos, t[pos..]);
      CStringIs(t[pos..], n);
      r := CopyOut(pos, n);
      assert t[pos..][..n] == t[pos..pos + n];
    }

    /** A copy of `n` bytes from a place behind the structure. */
    method CopyOut(pos: nat, n: nat) returns (r: seq<byte>)
      requires Valid() && used <= Room(headerSize) && pos + n <= used
      ensures r == Tail()[pos..pos + n]
    {
      var start := ID_SIZE + headerSize + pos;
      r := bytes[start..start + n];
      forall i | 0 <= i < n ensures r[i] == Tail()[pos..pos + n][i] {
        assert Tail()[pos + i] == bytes[start + i];
      }
    }

    method ReadArgs() returns (r: Option<seq<byte>>)
      requires Valid() && valid && Legible(Slot().value)
      ensures r == Block(Slot().value, args, header.nargs)
    {
      r := Outer(args);
      if header.nargs != 0 {
        var b := CopyOut(args.pos, header.nargs);
        r := Some(b);
      }
    }

    method ReadData() returns (r: Option<seq<byte>>)
      requires Valid() && valid && Legible(Slot().value)
      ensures r == Block(Slot().value, data, header.dataSize)
    {
      r := Outer(data);
      if header.dataSize != 0 {
        var b := CopyOut(data.pos, header.dataSize);
        r := Some(b);
      }
    }

    method ReadDest() returns (r: Option<seq<byte>>)
      requires Valid() && valid && Legible(Slot().value)
      ensures r == Name(Slot().value, dest)
    {
      r := None;
      if dest != Null {
        var name := CopyName(dest.pos);
        r := Some(name);
      }
    }

    /** `sdb_module_read_mcs_packet`: fresh copies of everything, and the slot is free again. */
    method Read() returns (mail: Mail)
      requires Valid() && valid && Legible(Slot().value)
      modifies this`valid
      ensures Valid() && Slot() == None && mail == ReadImage(old(Slot()).value)
    {
      var name := ReadDest();
      var a := ReadArgs();
      var d := ReadData();
      mail := Mail(sender, Packet(header.id, header.kind, header.cmd, header.nargs, a, name, header.dataSize, d));
      valid := false;
    }
  }

  /** What a pointer that was left as it came leads to. */
  function Outer(ptr: Ptr): Option<seq<byte>> {
    if ptr.Outside? then Some(ptr.block) else None
  }

  lemma {:induction false} CStringIs(s: seq<byte>, n: nat)
    requires n < |s| && s[n] == 0 && forall i | 0 <= i < n :: s[i] != 0
    ensures CString(s) == s[..n]
  {
    if n > 0 {
      CStringIs(s[1..], n - 1);
      assert s[..n] == [s[0]] + s[1..][..n - 1];
    }
  }
}
