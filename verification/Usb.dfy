/** `sdb_usb.c`: payload commands on their way to the hardware board and back. */
module Usb {
  import opened CText
  import opened Mcs
  import opened SdbQueue
  import McsIo

  const USB_DATA_SIZE := 256
  const EHWFAULT := -110

  /** The `command` and `parameters` fields of a payload row. */
  datatype Code = Code(command: byte, parameters: byte)

  // ----- the USB format

  /** `mcs_to_usb` accepts the packet. */
  predicate Acceptable(codes: seq<Code>, p: Packet) {
    && p.kind == PAYLOAD && p.cmd < |codes|
    && p.dataSize + 6 <= USB_DATA_SIZE && p.id <= 0x7F && p.nargs <= 2
  }

  function ArgByte(p: Packet, i: nat): byte {
    if i < p.nargs && i < |Bytes(p.args)| then
      var arg: int := Bytes(p.args)[i];
      (arg * 2 + 1) % 256
    else 1
  }

  /** The two size bytes: `((n >> 6) & 0xFE) + 1` and `(n << 1) + 1`. */
  function SizeBytes(n: nat): seq<byte> {
    [n / 128 % 128 * 2 + 1, n % 128 * 2 + 1]
  }

  /** `((high & ~1) << 7) | (low >> 1)`. */
  function SizeOf(high: byte, low: byte): nat {
    var h: int := high;
    h / 2 * 256 + low / 2
  }

  /** `mcs_to_usb`. */
  function ToUsb(codes: seq<Code>, p: Packet): (r: Option<seq<byte>>)
    ensures r.Some? <==> Acceptable(codes, p)
  {
    if !Acceptable(codes, p) then None
    else
      Some([CodeByte(codes[p.cmd]), ArgByte(p, 0), ArgByte(p, 1)] + SizeBytes(p.dataSize)
           + (if p.dataSize > 0 then Bytes(p.data) else []) + [p.id * 2])
  }

  function CodeByte(c: Code): byte {
    c.command % 8 * 32 + c.parameters % 16 * 2 + 1
  }

  /** What the board is not sent: packets of another type or without a row, with more than 250 bytes
      of data, with an id beyond seven bits, or with more than two arguments. */
  lemma BoardRefuses(codes: seq<Code>, p: Packet)
    ensures ToUsb(codes, p).None? <==>
              p.kind != PAYLOAD || p.cmd >= |codes| || p.dataSize > 250 || p.id >= 128 || p.nargs >= 3
  {
  }

  /** The two ends agree on the length of the data exactly when it is below 128 bytes. */
  lemma SizesAgree(n: nat)
    requires n + 6 <= USB_DATA_SIZE
    ensures SizeOf(SizeBytes(n)[0], SizeBytes(n)[1]) == n <==> n < 128
  {
    var h: int, low: int := SizeBytes(n)[0], SizeBytes(n)[1];
    if n < 128 {
      assert n / 128 == 0 && h == 1 && low == n * 2 + 1;
    } else {
      assert n / 128 == 1 && h == 3;
    }
  }

  /** The first length to go wrong: 128 bytes are announced and 256 expected. */
  lemma SizesDiffer()
    ensures SizeOf(SizeBytes(128)[0], SizeBytes(128)[1]) == 256
  {
  }

  /** Header bytes are odd and the closing byte is even, and it gives the id back. */
  lemma UsbFrame(codes: seq<Code>, p: Packet)
    requires Acceptable(codes, p) && Sized(p) && (p.dataSize > 0 ==> p.data.Some?)
    ensures var u := ToUsb(codes, p).value;
            && |u| == p.dataSize + 6 && u[|u| - 1] % 2 == 0 && u[|u| - 1] / 2 == p.id
            && (forall i | 0 <= i < 5 :: u[i] % 2 == 1)
            && u[5..|u| - 1] == (if p.dataSize > 0 then p.data.value else [])
  {
    OddBytes(codes[p.cmd], p, p.dataSize);
    var head := [CodeByte(codes[p.cmd]), ArgByte(p, 0), ArgByte(p, 1)] + SizeBytes(p.dataSize);
    var data := if p.dataSize > 0 then Bytes(p.data) else [];
    FrameShape(head, data, p.id * 2);
  }

  /** The header gives the code of the command and the low seven bits of each argument back. */
  lemma UsbHeader(codes: seq<Code>, p: Packet)
    requires Acceptable(codes, p) && Sized(p) && (p.nargs > 0 ==> p.args.Some?)
    ensures var u := ToUsb(codes, p).value;
            && |u| >= 6
            && u[0] / 32 == codes[p.cmd].command % 8 && u[0] / 2 % 16 == codes[p.cmd].parameters % 16
            && u[1] / 2 == (if p.nargs >= 1 then p.args.value[0] % 128 else 0)
            && u[2] / 2 == (if p.nargs >= 2 then p.args.value[1] % 128 else 0)
            && u[3] / 2 == p.dataSize / 128 % 128 && u[4] / 2 == p.dataSize % 128
  {
    var c := codes[p.cmd];
    CodeBits(c.command % 8, c.parameters % 16);
    if p.nargs >= 1 { ArgBits(p.args.value[0]); }
    if p.nargs >= 2 { ArgBits(p.args.value[1]); }
  }

  lemma CodeBits(command: nat, parameters: nat)
    requires command < 8 && parameters < 16
    ensures (command * 32 + parameters * 2 + 1) / 32 == command
    ensures (command * 32 + parameters * 2 + 1) / 2 % 16 == parameters
  {
  }

  lemma ArgBits(arg: int)
    requires 0 <= arg < 256
    ensures (arg * 2 + 1) % 256 / 2 == arg % 128
  {
  }

  lemma OddBytes(c: Code, p: Packet, n: nat)
    ensures CodeByte(c) % 2 == 1 && ArgByte(p, 0) % 2 == 1 && ArgByte(p, 1) % 2 == 1
    ensures SizeBytes(n)[0] % 2 == 1 && SizeBytes(n)[1] % 2 == 1
  {
  }

  lemma FrameShape(head: seq<byte>, data: seq<byte>, last: byte)
    requires |head| == 5
    ensures var u := head + data + [last];
            && |u| == |data| + 6 && u[|u| - 1] == last && u[..5] == head && u[5..|u| - 1] == data
            && forall i | 0 <= i < 5 :: u[i] == head[i]
  {
  }

  function OkPacket(id: uint): Packet {
    Blank(id, OK)
  }

  function OkDataPacket(id: uint, data: seq<byte>): Packet
    requires |data| < 0x1_0000
  {
    Blank(id, OK_DATA).(dataSize := |data|, data := if data == [] then None else Some(data))
  }

  /** `usb_to_mcs`: the answer in a USB packet of `u`'s length. */
  function FromUsb(u: seq<byte>): Option<Packet> {
    if |u| < 6 || |u| > USB_DATA_SIZE then None
    else
      var n := SizeOf(u[3], u[4]);
      if n > 0 && |u| != n + 6 then None
      else
        var id := u[5 + n] / 2;
        Some(match u[0] / 2
             case 0 => OkPacket(id)
             case 1 => OkDataPacket(id, u[5..5 + n])
             case _ => McsIo.ErrPacket(id, EHWFAULT))
  }

  /** What is made of any bytes from the board: refused with fewer than six of them or more than 256,
      or if the fourth and fifth announce data and there is not as much of it. Else the first says
      what kind of answer it is, and the id stands behind the data. */
  lemma BoardBytesRead(u: seq<byte>)
    ensures if |u| < 6 || |u| > 256 then FromUsb(u) == None
            else
              var high: int := u[3];
              var n := high / 2 * 256 + u[4] / 2;
              if n > 0 && |u| != n + 6 then FromUsb(u) == None
              else
                var id := u[5 + n] / 2;
                && FromUsb(u).Some? && FromUsb(u).value.id == id
                && (u[0] < 2 ==> FromUsb(u).value == Packet(id, OK, 0, 0, None, None, 0, None))
                && (2 <= u[0] < 4 ==>
                      FromUsb(u).value == Packet(id, OK_DATA, 0, 0, None, None, n, if n == 0 then None else Some(u[5..5 + n])))
                && (u[0] >= 4 ==> FromUsb(u).value.kind == ERR && FromUsb(u).value == McsIo.ErrPacket(id, -110))
  {
  }

  // ----- the pipeline

  /** A frame from the board, laid out as the frames to it are. */
  function BoardFrame(kind: nat, id: nat, data: seq<byte>): seq<byte>
    requires kind < 128 && id < 128
  {
    [kind * 2 + 1, 1, 1] + SizeBytes(|data|) + data + [id * 2]
  }

  /** A frame with data is understood exactly when the data is below 128 bytes, and then the
      answer has the id and, if it is of that kind, the data. */
  lemma BoardAnswerRead(kind: nat, id: nat, data: seq<byte>)
    requires kind < 128 && id < 128 && |data| + 6 <= USB_DATA_SIZE
    ensures FromUsb(BoardFrame(kind, id, data)).Some? <==> |data| < 128
    ensures |data| < 128 ==>
              FromUsb(BoardFrame(kind, id, data)).value ==
              match kind
              case 0 => OkPacket(id)
              case 1 => OkDataPacket(id, data)
              case _ => McsIo.ErrPacket(id, EHWFAULT)
  {
    var head := [kind * 2 + 1, 1, 1] + SizeBytes(|data|);
    var u := BoardFrame(kind, id, data);
    FrameShape(head, data, id * 2);
    assert u[3] == SizeBytes(|data|)[0] && u[4] == SizeBytes(|data|)[1];
    BoardSize(|data|, SizeOf(u[3], u[4]));
    assert u[0] == kind * 2 + 1;
  }

  lemma BoardSize(n: nat, m: nat)
    requires n + 6 <= USB_DATA_SIZE && m == SizeOf(SizeBytes(n)[0], SizeBytes(n)[1])
    ensures if n < 128 then m == n else m > n
  {
    SizesAgree(n);
    var h: int := SizeBytes(n)[0];
    if n >= 128 { assert n / 128 == 1 && h == 3; }
  }

  /** The queue of the writer thread, the packet it works on, the packets that wait for the
      board, and what became of the others. `entered` is every packet ever queued. */
  datatype Pipe = Pipe(
    send: Queue, hand: Option<SdbPacket>, receive: Queue,
    answered: seq<(SdbPacket, Packet)>, rejected: Queue, entered: Queue)

  const EMPTY := Pipe([], None, [], [], [], [])

  datatype Label =
    | Enter(idProcess: nat, priority: int, pkt: Packet)  // a module queues a command
    | PopNext                                            // the writer takes the next one
    | Convert                                            // and sends it, or refuses it
    | Respond(usb: seq<byte>)                            // the reader got something

  predicate Enabled(s: Pipe, l: Label) {
    match l
    case PopNext => s.send != [] && s.hand.None?
    case Convert => s.hand.Some?
    case _ => true
  }

  function Step(codes: seq<Code>, s: Pipe, l: Label): Pipe
    requires Enabled(s, l)
  {
    match l
    case Enter(m, prio, pkt) =>
      var p := SdbPacket(m, prio, pkt, |s.entered|);
      s.(send := Insert(s.send, p), entered := s.entered + [p])
    case PopNext => s.(send := s.send[1..], hand := Some(s.send[0]))
    case Convert =>
      if ToUsb(codes, s.hand.value.pkt).Some? then
        s.(hand := None, receive := Insert(s.receive, s.hand.value))
      else s.(hand := None, rejected := s.rejected + [s.hand.value])
    case Respond(u) => StepRespond(s, u)
  }

  function StepRespond(s: Pipe, u: seq<byte>): Pipe {
    match FromUsb(u)
    case None => s
    case Some(r) =>
      match Take(s.receive, r.id)
      case None => s
      case Some(p) => s.(receive := Without(s.receive, r.id), answered := s.answered + [(p, r)])
  }

  function Run(codes: seq<Code>, ls: seq<Label>): Option<Pipe> {
    if ls == [] then Some(EMPTY)
    else
      match Run(codes, ls[..|ls| - 1])
      case None => None
      case Some(s) => if Enabled(s, ls[|ls| - 1]) then Some(Step(codes, s, ls[|ls| - 1])) else None
  }

  // ----- invariants

  function InHand(h: Option<SdbPacket>): Queue {
    if h.None? then [] else [h.value]
  }

  function Answered(ans: seq<(SdbPacket, Packet)>): Queue {
    seq(|ans|, i requires 0 <= i < |ans| => ans[i].0)
  }

  /** Every packet that entered is in exactly one place. */
  ghost predicate Conserved(s: Pipe) {
    multiset(s.entered) ==
      multiset(s.send) + multiset(InHand(s.hand)) + multiset(s.receive)
      + multiset(Answered(s.answered)) + multiset(s.rejected)
  }

  /** Packets of the same priority in `a` are older than those in `b`. */
  predicate Older(a: Queue, b: Queue) {
    forall x, y | x in a && y in b && x.priority == y.priority :: x.serial < y.serial
  }

  predicate InOrder(s: Pipe) {
    && Ordered(s.send) && Ordered(s.receive)
    && Older(s.receive, InHand(s.hand)) && Older(s.receive, s.send) && Older(InHand(s.hand), s.send)
    && forall i | 0 <= i < |s.entered| :: s.entered[i].serial == i
  }

  predicate Screened(codes: seq<Code>, s: Pipe) {
    && (forall p | p in s.receive :: Acceptable(codes, p.pkt))
    && (forall p | p in s.rejected :: !Acceptable(codes, p.pkt))
    && (forall a | a in s.answered :: Acceptable(codes, a.0.pkt) && a.1.id == a.0.pkt.id && IsAnswer(a.1))
  }

  ghost predicate Inv(codes: seq<Code>, s: Pipe) {
    Conserved(s) && InOrder(s) && Screened(codes, s)
  }

  lemma InsertMembers(q: Queue, p: SdbPacket)
    ensures forall x :: x in Insert(q, p) <==> x in q || x == p
  {
    var k := InsertPosition(q, p);
    assert q == q[..k] + q[k..];
  }

  lemma WithoutMembers(q: Queue, id: nat)
    ensures forall x | x in Without(q, id) :: x in q
  {
  }

  /** Whatever is still under way has entered, so its serial is below the next one. */
  lemma UnderWayEntered(s: Pipe, p: SdbPacket)
    requires Conserved(s) && InOrder(s) && (p in s.send || p in InHand(s.hand) || p in s.receive)
    ensures p.serial < |s.entered|
  {
    assert p in multiset(s.send) || p in multiset(InHand(s.hand)) || p in multiset(s.receive);
    assert p in multiset(s.entered);
    assert p in s.entered;
  }

  lemma EnterKeeps(codes: seq<Code>, s: Pipe, m: nat, prio: int, pkt: Packet)
    requires Inv(codes, s)
    ensures Inv(codes, Step(codes, s, Enter(m, prio, pkt)))
  {
    var p := SdbPacket(m, prio, pkt, |s.entered|);
    forall x | x in s.send || x in InHand(s.hand) || x in s.receive ensures x.serial < p.serial {
      UnderWayEntered(s, x);
    }
    InsertOrdered(s.send, p);
    InsertMembers(s.send, p);
    InsertConserves(s.send, p);
    assert multiset(s.entered + [p]) == multiset(s.entered) + multiset{p};
  }

  lemma PopKeeps(codes: seq<Code>, s: Pipe)
    requires Inv(codes, s) && Enabled(s, PopNext)
    ensures Inv(codes, Step(codes, s, PopNext))
  {
    HeadFirst(s.send);
    assert forall x | x in InHand(Some(s.send[0])) :: x in s.send;
  }

  lemma HeadFirst(q: Queue)
    requires q != [] && Ordered(q)
    ensures Ordered(q[1..]) && Older(InHand(Some(q[0])), q[1..])
    ensures multiset(q) == multiset(q[1..]) + multiset(InHand(Some(q[0])))
    ensures forall x | x in q[1..] :: x in q
  {
    RemoveOrdered(q, 0);
    assert RemoveAt(q, 0) == q[1..];
    forall y | y in q[1..] && y.priority == q[0].priority ensures q[0].serial < y.serial {
      var j :| 1 <= j < |q| && q[j] == y;
      assert Before(q[0], q[j]);
    }
  }

  lemma ConvertKeeps(codes: seq<Code>, s: Pipe)
    requires Inv(codes, s) && Enabled(s, Convert)
    ensures Inv(codes, Step(codes, s, Convert))
  {
    var p := s.hand.value;
    assert p in InHand(s.hand);
    if Acceptable(codes, p.pkt) {
      InsertOrdered(s.receive, p);
      InsertMembers(s.receive, p);
      InsertConserves(s.receive, p);
    } else {
      assert multiset(s.rejected + [p]) == multiset(s.rejected) + multiset{p};
    }
  }

  lemma RespondKeeps(codes: seq<Code>, s: Pipe, u: seq<byte>)
    requires Inv(codes, s)
    ensures Inv(codes, StepRespond(s, u))
  {
    var s' := StepRespond(s, u);
    if s' != s {
      var r := FromUsb(u).value;
      var i := Find(s.receive, r.id);
      var p := s.receive[i];
      RemoveOrdered(s.receive, i);
      WithoutMembers(s.receive, r.id);
      assert p in s.receive;
      assert Answered(s'.answered) == Answered(s.answered) + [p];
    }
  }

  lemma StepKeeps(codes: seq<Code>, s: Pipe, l: Label)
    requires Inv(codes, s) && Enabled(s, l)
    ensures Inv(codes, Step(codes, s, l))
  {
    match l
    case Enter(m, prio, pkt) => EnterKeeps(codes, s, m, prio, pkt);
    case PopNext => PopKeeps(codes, s);
    case Convert => ConvertKeeps(codes, s);
    case Respond(u) => RespondKeeps(codes, s, u);
  }

  /** Over every interleaving of the modules, the writer and the reader: each packet is at all
      times in one place, the order of the queues is kept, and only acceptable packets wait
      for or get an answer of their own id. */
  lemma {:induction false} RunKeeps(codes: seq<Code>, ls: seq<Label>)
    requires Run(codes, ls).Some?
    ensures Inv(codes, Run(codes, ls).value)
  {
    if ls != [] {
      RunKeeps(codes, ls[..|ls| - 1]);
      StepKeeps(codes, Run(codes, ls[..|ls| - 1]).value, ls[|ls| - 1]);
    }
  }

  /** A module's command enters with its own number, its urgency and its packet, and the writer gets
      what is most urgent, the oldest of that. */
  lemma EntersAndLeaves(codes: seq<Code>, ls: seq<Label>, m: nat, prio: int, pkt: Packet)
    requires Run(codes, ls).Some?
    ensures var s := Run(codes, ls).value;
            && Step(codes, s, Enter(m, prio, pkt)).entered == s.entered + [SdbPacket(m, prio, pkt, |s.entered|)]
            && (Enabled(s, PopNext) ==>
                  && var p := Step(codes, s, PopNext).hand;
                  && p.Some? && p.value in s.send && forall o | o in s.send && o != p.value :: Before(p.value, o))
  {
    RunKeeps(codes, ls);
  }

  /** No packet is in two places: the places together hold each one once. */
  lemma ExactlyOnePlace(codes: seq<Code>, ls: seq<Label>, p: SdbPacket)
    requires Run(codes, ls).Some? && p in Run(codes, ls).value.entered
    ensures var s := Run(codes, ls).value;
            multiset(s.send)[p] + multiset(InHand(s.hand))[p] + multiset(s.receive)[p]
            + multiset(Answered(s.answered))[p] + multiset(s.rejected)[p] == 1
  {
    RunKeeps(codes, ls);
    EnteredOnce(Run(codes, ls).value.entered, p);
  }

  lemma {:induction false} EnteredOnce(q: Queue, p: SdbPacket)
    requires forall i | 0 <= i < |q| :: q[i].serial == i
    ensures multiset(q)[p] == if p in q then 1 else 0
  {
    if q != [] {
      var init := q[..|q| - 1];
      EnteredOnce(init, p);
      assert q == init + [q[|q| - 1]];
      assert q[|q| - 1] !in init;
    }
  }

  /** An answer from the board goes to the most urgent packet that waits with its id, the
      oldest of those. */
  lemma ResponseGoesToMostUrgent(codes: seq<Code>, ls: seq<Label>, u: seq<byte>)
    requires Run(codes, ls).Some?
    ensures var s := Run(codes, ls).value;
            if FromUsb(u).Some? && exists p :: p in s.receive && p.pkt.id == FromUsb(u).value.id then
              var r := FromUsb(u).value;
              exists p | p in s.receive && p.pkt.id == r.id ::
                && StepRespond(s, u).answered == s.answered + [(p, r)]
                && forall o | o in s.receive && o.pkt.id == r.id && o != p :: Before(p, o)
            else StepRespond(s, u) == s
  {
    RunKeeps(codes, ls);
    var s := Run(codes, ls).value;
    if FromUsb(u).Some? && Take(s.receive, FromUsb(u).value.id).Some? {
      TakesMostUrgent(s.receive, FromUsb(u).value.id);
    }
  }
}

/** The two USB threads on the two linked queues they share. */
module UsbThreads {
  import opened CText
  import opened Mcs
  import Q = SdbQueue
  import opened LinkedQueue
  import opened Usb

  class Threads {
    const send: LinkedQueue
    const receive: LinkedQueue

    ghost predicate Valid()
      reads send, receive, send.elems, receive.elems
    {
      && send != receive && send.Valid() && receive.Valid()
      && forall i, j | 0 <= i < |send.elems| && 0 <= j < |receive.elems| :: send.elems[i] != receive.elems[j]
    }

    constructor ()
      ensures Valid() && fresh(send) && fresh(receive) && send.Contents() == [] && receive.Contents() == []
    {
      send := new LinkedQueue();
      receive := new LinkedQueue();
    }

    /** What is to be sent, and what waits for the board. */
    ghost function Lines(): (Q.Queue, Q.Queue)
      reads send, receive
    {
      (send.Contents(), receive.Contents())
    }

    /** One turn of `sdb_usb_thread_write`: the packet it took, and what went out on the wire. */
    method WriteTurn(codes: seq<Code>) returns (p: Q.SdbPacket, usb: Option<seq<byte>>)
      requires Valid() && send.Contents() != []
      modifies send, send.elems, receive, receive.elems
      ensures Valid() && p == old(send.Contents())[0] && usb == ToUsb(codes, p.pkt)
      ensures Lines() == (old(send.Contents())[1..],
                          if usb.Some? then Q.Insert(old(receive.Contents()), p) else old(receive.Contents()))
    {
      p := TakeNext();
      usb := ToUsb(codes, p.pkt);
      if usb.Some? { AwaitAnswer(p); }
    }

    method AwaitAnswer(p: Q.SdbPacket)
      requires Valid()
      modifies receive, receive.elems
      ensures Valid() && Lines() == (old(send.Contents()), Q.Insert(old(receive.Contents()), p))
    {
      receive.Push(p);
    }

    method TakeNext() returns (p: Q.SdbPacket)
      requires Valid() && send.Contents() != []
      modifies send, send.elems
      ensures Valid() && forall i | 0 <= i < |send.elems| :: send.elems[i] in old(send.elems)
      ensures p == old(send.Contents())[0] && Lines() == (old(send.Contents())[1..], old(receive.Contents()))
    {
      ghost var waiting := receive.Contents();
      var first := send.Pop();
      p := first.value;
      assert receive.Contents() == waiting;
      assert ([p] + send.Contents())[1..] == send.Contents();
    }

    /** One turn of `sdb_usb_thread_read` on the bytes it was sent: the packet that was waiting,
        if any, and the answer it gets. */
    method ReadTurn(u: seq<byte>) returns (origin: Option<Q.SdbPacket>, answer: Option<Packet>)
      requires Valid()
      modifies receive, receive.elems
      ensures Valid() && answer == FromUsb(u)
      ensures origin == if answer.None? then None else Q.Take(old(receive.Contents()), answer.value.id)
      ensures receive.Contents() ==
                if answer.None? then old(receive.Contents()) else Q.Without(old(receive.Contents()), answer.value.id)
    {
      answer := FromUsb(u);
      origin := None;
      if answer.Some? {
        origin := TakeWaiting(answer.value.id);
      }
    }

    method TakeWaiting(id: nat) returns (origin: Option<Q.SdbPacket>)
      requires Valid()
      modifies receive, receive.elems
      ensures Valid() && origin == Q.Take(old(receive.Contents()), id)
      ensures receive.Contents() == Q.Without(old(receive.Contents()), id)
    {
      ghost var s, r := send.elems, receive.elems;
      origin := receive.Get(id);
      assert forall i, j | 0 <= i < |s| && 0 <= j < |r| :: s[i] != r[j];
    }
  }
}
