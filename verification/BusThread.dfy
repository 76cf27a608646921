/** `sdb_module.c` as it runs: the loops of `process_pkt_message`, and a module thread with
    its mailbox, its socket and its linked queue. */
module BusThread {
  import opened CText
  import opened Mcs
  import Q = SdbQueue
  import LinkedQueue
  import opened Mailbox
  import MailboxRegion
  import opened Bus

  /** A group list is searched up to the number of slots. */
  method GroupCheck(groups: seq<Group>, slots: nat, g: Group) returns (ok: bool)
    requires slots <= |groups| && |groups| > 0
    ensures ok <==> groups[0] == AnyGroup || exists i | 0 <= i < slots :: groups[i] == g
  {
    if groups[0] == AnyGroup { return true; }
    var i := 0;
    while i < slots
      invariant 0 <= i <= slots && forall j | 0 <= j < i :: groups[j] != g
    {
      if groups[i] == g { return true; }
      i := i + 1;
    }
    return false;
  }

  /** The module list is searched from the start. */
  method FindModule(dir: seq<Agent>, name: seq<byte>) returns (i: nat)
    ensures i == FirstNamed(dir, name)
  {
    i := 0;
    while i < |dir|
      invariant i <= |dir| && forall j | 0 <= j < i :: dir[j].name != name
    {
      if dir[i].name == name { break; }
      i := i + 1;
    }
    FirstNamedIs(dir, name, i);
  }

  lemma FirstNamedIs(dir: seq<Agent>, name: seq<byte>, i: nat)
    requires i <= |dir| && (i < |dir| ==> dir[i].name == name)
    requires forall j | 0 <= j < i :: dir[j].name != name
    ensures FirstNamed(dir, name) == i
  {
  }

  /** The checks of `process_pkt_message`, in their order. */
  method CheckMessage(c: Config, dir: seq<Agent>, sender: nat, p: Packet) returns (r: Route)
    requires ValidConfig(c) && sender < |dir|
    ensures r == RouteMessage(c, dir, sender, p)
  {
    if p.cmd >= |c.table.messages| { return Refuse(ECMDFAULT); }
    var row := c.table.messages[p.cmd];
    var ok := GroupCheck(row.originGroups, c.slots, dir[sender].group);
    AllowedBySlot(row.originGroups, c.slots, dir[sender].group);
    if !ok { return Refuse(EPERM); }
    if row.destination.None? { return ForBus; }
    var i := FindModule(dir, DestinationName(row, p));
    if i == |dir| { return Refuse(EBADMODID); }
    ok := GroupCheck(row.destinationGroups, c.slots, dir[i].group);
    AllowedBySlot(row.destinationGroups, c.slots, dir[i].group);
    if !ok { return Refuse(EPERM); }
    return To(i);
  }

  /** Routing is exactly what it permits. */
  lemma RouteIsPermitted(c: Config, dir: seq<Agent>, sender: nat, p: Packet, d: nat)
    requires ValidConfig(c) && sender < |dir|
    ensures RouteMessage(c, dir, sender, p) == To(d) <==> Permitted(c, dir, sender, p, d)
  {
    if p.cmd < |c.table.messages| {
      var row := c.table.messages[p.cmd];
      AllowedBySlot(row.originGroups, c.slots, dir[sender].group);
      if d < |dir| { AllowedBySlot(row.destinationGroups, c.slots, dir[d].group); }
      if row.destination.Some? && d < |dir| && dir[d].name == DestinationName(row, p)
         && forall j | 0 <= j < d :: dir[j].name != dir[d].name {
        FirstNamedIs(dir, DestinationName(row, p), d);
      }
    }
  }

  lemma AllowedBySlot(groups: seq<Group>, slots: nat, g: Group)
    requires slots <= |groups| && |groups| > 0
    ensures GroupAllowed(groups, slots, g) <==> groups[0] == AnyGroup || exists i | 0 <= i < slots :: groups[i] == g
  {
    forall i | 0 <= i < slots ensures groups[..slots][i] == groups[i] {
    }
  }

  /** Every outcome of the checks, by the entries of the table and the directory: which of the
      three errors a message gets, when it is for the bus itself, and where it goes otherwise. */
  lemma RouteDecided(c: Config, dir: seq<Agent>, sender: nat, p: Packet)
    requires ValidConfig(c) && sender < |dir|
    ensures var r := RouteMessage(c, dir, sender, p);
            if p.cmd >= |c.table.messages| then r == Refuse(ECMDFAULT)
            else
              var MessageRow(_, destination, origins, destinations) := c.table.messages[p.cmd];
              if !(origins[0] == AnyGroup || exists i | 0 <= i < c.slots :: origins[i] == dir[sender].group) then
                r == Refuse(EPERM)
              else if destination.None? then r == ForBus
              else
                var text := destination.value;
                var name := if text != [] && text[0] == AT_SIGN then CString(Bytes(p.dest)) else text;
                if forall d | 0 <= d < |dir| :: dir[d].name != name then r == Refuse(EBADMODID)
                else
                  exists d | 0 <= d < |dir| ::
                    && dir[d].name == name && (forall j | 0 <= j < d :: dir[j].name != name)
                    && if destinations[0] == AnyGroup || exists i | 0 <= i < c.slots :: destinations[i] == dir[d].group
                       then r == To(d) else r == Refuse(EPERM)
  {
    if p.cmd < |c.table.messages| {
      var row := c.table.messages[p.cmd];
      AllowedBySlot(row.originGroups, c.slots, dir[sender].group);
      if row.destination.Some? {
        var d := FirstNamed(dir, DestinationName(row, p));
        if d < |dir| { AllowedBySlot(row.destinationGroups, c.slots, dir[d].group); }
      }
    }
  }

  /** What a socket is sent by the bus. */
  datatype Output = Sent(pkt: Packet) | Error(id: uint, code: int)

  /** What came of a write: done, the branch that reports a deadlock, or no room. */
  datatype Outcome = Written | Deadlocked | Overran

  class ModuleThread {
    const id: nat
    const queue: LinkedQueue.LinkedQueue
    const region: MailboxRegion.Region
    var thread: Thread
    var socket: seq<Output>
    ghost var puts: seq<Mail>
    ghost var takes: seq<Mail>

    ghost predicate Valid()
      reads this, queue, queue.elems, region
    {
      queue.Valid() && region.Valid()
    }

    ghost function Value(): Mod
      requires Valid()
      reads this, queue, queue.elems, region, region.bytes
    {
      Mod(thread, region.Slot(), queue.Contents(), puts, takes)
    }

    constructor (i: nat, headerSize: nat)
      ensures Valid() && Value() == Mod(Idle, None, [], [], []) && id == i && socket == []
      ensures region.headerSize == headerSize && queue.elems == []
      ensures fresh(queue) && fresh(region) && fresh(region.bytes)
    {
      id, thread, socket, puts, takes := i, Idle, [], [], [];
      queue := new LinkedQueue.LinkedQueue();
      region := new MailboxRegion.Region(headerSize);
    }

    /** `process_pkt_message`. What is for the bus itself is answered elsewhere. */
    method ProcessMessage(c: Config, dir: seq<Agent>, p: Packet) returns (r: Route)
      requires Valid() && ValidConfig(c) && id < |dir| && p.kind == MESSAGE && thread.Idle?
      modifies this`thread, this`socket, queue, queue.elems
      ensures Valid() && forall i | 0 <= i < |queue.elems| :: queue.elems[i] in old(queue.elems) || fresh(queue.elems[i])
      ensures r == RouteMessage(c, dir, id, p)
      ensures Value() == if r.To? then AcceptMod(old(Value()), id, p, if Admitted(c, p) then Writing(p, r.dest) else Idle)
                         else old(Value())
      ensures socket == old(socket) + if r.Refuse? then [Error(p.id, r.code)] else []
    {
      r := CheckMessage(c, dir, id, p);
      match r
      case Refuse(code) => socket := socket + [Error(p.id, code)];
      case ForBus =>
      case To(d) => Accept(p, if Admitted(c, p) then Writing(p, d) else Idle);
    }

    /** A request of the own client enters the queue; `next` is what the thread does now. */
    method Accept(p: Packet, next: Thread)
      requires Valid()
      modifies this`thread, queue, queue.elems
      ensures Valid() && forall i | 0 <= i < |queue.elems| :: queue.elems[i] in old(queue.elems) || fresh(queue.elems[i])
      ensures Value() == AcceptMod(old(Value()), id, p, next)
    {
      Enqueue(id, p);
      Turn(next);
    }

    /** `process_pkt_payload`: the command is queued here and goes nowhere else. */
    method ProcessPayload(c: Config, p: Packet)
      requires Valid() && p.kind == PAYLOAD && thread.Idle?
      modifies this`thread, this`socket, queue, queue.elems
      ensures Valid() && forall i | 0 <= i < |queue.elems| :: queue.elems[i] in old(queue.elems) || fresh(queue.elems[i])
      ensures Value() == if p.cmd < |c.table.payloads| then AcceptMod(old(Value()), id, p, Idle) else old(Value())
      ensures socket == old(socket) + if p.cmd < |c.table.payloads| then [] else [Error(p.id, ECMDFAULT)]
    {
      if p.cmd >= |c.table.payloads| {
        socket := socket + [Error(p.id, ECMDFAULT)];
      } else {
        Accept(p, Idle);
      }
    }

    /** `process_pkt_socket` with a command. */
    method ProcessCommand(c: Config, dir: seq<Agent>, p: Packet) returns (fate: Fate)
      requires Valid() && ValidConfig(c) && id < |dir| && !IsAnswer(p) && thread.Idle?
      modifies this`thread, this`socket, queue, queue.elems
      ensures Valid() && forall i | 0 <= i < |queue.elems| :: queue.elems[i] in old(queue.elems) || fresh(queue.elems[i])
      ensures fate == FateOf(c, dir, id, p)
      ensures Value() == if fate.Kept? then AcceptMod(old(Value()), id, p, fate.thread) else old(Value())
    {
      fate := Dropped;
      if p.kind == MESSAGE {
        var r := ProcessMessage(c, dir, p);
        if r.To? { fate := Kept(Some(r.dest), if Admitted(c, p) then Writing(p, r.dest) else Idle); }
      } else if p.kind == PAYLOAD {
        ProcessPayload(c, p);
        if p.cmd < |c.table.payloads| { fate := Kept(None, Idle); }
      }
    }

    /** `process_pkt_socket` with an answer. */
    method ProcessAnswer(c: Config, modules: nat, p: Packet)
      requires Valid() && IsAnswer(p) && thread.Idle?
      modifies this`thread, queue, queue.elems
      ensures Valid() && forall i | 0 <= i < |queue.elems| :: queue.elems[i] in old(queue.elems) || fresh(queue.elems[i])
      ensures Value() == AnswerMod(c, modules, old(Value()), p)
    {
      var origin := Dequeue(p.id);
      Turn(Reply(c, modules, origin, p));
    }

    /** What the thread does next. */
    method Turn(next: Thread)
      requires Valid()
      modifies this`thread
      ensures Valid() && Value() == old(Value()).(thread := next)
    {
      thread := next;
    }

    /** The record with this id leaves the queue. */
    method Dequeue(pktId: uint) returns (origin: Option<Q.SdbPacket>)
      requires Valid()
      modifies queue, queue.elems
      ensures Valid() && forall i | 0 <= i < |queue.elems| :: queue.elems[i] in old(queue.elems)
      ensures origin == Q.Take(old(queue.Contents()), pktId) && queue.Contents() == Q.Without(old(queue.Contents()), pktId)
      ensures Value() == old(Value()).(queue := Q.Without(old(queue.Contents()), pktId))
    {
      ghost var slot := region.Slot();
      origin := queue.Get(pktId);
      assert region.Slot() == slot;
    }

    /** `process_pkt_sdb`. */
    method ProcessSdb()
      requires Valid() && region.valid && Legible(region.Slot().value)
      modifies this`takes, this`socket, region, queue, queue.elems
      ensures Valid() && forall i | 0 <= i < |queue.elems| :: queue.elems[i] in old(queue.elems) || fresh(queue.elems[i])
      ensures Value() == ReadMod(old(Value()))
      ensures var p, q := ReadImage(old(region.Slot()).value).pkt, old(queue.Contents());
              socket == old(socket) + if IsAnswer(p) && forall k | 0 <= k < |q| :: q[k].pkt.id != p.id then [] else [Sent(p)]
    {
      var mail := TakeMail();
      PassOn(mail);
    }

    method TakeMail() returns (mail: Mail)
      requires Valid() && region.valid && Legible(region.Slot().value)
      modifies this`takes, region
      ensures Valid() && mail == ReadImage(old(region.Slot()).value)
      ensures Value() == old(Value()).(mailbox := None, takes := old(takes) + [mail])
    {
      mail := region.Read();
      takes := takes + [mail];
    }

    /** Requests are recorded and sent, answers sent if they are expected. */
    method PassOn(mail: Mail)
      requires Valid()
      modifies this`socket, queue, queue.elems
      ensures Valid() && forall i | 0 <= i < |queue.elems| :: queue.elems[i] in old(queue.elems) || fresh(queue.elems[i])
      ensures Value() == old(Value()).(queue := if IsAnswer(mail.pkt) then Q.Without(old(queue.Contents()), mail.pkt.id)
                                                else Q.Insert(old(queue.Contents()), Record(mail.from, mail.pkt)))
      ensures socket == old(socket) + if IsAnswer(mail.pkt) && Q.Take(old(queue.Contents()), mail.pkt.id).None? then []
                                      else [Sent(mail.pkt)]
    {
      if IsAnswer(mail.pkt) {
        TakeAnswer(mail.pkt);
      } else {
        Enqueue(mail.from, mail.pkt);
        socket := socket + [Sent(mail.pkt)];
      }
    }

    /** A packet is recorded with the module it came from. */
    method Enqueue(from: nat, p: Packet)
      requires Valid()
      modifies queue, queue.elems
      ensures Valid() && forall i | 0 <= i < |queue.elems| :: queue.elems[i] in old(queue.elems) || fresh(queue.elems[i])
      ensures Value() == old(Value()).(queue := Q.Insert(old(queue.Contents()), Record(from, p)))
    {
      queue.Push(Record(from, p));
    }

    /** An answer is passed on if the queue has its request, which then leaves the queue. */
    method TakeAnswer(p: Packet)
      requires Valid()
      modifies this`socket, queue, queue.elems
      ensures Valid() && forall i | 0 <= i < |queue.elems| :: queue.elems[i] in old(queue.elems)
      ensures Value() == old(Value()).(queue := Q.Without(old(queue.Contents()), p.id))
      ensures socket == old(socket) + if Q.Take(old(queue.Contents()), p.id).Some? then [Sent(p)] else []
    {
      var origin := Dequeue(p.id);
      if origin.Some? { socket := socket + [Sent(p)]; }
    }

    /** `sdb_module_write_mcs_packet` behind its size test, for the receiver, with its lock held and
        its slot free, unless the sender is the receiver itself. */
    method Receive(from: nat, p: Packet) returns (o: Outcome)
      requires Valid() && Backed(p) && (from != id ==> !region.valid)
      modifies this`puts, region, region.bytes
      ensures Valid()
      ensures o == if old(Value()).mailbox.Some? then Deadlocked
                   else if WriteImage(region.headerSize, from, p).None? then Overran else Written
      ensures Value() == if o == Written then PutMod(old(Value()), WriteImage(region.headerSize, from, p).value, Mail(from, p))
                         else old(Value())
    {
      if region.valid { return Deadlocked; }
      var fits := region.Write(from, p);
      if !fits { return Overran; }
      puts := puts + [Mail(from, p)];
      o := Written;
    }
  }
}
