/** The System Data Bus as a state machine: one thread per module, each with a one-slot
    mailbox, a queue of outstanding packets and a socket to its client. A step is what a
    thread does between two points at which it can be made to wait. */
module Bus {
  import opened CText
  import opened Mcs
  import opened SdbQueue
  import opened Mailbox

  const ECMDFAULT := -108
  const EPERM := -13
  const EBADMODID := -104
  const MODULE_MAX := 20
  const GROUP_MAX := 5

  /** The command table, how many slots of a group list are looked at, and the size of the
      packet structure. */
  datatype Config = Config(table: Table, slots: nat, headerSize: nat)

  /** Group lists are arrays of `SDB_GROUP_MAX` entries. */
  predicate ValidConfig(c: Config) {
    && c.slots <= GROUP_MAX
    && forall i | 0 <= i < |c.table.messages| ::
         |c.table.messages[i].originGroups| == GROUP_MAX && |c.table.messages[i].destinationGroups| == GROUP_MAX
  }

  // ----- state

  /** What a module said in its handshake. */
  datatype Agent = Agent(name: Text, group: Group)

  /** A thread waits for work, or is about to put a packet in a mailbox. */
  datatype Thread = Idle | Writing(pkt: Packet, to: nat)

  /** A module. `puts` is what was written to its mailbox and `takes` what was read from it. */
  datatype Mod = Mod(thread: Thread, mailbox: Option<Image>, queue: Queue, puts: seq<Mail>, takes: seq<Mail>)

  /** A request that went into its sender's queue, and where it was routed: nowhere for a
      payload command. */
  datatype Request = Request(origin: nat, dest: Option<nat>, pkt: Packet)

  /** An answer that `process_pkt_sdb` wrote to a module's socket, and whose client sent it. */
  datatype Delivery = Delivery(to: nat, from: nat, pkt: Packet)

  /** `deadlock`: the branch that reports one was taken. `overrun`: a write ran over the end of a
      mailbox; what the bus does after that is not defined. */
  datatype State = State(
    dir: seq<Agent>, mods: seq<Mod>,
    reqs: map<uint, Request>, delivered: seq<Delivery>, deadlock: bool, overrun: bool)

  const EMPTY := State([], [], map[], [], false, false)

  function Record(from: nat, p: Packet): SdbPacket {
    SdbPacket(from, 0, p, 0)
  }

  // ----- routing

  /** The first registered module with this name; the number of modules when there is none. */
  function FirstNamed(dir: seq<Agent>, name: seq<byte>): (i: nat)
    ensures i <= |dir|
    ensures i < |dir| ==> dir[i].name == name
    ensures forall j | 0 <= j < i :: dir[j].name != name
  {
    if dir == [] || dir[0].name == name then 0 else 1 + FirstNamed(dir[1..], name)
  }

  predicate GroupAllowed(groups: seq<Group>, slots: nat, g: Group)
    requires slots <= |groups| && |groups| > 0
  {
    groups[0] == AnyGroup || g in groups[..slots]
  }

  /** The name a message goes to: the row's, or the packet's own for an `@` row. */
  function DestinationName(row: MessageRow, p: Packet): seq<byte>
    requires row.destination.Some?
  {
    if row.destination.value != [] && row.destination.value[0] == AT_SIGN then CString(Bytes(p.dest))
    else row.destination.value
  }

  /** An error for the sender, work for the bus itself, or a module to go to. */
  datatype Route = Refuse(code: int) | ForBus | To(dest: nat)

  function RouteMessage(c: Config, dir: seq<Agent>, sender: nat, p: Packet): Route
    requires ValidConfig(c) && sender < |dir|
  {
    if p.cmd >= |c.table.messages| then Refuse(ECMDFAULT)
    else
      var row := c.table.messages[p.cmd];
      if !GroupAllowed(row.originGroups, c.slots, dir[sender].group) then Refuse(EPERM)
      else if row.destination.None? then ForBus
      else
        var i := FirstNamed(dir, DestinationName(row, p));
        if i == |dir| then Refuse(EBADMODID)
        else if !GroupAllowed(row.destinationGroups, c.slots, dir[i].group) then Refuse(EPERM)
        else To(i)
  }

  /** What routing promises of a packet on its way from `from` to `to`: `to` is the first module
      with the name that the table or, for an `@` row, the packet gives, and each group stands in
      an inspected slot of its list, unless the list begins with ANY. */
  predicate Permitted(c: Config, dir: seq<Agent>, from: nat, p: Packet, to: nat)
    requires ValidConfig(c)
  {
    && from < |dir| && to < |dir| && p.cmd < |c.table.messages|
    && var MessageRow(_, destination, origins, destinations) := c.table.messages[p.cmd];
    && destination.Some?
    && var text := destination.value;
    && dir[to].name == (if text != [] && text[0] == AT_SIGN then CString(Bytes(p.dest)) else text)
    && (forall j | 0 <= j < to :: dir[j].name != dir[to].name)
    && (origins[0] == AnyGroup || exists i | 0 <= i < c.slots :: origins[i] == dir[from].group)
    && (destinations[0] == AnyGroup || exists i | 0 <= i < c.slots :: destinations[i] == dir[to].group)
  }

  // ----- steps

  datatype Label =
    | Register(agent: Agent)          // connection and handshake
    | RequestIn(m: nat, pkt: Packet)  // a command on the socket of `m`
    | AnswerIn(m: nat, pkt: Packet)   // an answer on the socket of `m`
    | Write(m: nat)                   // `m` fills a mailbox
    | ReadMail(m: nat)                // `m` empties its mailbox

  /** The size test before a mailbox is written. */
  predicate Admitted(c: Config, p: Packet) {
    c.headerSize + p.nargs + p.dataSize <= MODULE_DATA_SIZE
  }

  /** The main loop looks at the socket only with an empty mailbox. */
  predicate Ready(s: State, m: nat) {
    m < |s.mods| && s.mods[m].thread.Idle? && s.mods[m].mailbox.None?
  }

  predicate Enabled(c: Config, s: State, l: Label) {
    |s.dir| == |s.mods| && !s.overrun &&
    match l
    case Register(_) => |s.mods| < MODULE_MAX
    case RequestIn(m, p) => Ready(s, m) && !IsAnswer(p) && Backed(p)
    case AnswerIn(m, p) => Ready(s, m) && IsAnswer(p) && Backed(p)
    case Write(m) =>
      // The receiver's lock is free while it waits, and its own lock is the sender's already.
      && m < |s.mods| && s.mods[m].thread.Writing? && s.mods[m].thread.to < |s.mods|
      && var to := s.mods[m].thread.to;
      && (to == m || (s.mods[to].thread.Idle? && s.mods[to].mailbox.None?))
    case ReadMail(m) => m < |s.mods| && s.mods[m].thread.Idle? && s.mods[m].mailbox.Some?
  }

  function Step(c: Config, s: State, l: Label): State
    requires ValidConfig(c) && Enabled(c, s, l)
  {
    match l
    case Register(a) => s.(dir := s.dir + [a], mods := s.mods + [Mod(Idle, None, [], [], [])])
    case RequestIn(m, p) => StepRequest(c, s, m, p)
    case AnswerIn(m, p) => StepAnswer(c, s, m, p)
    case Write(m) => StepWrite(c, s, m)
    case ReadMail(m) => StepRead(s, m)
  }

  /** A request enters its sender's queue. */
  function AcceptMod(mod: Mod, m: nat, p: Packet, thread: Thread): Mod {
    mod.(queue := Insert(mod.queue, Record(m, p)), thread := thread)
  }

  function Accept(s: State, m: nat, p: Packet, dest: Option<nat>, thread: Thread): State
    requires m < |s.mods|
  {
    s.(mods := s.mods[m := AcceptMod(s.mods[m], m, p, thread)], reqs := s.reqs[p.id := Request(m, dest, p)])
  }

  /** What becomes of a command: nothing, a record, or a record and a packet on its way. */
  datatype Fate = Dropped | Kept(dest: Option<nat>, thread: Thread)

  /** `process_pkt_socket` on a command. Errors and state values go straight back to the
      socket and leave no trace here. */
  function FateOf(c: Config, dir: seq<Agent>, m: nat, p: Packet): Fate
    requires ValidConfig(c) && m < |dir|
  {
    if p.kind == MESSAGE then
      match RouteMessage(c, dir, m, p)
      case To(d) => Kept(Some(d), if Admitted(c, p) then Writing(p, d) else Idle)
      case _ => Dropped
    else if p.kind == PAYLOAD && p.cmd < |c.table.payloads| then Kept(None, Idle)
    else Dropped
  }

  function StepRequest(c: Config, s: State, m: nat, p: Packet): State
    requires ValidConfig(c) && Enabled(c, s, RequestIn(m, p))
  {
    match FateOf(c, s.dir, m, p)
    case Kept(dest, thread) => Accept(s, m, p, dest, thread)
    case Dropped => s
  }

  /** An answer goes back to whoever the request with its id came from. */
  function AnswerMod(c: Config, modules: nat, mod: Mod, p: Packet): Mod {
    mod.(queue := Without(mod.queue, p.id), thread := Reply(c, modules, Take(mod.queue, p.id), p))
  }

  function Reply(c: Config, modules: nat, origin: Option<SdbPacket>, p: Packet): Thread {
    if origin.Some? && origin.value.idProcess < modules && Admitted(c, p) then Writing(p, origin.value.idProcess) else Idle
  }

  /** `process_pkt_socket` on an answer. */
  function StepAnswer(c: Config, s: State, m: nat, p: Packet): State
    requires Enabled(c, s, AnswerIn(m, p))
  {
    s.(mods := s.mods[m := AnswerMod(c, |s.mods|, s.mods[m], p)])
  }

  /** A mailbox is filled. */
  function PutMod(mod: Mod, img: Image, mail: Mail): Mod {
    mod.(mailbox := Some(img), puts := mod.puts + [mail])
  }

  /** `sdb_module_write_mcs_packet`, once the lock is held. */
  function StepWrite(c: Config, s: State, m: nat): State
    requires m < |s.mods| && s.mods[m].thread.Writing? && s.mods[m].thread.to < |s.mods|
  {
    var Writing(p, to) := s.mods[m].thread;
    var sent := s.(mods := s.mods[m := s.mods[m].(thread := Idle)]);
    if sent.mods[to].mailbox.Some? then sent.(deadlock := true)
    else
      match WriteImage(c.headerSize, m, p)
      case None => sent.(overrun := true)
      case Some(img) => sent.(mods := sent.mods[to := PutMod(sent.mods[to], img, Mail(m, p))])
  }

  /** The mail is for the client: any request, and an answer to a request in the queue. */
  predicate Wanted(mod: Mod)
    requires mod.mailbox.Some?
  {
    var p := ReadImage(mod.mailbox.value).pkt;
    IsAnswer(p) ==> Take(mod.queue, p.id).Some?
  }

  /** A mailbox is emptied: a request enters the queue, an answer takes its request out. */
  function ReadMod(mod: Mod): Mod
    requires mod.mailbox.Some?
  {
    var mail := ReadImage(mod.mailbox.value);
    var read := mod.(mailbox := None, takes := mod.takes + [mail]);
    if IsAnswer(mail.pkt) then read.(queue := Without(mod.queue, mail.pkt.id))
    else read.(queue := Insert(mod.queue, Record(mail.from, mail.pkt)))
  }

  /** The answer that goes to the client when the mailbox is emptied, if any. */
  function Handed(mod: Mod, m: nat): seq<Delivery>
    requires mod.mailbox.Some?
  {
    var mail := ReadImage(mod.mailbox.value);
    if IsAnswer(mail.pkt) && Wanted(mod) then [Delivery(m, mail.from, mail.pkt)] else []
  }

  /** `process_pkt_sdb`. */
  function StepRead(s: State, m: nat): State
    requires m < |s.mods| && s.mods[m].mailbox.Some?
  {
    s.(mods := s.mods[m := ReadMod(s.mods[m])], delivered := s.delivered + Handed(s.mods[m], m))
  }

  // ----- runs

  /** The state after a run, if every step of it can be taken. */
  function Run(c: Config, ls: seq<Label>): Option<State>
    requires ValidConfig(c)
  {
    if ls == [] then Some(EMPTY)
    else
      match Run(c, ls[..|ls| - 1])
      case None => None
      case Some(s) => if Enabled(c, s, ls[|ls| - 1]) then Some(Step(c, s, ls[|ls| - 1])) else None
  }

  /** A request's id was not used before. */
  predicate FreshId(s: State, l: Label) {
    l.RequestIn? ==> l.pkt.id !in s.reqs
  }

  /** Requests are made with ids of their own. */
  predicate DistinctIds(c: Config, ls: seq<Label>)
    requires ValidConfig(c)
  {
    ls == [] || (DistinctIds(c, ls[..|ls| - 1]) &&
                 match Run(c, ls[..|ls| - 1])
                 case None => true
                 case Some(s) => FreshId(s, ls[|ls| - 1]))
  }
}
