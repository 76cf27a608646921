/** Answers over every run with distinct request ids: what reaches a client answers a request
    that client made, comes from the client the request was routed to, and comes once. */
module BusAnswers {
  import opened Mcs
  import Q = SdbQueue
  import opened Mailbox
  import opened Bus
  import opened BusMailbox
  import BusRouting

  // ----- where the packets of a request may be

  /** `r` is the request this packet belongs to, in the queue of module `j`. */
  predicate RecordOk(reqs: map<uint, Request>, j: nat, r: Q.SdbPacket) {
    && r.pkt.id in reqs
    && var req := reqs[r.pkt.id];
    && r.idProcess == req.origin && (j == req.origin || req.dest == Some(j))
  }

  /** A packet on its way from module `from` to module `to`. */
  predicate TransitOk(reqs: map<uint, Request>, from: nat, p: Packet, to: nat) {
    && p.id in reqs
    && var req := reqs[p.id];
    && (if IsAnswer(p) then to == req.origin && (from == req.origin || req.dest == Some(from))
        else from == req.origin && req.dest == Some(to))
  }

  predicate ModOk(reqs: map<uint, Request>, j: nat, m: Mod) {
    && (m.thread.Writing? ==> TransitOk(reqs, j, m.thread.pkt, m.thread.to))
    && (m.mailbox.Some? ==> TransitOk(reqs, Waiting(m).from, Waiting(m).pkt, j))
    && forall k | 0 <= k < |m.queue| :: RecordOk(reqs, j, m.queue[k])
  }

  /** The promise about one delivered answer. */
  predicate DeliveryOk(reqs: map<uint, Request>, d: Delivery) {
    && IsAnswer(d.pkt) && d.pkt.id in reqs
    && reqs[d.pkt.id].origin == d.to && reqs[d.pkt.id].dest == Some(d.from)
  }

  // ----- how many there may be

  function One(b: bool): nat {
    if b then 1 else 0
  }

  function Records(q: Q.Queue, id: uint): nat {
    if q == [] then 0 else One(q[0].pkt.id == id) + Records(q[1..], id)
  }

  function Deliveries(ds: seq<Delivery>, id: uint): nat {
    if ds == [] then 0 else Deliveries(ds[..|ds| - 1], id) + One(ds[|ds| - 1].pkt.id == id)
  }

  /** What module `m` has in hand of request `id`. A request a module sends to itself leaves
      two records in its queue; any other request leaves one with its sender, and an answer
      the sender makes up itself uses that one up. */
  function InHand(m: Mod, j: nat, id: uint, self: bool): nat {
    Records(m.queue, id)
    + One(m.thread.Writing? && m.thread.pkt.id == id && (self || IsAnswer(m.thread.pkt)))
    + One(m.mailbox.Some? && Waiting(m).pkt.id == id && (self || (IsAnswer(Waiting(m).pkt) && Waiting(m).from == j)))
  }

  predicate Budget(m: Mod, j: nat, id: uint, self: bool, delivered: nat) {
    InHand(m, j, id, self) + (if self then 2 * delivered else delivered) <= if self then 2 else 1
  }

  /** The budget of one request, kept by its sender. */
  predicate RequestOk(s: State, id: uint)
    requires id in s.reqs
  {
    var req := s.reqs[id];
    && req.origin < |s.mods|
    && Budget(s.mods[req.origin], req.origin, id, req.dest == Some(req.origin), Deliveries(s.delivered, id))
  }

  predicate Inv(s: State) {
    && |s.dir| == |s.mods|
    && (forall j | 0 <= j < |s.mods| :: ModOk(s.reqs, j, s.mods[j]))
    && (forall id | id in s.reqs :: RequestOk(s, id))
    && (forall i | 0 <= i < |s.delivered| :: DeliveryOk(s.reqs, s.delivered[i]))
  }

  // ----- counting

  lemma {:induction false} RecordsConcat(a: Q.Queue, b: Q.Queue, id: uint)
    ensures Records(a + b, id) == Records(a, id) + Records(b, id)
  {
    if a == [] {
      assert a + b == b;
    } else {
      assert (a + b)[1..] == a[1..] + b;
      RecordsConcat(a[1..], b, id);
    }
  }

  lemma RecordsInsert(q: Q.Queue, r: Q.SdbPacket, id: uint)
    ensures Records(Q.Insert(q, r), id) == Records(q, id) + One(r.pkt.id == id)
  {
    var k := Q.InsertPosition(q, r);
    RecordsConcat(q[..k] + [r], q[k..], id);
    RecordsConcat(q[..k], [r], id);
    RecordsConcat(q[..k], q[k..], id);
    assert q == q[..k] + q[k..];
  }

  lemma RecordsWithout(q: Q.Queue, gone: uint, id: uint)
    requires Q.Find(q, gone) < |q|
    ensures Records(q, id) == Records(Q.Without(q, gone), id) + One(gone == id)
  {
    var i := Q.Find(q, gone);
    assert q == q[..i] + ([q[i]] + q[i + 1..]);
    RecordsConcat(q[..i], [q[i]] + q[i + 1..], id);
    RecordsConcat([q[i]], q[i + 1..], id);
    RecordsConcat(q[..i], q[i + 1..], id);
  }

  lemma {:induction false} RecordsNone(q: Q.Queue, id: uint)
    requires forall k | 0 <= k < |q| :: q[k].pkt.id != id
    ensures Records(q, id) == 0
  {
    if q != [] { RecordsNone(q[1..], id); }
  }

  lemma {:induction false} DeliveriesNone(ds: seq<Delivery>, id: uint)
    requires forall k | 0 <= k < |ds| :: ds[k].pkt.id != id
    ensures Deliveries(ds, id) == 0
  {
    if ds != [] { DeliveriesNone(ds[..|ds| - 1], id); }
  }

  lemma InsertedOk(reqs: map<uint, Request>, j: nat, q: Q.Queue, r: Q.SdbPacket)
    requires RecordOk(reqs, j, r) && forall k | 0 <= k < |q| :: RecordOk(reqs, j, q[k])
    ensures forall k | 0 <= k < |Q.Insert(q, r)| :: RecordOk(reqs, j, Q.Insert(q, r)[k])
  {
    var i := Q.InsertPosition(q, r);
  }

  // ----- steps

  /** Nothing known so far changes when a request with a new id is recorded. */
  lemma ModGrows(reqs: map<uint, Request>, id: uint, req: Request, j: nat, m: Mod)
    requires id !in reqs && ModOk(reqs, j, m)
    ensures ModOk(reqs[id := req], j, m)
  {
  }

  /** A new id has left no trace yet. */
  lemma NoTrace(s: State, id: uint, j: nat)
    requires Inv(s) && id !in s.reqs && j < |s.mods|
    ensures Records(s.mods[j].queue, id) == 0 && Deliveries(s.delivered, id) == 0
  {
    assert ModOk(s.reqs, j, s.mods[j]);
    RecordsNone(s.mods[j].queue, id);
    DeliveriesNone(s.delivered, id);
  }

  lemma AcceptKeeps(s: State, m: nat, p: Packet, dest: Option<nat>, thread: Thread)
    requires Inv(s) && Ready(s, m) && p.id !in s.reqs && !IsAnswer(p)
    requires thread == Idle || (dest.Some? && thread == Writing(p, dest.value))
    ensures Inv(Accept(s, m, p, dest, thread))
  {
    var s' := Accept(s, m, p, dest, thread);
    var req := Request(m, dest, p);
    forall j | 0 <= j < |s.mods| ensures ModOk(s'.reqs, j, s'.mods[j]) {
      ModGrows(s.reqs, p.id, req, j, s.mods[j]);
      if j == m { InsertedOk(s'.reqs, m, s.mods[m].queue, Record(m, p)); }
    }
    forall id | id in s'.reqs ensures RequestOk(s', id) {
      RecordsInsert(s.mods[m].queue, Record(m, p), id);
      if id == p.id { NoTrace(s, id, m); } else { assert RequestOk(s, id); }
    }
  }

  lemma RequestKeeps(c: Config, s: State, m: nat, p: Packet)
    requires ValidConfig(c) && Enabled(c, s, RequestIn(m, p)) && Inv(s) && p.id !in s.reqs
    ensures Inv(StepRequest(c, s, m, p))
  {
    if p.kind == MESSAGE {
      match RouteMessage(c, s.dir, m, p)
      case To(d) => AcceptKeeps(s, m, p, Some(d), if Admitted(c, p) then Writing(p, d) else Idle);
      case _ =>
    } else if p.kind == PAYLOAD && p.cmd < |c.table.payloads| {
      AcceptKeeps(s, m, p, None, Idle);
    }
  }

  lemma AnswerKeeps(c: Config, s: State, m: nat, p: Packet)
    requires Enabled(c, s, AnswerIn(m, p)) && Inv(s)
    ensures Inv(StepAnswer(c, s, m, p))
  {
    var q := s.mods[m].queue;
    var s' := StepAnswer(c, s, m, p);
    if Q.Take(q, p.id).Some? {
      AnsweredMod(s.reqs, m, s.mods[m], p, s'.mods[m].thread);
      forall j | 0 <= j < |s'.mods| ensures ModOk(s'.reqs, j, s'.mods[j]) {
        assert ModOk(s.reqs, j, s.mods[j]);
      }
      forall id | id in s'.reqs ensures RequestOk(s', id) {
        RecordsWithout(q, p.id, id);
        assert RequestOk(s, id);
      }
    }
  }

  lemma AnsweredMod(reqs: map<uint, Request>, m: nat, mod: Mod, p: Packet, thread: Thread)
    requires ModOk(reqs, m, mod) && IsAnswer(p) && Q.Take(mod.queue, p.id).Some?
    requires thread == Idle || thread == Writing(p, Q.Take(mod.queue, p.id).value.idProcess)
    ensures ModOk(reqs, m, mod.(queue := Q.Without(mod.queue, p.id), thread := thread))
  {
    var i := Q.Find(mod.queue, p.id);
    assert RecordOk(reqs, m, mod.queue[i]);
    var q := Q.Without(mod.queue, p.id);
    forall k | 0 <= k < |q| ensures RecordOk(reqs, m, q[k]) {
      assert q[k] == mod.queue[if k < i then k else k + 1];
    }
  }

  lemma WriteKeeps(c: Config, s: State, m: nat)
    requires Enabled(c, s, Write(m)) && Inv(s) && BoxesOk(c, s)
    ensures Inv(StepWrite(c, s, m))
  {
    var s' := StepWrite(c, s, m);
    var Writing(p, to) := s.mods[m].thread;
    WriteShape(c, s, m);
    assert ModOk(s.reqs, m, s.mods[m]);
    forall j | 0 <= j < |s'.mods| ensures ModOk(s'.reqs, j, s'.mods[j]) {
      assert ModOk(s.reqs, j, s.mods[j]);
    }
    forall id | id in s'.reqs ensures RequestOk(s', id) {
      assert RequestOk(s, id);
      WriteBudget(c, s, m, id);
    }
  }

  /** A packet that moves from a thread to a mailbox adds to no request's account: coming from
      elsewhere it is an answer of the receiver, who is not the one keeping the account. */
  lemma WriteBudget(c: Config, s: State, m: nat, id: uint)
    requires Enabled(c, s, Write(m)) && BoxesOk(c, s)
    requires id in s.reqs && s.reqs[id].origin < |s.mods|
    requires TransitOk(s.reqs, m, s.mods[m].thread.pkt, s.mods[m].thread.to)
    ensures var o, self := s.reqs[id].origin, s.reqs[id].dest == Some(s.reqs[id].origin);
            InHand(StepWrite(c, s, m).mods[o], o, id, self) <= InHand(s.mods[o], o, id, self)
  {
    WriteShape(c, s, m);
  }

  lemma ReadKeeps(c: Config, s: State, m: nat)
    requires Enabled(c, s, ReadMail(m)) && Inv(s)
    ensures Inv(StepRead(s, m))
  {
    var p := Waiting(s.mods[m]).pkt;
    if !IsAnswer(p) {
      ReadRequestKeeps(s, m);
    } else if Q.Take(s.mods[m].queue, p.id).None? {
      ReadStrayKeeps(s, m);
    } else {
      ReadAnswerKeeps(s, m);
    }
  }

  lemma ReadStrayKeeps(s: State, m: nat)
    requires m < |s.mods| && s.mods[m].mailbox.Some? && IsAnswer(Waiting(s.mods[m]).pkt)
    requires Q.Take(s.mods[m].queue, Waiting(s.mods[m]).pkt.id).None? && Inv(s)
    ensures Inv(StepRead(s, m))
  {
    var s' := StepRead(s, m);
    forall j | 0 <= j < |s'.mods| ensures ModOk(s'.reqs, j, s'.mods[j]) {
      assert ModOk(s.reqs, j, s.mods[j]);
    }
    assert s.delivered + [] == s.delivered;
    forall id | id in s'.reqs ensures RequestOk(s', id) {
      assert RequestOk(s, id);
    }
  }

  lemma ReadRequestKeeps(s: State, m: nat)
    requires m < |s.mods| && s.mods[m].mailbox.Some? && !IsAnswer(Waiting(s.mods[m]).pkt) && Inv(s)
    ensures Inv(StepRead(s, m))
  {
    var mod := s.mods[m];
    var Mail(from, p) := Waiting(mod);
    assert ModOk(s.reqs, m, mod);
    InsertedOk(s.reqs, m, mod.queue, Record(from, p));
    assert s.delivered + [] == s.delivered;
    forall id | id in s.reqs ensures RequestOk(StepRead(s, m), id) {
      RecordsInsert(mod.queue, Record(from, p), id);
      assert RequestOk(s, id);
    }
  }

  lemma ReadAnswerKeeps(s: State, m: nat)
    requires m < |s.mods| && s.mods[m].mailbox.Some? && IsAnswer(Waiting(s.mods[m]).pkt)
    requires Q.Take(s.mods[m].queue, Waiting(s.mods[m]).pkt.id).Some? && Inv(s)
    ensures Inv(StepRead(s, m))
  {
    var mod := s.mods[m];
    var p := Waiting(mod).pkt;
    var s' := StepRead(s, m);
    AnsweredMod(s.reqs, m, mod, p, Idle);
    forall j | 0 <= j < |s'.mods| ensures ModOk(s'.reqs, j, s'.mods[j]) {
      assert ModOk(s.reqs, j, s.mods[j]);
    }
    ReadAnswerDelivers(s, m);
    forall id | id in s'.reqs ensures RequestOk(s', id) {
      ReadAnswerBudget(s, m, id);
    }
  }

  /** The answer is not one the requester made up: that would have used up the record it
      needs here. */
  lemma ReadAnswerDelivers(s: State, m: nat)
    requires m < |s.mods| && s.mods[m].mailbox.Some? && IsAnswer(Waiting(s.mods[m]).pkt)
    requires Q.Take(s.mods[m].queue, Waiting(s.mods[m]).pkt.id).Some? && Inv(s)
    ensures DeliveryOk(s.reqs, Delivery(m, Waiting(s.mods[m]).from, Waiting(s.mods[m]).pkt))
  {
    var mod := s.mods[m];
    var p := Waiting(mod).pkt;
    assert ModOk(s.reqs, m, mod);
    assert RequestOk(s, p.id);
    RecordsWithout(mod.queue, p.id, p.id);
  }

  lemma ReadAnswerBudget(s: State, m: nat, id: uint)
    requires m < |s.mods| && s.mods[m].mailbox.Some? && IsAnswer(Waiting(s.mods[m]).pkt)
    requires Q.Take(s.mods[m].queue, Waiting(s.mods[m]).pkt.id).Some? && Inv(s) && id in s.reqs
    ensures RequestOk(StepRead(s, m), id)
  {
    var mod := s.mods[m];
    var p := Waiting(mod).pkt;
    ReadAnswerDelivers(s, m);
    RecordsWithout(mod.queue, p.id, id);
    assert RequestOk(s, id);
    assert StepRead(s, m).delivered[..|s.delivered|] == s.delivered;
  }

  lemma StepKeeps(c: Config, s: State, l: Label)
    requires ValidConfig(c) && Enabled(c, s, l) && FreshId(s, l) && Inv(s) && BoxesOk(c, s)
    ensures Inv(Step(c, s, l))
  {
    match l
    case Register(a) =>
      forall id | id in s.reqs ensures RequestOk(Step(c, s, l), id) {
        assert RequestOk(s, id);
      }
    case RequestIn(m, p) => RequestKeeps(c, s, m, p);
    case AnswerIn(m, p) => AnswerKeeps(c, s, m, p);
    case Write(m) => WriteKeeps(c, s, m);
    case ReadMail(m) => ReadKeeps(c, s, m);
  }

  lemma {:induction false} RunKeeps(c: Config, ls: seq<Label>)
    requires ValidConfig(c) && Run(c, ls).Some? && DistinctIds(c, ls)
    ensures Inv(Run(c, ls).value)
  {
    if ls != [] {
      var init := ls[..|ls| - 1];
      RunKeeps(c, init);
      RunBoxes(c, init);
      StepKeeps(c, Run(c, init).value, ls[|ls| - 1]);
    }
  }

  lemma {:induction false} CountedOnce(ds: seq<Delivery>, i: nat, j: nat)
    requires i < j < |ds| && Deliveries(ds, ds[j].pkt.id) <= 1
    ensures ds[i].pkt.id != ds[j].pkt.id
  {
    var init := ds[..|ds| - 1];
    if j < |ds| - 1 {
      CountedOnce(init, i, j);
    } else {
      OnceCounts(init, i);
    }
  }

  lemma {:induction false} OnceCounts(ds: seq<Delivery>, i: nat)
    requires i < |ds|
    ensures Deliveries(ds, ds[i].pkt.id) >= 1
  {
    if i < |ds| - 1 { OnceCounts(ds[..|ds| - 1], i); }
  }

  // ----- back to what the clients did

  /** The request was read from its sender's socket, and routed where the table sends it. */
  predicate RequestTraced(c: Config, dir: seq<Agent>, ls: seq<Label>, id: uint, req: Request)
    requires ValidConfig(c)
  {
    && req.pkt.id == id && RequestIn(req.origin, req.pkt) in ls
    && (req.dest.Some? ==> Permitted(c, dir, req.origin, req.pkt, req.dest.value))
  }

  /** Answers on their way were read from a socket. */
  predicate AnswerTraced(ls: seq<Label>, from: nat, p: Packet) {
    IsAnswer(p) ==> AnswerIn(from, p) in ls
  }

  predicate ModTraced(ls: seq<Label>, j: nat, m: Mod) {
    && (m.thread.Writing? ==> AnswerTraced(ls, j, m.thread.pkt))
    && (m.mailbox.Some? ==> AnswerTraced(ls, Waiting(m).from, Waiting(m).pkt))
  }

  predicate Traced(c: Config, s: State, ls: seq<Label>)
    requires ValidConfig(c)
  {
    && |s.dir| == |s.mods|
    && (forall id | id in s.reqs :: RequestTraced(c, s.dir, ls, id, s.reqs[id]))
    && (forall j | 0 <= j < |s.mods| :: ModTraced(ls, j, s.mods[j]))
    && forall i | 0 <= i < |s.delivered| :: AnswerIn(s.delivered[i].from, s.delivered[i].pkt) in ls
  }

  lemma StepTraced(c: Config, s: State, ls: seq<Label>, l: Label)
    requires ValidConfig(c) && Enabled(c, s, l) && Traced(c, s, ls) && BoxesOk(c, s)
    ensures Traced(c, Step(c, s, l), ls + [l])
  {
    var s' := Step(c, s, l);
    forall id | id in s'.reqs ensures RequestTraced(c, s'.dir, ls + [l], id, s'.reqs[id]) {
      StepRequestTraced(c, s, ls, l, id);
    }
    forall j | 0 <= j < |s'.mods| ensures ModTraced(ls + [l], j, s'.mods[j]) {
      StepModTraced(c, s, ls, l, j);
    }
    if l.ReadMail? { assert ModTraced(ls, l.m, s.mods[l.m]); }
  }

  lemma StepRequestTraced(c: Config, s: State, ls: seq<Label>, l: Label, id: uint)
    requires ValidConfig(c) && Enabled(c, s, l) && Traced(c, s, ls) && id in Step(c, s, l).reqs
    ensures RequestTraced(c, Step(c, s, l).dir, ls + [l], id, Step(c, s, l).reqs[id])
  {
    if id in s.reqs { StillTraced(c, s.dir, ls, l, id, s.reqs[id]); }
    if l.RequestIn? && id == l.pkt.id { NewlyTraced(c, s, ls, l.m, l.pkt); }
  }

  lemma StillTraced(c: Config, dir: seq<Agent>, ls: seq<Label>, l: Label, id: uint, req: Request)
    requires ValidConfig(c) && RequestTraced(c, dir, ls, id, req)
    ensures RequestTraced(c, dir, ls + [l], id, req)
    ensures l.Register? ==> RequestTraced(c, dir + [l.agent], ls + [l], id, req)
  {
    if l.Register? && req.dest.Some? {
      BusRouting.PermittedStays(c, dir, l.agent, req.origin, req.pkt, req.dest.value);
    }
  }

  lemma NewlyTraced(c: Config, s: State, ls: seq<Label>, m: nat, p: Packet)
    requires ValidConfig(c) && Enabled(c, s, RequestIn(m, p))
    ensures var reqs := StepRequest(c, s, m, p).reqs;
            reqs == s.reqs || RequestTraced(c, s.dir, ls + [RequestIn(m, p)], p.id, reqs[p.id])
  {
    assert RequestIn(m, p) in ls + [RequestIn(m, p)];
  }

  lemma StepModTraced(c: Config, s: State, ls: seq<Label>, l: Label, j: nat)
    requires ValidConfig(c) && Enabled(c, s, l) && Traced(c, s, ls) && BoxesOk(c, s) && j < |Step(c, s, l).mods|
    ensures ModTraced(ls + [l], j, Step(c, s, l).mods[j])
  {
    assert j < |s.mods| ==> ModTraced(ls, j, s.mods[j]);
    if l.Write? {
      assert ModTraced(ls, l.m, s.mods[l.m]);
      WriteShape(c, s, l.m);
    }
  }

  lemma {:induction false} RunTraced(c: Config, ls: seq<Label>)
    requires ValidConfig(c) && Run(c, ls).Some?
    ensures Traced(c, Run(c, ls).value, ls)
  {
    if ls != [] {
      var init := ls[..|ls| - 1];
      RunTraced(c, init);
      RunBoxes(c, init);
      StepTraced(c, Run(c, init).value, init, ls[|ls| - 1]);
      assert init + [ls[|ls| - 1]] == ls;
    }
  }

  /** In every run with distinct request ids, self-sends included: an answer written to a
      client's socket carries the id of a command that client sent, was itself sent by the
      client of the module the command was routed to, and is the only one with that id. */
  lemma AnswersFindTheirRequests(c: Config, ls: seq<Label>)
    requires ValidConfig(c) && Run(c, ls).Some? && DistinctIds(c, ls)
    ensures var s := Run(c, ls).value;
            && (forall i | 0 <= i < |s.delivered| ::
                  var d := s.delivered[i];
                  && AnswerIn(d.from, d.pkt) in ls
                  && d.pkt.id in s.reqs
                  && var req := s.reqs[d.pkt.id].pkt;
                  && req.id == d.pkt.id && RequestIn(d.to, req) in ls
                  && Permitted(c, s.dir, d.to, req, d.from))
            && forall i, j | 0 <= i < j < |s.delivered| :: s.delivered[i].pkt.id != s.delivered[j].pkt.id
  {
    RunKeeps(c, ls);
    RunTraced(c, ls);
    var s := Run(c, ls).value;
    forall i | 0 <= i < |s.delivered|
      ensures DeliveryOk(s.reqs, s.delivered[i]) && RequestTraced(c, s.dir, ls, s.delivered[i].pkt.id, s.reqs[s.delivered[i].pkt.id])
    {
    }
    forall i, j | 0 <= i < j < |s.delivered| ensures s.delivered[i].pkt.id != s.delivered[j].pkt.id {
      assert RequestOk(s, s.delivered[j].pkt.id);
      CountedOnce(s.delivered, i, j);
    }
  }
}
